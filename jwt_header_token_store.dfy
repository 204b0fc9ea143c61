/**
 * `JwtHeaderTokenStore`: a decorator that prefixes the wrapped store's id
 * with the base64url encoding of a fixed JSON header and a dot. A token is
 * split at its FIRST dot, so the wrapped id may contain dots. `read` insists
 * that the supplied header carries every configured key with the configured
 * value; `revoke` does not look at the header at all.
 */
module JwtHeaderTokenStore {
  import opened Common
  import opened JavaStrings
  import opened Base64url
  import opened TokenStore

  /** A JSON object as `org.json` reads it, with its values kept as text. */
  type Json = map<string, string>

  /** `new JSONObject(new String(bytes, UTF_8))`: `None` is a `JSONException`. */
  type Parser = seq<byte> -> Option<Json>

  /** `create`: the encoded header bytes, a dot, and the wrapped store's id. */
  function Create(headerBytes: seq<byte>, tokenId: string): (r: string)
    ensures var h := EncodeUrl(headerBytes);
      IndexOf(r, '.') == |h| && r[..|h|] == h && r[|h| + 1..] == tokenId
  {
    var h := EncodeUrl(headerBytes);
    var r := h + "." + tokenId;
    assert r[..|h|] == h && r[|h| + 1..] == tokenId;
    r
  }

  /**
   * The `for` loop over the configured header, in its key order: a supplied
   * header without a configured key makes `get` throw; the first differing
   * value ends the loop with `false`.
   */
  function HeaderMatches(expected: seq<(string, string)>, supplied: Json): (r: Result<bool, Exception>)
    ensures r == Ok(true) <==> forall k :: 0 <= k < |expected| ==> expected[k].0 in supplied && supplied[expected[k].0] == expected[k].1
    ensures r.Err? ==> r.error == JsonFailure && exists k :: 0 <= k < |expected| && expected[k].0 !in supplied
  {
    if expected == [] then Ok(true)
    else
      var (key, value) := expected[0];
      if key !in supplied then Err(JsonFailure)
      else if supplied[key] != value then Ok(false)
      else
        var r := HeaderMatches(expected[1..], supplied);
        assert forall k :: 1 <= k < |expected| ==> expected[k] == expected[1..][k - 1];
        r
  }

  /** Keys the configured header does not mention do not change the outcome. */
  lemma {:induction false} ExtraKeysIgnored(expected: seq<(string, string)>, supplied: Json, extra: Json)
    requires forall k :: 0 <= k < |expected| ==> expected[k].0 !in extra
    ensures HeaderMatches(expected, supplied + extra) == HeaderMatches(expected, supplied)
  {
    if expected != [] {
      ExtraKeysIgnored(expected[1..], supplied, extra);
    }
  }

  /**
   * The header half of `read`: the part before the first dot must decode
   * and parse (the decoder and the parser throw otherwise) and then match
   * the configured header.
   */
  function CheckHeader(parse: Parser, expected: seq<(string, string)>, encoded: string): (r: Result<bool, Exception>)
    ensures DecodeUrl(encoded).None? ==> r == Err(IllegalArgument("Illegal base64 character"))
    ensures DecodeUrl(encoded).Some? ==>
      var supplied := parse(DecodeUrl(encoded).value);
      (supplied.None? ==> r == Err(JsonFailure)) &&
      (supplied.Some? ==> (r == Ok(true) <==> forall k :: 0 <= k < |expected| ==>
        expected[k].0 in supplied.value && supplied.value[expected[k].0] == expected[k].1))
  {
    match DecodeUrl(encoded)
    case None => Err(IllegalArgument("Illegal base64 character"))
    case Some(decoded) =>
      match parse(decoded)
      case None => Err(JsonFailure)
      case Some(supplied) => HeaderMatches(expected, supplied)
  }

  /**
   * `read`: no dot gives empty; the wrapped store is asked for the id after
   * the first dot only when the header before it checks out.
   */
  function Read(parse: Parser, expected: seq<(string, string)>, delegate: Reader, tokenId: string)
    : (r: Result<Option<Token>, Exception>)
    ensures '.' !in tokenId ==> r == Ok(None)
    ensures '.' in tokenId ==>
      var i := IndexOf(tokenId, '.');
      var c := CheckHeader(parse, expected, tokenId[..i]);
      (r.Err? <==> c.Err?) && (c == Ok(false) ==> r == Ok(None)) && (c == Ok(true) ==> r == Ok(delegate(tokenId[i + 1..])))
  {
    var index := IndexOf(tokenId, '.');
    if index == -1 then Ok(None)
    else
      match CheckHeader(parse, expected, tokenId[..index])
      case Err(e) => Err(e)
      case Ok(false) => Ok(None)
      case Ok(true) => Ok(delegate(tokenId[index + 1..]))
  }

  /** `revoke`: the id after the first dot, with no header check; nothing without a dot. */
  function Revoke(tokenId: string): (revoked: Option<string>)
    ensures revoked.None? <==> '.' !in tokenId
    ensures revoked.Some? ==> exists h :: tokenId == h + "." + revoked.value && '.' !in h
  {
    var index := IndexOf(tokenId, '.');
    if index == -1 then None
    else
      assert tokenId == tokenId[..index] + "." + tokenId[index + 1..];
      Some(tokenId[index + 1..])
  }

  /**
   * A created token whose header parses back to a JSON object that agrees
   * with the configured header reads as the wrapped store's token and
   * revokes the wrapped id, even when that id contains dots.
   */
  lemma ReadCreate(parse: Parser, expected: seq<(string, string)>, delegate: Reader,
                   headerBytes: seq<byte>, header: Json, tokenId: string)
    requires parse(headerBytes) == Some(header)
    requires forall k :: 0 <= k < |expected| ==> expected[k].0 in header && header[expected[k].0] == expected[k].1
    ensures Read(parse, expected, delegate, Create(headerBytes, tokenId)) == Ok(delegate(tokenId))
    ensures Revoke(Create(headerBytes, tokenId)) == Some(tokenId)
  {
    RoundTrip(headerBytes);
  }

  /** A header that parses but has a configured key with another value makes `read` empty. */
  lemma MismatchRejected(parse: Parser, expected: seq<(string, string)>, delegate: Reader,
                         headerBytes: seq<byte>, header: Json, tokenId: string)
    requires parse(headerBytes) == Some(header)
    requires forall k :: 0 <= k < |expected| ==> expected[k].0 in header
    requires exists k :: 0 <= k < |expected| && header[expected[k].0] != expected[k].1
    ensures Read(parse, expected, delegate, Create(headerBytes, tokenId)) == Ok(None)
  {
    RoundTrip(headerBytes);
    var r := HeaderMatches(expected, header);
    assert r != Ok(true);
  }
}
