/**
 * `HmacTokenStore`: a decorator that appends a dot and the unpadded
 * base64url HMAC-SHA256 tag of the wrapped store's token id. A token is
 * split at its LAST dot, so the wrapped id may itself contain dots, and the
 * wrapped store is consulted only when the tag matches. A tag that is not
 * base64url is an `IllegalArgumentException` from the decoder, which
 * `read` and `revoke` do not catch.
 */
module HmacTokenStore {
  import opened Common
  import opened JavaStrings
  import opened Base64url
  import opened TokenStore

  /** HMAC-SHA256 of the UTF-8 bytes of a string, under the store's key. */
  type Mac = string -> seq<byte>

  /** `create`: the wrapped store's id, a dot, and the base64url tag of the id. */
  function Create(mac: Mac, tokenId: string): (r: string)
    ensures SignedAs(mac, r, tokenId)
  {
    var tag := EncodeUrl(mac(tokenId));
    var r := tokenId + "." + tag;
    assert r[..|tokenId|] == tokenId && r[|tokenId| + 1..] == tag;
    RoundTrip(mac(tokenId));
    r
  }

  /** `tokenId` is `id`, a dot, and a tag without dots that decodes to the HMAC of `id`. */
  predicate SignedAs(mac: Mac, tokenId: string, id: string)
  {
    |id| < |tokenId| && tokenId[..|id|] == id && tokenId[|id|] == '.' &&
    '.' !in tokenId[|id| + 1..] && DecodeUrl(tokenId[|id| + 1..]) == Some(mac(id))
  }

  /** A dot with no dot after it is the one `lastIndexOf` finds. */
  lemma LastDot(s: string, i: nat)
    requires i < |s| && s[i] == '.' && '.' !in s[i + 1..]
    ensures LastIndexOf(s, '.') == i
  {
  }

  /** Nothing after the last dot is a dot. */
  lemma AfterLastDot(s: string)
    requires LastIndexOf(s, '.') >= 0
    ensures '.' !in s[LastIndexOf(s, '.') + 1..]
  {
  }

  /**
   * The check `read` and `revoke` share: split at the last dot, decode the
   * tag, compare it with the HMAC of the prefix. The prefix when the tag
   * matches; `None` without a dot or on a mismatch.
   */
  function Verify(mac: Mac, tokenId: string): (r: Result<Option<string>, Exception>)
    ensures '.' !in tokenId ==> r == Ok(None)
  {
    var index := LastIndexOf(tokenId, '.');
    if index == -1 then Ok(None)
    else
      match DecodeUrl(tokenId[index + 1..])
      case None => Err(IllegalArgument("Illegal base64 character"))
      case Some(provided) =>
        if provided == mac(tokenId[..index]) then Ok(Some(tokenId[..index])) else Ok(None)
  }

  /** The verified id is exactly the `id` the token is signed as. */
  lemma VerifyExactly(mac: Mac, tokenId: string, id: string)
    ensures Verify(mac, tokenId) == Ok(Some(id)) <==> SignedAs(mac, tokenId, id)
  {
    if SignedAs(mac, tokenId, id) {
      LastDot(tokenId, |id|);
    }
    if Verify(mac, tokenId) == Ok(Some(id)) {
      AfterLastDot(tokenId);
    }
  }

  /** `read`: the wrapped store's token for a verified id, without asking it otherwise. */
  function Read(mac: Mac, delegate: Reader, tokenId: string): (r: Result<Option<Token>, Exception>)
    ensures r.Err? <==> Verify(mac, tokenId).Err?
    ensures Verify(mac, tokenId) == Ok(None) ==> r == Ok(None)
    ensures forall id :: Verify(mac, tokenId) == Ok(Some(id)) ==> r == Ok(delegate(id))
  {
    match Verify(mac, tokenId)
    case Err(e) => Err(e)
    case Ok(None) => Ok(None)
    case Ok(Some(id)) => Ok(delegate(id))
  }

  /**
   * `revoke`: the id the wrapped store is asked to revoke, if any: exactly
   * the id whose token `read` would return.
   */
  function Revoke(mac: Mac, tokenId: string): (revoked: Result<Option<string>, Exception>)
    ensures revoked.Err? <==> forall delegate: Reader :: Read(mac, delegate, tokenId).Err?
    ensures revoked.Ok? && revoked.value.Some? ==> forall delegate: Reader ::
      Read(mac, delegate, tokenId) == Ok(delegate(revoked.value.value))
    ensures revoked.Ok? && revoked.value.None? ==> forall delegate: Reader :: Read(mac, delegate, tokenId) == Ok(None)
  {
    var r := Verify(mac, tokenId);
    assert r.Ok? ==> Read(mac, _ => None, tokenId).Ok?;
    r
  }

  /** A created token reads back as the wrapped store's token and revokes its id, even when the id has dots. */
  lemma ReadCreate(mac: Mac, delegate: Reader, tokenId: string)
    ensures Read(mac, delegate, Create(mac, tokenId)) == Ok(delegate(tokenId))
    ensures Revoke(mac, Create(mac, tokenId)) == Ok(Some(tokenId))
  {
    VerifyExactly(mac, Create(mac, tokenId), tokenId);
  }

  /** A token `read` accepts is signed as the id whose token it returns. */
  lemma ReadAcceptsOnlySigned(mac: Mac, delegate: Reader, tokenId: string, t: Token)
    requires Read(mac, delegate, tokenId) == Ok(Some(t))
    ensures exists id :: SignedAs(mac, tokenId, id) && delegate(id) == Some(t)
  {
    var id := Verify(mac, tokenId).value.value;
    VerifyExactly(mac, tokenId, id);
  }

  /** A tag that decodes to anything but the HMAC of the id makes `read` empty and `revoke` a no-op. */
  lemma WrongTagRejected(mac: Mac, delegate: Reader, id: string, tag: string, provided: seq<byte>)
    requires '.' !in tag && DecodeUrl(tag) == Some(provided) && provided != mac(id)
    ensures Read(mac, delegate, id + "." + tag) == Ok(None)
    ensures Revoke(mac, id + "." + tag) == Ok(None)
  {
    var t := id + "." + tag;
    assert t[..|id|] == id && t[|id| + 1..] == tag;
    LastDot(t, |id|);
  }
}
