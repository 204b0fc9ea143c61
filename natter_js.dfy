/**
 * The cookie reader of the Natter web client (`natter.js`): `getCookie`
 * finds the CSRF token the API set as a cookie, so the page can echo it
 * in the `X-CSRF-Token` header.
 */
module NatterJs {
  import opened Common
  import opened JavaStrings

  /** `decodeURIComponent`: `None` is the `URIError` of a malformed escape. */
  type UriDecoder = string -> Option<string>

  /** `xs.map(f)` for an `f` that may throw: `None` as soon as one element fails. */
  function MapAll<A, B>(f: A -> Option<B>, xs: seq<A>): (r: Option<seq<B>>)
    ensures r.Some? <==> forall k :: 0 <= k < |xs| ==> f(xs[k]).Some?
    ensures r.Some? ==> |r.value| == |xs| && forall k :: 0 <= k < |xs| ==> r.value[k] == f(xs[k]).value
    decreases |xs|
  {
    if xs == [] then Some([])
    else
      match f(xs[0])
      case None => None
      case Some(first) =>
        var rest := MapAll(f, xs[1..]);
        assert forall k :: 1 <= k < |xs| ==> xs[k] == xs[1..][k - 1];
        if rest.None? then None else Some([first] + rest.value)
  }

  /** `parts.map(x => decodeURIComponent(x.trim()))`: every part decoded, `None` for a `URIError`. */
  function DecodeParts(decode: UriDecoder, parts: seq<string>): (r: Option<seq<string>>)
    ensures r.Some? <==> forall k :: 0 <= k < |parts| ==> decode(JsTrim(parts[k])).Some?
    ensures r.Some? ==>
      |r.value| == |parts| && forall k :: 0 <= k < |parts| ==> r.value[k] == decode(JsTrim(parts[k])).value
    decreases |parts|
  {
    if parts == [] then Some([])
    else
      match decode(JsTrim(parts[0]))
      case None => None
      case Some(first) =>
        var rest := DecodeParts(decode, parts[1..]);
        assert forall k :: 1 <= k < |parts| ==> parts[k] == parts[1..][k - 1];
        if rest.None? then None else Some([first] + rest.value)
  }

  /** `item.split('=').map(...)`: one cookie item as its decoded `=`-separated parts. */
  function DecodeItem(decode: UriDecoder, item: string): (row: Option<seq<string>>)
    ensures row.Some? ==> |row.value| == |Pieces(item, '=')| >= 1
  {
    DecodeParts(decode, Pieces(item, '='))
  }

  /** Every cookie item, decoded: one row of parts per item, or `None` for a `URIError`. */
  function DecodeItems(decode: UriDecoder, items: seq<string>): (rows: Option<seq<seq<string>>>)
    ensures rows.Some? <==> forall k :: 0 <= k < |items| ==> DecodeItem(decode, items[k]).Some?
    ensures rows.Some? ==>
      |rows.value| == |items| && forall k :: 0 <= k < |items| ==> rows.value[k] == DecodeItem(decode, items[k]).value
  {
    MapAll(item => DecodeItem(decode, item), items)
  }

  /** The row is a cookie of this name: `item[0] === cookieName`. */
  predicate Named(row: seq<string>, name: string) {
    |row| > 0 && row[0] == name
  }

  /** `rows.filter(item => item[0] === cookieName)[0]`, as the index of the first such row. */
  function FirstNamed(rows: seq<seq<string>>, name: string): (i: Option<nat>)
    ensures i.None? <==> forall k :: 0 <= k < |rows| ==> !Named(rows[k], name)
    ensures i.Some? ==>
      i.value < |rows| && Named(rows[i.value], name) && forall k :: 0 <= k < i.value ==> !Named(rows[k], name)
    decreases |rows|
  {
    if rows == [] then None
    else if Named(rows[0], name) then Some(0)
    else
      var rest := FirstNamed(rows[1..], name);
      assert forall k :: 1 <= k < |rows| ==> rows[k] == rows[1..][k - 1];
      if rest.None? then None else Some(rest.value + 1)
  }

  /** The first row with a name is the one at `j` when no earlier row has it. */
  lemma FirstNamedAt(rows: seq<seq<string>>, name: string, j: nat)
    requires j < |rows| && Named(rows[j], name) && forall k :: 0 <= k < j ==> !Named(rows[k], name)
    ensures FirstNamed(rows, name) == Some(j)
  {
  }

  /**
   * `getCookie(cookieName)` on `document.cookie`: the second decoded part
   * of the first item whose decoded name matches; `undefined` (`None`)
   * when no item matches or the matching item has no `=`.
   */
  function GetCookie(decode: UriDecoder, cookie: string, cookieName: string): (r: Result<Option<string>, Exception>)
    ensures r.Err? <==> DecodeItems(decode, Pieces(cookie, ';')).None?
    ensures r.Err? ==> r.error == UriError
    ensures r.Ok? ==> var rows := DecodeItems(decode, Pieces(cookie, ';')).value;
      (FirstNamed(rows, cookieName).None? ==> r.value.None?) &&
      (FirstNamed(rows, cookieName).Some? ==>
        var row := rows[FirstNamed(rows, cookieName).value];
        (r.value.Some? <==> |row| >= 2) && (r.value.Some? ==> r.value.value == row[1]))
  {
    match DecodeItems(decode, Pieces(cookie, ';'))
    case None => Err(UriError)
    case Some(rows) =>
      match FirstNamed(rows, cookieName)
      case None => Ok(None)
      case Some(i) => if |rows[i]| >= 2 then Ok(Some(rows[i][1])) else Ok(None)
  }

  /** Text the cookie syntax leaves alone: no separator, and trimming and decoding give it back. */
  predicate Plain(decode: UriDecoder, s: string) {
    ';' !in s && '=' !in s && decode(JsTrim(s)) == Some(s)
  }

  /** A cookie item of plain parts splits and decodes to exactly those parts. */
  lemma ItemParts(decode: UriDecoder, parts: seq<string>)
    requires |parts| >= 1 && forall k :: 0 <= k < |parts| ==> Plain(decode, parts[k])
    ensures DecodeItem(decode, Join("=", parts)) == Some(parts)
  {
    var item := Join("=", parts);
    PiecesJoin(parts, '=');
    assert Pieces(item, '=') == parts;
    var row := DecodeParts(decode, parts);
    assert row.Some?;
    assert row.value == parts;
  }

  /** Plain parts joined with `=` hold no `;`. */
  lemma ItemHasNoSemicolon(decode: UriDecoder, parts: seq<string>)
    requires forall k :: 0 <= k < |parts| ==> Plain(decode, parts[k])
    ensures ';' !in Join("=", parts)
  {
    forall c | c in Join("=", parts) ensures c != ';' {
      NoNewLetters(parts, "=", c);
    }
  }

  /** Every character of a joined string comes from a part or the separator. */
  lemma {:induction false} NoNewLetters(parts: seq<string>, sep: string, c: char)
    requires c in Join(sep, parts)
    ensures c in sep || exists k :: 0 <= k < |parts| && c in parts[k]
    decreases |parts|
  {
    if |parts| > 1 {
      var rest := Join(sep, parts[1..]);
      assert Join(sep, parts) == parts[0] + sep + rest;
      if c in rest {
        NoNewLetters(parts[1..], sep, c);
        if !(c in sep) {
          var k :| 0 <= k < |parts[1..]| && c in parts[1..][k];
          assert c in parts[k + 1];
        }
      } else if c !in sep {
        assert c in parts[0];
      }
    } else {
      assert c in parts[0];
    }
  }

  /**
   * Reading back a cookie string of `name=value` items whose names and
   * values are plain gives the value of the first item with that name.
   */
  lemma CookieFound(decode: UriDecoder, names: seq<string>, values: seq<string>, items: seq<string>, j: nat)
    requires |names| == |values| == |items| && j < |names|
    requires forall k :: 0 <= k < |items| ==> items[k] == names[k] + "=" + values[k]
    requires forall k :: 0 <= k < |names| ==> Plain(decode, names[k]) && Plain(decode, values[k])
    requires forall k :: 0 <= k < j ==> names[k] != names[j]
    ensures GetCookie(decode, Join(";", items), names[j]) == Ok(Some(values[j]))
  {
    var rows := ItemsDecoded(decode, names, values, items);
    forall k | 0 <= k <= j ensures Named(rows[k], names[j]) <==> k == j {
      assert rows[k] == [names[k], values[k]];
    }
    FirstNamedAt(rows, names[j], j);
    assert rows[j] == [names[j], values[j]];
  }

  /** A cookie string of plain `name=value` items decodes to one `[name, value]` row per item. */
  lemma ItemsDecoded(decode: UriDecoder, names: seq<string>, values: seq<string>, items: seq<string>)
    returns (rows: seq<seq<string>>)
    requires |names| == |values| == |items| >= 1
    requires forall k :: 0 <= k < |items| ==> items[k] == names[k] + "=" + values[k]
    requires forall k :: 0 <= k < |names| ==> Plain(decode, names[k]) && Plain(decode, values[k])
    ensures DecodeItems(decode, Pieces(Join(";", items), ';')) == Some(rows)
    ensures |rows| == |items| && forall k :: 0 <= k < |items| ==> rows[k] == [names[k], values[k]]
  {
    forall k | 0 <= k < |items|
      ensures ';' !in items[k] && DecodeItem(decode, items[k]) == Some([names[k], values[k]])
    {
      assert items[k] == Join("=", [names[k], values[k]]);
      ItemParts(decode, [names[k], values[k]]);
      ItemHasNoSemicolon(decode, [names[k], values[k]]);
    }
    PiecesJoin(items, ';');
    rows := DecodeItems(decode, items).value;
  }

  /**
   * A value is only the text between an item's first and second `=`:
   * `name=a=b` reads as `a`, so a cookie value that holds `=` (base64
   * padding, say) comes back truncated.
   */
  lemma ValueEndsAtSecondEquals(decode: UriDecoder, parts: seq<string>)
    requires |parts| >= 3 && forall k :: 0 <= k < |parts| ==> Plain(decode, parts[k])
    ensures GetCookie(decode, Join("=", parts), parts[0]) == Ok(Some(parts[1]))
  {
    ItemParts(decode, parts);
    ItemHasNoSemicolon(decode, parts);
    var s := Join("=", parts);
    assert IndexOf(s, ';') == -1;
    var rows := DecodeItems(decode, Pieces(s, ';')).value;
    assert rows == [parts];
    assert Named(rows[0], parts[0]);
  }
}
