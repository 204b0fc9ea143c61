/**
 * The `java.lang.String` and JavaScript string operations the modelled code
 * relies on, with the edge cases of their library definitions: `indexOf` and
 * `lastIndexOf` give -1 when the character is absent, Java's `split` drops
 * trailing empty strings, `trim` removes a fixed set of characters.
 */
module JavaStrings {

  /** `s.indexOf(c)`: the first position of `c` in `s`, or -1. */
  function IndexOf(s: string, c: char): (i: int)
    ensures -1 <= i < |s|
    ensures i >= 0 ==> s[i] == c && c !in s[..i]
    ensures i == -1 <==> c !in s
  {
    if |s| == 0 then -1
    else if s[0] == c then 0
    else
      var j := IndexOf(s[1..], c);
      if j == -1 then -1
      else
        assert s[..j + 1] == [s[0]] + s[1..][..j];
        j + 1
  }

  /** The first `c` in a string that joins a `c`-free prefix to the rest with `c` is the joining one. */
  lemma IndexOfJoined(a: string, c: char, b: string)
    requires c !in a
    ensures IndexOf(a + [c] + b, c) == |a|
    ensures (a + [c] + b)[..|a|] == a && (a + [c] + b)[|a| + 1..] == b
  {
    var s := a + [c] + b;
    assert s[|a|] == c && s[..|a|] == a;
  }

  /** `s.lastIndexOf(c)`: the last position of `c` in `s`, or -1. */
  function LastIndexOf(s: string, c: char): (i: int)
    ensures -1 <= i < |s|
    ensures i >= 0 ==> s[i] == c && forall k :: i < k < |s| ==> s[k] != c
    ensures i == -1 <==> c !in s
  {
    if |s| == 0 then -1
    else if s[|s| - 1] == c then |s| - 1
    else
      LastIndexOf(s[..|s| - 1], c)
  }

  /** `s.startsWith(p)`. */
  predicate StartsWith(s: string, p: string) {
    |p| <= |s| && s[..|p|] == p
  }

  /** `s` holds `sub` at position `i`. */
  predicate OccursAt(s: string, sub: string, i: int) {
    0 <= i && i + |sub| <= |s| && s[i..i + |sub|] == sub
  }

  /** `s.contains(sub)`, found by sliding `sub` along `s`. */
  function Contains(s: string, sub: string): (b: bool)
    ensures b <==> exists i :: OccursAt(s, sub, i)
    decreases |s|
  {
    if StartsWith(s, sub) then
      assert OccursAt(s, sub, 0);
      true
    else if |s| == 0 then
      assert forall i :: !OccursAt(s, sub, i);
      false
    else
      var r := Contains(s[1..], sub);
      assert forall i :: OccursAt(s, sub, i + 1) <==> OccursAt(s[1..], sub, i) by {
        forall i ensures OccursAt(s, sub, i + 1) <==> OccursAt(s[1..], sub, i) {
          if 0 <= i && i + 1 + |sub| <= |s| {
            assert s[i + 1..i + 1 + |sub|] == s[1..][i..i + |sub|];
          }
        }
      }
      assert !OccursAt(s, sub, 0);
      assert r ==> exists i :: OccursAt(s, sub, i) by {
        if r {
          var i :| OccursAt(s[1..], sub, i);
          assert OccursAt(s, sub, i + 1);
        }
      }
      assert (exists i :: OccursAt(s, sub, i)) ==> r by {
        if exists i :: OccursAt(s, sub, i) {
          var i :| OccursAt(s, sub, i);
          assert i != 0;
          assert OccursAt(s[1..], sub, i - 1);
        }
      }
      r
  }

  /** Every character of a contained string occurs in the containing one. */
  lemma ContainsLetters(s: string, sub: string)
    requires Contains(s, sub)
    ensures forall c :: c in sub ==> c in s
  {
    var i :| OccursAt(s, sub, i);
    forall c | c in sub ensures c in s {
      var k :| 0 <= k < |sub| && sub[k] == c;
      assert s[i + k] == s[i..i + |sub|][k];
    }
  }

  /** The pieces of `s` between occurrences of `c`, empty ones included (JavaScript's `split`). */
  function Pieces(s: string, c: char): (r: seq<string>)
    ensures |r| >= 1
    ensures forall k :: 0 <= k < |r| ==> c !in r[k]
    decreases |s|
  {
    var i := IndexOf(s, c);
    if i == -1 then [s] else [s[..i]] + Pieces(s[i + 1..], c)
  }

  /** `String.join(sep, parts)`. */
  function Join(sep: string, parts: seq<string>): string
    decreases |parts|
  {
    if |parts| == 0 then ""
    else if |parts| == 1 then parts[0]
    else parts[0] + sep + Join(sep, parts[1..])
  }

  /** `String.join` of a first part and at least one more. */
  lemma JoinCons(sep: string, first: string, rest: seq<string>)
    requires |rest| >= 1
    ensures Join(sep, [first] + rest) == first + sep + Join(sep, rest)
  {
    assert ([first] + rest)[1..] == rest;
  }

  /** Joining the pieces with the separator gives back the string. */
  lemma {:induction false} JoinPieces(s: string, c: char)
    ensures Join([c], Pieces(s, c)) == s
    decreases |s|
  {
    var i := IndexOf(s, c);
    if i != -1 {
      var rest := Pieces(s[i + 1..], c);
      assert Pieces(s, c) == [s[..i]] + rest;
      JoinCons([c], s[..i], rest);
      JoinPieces(s[i + 1..], c);
      assert s == s[..i] + [c] + s[i + 1..];
    }
  }

  /** Java's `split` with limit 0 removes trailing empty strings. */
  function DropTrailingEmpty(r: seq<string>): (t: seq<string>)
    ensures |t| <= |r| && t == r[..|t|]
    ensures |t| > 0 ==> t[|t| - 1] != ""
    ensures forall k :: |t| <= k < |r| ==> r[k] == ""
  {
    if |r| == 0 then []
    else if r[|r| - 1] == "" then DropTrailingEmpty(r[..|r| - 1])
    else r
  }

  /**
   * `s.split(String.valueOf(c))` for a separator that is not a regular
   * expression metacharacter: no occurrence gives `[s]` (so `""` gives
   * `[""]`), otherwise the pieces without the trailing empty ones.
   */
  function Split(s: string, c: char): (r: seq<string>)
    ensures forall k :: 0 <= k < |r| ==> c !in r[k]
  {
    if c !in s then [s] else DropTrailingEmpty(Pieces(s, c))
  }

  /** A non-empty word is an element of `Split` exactly when it is one of the pieces. */
  lemma SplitMembers(s: string, c: char, w: string)
    requires w != ""
    ensures w in Split(s, c) <==> w in Pieces(s, c)
  {
    var p := Pieces(s, c);
    if c !in s {
      assert IndexOf(s, c) == -1;
      assert p == [s];
    } else {
      var t := DropTrailingEmpty(p);
      if w in p {
        var k :| 0 <= k < |p| && p[k] == w;
        assert k < |t|;
        assert t[k] == w;
      }
    }
  }

  /** Splitting joined pieces that hold no separator gives the pieces back. */
  lemma {:induction false} PiecesJoin(parts: seq<string>, c: char)
    requires |parts| >= 1 && forall k :: 0 <= k < |parts| ==> c !in parts[k]
    ensures Pieces(Join([c], parts), c) == parts
    decreases |parts|
  {
    if |parts| == 1 {
      assert IndexOf(parts[0], c) == -1;
    } else {
      var a, rest := parts[0], Join([c], parts[1..]);
      var s := Join([c], parts);
      assert s == a + [c] + rest;
      assert s[|a|] == c && s[..|a|] == a && s[|a| + 1..] == rest;
      assert IndexOf(s, c) == |a|;
      PiecesJoin(parts[1..], c);
    }
  }

  /** `String.join` and `split` on the same separator are inverse for non-empty parts. */
  lemma SplitJoin(parts: seq<string>, c: char)
    requires |parts| >= 1 && forall k :: 0 <= k < |parts| ==> c !in parts[k] && parts[k] != ""
    ensures Split(Join([c], parts), c) == parts
  {
    PiecesJoin(parts, c);
    if c !in Join([c], parts) {
      assert IndexOf(Join([c], parts), c) == -1;
    }
  }

  /** `a.compareTo(b) < 0`: the first differing character decides, else the shorter string comes first. */
  predicate Less(a: string, b: string)
    decreases |a|
  {
    if |a| == 0 then |b| > 0
    else if |b| == 0 then false
    else if a[0] != b[0] then a[0] < b[0]
    else Less(a[1..], b[1..])
  }

  /** `compareTo` orders strings strictly and totally. */
  lemma {:induction false} LessIrreflexive(a: string)
    ensures !Less(a, a)
    decreases |a|
  {
    if |a| > 0 {
      LessIrreflexive(a[1..]);
    }
  }

  lemma {:induction false} LessTotal(a: string, b: string)
    ensures a == b || Less(a, b) || Less(b, a)
    decreases |a|
  {
    if |a| > 0 && |b| > 0 && a[0] == b[0] {
      LessTotal(a[1..], b[1..]);
      if a[1..] == b[1..] {
        assert a == [a[0]] + a[1..] && b == [b[0]] + b[1..];
      }
    }
  }

  lemma {:induction false} LessTransitive(a: string, b: string, c: string)
    requires Less(a, b) && Less(b, c)
    ensures Less(a, c)
    decreases |a|
  {
    if |a| > 0 && a[0] == b[0] && b[0] == c[0] {
      LessTransitive(a[1..], b[1..], c[1..]);
    }
  }

  lemma {:induction false} LessAsymmetric(a: string, b: string)
    requires Less(a, b)
    ensures !Less(b, a)
    decreases |a|
  {
    if |a| > 0 && a[0] == b[0] {
      LessAsymmetric(a[1..], b[1..]);
    }
  }

  /** Strictly increasing in `compareTo` order: the iteration order of a `TreeSet`. */
  predicate StrictlySorted(xs: seq<string>) {
    forall i, j :: 0 <= i < j < |xs| ==> Less(xs[i], xs[j])
  }

  /**
   * `TreeSet.add`: the word inserted at its place in the order, or the
   * set unchanged when it is already there.
   */
  function Insert(xs: seq<string>, x: string): (ys: seq<string>)
    requires StrictlySorted(xs)
    ensures StrictlySorted(ys)
    ensures forall y :: y in ys <==> y in xs || y == x
    decreases |xs|
  {
    if xs == [] then [x]
    else if xs[0] == x then xs
    else if Less(x, xs[0]) then
      forall j | 0 <= j < |xs| ensures Less(x, xs[j]) {
        if j > 0 { LessTransitive(x, xs[0], xs[j]); }
      }
      [x] + xs
    else
      var rest := Insert(xs[1..], x);
      LessTotal(x, xs[0]);
      assert forall y :: y in rest ==> Less(xs[0], y) by {
        forall y | y in rest ensures Less(xs[0], y) {
          if y != x {
            var j :| 0 <= j < |xs[1..]| && xs[1..][j] == y;
            assert xs[j + 1] == y;
          }
        }
      }
      [xs[0]] + rest
  }

  /** `s.split(String.valueOf(c), 2)`: split at the first `c` only. */
  function SplitOnce(s: string, c: char): (r: seq<string>)
    ensures 1 <= |r| <= 2
    ensures |r| == 1 <==> c !in s
    ensures |r| == 2 ==> r[0] + [c] + r[1] == s && c !in r[0]
  {
    var i := IndexOf(s, c);
    if i == -1 then [s]
    else
      assert s == s[..i] + [c] + s[i + 1..];
      [s[..i], s[i + 1..]]
  }

  /** `Character.isWhitespace`: the characters `String.isBlank` skips. */
  predicate JavaWhitespace(c: char) {
    ('\U{9}' <= c <= '\U{D}') || ('\U{1C}' <= c <= '\U{20}')
    || c == '\U{1680}' || ('\U{2000}' <= c <= '\U{2006}') || ('\U{2008}' <= c <= '\U{200A}')
    || c == '\U{2028}' || c == '\U{2029}' || c == '\U{205F}' || c == '\U{3000}'
  }

  /** `s.isBlank()` (Java 11). */
  predicate IsBlank(s: string) {
    forall k :: 0 <= k < |s| ==> JavaWhitespace(s[k])
  }

  /** The characters JavaScript's `String.prototype.trim` removes. */
  predicate JsWhitespace(c: char) {
    ('\U{9}' <= c <= '\U{D}') || c == '\U{20}' || c == '\U{A0}' || c == '\U{1680}'
    || ('\U{2000}' <= c <= '\U{200A}') || c == '\U{2028}' || c == '\U{2029}'
    || c == '\U{202F}' || c == '\U{205F}' || c == '\U{3000}' || c == '\U{FEFF}'
  }

  /** `s.trim()` in JavaScript: white space removed from both ends. */
  function JsTrim(s: string): (t: string)
    ensures |t| <= |s|
    ensures t == [] || t == s || |t| < |s|
    decreases |s|
  {
    if |s| == 0 then s
    else if JsWhitespace(s[0]) then JsTrim(s[1..])
    else if JsWhitespace(s[|s| - 1]) then JsTrim(s[..|s| - 1])
    else s
  }

  /** The trimmed string is a part of the original without white space at either end. */
  lemma {:induction false} JsTrimInfix(s: string)
    ensures exists i :: OccursAt(s, JsTrim(s), i)
    ensures var t := JsTrim(s); t != [] ==> !JsWhitespace(t[0]) && !JsWhitespace(t[|t| - 1])
    decreases |s|
  {
    var t := JsTrim(s);
    if |s| == 0 {
      assert OccursAt(s, t, 0);
    } else if JsWhitespace(s[0]) {
      JsTrimInfix(s[1..]);
      var i :| OccursAt(s[1..], t, i);
      assert s[i + 1..i + 1 + |t|] == s[1..][i..i + |t|];
      assert OccursAt(s, t, i + 1);
    } else if JsWhitespace(s[|s| - 1]) {
      JsTrimInfix(s[..|s| - 1]);
      var i :| OccursAt(s[..|s| - 1], t, i);
      assert s[i..i + |t|] == s[..|s| - 1][i..i + |t|];
      assert OccursAt(s, t, i);
    } else {
      assert OccursAt(s, t, 0);
    }
  }

  /** `Character.toUpperCase` on the ASCII letters; other characters map to themselves. */
  function UpperAscii(c: char): (u: char)
    ensures 'a' <= c <= 'z' ==> 'A' <= u <= 'Z'
    ensures !('a' <= c <= 'z') ==> u == c
  {
    if 'a' <= c <= 'z' then (c as int - 32) as char else c
  }

  /** `a.equalsIgnoreCase(b)`: equal lengths and the same characters up to case. */
  predicate EqualsIgnoreCase(a: string, b: string)
  {
    |a| == |b| && forall i :: 0 <= i < |a| ==> UpperAscii(a[i]) == UpperAscii(b[i])
  }

  /** The comparison accepts exactly the strings whose upper-case form is the same. */
  lemma {:induction false} EqualsIgnoreCaseUpper(a: string, b: string)
    ensures EqualsIgnoreCase(a, b) <==> Upper(a) == Upper(b)
  {
    if EqualsIgnoreCase(a, b) {
      assert forall i :: 0 <= i < |a| ==> Upper(a)[i] == Upper(b)[i];
    }
    if Upper(a) == Upper(b) {
      assert forall i :: 0 <= i < |a| ==> Upper(a)[i] == UpperAscii(a[i]);
    }
  }

  /** `s.toUpperCase()` on ASCII text. */
  function Upper(s: string): (u: string)
    ensures |u| == |s| && forall i :: 0 <= i < |s| ==> u[i] == UpperAscii(s[i])
  {
    seq(|s|, i requires 0 <= i < |s| => UpperAscii(s[i]))
  }
}
