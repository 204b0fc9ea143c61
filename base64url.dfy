/**
 * `Base64url.encode`/`decode` and the `java.util.Base64` codecs behind them:
 * the URL-safe alphabet of section 5 of RFC 4648 without `=` padding for
 * encoding, and the JDK's decoder, which also accepts correctly placed
 * padding, refuses any other character, refuses a final group of one digit
 * and ignores the unused low bits of the last digit.
 * The standard alphabet of section 4 of RFC 4648 (`Base64.getDecoder()`) is
 * the same codec with `+` and `/` in place of `-` and `_`.
 */
module Base64url {
  import opened Common

  /** The digit for the 6-bit value `v`; `url` selects the URL-safe alphabet. */
  function Digit(v: int, url: bool): char
    requires 0 <= v < 64
  {
    if v < 26 then (('A' as int) + v) as char
    else if v < 52 then (('a' as int) + v - 26) as char
    else if v < 62 then (('0' as int) + v - 52) as char
    else if v == 62 then (if url then '-' else '+')
    else (if url then '_' else '/')
  }

  /** The 6-bit value of a digit, or `None` for a character outside the alphabet. */
  function Value(c: char, url: bool): (r: Option<int>)
    ensures r.Some? ==> 0 <= r.value < 64 && Digit(r.value, url) == c
  {
    if 'A' <= c <= 'Z' then Some(c as int - 'A' as int)
    else if 'a' <= c <= 'z' then Some(c as int - 'a' as int + 26)
    else if '0' <= c <= '9' then Some(c as int - '0' as int + 52)
    else if c == (if url then '-' else '+') then Some(62)
    else if c == (if url then '_' else '/') then Some(63)
    else None
  }

  /** Every digit decodes to the value it encodes. */
  lemma ValueOfDigit(v: int, url: bool)
    requires 0 <= v < 64
    ensures Value(Digit(v, url), url) == Some(v)
  {
  }

  /** The four digits of a group of three bytes, most significant first. */
  function Group(b0: byte, b1: byte, b2: byte, url: bool): string {
    [Digit(b0 / 4, url), Digit((b0 % 4) * 16 + b1 / 16, url),
     Digit((b1 % 16) * 4 + b2 / 64, url), Digit(b2 % 64, url)]
  }

  /** Encoding without padding: a last group of one byte gives two digits, of two bytes three. */
  function Encode(data: seq<byte>, url: bool): (s: string)
    ensures |s| == 4 * (|data| / 3) + (if |data| % 3 == 0 then 0 else |data| % 3 + 1)
    ensures forall k :: 0 <= k < |s| ==> Value(s[k], url).Some?
    decreases |data|
  {
    if |data| == 0 then []
    else if |data| == 1 then
      ValueOfDigit(data[0] / 4, url); ValueOfDigit((data[0] % 4) * 16, url);
      [Digit(data[0] / 4, url), Digit((data[0] % 4) * 16, url)]
    else if |data| == 2 then
      ValueOfDigit(data[0] / 4, url); ValueOfDigit((data[0] % 4) * 16 + data[1] / 16, url);
      ValueOfDigit((data[1] % 16) * 4, url);
      [Digit(data[0] / 4, url), Digit((data[0] % 4) * 16 + data[1] / 16, url),
       Digit((data[1] % 16) * 4, url)]
    else
      ValueOfDigit(data[0] / 4, url); ValueOfDigit((data[0] % 4) * 16 + data[1] / 16, url);
      ValueOfDigit((data[1] % 16) * 4 + data[2] / 64, url); ValueOfDigit(data[2] % 64, url);
      Group(data[0], data[1], data[2], url) + Encode(data[3..], url)
  }

  /** `Base64url.encode`: the URL-safe alphabet, no padding. */
  function EncodeUrl(data: seq<byte>): (s: string)
    ensures '.' !in s && '=' !in s
  {
    var s := Encode(data, true);
    assert forall k :: 0 <= k < |s| ==> s[k] != '.' && s[k] != '=' by {
      forall k | 0 <= k < |s| ensures s[k] != '.' && s[k] != '=' {
        assert Value(s[k], true).Some?;
      }
    }
    s
  }

  /** Decoding of digits without padding; `None` is the decoder's `IllegalArgumentException`. */
  function DecodeDigits(s: string, url: bool): (r: Option<seq<byte>>)
    decreases |s|
  {
    if |s| == 0 then Some([])
    else if |s| == 1 then None
    else if Value(s[0], url).None? || Value(s[1], url).None? then None
    else
      var v0, v1 := Value(s[0], url).value, Value(s[1], url).value;
      var b0: byte := v0 * 4 + v1 / 16;
      if |s| == 2 then Some([b0])
      else if Value(s[2], url).None? then None
      else
        var v2 := Value(s[2], url).value;
        var b1: byte := (v1 % 16) * 16 + v2 / 4;
        if |s| == 3 then Some([b0, b1])
        else if Value(s[3], url).None? then None
        else
          var v3 := Value(s[3], url).value;
          var b2: byte := (v2 % 4) * 64 + v3;
          match DecodeDigits(s[4..], url)
          case None => None
          case Some(rest) => Some([b0, b1, b2] + rest)
  }

  /**
   * `Base64.getUrlDecoder().decode(s)` (or `getDecoder()` when `url` is false):
   * digits, then `==` after a final pair or `=` after a final triple, and nothing else.
   */
  function Decode(s: string, url: bool): Option<seq<byte>> {
    if |s| >= 2 && s[|s| - 2..] == "==" then
      var body := s[..|s| - 2];
      if |body| % 4 == 2 then DecodeDigits(body, url) else None
    else if |s| >= 1 && s[|s| - 1] == '=' then
      var body := s[..|s| - 1];
      if |body| % 4 == 3 then DecodeDigits(body, url) else None
    else DecodeDigits(s, url)
  }

  /** `Base64url.decode`. */
  function DecodeUrl(s: string): Option<seq<byte>> {
    Decode(s, true)
  }

  /** The digits of a group of three bytes decode to those bytes. */
  lemma GroupRoundTrip(b0: byte, b1: byte, b2: byte, url: bool)
    ensures var v0, v1, v2, v3 := b0 / 4, (b0 % 4) * 16 + b1 / 16, (b1 % 16) * 4 + b2 / 64, b2 % 64;
      v0 * 4 + v1 / 16 == b0 && (v1 % 16) * 16 + v2 / 4 == b1 && (v2 % 4) * 64 + v3 == b2
  {
    var v1 := (b0 % 4) * 16 + b1 / 16;
    assert v1 / 16 == b0 % 4 && v1 % 16 == b1 / 16;
    var v2 := (b1 % 16) * 4 + b2 / 64;
    assert v2 / 4 == b1 % 16 && v2 % 4 == b2 / 64;
  }

  lemma OneByteRoundTrip(data: seq<byte>, url: bool)
    requires |data| == 1
    ensures DecodeDigits(Encode(data, url), url) == Some(data)
  {
    var s := Encode(data, url);
    GroupRoundTrip(data[0], 0, 0, url);
    ValueOfDigit(data[0] / 4, url); ValueOfDigit((data[0] % 4) * 16, url);
    assert Value(s[0], url) == Some(data[0] / 4) && Value(s[1], url) == Some((data[0] % 4) * 16);
    assert data == [data[0]];
  }

  lemma TwoBytesRoundTrip(data: seq<byte>, url: bool)
    requires |data| == 2
    ensures DecodeDigits(Encode(data, url), url) == Some(data)
  {
    var s := Encode(data, url);
    GroupRoundTrip(data[0], data[1], 0, url);
    ValueOfDigit(data[0] / 4, url); ValueOfDigit((data[0] % 4) * 16 + data[1] / 16, url);
    ValueOfDigit((data[1] % 16) * 4, url);
    assert Value(s[0], url) == Some(data[0] / 4);
    assert Value(s[1], url) == Some((data[0] % 4) * 16 + data[1] / 16);
    assert Value(s[2], url) == Some((data[1] % 16) * 4);
    assert data == [data[0], data[1]];
  }

  /** Decoding a full group followed by more digits. */
  lemma GroupStep(b0: byte, b1: byte, b2: byte, rest: string, url: bool)
    ensures DecodeDigits(Group(b0, b1, b2, url) + rest, url) ==
      match DecodeDigits(rest, url)
      case None => None
      case Some(r) => Some([b0, b1, b2] + r)
  {
    var s := Group(b0, b1, b2, url) + rest;
    GroupRoundTrip(b0, b1, b2, url);
    ValueOfDigit(b0 / 4, url); ValueOfDigit((b0 % 4) * 16 + b1 / 16, url);
    ValueOfDigit((b1 % 16) * 4 + b2 / 64, url); ValueOfDigit(b2 % 64, url);
    assert s[4..] == rest;
    assert Value(s[0], url) == Some(b0 / 4);
    assert Value(s[1], url) == Some((b0 % 4) * 16 + b1 / 16);
    assert Value(s[2], url) == Some((b1 % 16) * 4 + b2 / 64);
    assert Value(s[3], url) == Some(b2 % 64);
  }

  /** Decoding undoes encoding, for both alphabets. */
  lemma {:induction false} DigitsRoundTrip(data: seq<byte>, url: bool)
    ensures DecodeDigits(Encode(data, url), url) == Some(data)
    decreases |data|
  {
    if |data| == 1 {
      OneByteRoundTrip(data, url);
    } else if |data| == 2 {
      TwoBytesRoundTrip(data, url);
    } else if |data| >= 3 {
      DigitsRoundTrip(data[3..], url);
      GroupStep(data[0], data[1], data[2], Encode(data[3..], url), url);
      assert data == [data[0], data[1], data[2]] + data[3..];
    }
  }

  /** Either decoder accepts the unpadded encoding in its alphabet and gives the bytes back. */
  lemma UnpaddedRoundTrip(data: seq<byte>, url: bool)
    ensures Decode(Encode(data, url), url) == Some(data)
  {
    var s := Encode(data, url);
    DigitsRoundTrip(data, url);
    if |s| >= 1 {
      assert Value(s[|s| - 1], url).Some?;
      assert |s| >= 2 ==> s[|s| - 2..] != "==" by {
        if |s| >= 2 { assert s[|s| - 2..][1] == s[|s| - 1]; }
      }
    }
  }

  /** `decode(encode(b)) == b` for every byte array. */
  lemma RoundTrip(data: seq<byte>)
    ensures DecodeUrl(EncodeUrl(data)) == Some(data)
  {
    UnpaddedRoundTrip(data, true);
  }

  /** The decoder refuses a final group of a single digit, whatever the digits. */
  lemma DanglingDigitRefused(s: string, url: bool)
    requires |s| % 4 == 1 && '=' !in s
    ensures Decode(s, url) == None
  {
    DanglingDigits(s, url);
    if |s| >= 2 { assert s[|s| - 2..][1] == s[|s| - 1]; }
  }

  lemma {:induction false} DanglingDigits(s: string, url: bool)
    requires |s| % 4 == 1
    ensures DecodeDigits(s, url) == None
    decreases |s|
  {
    if |s| > 4 {
      assert |s[4..]| % 4 == 1;
      DanglingDigits(s[4..], url);
    } else {
      assert |s| == 1;
    }
  }
}
