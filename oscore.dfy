/**
 * `Oscore`: the key, common-IV and AEAD nonce derivations of OSCORE
 * (RFC 8613). The CBOR values are modelled as a datatype and their encoding
 * as a parameter; HKDF-Expand is the `Hkdf` model.
 */
module Oscore {
  import opened Common
  import opened ByteXor
  import BigEndian
  import ByteBuffers
  import Hkdf

  /** The CBOR values placed in the info arrays. */
  datatype Cbor =
    | CborBytes(bytes: seq<byte>)
    | CborNull
    | CborInt(n: int)
    | CborText(text: string)
    | CborArray(items: seq<Cbor>)

  /** A COSE `AlgorithmID`: its CBOR identifier and its key size in bits. */
  datatype Algorithm = Algorithm(coseId: int, keySizeBits: nat)

  /** `CBORObject.Add(byte[])`: a null array is added as CBOR null. */
  function BytesOrNull(b: Option<seq<byte>>): Cbor {
    if b.Some? then CborBytes(b.value) else CborNull
  }

  /**
   * The info array of `deriveKey`: [id, id context, algorithm, "Key", key
   * length in bytes], the `info` of section 3.2.1 of RFC 8613.
   */
  function KeyInfo(id: seq<byte>, idContext: Option<seq<byte>>, alg: Algorithm): (c: Cbor)
    ensures c.CborArray? && |c.items| == 5
    ensures c.items[0] == CborBytes(id) && c.items[3] == CborText("Key")
    ensures c.items[4] == CborInt(alg.keySizeBits / 8)
  {
    CborArray([CborBytes(id), BytesOrNull(idContext), CborInt(alg.coseId), CborText("Key"), CborInt(alg.keySizeBits / 8)])
  }

  /** The info array of `deriveCommonIV`: [empty id, id context, algorithm, "IV", IV length]. */
  function IvInfo(idContext: Option<seq<byte>>, alg: Algorithm, ivLength: int): (c: Cbor)
    ensures c.CborArray? && |c.items| == 5
    ensures c.items[0] == CborBytes([]) && c.items[3] == CborText("IV")
    ensures c.items[4] == CborInt(ivLength)
  {
    CborArray([CborBytes([]), BytesOrNull(idContext), CborInt(alg.coseId), CborText("IV"), CborInt(ivLength)])
  }

  /** A key's info and the common IV's info never coincide: their labels differ. */
  lemma KeyAndIvInfoDiffer(id: seq<byte>, keyContext: Option<seq<byte>>, ivContext: Option<seq<byte>>,
                           alg: Algorithm, alg': Algorithm, ivLength: int)
    ensures KeyInfo(id, keyContext, alg) != IvInfo(ivContext, alg', ivLength)
  {
    assert KeyInfo(id, keyContext, alg).items[3] != IvInfo(ivContext, alg', ivLength).items[3];
  }

  /** Sender and recipient keys are derived from different info arrays when their ids differ. */
  lemma KeyInfoSeparatesIds(id: seq<byte>, id': seq<byte>, idContext: Option<seq<byte>>, alg: Algorithm)
    requires id != id'
    ensures KeyInfo(id, idContext, alg) != KeyInfo(id', idContext, alg)
  {
    assert KeyInfo(id, idContext, alg).items[0] != KeyInfo(id', idContext, alg).items[0];
  }

  /**
   * `deriveKey`: HKDF-Expand of the encoded key info to `keySize / 8` bytes.
   * `encode` stands for `CBORObject.EncodeToBytes`.
   */
  method DeriveKey(mac: Hkdf.Mac, encode: Cbor -> seq<byte>, id: seq<byte>,
                   idContext: Option<seq<byte>>, alg: Algorithm) returns (r: Result<seq<byte>, Exception>)
    requires Hkdf.TagsAre32Bytes(mac)
    ensures 0 < alg.keySizeBits / 8 < Hkdf.Bound ==>
      r == Ok(Hkdf.Okm(mac, encode(KeyInfo(id, idContext, alg)), alg.keySizeBits / 8))
    ensures alg.keySizeBits / 8 == 0 ==> r == Err(IllegalArgument("Empty key"))
    ensures alg.keySizeBits / 8 >= Hkdf.Bound ==> r == Err(IndexOutOfBounds)
  {
    var keySizeBytes := alg.keySizeBits / 8;
    r := Hkdf.Expand(mac, encode(KeyInfo(id, idContext, alg)), keySizeBytes);
  }

  /** `deriveCommonIV`: HKDF-Expand of the encoded IV info to `ivLength` bytes. */
  method DeriveCommonIv(mac: Hkdf.Mac, encode: Cbor -> seq<byte>, idContext: Option<seq<byte>>,
                        alg: Algorithm, ivLength: int) returns (r: Result<seq<byte>, Exception>)
    requires Hkdf.TagsAre32Bytes(mac)
    ensures 0 < ivLength < Hkdf.Bound ==> r == Ok(Hkdf.Okm(mac, encode(IvInfo(idContext, alg, ivLength)), ivLength))
    ensures ivLength == 0 ==> r == Err(IllegalArgument("Empty key"))
    ensures !(0 <= ivLength < Hkdf.Bound) ==> r == Err(IndexOutOfBounds)
  {
    r := Hkdf.Expand(mac, encode(IvInfo(idContext, alg, ivLength)), ivLength);
  }

  /**
   * `xor(xs, ys)`: XORs `ys` into `xs` in place. When `ys` is shorter than
   * `xs` the loop stops with `ArrayIndexOutOfBoundsException` at index
   * `|ys|`, the bytes before it already changed.
   */
  method Xor(xs: array<byte>, ys: seq<byte>) returns (r: Result<(), Exception>)
    modifies xs
    ensures r.Err? <==> |ys| < xs.Length
    ensures r.Err? ==> r.error == IndexOutOfBounds
    ensures r.Ok? ==> xs[..] == XorBytes(old(xs[..]), ys)
    ensures r.Err? ==> xs[..] == XorBytes(old(xs[..|ys|]), ys) + old(xs[|ys|..])
  {
    for i := 0 to xs.Length
      invariant i <= |ys|
      invariant forall k :: 0 <= k < i ==> xs[k] == XorByte(old(xs[k]), ys[k])
      invariant forall k :: i <= k < xs.Length ==> xs[k] == old(xs[k])
    {
      if i >= |ys| {
        assert xs[..] == XorBytes(old(xs[..|ys|]), ys) + old(xs[|ys|..]);
        return Err(IndexOutOfBounds);
      }
      xs[i] := XorByte(xs[i], ys[i]);
    }
    return Ok(());
  }

  const Two32: int := 0x1_0000_0000
  const Two40: int := 0x100_0000_0000
  const Two64: int := 0x1_0000_0000_0000_0000

  /** A Java `long`. */
  predicate IsLong(v: int) {
    -0x8000_0000_0000_0000 <= v < 0x8000_0000_0000_0000
  }

  /**
   * The five bytes `nonce` writes for the sequence number: the byte
   * `(seq >>> 32) & 0xFF` and then `putInt((int) seq)`, big-endian.
   */
  function PartialIv(sequenceNumber: int): (b: seq<byte>)
    ensures |b| == 5
  {
    [((sequenceNumber % Two64) / Two32) % 256] + BigEndian.ToBytes(sequenceNumber % Two32, 4)
  }

  /** (s mod 2^64) mod 2^32 == s mod 2^32 */
  lemma LowWordOfLong(s: int)
    ensures (s % Two64) % Two32 == s % Two32
  {
    var k := s / Two64;
    assert s == k * Two64 + s % Two64;
    assert k * Two64 == (k * Two32) * Two32;
  }

  lemma ModTwo40(v: int, q: int, r: int)
    requires v == q * Two40 + r && 0 <= r < Two40
    ensures v % Two40 == r
  {
  }

  /** The partial IV is the sequence number modulo 2^40, as 5 big-endian bytes. */
  lemma PartialIvValue(sequenceNumber: int)
    ensures BigEndian.FromBytes(PartialIv(sequenceNumber)) == sequenceNumber % Two40
  {
    var u := sequenceNumber % Two64;
    var lo := sequenceNumber % Two32;
    var q := u / Two32;
    var hi := q % 256;
    assert BigEndian.Pow256(4) == Two32;
    BigEndian.FromToBytes(lo, 4);
    BigEndian.FromBytesPrepend(hi, BigEndian.ToBytes(lo, 4));
    LowWordOfLong(sequenceNumber);
    assert u == q * Two32 + lo;
    assert q == (q / 256) * 256 + hi;
    assert u == (q / 256) * Two40 + (hi * Two32 + lo);
    ModTwo40(u, q / 256, hi * Two32 + lo);
    var k := sequenceNumber / Two64;
    assert sequenceNumber == (k * 0x100_0000 + q / 256) * Two40 + (hi * Two32 + lo);
    ModTwo40(sequenceNumber, k * 0x100_0000 + q / 256, hi * Two32 + lo);
  }

  /**
   * The nonce before the XOR, as section 5.2 of RFC 8613 lays it out: the
   * id length (as the cast to `byte` leaves it), zero padding, the id, and
   * the 5-byte partial IV.
   */
  function NonceLayout(ivLength: int, sequenceNumber: int, id: seq<byte>): (b: seq<byte>)
    requires |id| <= ivLength - 6
    ensures |b| == ivLength
  {
    [|id| % 256] + Zeros(ivLength - 6 - |id|) + id + PartialIv(sequenceNumber)
  }

  /** The layout determines an id shorter than 256 bytes and the sequence number modulo 2^40. */
  lemma NonceLayoutInjective(ivLength: int, s: int, id: seq<byte>, s': int, id': seq<byte>)
    requires |id| <= ivLength - 6 && |id'| <= ivLength - 6 && |id| < 256 && |id'| < 256
    requires NonceLayout(ivLength, s, id) == NonceLayout(ivLength, s', id')
    ensures id == id' && s % Two40 == s' % Two40
  {
    var b, b' := NonceLayout(ivLength, s, id), NonceLayout(ivLength, s', id');
    assert b[0] == |id| && b'[0] == |id'|;
    assert id == b[ivLength - 5 - |id|..ivLength - 5];
    assert id' == b'[ivLength - 5 - |id'|..ivLength - 5];
    assert PartialIv(s) == b[ivLength - 5..];
    assert PartialIv(s') == b'[ivLength - 5..];
    PartialIvValue(s);
    PartialIvValue(s');
  }

  /** Writing `s` after `w` into a zero-filled tail leaves `w + s` and zeros. */
  lemma PutIntoZeros(w: seq<byte>, s: seq<byte>, n: nat, before: seq<byte>, after: seq<byte>)
    requires |w| + |s| <= n && before == w + Zeros(n - |w|)
    requires after == before[..|w|] + s + before[|w| + |s|..]
    ensures after == (w + s) + Zeros(n - |w + s|)
  {
    assert before[..|w|] == w;
    assert before[|w| + |s|..] == Zeros(n - |w + s|);
  }

  /** One `put` of `nonce` into a buffer of `n` bytes that holds `w` followed by zeros. */
  method PutAfter(buffer: ByteBuffers.ByteBuffer, ghost n: nat, ghost w: seq<byte>, s: seq<byte>)
    requires buffer.Valid() && buffer.limit == n == buffer.hb.Length && buffer.position == |w|
    requires |w| + |s| <= n && buffer.hb[..] == w + Zeros(n - |w|)
    modifies buffer`position, buffer.hb
    ensures buffer.Valid() && buffer.limit == n && buffer.position == |w + s|
    ensures buffer.hb[..] == (w + s) + Zeros(n - |w + s|)
  {
    ghost var before := buffer.hb[..];
    var ok := buffer.PutBytes(s);
    PutIntoZeros(w, s, n, before, buffer.hb[..]);
  }

  /** The last two `put` calls of `nonce`: the partial IV. */
  method PutPartialIv(buffer: ByteBuffers.ByteBuffer, ghost w: seq<byte>, sequenceNumber: int)
    requires buffer.Valid() && buffer.limit == buffer.hb.Length && buffer.position == |w|
    requires |w| + 5 <= buffer.limit && buffer.hb[..] == w + Zeros(buffer.limit - |w|)
    modifies buffer`position, buffer.hb
    ensures buffer.Valid() && buffer.limit == old(buffer.limit) && buffer.position == |w| + 5
    ensures buffer.hb[..] == (w + PartialIv(sequenceNumber)) + Zeros(buffer.limit - |w| - 5)
  {
    var b5: seq<byte> := [((sequenceNumber % Two64) / Two32) % 256];
    var low := BigEndian.ToBytes(sequenceNumber % Two32, 4);
    PutAfter(buffer, buffer.limit, w, b5);
    PutAfter(buffer, buffer.limit, w + b5, low);
    assert w + b5 + low == w + PartialIv(sequenceNumber);
  }

  /** A buffer written to its end has no zeros left. */
  lemma NoZerosLeft(w: seq<byte>, n: nat)
    requires |w| == n
    ensures w + Zeros(n - |w|) == w
  {
  }

  /** The first three `put` calls of `nonce`: the id length, the zero padding and the id. */
  method PutHeader(buffer: ByteBuffers.ByteBuffer, id: seq<byte>)
    requires buffer.Valid() && buffer.limit == buffer.hb.Length && buffer.position == 0
    requires |id| <= buffer.limit - 6 && buffer.hb[..] == Zeros(buffer.limit)
    modifies buffer`position, buffer.hb
    ensures buffer.Valid() && buffer.limit == old(buffer.limit) && buffer.position == buffer.limit - 5
    ensures buffer.hb[..] == ([|id| % 256] + Zeros(buffer.limit - 6 - |id|) + id) + Zeros(5)
  {
    ghost var n := buffer.limit;
    var b0: seq<byte> := [|id| % 256];
    var padding := Zeros(buffer.limit - 6 - |id|);
    assert buffer.hb[..] == [] + Zeros(n);
    PutAfter(buffer, n, [], b0);
    PutAfter(buffer, n, b0, padding);
    PutAfter(buffer, n, b0 + padding, id);
  }

  /** The five `put` calls of `nonce`, on a buffer of `ivLength` bytes. */
  method FillLayout(ivLength: int, sequenceNumber: int, id: seq<byte>) returns (xs: array<byte>)
    requires |id| <= ivLength - 6
    ensures fresh(xs) && xs[..] == NonceLayout(ivLength, sequenceNumber, id)
  {
    var buffer := new ByteBuffers.ByteBuffer.Allocate(ivLength);
    PutHeader(buffer, id);
    ghost var header := [|id| % 256] + Zeros(ivLength - 6 - |id|) + id;
    PutPartialIv(buffer, header, sequenceNumber);
    NoZerosLeft(header + PartialIv(sequenceNumber), ivLength);
    xs := buffer.hb;
  }

  /**
   * `nonce(ivLength, sequenceNumber, id, commonIv)` as written: rejects a
   * sequence number above 2^40 and an id longer than `ivLength - 6`, fills a
   * fresh buffer with the layout and XORs the common IV into it.
   */
  method Nonce(ivLength: int, sequenceNumber: int, id: seq<byte>, commonIv: seq<byte>)
    returns (r: Result<seq<byte>, Exception>)
    ensures sequenceNumber > Two40 ==> r == Err(IllegalArgument("Sequence number too large"))
    ensures sequenceNumber <= Two40 && |id| > ivLength - 6 ==> r == Err(IllegalArgument("ID is too large"))
    ensures sequenceNumber <= Two40 && |id| <= ivLength - 6 && |commonIv| < ivLength ==> r == Err(IndexOutOfBounds)
    ensures sequenceNumber <= Two40 && |id| <= ivLength - 6 && |commonIv| >= ivLength ==>
      r == Ok(XorBytes(NonceLayout(ivLength, sequenceNumber, id), commonIv))
  {
    if sequenceNumber > Two40 {
      return Err(IllegalArgument("Sequence number too large"));
    }
    var idLen := ivLength - 6;
    if |id| > idLen {
      return Err(IllegalArgument("ID is too large"));
    }
    var xs := FillLayout(ivLength, sequenceNumber, id);
    var x := Xor(xs, commonIv);
    if x.Err? {
      return Err(IndexOutOfBounds);
    }
    return Ok(xs[..]);
  }

  /** Sequence number 2^40 passes the guard of `nonce` and gives the nonce of sequence number 0. */
  lemma NonceReusedAt2To40(ivLength: int, id: seq<byte>)
    requires |id| <= ivLength - 6
    ensures NonceLayout(ivLength, Two40, id) == NonceLayout(ivLength, 0, id)
  {
    assert PartialIv(Two40) == PartialIv(0);
  }

  /** The guard section 5.2 of RFC 8613 intends: a partial IV holds at most 40 bits. */
  predicate ValidSequenceNumber(sequenceNumber: int) {
    0 <= sequenceNumber < Two40
  }

  /** `nonce` with the guard rejecting every sequence number outside 0 .. 2^40 - 1. */
  function CheckedNonce(ivLength: int, sequenceNumber: int, id: seq<byte>, commonIv: seq<byte>)
    : (r: Result<seq<byte>, Exception>)
    ensures r.Ok? <==> ValidSequenceNumber(sequenceNumber) && |id| <= ivLength - 6 && |commonIv| >= ivLength
  {
    if !ValidSequenceNumber(sequenceNumber) then Err(IllegalArgument("Sequence number out of range"))
    else if |id| > ivLength - 6 then Err(IllegalArgument("ID is too large"))
    else if |commonIv| < ivLength then Err(IndexOutOfBounds)
    else Ok(XorBytes(NonceLayout(ivLength, sequenceNumber, id), commonIv))
  }

  /** With the corrected guard, distinct (id, sequence number) pairs never share a nonce. */
  lemma CheckedNonceInjective(ivLength: int, commonIv: seq<byte>, s: int, id: seq<byte>, s': int, id': seq<byte>)
    requires |id| < 256 && |id'| < 256
    requires CheckedNonce(ivLength, s, id, commonIv).Ok?
    requires CheckedNonce(ivLength, s', id', commonIv) == CheckedNonce(ivLength, s, id, commonIv)
    ensures s == s' && id == id'
  {
    assert ValidSequenceNumber(s) && |id| <= ivLength - 6 && |commonIv| >= ivLength;
    assert ValidSequenceNumber(s') && |id'| <= ivLength - 6;
    assert XorBytes(NonceLayout(ivLength, s, id), commonIv) == XorBytes(NonceLayout(ivLength, s', id'), commonIv);
    XorBytesInjective(NonceLayout(ivLength, s, id), NonceLayout(ivLength, s', id'), commonIv);
    NonceLayoutInjective(ivLength, s, id, s', id');
    ModTwo40(s, 0, s);
    ModTwo40(s', 0, s');
  }
}
