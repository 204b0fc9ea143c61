/** Unsigned big-endian (network byte order) integers, as `ByteBuffer` reads and writes them. */
module BigEndian {
  import opened Common

  function Pow256(n: nat): (p: nat)
    ensures p >= 1
  {
    if n == 0 then 1 else 256 * Pow256(n - 1)
  }

  /** The `n` low-order bytes of `v`, most significant first. */
  function ToBytes(v: nat, n: nat): (b: seq<byte>)
    ensures |b| == n
  {
    if n == 0 then [] else ToBytes(v / 256, n - 1) + [v % 256]
  }

  /** The unsigned value of bytes in network order. */
  function FromBytes(b: seq<byte>): (v: nat)
    ensures v < Pow256(|b|)
  {
    if |b| == 0 then 0 else FromBytes(b[..|b| - 1]) * 256 + b[|b| - 1]
  }

  /** Writing a value that fits in `n` bytes and reading it back gives the value. */
  lemma {:induction false} FromToBytes(v: nat, n: nat)
    requires v < Pow256(n)
    ensures FromBytes(ToBytes(v, n)) == v
  {
    if n > 0 {
      var b := ToBytes(v, n);
      assert b[..n - 1] == ToBytes(v / 256, n - 1);
      FromToBytes(v / 256, n - 1);
    }
  }

  /** Reading bytes and writing the value back gives the bytes. */
  lemma {:induction false} ToFromBytes(b: seq<byte>)
    ensures ToBytes(FromBytes(b), |b|) == b
  {
    if |b| > 0 {
      var v := FromBytes(b);
      var init := b[..|b| - 1];
      assert v / 256 == FromBytes(init) && v % 256 == b[|b| - 1];
      ToFromBytes(init);
    }
  }

  /** Two values that fit in `n` bytes have the same bytes only when they are equal. */
  lemma ToBytesInjective(v: nat, w: nat, n: nat)
    requires v < Pow256(n) && w < Pow256(n) && ToBytes(v, n) == ToBytes(w, n)
    ensures v == w
  {
    FromToBytes(v, n);
    FromToBytes(w, n);
  }

  /** A leading byte weighs 256 to the power of the number of bytes after it. */
  lemma {:induction false} FromBytesPrepend(hi: byte, lo: seq<byte>)
    ensures FromBytes([hi] + lo) == hi * Pow256(|lo|) + FromBytes(lo)
  {
    if |lo| > 0 {
      var n := |lo|;
      var b := [hi] + lo;
      assert b[..n] == [hi] + lo[..n - 1] && b[n] == lo[n - 1];
      FromBytesPrepend(hi, lo[..n - 1]);
      Regroup(hi, Pow256(n - 1), FromBytes(lo[..n - 1]), lo[n - 1]);
    } else {
      assert [hi][..0] == [];
    }
  }

  /** The arithmetic step of `FromBytesPrepend`: shifting a sum by one byte. */
  lemma Regroup(hi: nat, p: nat, x: nat, d: nat)
    ensures (hi * p + x) * 256 + d == hi * (256 * p) + (x * 256 + d)
  {
  }
}
