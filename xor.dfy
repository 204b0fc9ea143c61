/**
 * `Xor`: Java's `^` on bytes, written out bit by bit over unbounded
 * integers, and the algebra the stream-cipher and nonce models rely on.
 */
module ByteXor {
  import opened Common

  function Pow2(k: nat): (p: nat)
    ensures p >= 1
  {
    if k == 0 then 1 else 2 * Pow2(k - 1)
  }

  /** The exclusive or of the low `k` bits of `a` and `b`, one bit at a time. */
  function XorBits(a: nat, b: nat, k: nat): (c: nat)
    requires a < Pow2(k) && b < Pow2(k)
    ensures c < Pow2(k)
  {
    if k == 0 then 0 else 2 * XorBits(a / 2, b / 2, k - 1) + (if a % 2 == b % 2 then 0 else 1)
  }

  /** Taking the exclusive or with the same `b` twice gives back `a`. */
  lemma {:induction false} XorBitsTwice(a: nat, b: nat, k: nat)
    requires a < Pow2(k) && b < Pow2(k)
    ensures XorBits(XorBits(a, b, k), b, k) == a
  {
    if k > 0 {
      var c := XorBits(a, b, k);
      assert c / 2 == XorBits(a / 2, b / 2, k - 1);
      XorBitsTwice(a / 2, b / 2, k - 1);
    }
  }

  /** Java's `^` on two bytes. */
  function XorByte(a: byte, b: byte): byte
  {
    assert Pow2(8) == 256;
    XorBits(a, b, 8)
  }

  lemma XorByteTwice(a: byte, b: byte)
    ensures XorByte(XorByte(a, b), b) == a
  {
    assert Pow2(8) == 256;
    XorBitsTwice(a, b, 8);
  }

  /** The bytewise XOR of `xs` with the first `|xs|` bytes of `ys`. */
  function XorBytes(xs: seq<byte>, ys: seq<byte>): (zs: seq<byte>)
    requires |ys| >= |xs|
    ensures |zs| == |xs|
  {
    seq(|xs|, i requires 0 <= i < |xs| => XorByte(xs[i], ys[i]))
  }

  /** XOR with the same key twice gives back the input. */
  lemma XorBytesTwice(xs: seq<byte>, ys: seq<byte>)
    requires |ys| >= |xs|
    ensures XorBytes(XorBytes(xs, ys), ys) == xs
  {
    forall i | 0 <= i < |xs| ensures XorBytes(XorBytes(xs, ys), ys)[i] == xs[i] {
      XorByteTwice(xs[i], ys[i]);
    }
  }

  /** XOR with a fixed key is one-to-one. */
  lemma XorBytesInjective(xs: seq<byte>, xs': seq<byte>, ys: seq<byte>)
    requires |ys| >= |xs| && |ys| >= |xs'| && XorBytes(xs, ys) == XorBytes(xs', ys)
    ensures xs == xs'
  {
    XorBytesTwice(xs, ys);
    XorBytesTwice(xs', ys);
  }

  /** Two XORs into the same value can be applied in either order. */
  lemma {:induction false} XorBitsSwap(a: nat, b: nat, c: nat, k: nat)
    requires a < Pow2(k) && b < Pow2(k) && c < Pow2(k)
    ensures XorBits(XorBits(a, b, k), c, k) == XorBits(XorBits(a, c, k), b, k)
  {
    if k > 0 {
      var ab, ac := XorBits(a, b, k), XorBits(a, c, k);
      assert ab / 2 == XorBits(a / 2, b / 2, k - 1) && ab % 2 == (if a % 2 == b % 2 then 0 else 1);
      assert ac / 2 == XorBits(a / 2, c / 2, k - 1) && ac % 2 == (if a % 2 == c % 2 then 0 else 1);
      XorBitsSwap(a / 2, b / 2, c / 2, k - 1);
    }
  }

  /** Bytewise, XORing two keys into the same data commutes. */
  lemma XorBytesSwap(xs: seq<byte>, ys: seq<byte>, zs: seq<byte>)
    requires |ys| >= |xs| && |zs| >= |xs|
    ensures XorBytes(XorBytes(xs, ys), zs) == XorBytes(XorBytes(xs, zs), ys)
  {
    assert Pow2(8) == 256;
    forall i | 0 <= i < |xs| ensures XorBytes(XorBytes(xs, ys), zs)[i] == XorBytes(XorBytes(xs, zs), ys)[i] {
      XorBitsSwap(xs[i], ys[i], zs[i], 8);
    }
  }
}
