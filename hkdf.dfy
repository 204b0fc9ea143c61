/**
 * `HKDF.expand`: the HKDF-Expand step of section 2.3 of RFC 5869 with
 * HMAC-SHA256. The MAC keyed with the master key is a parameter; the only
 * thing the model assumes about it is that every tag is 32 bytes long.
 */
module Hkdf {
  import opened Common

  /** HMAC-SHA256 under the master key, as a function of the message. */
  type Mac = seq<byte> -> seq<byte>

  /** HashLen of RFC 5869 for SHA-256. */
  const HashLen: nat := 32

  /** The `checkIndex` bound: `outputKeySize` must be below 255 blocks. */
  const Bound: nat := 255 * 32

  ghost predicate TagsAre32Bytes(mac: Mac) {
    forall m :: |mac(m)| == HashLen
  }

  /** T(k) of section 2.3 of RFC 5869: T(0) is empty, T(k) = HMAC(T(k-1) | info | k). */
  function T(mac: Mac, info: seq<byte>, k: nat): seq<byte>
    requires k <= 255
  {
    if k == 0 then [] else mac(T(mac, info, k - 1) + info + [k as byte])
  }

  /** T(1) | T(2) | ... | T(k). */
  function Stream(mac: Mac, info: seq<byte>, k: nat): seq<byte>
    requires k <= 255
  {
    if k == 0 then [] else Stream(mac, info, k - 1) + T(mac, info, k)
  }

  /** The number of HMAC blocks for `n` output bytes: ceil(n / 32). */
  function Blocks(n: nat): nat {
    (n + HashLen - 1) / HashLen
  }

  /** The block count of `n` bytes, seen from the `j` blocks already written. */
  lemma BlocksCount(n: nat, j: nat)
    ensures (HashLen * j) / HashLen == j
    ensures HashLen * j < n ==> j + 1 <= Blocks(n)
    ensures HashLen * j >= n ==> j >= Blocks(n)
    ensures n < Bound ==> Blocks(n) <= 255
  {
  }

  lemma {:induction false} StreamLength(mac: Mac, info: seq<byte>, k: nat)
    requires k <= 255 && TagsAre32Bytes(mac)
    ensures |Stream(mac, info, k)| == HashLen * k
  {
    if k > 0 {
      StreamLength(mac, info, k - 1);
    }
  }

  /** The stream up to `len` bytes into block `k` is the stream before it and that much of T(k). */
  lemma StreamPrefix(mac: Mac, info: seq<byte>, k: nat, len: nat)
    requires 1 <= k <= 255 && TagsAre32Bytes(mac) && len <= HashLen
    ensures |Stream(mac, info, k - 1)| == HashLen * (k - 1)
    ensures Stream(mac, info, k)[..HashLen * (k - 1) + len] == Stream(mac, info, k - 1) + T(mac, info, k)[..len]
  {
    StreamLength(mac, info, k - 1);
  }

  /** The output keying material: the first `n` bytes of T(1) | T(2) | ... */
  function Okm(mac: Mac, info: seq<byte>, n: nat): (okm: seq<byte>)
    requires n < Bound && TagsAre32Bytes(mac)
    ensures |okm| == n
  {
    StreamLength(mac, info, Blocks(n));
    Stream(mac, info, Blocks(n))[..n]
  }

  /** Byte `p` of the stream is byte `p mod 32` of block `p div 32 + 1`. */
  lemma {:induction false} StreamAt(mac: Mac, info: seq<byte>, k: nat, p: nat)
    requires k <= 255 && TagsAre32Bytes(mac) && p < HashLen * k
    ensures |Stream(mac, info, k)| == HashLen * k
    ensures Stream(mac, info, k)[p] == T(mac, info, p / HashLen + 1)[p % HashLen]
  {
    StreamLength(mac, info, k);
    StreamLength(mac, info, k - 1);
    if p < HashLen * (k - 1) {
      StreamAt(mac, info, k - 1, p);
    } else {
      assert p / HashLen == k - 1;
    }
  }

  /** Every output byte comes from the block the counter selects. */
  lemma OkmAt(mac: Mac, info: seq<byte>, n: nat, p: nat)
    requires n < Bound && TagsAre32Bytes(mac) && p < n
    ensures p / HashLen + 1 <= 255
    ensures Okm(mac, info, n)[p] == T(mac, info, p / HashLen + 1)[p % HashLen]
  {
    StreamAt(mac, info, Blocks(n), p);
  }

  /** A shorter output is a prefix of a longer one with the same key and info. */
  lemma OkmPrefix(mac: Mac, info: seq<byte>, m: nat, n: nat)
    requires m <= n < Bound && TagsAre32Bytes(mac)
    ensures Okm(mac, info, m) == Okm(mac, info, n)[..m]
  {
    forall p | 0 <= p < m ensures Okm(mac, info, m)[p] == Okm(mac, info, n)[p] {
      OkmAt(mac, info, m, p);
      OkmAt(mac, info, n, p);
    }
  }

  /**
   * `HKDF.expand(key, context, outputKeySize, algorithm)` with `info` the
   * UTF-8 bytes of `context`: `IndexOutOfBoundsException` unless
   * 0 <= outputKeySize < 255 * 32, `IllegalArgumentException` from
   * `new SecretKeySpec` when the output is empty, otherwise exactly
   * `outputKeySize` bytes of output keying material. The loop advances `i` by 32, feeds
   * T(k-1) | info | counter to the MAC and copies at most 32 bytes of each
   * block into the output array.
   */
  method Expand(mac: Mac, info: seq<byte>, outputKeySize: int) returns (r: Result<seq<byte>, Exception>)
    requires TagsAre32Bytes(mac)
    ensures r.Err? <==> !(0 < outputKeySize < Bound)
    ensures !(0 <= outputKeySize < Bound) ==> r == Err(IndexOutOfBounds)
    ensures outputKeySize == 0 ==> r == Err(IllegalArgument("Empty key"))
    ensures r.Ok? ==> r.value == Okm(mac, info, outputKeySize) && |r.value| == outputKeySize
  {
    if !(0 <= outputKeySize < Bound) {
      return Err(IndexOutOfBounds);
    }
    var n := outputKeySize;
    var output := new byte[n](_ => 0);
    var block: seq<byte> := [];
    var i := 0;
    ghost var j := 0;
    while i < n
      invariant i == HashLen * j && j <= Blocks(n)
      invariant block == T(mac, info, j)
      invariant |Stream(mac, info, j)| == i
      invariant output[..Min(i, n)] == Stream(mac, info, j)[..Min(i, n)]
    {
      BlocksCount(n, j);
      block := NextBlock(mac, info, output, i, j, block);
      i, j := i + HashLen, j + 1;
    }
    BlocksCount(n, j);
    assert output[..] == Okm(mac, info, n);
    if n == 0 {
      return Err(IllegalArgument("Empty key"));
    }
    return Ok(output[..]);
  }

  /**
   * One pass of the `expand` loop: T(j+1) from T(j), `info` and the counter
   * `i / 32 + 1`, and its first `min(n - i, 32)` bytes copied to `output` at
   * `i`.
   */
  method NextBlock(mac: Mac, info: seq<byte>, output: array<byte>, i: nat, ghost j: nat, block: seq<byte>)
    returns (next: seq<byte>)
    requires TagsAre32Bytes(mac) && i < output.Length && i == HashLen * j && j + 1 <= 255
    requires (HashLen * j) / HashLen == j
    requires block == T(mac, info, j) && |Stream(mac, info, j)| == i
    requires output[..i] == Stream(mac, info, j)[..i]
    modifies output
    ensures next == T(mac, info, j + 1) && |Stream(mac, info, j + 1)| == i + HashLen
    ensures output[..Min(i + HashLen, output.Length)] == Stream(mac, info, j + 1)[..Min(i + HashLen, output.Length)]
  {
    var k := i / HashLen + 1;
    var counter: byte := k % 256;
    assert counter == k;
    next := mac(block + info + [counter]);
    var len := Min(output.Length - i, HashLen);
    Store(output, i, next[..len]);
    StreamPrefix(mac, info, k, len);
  }
}
