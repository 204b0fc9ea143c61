/** Values shared by every module of the model. */
module Common {
  /** An octet of a Java `byte[]`, read as an unsigned value. */
  type byte = b: int | 0 <= b < 256

  /** Java's `Optional` / a nullable reference: `None` is empty or null. */
  datatype Option<+T> = None | Some(value: T)

  /** The outcome of a call that either returns a value or throws. */
  datatype Result<+T, +E> = Ok(value: T) | Err(error: E)

  /** The exceptions the modelled Java code throws, by class. */
  datatype Exception =
    | IllegalArgument(message: string)
    | IllegalState(message: string)
    | IOFailure(message: string)
    | BufferUnderflow
    | BufferOverflow
    | IndexOutOfBounds
    | UnsupportedOperation
    | NoSuchElement
    | NullPointer
    | RuntimeFailure
    /** A JSON field that `getString`/`get` could not find or parse. */
    | JsonFailure
    /** A blocking call that never returns: the scripted peer or engine has nothing more to give. */
    | Blocked
    /** JavaScript's `URIError`, thrown by `decodeURIComponent` on a malformed escape. */
    | UriError

  /** SHA-256 of the UTF-8 bytes of a string. */
  type Digest = string -> seq<byte>

  /** `n` zero bytes, as `new byte[n]` holds them. */
  function Zeros(n: nat): (z: seq<byte>)
    ensures |z| == n
  {
    seq(n, _ => 0)
  }

  function Min(a: int, b: int): int { if a <= b then a else b }

  /** Writes `s` into `a` from index `at` on, as `System.arraycopy` does. */
  method Store(a: array<byte>, at: nat, s: seq<byte>)
    requires at + |s| <= a.Length
    modifies a
    ensures a[..] == old(a[..at]) + s + old(a[at + |s|..])
    ensures a[at..at + |s|] == s
  {
    ghost var before := a[..];
    forall i | at <= i < at + |s| {
      a[i] := s[i - at];
    }
    assert a[..] == before[..at] + s + before[at + |s|..];
  }

  /** `new byte[s.length]` filled with `s`, as `buffer.get(new byte[n])` leaves it. */
  method ArrayOf(s: seq<byte>) returns (a: array<byte>)
    ensures fresh(a) && a[..] == s
  {
    a := new byte[|s|](i requires 0 <= i < |s| => s[i]);
  }
}
