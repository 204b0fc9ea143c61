/**
 * `java.nio.ByteBuffer` (heap or direct, big-endian): a fixed array with a
 * `position` and a `limit` cursor. The DTLS wrappers move data between the
 * engine and the network through these cursors with `put`, `flip`, `get` and
 * `compact`; the OSCORE nonce is assembled with `put`.
 */
module ByteBuffers {
  import opened Common

  /** Two buffers share neither the object nor the backing array. */
  ghost predicate Separate(a: ByteBuffer?, b: ByteBuffer?)
  {
    a != null && b != null ==> a != b && a.hb != b.hb
  }

  class ByteBuffer {
    /** The backing array; its length is the buffer's capacity. */
    const hb: array<byte>
    var position: nat
    var limit: nat

    ghost predicate Valid()
      reads this
    {
      position <= limit <= hb.Length
    }

    function Capacity(): nat
      reads this
    {
      hb.Length
    }

    function Remaining(): nat
      reads this
      requires Valid()
    {
      limit - position
    }

    /** The bytes a relative `get` would read next. */
    function Readable(): seq<byte>
      reads this, hb
      requires Valid()
    {
      hb[position..limit]
    }

    /** The bytes written so far while the buffer is in append mode. */
    function Written(): seq<byte>
      reads this, hb
      requires Valid()
    {
      hb[..position]
    }

    /** Append mode: everything up to the capacity may be written. */
    predicate Appending()
      reads this
    {
      limit == hb.Length
    }

    /** `ByteBuffer.allocate(capacity)`: zero-filled, position 0, limit = capacity. */
    constructor Allocate(capacity: nat)
      ensures Valid() && fresh(hb)
      ensures hb.Length == capacity && position == 0 && limit == capacity
      ensures hb[..] == Zeros(capacity)
    {
      hb := new byte[capacity](_ => 0);
      position, limit := 0, capacity;
    }

    /** `ByteBuffer.wrap(array, offset, length)`: a view over the caller's array. */
    constructor Wrap(data: array<byte>, offset: nat, length: nat)
      requires offset + length <= data.Length
      ensures Valid() && hb == data && position == offset && limit == offset + length
    {
      hb := data;
      position, limit := offset, offset + length;
    }

    /**
     * Relative bulk `put`: `BufferOverflowException` and no change when fewer
     * than `|s|` bytes remain, otherwise `s` is written at the position and
     * the position moves past it.
     */
    method PutBytes(s: seq<byte>) returns (r: Result<(), Exception>)
      requires Valid()
      modifies this`position, hb
      ensures Valid() && limit == old(limit)
      ensures r.Err? <==> |s| > old(Remaining())
      ensures r.Err? ==> r.error == BufferOverflow && position == old(position) && hb[..] == old(hb[..])
      ensures r.Ok? ==> position == old(position) + |s|
      ensures r.Ok? ==> hb[..] == old(hb[..position]) + s + old(hb[position + |s|..])
    {
      if |s| > limit - position {
        return Err(BufferOverflow);
      }
      Store(hb, position, s);
      position := position + |s|;
      return Ok(());
    }

    /**
     * Relative bulk `get` of `n` bytes: `BufferUnderflowException` and no
     * change when fewer remain, otherwise the next `n` readable bytes.
     */
    method GetBytes(n: nat) returns (r: Result<seq<byte>, Exception>)
      requires Valid()
      modifies this`position
      ensures Valid()
      ensures r.Err? <==> n > old(Remaining())
      ensures r.Err? ==> r.error == BufferUnderflow && position == old(position)
      ensures r.Ok? ==> r.value == old(Readable())[..n] && position == old(position) + n
    {
      if n > limit - position {
        return Err(BufferUnderflow);
      }
      assert hb[position..position + n] == hb[position..limit][..n];
      r := Ok(hb[position..position + n]);
      position := position + n;
    }

    /** `hasRemaining()`. */
    predicate HasRemaining()
      reads this
    {
      position < limit
    }

    /**
     * Relative bulk `get(dst, offset, length)`: `IndexOutOfBoundsException`
     * when the range does not fit `dst`, `BufferUnderflowException` when fewer
     * than `length` bytes remain (in that order), otherwise the next `length`
     * readable bytes land in `dst[offset..offset + length]`.
     */
    method GetInto(dst: array<byte>, offset: nat, length: nat) returns (r: Result<(), Exception>)
      requires Valid() && dst != hb
      modifies this`position, dst
      ensures Valid()
      ensures offset + length > dst.Length ==> r == Err(IndexOutOfBounds)
      ensures offset + length <= dst.Length && length > old(Remaining()) ==> r == Err(BufferUnderflow)
      ensures r.Err? ==> position == old(position) && dst[..] == old(dst[..])
      ensures r.Ok? <==> offset + length <= dst.Length && length <= old(Remaining())
      ensures r.Ok? ==> position == old(position) + length
      ensures r.Ok? ==> dst[..] == old(dst[..offset]) + old(Readable())[..length] + old(dst[offset + length..])
    {
      if offset + length > dst.Length {
        return Err(IndexOutOfBounds);
      }
      if length > limit - position {
        return Err(BufferUnderflow);
      }
      assert hb[position..position + length] == hb[position..limit][..length];
      Store(dst, offset, hb[position..position + length]);
      position := position + length;
      return Ok(());
    }

    /**
     * Relative bulk `put(src)` of another buffer: `BufferOverflowException` and
     * no change when `src` has more readable bytes than this buffer has room,
     * otherwise they are appended and `src` is read to its limit.
     */
    method PutBuffer(src: ByteBuffer) returns (r: Result<(), Exception>)
      requires Valid() && src.Valid() && src != this && src.hb != hb
      modifies this`position, hb, src`position
      ensures Valid() && src.Valid() && limit == old(limit) && src.limit == old(src.limit)
      ensures r.Err? <==> old(src.Remaining()) > old(Remaining())
      ensures r.Err? ==> r.error == BufferOverflow && position == old(position) && hb[..] == old(hb[..])
                         && src.position == old(src.position)
      ensures r.Ok? ==> position == old(position) + old(src.Remaining()) && src.position == src.limit
      ensures r.Ok? ==> hb[..] == old(hb[..position]) + old(src.Readable()) + old(hb[position + src.Remaining()..])
    {
      var s := src.hb[src.position..src.limit];
      r := PutBytes(s);
      if r.Ok? {
        src.position := src.limit;
      }
    }

    /** `flip`: the written bytes become the readable ones. */
    method Flip()
      requires Valid()
      modifies this`position, this`limit
      ensures Valid() && limit == old(position) && position == 0
      ensures Readable() == old(Written())
    {
      limit := position;
      position := 0;
    }

    /**
     * `compact`: the unread bytes move to the front and the buffer returns to
     * append mode just after them; the bytes beyond are left as they were.
     */
    method Compact()
      requires Valid()
      modifies this`position, this`limit, hb
      ensures Valid() && Appending()
      ensures Written() == old(Readable())
      ensures hb[position..] == old(hb[..])[position..]
    {
      var n := limit - position;
      ghost var before := hb[..];
      forall i | 0 <= i < n {
        hb[i] := hb[position + i];
      }
      position, limit := n, hb.Length;
      assert hb[..position] == before[old(position)..old(limit)];
    }
  }
}
