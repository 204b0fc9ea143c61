/**
 * The UDP side of the DTLS wrappers: `DatagramPacket`, and the state of a
 * `DatagramSocket` or `DatagramChannel` (whether it is connected, the
 * datagrams waiting to be received, the datagrams sent). Receiving from an
 * empty queue would block forever; the model answers it with `Blocked`.
 */
module Datagrams {
  import opened Common
  import ByteBuffers
  import opened SslEngines

  datatype Datagram = Datagram(peer: Address, data: seq<byte>)

  /** Whether a socket in this connection state accepts a datagram. */
  predicate Accepts(connected: Option<Address>, d: Datagram)
  {
    connected.None? || d.peer == connected.value
  }

  /** The queue once the datagrams the socket would discard are skipped. */
  function Skip(connected: Option<Address>, inbox: seq<Datagram>): seq<Datagram>
  {
    if inbox == [] || Accepts(connected, inbox[0]) then inbox else Skip(connected, inbox[1..])
  }

  /**
   * A receive takes the first datagram the socket accepts: the queue it
   * leaves is a suffix of the inbox, starts with an accepted datagram, and
   * every datagram dropped before it was one the socket does not accept.
   */
  lemma {:induction false} SkipDropsOnlyRejected(connected: Option<Address>, inbox: seq<Datagram>)
    ensures var r := Skip(connected, inbox);
      |r| <= |inbox| && r == inbox[|inbox| - |r|..] &&
      (r != [] ==> Accepts(connected, r[0])) &&
      (forall i :: 0 <= i < |inbox| - |r| ==> !Accepts(connected, inbox[i]))
    decreases |inbox|
  {
    if inbox != [] && !Accepts(connected, inbox[0]) {
      SkipDropsOnlyRejected(connected, inbox[1..]);
      var r := Skip(connected, inbox);
      assert r == Skip(connected, inbox[1..]);
      forall i | 0 <= i < |inbox| - |r|
        ensures !Accepts(connected, inbox[i])
      {
        if i > 0 {
          assert inbox[i] == inbox[1..][i - 1];
        }
      }
    }
  }

  /** `java.net.DatagramPacket`: a window `[offset, offset + bufLength)` of `data`. */
  class DatagramPacket {
    var data: array<byte>
    var offset: nat
    /** `getLength()`: the bytes last received or to be sent. */
    var length: nat
    /** The room a `receive` may fill, as the last `setData`/`setLength` fixed it. */
    var bufLength: nat
    var address: Option<Address>

    ghost predicate Valid()
      reads this
    {
      offset + bufLength <= data.Length && length <= bufLength
    }

    /** The bytes `getData()`, `getOffset()` and `getLength()` designate. */
    function Payload(): seq<byte>
      reads this, data
      requires Valid()
    {
      data[offset..offset + length]
    }

    /** `new DatagramPacket(buf, length[, address])`. */
    constructor (buf: array<byte>, length: nat, address: Option<Address>)
      requires length <= buf.Length
      ensures Valid() && data == buf && offset == 0 && this.length == length && bufLength == length
      ensures this.address == address
    {
      data, offset, this.length, bufLength, this.address := buf, 0, length, length, address;
    }

    /** `setData(buf)`: the whole array, offset 0. */
    method SetData(buf: array<byte>)
      modifies this
      ensures Valid() && data == buf && offset == 0 && length == buf.Length && bufLength == buf.Length
      ensures address == old(address)
    {
      data, offset, length, bufLength := buf, 0, buf.Length, buf.Length;
    }

    /** `setSocketAddress(address)`. */
    method SetSocketAddress(a: Address)
      modifies this`address
      ensures address == Some(a)
    {
      address := Some(a);
    }

    /** `setLength(len)`: `IllegalArgumentException` unless `offset + len` fits the array. */
    method SetLength(len: nat) returns (r: Result<(), Exception>)
      requires Valid()
      modifies this`length, this`bufLength
      ensures Valid() && data == old(data) && offset == old(offset) && address == old(address)
      ensures r.Err? <==> offset + len > data.Length
      ensures r.Err? ==> r.error.IllegalArgument? && length == old(length) && bufLength == old(bufLength)
      ensures r.Ok? ==> length == len && bufLength == len
    {
      if offset + len > data.Length {
        return Err(IllegalArgument("illegal length or offset"));
      }
      length, bufLength := len, len;
      return Ok(());
    }

    /**
     * What `receive` does to the packet: the bytes land at `offset`, `length`
     * becomes their count and the address their sender.
     */
    method Fill(bytes: seq<byte>, from: Address)
      requires Valid() && |bytes| <= bufLength
      modifies this`length, this`address, data
      ensures Valid() && length == |bytes| && address == Some(from) && Payload() == bytes
      ensures data[..] == old(data[..offset]) + bytes + old(data[offset + |bytes|..])
    {
      Store(data, offset, bytes);
      length, address := |bytes|, Some(from);
    }
  }

  /** The state of a datagram socket or channel. */
  class Transport {
    var connected: Option<Address>
    var inbox: seq<Datagram>
    var sent: seq<Datagram>

    constructor (inbox: seq<Datagram>)
      ensures connected == None && this.inbox == inbox && sent == []
    {
      connected, this.inbox, sent := None, inbox, [];
    }

    method Connect(peer: Address)
      modifies this`connected
      ensures connected == Some(peer)
    {
      connected := Some(peer);
    }

    method Disconnect()
      modifies this`connected
      ensures connected == None
    {
      connected := None;
    }

    /**
     * Takes the next datagram the socket accepts off the queue, discarding
     * the ones before it; `None` when there is none (a receive would block).
     */
    method NextDatagram() returns (d: Option<Datagram>)
      modifies this`inbox
      ensures Skip(connected, old(inbox)) == [] ==> d == None && inbox == old(inbox)
      ensures Skip(connected, old(inbox)) != [] ==>
        d == Some(Skip(connected, old(inbox))[0]) && inbox == Skip(connected, old(inbox))[1..]
    {
      var queue := Skip(connected, inbox);
      if queue == [] {
        return None;
      }
      inbox := queue[1..];
      return Some(queue[0]);
    }

    /**
     * `DatagramChannel.receive(buf)`: the next accepted datagram, cut to the
     * room left in `buf` (the rest of it is discarded), and its sender.
     */
    method Receive(buf: ByteBuffers.ByteBuffer) returns (r: Result<Address, Exception>)
      requires buf.Valid()
      modifies this`inbox, buf`position, buf.hb
      ensures buf.Valid() && buf.limit == old(buf.limit)
      ensures Skip(connected, old(inbox)) == [] ==> r == Err(Blocked) && unchanged(buf) && buf.hb[..] == old(buf.hb[..])
      ensures Skip(connected, old(inbox)) != [] ==>
        var d := Skip(connected, old(inbox))[0];
        var n := Min(|d.data|, old(buf.Remaining()));
        r == Ok(d.peer) && inbox == Skip(connected, old(inbox))[1..] &&
        buf.position == old(buf.position) + n &&
        buf.hb[..] == old(buf.hb[..buf.position]) + d.data[..n] + old(buf.hb[buf.position + n..])
    {
      var next := NextDatagram();
      if next.None? {
        return Err(Blocked);
      }
      var d := next.value;
      var put := buf.PutBytes(d.data[..Min(|d.data|, buf.limit - buf.position)]);
      return Ok(d.peer);
    }

    /** `DatagramChannel.write(buf)` on a connected channel: the readable bytes as one datagram. */
    method Write(buf: ByteBuffers.ByteBuffer)
      requires buf.Valid() && connected.Some?
      modifies this`sent, buf`position
      ensures buf.Valid() && buf.position == buf.limit
      ensures sent == old(sent) + [Datagram(connected.value, old(buf.Readable()))]
    {
      sent := sent + [Datagram(connected.value, buf.hb[buf.position..buf.limit])];
      buf.position := buf.limit;
    }

    /**
     * `DatagramSocket.receive(packet)`: the next accepted datagram, cut to
     * the packet's `bufLength`, lands at its offset; its length and address
     * become the datagram's.
     */
    method ReceivePacket(packet: DatagramPacket) returns (r: Result<(), Exception>)
      requires packet.Valid()
      modifies this`inbox, packet`length, packet`address, packet.data
      ensures packet.Valid()
      ensures Skip(connected, old(inbox)) == [] ==>
        r == Err(Blocked) && inbox == old(inbox) && packet.length == old(packet.length) &&
        packet.address == old(packet.address) && packet.data[..] == old(packet.data[..])
      ensures Skip(connected, old(inbox)) != [] ==>
        var d := Skip(connected, old(inbox))[0];
        var n := Min(|d.data|, packet.bufLength);
        r.Ok? && inbox == Skip(connected, old(inbox))[1..] &&
        packet.length == n && packet.address == Some(d.peer) &&
        packet.Payload() == d.data[..n] &&
        packet.data[..] == old(packet.data[..packet.offset]) + d.data[..n] + old(packet.data[packet.offset + n..])
    {
      var next := NextDatagram();
      if next.None? {
        return Err(Blocked);
      }
      var d := next.value;
      packet.Fill(d.data[..Min(|d.data|, packet.bufLength)], d.peer);
      return Ok(());
    }

    /**
     * `DatagramSocket.send(packet)`: `IllegalArgumentException` when the
     * packet has no address and the socket is not connected, or when a
     * connected socket is given another address; otherwise the payload is
     * sent to the packet's address (the connected peer when it has none).
     */
    method SendPacket(packet: DatagramPacket) returns (r: Result<(), Exception>)
      requires packet.Valid()
      modifies this`sent
      ensures r.Err? <==> (packet.address.None? && connected.None?) ||
                          (packet.address.Some? && connected.Some? && packet.address != connected)
      ensures r.Err? ==> r.error.IllegalArgument? && sent == old(sent)
      ensures r.Ok? ==>
        var to := if packet.address.Some? then packet.address.value else connected.value;
        sent == old(sent) + [Datagram(to, packet.Payload())]
    {
      if packet.address.None? && connected.None? {
        return Err(IllegalArgument("Address not set"));
      }
      if packet.address.Some? && connected.Some? && packet.address != connected {
        return Err(IllegalArgument("connected address and packet address differ"));
      }
      var to := if packet.address.Some? then packet.address.value else connected.value;
      sent := sent + [Datagram(to, packet.data[packet.offset..packet.offset + packet.length])];
      return Ok(());
    }
  }
}
