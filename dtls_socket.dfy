/**
 * `DtlsDatagramSocket`: DTLS over a `DatagramSocket` subclass. The engine is
 * created at most once, in client mode by the first `send` (which needs a
 * connected socket) and in server mode by the first `receive`. Each handshake
 * runs over its own 1024-byte buffers and a reused `DatagramPacket`, ends
 * only on `FINISHED`, and checks every wrap and unwrap status. The record
 * headers are decoded (`DtlsPacketDebug.debug`) on the way, and a decoding
 * error propagates.
 */
module DtlsSocket {
  import opened Common
  import opened ByteBuffers
  import opened SslEngines
  import opened Datagrams
  import JavaStrings
  import DtlsPacketDebug

  /** `HANDSHAKE_PACKET_SIZE`. */
  const HandshakePacketSize: nat := 1024
  /** The network buffer `send` allocates for one record. */
  const NetworkBufferSize: nat := 16384

  /**
   * `new DtlsDatagramSocket(sslContext, sslParameters, port)`:
   * `IllegalArgumentException` unless the context's protocol is "DTLS" in
   * any case.
   */
  method Open(sslContext: Context, maximumPacketSize: nat, inbox: seq<Datagram>)
    returns (r: Result<DtlsDatagramSocket, Exception>)
    ensures r.Err? <==> !JavaStrings.EqualsIgnoreCase("DTLS", sslContext.protocol)
    ensures r.Err? ==> r.error.IllegalArgument?
    ensures r.Ok? ==>
      fresh(r.value) && fresh(r.value.socket) && r.value.sslContext == sslContext &&
      r.value.maximumPacketSize == maximumPacketSize && r.value.sslEngine == None && r.value.engines == 0 &&
      r.value.socket.connected == None && r.value.socket.inbox == inbox && r.value.socket.sent == []
  {
    if !JavaStrings.EqualsIgnoreCase("DTLS", sslContext.protocol) {
      return Err(IllegalArgument("SSLContext not for DTLS"));
    }
    var socket := new DtlsDatagramSocket(sslContext, maximumPacketSize, inbox);
    return Ok(socket);
  }

  /**
   * The data-receiving part of `receive`, shared by both socket wrappers:
   * the next datagram lands in the packet, is unwrapped into a buffer as
   * large as the packet's array, and the plaintext is delivered.
   */
  method ReceiveRecord(e: Engine, socket: Transport, packet: DatagramPacket) returns (r: Result<(), Exception>, e': Engine)
    requires packet.Valid()
    modifies socket`inbox, packet`length, packet`bufLength, packet`address, packet.data
    ensures SameEngine(e, e')
    ensures packet.Valid() && packet.data == old(packet.data) && packet.offset == old(packet.offset)
    ensures Skip(socket.connected, old(socket.inbox)) == [] ==> r == Err(Blocked)
    ensures r.Err? ==> r.error == Blocked || r.error.IOFailure? || r.error.IllegalArgument?
    ensures Skip(socket.connected, old(socket.inbox)) != [] ==>
      (r == Err(IOFailure("DTLS error")) <==> Outcome(e, packet.data.Length) != OK)
    ensures Skip(socket.connected, old(socket.inbox)) != [] && Outcome(e, packet.data.Length) == OK ==>
      (r.Err? <==> old(packet.offset) + |Produced(e, packet.data.Length)| > packet.data.Length)
    ensures r.Ok? ==>
      var plain := Produced(e, packet.data.Length);
      Skip(socket.connected, old(socket.inbox)) != [] &&
      packet.offset + |plain| <= packet.data.Length &&
      packet.length == |plain| && packet.bufLength == |plain| && packet.data[..|plain|] == plain &&
      packet.address == Some(Skip(socket.connected, old(socket.inbox))[0].peer)
  {
    e' := e;
    var got := socket.ReceivePacket(packet);
    if got.Err? {
      return got, e';
    }
    var application;
    application, e' := ProcessPacket(e, packet, packet.data.Length, "DTLS error");
    if application.Err? {
      return Err(application.error), e';
    }
    r := Deliver(application.value, packet);
  }

  /**
   * The end of `receive`: the plaintext is copied to the start of the
   * packet's array, as much of it as fits, and `setLength` then rejects a
   * plaintext that does not fit after the packet's offset.
   */
  method Deliver(plain: ByteBuffer, packet: DatagramPacket) returns (r: Result<(), Exception>)
    requires plain.Valid() && packet.Valid() && plain.hb != packet.data
    modifies plain`position, packet`length, packet`bufLength, packet.data
    ensures packet.Valid() && packet.data == old(packet.data) && packet.offset == old(packet.offset)
    ensures packet.address == old(packet.address)
    ensures r.Err? <==> packet.offset + |old(plain.Readable())| > packet.data.Length
    ensures r.Err? ==> r.error.IllegalArgument?
    ensures r.Ok? ==>
      var p := old(plain.Readable());
      packet.length == |p| && packet.bufLength == |p| && packet.data[..|p|] == p
  {
    var len := plain.limit - plain.position;
    var copied := plain.GetInto(packet.data, 0, Min(len, packet.data.Length));
    assert copied.Ok?;
    r := packet.SetLength(len);
  }

  /**
   * The packet's bytes passed through the engine (`wrap` in `send`,
   * `unwrap` in `receive`) into a new buffer of `capacity` bytes, flipped
   * for reading; a status other than `OK` is an `IOException`.
   */
  method ProcessPacket(e: Engine, packet: DatagramPacket, capacity: nat, message: string)
    returns (r: Result<ByteBuffer, Exception>, e': Engine)
    requires packet.Valid()
    ensures SameEngine(e, e')
    ensures r.Err? <==> Outcome(e, capacity) != OK
    ensures r.Err? ==> r.error == IOFailure(message)
    ensures r.Ok? ==>
      fresh(r.value) && fresh(r.value.hb) && r.value.Valid() && r.value.Readable() == Produced(e, capacity)
  {
    var source := new ByteBuffer.Wrap(packet.data, packet.offset, packet.length);
    var target := new ByteBuffer.Allocate(capacity);
    var result;
    result, e' := Exchange(e, source, target);
    if result.status != OK {
      return Err(IOFailure(message)), e';
    }
    target.Flip();
    return Ok(target), e';
  }

  /**
   * What `send` needs once the handshake is over: an `OK` wrap, a record
   * whose header decodes, and a packet address that is set and is the
   * connected peer when the socket is connected.
   */
  predicate Sendable(e: Engine, address: Option<Address>, connected: Option<Address>) {
    Outcome(e, NetworkBufferSize) == OK && DtlsPacketDebug.DecodeRecord(Produced(e, NetworkBufferSize)).Ok? &&
    address.Some? && (connected.None? || connected == address)
  }

  class DtlsDatagramSocket {
    const socket: Transport
    const sslContext: Context
    /** The `SSLParameters` maximum packet size every engine is given. */
    const maximumPacketSize: nat
    var sslEngine: Option<Engine>
    /** How many engines this socket has asked its context for. */
    var engines: nat

    /** The state once the protocol check has passed. */
    constructor (sslContext: Context, maximumPacketSize: nat, inbox: seq<Datagram>)
      ensures fresh(socket) && this.sslContext == sslContext && this.maximumPacketSize == maximumPacketSize
      ensures sslEngine == None && engines == 0
      ensures socket.connected == None && socket.inbox == inbox && socket.sent == []
    {
      socket := new Transport(inbox);
      this.sslContext := sslContext;
      this.maximumPacketSize := maximumPacketSize;
      sslEngine, engines := None, 0;
    }

    /** `connect(address)`. */
    method Connect(peer: Address)
      modifies socket`connected
      ensures socket.connected == Some(peer)
    {
      socket.Connect(peer);
    }

    /**
     * `send(packet)`: `IllegalStateException` on an unconnected socket; the
     * first call creates a client engine for the connected peer and
     * handshakes; then the engine must be `NOT_HANDSHAKING` and the packet is
     * wrapped and sent as one datagram. `ready` is the engine the status
     * check reads: the existing one, or the new one once its handshake has
     * succeeded.
     */
    method Send(packet: DatagramPacket) returns (r: Result<(), Exception>, ghost ready: Option<Engine>)
      requires packet.Valid()
      modifies this`sslEngine, this`engines, socket`inbox, socket`sent
      ensures old(socket.connected).None? ==>
        r == Err(IllegalState("Socket must be connected")) && ready.None? &&
        sslEngine == old(sslEngine) && socket.sent == old(socket.sent)
      ensures old(socket.connected).Some? && old(sslEngine).Some? ==> ready == old(sslEngine)
      ensures old(socket.connected).Some? && old(sslEngine).None? ==>
        (ready.None? ==> r.Err?) &&
        (ready.Some? ==>
           ready.value.current == FINISHED &&
           SameEngine(CreateEngine(sslContext, old(engines), old(socket.connected), true, maximumPacketSize), ready.value))
      ensures ready.Some? && HandshakeStatusOf(ready.value) != NOT_HANDSHAKING ==>
        r == Err(IllegalState("DTLS handshake failed"))
      ensures ready.Some? && HandshakeStatusOf(ready.value) == NOT_HANDSHAKING &&
              Outcome(ready.value, NetworkBufferSize) != OK ==>
        r == Err(IOFailure("Error creating DTLS packet"))
      ensures ready.Some? && HandshakeStatusOf(ready.value) == NOT_HANDSHAKING ==>
        (r.Ok? <==> Sendable(ready.value, packet.address, socket.connected))
      ensures ready.Some? && r.Ok? ==>
        |socket.sent| > 0 && socket.sent[|socket.sent| - 1] == Datagram(socket.connected.value, Produced(ready.value, NetworkBufferSize))
      ensures old(sslEngine).Some? ==> engines == old(engines) && sslEngine.Some? && SameEngine(old(sslEngine.value), sslEngine.value)
      ensures old(sslEngine).None? && old(socket.connected).Some? ==>
        engines == old(engines) + 1 && sslEngine.Some? && sslEngine.value.clientMode &&
        sslEngine.value.peer == socket.connected && sslEngine.value.maximumPacketSize == maximumPacketSize
      ensures old(sslEngine).Some? && r.Ok? ==>
        socket.sent == old(socket.sent) +
          [Datagram(socket.connected.value, Produced(old(sslEngine.value), NetworkBufferSize))]
      ensures r.Ok? ==> |socket.sent| > |old(socket.sent)|
    {
      ready := None;
      if socket.connected.None? {
        return Err(IllegalState("Socket must be connected")), ready;
      }
      if sslEngine.None? {
        sslEngine := Some(CreateEngine(sslContext, engines, socket.connected, true, maximumPacketSize));
        engines := engines + 1;
        var hs := Handshake(packet);
        if hs.Err? {
          return hs, ready;
        }
      }
      ready := sslEngine;
      if HandshakeStatusOf(sslEngine.value) != NOT_HANDSHAKING {
        return Err(IllegalState("DTLS handshake failed")), ready;
      }
      r := SendRecord(packet);
    }

    /**
     * The data-sending part of `send`: the record `WrapRecord` makes goes to
     * the packet's address as one datagram. That address must be set
     * (`getSocketAddress()` of a packet without one has port -1) and must be
     * the connected peer.
     */
    method SendRecord(packet: DatagramPacket) returns (r: Result<(), Exception>)
      requires sslEngine.Some? && packet.Valid()
      modifies this`sslEngine, socket`sent
      ensures sslEngine.Some? && SameEngine(old(sslEngine.value), sslEngine.value)
      ensures packet.address.None? ==> r.Err? && socket.sent == old(socket.sent)
      ensures Outcome(old(sslEngine.value), NetworkBufferSize) != OK ==> r == Err(IOFailure("Error creating DTLS packet"))
      ensures Outcome(old(sslEngine.value), NetworkBufferSize) == OK &&
              DtlsPacketDebug.DecodeRecord(Produced(old(sslEngine.value), NetworkBufferSize)).Err? ==>
        r == Err(DtlsPacketDebug.DecodeRecord(Produced(old(sslEngine.value), NetworkBufferSize)).error)
      ensures r.Ok? <==> Sendable(old(sslEngine.value), packet.address, socket.connected)
      ensures r.Err? ==> socket.sent == old(socket.sent)
      ensures r.Ok? ==>
        var record := Produced(old(sslEngine.value), NetworkBufferSize);
        DtlsPacketDebug.DecodeRecord(record).Ok? &&
        packet.address.Some? && (socket.connected.None? || socket.connected == packet.address) &&
        socket.sent == old(socket.sent) + [Datagram(packet.address.value, record)]
    {
      var record := WrapRecord(packet);
      if record.Err? {
        return Err(record.error);
      }
      var buffer := ArrayOf(record.value);
      if packet.address.None? {
        return Err(IllegalArgument("port out of range"));
      }
      var datagram := new DatagramPacket(buffer, buffer.Length, packet.address);
      assert datagram.Payload() == buffer[..];
      r := socket.SendPacket(datagram);
    }

    /**
     * The packet's bytes wrapped into a 16384-byte buffer: a status other
     * than `OK` is an `IOException`; the record's header is decoded, and too
     * short a record is a `BufferUnderflowException`.
     */
    method WrapRecord(packet: DatagramPacket) returns (r: Result<seq<byte>, Exception>)
      requires sslEngine.Some? && packet.Valid()
      modifies this`sslEngine
      ensures sslEngine.Some? && SameEngine(old(sslEngine.value), sslEngine.value)
      ensures Outcome(old(sslEngine.value), NetworkBufferSize) != OK ==> r == Err(IOFailure("Error creating DTLS packet"))
      ensures Outcome(old(sslEngine.value), NetworkBufferSize) == OK ==>
        (r.Ok? <==> DtlsPacketDebug.DecodeRecord(Produced(old(sslEngine.value), NetworkBufferSize)).Ok?)
      ensures Outcome(old(sslEngine.value), NetworkBufferSize) == OK &&
              DtlsPacketDebug.DecodeRecord(Produced(old(sslEngine.value), NetworkBufferSize)).Err? ==>
        r == Err(DtlsPacketDebug.DecodeRecord(Produced(old(sslEngine.value), NetworkBufferSize)).error)
      ensures r.Err? ==> r.error.IOFailure? || r.error == BufferUnderflow
      ensures r.Ok? ==>
        r.value == Produced(old(sslEngine.value), NetworkBufferSize) && DtlsPacketDebug.DecodeRecord(r.value).Ok?
    {
      var networkBuffer, e := ProcessPacket(sslEngine.value, packet, NetworkBufferSize, "Error creating DTLS packet");
      sslEngine := Some(e);
      if networkBuffer.Err? {
        return Err(networkBuffer.error);
      }
      var buffer := networkBuffer.value;
      var info := DtlsPacketDebug.Debug(buffer);
      if info.Err? {
        return Err(info.error);
      }
      var bytes := buffer.GetBytes(buffer.limit - buffer.position);
      return Ok(bytes.value);
    }

    /**
     * `receive(packet)`: the first call creates a server engine and
     * handshakes; then the next datagram is received into the packet and
     * unwrapped. `ready` is the engine that unwraps the record (the existing
     * one, or the new one once its handshake has succeeded) and `queue` what
     * the network holds at that point.
     */
    method Receive(packet: DatagramPacket) returns (r: Result<(), Exception>, ghost ready: Option<Engine>, ghost queue: seq<Datagram>)
      requires packet.Valid()
      modifies this`sslEngine, this`engines, socket`inbox, socket`sent, packet, packet.data
      ensures old(sslEngine).Some? ==> ready == old(sslEngine) && queue == old(socket.inbox)
      ensures old(sslEngine).None? ==>
        (ready.None? ==> r.Err?) &&
        (ready.Some? ==>
           ready.value.current == FINISHED &&
           SameEngine(CreateEngine(sslContext, old(engines), None, false, maximumPacketSize), ready.value))
      ensures ready.Some? && Skip(socket.connected, queue) == [] ==> r == Err(Blocked)
      ensures ready.Some? && Skip(socket.connected, queue) != [] ==>
        (r == Err(IOFailure("DTLS error")) <==> Outcome(ready.value, packet.data.Length) != OK)
      ensures ready.Some? && Skip(socket.connected, queue) != [] && Outcome(ready.value, packet.data.Length) == OK ==>
        (r.Err? <==> packet.offset + |Produced(ready.value, packet.data.Length)| > packet.data.Length)
      ensures ready.Some? && r.Ok? ==>
        var plain := Produced(ready.value, packet.data.Length);
        packet.length == |plain| && packet.bufLength == |plain| && packet.data[..|plain|] == plain &&
        packet.address == Some(Skip(socket.connected, queue)[0].peer)
      ensures old(sslEngine).Some? ==> engines == old(engines) && sslEngine.Some? && SameEngine(old(sslEngine.value), sslEngine.value)
      ensures old(sslEngine).None? ==>
        engines == old(engines) + 1 && sslEngine.Some? && !sslEngine.value.clientMode &&
        sslEngine.value.peer == None && sslEngine.value.maximumPacketSize == maximumPacketSize
      ensures packet.data == old(packet.data) && packet.offset == old(packet.offset)
      ensures old(sslEngine).Some? ==> socket.sent == old(socket.sent)
      ensures old(sslEngine).Some? && Skip(socket.connected, old(socket.inbox)) == [] ==> r == Err(Blocked)
      ensures old(sslEngine).Some? && r.Ok? ==>
        var plain := Produced(old(sslEngine.value), old(packet.data.Length));
        packet.length == |plain| && packet.data[..|plain|] == plain &&
        packet.address == Some(Skip(socket.connected, old(socket.inbox))[0].peer)
    {
      ready, queue := None, socket.inbox;
      if sslEngine.None? {
        sslEngine := Some(CreateEngine(sslContext, engines, None, false, maximumPacketSize));
        engines := engines + 1;
        var hs := Handshake(packet);
        if hs.Err? {
          return hs, ready, queue;
        }
      }
      ready, queue := sslEngine, socket.inbox;
      var e;
      r, e := ReceiveRecord(sslEngine.value, socket, packet);
      sslEngine := Some(e);
    }

    /**
     * `handshake(engine, originalPacket)`: `beginHandshake`, two fresh
     * 1024-byte buffers and a 1024-byte packet addressed like the caller's
     * packet when that one has an address; then the loop, which ends only on
     * `FINISHED`.
     */
    method Handshake(original: DatagramPacket) returns (r: Result<(), Exception>)
      requires sslEngine.Some? && original.Valid()
      modifies this`sslEngine, socket`inbox, socket`sent
      ensures sslEngine.Some? && SameEngine(old(sslEngine.value), sslEngine.value)
      ensures r.Ok? ==> sslEngine.value.current == FINISHED
      ensures r.Err? ==> r.error.IllegalState? || r.error.IllegalArgument? || r.error == Blocked ||
                         r.error == BufferOverflow || r.error == BufferUnderflow
      ensures old(socket.sent) <= socket.sent
    {
      sslEngine := Some(BeginHandshake(sslEngine.value));
      var netData := new ByteBuffer.Allocate(HandshakePacketSize);
      var appData := new ByteBuffer.Allocate(HandshakePacketSize);
      var packet := HandshakePacket(original.address);
      var status := HandshakeStatusOf(sslEngine.value);
      while status != FINISHED
        invariant sslEngine.Some? && SameEngine(old(sslEngine.value), sslEngine.value)
        invariant netData.Valid() && netData.Appending() && appData.Valid() && appData.Appending()
        invariant Separate(netData, appData) && packet.Valid()
        invariant fresh(packet.data) && packet.data != netData.hb && packet.data != appData.hb
        invariant old(socket.sent) <= socket.sent
        invariant status == sslEngine.value.current || status == HandshakeStatusOf(sslEngine.value)
        decreases sslEngine.value.Pending(), Rank(status)
      {
        var next := HandshakeStep(status, netData, appData, packet);
        if next.Err? {
          return Err(next.error);
        }
        status := next.value;
      }
      return Ok(());
    }

    /** The handshake's packet: 1024 zero bytes, addressed like the caller's packet when that one has an address. */
    static method HandshakePacket(address: Option<Address>) returns (packet: DatagramPacket)
      ensures fresh(packet) && fresh(packet.data) && packet.Valid() && packet.address == address
      ensures packet.data.Length == HandshakePacketSize && packet.bufLength == HandshakePacketSize
    {
      var buffer := new byte[HandshakePacketSize](_ => 0);
      packet := new DatagramPacket(buffer, HandshakePacketSize, None);
      if address.Some? {
        packet.SetSocketAddress(address.value);
      }
    }

    /** One pass of the handshake's `switch`; `NOT_HANDSHAKING` falls to its `default`. */
    method HandshakeStep(status: HandshakeStatus, netData: ByteBuffer, appData: ByteBuffer, packet: DatagramPacket)
      returns (r: Result<HandshakeStatus, Exception>)
      requires status != FINISHED && sslEngine.Some?
      requires netData.Valid() && netData.Appending() && appData.Valid() && appData.Appending()
      requires Separate(netData, appData) && packet.Valid() && packet.data != netData.hb && packet.data != appData.hb
      modifies this`sslEngine, socket`inbox, socket`sent, packet, packet.data,
               netData`position, netData`limit, netData.hb, appData`position, appData.hb
      ensures sslEngine.Some? && SameEngine(old(sslEngine.value), sslEngine.value)
      ensures netData.Valid() && appData.Valid() && appData.Appending() && (r.Ok? ==> netData.Appending())
      ensures packet.Valid() && packet.data != netData.hb && packet.data != appData.hb
      ensures packet.data == old(packet.data) || fresh(packet.data)
      ensures old(socket.sent) <= socket.sent
      ensures status == NOT_HANDSHAKING ==> r == Err(IllegalState("Unexpected handshake state"))
      ensures r.Err? ==> r.error.IllegalState? || r.error.IllegalArgument? || r.error == Blocked ||
                         r.error == BufferOverflow || r.error == BufferUnderflow
      ensures r.Ok? ==> (r.value == sslEngine.value.current || r.value == HandshakeStatusOf(sslEngine.value))
      ensures r.Ok? ==> sslEngine.value.Pending() < old(sslEngine.value.Pending()) || Rank(r.value) < Rank(status)
    {
      match status {
        case NEED_UNWRAP =>
          r := ReceiveAndUnwrap(netData, appData, packet);
        case NEED_UNWRAP_AGAIN =>
          r := UnwrapNetData(netData, appData);
        case NEED_TASK =>
          var e := RunDelegatedTasks(sslEngine.value);
          sslEngine := Some(e);
          r := Ok(HandshakeStatusOf(e));
        case NEED_WRAP =>
          r := WrapAndSend(netData, appData, packet);
        case NOT_HANDSHAKING =>
          r := Err(IllegalState("Unexpected handshake state"));
      }
    }

    /**
     * The `NEED_UNWRAP` case: a datagram is received into the handshake
     * packet and appended to `netData` (`BufferOverflowException` when it
     * does not fit), the bytes after it are decoded as a record header, and
     * `netData` is unwrapped.
     */
    method ReceiveAndUnwrap(netData: ByteBuffer, appData: ByteBuffer, packet: DatagramPacket)
      returns (r: Result<HandshakeStatus, Exception>)
      requires sslEngine.Some?
      requires netData.Valid() && appData.Valid() && appData.Appending()
      requires Separate(netData, appData) && packet.Valid() && packet.data != netData.hb && packet.data != appData.hb
      modifies this`sslEngine, socket`inbox, packet`length, packet`address, packet.data,
               netData`position, netData`limit, netData.hb, appData`position, appData.hb
      ensures sslEngine.Some? && SameEngine(old(sslEngine.value), sslEngine.value)
      ensures netData.Valid() && appData.Valid() && appData.Appending() && packet.Valid()
      ensures r.Ok? ==> netData.Appending()
      ensures Skip(socket.connected, old(socket.inbox)) == [] ==> r == Err(Blocked)
      ensures r == Err(BufferOverflow) <==>
              Skip(socket.connected, old(socket.inbox)) != [] &&
              Min(|Skip(socket.connected, old(socket.inbox))[0].data|, packet.bufLength) > old(netData.Remaining())
      ensures r.Err? ==> r.error.IllegalState? || r.error == Blocked || r.error == BufferOverflow || r.error == BufferUnderflow
      ensures r.Ok? ==> sslEngine.value.Pending() < old(sslEngine.value.Pending()) && r.value == sslEngine.value.current
    {
      var got := socket.ReceivePacket(packet);
      if got.Err? {
        return Err(Blocked);
      }
      var put := netData.PutBytes(packet.data[packet.offset..packet.offset + packet.length]);
      if put.Err? {
        return Err(BufferOverflow);
      }
      var info := DtlsPacketDebug.Debug(netData);
      if info.Err? {
        return Err(info.error);
      }
      r := UnwrapNetData(netData, appData);
    }

    /**
     * The `NEED_UNWRAP_AGAIN` case and the end of `NEED_UNWRAP`: `flip`,
     * `unwrap` into `appData`, `compact`; a status other than `OK` throws.
     */
    method UnwrapNetData(netData: ByteBuffer, appData: ByteBuffer) returns (r: Result<HandshakeStatus, Exception>)
      requires sslEngine.Some?
      requires netData.Valid() && appData.Valid() && appData.Appending() && Separate(netData, appData)
      modifies this`sslEngine, netData`position, netData`limit, netData.hb, appData`position, appData.hb
      ensures sslEngine.Some? && SameEngine(old(sslEngine.value), sslEngine.value)
      ensures netData.Valid() && netData.Appending() && appData.Valid() && appData.Appending()
      ensures r.Err? <==> Outcome(old(sslEngine.value), old(appData.Remaining())) != OK
      ensures r.Err? ==> r == Err(IllegalState("Unwrap failed"))
      ensures r.Ok? ==> sslEngine.value.Pending() < old(sslEngine.value.Pending()) && r.value == sslEngine.value.current
      ensures appData.Written() == old(appData.Written()) + Produced(old(sslEngine.value), old(appData.Remaining()))
    {
      netData.Flip();
      var result, e := Exchange(sslEngine.value, netData, appData);
      sslEngine := Some(e);
      netData.Compact();
      if result.status != OK {
        return Err(IllegalState("Unwrap failed"));
      }
      return Ok(result.handshakeStatus);
    }

    /**
     * The `NEED_WRAP` case, with `netData` compacted after the send so that
     * the next `NEED_UNWRAP` finds room for the next datagram.
     */
    method WrapAndSend(netData: ByteBuffer, appData: ByteBuffer, packet: DatagramPacket)
      returns (r: Result<HandshakeStatus, Exception>)
      requires sslEngine.Some?
      requires netData.Valid() && netData.Appending() && appData.Valid() && appData.Appending()
      requires Separate(netData, appData) && packet.Valid()
      modifies this`sslEngine, socket`sent, packet, netData`position, netData`limit, netData.hb, appData`position
      ensures sslEngine.Some? && SameEngine(old(sslEngine.value), sslEngine.value)
      ensures netData.Valid() && appData.Valid() && appData.Appending() && (r.Ok? ==> netData.Appending())
      ensures packet.Valid() && (packet.data == old(packet.data) || fresh(packet.data))
      ensures r.Ok? ==> netData.position == 0
      ensures old(socket.sent) <= socket.sent
      ensures r.Err? ==> r.error.IllegalState? || r.error.IllegalArgument? || r.error == BufferUnderflow
      ensures r.Ok? ==> sslEngine.value.Pending() < old(sslEngine.value.Pending()) && r.value == sslEngine.value.current
      ensures r.Ok? ==>
        var out := old(netData.Written()) + Produced(old(sslEngine.value), old(netData.Remaining()));
        DtlsPacketDebug.DecodeRecord(out).Ok? && packet.bufLength == |out| && |socket.sent| == |old(socket.sent)| + 1 &&
        socket.sent[..|old(socket.sent)|] == old(socket.sent) && socket.sent[|old(socket.sent)|].data == out
    {
      r := WrapAndSendAsWritten(netData, appData, packet);
      if r.Ok? {
        netData.Compact();
      }
    }

    /**
     * The `NEED_WRAP` case as the source has it: wrap `appData` into
     * `netData` (a status other than `OK` throws), `flip`, decode the record
     * header, and when bytes remain read them all into a new array that
     * becomes the handshake packet's data and is sent. Nothing compacts
     * `netData` afterwards, so it is left with no room at all.
     */
    method WrapAndSendAsWritten(netData: ByteBuffer, appData: ByteBuffer, packet: DatagramPacket)
      returns (r: Result<HandshakeStatus, Exception>)
      requires sslEngine.Some?
      requires netData.Valid() && netData.Appending() && appData.Valid() && appData.Appending()
      requires Separate(netData, appData) && packet.Valid()
      modifies this`sslEngine, socket`sent, packet, netData`position, netData`limit, netData.hb, appData`position
      ensures sslEngine.Some? && SameEngine(old(sslEngine.value), sslEngine.value)
      ensures netData.Valid() && appData.Valid() && appData.Appending()
      ensures packet.Valid() && (packet.data == old(packet.data) || fresh(packet.data))
      ensures r.Ok? ==> netData.Remaining() == 0
      ensures old(socket.sent) <= socket.sent
      ensures r.Err? ==> r.error.IllegalState? || r.error.IllegalArgument? || r.error == BufferUnderflow
      ensures r.Ok? ==> sslEngine.value.Pending() < old(sslEngine.value.Pending()) && r.value == sslEngine.value.current
      ensures r.Ok? ==>
        var out := old(netData.Written()) + Produced(old(sslEngine.value), old(netData.Remaining()));
        DtlsPacketDebug.DecodeRecord(out).Ok? && packet.bufLength == |out| && |socket.sent| == |old(socket.sent)| + 1 &&
        socket.sent[..|old(socket.sent)|] == old(socket.sent) && socket.sent[|old(socket.sent)|].data == out &&
        netData.Written() == out
    {
      r := WrapNetData(netData, appData);
      if r.Err? {
        return r;
      }
      var sent := SendNetData(netData, packet);
      if sent.Err? {
        return Err(sent.error);
      }
    }

    /**
     * A `NEED_WRAP` step as the source has it, then a `NEED_UNWRAP` step:
     * the wrap leaves `netData` read to its limit and uncompacted, so the
     * `put` of whatever non-empty datagram arrives next overflows.
     */
    method WrapThenUnwrapAsWritten(netData: ByteBuffer, appData: ByteBuffer, packet: DatagramPacket)
      returns (wrapped: Result<HandshakeStatus, Exception>, unwrapped: Result<HandshakeStatus, Exception>)
      requires sslEngine.Some?
      requires netData.Valid() && netData.Appending() && appData.Valid() && appData.Appending()
      requires Separate(netData, appData) && packet.Valid() && packet.data != netData.hb && packet.data != appData.hb
      modifies this`sslEngine, socket`inbox, socket`sent, packet, packet.data,
               netData`position, netData`limit, netData.hb, appData`position, appData.hb
      ensures wrapped.Ok? && Skip(socket.connected, old(socket.inbox)) != [] &&
              Skip(socket.connected, old(socket.inbox))[0].data != [] ==>
              unwrapped == Err(BufferOverflow)
    {
      wrapped := WrapAndSendAsWritten(netData, appData, packet);
      if wrapped.Err? {
        return wrapped, wrapped;
      }
      unwrapped := ReceiveAndUnwrap(netData, appData, packet);
    }

    /**
     * The same two steps with `netData` compacted after the send: the next
     * datagram always fits, whatever its size, because a receive is cut to
     * the length of the record just sent.
     */
    method WrapThenUnwrap(netData: ByteBuffer, appData: ByteBuffer, packet: DatagramPacket)
      returns (wrapped: Result<HandshakeStatus, Exception>, unwrapped: Result<HandshakeStatus, Exception>)
      requires sslEngine.Some?
      requires netData.Valid() && netData.Appending() && appData.Valid() && appData.Appending()
      requires Separate(netData, appData) && packet.Valid() && packet.data != netData.hb && packet.data != appData.hb
      modifies this`sslEngine, socket`inbox, socket`sent, packet, packet.data,
               netData`position, netData`limit, netData.hb, appData`position, appData.hb
      ensures wrapped.Ok? ==> unwrapped != Err(BufferOverflow)
    {
      wrapped := WrapAndSend(netData, appData, packet);
      if wrapped.Err? {
        return wrapped, wrapped;
      }
      unwrapped := ReceiveAndUnwrap(netData, appData, packet);
    }

    /**
     * The first half of the `NEED_WRAP` case: `wrap` from `appData` into
     * `netData` (a status other than `OK` throws), `flip`, and decode the
     * record header.
     */
    method WrapNetData(netData: ByteBuffer, appData: ByteBuffer) returns (r: Result<HandshakeStatus, Exception>)
      requires sslEngine.Some?
      requires netData.Valid() && netData.Appending() && appData.Valid() && appData.Appending() && Separate(netData, appData)
      modifies this`sslEngine, netData`position, netData`limit, netData.hb, appData`position
      ensures sslEngine.Some? && SameEngine(old(sslEngine.value), sslEngine.value)
      ensures netData.Valid() && appData.Valid() && appData.Appending()
      ensures Outcome(old(sslEngine.value), old(netData.Remaining())) != OK ==> r == Err(IllegalState("Wrap failed"))
      ensures Outcome(old(sslEngine.value), old(netData.Remaining())) == OK ==>
        var out := old(netData.Written()) + Produced(old(sslEngine.value), old(netData.Remaining()));
        (r.Ok? <==> DtlsPacketDebug.DecodeRecord(out).Ok?)
      ensures r.Err? ==> r.error.IllegalState? || r.error == BufferUnderflow
      ensures r.Ok? ==> sslEngine.value.Pending() < old(sslEngine.value.Pending()) && r.value == sslEngine.value.current
      ensures r.Ok? ==>
        var out := old(netData.Written()) + Produced(old(sslEngine.value), old(netData.Remaining()));
        netData.position == 0 && netData.Readable() == out && DtlsPacketDebug.DecodeRecord(out).Ok?
    {
      var result, e := Exchange(sslEngine.value, appData, netData);
      sslEngine := Some(e);
      if result.status != OK {
        return Err(IllegalState("Wrap failed"));
      }
      netData.Flip();
      var info := DtlsPacketDebug.Debug(netData);
      if info.Err? {
        return Err(info.error);
      }
      return Ok(result.handshakeStatus);
    }

    /**
     * The second half of the `NEED_WRAP` case: when `netData` has bytes
     * left, all of them are read into a new array that becomes the handshake
     * packet's data, and the packet is sent.
     */
    method SendNetData(netData: ByteBuffer, packet: DatagramPacket) returns (r: Result<(), Exception>)
      requires netData.Valid() && packet.Valid()
      modifies socket`sent, packet, netData`position
      ensures netData.Valid() && netData.position == netData.limit && netData.limit == old(netData.limit)
      ensures packet.Valid() && (packet.data == old(packet.data) || fresh(packet.data))
      ensures old(netData.Readable()) == [] ==> r.Ok? && socket.sent == old(socket.sent)
      ensures old(netData.Readable()) != [] ==> packet.bufLength == |old(netData.Readable())|
      ensures r.Err? ==> r.error.IllegalArgument? && socket.sent == old(socket.sent)
      ensures r.Ok? && old(netData.Readable()) != [] ==>
        |socket.sent| == |old(socket.sent)| + 1 && socket.sent[..|old(socket.sent)|] == old(socket.sent) &&
        socket.sent[|old(socket.sent)|].data == old(netData.Readable())
    {
      if !netData.HasRemaining() {
        return Ok(());
      }
      var bytes := netData.GetBytes(netData.limit - netData.position);
      var buffer := ArrayOf(bytes.value);
      packet.SetData(buffer);
      assert packet.Payload() == buffer[..];
      r := socket.SendPacket(packet);
    }
  }
}
