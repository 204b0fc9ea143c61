/**
 * `DTLSDatagramSocket`, the earlier of the two `DatagramSocket` wrappers.
 * It keeps one engine and replaces it whenever the role or the peer changes:
 * `send` wants a client engine for the packet's host and port, `receive`
 * wants a server engine. Each replacement handshakes again over 1024-byte
 * buffers with a packet addressed to localhost:54321. The handshake loop
 * ends only on `FINISHED` and never looks at the status of a wrap or an
 * unwrap, only at the handshake status it reports.
 */
module DtlsLegacySocket {
  import opened Common
  import opened ByteBuffers
  import opened SslEngines
  import opened Datagrams
  import JavaStrings
  import DtlsSocket

  /** `UdpServer.PACKET_SIZE`. */
  const PacketSize: nat := 1024
  /** Where every handshake datagram goes. */
  const HandshakePeer: Address := Address("localhost", 54321)
  /** The network buffer of a handshake `wrap`. */
  const WrapBufferSize: nat := 32768
  /** The network buffer `send` allocates for one record. */
  const NetworkBufferSize: nat := 16384

  /**
   * `new DTLSDatagramSocket(sslContext, port)`: `IllegalArgumentException`
   * unless the context's protocol is "DTLS" in any case.
   */
  method Open(sslContext: Context, inbox: seq<Datagram>) returns (r: Result<DTLSDatagramSocket, Exception>)
    ensures r.Err? <==> !JavaStrings.EqualsIgnoreCase("DTLS", sslContext.protocol)
    ensures r.Err? ==> r.error == IllegalArgument("SSLContext not for DTLS")
    ensures r.Ok? ==>
      fresh(r.value) && fresh(r.value.socket) && r.value.sslContext == sslContext &&
      r.value.sslEngine == None && r.value.engines == 0 &&
      r.value.socket.connected == None && r.value.socket.inbox == inbox && r.value.socket.sent == []
  {
    if !JavaStrings.EqualsIgnoreCase("DTLS", sslContext.protocol) {
      return Err(IllegalArgument("SSLContext not for DTLS"));
    }
    var socket := new DTLSDatagramSocket(sslContext, inbox);
    return Ok(socket);
  }

  /** Whether `send` to `to` replaces the engine: none yet, a server engine, or another peer. */
  predicate SendReplaces(engine: Option<Engine>, to: Address)
  {
    engine.None? || !engine.value.clientMode || engine.value.peer != Some(to)
  }

  /** Whether `receive` replaces the engine: none yet, or a client engine. */
  predicate ReceiveReplaces(engine: Option<Engine>)
  {
    engine.None? || engine.value.clientMode
  }

  /**
   * After a successful `send` the engine is a client engine for the
   * packet's peer, so a second `send` to the same peer keeps it; after a
   * `receive` it is a server engine, so the next `send` replaces it and the
   * next `receive` keeps it.
   */
  lemma RolesAlternate(e: Engine, to: Address)
    ensures e.clientMode && e.peer == Some(to) ==> !SendReplaces(Some(e), to) && ReceiveReplaces(Some(e))
    ensures !e.clientMode ==> SendReplaces(Some(e), to) && !ReceiveReplaces(Some(e))
  {
  }

  /** The addresses the datagrams in `inbox` come from. */
  ghost function Senders(inbox: seq<Datagram>): set<Address>
  {
    set d | d in inbox :: d.peer
  }

  /** A receive takes a datagram from the inbox and leaves part of it. */
  lemma ReceivedFromInbox(connected: Option<Address>, inbox: seq<Datagram>)
    requires Skip(connected, inbox) != []
    ensures Skip(connected, inbox)[0].peer in Senders(inbox)
    ensures Senders(Skip(connected, inbox)[1..]) <= Senders(inbox)
  {
    SkipDropsOnlyRejected(connected, inbox);
    var r := Skip(connected, inbox);
    assert r[0] == inbox[|inbox| - |r|];
    forall a | a in Senders(r[1..]) ensures a in Senders(inbox) {
      var d :| d in r[1..] && d.peer == a;
      var k :| 0 <= k < |r[1..]| && r[1..][k] == d;
      assert d == inbox[|inbox| - |r| + 1 + k];
    }
  }

  class DTLSDatagramSocket {
    const socket: Transport
    const sslContext: Context
    var sslEngine: Option<Engine>
    /** How many engines this socket has asked its context for. */
    var engines: nat

    /** The state once the protocol check has passed. */
    constructor (sslContext: Context, inbox: seq<Datagram>)
      ensures fresh(socket) && this.sslContext == sslContext
      ensures sslEngine == None && engines == 0
      ensures socket.connected == None && socket.inbox == inbox && socket.sent == []
    {
      socket := new Transport(inbox);
      this.sslContext := sslContext;
      sslEngine, engines := None, 0;
    }

    /**
     * `send(packet)`: a packet without an address fails on its host name;
     * when `SendReplaces` holds, a new client engine for the packet's host
     * and port, with the packet's array length as maximum packet size,
     * handshakes; then the engine must be `NOT_HANDSHAKING`, and the
     * packet's bytes are wrapped and sent to its address as one datagram.
     * `ready` is the engine the status check reads: the kept one, or the
     * replacement once its handshake has succeeded.
     */
    method Send(packet: DatagramPacket) returns (r: Result<(), Exception>, ghost ready: Option<Engine>)
      requires packet.Valid()
      modifies this`sslEngine, this`engines, socket`inbox, socket`sent
      ensures packet.address.None? ==>
        r == Err(NullPointer) && ready.None? &&
        sslEngine == old(sslEngine) && engines == old(engines) && socket.sent == old(socket.sent)
      ensures packet.address.Some? && !SendReplaces(old(sslEngine), packet.address.value) ==> ready == old(sslEngine)
      ensures packet.address.Some? && SendReplaces(old(sslEngine), packet.address.value) ==>
        (ready.None? ==> r.Err?) &&
        (ready.Some? ==>
           ready.value.current == FINISHED &&
           SameEngine(CreateEngine(sslContext, old(engines), packet.address, true, packet.data.Length), ready.value))
      ensures ready.Some? && HandshakeStatusOf(ready.value) != NOT_HANDSHAKING ==>
        r == Err(IllegalState("DTLS handshake failed"))
      ensures ready.Some? && HandshakeStatusOf(ready.value) == NOT_HANDSHAKING ==>
        (r == Err(IOFailure("Error creating DTLS packet")) <==> Outcome(ready.value, NetworkBufferSize) != OK)
      ensures ready.Some? && HandshakeStatusOf(ready.value) == NOT_HANDSHAKING ==>
        (r.Ok? <==> Outcome(ready.value, NetworkBufferSize) == OK &&
                    (socket.connected.None? || socket.connected == packet.address))
      ensures ready.Some? && r.Ok? ==>
        |socket.sent| > 0 &&
        socket.sent[|socket.sent| - 1] == Datagram(packet.address.value, Produced(ready.value, NetworkBufferSize))
      ensures packet.address.Some? && SendReplaces(old(sslEngine), packet.address.value) ==>
        engines == old(engines) + 1 && sslEngine.Some? &&
        SameEngine(CreateEngine(sslContext, old(engines), packet.address, true, packet.data.Length), sslEngine.value)
      ensures packet.address.Some? && !SendReplaces(old(sslEngine), packet.address.value) ==>
        engines == old(engines) && sslEngine.Some? && SameEngine(old(sslEngine.value), sslEngine.value)
      ensures packet.address.Some? && !SendReplaces(old(sslEngine), packet.address.value) ==>
        (HandshakeStatusOf(old(sslEngine.value)) != NOT_HANDSHAKING ==> r == Err(IllegalState("DTLS handshake failed"))) &&
        (r.Ok? ==> socket.sent == old(socket.sent) +
                     [Datagram(packet.address.value, Produced(old(sslEngine.value), NetworkBufferSize))])
      ensures r.Ok? ==>
        packet.address.Some? && |socket.sent| > |old(socket.sent)| && socket.sent[|socket.sent| - 1].peer == packet.address.value
    {
      ready := None;
      if packet.address.None? {
        return Err(NullPointer), ready;
      }
      var to := packet.address.value;
      if SendReplaces(sslEngine, to) {
        sslEngine := Some(CreateEngine(sslContext, engines, Some(to), true, packet.data.Length));
        engines := engines + 1;
        var hs := Handshake();
        if hs.Err? {
          return hs, ready;
        }
      }
      ready := sslEngine;
      if HandshakeStatusOf(sslEngine.value) != NOT_HANDSHAKING {
        return Err(IllegalState("DTLS handshake failed")), ready;
      }
      r := SendRecord(packet);
    }

    /**
     * The data-sending part of `send`: the packet's bytes wrapped into a
     * 16384-byte buffer (a status other than `OK` is an `IOException`), read
     * into a new array and sent to the packet's address.
     */
    method SendRecord(packet: DatagramPacket) returns (r: Result<(), Exception>)
      requires sslEngine.Some? && packet.Valid() && packet.address.Some?
      modifies this`sslEngine, socket`sent
      ensures sslEngine.Some? && SameEngine(old(sslEngine.value), sslEngine.value)
      ensures r.Err? ==> socket.sent == old(socket.sent) && (r.error.IOFailure? || r.error.IllegalArgument?)
      ensures r == Err(IOFailure("Error creating DTLS packet")) <==> Outcome(old(sslEngine.value), NetworkBufferSize) != OK
      ensures r.Ok? <==>
        Outcome(old(sslEngine.value), NetworkBufferSize) == OK && (socket.connected.None? || socket.connected == packet.address)
      ensures r.Ok? ==>
        socket.sent == old(socket.sent) + [Datagram(packet.address.value, Produced(old(sslEngine.value), NetworkBufferSize))]
    {
      var networkBuffer, e := DtlsSocket.ProcessPacket(sslEngine.value, packet, NetworkBufferSize, "Error creating DTLS packet");
      sslEngine := Some(e);
      if networkBuffer.Err? {
        return Err(networkBuffer.error);
      }
      var record := networkBuffer.value;
      var bytes := record.GetBytes(record.limit - record.position);
      assert bytes.value == Produced(old(sslEngine.value), NetworkBufferSize);
      var buffer := ArrayOf(bytes.value);
      var datagram := new DatagramPacket(buffer, buffer.Length, packet.address);
      assert datagram.Payload() == buffer[..];
      r := socket.SendPacket(datagram);
    }

    /**
     * `receive(packet)`: when `ReceiveReplaces` holds, a new server engine
     * with the packet's array length as maximum packet size handshakes; then
     * the next datagram is received into the packet and unwrapped. Unlike
     * `send`, nothing checks that the engine is `NOT_HANDSHAKING`. `ready`
     * is the engine that unwraps the record (the kept one, or the
     * replacement once its handshake has succeeded) and `queue` what the
     * network holds at that point.
     */
    method Receive(packet: DatagramPacket) returns (r: Result<(), Exception>, ghost ready: Option<Engine>, ghost queue: seq<Datagram>)
      requires packet.Valid()
      modifies this`sslEngine, this`engines, socket`inbox, socket`sent, packet, packet.data
      ensures !ReceiveReplaces(old(sslEngine)) ==> ready == old(sslEngine) && queue == old(socket.inbox)
      ensures ReceiveReplaces(old(sslEngine)) ==>
        (ready.None? ==> r.Err?) &&
        (ready.Some? ==>
           ready.value.current == FINISHED &&
           SameEngine(CreateEngine(sslContext, old(engines), None, false, old(packet.data.Length)), ready.value))
      ensures ready.Some? && Skip(socket.connected, queue) == [] ==> r == Err(Blocked)
      ensures ready.Some? && Skip(socket.connected, queue) != [] ==>
        (r == Err(IOFailure("DTLS error")) <==> Outcome(ready.value, packet.data.Length) != OK)
      ensures ready.Some? && Skip(socket.connected, queue) != [] && Outcome(ready.value, packet.data.Length) == OK ==>
        (r.Err? <==> packet.offset + |Produced(ready.value, packet.data.Length)| > packet.data.Length)
      ensures ready.Some? && r.Ok? ==>
        var plain := Produced(ready.value, packet.data.Length);
        packet.length == |plain| && packet.bufLength == |plain| && packet.data[..|plain|] == plain &&
        packet.address == Some(Skip(socket.connected, queue)[0].peer)
      ensures ReceiveReplaces(old(sslEngine)) ==>
        engines == old(engines) + 1 && sslEngine.Some? &&
        SameEngine(CreateEngine(sslContext, old(engines), None, false, old(packet.data.Length)), sslEngine.value)
      ensures !ReceiveReplaces(old(sslEngine)) ==>
        engines == old(engines) && sslEngine.Some? && SameEngine(old(sslEngine.value), sslEngine.value)
      ensures packet.data == old(packet.data) && packet.offset == old(packet.offset)
      ensures !ReceiveReplaces(old(sslEngine)) ==> socket.sent == old(socket.sent)
      ensures !ReceiveReplaces(old(sslEngine)) && Skip(socket.connected, old(socket.inbox)) == [] ==> r == Err(Blocked)
      ensures !ReceiveReplaces(old(sslEngine)) && r.Ok? ==>
        var plain := Produced(old(sslEngine.value), old(packet.data.Length));
        packet.length == |plain| && packet.data[..|plain|] == plain &&
        packet.address == Some(Skip(socket.connected, old(socket.inbox))[0].peer)
    {
      ready, queue := None, socket.inbox;
      if ReceiveReplaces(sslEngine) {
        sslEngine := Some(CreateEngine(sslContext, engines, None, false, packet.data.Length));
        engines := engines + 1;
        var hs := Handshake();
        if hs.Err? {
          return hs, ready, queue;
        }
      }
      ready, queue := sslEngine, socket.inbox;
      var e;
      r, e := DtlsSocket.ReceiveRecord(sslEngine.value, socket, packet);
      sslEngine := Some(e);
    }

    /**
     * `handshake(engine)`: `beginHandshake`, a 1024-byte packet addressed to
     * localhost:54321, and the loop, which ends only on `FINISHED`. A receive
     * readdresses the packet to the datagram's sender, so every datagram the
     * handshake sends goes to localhost:54321 or to a peer it heard from.
     */
    method Handshake() returns (r: Result<(), Exception>)
      requires sslEngine.Some?
      modifies this`sslEngine, socket`inbox, socket`sent
      ensures sslEngine.Some? && SameEngine(old(sslEngine.value), sslEngine.value)
      ensures r.Ok? ==> sslEngine.value.current == FINISHED
      ensures r.Err? ==> r.error == IllegalState("Unexpected handshake state") || r.error.IllegalArgument? || r.error == Blocked
      ensures old(socket.sent) <= socket.sent
      ensures forall i :: |old(socket.sent)| <= i < |socket.sent| ==>
        socket.sent[i].peer == HandshakePeer || socket.sent[i].peer in Senders(old(socket.inbox))
    {
      sslEngine := Some(BeginHandshake(sslEngine.value));
      var buffer := new byte[PacketSize](_ => 0);
      var packet := new DatagramPacket(buffer, PacketSize, None);
      packet.SetSocketAddress(HandshakePeer);
      var status := HandshakeStatusOf(sslEngine.value);
      while status != FINISHED
        invariant sslEngine.Some? && SameEngine(old(sslEngine.value), sslEngine.value)
        invariant fresh(packet) && packet.Valid() && packet.address.Some?
        invariant packet.address.value == HandshakePeer || packet.address.value in Senders(old(socket.inbox))
        invariant Senders(socket.inbox) <= Senders(old(socket.inbox))
        invariant old(socket.sent) <= socket.sent
        invariant forall i :: |old(socket.sent)| <= i < |socket.sent| ==>
          socket.sent[i].peer == HandshakePeer || socket.sent[i].peer in Senders(old(socket.inbox))
        invariant status == sslEngine.value.current || status == HandshakeStatusOf(sslEngine.value)
        decreases sslEngine.value.Pending(), Rank(status)
      {
        var next := HandshakeStep(status, packet);
        if next.Err? {
          return Err(next.error);
        }
        status := next.value;
      }
      return Ok(());
    }

    /**
     * One pass of the handshake's `switch`; `NOT_HANDSHAKING` falls to its
     * `default`. Only a receive with nothing to receive and a send the
     * socket refuses fail: the status of a wrap or an unwrap is ignored.
     */
    method HandshakeStep(status: HandshakeStatus, packet: DatagramPacket) returns (r: Result<HandshakeStatus, Exception>)
      requires status != FINISHED && sslEngine.Some? && packet.Valid() && packet.address.Some?
      modifies this`sslEngine, socket`inbox, socket`sent, packet
      ensures sslEngine.Some? && SameEngine(old(sslEngine.value), sslEngine.value)
      ensures packet.Valid() && packet.address.Some?
      ensures packet.address == old(packet.address) || packet.address.value in Senders(old(socket.inbox))
      ensures r.Ok? ==> Senders(socket.inbox) <= Senders(old(socket.inbox))
      ensures old(socket.sent) <= socket.sent
      ensures forall i :: |old(socket.sent)| <= i < |socket.sent| ==> socket.sent[i].peer == old(packet.address).value
      ensures status == NOT_HANDSHAKING <==> r == Err(IllegalState("Unexpected handshake state"))
      ensures status == NEED_UNWRAP_AGAIN || status == NEED_TASK ==> r.Ok?
      ensures status == NEED_UNWRAP ==> (r.Ok? <==> Skip(socket.connected, old(socket.inbox)) != [])
      ensures r.Err? ==> r.error == IllegalState("Unexpected handshake state") || r.error.IllegalArgument? || r.error == Blocked
      ensures r.Ok? ==> (r.value == sslEngine.value.current || r.value == HandshakeStatusOf(sslEngine.value))
      ensures r.Ok? ==> sslEngine.value.Pending() < old(sslEngine.value.Pending()) || Rank(r.value) < Rank(status)
    {
      match status {
        case NEED_UNWRAP =>
          r := ReceiveAndUnwrap(packet);
        case NEED_UNWRAP_AGAIN =>
          var next := UnwrapAgain();
          r := Ok(next);
        case NEED_TASK =>
          var e := RunDelegatedTasks(sslEngine.value);
          sslEngine := Some(e);
          r := Ok(HandshakeStatusOf(e));
        case NEED_WRAP =>
          r := WrapAndSend(packet);
        case NOT_HANDSHAKING =>
          r := Err(IllegalState("Unexpected handshake state"));
      }
    }

    /**
     * The `NEED_UNWRAP` case: a fresh 1024-byte array becomes the packet's
     * data, a datagram is received into it (which also gives the packet the
     * sender's address) and its bytes are unwrapped.
     */
    method ReceiveAndUnwrap(packet: DatagramPacket) returns (r: Result<HandshakeStatus, Exception>)
      requires sslEngine.Some? && packet.Valid()
      modifies this`sslEngine, socket`inbox, packet
      ensures sslEngine.Some? && SameEngine(old(sslEngine.value), sslEngine.value)
      ensures packet.Valid() && fresh(packet.data)
      ensures Skip(socket.connected, old(socket.inbox)) == [] <==> r == Err(Blocked)
      ensures r.Err? ==> r == Err(Blocked) && packet.address == old(packet.address)
      ensures r.Ok? ==>
        var d := Skip(socket.connected, old(socket.inbox))[0];
        packet.address == Some(d.peer) && d.peer in Senders(old(socket.inbox)) &&
        Senders(socket.inbox) <= Senders(old(socket.inbox)) &&
        packet.Payload() == d.data[..Min(|d.data|, PacketSize)] &&
        r.value == sslEngine.value.current &&
        (sslEngine.value.Pending() < old(sslEngine.value.Pending()) || r.value == NOT_HANDSHAKING)
    {
      var buffer := new byte[PacketSize](_ => 0);
      packet.SetData(buffer);
      var got := socket.ReceivePacket(packet);
      if got.Err? {
        return Err(Blocked);
      }
      ReceivedFromInbox(socket.connected, old(socket.inbox));
      var networkData := new ByteBuffer.Wrap(packet.data, 0, packet.length);
      var next := Unwrap(networkData);
      r := Ok(next);
    }

    /** The `NEED_UNWRAP_AGAIN` case: `unwrap` from an empty network buffer. */
    method UnwrapAgain() returns (next: HandshakeStatus)
      requires sslEngine.Some?
      modifies this`sslEngine
      ensures sslEngine.Some? && SameEngine(old(sslEngine.value), sslEngine.value)
      ensures next == sslEngine.value.current
      ensures sslEngine.value.Pending() < old(sslEngine.value.Pending()) || next == NOT_HANDSHAKING
    {
      var networkData := new ByteBuffer.Allocate(0);
      next := Unwrap(networkData);
    }

    /**
     * `unwrap` from `networkData` into a fresh 1024-byte buffer, whose
     * contents are dropped; whatever the result's status, the handshake
     * status it reports is the next one.
     */
    method Unwrap(networkData: ByteBuffer) returns (next: HandshakeStatus)
      requires sslEngine.Some? && networkData.Valid()
      modifies this`sslEngine, networkData`position
      ensures sslEngine.Some? && SameEngine(old(sslEngine.value), sslEngine.value)
      ensures next == sslEngine.value.current
      ensures sslEngine.value.Pending() < old(sslEngine.value.Pending()) || next == NOT_HANDSHAKING
      ensures old(sslEngine.value.script) != [] && old(sslEngine.value.script[0].Answer?) ==>
        next == old(sslEngine.value.script[0].handshakeStatus)
    {
      var applicationData := new ByteBuffer.Allocate(PacketSize);
      var result, e := Exchange(sslEngine.value, networkData, applicationData);
      sslEngine := Some(e);
      next := result.handshakeStatus;
    }

    /**
     * The `NEED_WRAP` case: `wrap` from an empty buffer into a fresh
     * 32768-byte one, whatever the result's status; when the record is not
     * empty it becomes the packet's data and is sent to the packet's address.
     */
    method WrapAndSend(packet: DatagramPacket) returns (r: Result<HandshakeStatus, Exception>)
      requires sslEngine.Some? && packet.Valid() && packet.address.Some?
      modifies this`sslEngine, socket`sent, packet
      ensures sslEngine.Some? && SameEngine(old(sslEngine.value), sslEngine.value)
      ensures packet.Valid() && packet.address == old(packet.address)
      ensures var out := Produced(old(sslEngine.value), WrapBufferSize);
        (out == [] ==> r.Ok? && socket.sent == old(socket.sent)) &&
        (out != [] && r.Ok? ==> socket.sent == old(socket.sent) + [Datagram(packet.address.value, out)]) &&
        (r.Err? ==> r.error.IllegalArgument? && socket.sent == old(socket.sent) &&
                    socket.connected.Some? && socket.connected != packet.address)
      ensures r.Ok? ==>
        r.value == sslEngine.value.current &&
        (sslEngine.value.Pending() < old(sslEngine.value.Pending()) || r.value == NOT_HANDSHAKING)
    {
      var next, networkData := Wrap();
      if networkData.HasRemaining() {
        var sent := SendHandshakePacket(networkData, packet);
        if sent.Err? {
          return Err(sent.error);
        }
      }
      return Ok(next);
    }

    /**
     * `wrap` from an empty buffer into a fresh 32768-byte one, flipped for
     * reading; the status of the result is not looked at.
     */
    method Wrap() returns (next: HandshakeStatus, networkData: ByteBuffer)
      requires sslEngine.Some?
      modifies this`sslEngine
      ensures sslEngine.Some? && SameEngine(old(sslEngine.value), sslEngine.value)
      ensures fresh(networkData) && fresh(networkData.hb) && networkData.Valid()
      ensures networkData.Readable() == Produced(old(sslEngine.value), WrapBufferSize)
      ensures next == sslEngine.value.current
      ensures sslEngine.value.Pending() < old(sslEngine.value.Pending()) || next == NOT_HANDSHAKING
    {
      var applicationData := new ByteBuffer.Allocate(0);
      networkData := new ByteBuffer.Allocate(WrapBufferSize);
      var result, e := Exchange(sslEngine.value, applicationData, networkData);
      sslEngine := Some(e);
      networkData.Flip();
      next := result.handshakeStatus;
    }

    /** The readable bytes of `networkData` read into a new array that becomes the packet's data, then sent. */
    method SendHandshakePacket(networkData: ByteBuffer, packet: DatagramPacket) returns (r: Result<(), Exception>)
      requires networkData.Valid() && packet.Valid() && packet.address.Some?
      modifies networkData`position, socket`sent, packet
      ensures packet.Valid() && packet.address == old(packet.address)
      ensures r.Ok? ==> socket.sent == old(socket.sent) + [Datagram(packet.address.value, old(networkData.Readable()))]
      ensures r.Err? ==>
        r.error.IllegalArgument? && socket.sent == old(socket.sent) &&
        socket.connected.Some? && socket.connected != packet.address
    {
      var bytes := networkData.GetBytes(networkData.limit - networkData.position);
      assert bytes.value == old(networkData.Readable());
      var buffer := ArrayOf(bytes.value);
      packet.SetData(buffer);
      assert packet.Payload() == buffer[..];
      r := socket.SendPacket(packet);
    }
  }
}
