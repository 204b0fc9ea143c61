/**
 * `DtlsDatagramChannel`: DTLS over a `DatagramChannel` with three long-lived
 * buffers. An engine is created lazily, in client mode by the first `send`
 * and in server mode by the first `receive`, and the handshake loop stops on
 * `FINISHED` or `NOT_HANDSHAKING`. A `CLOSED` unwrap on receive drops the
 * engine and the connection so that the next datagram starts a new handshake.
 */
module DtlsChannel {
  import opened Common
  import opened ByteBuffers
  import opened SslEngines
  import opened Datagrams

  /** `new DtlsDatagramChannel`'s receive buffer capacity. */
  const ReceiveBufferSize: nat := 2048

  /**
   * `ensureCapacity`: the same buffer when `requiredSize` bytes remain,
   * otherwise a new buffer of capacity `position + requiredSize` holding the
   * same written bytes, so that exactly `requiredSize` bytes remain.
   */
  method EnsureCapacity(buffer: ByteBuffer, requiredSize: nat) returns (b: ByteBuffer)
    requires buffer.Valid() && buffer.Appending()
    modifies buffer`position, buffer`limit
    ensures b.Valid() && b.Appending()
    ensures b.Written() == old(buffer.Written())
    ensures b.Remaining() >= requiredSize
    ensures old(buffer.Remaining()) >= requiredSize ==> b == buffer && unchanged(buffer)
    ensures old(buffer.Remaining()) < requiredSize ==>
      fresh(b) && fresh(b.hb) && b.Capacity() == old(buffer.position) + requiredSize && b.Remaining() == requiredSize
  {
    var remaining := buffer.limit - buffer.position;
    if remaining < requiredSize {
      var newBuffer := new ByteBuffer.Allocate(buffer.position + requiredSize);
      buffer.Flip();
      var put := newBuffer.PutBuffer(buffer);
      assert put.Ok?;
      assert newBuffer.hb[..newBuffer.position] == old(buffer.Written());
      return newBuffer;
    }
    return buffer;
  }

  /**
   * What the data-sending part of `send` finds: the engine, the room left in
   * the application buffer, and the bytes and the room of the send buffer.
   */
  datatype SendContext = SendContext(engine: Engine, appRoom: nat, queued: seq<byte>, room: nat)

  /**
   * The data-sending part of `send` in context `c`: `IllegalStateException`
   * unless the engine is `NOT_HANDSHAKING`, `BufferOverflowException` when
   * the data does not fit the application buffer, `IllegalStateException`
   * when the wrap is not `OK`, and otherwise the datagram written.
   */
  function SendOutcome(c: SendContext, data: seq<byte>): (r: Result<seq<byte>, Exception>)
    ensures r.Ok? <==> HandshakeStatusOf(c.engine) == NOT_HANDSHAKING && |data| <= c.appRoom && Outcome(c.engine, c.room) == OK
    ensures r.Ok? ==> |c.queued| <= |r.value| <= |c.queued| + c.room && r.value[..|c.queued|] == c.queued
  {
    if HandshakeStatusOf(c.engine) != NOT_HANDSHAKING then Err(IllegalState("DTLS handshake failed"))
    else if |data| > c.appRoom then Err(BufferOverflow)
    else if Outcome(c.engine, c.room) != OK then Err(IllegalState("Wrap failed"))
    else Ok(c.queued + Produced(c.engine, c.room))
  }

  class DtlsDatagramChannel {
    const channel: Transport
    const sslContext: Context
    /** The `SSLParameters` maximum packet size every engine is given. */
    const maximumPacketSize: nat

    var netRecvBuffer: ByteBuffer
    var netSendBuffer: ByteBuffer?
    var appBuffer: ByteBuffer?
    var sslEngine: Option<Engine>
    /** How many engines this channel has asked its context for. */
    var engines: nat

    ghost var Repr: set<object>

    ghost predicate Valid()
      reads this, Repr
    {
      {this, channel} <= Repr && Owns(netRecvBuffer) && Owns(appBuffer) && Owns(netSendBuffer) &&
      netRecvBuffer.Valid() && netRecvBuffer.Appending() &&
      (appBuffer != null ==> appBuffer.Valid() && appBuffer.Appending()) &&
      (netSendBuffer != null ==> netSendBuffer.Valid()) &&
      Separate(netRecvBuffer, appBuffer) && Separate(netRecvBuffer, netSendBuffer) && Separate(appBuffer, netSendBuffer) &&
      (sslEngine.Some? ==> appBuffer != null && netSendBuffer != null && channel.connected.Some?)
    }

    /** A buffer of this channel and its backing array belong to `Repr`. */
    ghost predicate Owns(b: ByteBuffer?)
      reads this
    {
      b != null ==> b in Repr && b.hb in Repr
    }

    /**
     * `new DtlsDatagramChannel(sslContext, sslParameters)`: an unconnected
     * channel whose network will deliver `inbox`, and a 2048-byte receive buffer.
     */
    constructor (sslContext: Context, maximumPacketSize: nat, inbox: seq<Datagram>)
      ensures Valid() && fresh(Repr)
      ensures channel.connected == None && channel.inbox == inbox && channel.sent == []
      ensures sslEngine == None && engines == 0 && appBuffer == null && netSendBuffer == null
      ensures netRecvBuffer.Capacity() == ReceiveBufferSize && netRecvBuffer.position == 0
    {
      this.channel := new Transport(inbox);
      this.sslContext := sslContext;
      this.maximumPacketSize := maximumPacketSize;
      var recv := new ByteBuffer.Allocate(ReceiveBufferSize);
      netRecvBuffer := recv;
      netSendBuffer, appBuffer := null, null;
      sslEngine, engines := None, 0;
      new;
      Repr := {this, channel, recv, recv.hb};
    }

    /** `connect(host, port)`. */
    method Connect(peer: Address)
      requires Valid()
      modifies channel`connected
      ensures Valid() && channel.connected == Some(peer)
    {
      channel.Connect(peer);
    }

    /**
     * `send(data)`: `IllegalStateException` on an unconnected channel; the
     * first call creates a client engine for the connected peer and
     * handshakes; then the engine must be `NOT_HANDSHAKING` and the wrap
     * `OK`, and the wrapped record goes out as one datagram. `ready` is what
     * the data-sending part finds: the existing engine and buffers, or the
     * new ones once the handshake has ended.
     */
    method Send(data: seq<byte>) returns (r: Result<(), Exception>, ghost ready: Option<SendContext>)
      requires Valid()
      modifies Repr
      ensures Valid() && fresh(Repr - old(Repr))
      ensures old(channel.connected).None? ==>
        r == Err(IllegalState("Channel must be connected")) && ready.None? && channel.sent == old(channel.sent)
      ensures old(channel.connected).Some? && old(sslEngine).Some? ==>
        ready == Some(SendContext(old(sslEngine.value), old(appBuffer.Remaining()),
                                  old(netSendBuffer.Written()), old(netSendBuffer.Remaining())))
      ensures old(channel.connected).Some? && old(sslEngine).None? ==>
        (ready.None? ==> r == Err(Blocked)) &&
        (ready.Some? ==>
           SameEngine(CreateEngine(sslContext, old(engines), old(channel.connected), true, maximumPacketSize), ready.value.engine))
      ensures ready.Some? ==>
        var o := SendOutcome(ready.value, data);
        (o.Err? ==> r == Err(o.error)) &&
        (o.Ok? ==> r.Ok? && channel.connected.Some? && |channel.sent| > 0 && channel.sent[|channel.sent| - 1] == Datagram(channel.connected.value, o.value))
      ensures old(sslEngine).Some? ==> engines == old(engines) && sslEngine.Some? && SameEngine(old(sslEngine.value), sslEngine.value)
      ensures old(channel.connected).Some? && old(sslEngine).None? ==>
        engines == old(engines) + 1 && sslEngine.Some? &&
        sslEngine.value.clientMode && sslEngine.value.peer == old(channel.connected)
      ensures channel.connected == old(channel.connected)
      ensures r.Ok? ==> |channel.sent| > |old(channel.sent)| && channel.sent[|channel.sent| - 1].peer == channel.connected.value
    {
      ready := None;
      if channel.connected.None? {
        return Err(IllegalState("Channel must be connected")), ready;
      }
      if sslEngine.None? {
        var hs := StartClient();
        if hs.Err? {
          return Err(hs.error), ready;
        }
      }
      ready := Some(SendContext(sslEngine.value, appBuffer.Remaining(), netSendBuffer.Written(), netSendBuffer.Remaining()));
      if HandshakeStatusOf(sslEngine.value) != NOT_HANDSHAKING {
        return Err(IllegalState("DTLS handshake failed")), ready;
      }
      r := WrapAndWrite(data);
    }

    /** The first `send`'s client side: a client-mode engine for the connected peer and the handshake. */
    method StartClient() returns (r: Result<HandshakeStatus, Exception>)
      requires Valid() && sslEngine.None? && channel.connected.Some?
      modifies Repr
      ensures Valid() && fresh(Repr - old(Repr))
      ensures engines == old(engines) + 1 && sslEngine.Some?
      ensures sslEngine.value.clientMode && sslEngine.value.peer == channel.connected
      ensures SameEngine(CreateEngine(sslContext, old(engines), old(channel.connected), true, maximumPacketSize), sslEngine.value)
      ensures r.Err? ==> r.error == Blocked
      ensures channel.connected == old(channel.connected) && old(channel.sent) <= channel.sent
    {
      sslEngine := Some(CreateEngine(sslContext, engines, channel.connected, true, maximumPacketSize));
      engines := engines + 1;
      r := Handshake();
    }

    /**
     * The data-sending part of `send`: the data is appended to the
     * application buffer (`BufferOverflowException` when it does not fit) and
     * wrapped; a status other than `OK` throws, otherwise everything the send
     * buffer holds goes out as one datagram.
     */
    method WrapAndWrite(data: seq<byte>) returns (r: Result<(), Exception>)
      requires Valid() && sslEngine.Some?
      modifies appBuffer`position, appBuffer`limit, appBuffer.hb,
               netSendBuffer`position, netSendBuffer`limit, netSendBuffer.hb, channel`sent, this`sslEngine
      ensures Valid() && sslEngine.Some? && SameEngine(old(sslEngine.value), sslEngine.value)
      ensures r.Err? ==> channel.sent == old(channel.sent) && (r.error == BufferOverflow || r.error.IllegalState?)
      ensures |data| > old(appBuffer.Remaining()) ==> r == Err(BufferOverflow)
      ensures |data| <= old(appBuffer.Remaining()) ==>
        (r.Err? <==> Outcome(old(sslEngine.value), old(netSendBuffer.Remaining())) != OK) &&
        (r.Err? ==> r == Err(IllegalState("Wrap failed")))
      ensures r.Ok? ==> netSendBuffer.position == 0 && netSendBuffer.Appending()
      ensures r.Ok? ==>
        var out := old(netSendBuffer.Written()) + Produced(old(sslEngine.value), old(netSendBuffer.Remaining()));
        channel.sent == old(channel.sent) + [Datagram(channel.connected.value, out)]
    {
      var put := appBuffer.PutBytes(data);
      if put.Err? {
        return put;
      }
      var result := WrapApplication();
      if result.status != OK {
        return Err(IllegalState("Wrap failed"));
      }
      netSendBuffer.Flip();
      channel.Write(netSendBuffer);
      netSendBuffer.Compact();
      return Ok(());
    }

    /** `flip`, `wrap` the application buffer into the send buffer, `compact`. */
    method WrapApplication() returns (result: EngineResult)
      requires Valid() && sslEngine.Some?
      modifies appBuffer`position, appBuffer`limit, appBuffer.hb,
               netSendBuffer`position, netSendBuffer.hb, this`sslEngine
      ensures Valid() && sslEngine.Some? && SameEngine(old(sslEngine.value), sslEngine.value)
      ensures sslEngine.value.current == result.handshakeStatus
      ensures result.status == Outcome(old(sslEngine.value), old(netSendBuffer.Remaining()))
      ensures sslEngine.value.Pending() < old(sslEngine.value.Pending()) ||
              result == EngineResult(CLOSED, NOT_HANDSHAKING, 0, 0)
      ensures netSendBuffer.limit == old(netSendBuffer.limit)
      ensures netSendBuffer.Written() ==
              old(netSendBuffer.Written()) + Produced(old(sslEngine.value), old(netSendBuffer.Remaining()))
    {
      appBuffer.Flip();
      var e;
      result, e := Exchange(sslEngine.value, appBuffer, netSendBuffer);
      sslEngine := Some(e);
      appBuffer.Compact();
    }

    /**
     * `receive(buffer)`: the next datagram lands in the receive buffer and
     * the channel connects to its sender if it was not connected; the first
     * call creates a server engine for that sender, handshakes and receives
     * again. The buffered record is then unwrapped into `buffer`: underflow
     * and overflow throw, and `CLOSED` runs the engine loop to its end, then
     * drops the engine and the connection. `ready` is the engine that
     * unwraps the record: the existing one, or the new one once its
     * handshake and second receive have succeeded.
     */
    method Receive(buffer: ByteBuffer) returns (r: Result<Address, Exception>, ghost ready: Option<Engine>)
      requires Valid() && buffer.Valid() && buffer !in Repr && buffer.hb !in Repr
      modifies Repr, buffer`position, buffer.hb
      ensures Valid() && fresh(Repr - old(Repr)) && buffer.Valid()
      ensures ready.None? ==> r == Err(Blocked)
      ensures old(sslEngine).Some? && Skip(old(channel.connected), old(channel.inbox)) != [] ==> ready == old(sslEngine)
      ensures old(sslEngine).None? && ready.Some? ==>
        Skip(old(channel.connected), old(channel.inbox)) != [] &&
        SameEngine(CreateEngine(sslContext, old(engines), Some(Skip(old(channel.connected), old(channel.inbox))[0].peer),
                                false, maximumPacketSize), ready.value)
      ensures ready.Some? ==>
        Skip(old(channel.connected), old(channel.inbox)) != [] &&
        var o := Outcome(ready.value, old(buffer.Remaining()));
        (o == BUFFER_UNDERFLOW ==> r == Err(BufferUnderflow)) &&
        (o == BUFFER_OVERFLOW ==> r == Err(BufferOverflow)) &&
        (o == OK ==> r == Ok(Skip(old(channel.connected), old(channel.inbox))[0].peer) && sslEngine.Some?) &&
        (o == CLOSED ==> (r.Ok? ==> sslEngine.None? && channel.connected.None?) && (r.Err? ==> r.error == Blocked)) &&
        buffer.Written() == old(buffer.Written()) + Produced(ready.value, old(buffer.Remaining()))
      ensures Skip(old(channel.connected), old(channel.inbox)) == [] ==> r == Err(Blocked)
      ensures old(sslEngine).None? && r.Ok? ==> engines == old(engines) + 1
      ensures old(sslEngine).Some? ==> engines == old(engines)
      ensures r.Err? ==> r.error == Blocked || r.error == BufferUnderflow || r.error == BufferOverflow
      ensures r.Ok? ==> (sslEngine.None? <==> channel.connected.None?)
      ensures r.Ok? ==> Skip(old(channel.connected), old(channel.inbox)) != [] &&
                        r.value == Skip(old(channel.connected), old(channel.inbox))[0].peer
      ensures r.Ok? && sslEngine.Some? ==> channel.connected == Some(r.value)
      ensures old(sslEngine).Some? && r.Ok? ==>
        buffer.Written() == old(buffer.Written()) + Produced(old(sslEngine.value), old(buffer.Remaining()))
    {
      SkipDropsOnlyRejected(channel.connected, channel.inbox);
      ready := None;
      var address := ReceiveSession();
      if address.Err? {
        return address, ready;
      }
      ready := sslEngine;
      var unwrapped := UnwrapReceived(buffer);
      if unwrapped.Err? {
        return Err(unwrapped.error), ready;
      }
      return address, ready;
    }

    /**
     * The second part of `receive`: the buffered record is unwrapped into
     * `buffer`; underflow and overflow throw, and `CLOSED` ends the session.
     */
    method UnwrapReceived(buffer: ByteBuffer) returns (r: Result<(), Exception>)
      requires Valid() && sslEngine.Some? && buffer.Valid() && buffer !in Repr && buffer.hb !in Repr
      modifies Repr, buffer`position, buffer.hb
      ensures Valid() && fresh(Repr - old(Repr)) && buffer.Valid() && engines == old(engines)
      ensures r.Err? ==> r.error == Blocked || r.error == BufferUnderflow || r.error == BufferOverflow
      ensures r.Ok? ==> (sslEngine.None? <==> channel.connected.None?)
      ensures buffer.Written() == old(buffer.Written()) + Produced(old(sslEngine.value), old(buffer.Remaining()))
      ensures var o := Outcome(old(sslEngine.value), old(buffer.Remaining()));
        (o == BUFFER_UNDERFLOW ==> r == Err(BufferUnderflow)) &&
        (o == BUFFER_OVERFLOW ==> r == Err(BufferOverflow)) &&
        (o == OK ==> r.Ok? && sslEngine.Some? && channel.connected == old(channel.connected)) &&
        (o == CLOSED ==> (r.Ok? ==> sslEngine.None? && channel.connected.None?) && (r.Err? ==> r.error == Blocked))
    {
      var result := UnwrapInto(buffer);
      if result.status == BUFFER_UNDERFLOW {
        return Err(BufferUnderflow);
      }
      if result.status == BUFFER_OVERFLOW {
        return Err(BufferOverflow);
      }
      if result.status == CLOSED {
        var closed := CloseSession();
        if closed.Err? {
          return Err(closed.error);
        }
      }
      return Ok(());
    }

    /**
     * The first part of `receive`: the next datagram, a connection to its
     * sender if there was none, and on the first call a server engine, its
     * handshake and a second receive.
     */
    method ReceiveSession() returns (r: Result<Address, Exception>)
      requires Valid()
      modifies Repr
      ensures Valid() && fresh(Repr - old(Repr))
      ensures Skip(old(channel.connected), old(channel.inbox)) == [] ==> r == Err(Blocked)
      ensures r.Err? ==> r.error == Blocked
      ensures r.Ok? ==> sslEngine.Some? && channel.connected.Some?
      ensures old(sslEngine).None? && r.Ok? ==>
        engines == old(engines) + 1 && !sslEngine.value.clientMode && sslEngine.value.peer == Some(r.value) &&
        SameEngine(CreateEngine(sslContext, old(engines), Some(r.value), false, maximumPacketSize), sslEngine.value)
      ensures old(sslEngine).Some? ==> engines == old(engines) && sslEngine == old(sslEngine)
      ensures old(sslEngine).Some? && Skip(old(channel.connected), old(channel.inbox)) != [] ==> r.Ok?
      ensures old(channel.connected).Some? ==> channel.connected == old(channel.connected)
      ensures old(channel.connected).None? && r.Ok? ==> channel.connected == Some(r.value)
      ensures r.Ok? ==> Skip(old(channel.connected), old(channel.inbox)) != [] &&
                        r.value == Skip(old(channel.connected), old(channel.inbox))[0].peer
      ensures old(channel.sent) <= channel.sent
    {
      var address := ReceiveDatagram();
      if address.Err? {
        return address;
      }
      if channel.connected.None? {
        Connect(address.value);
      }
      if sslEngine.None? {
        var accepted := Accept(address.value);
        if accepted.Err? {
          return Err(accepted.error);
        }
      }
      return address;
    }

    /**
     * The `CLOSED` branch of `receive`: `closeInbound`, the engine loop (to
     * answer the peer's `close_notify`), `closeOutbound`, then the channel is
     * disconnected and the engine dropped. Closing inbound and outbound has no
     * effect on the scripted engine beyond what its script says.
     */
    method CloseSession() returns (r: Result<(), Exception>)
      requires Valid() && sslEngine.Some?
      modifies Repr
      ensures Valid() && fresh(Repr - old(Repr)) && engines == old(engines)
      ensures r.Err? ==> r.error == Blocked
      ensures r.Ok? ==> sslEngine.None? && channel.connected.None?
      ensures old(channel.sent) <= channel.sent
    {
      var loop := ProcessEngineLoop();
      if loop.Err? {
        return Err(loop.error);
      }
      channel.Disconnect();
      sslEngine := None;
      return Ok(());
    }

    /**
     * The first `receive`'s server side: a server-mode engine for the sender,
     * the handshake, and a second `channel.receive` for the first record.
     */
    method Accept(peer: Address) returns (r: Result<(), Exception>)
      requires Valid() && sslEngine.None? && channel.connected.Some?
      modifies Repr
      ensures Valid() && fresh(Repr - old(Repr))
      ensures engines == old(engines) + 1
      ensures r.Err? ==> r.error == Blocked
      ensures r.Ok? ==> sslEngine.Some? && !sslEngine.value.clientMode && sslEngine.value.peer == Some(peer)
      ensures r.Ok? ==> SameEngine(CreateEngine(sslContext, old(engines), Some(peer), false, maximumPacketSize), sslEngine.value)
      ensures channel.connected == old(channel.connected) && old(channel.sent) <= channel.sent
    {
      sslEngine := Some(CreateEngine(sslContext, engines, Some(peer), false, maximumPacketSize));
      engines := engines + 1;
      var hs := Handshake();
      if hs.Err? {
        return Err(hs.error);
      }
      var again := ReceiveDatagram();
      if again.Err? {
        return Err(again.error);
      }
      return Ok(());
    }

    /**
     * `handshake(engine)` for the engine just created: `IllegalStateException`
     * on an unconnected channel, otherwise `beginHandshake`, fresh application
     * and send buffers of the session's sizes, and the engine loop.
     */
    method Handshake() returns (r: Result<HandshakeStatus, Exception>)
      requires sslEngine.Some? && Valid'()
      modifies Repr
      ensures old(channel.connected).None? ==>
        r.Err? && r.error.IllegalState? && Repr == old(Repr) && sslEngine == old(sslEngine) && Valid'()
      ensures old(channel.connected).Some? ==>
        Valid() && fresh(Repr - old(Repr)) && sslEngine.Some? &&
        SameEngine(old(sslEngine.value), sslEngine.value) &&
        appBuffer != null && netSendBuffer != null &&
        (r.Err? ==> r.error == Blocked)
      ensures r.Ok? ==> r.value == FINISHED || r.value == NOT_HANDSHAKING
      ensures channel.connected == old(channel.connected) && old(channel.sent) <= channel.sent
      ensures engines == old(engines)
    {
      if channel.connected.None? {
        return Err(IllegalState("Channel must be connected"));
      }
      sslEngine := Some(BeginHandshake(sslEngine.value));
      appBuffer := new ByteBuffer.Allocate(sslEngine.value.applicationBufferSize);
      netSendBuffer := new ByteBuffer.Allocate(sslEngine.value.packetBufferSize);
      Repr := Repr + {appBuffer, appBuffer.hb, netSendBuffer, netSendBuffer.hb};
      r := ProcessEngineLoop();
    }

    /** `Valid()` except for the engine being created and not begun. */
    ghost predicate Valid'()
      reads this, Repr
    {
      {this, channel} <= Repr && Owns(netRecvBuffer) && Owns(appBuffer) && Owns(netSendBuffer) &&
      netRecvBuffer.Valid() && netRecvBuffer.Appending()
    }

    /**
     * `processEngineLoop`: stops on `FINISHED` or `NOT_HANDSHAKING`, and the
     * four `NEED_*` statuses are the only others, so its `default` branch is
     * unreachable; the loop fails only when the network has nothing more.
     */
    method ProcessEngineLoop() returns (r: Result<HandshakeStatus, Exception>)
      requires Valid() && sslEngine.Some?
      modifies Repr
      ensures Valid() && fresh(Repr - old(Repr)) && sslEngine.Some?
      ensures SameEngine(old(sslEngine.value), sslEngine.value)
      ensures r.Ok? ==> r.value == FINISHED || r.value == NOT_HANDSHAKING
      ensures r.Err? ==> r.error == Blocked
      ensures channel.connected == old(channel.connected) && old(channel.sent) <= channel.sent
      ensures appBuffer == old(appBuffer) && netSendBuffer == old(netSendBuffer) && engines == old(engines)
    {
      var status := HandshakeStatusOf(sslEngine.value);
      while status != FINISHED && status != NOT_HANDSHAKING
        invariant Valid() && fresh(Repr - old(Repr)) && sslEngine.Some?
        invariant SameEngine(old(sslEngine.value), sslEngine.value)
        invariant channel.connected == old(channel.connected) && old(channel.sent) <= channel.sent
        invariant appBuffer == old(appBuffer) && netSendBuffer == old(netSendBuffer) && engines == old(engines)
        decreases sslEngine.value.Pending(), Rank(status)
      {
        var next := HandshakeStep(status);
        if next.Err? {
          return next;
        }
        status := next.value;
      }
      return Ok(status);
    }

    /**
     * One pass of the loop's `switch`: the engine either moves on in its
     * script or reports a status of lower rank.
     */
    method HandshakeStep(status: HandshakeStatus) returns (r: Result<HandshakeStatus, Exception>)
      requires Valid() && sslEngine.Some? && status != FINISHED && status != NOT_HANDSHAKING
      modifies Repr
      ensures Valid() && fresh(Repr - old(Repr)) && sslEngine.Some?
      ensures SameEngine(old(sslEngine.value), sslEngine.value)
      ensures r.Err? ==> r.error == Blocked
      ensures r.Ok? ==> sslEngine.value.Pending() < old(sslEngine.value.Pending()) || Rank(r.value) < Rank(status)
      ensures channel.connected == old(channel.connected) && old(channel.sent) <= channel.sent
      ensures appBuffer == old(appBuffer) && netSendBuffer == old(netSendBuffer) && engines == old(engines)
    {
      if status == NEED_UNWRAP || status == NEED_UNWRAP_AGAIN {
        r := UnwrapStep(status == NEED_UNWRAP);
      } else if status == NEED_TASK {
        RunTasks();
        return Ok(HandshakeStatusOf(sslEngine.value));
      } else {
        assert status == NEED_WRAP;
        var next := WrapHandshake();
        return Ok(next);
      }
    }

    /**
     * The `NEED_UNWRAP` and `NEED_UNWRAP_AGAIN` cases: for `NEED_UNWRAP` with
     * an empty receive buffer a datagram is received first; then the buffer
     * is unwrapped.
     */
    method UnwrapStep(receiveFirst: bool) returns (r: Result<HandshakeStatus, Exception>)
      requires Valid() && sslEngine.Some?
      modifies this`netRecvBuffer, this`Repr, this`sslEngine, channel`inbox,
               netRecvBuffer`position, netRecvBuffer`limit, netRecvBuffer.hb, appBuffer`position, appBuffer.hb
      ensures Valid() && fresh(Repr - old(Repr)) && sslEngine.Some?
      ensures SameEngine(old(sslEngine.value), sslEngine.value)
      ensures r.Err? ==> r.error == Blocked
      ensures r.Ok? ==> sslEngine.value.Pending() < old(sslEngine.value.Pending()) || r.value == NOT_HANDSHAKING
      ensures receiveFirst && old(netRecvBuffer.position) == 0 && Skip(channel.connected, old(channel.inbox)) == [] ==>
        r == Err(Blocked)
      ensures receiveFirst && old(netRecvBuffer.position) == 0 && Skip(channel.connected, old(channel.inbox)) != [] &&
              Outcome(old(sslEngine.value), old(appBuffer.Remaining())) != BUFFER_UNDERFLOW ==>
        channel.inbox == Skip(channel.connected, old(channel.inbox))[1..]
      ensures !(receiveFirst && old(netRecvBuffer.position) == 0) &&
              Outcome(old(sslEngine.value), old(appBuffer.Remaining())) != BUFFER_UNDERFLOW ==>
        channel.inbox == old(channel.inbox)
    {
      if receiveFirst && netRecvBuffer.position == 0 {
        var got := ReceiveDatagram();
        if got.Err? {
          return Err(Blocked);
        }
      }
      var result := UnwrapHandshake();
      if result.Err? {
        return Err(Blocked);
      }
      return Ok(result.value.handshakeStatus);
    }

    /**
     * The `NEED_UNWRAP_AGAIN` case: unwrap what the receive buffer holds and,
     * while the engine answers `BUFFER_UNDERFLOW`, grow the buffer to the
     * session's packet size, receive more and unwrap again.
     */
    method UnwrapHandshake() returns (r: Result<EngineResult, Exception>)
      requires Valid() && sslEngine.Some?
      modifies this`netRecvBuffer, this`Repr, this`sslEngine, channel`inbox,
               netRecvBuffer`position, netRecvBuffer`limit, netRecvBuffer.hb, appBuffer`position, appBuffer.hb
      ensures Valid() && fresh(Repr - old(Repr)) && sslEngine.Some?
      ensures SameEngine(old(sslEngine.value), sslEngine.value)
      ensures r.Err? ==> r.error == Blocked
      ensures r.Ok? ==> r.value.status != BUFFER_UNDERFLOW
      ensures r.Ok? ==> sslEngine.value.current == r.value.handshakeStatus
      ensures r.Ok? ==> sslEngine.value.Pending() < old(sslEngine.value.Pending()) || r.value.handshakeStatus == NOT_HANDSHAKING
      ensures Outcome(old(sslEngine.value), old(appBuffer.Remaining())) != BUFFER_UNDERFLOW ==>
        r.Ok? && channel.inbox == old(channel.inbox)
    {
      ghost var pending := sslEngine.value.Pending();
      var result := UnwrapBuffered();
      ghost var first := result.status;
      while result.status == BUFFER_UNDERFLOW
        invariant first != BUFFER_UNDERFLOW ==> result.status == first && channel.inbox == old(channel.inbox)
        invariant Valid() && fresh(Repr - old(Repr)) && sslEngine.Some?
        invariant SameEngine(old(sslEngine.value), sslEngine.value)
        invariant sslEngine.value.current == result.handshakeStatus
        invariant sslEngine.value.Pending() < pending || result.handshakeStatus == NOT_HANDSHAKING
        invariant result.status == BUFFER_UNDERFLOW ==> sslEngine.value.Pending() < pending
        invariant netRecvBuffer == old(netRecvBuffer) || (fresh(netRecvBuffer) && fresh(netRecvBuffer.hb))
        decreases sslEngine.value.Pending(), if result.status == BUFFER_UNDERFLOW then 1 else 0
      {
        var more := Refill();
        if more.Err? {
          return more;
        }
        result := more.value;
      }
      return Ok(result);
    }

    /** The body of the underflow loop: grow the receive buffer, receive, unwrap again. */
    method Refill() returns (r: Result<EngineResult, Exception>)
      requires Valid() && sslEngine.Some?
      modifies this`netRecvBuffer, this`Repr, this`sslEngine, channel`inbox,
               netRecvBuffer`position, netRecvBuffer`limit, netRecvBuffer.hb, appBuffer`position, appBuffer.hb
      ensures Valid() && fresh(Repr - old(Repr)) && sslEngine.Some?
      ensures SameEngine(old(sslEngine.value), sslEngine.value)
      ensures r.Err? ==> r.error == Blocked && sslEngine == old(sslEngine)
      ensures r.Ok? ==> sslEngine.value.current == r.value.handshakeStatus
      ensures r.Ok? ==> sslEngine.value.Pending() < old(sslEngine.value.Pending()) ||
                        r.value == EngineResult(CLOSED, NOT_HANDSHAKING, 0, 0)
      ensures netRecvBuffer == old(netRecvBuffer) || (fresh(netRecvBuffer) && fresh(netRecvBuffer.hb))
    {
      GrowReceiveBuffer();
      var got := ReceiveDatagram();
      if got.Err? {
        return Err(Blocked);
      }
      var result := UnwrapBuffered();
      return Ok(result);
    }

    /** `flip`, `unwrap` into the caller's buffer, `compact`. */
    method UnwrapInto(buffer: ByteBuffer) returns (result: EngineResult)
      requires Valid() && sslEngine.Some? && buffer.Valid() && buffer !in Repr && buffer.hb !in Repr
      modifies netRecvBuffer`position, netRecvBuffer`limit, netRecvBuffer.hb, buffer`position, buffer.hb, this`sslEngine
      ensures Valid() && sslEngine.Some? && buffer.Valid()
      ensures SameEngine(old(sslEngine.value), sslEngine.value)
      ensures sslEngine.value.current == result.handshakeStatus
      ensures result.status == Outcome(old(sslEngine.value), old(buffer.Remaining()))
      ensures buffer.Written() == old(buffer.Written()) + Produced(old(sslEngine.value), old(buffer.Remaining()))
    {
      netRecvBuffer.Flip();
      var e;
      result, e := Exchange(sslEngine.value, netRecvBuffer, buffer);
      sslEngine := Some(e);
      netRecvBuffer.Compact();
    }

    /** `flip`, `unwrap` into the application buffer, `compact`. */
    method UnwrapBuffered() returns (result: EngineResult)
      requires Valid() && sslEngine.Some?
      modifies netRecvBuffer`position, netRecvBuffer`limit, netRecvBuffer.hb,
               appBuffer`position, appBuffer.hb, this`sslEngine
      ensures Valid() && sslEngine.Some?
      ensures SameEngine(old(sslEngine.value), sslEngine.value)
      ensures sslEngine.value.current == result.handshakeStatus
      ensures result.status == Outcome(old(sslEngine.value), old(appBuffer.Remaining()))
      ensures sslEngine.value.Pending() < old(sslEngine.value.Pending()) ||
              result == EngineResult(CLOSED, NOT_HANDSHAKING, 0, 0)
    {
      netRecvBuffer.Flip();
      var e;
      result, e := Exchange(sslEngine.value, netRecvBuffer, appBuffer);
      sslEngine := Some(e);
      netRecvBuffer.Compact();
    }

    /** `channel.receive(netRecvBuffer)`. */
    method ReceiveDatagram() returns (r: Result<Address, Exception>)
      requires Valid()
      modifies channel`inbox, netRecvBuffer`position, netRecvBuffer.hb
      ensures Valid()
      ensures r.Err? ==> r.error == Blocked
      ensures Skip(channel.connected, old(channel.inbox)) == [] <==> r.Err?
      ensures r.Ok? ==> Skip(channel.connected, old(channel.inbox)) != [] &&
                        r.value == Skip(channel.connected, old(channel.inbox))[0].peer &&
                        channel.inbox == Skip(channel.connected, old(channel.inbox))[1..]
      ensures channel.connected == old(channel.connected) && channel.sent == old(channel.sent)
      ensures netRecvBuffer.limit == old(netRecvBuffer.limit)
      ensures r.Err? ==> netRecvBuffer.position == old(netRecvBuffer.position) && netRecvBuffer.Written() == old(netRecvBuffer.Written())
      ensures r.Ok? ==>
        var d := Skip(channel.connected, old(channel.inbox))[0];
        var n := Min(|d.data|, old(netRecvBuffer.Remaining()));
        netRecvBuffer.position == old(netRecvBuffer.position) + n &&
        netRecvBuffer.Written() == old(netRecvBuffer.Written()) + d.data[..n]
    {
      r := channel.Receive(netRecvBuffer);
    }

    /** `netRecvBuffer = ensureCapacity(netRecvBuffer, packetBufferSize)`. */
    method GrowReceiveBuffer()
      requires Valid() && sslEngine.Some?
      modifies this`netRecvBuffer, this`Repr, netRecvBuffer`position, netRecvBuffer`limit
      ensures Valid() && fresh(Repr - old(Repr)) && sslEngine == old(sslEngine)
      ensures netRecvBuffer.Written() == old(netRecvBuffer.Written())
      ensures netRecvBuffer.Remaining() >= sslEngine.value.packetBufferSize
      ensures netRecvBuffer == old(netRecvBuffer) || (fresh(netRecvBuffer) && fresh(netRecvBuffer.hb))
    {
      var grown := EnsureCapacity(netRecvBuffer, sslEngine.value.packetBufferSize);
      netRecvBuffer := grown;
      Repr := Repr + {grown, grown.hb};
    }

    /** The `NEED_TASK` case. */
    method RunTasks()
      requires Valid() && sslEngine.Some?
      modifies this`sslEngine
      ensures Valid() && sslEngine.Some? && SameEngine(old(sslEngine.value), sslEngine.value)
      ensures HandshakeStatusOf(sslEngine.value) != NEED_TASK
      ensures sslEngine.value.Pending() < old(sslEngine.value.Pending()) || sslEngine == old(sslEngine)
    {
      var e := RunDelegatedTasks(sslEngine.value);
      sslEngine := Some(e);
    }

    /**
     * The `NEED_WRAP` case: wrap into the send buffer and flip it; when it
     * holds bytes they go out as one datagram and the buffer is compacted,
     * otherwise it is left flipped and empty.
     */
    method WrapHandshake() returns (status: HandshakeStatus)
      requires Valid() && sslEngine.Some?
      modifies appBuffer`position, appBuffer`limit, appBuffer.hb,
               netSendBuffer`position, netSendBuffer`limit, netSendBuffer.hb, channel`sent, this`sslEngine
      ensures Valid() && sslEngine.Some?
      ensures SameEngine(old(sslEngine.value), sslEngine.value)
      ensures sslEngine.value.current == status
      ensures sslEngine.value.Pending() < old(sslEngine.value.Pending()) || status == NOT_HANDSHAKING
      ensures
        var out := old(netSendBuffer.Written()) + Produced(old(sslEngine.value), old(netSendBuffer.Remaining()));
        (out != [] ==> channel.sent == old(channel.sent) + [Datagram(channel.connected.value, out)] &&
                       netSendBuffer.position == 0 && netSendBuffer.Appending()) &&
        (out == [] ==> channel.sent == old(channel.sent) && netSendBuffer.position == 0 && netSendBuffer.limit == 0)
    {
      var result := WrapApplication();
      FlushSendBuffer();
      status := result.handshakeStatus;
    }

    /** `flip` the send buffer and, when it holds bytes, write them as one datagram and `compact`. */
    method FlushSendBuffer()
      requires Valid() && sslEngine.Some?
      modifies netSendBuffer`position, netSendBuffer`limit, netSendBuffer.hb, channel`sent
      ensures Valid()
      ensures old(netSendBuffer.Written()) != [] ==>
        channel.sent == old(channel.sent) + [Datagram(channel.connected.value, old(netSendBuffer.Written()))] &&
        netSendBuffer.position == 0 && netSendBuffer.Appending()
      ensures old(netSendBuffer.Written()) == [] ==>
        channel.sent == old(channel.sent) && netSendBuffer.position == 0 && netSendBuffer.limit == 0
    {
      netSendBuffer.Flip();
      if netSendBuffer.HasRemaining() {
        channel.Write(netSendBuffer);
        netSendBuffer.Compact();
      }
    }
  }
}
