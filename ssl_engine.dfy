/**
 * `javax.net.ssl.SSLEngine` in DTLS mode, as seen by the three datagram
 * wrappers: a scripted oracle. The engine's cryptography is out of reach, so
 * each engine answers `wrap`, `unwrap` and `getDelegatedTask` from a script
 * fixed when its `SSLContext` creates it. What the model keeps of the real
 * engine is its interface discipline: the status a `getHandshakeStatus` query
 * reports, `FINISHED` appearing only in call results, a result that would not
 * fit the destination becoming `BUFFER_OVERFLOW` with nothing consumed, and
 * the engine reporting `NEED_TASK` exactly while a delegated task is pending.
 */
module SslEngines {
  import opened Common
  import ByteBuffers

  datatype HandshakeStatus = NOT_HANDSHAKING | FINISHED | NEED_TASK | NEED_WRAP | NEED_UNWRAP | NEED_UNWRAP_AGAIN

  datatype Status = BUFFER_UNDERFLOW | BUFFER_OVERFLOW | OK | CLOSED

  /** `SSLEngineResult`. */
  datatype EngineResult = EngineResult(status: Status, handshakeStatus: HandshakeStatus,
                                       bytesConsumed: nat, bytesProduced: nat)

  /** A host name and a port, as `InetSocketAddress` carries them. */
  datatype Address = Address(host: string, port: int)

  /**
   * One scripted engine event: the answer to the next `wrap` or `unwrap`
   * (its status, the handshake status it reports, how many source bytes it
   * would consume and the bytes it would produce), or one delegated task
   * whose `run` leaves the engine in status `next`.
   */
  datatype Step =
    | Answer(status: Status, handshakeStatus: HandshakeStatus, consume: nat, output: seq<byte>)
    | Task(next: HandshakeStatus)

  /** What an `SSLContext` hands to the `k`-th engine it creates. */
  datatype Plan = Plan(onBegin: HandshakeStatus, script: seq<Step>,
                       applicationBufferSize: nat, packetBufferSize: nat)

  /** `SSLContext`: its protocol name and the plan of every engine it will create. */
  datatype Context = Context(protocol: string, plan: nat -> Plan)

  datatype Engine = Engine(
    clientMode: bool,
    peer: Option<Address>,
    maximumPacketSize: nat,
    applicationBufferSize: nat,
    packetBufferSize: nat,
    onBegin: HandshakeStatus,
    /** The handshake status the last call reported. */
    current: HandshakeStatus,
    script: seq<Step>)
  {

    /** How many scripted events remain. */
    function Pending(): nat
    {
      |script|
    }
  }

  /**
   * `getHandshakeStatus()`: `NEED_TASK` exactly while a delegated task is
   * next; otherwise the status the last call left, except that a
   * `NEED_TASK` with no task left to run reads as `NOT_HANDSHAKING`.
   */
  function HandshakeStatusOf(e: Engine): (r: HandshakeStatus)
    ensures r != FINISHED
    ensures r == NEED_TASK <==> e.script != [] && e.script[0].Task?
    ensures r != NEED_TASK && r != NOT_HANDSHAKING ==> r == e.current
  {
    if e.script != [] && e.script[0].Task? then NEED_TASK
    else if e.current == NEED_TASK || e.current == FINISHED then NOT_HANDSHAKING
    else e.current
  }

  /**
   * `sslContext.createSSLEngine(host, port)` (or the no-argument form, with
   * `peer == None`) as the `k`-th engine of the context, followed by the
   * wrapper's `setUseClientMode` and maximum packet size: the engine does not
   * handshake until `beginHandshake`.
   */
  function CreateEngine(ctx: Context, k: nat, peer: Option<Address>, clientMode: bool, maximumPacketSize: nat): (e: Engine)
    ensures e.current == NOT_HANDSHAKING
    ensures e.clientMode == clientMode && e.peer == peer && e.maximumPacketSize == maximumPacketSize
    ensures e.script == ctx.plan(k).script && e.onBegin == ctx.plan(k).onBegin
    ensures e.applicationBufferSize == ctx.plan(k).applicationBufferSize
    ensures e.packetBufferSize == ctx.plan(k).packetBufferSize
  {
    var plan := ctx.plan(k);
    Engine(clientMode, peer, maximumPacketSize, plan.applicationBufferSize, plan.packetBufferSize,
           plan.onBegin, NOT_HANDSHAKING, plan.script)
  }

  /** `beginHandshake()`: the engine moves to its first handshake status. */
  function BeginHandshake(e: Engine): (e': Engine)
    ensures e'.current == e.onBegin && e'.script == e.script
    ensures e'.(current := e.current) == e
  {
    e.(current := e.onBegin)
  }

  /**
   * `getDelegatedTask()` followed by `run()`: `None` (a null task) when no
   * task is next, otherwise the engine after running it.
   */
  function RunDelegatedTask(e: Engine): (r: Option<Engine>)
    ensures r.None? <==> HandshakeStatusOf(e) != NEED_TASK
    ensures r.Some? ==> r.value.script == e.script[1..] && r.value.current == e.script[0].next
    ensures r.Some? ==> r.value.(current := e.current, script := e.script) == e
  {
    if e.script != [] && e.script[0].Task? then
      Some(e.(current := e.script[0].next, script := e.script[1..]))
    else
      None
  }

  /**
   * `while ((task = engine.getDelegatedTask()) != null) task.run();`: runs
   * tasks until none is next. Only the status and the script change.
   */
  method RunDelegatedTasks(e: Engine) returns (e': Engine)
    ensures HandshakeStatusOf(e') != NEED_TASK
    ensures e'.Pending() < e.Pending() || e' == e
    ensures e'.script == e.script[|e.script| - |e'.script|..]
    ensures e'.(current := e.current, script := e.script) == e
  {
    e' := e;
    var task := RunDelegatedTask(e');
    while task.Some?
      invariant task == RunDelegatedTask(e')
      invariant e'.Pending() < e.Pending() || e' == e
      invariant e'.script == e.script[|e.script| - |e'.script|..]
      invariant e'.(current := e.current, script := e.script) == e
      decreases e'.Pending()
    {
      e' := task.value;
      task := RunDelegatedTask(e');
    }
  }

  /** `e'` is the engine `e` further on: the same settings and no more scripted events. */
  ghost predicate SameEngine(e: Engine, e': Engine)
  {
    e'.clientMode == e.clientMode && e'.peer == e.peer && e'.maximumPacketSize == e.maximumPacketSize &&
    e'.applicationBufferSize == e.applicationBufferSize && e'.packetBufferSize == e.packetBufferSize &&
    e'.Pending() <= e.Pending()
  }

  /**
   * The handshake loops' second measure: every pass either moves the
   * engine on in its script or lowers the rank of the status.
   */
  function Rank(status: HandshakeStatus): nat
  {
    if status == FINISHED || status == NOT_HANDSHAKING then 0 else if status == NEED_TASK then 2 else 1
  }

  /** The bytes the engine's next `wrap` or `unwrap` writes when `room` bytes of the destination remain. */
  function Produced(e: Engine, room: nat): (out: seq<byte>)
    ensures |out| <= room
    ensures out != [] ==> e.script != [] && e.script[0].Answer? && out == e.script[0].output
  {
    if e.script != [] && e.script[0].Answer? && |e.script[0].output| <= room then e.script[0].output else []
  }

  /** The status the engine's next `wrap` or `unwrap` reports when `room` bytes of the destination remain. */
  function Outcome(e: Engine, room: nat): Status
  {
    if e.script == [] || e.script[0].Task? then CLOSED
    else if |e.script[0].output| > room then BUFFER_OVERFLOW
    else e.script[0].status
  }

  /**
   * `engine.wrap(src, dst)` and `engine.unwrap(src, dst)`, answered alike by
   * the script. A scripted answer consumes up to `consume` readable bytes of
   * `src` and appends its output to `dst`; an answer whose output does not
   * fit becomes `BUFFER_OVERFLOW` with nothing consumed or produced. A
   * call the script has no answer for finds the engine closed.
   */
  method Exchange(e: Engine, src: ByteBuffers.ByteBuffer, dst: ByteBuffers.ByteBuffer)
    returns (result: EngineResult, e': Engine)
    requires src.Valid() && dst.Valid() && src != dst && src.hb != dst.hb
    modifies src`position, dst`position, dst.hb
    ensures src.Valid() && dst.Valid()
    ensures src.limit == old(src.limit) && dst.limit == old(dst.limit)
    ensures e'.Pending() < e.Pending() ||
            (e'.Pending() == e.Pending() && result == EngineResult(CLOSED, NOT_HANDSHAKING, 0, 0))
    ensures e'.current == result.handshakeStatus
    ensures e'.clientMode == e.clientMode && e'.peer == e.peer && e'.maximumPacketSize == e.maximumPacketSize
    ensures e'.applicationBufferSize == e.applicationBufferSize && e'.packetBufferSize == e.packetBufferSize
    ensures e'.onBegin == e.onBegin
    ensures result.bytesConsumed <= old(src.Remaining()) && result.bytesProduced <= old(dst.Remaining())
    ensures src.position == old(src.position) + result.bytesConsumed
    ensures dst.position == old(dst.position) + result.bytesProduced
    ensures result.status == Outcome(e, old(dst.Remaining()))
    ensures result.bytesProduced == |Produced(e, old(dst.Remaining()))|
    ensures dst.hb[..dst.position] == old(dst.hb[..dst.position]) + Produced(e, old(dst.Remaining()))
    ensures dst.hb[dst.position..] == old(dst.hb[dst.position..])[result.bytesProduced..]
    ensures e.script == [] || e.script[0].Task? ==>
      result == EngineResult(CLOSED, NOT_HANDSHAKING, 0, 0) && e' == e.(current := NOT_HANDSHAKING)
    ensures e.script != [] && e.script[0].Answer? ==> e'.script == e.script[1..]
    ensures e.script != [] && e.script[0].Answer? ==>
      var a := e.script[0];
      if |a.output| > old(dst.Remaining()) then
        result == EngineResult(BUFFER_OVERFLOW, a.handshakeStatus, 0, 0)
      else
        result.status == a.status && result.handshakeStatus == a.handshakeStatus &&
        result.bytesConsumed == Min(a.consume, old(src.Remaining()))
  {
    if e.script == [] || e.script[0].Task? {
      return EngineResult(CLOSED, NOT_HANDSHAKING, 0, 0), e.(current := NOT_HANDSHAKING);
    }
    var a := e.script[0];
    e' := e.(current := a.handshakeStatus, script := e.script[1..]);
    if |a.output| > dst.limit - dst.position {
      return EngineResult(BUFFER_OVERFLOW, a.handshakeStatus, 0, 0), e';
    }
    var consumed := Min(a.consume, src.limit - src.position);
    ghost var before := dst.hb[..];
    var put := dst.PutBytes(a.output);
    assert put.Ok?;
    assert dst.hb[..dst.position] == before[..old(dst.position)] + a.output;
    src.position := src.position + consumed;
    result := EngineResult(a.status, a.handshakeStatus, consumed, |a.output|);
  }
}
