/** The expert-exchange transport as a transition system: one client process whose calls hold the pool
    lock, any number of connections, each with a server thread behind it, other parties that may connect
    and send anything, and a network that may cut a connection at any point. */
module Transport {
  import opened Octets
  import opened Wrappers
  import opened Codec

  type NodeId = u32
  type ConnId = nat

  /** What a frame in flight is for. The tag is bookkeeping of the model; only `bytes` travel. */
  datatype Tag = Handshake | For(call: nat, payload: Octets)

  datatype Sent = Sent(bytes: Octets, tag: Tag)

  /** Where the server thread of a connection is. */
  datatype Server = AwaitHello | Serving | Gone

  datatype Conn = Conn(
    mine: bool,                 // opened by the modelled client, not by some other party
    peer: NodeId,
    serverFp: u64,              // the map fingerprint of the server that accepted it
    server: Server,
    first: Option<Octets>,      // the first frame the server read
    handled: nat,               // handler calls made on this connection
    requests: nat,              // request frames the client has written on it
    up: seq<Sent>,              // frames on the way to the server
    down: seq<Sent>,            // frames on the way to the client
    cut: bool)                  // nothing written from now on arrives

  datatype Reply = Answer(bytes: Octets, tag: Tag) | Mismatch(remote: u64) | IoError

  datatype Outcome = Outcome(call: nat, payload: Octets, sends: nat, reply: Reply)

  /** What the client is doing: a `roundtrip` on its way round the loop, or `verify_peers`. */
  datatype Job = Call(node: NodeId, payload: Octets, call: nat, attempt: nat, sends: nat) | Verify(rest: seq<NodeId>)

  datatype Phase =
    | Idle
    | Top(job: Job)                       // about to look for a pooled connection
    | AwaitAck(job: Job, cid: ConnId)     // in `connect_and_hello`, hello written
    | AwaitReply(job: Job, cid: ConnId)   // request written
    | Unreachable                         // the statement after the loop

  datatype State = State(
    self: NodeId, fp: u64, peers: set<NodeId>,
    pool: map<NodeId, ConnId>, phase: Phase, calls: nat, outcomes: seq<Outcome>,
    conns: seq<Conn>)

  function Init(self: NodeId, fp: u64, peers: set<NodeId>): State {
    State(self, fp, peers, map[], Idle, 0, [], [])
  }

  // ---- connections -----------------------------------------------------------------------

  function HelloFrame(s: State): Sent {
    Sent(Encode(Hello(s.self, s.fp)), Handshake)
  }

  function Opened(mine: bool, peer: NodeId, serverFp: u64, up: seq<Sent>): Conn {
    Conn(mine, peer, serverFp, AwaitHello, None, 0, 0, up, [], false)
  }

  function PushUp(c: Conn, f: Sent): Conn {
    if c.cut then c else c.(up := c.up + [f])
  }

  function PushDown(c: Conn, f: Sent): Conn {
    if c.cut then c else c.(down := c.down + [f])
  }

  /** `serve_conn` on its first frame. */
  function ServeHello(c: Conn): Conn
    requires c.server == AwaitHello && c.up != []
  {
    var f := c.up[0];
    var c := c.(up := c.up[1..], first := Some(f.bytes));
    match DecodeHello(f.bytes)
    case Failed => c.(server := Gone)
    case Got(hello, _) =>
      if hello.fingerprint != c.serverFp then
        PushDown(c, Sent(Encode(HelloAck(false, c.serverFp)), f.tag)).(server := Gone)
      else
        PushDown(c, Sent(Encode(HelloAck(true, c.serverFp)), f.tag)).(server := Serving)
  }

  /** `serve_conn` on a later frame, when the handler's answer encodes to `reply`. */
  function ServeRequest(c: Conn, reply: Octets): Conn
    requires c.server == Serving && c.up != []
  {
    var f := c.up[0];
    var c := c.(up := c.up[1..]);
    if DecodeRequest(f.bytes).Got? || DecodeAttnRequest(f.bytes).Got? then
      PushDown(c, Sent(reply, f.tag)).(handled := c.handled + 1)
    else
      c.(server := Gone)
  }

  // ---- the client ------------------------------------------------------------------------

  function Finish(s: State, job: Job, reply: Reply): State {
    match job
    case Call(_, payload, call, _, sends) =>
      s.(phase := Idle, outcomes := s.outcomes + [Outcome(call, payload, sends, reply)])
    case Verify(_) => s.(phase := Idle)
  }

  /** An I/O error while connecting: `verify_peers` gives up; the loop of `roundtrip` retries once. */
  function ConnectFailed(s: State, job: Job): State {
    match job
    case Call(_, _, _, attempt, _) =>
      if attempt == 1 then Finish(s, job, IoError) else s.(phase := Top(job.(attempt := attempt + 1)))
    case Verify(_) => Finish(s, job, IoError)
  }

  /** An I/O error on the pooled connection: drop it, retry once on a fresh one. */
  function ExchangeFailed(s: State, job: Job): State
    requires job.Call?
  {
    ConnectFailed(s.(pool := s.pool - {job.node}), job)
  }

  function JobNode(job: Job): Option<NodeId> {
    match job
    case Call(node, _, _, _, _) => Some(node)
    case Verify(rest) => if rest == [] then None else Some(rest[0])
  }

  /** After a successful handshake the connection joins the pool. */
  function Pooled(s: State, job: Job, cid: ConnId): State
    requires JobNode(job).Some?
  {
    s.(pool := s.pool[JobNode(job).value := cid], phase := Top(job))
  }

  datatype Step =
    | StartCall(node: NodeId, payload: Octets)
    | StartVerify(targets: seq<NodeId>)
    | VerifyNext                                   // already pooled, or no target left
    | LoopExit                                     // the loop ran out of attempts
    | ConnectRefused                               // connecting or writing the hello failed
    | ConnectAccepted(serverFp: u64)
    | ReadAck
    | ReadAckFailed
    | WriteRequest
    | WriteRequestFailed(delivered: bool)
    | ReadReply
    | ReadReplyFailed
    | ServerHello(cid: ConnId)
    | ServerRequest(cid: ConnId, reply: Octets)
    | ServerGone(cid: ConnId)
    | Cut(cid: ConnId, upKept: nat, downKept: nat)
    | OtherConnects(serverFp: u64)
    | OtherSends(cid: ConnId, bytes: Octets)

  /** At the top of the loop with nothing pooled for the node. */
  predicate NeedsConnection(s: State) {
    && s.phase.Top? && (s.phase.job.Call? ==> s.phase.job.attempt < 2)
    && JobNode(s.phase.job).Some? && JobNode(s.phase.job).value !in s.pool
  }

  /** At the top of the loop with a pooled connection to use. */
  predicate ReadyToWrite(s: State) {
    && s.phase.Top? && s.phase.job.Call? && s.phase.job.attempt < 2
    && s.phase.job.node in s.pool && s.pool[s.phase.job.node] < |s.conns|
  }

  predicate Enabled(s: State, step: Step) {
    match step
    case StartCall(_, _) => s.phase.Idle?
    case StartVerify(targets) =>
      && s.phase.Idle? && (forall t :: t in targets ==> t in s.peers) && (forall t :: t in s.peers ==> t in targets)
      && forall i, j :: 0 <= i < j < |targets| ==> targets[i] < targets[j]
    case VerifyNext =>
      && s.phase.Top? && s.phase.job.Verify?
      && (s.phase.job.rest == [] || s.phase.job.rest[0] in s.pool)
    case LoopExit => s.phase.Top? && s.phase.job.Call? && s.phase.job.attempt >= 2
    case ConnectRefused => NeedsConnection(s)
    case ConnectAccepted(_) => NeedsConnection(s)
    case ReadAck => s.phase.AwaitAck? && s.phase.cid < |s.conns| && s.conns[s.phase.cid].down != []
        && JobNode(s.phase.job).Some?
    case ReadAckFailed => s.phase.AwaitAck?
    case WriteRequest => ReadyToWrite(s)
    case WriteRequestFailed(_) => ReadyToWrite(s)
    case ReadReply => s.phase.AwaitReply? && s.phase.cid < |s.conns| && s.conns[s.phase.cid].down != []
    case ReadReplyFailed => s.phase.AwaitReply? && s.phase.job.Call?
    case ServerHello(cid) => cid < |s.conns| && s.conns[cid].server == AwaitHello && s.conns[cid].up != []
    case ServerRequest(cid, _) => cid < |s.conns| && s.conns[cid].server == Serving && s.conns[cid].up != []
    case ServerGone(cid) => cid < |s.conns|
    case Cut(cid, i, j) => cid < |s.conns| && i <= |s.conns[cid].up| && j <= |s.conns[cid].down|
    case OtherConnects(_) => true
    case OtherSends(cid, _) => cid < |s.conns| && !s.conns[cid].mine
  }

  function SetConn(s: State, cid: ConnId, c: Conn): State
    requires cid < |s.conns|
  {
    s.(conns := s.conns[cid := c])
  }

  /** The request frame written on the pooled connection; a failed write may or may not have delivered it. */
  function Written(s: State, delivered: bool): State
    requires ReadyToWrite(s)
  {
    var job, cid := s.phase.job, s.pool[s.phase.job.node];
    var c := if delivered then PushUp(s.conns[cid], Sent(job.payload, For(job.call, job.payload))) else s.conns[cid];
    SetConn(s, cid, c.(requests := c.requests + 1))
  }

  function Apply(s: State, step: Step): State
    requires Enabled(s, step)
  {
    match step
    case StartCall(node, payload) =>
      var job := Call(node, payload, s.calls, 0, 0);
      var s := s.(calls := s.calls + 1);
      if node !in s.peers then Finish(s, job, IoError) else s.(phase := Top(job))
    case StartVerify(targets) => s.(phase := Top(Verify(targets)))
    case VerifyNext =>
      if s.phase.job.rest == [] then s.(phase := Idle) else s.(phase := Top(Verify(s.phase.job.rest[1..])))
    case LoopExit => s.(phase := Unreachable)
    case ConnectRefused => ConnectFailed(s, s.phase.job)
    case ConnectAccepted(serverFp) =>
      var c := Opened(true, JobNode(s.phase.job).value, serverFp, [HelloFrame(s)]);
      s.(conns := s.conns + [c], phase := AwaitAck(s.phase.job, |s.conns|))
    case ReadAck =>
      var cid, job := s.phase.cid, s.phase.job;
      var f := s.conns[cid].down[0];
      var s := SetConn(s, cid, s.conns[cid].(down := s.conns[cid].down[1..]));
      (match DecodeHelloAck(f.bytes)
       case Failed => ConnectFailed(s, job)
       case Got(ack, _) => if ack.ok then Pooled(s, job, cid) else Finish(s, job, Mismatch(ack.fingerprint)))
    case ReadAckFailed => ConnectFailed(s, s.phase.job)
    case WriteRequest =>
      Written(s, true).(phase := AwaitReply(s.phase.job.(sends := s.phase.job.sends + 1), s.pool[s.phase.job.node]))
    case WriteRequestFailed(delivered) =>
      ExchangeFailed(Written(s, delivered), s.phase.job.(sends := s.phase.job.sends + 1))
    case ReadReply =>
      var cid, job := s.phase.cid, s.phase.job;
      var f := s.conns[cid].down[0];
      Finish(SetConn(s, cid, s.conns[cid].(down := s.conns[cid].down[1..])), job, Answer(f.bytes, f.tag))
    case ReadReplyFailed => ExchangeFailed(s, s.phase.job)
    case ServerHello(cid) => SetConn(s, cid, ServeHello(s.conns[cid]))
    case ServerRequest(cid, reply) => SetConn(s, cid, ServeRequest(s.conns[cid], reply))
    case ServerGone(cid) => SetConn(s, cid, s.conns[cid].(server := Gone))
    case Cut(cid, i, j) =>
      SetConn(s, cid, s.conns[cid].(up := s.conns[cid].up[..i], down := s.conns[cid].down[..j], cut := true))
    case OtherConnects(serverFp) => s.(conns := s.conns + [Opened(false, s.self, serverFp, [])])
    case OtherSends(cid, bytes) => SetConn(s, cid, PushUp(s.conns[cid], Sent(bytes, Handshake)))
  }
}
