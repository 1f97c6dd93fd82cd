/** What holds in every run of the transport: no handler before a matching hello, no request to a server
    with another expert map, no stale reply, at most two sends, no unreachable exit. */
module TransportSafety {
  import opened Octets
  import opened Wrappers
  import opened Codec
  import opened Transport

  // ---- one connection --------------------------------------------------------------------

  /** The server's first frame was a hello carrying the server's own fingerprint. */
  ghost predicate Greeted(c: Conn) {
    && c.first.Some? && DecodeHello(c.first.value).Got?
    && DecodeHello(c.first.value).value.fingerprint == c.serverFp
  }

  ghost predicate AllTagged(c: Conn, t: Tag) {
    && (forall i :: 0 <= i < |c.up| ==> c.up[i].tag == t)
    && (forall i :: 0 <= i < |c.down| ==> c.down[i].tag == t)
  }

  /** A connection of the modelled client: at most one frame in flight, hellos and acks are genuine,
      a request is only ever written to a server with the client's own fingerprint, and its bytes are the
      payload of the call it is for. */
  ghost predicate MineInv(self: NodeId, fp: u64, c: Conn) {
    && |c.up| + |c.down| <= 1
    && (c.requests > 0 ==> c.serverFp == fp)
    && (c.requests == 0 ==> AllTagged(c, Handshake))
    && (forall i :: 0 <= i < |c.up| && c.up[i].tag == Handshake ==>
          c.server != Serving && c.up[i].bytes == Encode(Hello(self, fp)))
    && (forall i :: 0 <= i < |c.up| && c.server == AwaitHello ==> c.up[i].tag == Handshake)
    && (forall i :: 0 <= i < |c.down| && c.down[i].tag == Handshake ==>
          c.down[i].bytes == Encode(HelloAck(c.serverFp == fp, c.serverFp)))
    && (forall i :: 0 <= i < |c.up| && c.up[i].tag.For? ==> c.up[i].bytes == c.up[i].tag.payload)
  }

  ghost predicate ConnInv(self: NodeId, fp: u64, c: Conn) {
    && (c.server == Serving || c.handled > 0 ==> Greeted(c))
    && (c.server == AwaitHello ==> c.handled == 0 && c.down == [])
    && (c.mine ==> MineInv(self, fp, c))
  }

  /** What every server and network step leaves alone. */
  ghost predicate Calmer(c: Conn, d: Conn) {
    && d.mine == c.mine && d.peer == c.peer && d.serverFp == c.serverFp && d.requests == c.requests
    && (c.server != AwaitHello ==> d.server != AwaitHello)
    && (c.mine ==> |d.up| + |d.down| <= |c.up| + |c.down|)
    && forall t :: c.mine && AllTagged(c, t) ==> AllTagged(d, t)
  }

  lemma HelloDecodes(self: NodeId, fp: u64)
    ensures DecodeHello(Encode(Hello(self, fp))) == Got(Hello(self, fp), [])
  {
    hide EncodeThen, DecodeHello;
    DecodesToItself(Hello(self, fp), []);
  }

  lemma AckDecodes(ok: bool, fp: u64)
    ensures DecodeHelloAck(Encode(HelloAck(ok, fp))) == Got(HelloAck(ok, fp), [])
  {
    hide EncodeThen, DecodeHelloAck;
    DecodesToItself(HelloAck(ok, fp), []);
  }

  lemma ServeHelloKeeps(self: NodeId, fp: u64, c: Conn)
    requires ConnInv(self, fp, c) && c.server == AwaitHello && c.up != []
    ensures ConnInv(self, fp, ServeHello(c)) && Calmer(c, ServeHello(c))
  {
    HelloDecodes(self, fp);
    hide Encode, DecodeHello;
    assert c.up[0] == c.up[0];
  }

  lemma ServeRequestKeeps(self: NodeId, fp: u64, c: Conn, reply: Octets)
    requires ConnInv(self, fp, c) && c.server == Serving && c.up != []
    ensures ConnInv(self, fp, ServeRequest(c, reply)) && Calmer(c, ServeRequest(c, reply))
  {
    hide Encode, DecodeHello, DecodeRequest, DecodeAttnRequest;
    assert c.up[0] == c.up[0];
  }

  lemma CutKeeps(self: NodeId, fp: u64, c: Conn, i: nat, j: nat)
    requires ConnInv(self, fp, c) && i <= |c.up| && j <= |c.down|
    ensures var d := c.(up := c.up[..i], down := c.down[..j], cut := true); ConnInv(self, fp, d) && Calmer(c, d)
  {
  }

  lemma GoneKeeps(self: NodeId, fp: u64, c: Conn)
    requires ConnInv(self, fp, c)
    ensures var d := c.(server := Gone); ConnInv(self, fp, d) && Calmer(c, d)
  {
    hide DecodeHello, Encode;
  }

  lemma OthersFrameKeeps(self: NodeId, fp: u64, c: Conn, bytes: Octets)
    requires ConnInv(self, fp, c) && !c.mine
    ensures var d := PushUp(c, Sent(bytes, Handshake)); ConnInv(self, fp, d) && Calmer(c, d)
  {
    hide DecodeHello, Encode;
  }

  // ---- the whole state ---------------------------------------------------------------------

  ghost predicate ConnsInv(s: State) {
    forall cid :: 0 <= cid < |s.conns| ==> ConnInv(s.self, s.fp, s.conns[cid])
  }

  ghost predicate Quiet(c: Conn) {
    c.up == [] && c.down == []
  }

  /** A pooled connection is the client's own, to that node, to a server with the same map, and outside
      an exchange on it nothing is in flight: no reply can be waiting for a later call to read. */
  ghost predicate PooledInv(s: State, n: NodeId)
    requires n in s.pool
  {
    var cid := s.pool[n];
    && cid < |s.conns| && s.conns[cid].mine && s.conns[cid].peer == n && s.conns[cid].serverFp == s.fp
    && s.conns[cid].server != AwaitHello
    && (Quiet(s.conns[cid]) || (s.phase.AwaitReply? && s.phase.cid == cid))
  }

  ghost predicate PoolInv(s: State) {
    forall n :: n in s.pool ==> PooledInv(s, n)
  }

  ghost predicate JobInv(s: State, job: Job) {
    job.Call? ==> job.attempt <= 1 && job.sends <= job.attempt
  }

  ghost predicate PhaseInv(s: State) {
    match s.phase
    case Idle => true
    case Top(job) => JobInv(s, job)
    case AwaitAck(job, cid) =>
      && JobInv(s, job) && JobNode(job).Some? && JobNode(job).value !in s.pool
      && cid < |s.conns| && s.conns[cid].mine && s.conns[cid].peer == JobNode(job).value && s.conns[cid].requests == 0
    case AwaitReply(job, cid) =>
      && job.Call? && job.attempt <= 1 && job.sends <= job.attempt + 1
      && job.node in s.pool && s.pool[job.node] == cid
      && (cid < |s.conns| ==> AllTagged(s.conns[cid], For(job.call, job.payload)))
    case Unreachable => false
  }

  /** A finished call sent at most twice; its answer, if any, answers its own payload; a mismatch is real. */
  ghost predicate OutcomeInv(fp: u64, o: Outcome) {
    && o.sends <= 2
    && (o.reply.Answer? ==> o.reply.tag == For(o.call, o.payload))
    && (o.reply.Mismatch? ==> o.reply.remote != fp && o.sends <= 1)
  }

  ghost predicate OutcomesInv(s: State) {
    forall i :: 0 <= i < |s.outcomes| ==> OutcomeInv(s.fp, s.outcomes[i])
  }

  ghost predicate Inv(s: State) {
    ConnsInv(s) && PoolInv(s) && PhaseInv(s) && OutcomesInv(s)
  }

  lemma CalmerKeeps(s: State, cid: ConnId, d: Conn)
    requires Inv(s) && cid < |s.conns| && Calmer(s.conns[cid], d) && ConnInv(s.self, s.fp, d)
    ensures Inv(SetConn(s, cid, d))
  {
    hide ConnInv, OutcomeInv;
    var s' := SetConn(s, cid, d);
    forall n | n in s'.pool ensures PooledInv(s', n) {
      assert PooledInv(s, n);
    }
  }

  lemma FinishKeeps(s: State, job: Job, reply: Reply)
    requires ConnsInv(s) && PoolInv(s.(phase := Idle)) && OutcomesInv(s)
    requires job.Call? ==> OutcomeInv(s.fp, Outcome(job.call, job.payload, job.sends, reply))
    ensures Inv(Finish(s, job, reply))
  {
  }

  lemma ConnectFailedKeeps(s: State, job: Job)
    requires ConnsInv(s) && PoolInv(s.(phase := Idle)) && OutcomesInv(s)
    requires job.Call? ==> job.attempt <= 1 && job.sends <= job.attempt + 1
    ensures Inv(ConnectFailed(s, job))
  {
  }

  // ---- every step keeps the invariant --------------------------------------------------------

  /** Outside an exchange every pooled connection is quiet. */
  lemma AllQuiet(s: State)
    requires PoolInv(s) && !s.phase.AwaitReply?
    ensures PoolInv(s.(phase := Idle))
  {
  }

  lemma StartKeeps(s: State, step: Step)
    requires Inv(s) && Enabled(s, step) && (step.StartCall? || step.StartVerify? || step.VerifyNext?)
    ensures Inv(Apply(s, step))
  {
  }

  lemma LoopNeverExits(s: State)
    requires Inv(s)
    ensures !Enabled(s, LoopExit)
  {
  }

  lemma JoinedKeeps(s: State, c: Conn)
    requires ConnsInv(s) && ConnInv(s.self, s.fp, c)
    ensures ConnsInv(s.(conns := s.conns + [c]))
    ensures PoolInv(s) ==> PoolInv(s.(conns := s.conns + [c]))
  {
    hide ConnInv;
    var t := s.(conns := s.conns + [c]);
    forall n | n in t.pool && PoolInv(s) ensures PooledInv(t, n) {
      assert PooledInv(s, n);
    }
  }

  lemma HelloWritten(s: State, peer: NodeId, serverFp: u64)
    ensures ConnInv(s.self, s.fp, Opened(true, peer, serverFp, [HelloFrame(s)]))
  {
    hide Encode, DecodeHello;
  }

  lemma ConnectKeeps(s: State, serverFp: u64)
    requires Inv(s) && NeedsConnection(s)
    ensures Inv(Apply(s, ConnectAccepted(serverFp)))
  {
    var c := Opened(true, JobNode(s.phase.job).value, serverFp, [HelloFrame(s)]);
    var t := s.(conns := s.conns + [c]);
    HelloWritten(s, JobNode(s.phase.job).value, serverFp);
    JoinedKeeps(s, c);
    AllQuiet(t);
    AwaitingAckKeeps(t, s.phase.job, |s.conns|);
  }

  lemma AwaitingAckKeeps(t: State, job: Job, cid: ConnId)
    requires ConnsInv(t) && PoolInv(t.(phase := Idle)) && OutcomesInv(t) && JobInv(t, job) && cid < |t.conns|
    requires JobNode(job).Some? && JobNode(job).value !in t.pool
    requires t.conns[cid].mine && t.conns[cid].peer == JobNode(job).value && t.conns[cid].requests == 0
    ensures Inv(t.(phase := AwaitAck(job, cid)))
  {
    hide ConnInv, OutcomeInv;
  }

  lemma ConnectRefusedKeeps(s: State)
    requires Inv(s) && NeedsConnection(s)
    ensures Inv(Apply(s, ConnectRefused))
  {
  }

  lemma ReadAckFailedKeeps(s: State)
    requires Inv(s) && s.phase.AwaitAck?
    ensures Inv(Apply(s, ReadAckFailed))
  {
    AllQuiet(s);
    ConnectFailedKeeps(s, s.phase.job);
  }

  /** Taking the one frame in flight leaves the connection quiet. */
  lemma TakenIsQuiet(self: NodeId, fp: u64, c: Conn, t: Tag)
    requires ConnInv(self, fp, c) && c.mine && c.down != [] && AllTagged(c, t)
    ensures c.down[0].tag == t && c.server != AwaitHello
    ensures t == Handshake ==> c.down[0].bytes == Encode(HelloAck(c.serverFp == fp, c.serverFp))
    ensures var d := c.(down := c.down[1..]); Quiet(d) && ConnInv(self, fp, d)
  {
    hide Encode, DecodeHello;
  }

  lemma AtAck(s: State)
    requires Inv(s) && Enabled(s, ReadAck)
    ensures var c := s.conns[s.phase.cid]; ConnInv(s.self, s.fp, c) && c.mine && AllTagged(c, Handshake)
  {
    hide Encode, DecodeHello, OutcomeInv, PooledInv;
    assert ConnInv(s.self, s.fp, s.conns[s.phase.cid]);
  }

  /** The ack on a fresh connection is the server's verdict, and taking it leaves the connection quiet. */
  lemma AckIsVerdict(s: State)
    requires Inv(s) && Enabled(s, ReadAck)
    ensures var c := s.conns[s.phase.cid];
            && DecodeHelloAck(c.down[0].bytes) == Got(HelloAck(c.serverFp == s.fp, c.serverFp), [])
            && Quiet(c.(down := c.down[1..])) && ConnInv(s.self, s.fp, c.(down := c.down[1..]))
            && c.server != AwaitHello
  {
    hide Inv, ConnInv, AllTagged, Quiet, Encode, DecodeHelloAck;
    var c := s.conns[s.phase.cid];
    AtAck(s);
    TakenIsQuiet(s.self, s.fp, c, Handshake);
    AckDecodes(c.serverFp == s.fp, c.serverFp);
  }

  /** The state right after the ack was taken off the connection. */
  lemma AckTaken(s: State, t: State)
    requires Inv(s) && Enabled(s, ReadAck)
    requires var c := s.conns[s.phase.cid]; t == SetConn(s, s.phase.cid, c.(down := c.down[1..]))
    ensures ConnsInv(t) && PoolInv(t.(phase := Idle)) && OutcomesInv(t)
  {
  }

  /** A greeted, quiet connection to a server with the client's map may join the pool. */
  lemma PooledKeeps(t: State, job: Job, cid: ConnId)
    requires ConnsInv(t) && PoolInv(t.(phase := Idle)) && OutcomesInv(t) && JobInv(t, job) && JobNode(job).Some?
    requires cid < |t.conns| && t.conns[cid].mine && t.conns[cid].peer == JobNode(job).value
    requires t.conns[cid].serverFp == t.fp && t.conns[cid].server != AwaitHello && Quiet(t.conns[cid])
    ensures Inv(Pooled(t, job, cid))
  {
  }

  lemma ReadAckKeeps(s: State)
    requires Inv(s) && Enabled(s, ReadAck)
    ensures Inv(Apply(s, ReadAck))
  {
    var cid, job := s.phase.cid, s.phase.job;
    var c := s.conns[cid].(down := s.conns[cid].down[1..]);
    var t := SetConn(s, cid, c);
    AckIsVerdict(s);
    AckTaken(s, t);
    hide Inv, ConnsInv, PoolInv, OutcomesInv, OutcomeInv, DecodeHelloAck, ConnInv;
    if c.serverFp == s.fp {
      PooledKeeps(t, job, cid);
    } else {
      if job.Call? {
        MismatchOutcome(s.fp, job.call, job.payload, job.sends, c.serverFp);
      }
      FinishKeeps(t, job, Mismatch(c.serverFp));
    }
  }

  lemma MismatchOutcome(fp: u64, call: nat, payload: Octets, sends: nat, remote: u64)
    requires sends <= 1 && remote != fp
    ensures OutcomeInv(fp, Outcome(call, payload, sends, Mismatch(remote)))
  {
  }

  /** Writing a request on a quiet pooled connection: it goes to a server with the client's map, and it is
      the only thing in flight there. */
  lemma WriteOnPooled(self: NodeId, fp: u64, c: Conn, f: Sent, delivered: bool)
    requires ConnInv(self, fp, c) && c.mine && c.serverFp == fp && c.server != AwaitHello && Quiet(c) && f.tag.For?
    requires f.bytes == f.tag.payload
    ensures var d := (if delivered then PushUp(c, f) else c).(requests := c.requests + 1);
            ConnInv(self, fp, d) && AllTagged(d, f.tag)
  {
  }

  lemma PooledAtWrite(s: State)
    requires Inv(s) && ReadyToWrite(s)
    ensures var c := s.conns[s.pool[s.phase.job.node]];
            c.mine && c.serverFp == s.fp && c.server != AwaitHello && Quiet(c) && ConnInv(s.self, s.fp, c)
  {
    hide ConnInv, Quiet;
    assert PooledInv(s, s.phase.job.node);
  }

  lemma WrittenIs(s: State, delivered: bool)
    requires ReadyToWrite(s)
    ensures var job := s.phase.job; var was := s.conns[s.pool[job.node]];
            var f := Sent(job.payload, For(job.call, job.payload));
            Written(s, delivered)
            == SetConn(s, s.pool[job.node],
                       (if delivered then PushUp(was, f) else was).(requests := was.requests + 1))
  {
  }

  /** The connection the request was written on, and what the client knows about it. */
  lemma WrittenOn(s: State, delivered: bool) returns (cid: ConnId, c: Conn)
    requires Inv(s) && ReadyToWrite(s)
    ensures cid == s.pool[s.phase.job.node] && cid < |s.conns| && Written(s, delivered) == SetConn(s, cid, c)
    ensures c.mine && c.serverFp == s.fp && c.server != AwaitHello && c.peer == s.conns[cid].peer
    ensures ConnInv(s.self, s.fp, c) && AllTagged(c, For(s.phase.job.call, s.phase.job.payload))
  {
    hide Inv, ConnInv, AllTagged, Quiet, Written, SetConn;
    PooledAtWrite(s);
    WrittenIs(s, delivered);
    var job := s.phase.job;
    var f := Sent(job.payload, For(job.call, job.payload));
    cid := s.pool[job.node];
    WriteOnPooled(s.self, s.fp, s.conns[cid], f, delivered);
    c := (if delivered then PushUp(s.conns[cid], f) else s.conns[cid]).(requests := s.conns[cid].requests + 1);
  }

  lemma SetConnKeeps(s: State, cid: ConnId, c: Conn)
    requires ConnsInv(s) && OutcomesInv(s) && cid < |s.conns| && ConnInv(s.self, s.fp, c)
    ensures ConnsInv(SetConn(s, cid, c)) && OutcomesInv(SetConn(s, cid, c))
  {
    hide ConnInv, OutcomeInv;
  }

  lemma AwaitingKeeps(s: State, cid: ConnId, c: Conn, job: Job)
    requires PoolInv(s.(phase := Idle)) && cid < |s.conns| && OutcomesInv(s) && ConnsInv(SetConn(s, cid, c))
    requires job.Call? && job.attempt <= 1 && job.sends <= job.attempt + 1 && job.node in s.pool
    requires s.pool[job.node] == cid
    requires c.mine && c.peer == s.conns[cid].peer && c.serverFp == s.fp && c.server != AwaitHello
    requires AllTagged(c, For(job.call, job.payload))
    ensures Inv(SetConn(s, cid, c).(phase := AwaitReply(job, cid)))
  {
  }

  /** What the invariant says at the top of the loop with a pooled connection at hand. */
  lemma AtWrite(s: State)
    requires Inv(s) && ReadyToWrite(s)
    ensures ConnsInv(s) && PoolInv(s) && OutcomesInv(s) && PoolInv(s.(phase := Idle)) && s.phase.Top?
    ensures s.phase.job.Call? && s.phase.job.attempt <= 1 && s.phase.job.sends <= s.phase.job.attempt
    ensures s.phase.job.node in s.pool && s.pool[s.phase.job.node] < |s.conns|
  {
    AllQuiet(s);
    assert JobInv(s, s.phase.job);
    hide ConnsInv, PoolInv, OutcomesInv;
  }

  lemma WriteApplies(s: State, delivered: bool)
    requires ReadyToWrite(s)
    ensures var job := s.phase.job.(sends := s.phase.job.sends + 1);
            Apply(s, WriteRequest) == Written(s, true).(phase := AwaitReply(job, s.pool[job.node]))
            && Apply(s, WriteRequestFailed(delivered)) == ExchangeFailed(Written(s, delivered), job)
  {
    hide Written, ExchangeFailed;
  }

  lemma WriteRequestKeeps(s: State)
    requires Inv(s) && Enabled(s, WriteRequest)
    ensures Inv(Apply(s, WriteRequest))
  {
    hide Inv, Apply, ConnsInv, PoolInv, OutcomesInv;
    AtWrite(s);
    WriteApplies(s, true);
    hide *;
    var cid, c := WrittenOn(s, true);
    SetConnKeeps(s, cid, c);
    AwaitingKeeps(s, cid, c, s.phase.job.(sends := s.phase.job.sends + 1));
  }

  /** Dropping the connection in use leaves only quiet ones in the pool. */
  lemma DroppedIsQuiet(s: State, node: NodeId, c: Conn)
    requires PoolInv(s) && node in s.pool && s.pool[node] < |s.conns|
    requires s.phase.AwaitReply? ==> s.phase.cid == s.pool[node]
    requires c.peer == s.conns[s.pool[node]].peer
    ensures var t := SetConn(s, s.pool[node], c); PoolInv(t.(pool := t.pool - {node}, phase := Idle))
  {
  }

  lemma WriteRequestFailedKeeps(s: State, delivered: bool)
    requires Inv(s) && Enabled(s, WriteRequestFailed(delivered))
    ensures Inv(Apply(s, WriteRequestFailed(delivered)))
  {
    hide Inv, Apply, ConnsInv, PoolInv, OutcomesInv;
    AtWrite(s);
    WriteApplies(s, delivered);
    hide *;
    var cid, c := WrittenOn(s, delivered);
    SetConnKeeps(s, cid, c);
    DroppedIsQuiet(s, s.phase.job.node, c);
    ForgottenKeeps(s, cid, c, s.phase.job.(sends := s.phase.job.sends + 1));
  }

  lemma ForgottenKeeps(s: State, cid: ConnId, c: Conn, job: Job)
    requires job.Call? && job.attempt <= 1 && job.sends <= job.attempt + 1 && cid < |s.conns|
    requires var t := SetConn(s, cid, c);
            ConnsInv(t) && OutcomesInv(t) && PoolInv(t.(pool := t.pool - {job.node}, phase := Idle))
    ensures Inv(ExchangeFailed(SetConn(s, cid, c), job))
  {
    hide Inv, ConnInv, OutcomeInv, PoolInv, ConnectFailed;
    var t := SetConn(s, cid, c);
    var u := t.(pool := t.pool - {job.node});
    assert u.(phase := Idle) == t.(pool := t.pool - {job.node}, phase := Idle);
    ConnectFailedKeeps(u, job);
  }

  lemma AtReplyFailed(s: State)
    requires s.phase.AwaitReply? && s.phase.job.Call? && Inv(s)
    ensures var p := s.phase; p.job.node in s.pool && s.pool[p.job.node] == p.cid < |s.conns|
    ensures ConnsInv(s) && PoolInv(s) && OutcomesInv(s) && s.phase.job.attempt <= 1
    ensures s.phase.job.sends <= s.phase.job.attempt + 1
  {
    assert PooledInv(s, s.phase.job.node);
    hide ConnInv, OutcomeInv, AllTagged;
  }

  lemma ReadReplyFailedKeeps(s: State)
    requires Inv(s) && Enabled(s, ReadReplyFailed)
    ensures Inv(Apply(s, ReadReplyFailed))
  {
    hide Inv, ConnsInv, PoolInv, OutcomesInv, ExchangeFailed;
    AtReplyFailed(s);
    var cid, job := s.phase.cid, s.phase.job;
    assert SetConn(s, cid, s.conns[cid]) == s;
    DroppedIsQuiet(s, job.node, s.conns[cid]);
    ForgottenKeeps(s, cid, s.conns[cid], job);
  }

  lemma AtReply(s: State)
    requires Inv(s) && Enabled(s, ReadReply)
    ensures var job, c := s.phase.job, s.conns[s.phase.cid];
            && ConnInv(s.self, s.fp, c) && c.mine && job.Call? && job.sends <= 2
            && AllTagged(c, For(job.call, job.payload))
  {
    hide ConnInv, AllTagged, OutcomeInv;
    assert PooledInv(s, s.phase.job.node) && ConnInv(s.self, s.fp, s.conns[s.phase.cid]);
  }

  /** Once the connection in use is quiet, every pooled one is. */
  lemma QuietAgain(s: State, d: Conn)
    requires PoolInv(s) && s.phase.AwaitReply? && s.phase.cid < |s.conns| && Quiet(d)
    requires var c := s.conns[s.phase.cid];
            d.mine == c.mine && d.peer == c.peer && d.serverFp == c.serverFp && d.server == c.server
    ensures PoolInv(SetConn(s, s.phase.cid, d).(phase := Idle))
  {
    hide Quiet;
    var t := SetConn(s, s.phase.cid, d).(phase := Idle);
    forall n | n in t.pool ensures PooledInv(t, n) {
      assert PooledInv(s, n);
    }
  }

  lemma OwnAnswer(fp: u64, call: nat, payload: Octets, sends: nat, bytes: Octets)
    requires sends <= 2
    ensures OutcomeInv(fp, Outcome(call, payload, sends, Answer(bytes, For(call, payload))))
  {
  }

  lemma ReadReplyKeeps(s: State)
    requires Inv(s) && Enabled(s, ReadReply)
    ensures Inv(Apply(s, ReadReply))
  {
    assert ConnsInv(s) && OutcomesInv(s) && PoolInv(s);
    hide Inv, ConnsInv, OutcomesInv, PoolInv, ConnInv, AllTagged, Finish, SetConn;
    AtReply(s);
    var cid, job := s.phase.cid, s.phase.job;
    var c := s.conns[cid];
    var d, f := c.(down := c.down[1..]), c.down[0];
    assert Apply(s, ReadReply) == Finish(SetConn(s, cid, d), job, Answer(f.bytes, f.tag));
    hide *;
    TakenIsQuiet(s.self, s.fp, c, For(job.call, job.payload));
    SetConnKeeps(s, cid, d);
    QuietAgain(s, d);
    OwnAnswer(s.fp, job.call, job.payload, job.sends, f.bytes);
    hide *;
    FinishKeeps(SetConn(s, cid, d), job, Answer(f.bytes, f.tag));
  }

  /** A step that only touches one connection. */
  predicate OnConn(step: Step) {
    step.ServerHello? || step.ServerRequest? || step.ServerGone? || step.Cut? || step.OtherSends?
  }

  ghost predicate CanMove(c: Conn, step: Step)
    requires OnConn(step)
  {
    match step
    case ServerHello(_) => c.server == AwaitHello && c.up != []
    case ServerRequest(_, _) => c.server == Serving && c.up != []
    case ServerGone(_) => true
    case Cut(_, i, j) => i <= |c.up| && j <= |c.down|
    case OtherSends(_, _) => !c.mine
  }

  ghost function Moved(c: Conn, step: Step): Conn
    requires OnConn(step) && CanMove(c, step)
  {
    match step
    case ServerHello(_) => ServeHello(c)
    case ServerRequest(_, reply) => ServeRequest(c, reply)
    case ServerGone(_) => c.(server := Gone)
    case Cut(_, i, j) => c.(up := c.up[..i], down := c.down[..j], cut := true)
    case OtherSends(_, bytes) => PushUp(c, Sent(bytes, Handshake))
  }

  lemma MovedKeeps(self: NodeId, fp: u64, c: Conn, step: Step)
    requires OnConn(step) && CanMove(c, step) && ConnInv(self, fp, c)
    ensures ConnInv(self, fp, Moved(c, step)) && Calmer(c, Moved(c, step))
  {
    hide ServeHello, ServeRequest, Encode, DecodeHello, ConnInv, Calmer;
    match step
    case ServerHello(_) => ServeHelloKeeps(self, fp, c);
    case ServerRequest(_, reply) => ServeRequestKeeps(self, fp, c, reply);
    case ServerGone(_) => GoneKeeps(self, fp, c);
    case Cut(_, i, j) => CutKeeps(self, fp, c, i, j);
    case OtherSends(_, bytes) => OthersFrameKeeps(self, fp, c, bytes);
  }

  lemma OnConnApplies(s: State, step: Step)
    requires Enabled(s, step) && OnConn(step)
    ensures step.cid < |s.conns| && CanMove(s.conns[step.cid], step)
    ensures Apply(s, step) == SetConn(s, step.cid, Moved(s.conns[step.cid], step))
  {
    hide ServeHello, ServeRequest, SetConn, PushUp;
  }

  lemma OthersKeep(s: State, step: Step)
    requires Inv(s) && Enabled(s, step) && OnConn(step)
    ensures Inv(Apply(s, step))
  {
    OnConnApplies(s, step);
    var c := s.conns[step.cid];
    assert ConnInv(s.self, s.fp, c);
    hide *;
    MovedKeeps(s.self, s.fp, c, step);
    CalmerKeeps(s, step.cid, Moved(c, step));
  }

  lemma SamePhase(s: State, t: State)
    requires PhaseInv(s) && PoolInv(s) && t.phase == s.phase && t.pool == s.pool && s.conns <= t.conns
    ensures PhaseInv(t)
  {
    hide AllTagged;
    if s.phase.AwaitReply? {
      assert PooledInv(s, s.phase.job.node);
    }
  }

  lemma OtherConnectsKeeps(s: State, serverFp: u64)
    requires Inv(s)
    ensures Inv(Apply(s, OtherConnects(serverFp)))
  {
    var c := Opened(false, s.self, serverFp, []);
    var t := s.(conns := s.conns + [c]);
    assert ConnInv(s.self, s.fp, c);
    hide ConnInv, OutcomeInv, PoolInv, ConnsInv;
    JoinedKeeps(s, c);
    SamePhase(s, t);
  }

  lemma StepKeeps(s: State, step: Step)
    requires Inv(s) && Enabled(s, step)
    ensures Inv(Apply(s, step))
  {
    hide Inv, Apply;
    match step
    case StartCall(_, _) => StartKeeps(s, step);
    case StartVerify(_) => StartKeeps(s, step);
    case VerifyNext => StartKeeps(s, step);
    case LoopExit => LoopNeverExits(s);
    case ConnectRefused => ConnectRefusedKeeps(s);
    case ConnectAccepted(serverFp) => ConnectKeeps(s, serverFp);
    case ReadAck => ReadAckKeeps(s);
    case ReadAckFailed => ReadAckFailedKeeps(s);
    case WriteRequest => WriteRequestKeeps(s);
    case WriteRequestFailed(delivered) => WriteRequestFailedKeeps(s, delivered);
    case ReadReply => ReadReplyKeeps(s);
    case ReadReplyFailed => ReadReplyFailedKeeps(s);
    case ServerHello(_) => OthersKeep(s, step);
    case ServerRequest(_, _) => OthersKeep(s, step);
    case ServerGone(_) => OthersKeep(s, step);
    case Cut(_, _, _) => OthersKeep(s, step);
    case OtherConnects(serverFp) => OtherConnectsKeeps(s, serverFp);
    case OtherSends(_, _) => OthersKeep(s, step);
  }

  // ---- runs -----------------------------------------------------------------------------------

  /** `steps` can be taken one after the other from `s`, ending in `end`. */
  ghost predicate Run(s: State, steps: seq<Step>, end: State)
    decreases |steps|
  {
    if steps == [] then s == end
    else Enabled(s, steps[0]) && Run(Apply(s, steps[0]), steps[1..], end)
  }

  lemma {:induction false} RunKeeps(s: State, steps: seq<Step>, end: State)
    requires Inv(s) && Run(s, steps, end)
    ensures Inv(end) && end.fp == s.fp && end.self == s.self
    decreases |steps|
  {
    if steps != [] {
      StepKeeps(s, steps[0]);
      SameIdentity(s, steps[0]);
      RunKeeps(Apply(s, steps[0]), steps[1..], end);
    }
  }

  lemma SameIdentity(s: State, step: Step)
    requires Enabled(s, step)
    ensures Apply(s, step).fp == s.fp && Apply(s, step).self == s.self
  {
  }

  lemma RunFromInit(self: NodeId, fp: u64, peers: set<NodeId>, steps: seq<Step>, s: State)
    requires Run(Init(self, fp, peers), steps, s)
    ensures Inv(s) && s.fp == fp
  {
    RunKeeps(Init(self, fp, peers), steps, s);
  }

  /** In every run, a handler is only ever called on a connection whose first frame was a hello carrying
      the server's fingerprint, whoever opened it and whatever else they sent. */
  lemma HandlersRunOnlyAfterMatchingHello(self: NodeId, fp: u64, peers: set<NodeId>, steps: seq<Step>, s: State,
                                          cid: ConnId)
    requires Run(Init(self, fp, peers), steps, s) && cid < |s.conns|
    ensures s.conns[cid].handled > 0 ==> Greeted(s.conns[cid])
  {
    RunFromInit(self, fp, peers, steps, s);
    assert ConnInv(s.self, s.fp, s.conns[cid]);
  }

  /** In every run, the client never writes a request frame to a server with another map. */
  lemma RequestsOnlyReachTheSameMap(self: NodeId, fp: u64, peers: set<NodeId>, steps: seq<Step>, s: State, cid: ConnId)
    requires Run(Init(self, fp, peers), steps, s) && cid < |s.conns|
    requires s.conns[cid].mine && s.conns[cid].serverFp != fp
    ensures s.conns[cid].requests == 0 && AllTagged(s.conns[cid], Handshake)
  {
    RunFromInit(self, fp, peers, steps, s);
    assert ConnInv(s.self, s.fp, s.conns[cid]);
  }

  /** In every run, each finished call sent at most twice, an answer it returned answers that very call's
      payload, and a reported mismatch was real and ended the call. The loop's final statement is not reached. */
  lemma CallsAreAnsweredByTheirOwnReply(self: NodeId, fp: u64, peers: set<NodeId>, steps: seq<Step>, s: State, i: nat)
    requires Run(Init(self, fp, peers), steps, s)
    ensures !s.phase.Unreachable?
    ensures i < |s.outcomes| ==>
      var o := s.outcomes[i];
      && o.sends <= 2
      && (o.reply.Answer? ==> o.reply.tag == For(o.call, o.payload))
      && (o.reply.Mismatch? ==> o.reply.remote != fp && o.sends <= 1)
  {
    RunFromInit(self, fp, peers, steps, s);
    if i < |s.outcomes| {
      assert OutcomeInv(s.fp, s.outcomes[i]);
    }
  }

  /** In every run, a request frame of the client carries the payload of the call it is for, so the answer that
      comes back under the call's tag was made from that payload's bytes. */
  lemma RequestFramesCarryTheirPayload(self: NodeId, fp: u64, peers: set<NodeId>, steps: seq<Step>, s: State,
                                       cid: ConnId, reply: Octets)
    requires Run(Init(self, fp, peers), steps, s) && Enabled(s, ServerRequest(cid, reply)) && s.conns[cid].mine
    ensures var c, d := s.conns[cid], Apply(s, ServerRequest(cid, reply)).conns[cid];
            && c.up[0].tag.For? && c.up[0].bytes == c.up[0].tag.payload
            && (d.handled > c.handled ==> c.cut || d.down == c.down + [Sent(reply, c.up[0].tag)])
  {
    RunFromInit(self, fp, peers, steps, s);
    assert ConnInv(s.self, s.fp, s.conns[cid]);
    hide ConnInv, ServeRequest, Inv, Run;
    HandledIsPayload(s.self, s.fp, s.conns[cid], reply);
  }

  lemma HandledIsPayload(self: NodeId, fp: u64, c: Conn, reply: Octets)
    requires ConnInv(self, fp, c) && c.mine && c.server == Serving && c.up != []
    ensures c.up[0].tag.For? && c.up[0].bytes == c.up[0].tag.payload
    ensures var d := ServeRequest(c, reply);
            d.handled > c.handled ==> c.cut || d.down == c.down + [Sent(reply, c.up[0].tag)]
  {
    hide Encode, DecodeHello, DecodeRequest, DecodeAttnRequest;
    assert c.up[0].tag != Handshake;
  }

  // ---- every call ends ------------------------------------------------------------------------

  /** The steps the calling thread takes on its own account; the others belong to servers, peers and the network. */
  predicate ClientStep(step: Step) {
    step.VerifyNext? || step.ConnectRefused? || step.ConnectAccepted? || step.ReadAck? || step.ReadAckFailed?
    || step.WriteRequest? || step.WriteRequestFailed? || step.ReadReply? || step.ReadReplyFailed?
  }

  /** How many steps of its own a job has left at most: five for a second attempt of a call, four for each target
      still to verify. */
  function Fuel(s: State): nat {
    match s.phase
    case Idle => 0
    case Unreachable => 0
    case Top(job) =>
      1 + JobFuel(job) + (if JobNode(job).Some? && JobNode(job).value !in s.pool then 3 else if job.Call? then 1 else 0)
    case AwaitAck(job, _) => 3 + JobFuel(job)
    case AwaitReply(job, _) => 1 + JobFuel(job)
  }

  function JobFuel(job: Job): nat {
    match job
    case Call(_, _, _, attempt, _) => if attempt == 0 then 5 else 0
    case Verify(rest) => 4 * |rest|
  }

  /** Steps of servers, peers and the network leave the client where it is. */
  lemma OthersLeaveClient(s: State, step: Step)
    requires Enabled(s, step) && s.phase != Idle && !ClientStep(step) && !step.LoopExit?
    ensures Apply(s, step).phase == s.phase && Apply(s, step).pool == s.pool
  {
    if OnConn(step) {
      OnConnApplies(s, step);
      hide Apply, Enabled, Moved, CanMove;
    } else {
      hide OnConn;
    }
  }

  predicate Connecting(step: Step) {
    step.VerifyNext? || step.ConnectRefused? || step.ConnectAccepted? || step.ReadAck? || step.ReadAckFailed?
  }

  lemma ConnectingSpends(s: State, step: Step)
    requires Inv(s) && Enabled(s, step) && Connecting(step)
    ensures Fuel(Apply(s, step)) < Fuel(s)
  {
    hide ConnsInv, PoolInv, OutcomesInv, Encode, DecodeHelloAck;
  }

  lemma ExchangeSpends(s: State, step: Step)
    requires Inv(s) && Enabled(s, step) && ClientStep(step) && !Connecting(step)
    ensures Fuel(Apply(s, step)) < Fuel(s)
  {
    hide ConnsInv, PoolInv, OutcomesInv, PushUp, AllTagged;
  }

  /** A call or verification ends within a fixed number of the caller's own steps, whatever faults occur. */
  lemma EveryCallEnds(s: State, step: Step)
    requires Inv(s) && Enabled(s, step) && s.phase != Idle
    ensures ClientStep(step) ==> Fuel(Apply(s, step)) < Fuel(s)
    ensures !ClientStep(step) ==> Fuel(Apply(s, step)) == Fuel(s)
    ensures s.phase.Top? && s.phase.job.Call? && s.phase.job.attempt == 0 ==> Fuel(s) <= 9
  {
    hide Inv, Apply, Enabled;
    LoopNeverExits(s);
    if !ClientStep(step) {
      OthersLeaveClient(s, step);
    } else if Connecting(step) {
      ConnectingSpends(s, step);
    } else {
      ExchangeSpends(s, step);
    }
  }

  /** While a job is under way the caller always has a step of its own: a call never hangs on the model's side. */
  lemma AlwaysAStep(s: State) returns (step: Step)
    requires Inv(s) && s.phase != Idle
    ensures ClientStep(step) && Enabled(s, step)
  {
    match s.phase
    case Unreachable =>
      assert false;
      step := VerifyNext;
    case AwaitAck(_, _) => step := ReadAckFailed;
    case AwaitReply(_, _) => step := ReadReplyFailed;
    case Top(job) =>
      if NeedsConnection(s) {
        step := ConnectRefused;
      } else if job.Verify? {
        step := VerifyNext;
      } else {
        PooledIsThere(s, job.node);
        step := WriteRequest;
      }
  }

  lemma PooledIsThere(s: State, node: NodeId)
    requires Inv(s)
    ensures node in s.pool ==> s.pool[node] < |s.conns|
  {
    if node in s.pool {
      assert PooledInv(s, node);
    }
  }

  /** The steps of `steps` the caller takes itself. */
  function OwnSteps(steps: seq<Step>): nat {
    if steps == [] then 0 else (if ClientStep(steps[0]) then 1 else 0) + OwnSteps(steps[1..])
  }

  /** The run stays within one job: the caller is idle at most at its end. */
  ghost predicate WithinJob(s: State, steps: seq<Step>, end: State)
    requires Run(s, steps, end)
    decreases |steps|
  {
    steps == [] || (s.phase != Idle && WithinJob(Apply(s, steps[0]), steps[1..], end))
  }

  /** Within a job, the caller takes at most as many steps of its own as the job has left at the start. */
  lemma {:induction false} JobIsBounded(s: State, steps: seq<Step>, end: State)
    requires Inv(s) && Run(s, steps, end) && WithinJob(s, steps, end)
    ensures OwnSteps(steps) + Fuel(end) <= Fuel(s)
    decreases |steps|
  {
    hide Inv, Enabled, Apply, Fuel, ClientStep;
    if steps != [] {
      EveryCallEnds(s, steps[0]);
      StepKeeps(s, steps[0]);
      JobIsBounded(Apply(s, steps[0]), steps[1..], end);
    }
  }

  /** From anywhere within a job, steps of the caller alone end it. */
  lemma {:induction false} JobCanEnd(s: State) returns (steps: seq<Step>, end: State)
    requires Inv(s)
    ensures Run(s, steps, end) && end.phase == Idle && |steps| <= Fuel(s)
    ensures forall i :: 0 <= i < |steps| ==> ClientStep(steps[i])
    decreases Fuel(s)
  {
    hide Inv, Enabled, Apply, Fuel, ClientStep;
    if s.phase == Idle {
      steps, end := [], s;
    } else {
      var step := AlwaysAStep(s);
      EveryCallEnds(s, step);
      StepKeeps(s, step);
      var more;
      more, end := JobCanEnd(Apply(s, step));
      steps := [step] + more;
      assert steps[1..] == more;
    }
  }

  /** A call takes at most nine steps of the caller, whatever everyone else does meanwhile. */
  lemma CallTakesAtMostNine(s: State, node: NodeId, payload: Octets, steps: seq<Step>, end: State)
    requires Inv(s) && Enabled(s, StartCall(node, payload))
    requires Run(Apply(s, StartCall(node, payload)), steps, end)
    requires WithinJob(Apply(s, StartCall(node, payload)), steps, end)
    ensures OwnSteps(steps) <= 9
  {
    StepKeeps(s, StartCall(node, payload));
    StartFuel(s, node, payload);
    hide Inv, Enabled, Apply, Fuel, Run;
    JobIsBounded(Apply(s, StartCall(node, payload)), steps, end);
  }

  lemma StartFuel(s: State, node: NodeId, payload: Octets)
    requires Enabled(s, StartCall(node, payload))
    ensures Fuel(Apply(s, StartCall(node, payload))) <= 9
  {
  }
}
