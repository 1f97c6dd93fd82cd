/** How a call goes: answered when nothing fails, retried once on a fresh connection when something does, and given up
    after the second failure. */
module TransportRetry {
  import opened Octets
  import opened Wrappers
  import opened Codec
  import opened Transport
  import opened TransportSafety

  // ---- one failing step -------------------------------------------------------------------------------------------

  /** The connection could not be made, the ack was not read or not understood, the request was not written, or the
      reply was not read. */
  ghost predicate Fails(s: State, step: Step) {
    match step
    case ConnectRefused => true
    case ReadAckFailed => true
    case WriteRequestFailed(_) => true
    case ReadReplyFailed => true
    case ReadAck =>
      s.phase.AwaitAck? && s.phase.cid < |s.conns| && s.conns[s.phase.cid].down != []
      && DecodeHelloAck(s.conns[s.phase.cid].down[0].bytes).Failed?
    case _ => false
  }

  /** The step used the pooled connection. */
  predicate OnPooled(step: Step) {
    step.WriteRequestFailed? || step.ReadReplyFailed?
  }

  /** A call to `node` is under way, at this attempt and with this many sends. */
  ghost predicate UnderWay(s: State, node: NodeId, payload: Octets, call: nat, attempt: nat, sends: nat) {
    match s.phase
    case Top(job) => job == Call(node, payload, call, attempt, sends)
    case AwaitAck(job, _) => job == Call(node, payload, call, attempt, sends)
    case AwaitReply(job, _) => job == Call(node, payload, call, attempt, sends)
    case _ => false
  }

  /** The first failure of a call ends nothing: it starts over, and a connection that failed is not used again. */
  lemma FirstFailureRetries(s: State, step: Step, node: NodeId, payload: Octets, call: nat, sends: nat)
    requires Inv(s) && Enabled(s, step) && Fails(s, step) && UnderWay(s, node, payload, call, 0, sends)
    ensures var t := Apply(s, step);
            && t.phase == Top(Call(node, payload, call, 1, if step.WriteRequestFailed? then sends + 1 else sends))
            && t.outcomes == s.outcomes && (OnPooled(step) ==> node !in t.pool)
  {
    hide ConnsInv, PoolInv, OutcomesInv, PushUp, DecodeHelloAck;
  }

  /** The second one ends it with an I/O error. */
  lemma SecondFailureEnds(s: State, step: Step, node: NodeId, payload: Octets, call: nat, sends: nat)
    requires Inv(s) && Enabled(s, step) && Fails(s, step) && UnderWay(s, node, payload, call, 1, sends)
    ensures var t := Apply(s, step);
            && t.phase == Idle && (OnPooled(step) ==> node !in t.pool)
            && t.outcomes
                == s.outcomes + [Outcome(call, payload, if step.WriteRequestFailed? then sends + 1 else sends, IoError)]
  {
    hide ConnsInv, PoolInv, OutcomesInv, PushUp, DecodeHelloAck;
  }

  // ---- the other steps of a call -----------------------------------------------------------------------------------

  /** An ack that is read decides: equal fingerprints put the connection into the pool and the call goes on with it,
      other ones end the call with the server's fingerprint. */
  lemma AckDecides(s: State, node: NodeId, payload: Octets, call: nat, attempt: nat, sends: nat)
    requires Inv(s) && Enabled(s, ReadAck) && UnderWay(s, node, payload, call, attempt, sends)
    ensures !Fails(s, ReadAck)
    ensures var t, remote := Apply(s, ReadAck), s.conns[s.phase.cid].serverFp;
            if remote == s.fp then
              && t.phase == Top(Call(node, payload, call, attempt, sends)) && t.outcomes == s.outcomes
              && t.pool == s.pool[node := s.phase.cid]
            else
              t.phase == Idle && t.outcomes == s.outcomes + [Outcome(call, payload, sends, Mismatch(remote))]
  {
    AckIsVerdict(s);
    hide Inv, DecodeHelloAck, ConnInv;
  }

  /** A reply that is read ends the call with it, and the connection stays pooled for the next one. */
  lemma ReplyEnds(s: State, node: NodeId, payload: Octets, call: nat, attempt: nat, sends: nat)
    requires Inv(s) && Enabled(s, ReadReply) && UnderWay(s, node, payload, call, attempt, sends)
    ensures var t, f := Apply(s, ReadReply), s.conns[s.phase.cid].down[0];
            && t.phase == Idle && t.pool == s.pool && node in t.pool
            && t.outcomes == s.outcomes + [Outcome(call, payload, sends, Answer(f.bytes, f.tag))]
  {
    hide ConnsInv, OutcomesInv, PooledInv, AllTagged;
  }

  /** The remaining steps of the caller leave the attempt and the outcomes as they are. */
  lemma GoesOn(s: State, step: Step, node: NodeId, payload: Octets, call: nat, attempt: nat, sends: nat)
    requires Enabled(s, step) && UnderWay(s, node, payload, call, attempt, sends)
    requires step.ConnectAccepted? || step.WriteRequest?
    ensures UnderWay(Apply(s, step), node, payload, call, attempt, if step.WriteRequest? then sends + 1 else sends)
    ensures Apply(s, step).outcomes == s.outcomes
  {
    hide PushUp;
  }

  lemma OthersPassBy(s: State, step: Step)
    requires Inv(s) && Enabled(s, step) && !ClientStep(step) && s.phase != Idle
    ensures Apply(s, step).phase == s.phase && Apply(s, step).outcomes == s.outcomes && !Fails(s, step)
  {
    LoopNeverExits(s);
    OthersLeaveClient(s, step);
    hide Inv;
    if OnConn(step) {
      OnConnApplies(s, step);
      hide Apply, Enabled, Moved, CanMove;
    }
  }

  // ---- over a whole call --------------------------------------------------------------------------------------------

  /** After `f` failed steps the call is under way at attempt `f`, or it has ended: with an I/O error if there were
      two. */
  ghost predicate Stands(s: State, node: NodeId, payload: Octets, call: nat, before: seq<Outcome>, f: nat) {
    if s.phase == Idle then
      && |s.outcomes| == |before| + 1 && s.outcomes[..|before|] == before
      && var o := s.outcomes[|before|];
         o.call == call && o.payload == payload && f <= 2 && (o.reply.IoError? <==> f == 2)
    else
      f <= 1 && s.outcomes == before && exists sends: nat :: UnderWay(s, node, payload, call, f, sends)
  }

  ghost function Failures(s: State, steps: seq<Step>, end: State): nat
    requires Run(s, steps, end)
    decreases |steps|
  {
    if steps == [] then 0
    else (if Fails(s, steps[0]) then 1 else 0) + Failures(Apply(s, steps[0]), steps[1..], end)
  }

  lemma EndedWith(before: seq<Outcome>, o: Outcome, s: State, node: NodeId, f: nat)
    requires s.phase == Idle && s.outcomes == before + [o] && f <= 2 && (o.reply.IoError? <==> f == 2)
    ensures Stands(s, node, o.payload, o.call, before, f)
  {
  }

  lemma StillUnderWay(s: State, node: NodeId, payload: Octets, call: nat, before: seq<Outcome>, f: nat, sends: nat)
    requires f <= 1 && s.outcomes == before && UnderWay(s, node, payload, call, f, sends)
    ensures Stands(s, node, payload, call, before, f)
  {
  }

  lemma StandsStep(s: State, step: Step, node: NodeId, payload: Octets, call: nat, before: seq<Outcome>, f: nat)
    requires Inv(s) && Enabled(s, step) && s.phase != Idle && Stands(s, node, payload, call, before, f)
    ensures Stands(Apply(s, step), node, payload, call, before, if Fails(s, step) then f + 1 else f)
  {
    assert f <= 1 && s.outcomes == before;
    var sends: nat :| UnderWay(s, node, payload, call, f, sends);
    var t := Apply(s, step);
    hide Inv, Apply, Enabled, Stands, UnderWay;
    if !ClientStep(step) {
      OthersPassBy(s, step);
      SamePlace(s, t, node, payload, call, f, sends);
      StillUnderWay(t, node, payload, call, before, f, sends);
    } else if step.ReadAck? {
      AckStep(s, node, payload, call, before, f, sends);
    } else if step.ReadReply? {
      ReplyEnds(s, node, payload, call, f, sends);
      var m := s.conns[s.phase.cid].down[0];
      EndedWith(before, Outcome(call, payload, sends, Answer(m.bytes, m.tag)), t, node, f);
    } else if Fails(s, step) {
      FailureStep(s, step, node, payload, call, before, f, sends);
    } else {
      NotVerifying(s, step, node, payload, call, f, sends);
      GoesOn(s, step, node, payload, call, f, sends);
      StillUnderWay(t, node, payload, call, before, f, if step.WriteRequest? then sends + 1 else sends);
    }
  }

  lemma SamePlace(s: State, t: State, node: NodeId, payload: Octets, call: nat, f: nat, sends: nat)
    requires UnderWay(s, node, payload, call, f, sends) && t.phase == s.phase
    ensures UnderWay(t, node, payload, call, f, sends)
  {
  }

  lemma NotVerifying(s: State, step: Step, node: NodeId, payload: Octets, call: nat, f: nat, sends: nat)
    requires Enabled(s, step) && UnderWay(s, node, payload, call, f, sends) && ClientStep(step)
    ensures !step.VerifyNext?
  {
  }

  lemma AckStep(s: State, node: NodeId, payload: Octets, call: nat, before: seq<Outcome>, f: nat, sends: nat)
    requires Inv(s) && Enabled(s, ReadAck) && UnderWay(s, node, payload, call, f, sends) && f <= 1
    requires s.outcomes == before
    ensures !Fails(s, ReadAck) && Stands(Apply(s, ReadAck), node, payload, call, before, f)
  {
    AckDecides(s, node, payload, call, f, sends);
    var t, remote := Apply(s, ReadAck), s.conns[s.phase.cid].serverFp;
    hide Inv, Apply, Enabled, Fails;
    if remote == s.fp {
      StillUnderWay(t, node, payload, call, before, f, sends);
    } else {
      EndedWith(before, Outcome(call, payload, sends, Mismatch(remote)), t, node, f);
    }
  }

  lemma FailureStep(s: State, step: Step, node: NodeId, payload: Octets, call: nat, before: seq<Outcome>, f: nat,
                    sends: nat)
    requires Inv(s) && Enabled(s, step) && Fails(s, step) && UnderWay(s, node, payload, call, f, sends)
    requires f <= 1 && s.outcomes == before
    ensures Stands(Apply(s, step), node, payload, call, before, f + 1)
  {
    var t := Apply(s, step);
    var sent := if step.WriteRequestFailed? then sends + 1 else sends;
    if f == 0 {
      FirstFailureRetries(s, step, node, payload, call, sends);
      hide Inv, Apply, Enabled, Fails;
      StillUnderWay(t, node, payload, call, before, 1, sent);
    } else {
      SecondFailureEnds(s, step, node, payload, call, sends);
      hide Inv, Apply, Enabled, Fails;
      EndedWith(before, Outcome(call, payload, sent, IoError), t, node, 2);
    }
  }

  lemma {:induction false} StandsThroughout(s: State, steps: seq<Step>, end: State, node: NodeId, payload: Octets,
                                            call: nat, before: seq<Outcome>, f: nat)
    requires Inv(s) && Run(s, steps, end) && WithinJob(s, steps, end) && Stands(s, node, payload, call, before, f)
    ensures Stands(end, node, payload, call, before, f + Failures(s, steps, end))
    decreases |steps|
  {
    hide Inv, Enabled, Apply, Stands, Fails;
    if steps != [] {
      StandsStep(s, steps[0], node, payload, call, before, f);
      StepKeeps(s, steps[0]);
      StandsThroughout(Apply(s, steps[0]), steps[1..], end, node, payload, call, before,
                       f + if Fails(s, steps[0]) then 1 else 0);
    }
  }

  /** A call to a known peer ends with one outcome of its own, and that is an I/O error if and only if two of its steps
      failed; after one failure it goes on. */
  lemma CallEndsAfterTwoFailures(s: State, node: NodeId, payload: Octets, steps: seq<Step>, end: State)
    requires Inv(s) && s.phase == Idle && node in s.peers
    requires Run(Apply(s, StartCall(node, payload)), steps, end)
    requires WithinJob(Apply(s, StartCall(node, payload)), steps, end)
    ensures end.phase != Idle ==>
              Failures(Apply(s, StartCall(node, payload)), steps, end) <= 1 && end.outcomes == s.outcomes
    ensures end.phase == Idle ==> |end.outcomes| == |s.outcomes| + 1 && end.outcomes[..|s.outcomes|] == s.outcomes
    ensures end.phase == Idle ==>
              var o, f := end.outcomes[|s.outcomes|], Failures(Apply(s, StartCall(node, payload)), steps, end);
              o.call == s.calls && o.payload == payload && f <= 2 && (o.reply.IoError? <==> f == 2)
  {
    var start := Apply(s, StartCall(node, payload));
    StepKeeps(s, StartCall(node, payload));
    StillUnderWay(start, node, payload, s.calls, s.outcomes, 0, 0);
    hide Inv, Apply, Run, Fails;
    StandsThroughout(start, steps, end, node, payload, s.calls, s.outcomes, 0);
  }

  /** A call to a node that is no peer ends at once, unsent. */
  lemma UnknownPeerEnds(s: State, node: NodeId, payload: Octets)
    requires Enabled(s, StartCall(node, payload)) && node !in s.peers
    ensures var t := Apply(s, StartCall(node, payload));
            t.phase == Idle && t.conns == s.conns && t.outcomes == s.outcomes + [Outcome(s.calls, payload, 0, IoError)]
  {
  }

  // ---- a call when nothing fails ------------------------------------------------------------------------------------

  /** A frame the server's loop dispatches to a handler. */
  predicate IsRequest(payload: Octets) {
    DecodeRequest(payload).Got? || DecodeAttnRequest(payload).Got?
  }

  lemma Connects(s: State, node: NodeId, payload: Octets, call: nat) returns (t: State)
    requires s.phase == Top(Call(node, payload, call, 0, 0)) && node !in s.pool
    ensures Enabled(s, ConnectAccepted(s.fp)) && t == Apply(s, ConnectAccepted(s.fp))
    ensures t == s.(conns := s.conns + [Opened(true, node, s.fp, [HelloFrame(s)])],
                    phase := AwaitAck(Call(node, payload, call, 0, 0), |s.conns|))
  {
    t := Apply(s, ConnectAccepted(s.fp));
  }

  /** The server's answer to a hello with its own fingerprint: it accepts and serves. */
  lemma Accepts(self: NodeId, fp: u64, c: Conn)
    requires c.server == AwaitHello && !c.cut && c.up == [Sent(Encode(Hello(self, fp)), Handshake)] && c.serverFp == fp
    ensures ServeHello(c) == c.(up := [], first := Some(Encode(Hello(self, fp))), server := Serving,
                                down := c.down + [Sent(Encode(HelloAck(true, fp)), Handshake)])
  {
    HelloDecodes(self, fp);
    hide Encode, DecodeHello;
    assert c.up[1..] == [];
  }

  /** A request on a served connection: handled once, and its reply goes out. */
  lemma Answers(c: Conn, payload: Octets, tag: Tag, reply: Octets)
    requires c.server == Serving && !c.cut && c.up == [Sent(payload, tag)] && IsRequest(payload)
    ensures ServeRequest(c, reply) == c.(up := [], down := c.down + [Sent(reply, tag)], handled := c.handled + 1)
  {
    hide DecodeRequest, DecodeAttnRequest;
    assert c.up[1..] == [];
  }

  /** The connection after its hello was accepted. */
  function AfterHello(c: Conn, self: NodeId, fp: u64): Conn {
    c.(up := [], first := Some(Encode(Hello(self, fp))), server := Serving,
       down := [Sent(Encode(HelloAck(true, fp)), Handshake)])
  }

  lemma HelloServed(s: State, node: NodeId, cid: ConnId, c: Conn) returns (t: State)
    requires cid < |s.conns| && s.conns[cid] == c == Opened(true, node, s.fp, [HelloFrame(s)])
    ensures Enabled(s, ServerHello(cid)) && t == Apply(s, ServerHello(cid))
    ensures t == s.(conns := s.conns[cid := AfterHello(c, s.self, s.fp)])
  {
    hide ServeHello, Encode, AfterHello, Opened, HelloFrame;
    IsGreeted(s, node, c);
    t := Apply(s, ServerHello(cid));
  }

  lemma IsGreeted(s: State, node: NodeId, c: Conn)
    requires c == Opened(true, node, s.fp, [HelloFrame(s)])
    ensures c.server == AwaitHello && c.up != [] && ServeHello(c) == AfterHello(c, s.self, s.fp)
  {
    Accepts(s.self, s.fp, c);
    hide ServeHello, Encode;
    assert [] + [Sent(Encode(HelloAck(true, s.fp)), Handshake)] == [Sent(Encode(HelloAck(true, s.fp)), Handshake)];
  }

  lemma AckRead(s: State, node: NodeId, payload: Octets, call: nat, cid: ConnId, c: Conn) returns (t: State)
    requires s.phase == AwaitAck(Call(node, payload, call, 0, 0), cid) && cid < |s.conns| && s.conns[cid] == c
    requires c.down == [Sent(Encode(HelloAck(true, s.fp)), Handshake)]
    ensures Enabled(s, ReadAck) && t == Apply(s, ReadAck)
    ensures t == s.(conns := s.conns[cid := c.(down := [])], pool := s.pool[node := cid],
                    phase := Top(Call(node, payload, call, 0, 0)))
  {
    AckDecodes(true, s.fp);
    hide Encode, DecodeHelloAck;
    assert c.down[1..] == [];
    t := Apply(s, ReadAck);
  }

  lemma RequestWritten(s: State, node: NodeId, payload: Octets, call: nat, cid: ConnId, c: Conn) returns (t: State)
    requires s.phase == Top(Call(node, payload, call, 0, 0)) && node in s.pool && s.pool[node] == cid
    requires cid < |s.conns| && s.conns[cid] == c && !c.cut && c.up == []
    ensures Enabled(s, WriteRequest) && t == Apply(s, WriteRequest)
    ensures var d := c.(up := [Sent(payload, For(call, payload))], requests := c.requests + 1);
            t == s.(conns := s.conns[cid := d], phase := AwaitReply(Call(node, payload, call, 0, 1), cid))
  {
    assert [] + [Sent(payload, For(call, payload))] == [Sent(payload, For(call, payload))];
    t := Apply(s, WriteRequest);
  }

  /** The connection after a request was handled and its reply sent. */
  function AfterReply(c: Conn, tag: Tag, reply: Octets): Conn {
    c.(up := [], down := [Sent(reply, tag)], handled := c.handled + 1)
  }

  lemma RequestServed(s: State, payload: Octets, tag: Tag, reply: Octets, cid: ConnId, c: Conn) returns (t: State)
    requires cid < |s.conns| && s.conns[cid] == c && c.server == Serving && !c.cut
    requires c.up == [Sent(payload, tag)] && c.down == [] && IsRequest(payload)
    ensures Enabled(s, ServerRequest(cid, reply)) && t == Apply(s, ServerRequest(cid, reply))
    ensures t == s.(conns := s.conns[cid := AfterReply(c, tag, reply)])
  {
    hide ServeRequest, IsRequest, AfterReply;
    IsReplied(c, payload, tag, reply);
    t := Apply(s, ServerRequest(cid, reply));
  }

  lemma IsReplied(c: Conn, payload: Octets, tag: Tag, reply: Octets)
    requires c.server == Serving && !c.cut && c.up == [Sent(payload, tag)] && c.down == [] && IsRequest(payload)
    ensures ServeRequest(c, reply) == AfterReply(c, tag, reply)
  {
    Answers(c, payload, tag, reply);
    hide ServeRequest, IsRequest;
    assert [] + [Sent(reply, tag)] == [Sent(reply, tag)];
  }

  lemma ReplyRead(s: State, job: Job, cid: ConnId, reply: Octets) returns (t: State)
    requires job.Call? && s.phase == AwaitReply(job, cid) && cid < |s.conns|
    requires s.conns[cid].down == [Sent(reply, For(job.call, job.payload))]
    ensures Enabled(s, ReadReply) && t == Apply(s, ReadReply)
    ensures t.phase == Idle && t.pool == s.pool
    ensures t.outcomes
            == s.outcomes + [Outcome(job.call, job.payload, job.sends, Answer(reply, For(job.call, job.payload)))]
  {
    t := Apply(s, ReadReply);
  }

  lemma Then(s: State, steps: seq<Step>, t: State, step: Step, u: State)
    requires Run(s, steps, t) && Enabled(t, step) && u == Apply(t, step)
    ensures Run(s, steps + [step], u)
    decreases |steps|
  {
    hide Enabled, Apply;
    if steps == [] {
      assert (steps + [step])[1..] == [] && (steps + [step])[0] == step;
    } else {
      Then(Apply(s, steps[0]), steps[1..], t, step, u);
      assert (steps + [step])[1..] == steps[1..] + [step];
    }
  }

  /** When nothing fails, a call to a peer with the same map is sent once, answered with what the server's handler
      replied, and leaves the connection pooled. */
  lemma FaultFreeCallIsAnswered(s: State, node: NodeId, payload: Octets, reply: Octets)
    returns (steps: seq<Step>, end: State)
    requires s.phase == Idle && node in s.peers && node !in s.pool && IsRequest(payload)
    ensures Run(s, steps, end) && end.phase == Idle && node in end.pool
    ensures end.outcomes == s.outcomes + [Outcome(s.calls, payload, 1, Answer(reply, For(s.calls, payload)))]
  {
    var cid, call := |s.conns|, s.calls;
    var s1 := Apply(s, StartCall(node, payload));
    assert Run(s, [], s);
    Then(s, [], s, StartCall(node, payload), s1);
    hide Enabled, Apply, Run, IsRequest, Encode;
    var s2 := Connects(s1, node, payload, call);
    var s3 := HelloServed(s2, node, cid, s2.conns[cid]);
    var s4 := AckRead(s3, node, payload, call, cid, s3.conns[cid]);
    var s5 := RequestWritten(s4, node, payload, call, cid, s4.conns[cid]);
    var s6 := RequestServed(s5, payload, For(call, payload), reply, cid, s5.conns[cid]);
    end := ReplyRead(s6, Call(node, payload, call, 0, 1), cid, reply);
    steps := [] + [StartCall(node, payload)];
    Then(s, steps, s1, ConnectAccepted(s1.fp), s2);
    Then(s, steps + [ConnectAccepted(s1.fp)], s2, ServerHello(cid), s3);
    Then(s, steps + [ConnectAccepted(s1.fp)] + [ServerHello(cid)], s3, ReadAck, s4);
    steps := steps + [ConnectAccepted(s1.fp)] + [ServerHello(cid)] + [ReadAck];
    Then(s, steps, s4, WriteRequest, s5);
    Then(s, steps + [WriteRequest], s5, ServerRequest(cid, reply), s6);
    Then(s, steps + [WriteRequest] + [ServerRequest(cid, reply)], s6, ReadReply, end);
    steps := steps + [WriteRequest] + [ServerRequest(cid, reply)] + [ReadReply];
  }

  // ---- verifying peers ----------------------------------------------------------------------------------------------

  /** Every target is still to come or pooled. */
  ghost predicate Verifying(s: State, targets: seq<NodeId>) {
    match s.phase
    case Top(Verify(rest)) => forall t :: t in targets ==> t in rest || t in s.pool
    case AwaitAck(Verify(rest), _) => forall t :: t in targets ==> t in rest || t in s.pool
    case Idle => true
    case _ => false
  }

  lemma VerifyStep(s: State, step: Step, targets: seq<NodeId>)
    requires Inv(s) && Enabled(s, step) && s.phase != Idle && Verifying(s, targets)
    ensures Verifying(Apply(s, step), targets)
    ensures Fails(s, step) ==> Apply(s, step).phase == Idle
  {
    if !ClientStep(step) {
      OthersPassBy(s, step);
      LoopNeverExits(s);
      OthersLeaveClient(s, step);
      hide Apply, Enabled, Inv;
    } else if step.ReadAck? {
      VerifyAck(s, targets);
    } else {
      hide Inv, PushUp;
    }
  }

  lemma VerifyAck(s: State, targets: seq<NodeId>)
    requires Inv(s) && Enabled(s, ReadAck) && Verifying(s, targets)
    ensures Verifying(Apply(s, ReadAck), targets) && !Fails(s, ReadAck)
  {
    AckIsVerdict(s);
    hide Inv, DecodeHelloAck, ConnInv;
  }

  lemma {:induction false} VerifyThroughout(s: State, steps: seq<Step>, end: State, targets: seq<NodeId>)
    requires Inv(s) && Run(s, steps, end) && WithinJob(s, steps, end) && Verifying(s, targets)
    ensures Inv(end) && Verifying(end, targets)
    decreases |steps|
  {
    hide Inv, Enabled, Apply, Verifying;
    if steps != [] {
      VerifyStep(s, steps[0], targets);
      StepKeeps(s, steps[0]);
      VerifyThroughout(Apply(s, steps[0]), steps[1..], end, targets);
    }
  }

  /** `verify_peers` goes through all peers: it succeeds, which is a step to the next peer with none left, only when
      every peer has a pooled connection to a server with the client's own map. */
  lemma VerifiedPeersAgree(s: State, targets: seq<NodeId>, steps: seq<Step>, end: State, t: NodeId)
    requires Inv(s) && Enabled(s, StartVerify(targets))
    requires Run(Apply(s, StartVerify(targets)), steps, end) && WithinJob(Apply(s, StartVerify(targets)), steps, end)
    requires Enabled(end, VerifyNext) && Apply(end, VerifyNext).phase == Idle && t in s.peers
    ensures t in end.pool && end.pool[t] < |end.conns|
    ensures var c := end.conns[end.pool[t]]; c.mine && c.peer == t && c.serverFp == end.fp
  {
    StepKeeps(s, StartVerify(targets));
    NoneLeft(end);
    hide Enabled, Apply, Run, Inv;
    StartsVerifying(s, targets);
    VerifyThroughout(Apply(s, StartVerify(targets)), steps, end, targets);
    PooledAgree(end, t);
  }

  lemma NoneLeft(s: State)
    requires Enabled(s, VerifyNext) && Apply(s, VerifyNext).phase == Idle
    ensures s.phase == Top(Verify([]))
  {
  }

  lemma StartsVerifying(s: State, targets: seq<NodeId>)
    requires Enabled(s, StartVerify(targets))
    ensures Verifying(Apply(s, StartVerify(targets)), targets) && forall t :: t in targets <==> t in s.peers
  {
  }

  lemma PooledAgree(s: State, t: NodeId)
    requires Inv(s) && t in s.pool
    ensures s.pool[t] < |s.conns|
    ensures var c := s.conns[s.pool[t]]; c.mine && c.peer == t && c.serverFp == s.fp
  {
    assert PooledInv(s, t);
  }
}
