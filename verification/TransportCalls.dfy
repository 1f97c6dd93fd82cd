/** Calls are numbered in the order they are made, and every fault can happen at every point. */
module TransportCalls {
  import opened Octets
  import opened Codec
  import opened Transport
  import opened TransportSafety

  /** The number of the call under way is that of the outcomes so far. */
  ghost predicate JobNumbered(s: State, job: Job) {
    match job
    case Call(_, _, call, _, _) => call == |s.outcomes| && s.calls == |s.outcomes| + 1
    case Verify(_) => s.calls == |s.outcomes|
  }

  ghost predicate Numbered(s: State) {
    && (forall k :: 0 <= k < |s.outcomes| ==> s.outcomes[k].call == k)
    && match s.phase
       case Idle => s.calls == |s.outcomes|
       case Top(job) => JobNumbered(s, job)
       case AwaitAck(job, _) => JobNumbered(s, job)
       case AwaitReply(job, _) => JobNumbered(s, job)
       case Unreachable => true
  }

  lemma ConnStepNumbered(s: State, step: Step)
    requires Enabled(s, step) && OnConn(step) && Numbered(s)
    ensures Numbered(Apply(s, step))
  {
    hide ServeHello, ServeRequest, PushUp;
  }

  lemma FinishNumbered(s: State, job: Job, reply: Reply)
    requires (forall k :: 0 <= k < |s.outcomes| ==> s.outcomes[k].call == k) && JobNumbered(s, job)
    ensures Numbered(Finish(s, job, reply))
  {
  }

  lemma FailedNumbered(s: State, job: Job)
    requires (forall k :: 0 <= k < |s.outcomes| ==> s.outcomes[k].call == k) && JobNumbered(s, job)
    ensures Numbered(ConnectFailed(s, job))
  {
    FinishNumbered(s, job, IoError);
    hide Finish;
  }

  lemma StartNumbered(s: State, step: Step)
    requires Enabled(s, step) && (step.StartCall? || step.StartVerify? || step.VerifyNext? || step.LoopExit?)
    requires Numbered(s)
    ensures Numbered(Apply(s, step))
  {
  }

  lemma ConnectNumbered(s: State, step: Step)
    requires Enabled(s, step) && (step.ConnectRefused? || step.ConnectAccepted? || step.ReadAckFailed?) && Numbered(s)
    ensures Numbered(Apply(s, step))
  {
    FailedNumbered(s, s.phase.job);
    hide ConnectFailed, Encode;
  }

  lemma AckNumbered(s: State)
    requires Enabled(s, ReadAck) && Numbered(s)
    ensures Numbered(Apply(s, ReadAck))
  {
    var cid, job := s.phase.cid, s.phase.job;
    var f := s.conns[cid].down[0];
    var t := SetConn(s, cid, s.conns[cid].(down := s.conns[cid].down[1..]));
    FailedNumbered(t, job);
    hide ConnectFailed, DecodeHelloAck;
    match DecodeHelloAck(f.bytes)
    case Failed =>
    case Got(ack, _) => FinishNumbered(t, job, Mismatch(ack.fingerprint));
  }

  lemma ExchangeNumbered(s: State, step: Step)
    requires Enabled(s, step)
    requires step.WriteRequest? || step.WriteRequestFailed? || step.ReadReply? || step.ReadReplyFailed?
    requires Numbered(s)
    ensures Numbered(Apply(s, step))
  {
    hide PushUp;
  }

  lemma StepNumbered(s: State, step: Step)
    requires Enabled(s, step) && Numbered(s)
    ensures Numbered(Apply(s, step))
  {
    hide Enabled, Apply, Numbered;
    match step
    case StartCall(_, _) => StartNumbered(s, step);
    case StartVerify(_) => StartNumbered(s, step);
    case VerifyNext => StartNumbered(s, step);
    case LoopExit => StartNumbered(s, step);
    case ConnectRefused => ConnectNumbered(s, step);
    case ConnectAccepted(_) => ConnectNumbered(s, step);
    case ReadAckFailed => ConnectNumbered(s, step);
    case ReadAck => AckNumbered(s);
    case WriteRequest => ExchangeNumbered(s, step);
    case WriteRequestFailed(_) => ExchangeNumbered(s, step);
    case ReadReply => ExchangeNumbered(s, step);
    case ReadReplyFailed => ExchangeNumbered(s, step);
    case OtherConnects(_) => OthersNumbered(s, step);
    case _ => ConnStepNumbered(s, step);
  }

  lemma OthersNumbered(s: State, step: Step)
    requires Enabled(s, step) && step.OtherConnects? && Numbered(s)
    ensures Numbered(Apply(s, step))
  {
  }

  lemma {:induction false} RunNumbered(s: State, steps: seq<Step>, end: State)
    requires Run(s, steps, end) && Numbered(s)
    ensures Numbered(end)
    decreases |steps|
  {
    hide Enabled, Apply, Numbered;
    if steps != [] {
      StepNumbered(s, steps[0]);
      RunNumbered(Apply(s, steps[0]), steps[1..], end);
    }
  }

  /** In every run the calls end in the order they were made, each with one outcome that bears its own number. */
  lemma CallsAreNumbered(self: NodeId, fp: u64, peers: set<NodeId>, steps: seq<Step>, s: State, k: nat)
    requires Run(Init(self, fp, peers), steps, s) && k < |s.outcomes|
    ensures s.outcomes[k].call == k < s.calls
  {
    RunNumbered(Init(self, fp, peers), steps, s);
    if s.phase.Unreachable? {
      NeverUnreachable(self, fp, peers, steps, s);
    }
  }

  lemma NeverUnreachable(self: NodeId, fp: u64, peers: set<NodeId>, steps: seq<Step>, s: State)
    requires Run(Init(self, fp, peers), steps, s)
    ensures !s.phase.Unreachable?
  {
    RunKeeps(Init(self, fp, peers), steps, s);
  }

  /** The network and the servers may do their worst: a connection is refused or answered by any server, an ack or
      reply is lost, a write fails with or without delivery, a connection is cut anywhere in either queue, and a
      server goes away. */
  lemma AnyFaultCanHappen(s: State, cid: ConnId, i: nat, j: nat)
    ensures s.phase.AwaitAck? ==> Enabled(s, ReadAckFailed)
    ensures s.phase.AwaitReply? && s.phase.job.Call? ==> Enabled(s, ReadReplyFailed)
    ensures Enabled(s, ConnectRefused) <==> forall fp :: Enabled(s, ConnectAccepted(fp))
    ensures Enabled(s, WriteRequest) <==> forall delivered :: Enabled(s, WriteRequestFailed(delivered))
    ensures cid < |s.conns| ==> Enabled(s, ServerGone(cid))
    ensures cid < |s.conns| && i <= |s.conns[cid].up| && j <= |s.conns[cid].down| ==> Enabled(s, Cut(cid, i, j))
  {
    hide NeedsConnection, ReadyToWrite;
    assert Enabled(s, ConnectRefused) == Enabled(s, ConnectAccepted(0));
    assert Enabled(s, WriteRequest) == Enabled(s, WriteRequestFailed(true));
  }
}
