/** The server's side of a connection: what it answers to a hello and to a later frame, and what can no longer happen
    once it is gone or the connection is cut. */
module TransportServer {
  import opened Octets
  import opened Codec
  import opened Transport
  import opened TransportSafety

  /** The frame the server reads next on connection `cid`. */
  ghost function NextFrame(s: State, cid: ConnId): Sent
    requires cid < |s.conns| && s.conns[cid].up != []
  {
    s.conns[cid].up[0]
  }

  /** On the first frame: a hello with the server's fingerprint is acknowledged and serving starts; another hello is
      refused with the server's own fingerprint, anything else without an answer, and the server is gone. */
  lemma FirstFrameDecides(s: State, cid: ConnId)
    requires Enabled(s, ServerHello(cid)) && !s.conns[cid].cut
    ensures var f, c, d := NextFrame(s, cid), s.conns[cid], Apply(s, ServerHello(cid)).conns[cid];
            if DecodeHello(f.bytes).Failed? then d.server == Gone && d.down == c.down
            else if DecodeHello(f.bytes).value.fingerprint == c.serverFp
            then d.server == Serving && d.down == c.down + [Sent(Encode(HelloAck(true, c.serverFp)), f.tag)]
            else d.server == Gone && d.down == c.down + [Sent(Encode(HelloAck(false, c.serverFp)), f.tag)]
    ensures Apply(s, ServerHello(cid)).conns[cid].handled == s.conns[cid].handled
  {
    hide DecodeHello, Encode;
  }

  /** On a later frame: a handler is called, once, if and only if the frame decodes as one of the two requests; then
      its reply goes out under the frame's tag and serving goes on, otherwise nothing is sent and the server is gone.
      */
  lemma LaterFrameDecides(s: State, cid: ConnId, reply: Octets)
    requires Enabled(s, ServerRequest(cid, reply)) && !s.conns[cid].cut
    ensures var f, c, d := NextFrame(s, cid), s.conns[cid], Apply(s, ServerRequest(cid, reply)).conns[cid];
            if DecodeRequest(f.bytes).Got? || DecodeAttnRequest(f.bytes).Got?
            then d.server == Serving && d.handled == c.handled + 1 && d.down == c.down + [Sent(reply, f.tag)]
            else d.server == Gone && d.handled == c.handled && d.down == c.down
    ensures Apply(s, ServerRequest(cid, reply)).conns[cid].up == s.conns[cid].up[1..]
  {
    hide DecodeRequest, DecodeAttnRequest;
  }

  // ---- what is over stays over --------------------------------------------------------------------------------------

  /** A cut connection carries nothing more, and a server that is gone handles and sends nothing more. */
  ghost predicate Over(c: Conn, d: Conn) {
    && (c.cut ==> d.cut && |d.up| <= |c.up| && |d.down| <= |c.down|)
    && (c.server == Gone ==> d.server == Gone && d.handled == c.handled && |d.down| <= |c.down|)
  }

  lemma HelloOver(c: Conn)
    requires c.server == AwaitHello && c.up != []
    ensures Over(c, ServeHello(c))
  {
    hide DecodeHello, Encode;
  }

  lemma RequestOver(c: Conn, reply: Octets)
    requires c.server == Serving && c.up != []
    ensures Over(c, ServeRequest(c, reply))
  {
    hide DecodeRequest, DecodeAttnRequest;
  }

  lemma MovedOver(c: Conn, step: Step)
    requires OnConn(step) && CanMove(c, step)
    ensures Over(c, Moved(c, step))
  {
    hide ServeHello, ServeRequest;
    match step
    case ServerHello(_) => HelloOver(c);
    case ServerRequest(_, reply) => RequestOver(c, reply);
    case _ =>
  }

  /** A step on connection `cid` or another. */
  lemma ConnStepOver(s: State, step: Step, cid: ConnId)
    requires Enabled(s, step) && OnConn(step) && cid < |s.conns|
    ensures cid < |Apply(s, step).conns| && Over(s.conns[cid], Apply(s, step).conns[cid])
  {
    assert CanMove(s.conns[step.cid], step);
    MovedOver(s.conns[step.cid], step);
    hide ServeHello, ServeRequest, CanMove;
  }

  /** The caller's steps write on its own connection, read from it, or open another. */
  lemma CallerStepOver(s: State, step: Step, cid: ConnId)
    requires Enabled(s, step) && !OnConn(step) && cid < |s.conns|
    ensures cid < |Apply(s, step).conns| && Over(s.conns[cid], Apply(s, step).conns[cid])
  {
    hide DecodeHelloAck, Encode;
    if Exchanges(step) {
      ExchangeStepOver(s, step, cid);
      hide *;
    } else {
      hide PushUp, ReadyToWrite;
    }
  }

  ghost predicate Exchanges(step: Step) {
    step.WriteRequest? || step.WriteRequestFailed? || step.ReadReply? || step.ReadReplyFailed?
  }

  lemma ExchangeStepOver(s: State, step: Step, cid: ConnId)
    requires Enabled(s, step) && Exchanges(step) && cid < |s.conns|
    ensures cid < |Apply(s, step).conns| && Over(s.conns[cid], Apply(s, step).conns[cid])
  {
  }

  /** Over any run: on a cut connection neither side's queue grows, and once its server is gone no handler is called
      for it and no reply goes out. */
  lemma {:induction false} OverStaysOver(s: State, steps: seq<Step>, end: State, cid: ConnId)
    requires Run(s, steps, end) && cid < |s.conns|
    ensures cid < |end.conns| && Over(s.conns[cid], end.conns[cid])
    decreases |steps|
  {
    hide Enabled, Apply, Over;
    if steps == [] {
      SameOver(s.conns[cid]);
    } else {
      var t := Apply(s, steps[0]);
      StepOver(s, steps[0], cid);
      OverStaysOver(t, steps[1..], end, cid);
      OverTwice(s.conns[cid], t.conns[cid], end.conns[cid]);
    }
  }

  lemma StepOver(s: State, step: Step, cid: ConnId)
    requires Enabled(s, step) && cid < |s.conns|
    ensures cid < |Apply(s, step).conns| && Over(s.conns[cid], Apply(s, step).conns[cid])
  {
    if OnConn(step) {
      ConnStepOver(s, step, cid);
    } else {
      CallerStepOver(s, step, cid);
    }
    hide *;
  }

  lemma SameOver(c: Conn)
    ensures Over(c, c)
  {
  }

  lemma OverTwice(c: Conn, d: Conn, e: Conn)
    requires Over(c, d) && Over(d, e)
    ensures Over(c, e)
  {
  }
}
