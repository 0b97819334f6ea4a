/** What a successful handshake says about the other side, over all runs. */
module HandshakeAgreement {
  import opened Wrappers
  import opened Handshake

  /** What a half served by `n`, whose peer is `y`, may hold. */
  ghost predicate ServeOk(p: Setup, n: Node, y: Side) {
    && (n.serve.AwaitReplyAck? || n.serve.Served? ==>
         n.serve.routes == None || (n.serve.routes == Some(p.routes.Get(y)) && n.accepted))
    && (n.accepted ==> p.routes.Get(y) != [] && p.fits.Get(y))
    && (n.rejected ==> p.routes.Get(y) == [] && n.serve.ServeFailed?)
  }

  /** The stream `x` opened and its reply, against the half of `m` that serves it. */
  ghost predicate StreamOk(p: Setup, x: Side, n: Node, request: Request, replied: bool, m: Node) {
    && (n.send.Sent? ==> replied)
    && (request == Advertise ==> !n.send.Unsent?)
    && (request == Blank || request == Broken ==> n.timedOut)
    && (n.timedOut || m.timedOut ==> p.deadline)
    && (m.serve.Reading? ==> request != Absent)
    && (replied ==> !m.serve.Listening? && !m.rejected && (m.serve.Reading? ==> m.timedOut))
    && (replied && p.fits.Get(x) && !n.timedOut ==> m.accepted || m.timedOut)
  }

  ghost predicate Inv(p: Setup, s: State) {
    && ServeOk(p, s.nodes.a, B) && ServeOk(p, s.nodes.b, A)
    && StreamOk(p, A, s.nodes.a, s.request.a, s.replied.a, s.nodes.b)
    && StreamOk(p, B, s.nodes.b, s.request.b, s.replied.b, s.nodes.a)
  }

  lemma {:induction false} ReadRequestKeepsInv(p: Setup, s: State, x: Side)
    requires Inv(p, s) && Enabled(p, s, ReadRequest(x))
    ensures Inv(p, HandleRequest(p, s, x))
  {
    if x == A {
      assert s.nodes.a.serve.Reading? && s.request.b != Absent;
    } else {
      assert s.nodes.b.serve.Reading? && s.request.a != Absent;
    }
  }

  lemma {:induction false} TimeoutKeepsInv(p: Setup, s: State, x: Side, left: Request)
    requires Inv(p, s) && Enabled(p, s, Timeout(x, left))
    ensures Inv(p, GiveUp(s, x, left))
  {
  }

  lemma {:induction false} SendHalfKeepsInv(p: Setup, s: State, ev: Event)
    requires Inv(p, s) && Enabled(p, s, ev)
    requires ev.SendRequest? || ev.RequestAcked? || ev.ReadReply? || ev.SendFails? || ev.Lose?
    ensures Inv(p, Step(p, s, ev))
  {
  }

  lemma {:induction false} ServeHalfKeepsInv(p: Setup, s: State, ev: Event)
    requires Inv(p, s) && Enabled(p, s, ev)
    requires ev.Accept? || ev.ReplyAcked? || ev.ServeFails?
    ensures Inv(p, Step(p, s, ev))
  {
  }

  lemma {:induction false} InvStep(p: Setup, s: State, ev: Event)
    requires Inv(p, s) && Enabled(p, s, ev)
    ensures Inv(p, Step(p, s, ev))
  {
    match ev
    case ReadRequest(x) => ReadRequestKeepsInv(p, s, x);
    case Timeout(x, left) => TimeoutKeepsInv(p, s, x, left);
    case Accept(_) => ServeHalfKeepsInv(p, s, ev);
    case ReplyAcked(_) => ServeHalfKeepsInv(p, s, ev);
    case ServeFails(_) => ServeHalfKeepsInv(p, s, ev);
    case _ => SendHalfKeepsInv(p, s, ev);
  }

  lemma {:induction false} RunKeepsInv(p: Setup, r: Run, n: nat)
    requires IsRun(p, r) && n < |r.states|
    ensures Inv(p, r.states[n])
  {
    if n > 0 {
      RunKeepsInv(p, r, n - 1);
      assert TakesStep(p, r.states[n - 1], r.events[n - 1], r.states[n]);
      InvStep(p, r.states[n - 1], r.events[n - 1]);
    }
  }

  /** Whatever fails: success returns exactly the addresses of the peer's advertise, and never none. */
  lemma {:induction false} SuccessReturnsPeerRoutes(p: Setup, r: Run, n: nat, x: Side)
    requires IsRun(p, r) && n < |r.states| && Succeeded(r.states[n].nodes.Get(x))
    ensures r.states[n].nodes.Get(x).serve.routes == Some(p.routes.Get(Other(x))) && p.routes.Get(Other(x)) != []
  {
    RunKeepsInv(p, r, n);
  }

  /** Whatever fails: when one side rejected the other's advertise, neither succeeds. */
  lemma {:induction false} RejectionFailsBoth(p: Setup, r: Run, n: nat, x: Side)
    requires IsRun(p, r) && n < |r.states| && r.states[n].nodes.Get(x).rejected
    ensures !Succeeded(r.states[n].nodes.a) && !Succeeded(r.states[n].nodes.b)
  {
    RunKeepsInv(p, r, n);
  }

  // ----- When success means acceptance -----

  /** Success of `x` means that its peer accepted its advertise. */
  ghost predicate Agreed(s: State, x: Side) {
    Succeeded(s.nodes.Get(x)) ==> s.nodes.Get(Other(x)).accepted
  }

  /** Every success of `x` whose request could be read was preceded by acceptance, unless its peer gave up. */
  lemma {:induction false} SuccessMeansAcceptance(p: Setup, r: Run, n: nat, x: Side)
    requires IsRun(p, r) && n < |r.states| && Succeeded(r.states[n].nodes.Get(x))
    requires p.fits.Get(x) && !r.states[n].nodes.Get(Other(x)).timedOut
    ensures r.states[n].nodes.Get(Other(x)).accepted
  {
    RunKeepsInv(p, r, n);
  }

  /** Nothing `x` is offered can make it succeed. */
  predicate Hopeless(p: Setup, x: Side) {
    p.routes.Get(Other(x)) == [] || !p.fits.Get(Other(x))
  }

  /** `x` cannot succeed at all, or its request is readable. */
  predicate Readable(p: Setup, x: Side) {
    Hopeless(p, x) || p.fits.Get(x)
  }

  /** `x` cannot succeed at all, or its request is readable and nobody gives up. */
  predicate Trustworthy(p: Setup, x: Side) {
    Hopeless(p, x) || (p.fits.Get(x) && !p.deadline)
  }

  /** `x` is told that its advertise arrived although `y` never judged it. */
  ghost predicate Unjudged(p: Setup, s: State, x: Side) {
    var y := Other(x);
    && s.nodes.Get(x) == Node(AwaitAck, Listening, false, false, false, false)
    && s.replied.Get(x) && !s.nodes.Get(y).accepted
    && s.request.Get(y) == Advertise
  }

  lemma {:induction false} AnswerUnjudged(p: Setup, x: Side) returns (r: Run)
    requires p.joined && (p.deadline || !p.fits.Get(x))
    ensures IsRun(p, r) && Unjudged(p, Last(r), x)
    ensures !p.fits.Get(x) ==> !Last(r).nodes.Get(Other(x)).timedOut
  {
    var y := Other(x);
    r := Run([Init()], []);
    r := Extend(p, r, SendRequest(x));
    r := Extend(p, r, SendRequest(y));
    r := Extend(p, r, Accept(y));
    if p.fits.Get(x) {
      r := Extend(p, r, Timeout(y, Absent));
    } else {
      r := Extend(p, r, ReadRequest(y));
    }
  }

  lemma {:induction false} UnjudgedSucceeds(p: Setup, r: Run, x: Side) returns (r': Run)
    requires IsRun(p, r) && Unjudged(p, Last(r), x) && p.joined && !Hopeless(p, x)
    ensures IsRun(p, r') && !Agreed(Last(r'), x)
    ensures Last(r').nodes.Get(Other(x)) == Last(r).nodes.Get(Other(x))
  {
    r' := Extend(p, r, RequestAcked(x));
    r' := Extend(p, r', ReadReply(x));
    r' := Extend(p, r', Accept(x));
    r' := Extend(p, r', ReadRequest(x));
    r' := Extend(p, r', ReplyAcked(x));
  }

  /** While the peer has not given up, success means acceptance in every run, exactly for a readable request. */
  lemma {:induction false} AgreementIffReadable(p: Setup, x: Side)
    requires p.joined
    ensures (forall r :: IsRun(p, r) && !Last(r).nodes.Get(Other(x)).timedOut ==> Agreed(Last(r), x)) <==> Readable(p, x)
  {
    if Readable(p, x) {
      forall r | IsRun(p, r) && !Last(r).nodes.Get(Other(x)).timedOut ensures Agreed(Last(r), x) {
        RunKeepsInv(p, r, |r.events|);
      }
    } else {
      var r := AnswerUnjudged(p, x);
      r := UnjudgedSucceeds(p, r, x);
    }
  }

  /** With no such proviso, success means acceptance exactly if in addition no deadline can expire. */
  lemma {:induction false} AgreementIffTrustworthy(p: Setup, x: Side)
    requires p.joined
    ensures (forall r :: IsRun(p, r) ==> Agreed(Last(r), x)) <==> Trustworthy(p, x)
  {
    if Trustworthy(p, x) {
      forall r | IsRun(p, r) ensures Agreed(Last(r), x) {
        RunKeepsInv(p, r, |r.events|);
      }
    } else {
      var r := AnswerUnjudged(p, x);
      r := UnjudgedSucceeds(p, r, x);
    }
  }

  /**
  A side that gives up while sending leaves an empty or a cut-off request behind. The empty one is
  served without routes, the other not at all, and neither makes a success.
  */
  lemma {:induction false} AbandonedRequest(p: Setup, x: Side, left: Request) returns (r: Run)
    requires p.deadline && p.joined && (left == Blank || left == Broken)
    ensures IsRun(p, r) && Last(r).nodes.Get(x).timedOut
    ensures var m := Last(r).nodes.Get(Other(x));
            && m.serve == (if left == Blank then Served(None) else ServeFailed)
            && !m.accepted && !m.rejected && !Succeeded(m)
  {
    var y := Other(x);
    r := Run([Init()], []);
    r := Extend(p, r, Timeout(x, left));
    r := Extend(p, r, Accept(y));
    r := Extend(p, r, ReadRequest(y));
    if left == Blank {
      r := Extend(p, r, ReplyAcked(y));
    }
  }
}
