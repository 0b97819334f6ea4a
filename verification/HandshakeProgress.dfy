/** Why the handshake always comes to an end, and needs its two halves to run concurrently. */
module HandshakeProgress {
  import opened Wrappers
  import opened Handshake

  ghost predicate CanProceed(p: Setup, s: State) {
    exists ev :: Enabled(p, s, ev) && Faultless(s, ev)
  }

  /** The stream `x` opened, in a run without faults: whoever gave up on it has lost the connection. */
  ghost predicate StreamAlive(n: Node, request: Request, replied: bool, m: Node) {
    && !n.timedOut
    && (n.send.Unsent? ==> request == Absent)
    && (n.send.AwaitAck? || n.send.AwaitReply? || n.send.Sent? ==> request == Advertise)
    && (n.send.SendFailed? ==> n.lost && (request == Absent || request == Advertise))
    && (m.serve.Reading? ==> request == Advertise)
    && (m.serve.AwaitReplyAck? || m.serve.Served? ==> replied && request == Advertise && m.serve.routes.Some?)
    && (m.serve.ServeFailed? ==> replied || m.lost)
  }

  ghost predicate Alive(s: State) {
    && StreamAlive(s.nodes.a, s.request.a, s.replied.a, s.nodes.b)
    && StreamAlive(s.nodes.b, s.request.b, s.replied.b, s.nodes.a)
  }

  lemma {:induction false} ReadRequestKeepsAlive(p: Setup, s: State, x: Side)
    requires Alive(s) && Enabled(p, s, ReadRequest(x))
    ensures Alive(HandleRequest(p, s, x))
  {
    var s' := HandleRequest(p, s, x);
    var m := s.nodes.Get(Other(x));
    assert s'.request == s.request && s.request.Get(Other(x)) == Advertise;
    assert s'.nodes.Get(Other(x)) == m && s'.replied.Get(x) == s.replied.Get(x);
    assert StreamAlive(s'.nodes.Get(x), s.request.Get(x), s.replied.Get(x), m);
    assert StreamAlive(m, Advertise, s'.replied.Get(Other(x)), s'.nodes.Get(x));
  }

  lemma {:induction false} SendHalfKeepsAlive(p: Setup, s: State, ev: Event)
    requires Alive(s) && Enabled(p, s, ev) && Faultless(s, ev)
    requires ev.SendRequest? || ev.RequestAcked? || ev.ReadReply? || ev.SendFails? || ev.Lose?
    ensures Alive(Step(p, s, ev))
  {
  }

  lemma {:induction false} AliveStep(p: Setup, s: State, ev: Event)
    requires Alive(s) && Enabled(p, s, ev) && Faultless(s, ev)
    ensures Alive(Step(p, s, ev))
  {
    match ev
    case ReadRequest(x) => ReadRequestKeepsAlive(p, s, x);
    case Accept(_) =>
    case ReplyAcked(_) =>
    case ServeFails(_) =>
    case _ => SendHalfKeepsAlive(p, s, ev);
  }

  /** A half that is not done has a step, or its peer does. */
  lemma {:induction false} UnfinishedNodeProceeds(p: Setup, s: State, x: Side)
    requires p.joined && Alive(s) && !Finished(s.nodes.Get(x))
    ensures CanProceed(p, s)
  {
    var y := Other(x);
    var n, m := s.nodes.Get(x), s.nodes.Get(y);
    if n.lost {
      var ev := if SendDone(n) then ServeFails(x) else SendFails(x);
      assert Enabled(p, s, ev) && Faultless(s, ev);
    } else if m.lost {
      assert Enabled(p, s, Lose(x)) && Faultless(s, Lose(x));
    } else {
      var ev := match n.send
        case Unsent => SendRequest(x)
        case AwaitAck => RequestAcked(x)
        case AwaitReply =>
          if s.replied.Get(x) then ReadReply(x)
          else if m.serve.Listening? then Accept(y) else ReadRequest(y)
        case _ =>
          match n.serve
          case Listening => if m.send.Unsent? then SendRequest(y) else Accept(x)
          case Reading => ReadRequest(x)
          case _ => ReplyAcked(x);
      assert Enabled(p, s, ev) && Faultless(s, ev);
    }
  }

  function NodeWork(n: Node): nat {
    (match n.send case Unsent => 3 case AwaitAck => 2 case AwaitReply => 1 case _ => 0)
    + (match n.serve case Listening => 3 case Reading => 2 case AwaitReplyAck(_) => 1 case _ => 0)
    + if n.lost then 0 else 1
  }

  function StateWork(s: State): nat {
    NodeWork(s.nodes.a) + NodeWork(s.nodes.b)
  }

  lemma {:induction false} FaultlessStepWorks(p: Setup, s: State, ev: Event)
    requires Enabled(p, s, ev) && Faultless(s, ev)
    ensures StateWork(Step(p, s, ev)) < StateWork(s)
  {
    var s' := Step(p, s, ev);
    assert s'.nodes.Get(Other(ev.x)) == s.nodes.Get(Other(ev.x));
    assert NodeWork(s'.nodes.Get(ev.x)) < NodeWork(s.nodes.Get(ev.x));
  }

  lemma {:induction false} FaultlessNext(p: Setup, s: State, ev: Event, s': State)
    requires Alive(s) && TakesStep(p, s, ev, s') && Faultless(s, ev)
    ensures Alive(s') && StateWork(s') < StateWork(s)
  {
    AliveStep(p, s, ev);
    FaultlessStepWorks(p, s, ev);
  }

  lemma {:induction false} StepOfRun(p: Setup, r: Run, n: nat)
    requires FaultlessRun(p, r) && n < |r.events|
    ensures |r.states| == |r.events| + 1
    ensures TakesStep(p, r.states[n], r.events[n], r.states[n + 1]) && Faultless(r.states[n], r.events[n])
  {
  }

  lemma {:induction false} RunIsAlive(p: Setup, r: Run, n: nat)
    requires FaultlessRun(p, r) && n < |r.states|
    ensures Alive(r.states[n]) && n + StateWork(r.states[n]) <= 14
  {
    if n > 0 {
      RunIsAlive(p, r, n - 1);
      StepOfRun(p, r, n - 1);
      FaultlessNext(p, r.states[n - 1], r.events[n - 1], r.states[n]);
    }
  }

  /** A run without faults takes at most 14 steps and stops only when both sides have returned. */
  lemma {:induction false} FaultlessRunsFinish(p: Setup, r: Run)
    requires p.joined && FaultlessRun(p, r)
    ensures |r.events| <= 14
    ensures CanProceed(p, Last(r)) || (Finished(Last(r).nodes.a) && Finished(Last(r).nodes.b))
  {
    RunIsAlive(p, r, |r.events|);
    if !Finished(Last(r).nodes.a) {
      UnfinishedNodeProceeds(p, Last(r), A);
    } else if !Finished(Last(r).nodes.b) {
      UnfinishedNodeProceeds(p, Last(r), B);
    }
  }

  // ----- Two acceptable advertises -----

  ghost predicate NothingFailed(p: Setup, n: Node, y: Side) {
    && !n.lost && !n.send.SendFailed? && !n.serve.ServeFailed?
    && (n.serve.AwaitReplyAck? || n.serve.Served? ==> n.serve.routes == Some(p.routes.Get(y)))
  }

  ghost predicate Acceptable(p: Setup) {
    p.fits == Pair(true, true) && p.routes.a != [] && p.routes.b != []
  }

  lemma {:induction false} NothingFailsStep(p: Setup, s: State, ev: Event)
    requires Alive(s) && Enabled(p, s, ev) && Faultless(s, ev) && Acceptable(p)
    requires NothingFailed(p, s.nodes.a, B) && NothingFailed(p, s.nodes.b, A)
    ensures NothingFailed(p, Step(p, s, ev).nodes.a, B) && NothingFailed(p, Step(p, s, ev).nodes.b, A)
  {
    var s' := Step(p, s, ev);
    assert s'.nodes.Get(Other(ev.x)) == s.nodes.Get(Other(ev.x));
    assert NothingFailed(p, s'.nodes.Get(ev.x), Other(ev.x));
  }

  lemma {:induction false} NothingFailsNext(p: Setup, s: State, ev: Event, s': State)
    requires Alive(s) && TakesStep(p, s, ev, s') && Faultless(s, ev) && Acceptable(p)
    requires NothingFailed(p, s.nodes.a, B) && NothingFailed(p, s.nodes.b, A)
    ensures NothingFailed(p, s'.nodes.a, B) && NothingFailed(p, s'.nodes.b, A)
  {
    NothingFailsStep(p, s, ev);
  }

  lemma {:induction false} AcceptableRunsDoNotFail(p: Setup, r: Run, n: nat)
    requires FaultlessRun(p, r) && Acceptable(p) && n < |r.states|
    ensures NothingFailed(p, r.states[n].nodes.a, B) && NothingFailed(p, r.states[n].nodes.b, A)
  {
    if n > 0 {
      AcceptableRunsDoNotFail(p, r, n - 1);
      RunIsAlive(p, r, n - 1);
      StepOfRun(p, r, n - 1);
      NothingFailsNext(p, r.states[n - 1], r.events[n - 1], r.states[n]);
    }
  }

  /** Without faults, two acceptable advertises always end in success on both sides. */
  lemma {:induction false} AcceptableAdvertisesSucceed(p: Setup, r: Run)
    requires p.joined && FaultlessRun(p, r) && Acceptable(p) && !CanProceed(p, Last(r))
    ensures Succeeded(Last(r).nodes.a) && Last(r).nodes.a.serve.routes == Some(p.routes.b)
    ensures Succeeded(Last(r).nodes.b) && Last(r).nodes.b.serve.routes == Some(p.routes.a)
  {
    FaultlessRunsFinish(p, r);
    RunIsAlive(p, r, |r.events|);
    AcceptableRunsDoNotFail(p, r, |r.events|);
  }

  /** Serving only after sending, both sides would wait for each other for ever. */
  lemma {:induction false} SendThenServeBlocks(p: Setup) returns (r: Run)
    requires !p.joined
    ensures FaultlessRun(p, r) && !CanProceed(p, Last(r))
    ensures !Finished(Last(r).nodes.a) && !Finished(Last(r).nodes.b)
  {
    r := Run([Init()], []);
    r := Extend(p, r, SendRequest(A));
    r := Extend(p, r, SendRequest(B));
    r := Extend(p, r, RequestAcked(A));
    r := Extend(p, r, RequestAcked(B));
    assert r.events == [SendRequest(A), SendRequest(B), RequestAcked(A), RequestAcked(B)];
  }
}
