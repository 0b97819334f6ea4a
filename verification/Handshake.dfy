/**
The handshake of two peers over one connection.

Each side sends its advertise on a stream of its own and serves the other's, the two halves joined.
The reply of a side that accepts is the default message, which encodes to no bytes at all; and a
stream that is dropped without having been written is finished, with no bytes either. So a sender
cannot tell acceptance from a responder that gave up, and the model keeps the two the same.
*/
module Handshake {
  import opened Wrappers
  import opened Net

  datatype Side = A | B

  function Other(x: Side): Side {
    if x == A then B else A
  }

  datatype Pair<T> = Pair(a: T, b: T) {
    function Get(x: Side): T {
      if x == A then a else b
    }

    function Set(x: Side, v: T): Pair<T> {
      if x == A then Pair(v, b) else Pair(a, v)
    }
  }

  /** What a side left on its request stream: nothing, its advertise, an empty or a cut-off message. */
  datatype Request = Absent | Advertise | Blank | Broken

  datatype Send = Unsent | AwaitAck | AwaitReply | Sent | SendFailed

  datatype Serve =
    | Listening
    | Reading
    | AwaitReplyAck(routes: Option<seq<IpAddr>>)
    | Served(routes: Option<seq<IpAddr>>)
    | ServeFailed

  /** `accepted` and `rejected` record the verdict on the peer's advertise. */
  datatype Node = Node(send: Send, serve: Serve, lost: bool, timedOut: bool, accepted: bool, rejected: bool)

  /** `replied.Get(x)`: the reply stream of `x`'s request was finished, without bytes. */
  datatype State = State(nodes: Pair<Node>, request: Pair<Request>, replied: Pair<bool>)

  /**
  `routes.Get(x)`: the addresses `x`'s peer validates out of `x`'s advertise.
  `fits.Get(x)`: `x`'s request is below the size limit of a control message.
  `joined`: the two halves run concurrently, as they do in the program.
  `deadline`: the handshake deadline may expire.
  */
  datatype Setup = Setup(routes: Pair<seq<IpAddr>>, fits: Pair<bool>, joined: bool, deadline: bool)

  datatype Event =
    | SendRequest(x: Side)
    | RequestAcked(x: Side)
    | ReadReply(x: Side)
    | Accept(x: Side)
    | ReadRequest(x: Side)
    | ReplyAcked(x: Side)
    | SendFails(x: Side)
    | ServeFails(x: Side)
    | Lose(x: Side)
    | Timeout(x: Side, left: Request)

  function Init(): State {
    var n := Node(Unsent, Listening, false, false, false, false);
    State(Pair(n, n), Pair(Absent, Absent), Pair(false, false))
  }

  predicate SendDone(n: Node) {
    n.send.Sent? || n.send.SendFailed?
  }

  predicate ServeDone(n: Node) {
    n.serve.Served? || n.serve.ServeFailed?
  }

  predicate Finished(n: Node) {
    n.timedOut || (SendDone(n) && ServeDone(n))
  }

  /** The handshake of this node returned routes. */
  predicate Succeeded(n: Node) {
    !n.timedOut && n.send.Sent? && n.serve.Served? && n.serve.routes.Some?
  }

  predicate Enabled(p: Setup, s: State, ev: Event) {
    var x := ev.x;
    var n := s.nodes.Get(x);
    !n.timedOut &&
    match ev
    case SendRequest(_) => n.send.Unsent? && !n.lost
    case RequestAcked(_) => n.send.AwaitAck?
    case ReadReply(_) => n.send.AwaitReply? && s.replied.Get(x)
    case Accept(_) => n.serve.Listening? && s.request.Get(Other(x)) != Absent && (p.joined || SendDone(n))
    case ReadRequest(_) => n.serve.Reading?
    case ReplyAcked(_) => n.serve.AwaitReplyAck?
    case SendFails(_) => n.lost && !SendDone(n)
    case ServeFails(_) => n.lost && !ServeDone(n)
    case Lose(_) => !n.lost
    case Timeout(_, left) => p.deadline && !Finished(n) && left != Advertise
  }

  function Step(p: Setup, s: State, ev: Event): State
    requires Enabled(p, s, ev)
  {
    var x := ev.x;
    var n := s.nodes.Get(x);
    match ev
    case SendRequest(_) => Update(s, x, n.(send := AwaitAck)).(request := s.request.Set(x, Advertise))
    case RequestAcked(_) => Update(s, x, n.(send := AwaitReply))
    case ReadReply(_) => Update(s, x, n.(send := Sent))
    case Accept(_) => Update(s, x, n.(serve := Reading))
    case ReadRequest(_) => HandleRequest(p, s, x)
    case ReplyAcked(_) => Update(s, x, n.(serve := Served(n.serve.routes)))
    case SendFails(_) => Update(s, x, n.(send := SendFailed))
    case ServeFails(_) => Update(s, x, n.(serve := ServeFailed))
    case Lose(_) => Update(s, x, n.(lost := true))
    case Timeout(_, left) => GiveUp(s, x, left)
  }

  function Update(s: State, x: Side, n: Node): State {
    s.(nodes := s.nodes.Set(x, n))
  }

  /**
  The request has been read to its end. An unreadable one ends the half without a reply being
  written; an advertise without usable addresses closes the connection, so that no reply gets out.
  */
  function HandleRequest(p: Setup, s: State, x: Side): State {
    var y := Other(x);
    var n := s.nodes.Get(x);
    var replied := s.(replied := s.replied.Set(y, true));
    match s.request.Get(y)
    case Advertise =>
      if !p.fits.Get(y) then Update(replied, x, n.(serve := ServeFailed))
      else if p.routes.Get(y) == [] then Update(s, x, n.(serve := ServeFailed, lost := true, rejected := true))
      else Update(replied, x, n.(serve := AwaitReplyAck(Some(p.routes.Get(y))), accepted := true))
    case Blank => Update(replied, x, n.(serve := AwaitReplyAck(None)))
    case _ => Update(replied, x, n.(serve := ServeFailed))
  }

  /** The deadline drops both halves: whatever stream they had open is finished as it is. */
  function GiveUp(s: State, x: Side, left: Request): State {
    var y := Other(x);
    var n := s.nodes.Get(x);
    var s' := Update(s, x, n.(timedOut := true));
    s'.(request := if n.send.Unsent? && !n.lost then s.request.Set(x, left) else s.request,
        replied := if n.serve.Reading? then s.replied.Set(y, true) else s.replied)
  }

  // ----- Runs -----

  datatype Run = Run(states: seq<State>, events: seq<Event>)

  ghost predicate TakesStep(p: Setup, s: State, ev: Event, s': State) {
    Enabled(p, s, ev) && s' == Step(p, s, ev)
  }

  ghost predicate IsRun(p: Setup, r: Run) {
    && |r.states| == |r.events| + 1
    && r.states[0] == Init()
    && forall n :: 0 <= n < |r.events| ==> TakesStep(p, r.states[n], r.events[n], r.states[n + 1])
  }

  ghost function Last(r: Run): State
    requires r.states != []
  {
    r.states[|r.states| - 1]
  }

  ghost function Extend(p: Setup, r: Run, ev: Event): (r': Run)
    requires IsRun(p, r) && Enabled(p, Last(r), ev)
    ensures IsRun(p, r') && Last(r') == Step(p, Last(r), ev) && r'.events == r.events + [ev] && r.states <= r'.states
  {
    var r' := Run(r.states + [Step(p, Last(r), ev)], r.events + [ev]);
    assert forall n :: 0 <= n < |r'.events| ==> TakesStep(p, r'.states[n], r'.events[n], r'.states[n + 1]) by {
      forall n | 0 <= n < |r'.events| ensures TakesStep(p, r'.states[n], r'.events[n], r'.states[n + 1]) {
        if n < |r.events| {
          assert TakesStep(p, r.states[n], r.events[n], r.states[n + 1]);
        }
      }
    }
    r'
  }

  /** No fault: no deadline expires and the connection is lost only by the peer closing it. */
  ghost predicate Faultless(s: State, ev: Event) {
    !ev.Timeout? && (ev.Lose? ==> s.nodes.Get(Other(ev.x)).lost)
  }

  ghost predicate FaultlessRun(p: Setup, r: Run) {
    IsRun(p, r) && forall n {:trigger r.events[n]} :: 0 <= n < |r.events| ==> Faultless(r.states[n], r.events[n])
  }
}
