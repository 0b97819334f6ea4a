/**
The daemon refines an atomic specification in which a peer is a set of routes, a link state and at
most one offer, and every event is one action: most of them none at all, registration, rollback,
disconnection and the end of a session a single step each.
*/
module DaemonRefinement {
  import opened Wrappers
  import opened Net
  import opened RelayTable
  import opened RelayService
  import opened Daemon
  import opened DaemonLock
  import opened DaemonOwnership

  datatype Link<T> = Offline | Dialled(conn: T) | Online(conn: T) | Leaving | Over

  /** What a handshake negotiated, until it is registered, and whether the OS has refused a route of it. */
  datatype Offer<T> = Offer(ips: seq<IpAddr>, conn: T, refused: bool)

  datatype Peer<T> = Peer(routes: seq<IpAddr>, link: Link<T>, offer: Option<Offer<T>>)

  datatype Action<T> =
    | Nothing
    | Dial(conn: T)
    | Abandon
    | Negotiate(ips: seq<IpAddr>)
    | Refuse
    | Complete
    | Undo
    | Disconnect
    | Leave
    | Vanish

  ghost predicate Possible<T>(p: Peer<T>, act: Action<T>) {
    match act
    case Nothing => true
    case Dial(_) => p.link.Offline? && p.offer.None?
    case Abandon => p.link.Dialled?
    case Negotiate(ips) => p.link.Dialled? && ips != []
    case Refuse => p.offer.Some? && !p.offer.value.refused
    case Complete => p.offer.Some? && !p.offer.value.refused
    case Undo => p.offer.Some? && p.offer.value.refused
    case Disconnect => p.link.Online?
    case Leave => p.link.Offline? && p.offer.None?
    case Vanish => p.link.Leaving?
  }

  ghost function Perform<T>(p: Peer<T>, act: Action<T>): Peer<T>
    requires Possible(p, act)
  {
    match act
    case Nothing => p
    case Dial(conn) => p.(link := Dialled(conn))
    case Abandon => p.(link := Offline)
    case Negotiate(ips) => Peer(p.routes, Offline, Some(Offer(ips, p.link.conn, false)))
    case Refuse => p.(offer := Some(p.offer.value.(refused := true)))
    case Complete => Peer(p.offer.value.ips, Online(p.offer.value.conn), None)
    case Undo => Peer([], Offline, None)
    case Disconnect => p.(link := Offline)
    case Leave => if p.routes == [] then Peer([], Over, None) else p.(link := Leaving)
    case Vanish => Peer([], Over, None)
  }

  /** A step of the specification: one peer performs one action. */
  ghost predicate AtomicNext<T>(ps: seq<Peer<T>>, k: nat, act: Action<T>, ps': seq<Peer<T>>) {
    k < |ps| && Possible(ps[k], act) && ps' == ps[k := Perform(ps[k], act)]
  }

  ghost predicate IsAtomicRun<T>(peers: nat, run: seq<seq<Peer<T>>>, acts: seq<(nat, Action<T>)>) {
    && |run| == |acts| + 1 && run[0] == seq(peers, _ => Peer([], Offline, None))
    && forall n {:trigger acts[n]} :: 0 <= n < |acts| ==> AtomicNext(run[n], acts[n].0, acts[n].1, run[n + 1])
  }

  /**
  What an event of a session amounts to. Polls are nothing to see, but for a refused addition; nor is
  a link that reports down; a dropped connection is seen once its routes are parked.
  */
  ghost function ActionOf<T>(s: Session<T>, ev: Event<T>): Action<T> {
    match ev
    case LinkUp(conn) => Dial(conn)
    case HandshakeFailed => Abandon
    case HandshakeOk(current) => Negotiate(current)
    case Advance(_, e) => if s.pc.Running? && s.pc.job.Register? && e == Completed(false) then Refuse else Nothing
    case Finish =>
      if !s.pc.Running? || s.pc.job.DropStale? then Nothing
      else if s.pc.job.Register? then Complete
      else if s.pc.job.Rollback? then Undo
      else Vanish
    case ParkDone => if s.pc.Parking? && s.pc.dropped.Some? then Disconnect else Nothing
    case LinkEnded => Leave
    case _ => Nothing
  }

  function AtomicLookup<T>(p: Peer<T>, ip: IpAddr): Option<Dispatch<T>> {
    if ip !in p.routes then None
    else if p.link.Online? then Some(Connected(p.link.conn)) else Some(Parked)
  }

  /** A session as the specification sees it: work in progress is invisible until it is done. */
  function Abstract<T>(s: Session<T>): Peer<T> {
    Peer(s.routes,
         match s.pc
         case Handshaking(conn) => Dialled(conn)
         case Receiving(conn) => Online(conn)
         case Parking(dropped, _) => if dropped.Some? then Online(dropped.value) else Offline
         case Waiting(job) => if job.Withdraw? then Leaving else Offline
         case Running(job, _, _) => if job.Withdraw? then Leaving else Offline
         case Ended => Over
         case Idle => Offline,
         if (s.pc.Waiting? || s.pc.Running?) && !s.pc.job.Withdraw?
         then Some(Offer(s.pc.job.current, s.pc.job.conn, s.pc.job.Rollback?))
         else None)
  }

  function AbstractAll<T>(d: Daemon<T>): (ps: seq<Peer<T>>)
    ensures |ps| == |d.sessions| && forall k :: 0 <= k < |ps| ==> ps[k] == Abstract(d.sessions[k])
  {
    seq(|d.sessions|, k requires 0 <= k < |d.sessions| => Abstract(d.sessions[k]))
  }

  function AbstractRun<T>(r: Run<T>): (run: seq<seq<Peer<T>>>)
    ensures |run| == |r.states| && forall n :: 0 <= n < |run| ==> run[n] == AbstractAll(r.states[n])
  {
    seq(|r.states|, n requires 0 <= n < |r.states| => AbstractAll(r.states[n]))
  }

  /** The actions of a run, one for each of its steps. */
  ghost function Acts<T>(c: Config, r: Run<T>): (acts: seq<(nat, Action<T>)>)
    requires IsRun(c, r)
    ensures |acts| == |r.steps|
    ensures forall n :: 0 <= n < |acts| ==> acts[n] == ActOf(r.states[n], r.steps[n])
  {
    seq(|r.steps|, n requires 0 <= n < |r.steps| => ActOf(r.states[n], r.steps[n]))
  }

  ghost function ActOf<T>(d: Daemon<T>, step: (nat, Event<T>)): (nat, Action<T>) {
    (step.0, if step.0 < |d.sessions| then ActionOf(d.sessions[step.0], step.1) else Nothing)
  }

  /** What a lookup may see of an address while its owner is between two settled states. */
  ghost predicate MidwayLookup<T>(s: Session<T>, ip: IpAddr, seen: Option<Dispatch<T>>) {
    || seen == AtomicLookup(Abstract(s), ip)
    || (s.pc.Parking? && seen == AtomicLookup(Abstract(s).(link := Offline), ip))
    || ((s.pc.Waiting? || s.pc.Running?) && MidJobLookup(s.pc.job, ip, seen))
  }

  ghost predicate MidJobLookup<T>(job: Job<T>, ip: IpAddr, seen: Option<Dispatch<T>>) {
    match job
    case DropStale(current, _) => ip !in current && seen == None
    case Register(current, conn) => if ip in current then seen == Some(Connected(conn)) else seen == None
    case Rollback(current, conn) => seen == None || (ip in current && seen == Some(Connected(conn)))
    case Withdraw => seen == None
  }

  /** What an event does to its session is exactly its action. */
  ghost predicate Refines<T>(s: Session<T>, ev: Event<T>, s': Session<T>) {
    Possible(Abstract(s), ActionOf(s, ev)) && Abstract(s') == Perform(Abstract(s), ActionOf(s, ev))
  }

  lemma {:induction false} StepRefines<T>(c: Config, d: Daemon<T>, k: nat, ev: Event<T>)
    requires LockInv(c, d) && Enabled(c, d, k, ev)
    ensures Refines(d.sessions[k], ev, Step(c, d, k, ev).sessions[k])
  {
    match ev
    case Advance(i, e) => PollRefines(c, d, k, i, e);
    case Finish => FinishRefines(c, d, k);
    case _ =>
  }

  lemma {:induction false} PollRefines<T>(c: Config, d: Daemon<T>, k: nat, i: nat, e: Poll)
    requires Enabled(c, d, k, Advance(i, e))
    ensures Refines(d.sessions[k], Advance(i, e), AdvanceJob(d, k, i, e).sessions[k])
  {
  }

  lemma {:induction false} FinishRefines<T>(c: Config, d: Daemon<T>, k: nat)
    requires Enabled(c, d, k, Finish)
    ensures Refines(d.sessions[k], Finish, FinishJob(c, d.(lock := None), k).sessions[k])
  {
  }

  lemma {:induction false} StepChangesOneSession<T>(c: Config, d: Daemon<T>, k: nat, ev: Event<T>)
    requires Enabled(c, d, k, ev)
    ensures |Step(c, d, k, ev).sessions| == |d.sessions|
    ensures forall j :: 0 <= j < |d.sessions| && j != k ==> Step(c, d, k, ev).sessions[j] == d.sessions[j]
  {
  }

  lemma {:induction false} StepRefinesNext<T>(c: Config, d: Daemon<T>, k: nat, ev: Event<T>)
    requires LockInv(c, d) && Enabled(c, d, k, ev)
    ensures AtomicNext(AbstractAll(d), k, ActionOf(d.sessions[k], ev), AbstractAll(Step(c, d, k, ev)))
  {
    var ps, ps' := AbstractAll(d), AbstractAll(Step(c, d, k, ev));
    StepRefines(c, d, k, ev);
    StepChangesOneSession(c, d, k, ev);
    assert ps' == ps[k := ps'[k]];
  }

  /** Every run of the daemon, seen through the abstraction, is a run of the specification, action by action. */
  lemma {:induction false} RunRefinesAtomicSteps<T>(c: Config, r: Run<T>)
    requires IsRun(c, r)
    ensures IsAtomicRun(|c|, AbstractRun(r), Acts(c, r))
  {
    var run, acts := AbstractRun(r), Acts(c, r);
    assert run[0] == seq(|c|, _ => Peer([], Offline, None));
    forall n | 0 <= n < |acts| ensures AtomicNext(run[n], acts[n].0, acts[n].1, run[n + 1]) {
      RunKeepsLockInv(c, r, n);
      assert TakesStep(c, r.states[n], r.steps[n], r.states[n + 1]);
      StepRefinesNext(c, r.states[n], r.steps[n].0, r.steps[n].1);
    }
  }

  /** What a lookup makes of a cell. */
  function SeenIn<T>(c: Cell<T>): Option<Dispatch<T>> {
    if c.entry.None? then None
    else if c.entry.value.value.Some? then Some(Connected(c.entry.value.value.value)) else Some(Parked)
  }

  lemma {:induction false} CellRefines<T>(s: Session<T>, ip: IpAddr, c: Cell<T>)
    requires CellOk(s, ip, c) && (s.pc.Ended? ==> s.routes == [])
    ensures MidwayLookup(s, ip, SeenIn(c))
    ensures Settled(s) && !s.pc.Parking? ==> SeenIn(c) == AtomicLookup(Abstract(s), ip)
  {
  }

  /** In every state a lookup answers as the specification does, up to the operation in progress. */
  lemma {:induction false} RunRefinesAtomicLookup<T>(owner: IpAddr -> nat, c: Config, r: Run<T>, n: nat, ip: IpAddr)
    requires OwnRun(owner, c, r) && n < |r.states|
    ensures var d := r.states[n];
            if owner(ip) >= |d.sessions| then Lookup(d.table, ip) == None
            else
              var s := d.sessions[owner(ip)];
              && MidwayLookup(s, ip, Lookup(d.table, ip))
              && (Settled(s) && !s.pc.Parking? ==> Lookup(d.table, ip) == AtomicLookup(Abstract(s), ip))
  {
    RunKeepsOwnerInv(owner, c, r, n);
    assert OwnedCell(owner, r.states[n], ip);
    if owner(ip) < |r.states[n].sessions| {
      CellRefines(r.states[n].sessions[owner(ip)], ip, At(r.states[n].table, ip));
    }
  }
}
