/**
What every run guarantees when no two peers negotiate the same address: the relay is,
address by address, what the owning session says it is.
*/
module DaemonOwnership {
  import opened Wrappers
  import opened Net
  import opened RelayTable
  import opened RelayService
  import opened Daemon
  import opened DaemonLock

  /** A cell at rest: an entry with value `v` and its route, or neither, but for a failed removal. */
  ghost predicate AtRest<T>(present: bool, v: Option<T>, ip: IpAddr, c: Cell<T>) {
    && c.entry == (if present then Some(PeerValue(v, ip)) else None)
    && (present ==> c.routed)
    && (!present && c.routed ==> c.orphan)
  }

  /** The addresses a session still has in the relay when a job of its starts. */
  ghost predicate HeldFor<T>(s: Session<T>, job: Job<T>, ip: IpAddr) {
    ip in s.routes && (job.Register? ==> ip in job.current)
  }

  ghost predicate RollbackBase<T>(s: Session<T>, job: Job<T>, ip: IpAddr, c: Cell<T>)
    requires job.Rollback?
  {
    && (ip !in job.current ==> AtRest(false, None, ip, c))
    && c.entry in {None, Some(PeerValue(None, ip)), Some(PeerValue(Some(job.conn), ip))}
    && (c.entry == Some(PeerValue(None, ip)) ==> ip in s.routes)
    && (ip in s.routes && ip in job.current ==> c.entry.Some?)
  }

  /** The cell of an address, by what its owner is doing. */
  ghost predicate CellOk<T>(s: Session<T>, ip: IpAddr, c: Cell<T>) {
    match s.pc
    case Idle => AtRest(ip in s.routes, None, ip, c)
    case Handshaking(_) => AtRest(ip in s.routes, None, ip, c)
    case Waiting(job) => !job.Rollback? && AtRest(HeldFor(s, job, ip), None, ip, c)
    case Running(job, futs, base) => RunningOk(s, job, futs, At(base, ip), ip, c)
    case Receiving(conn) => AtRest(ip in s.routes, Some(conn), ip, c)
    case Parking(dropped, next) =>
      && next <= |s.routes|
      && (AtRest(ip in s.routes, None, ip, c) || AtRest(ip in s.routes, dropped, ip, c))
      && (ip in s.routes[..next] ==> AtRest(true, None, ip, c))
    case Ended => AtRest(false, None, ip, c)
  }

  ghost predicate RunningOk<T>(s: Session<T>, job: Job<T>, futs: seq<Fut>, base: Cell<T>, ip: IpAddr, c: Cell<T>) {
    match job
    case Register(current, conn) =>
      AtRest(HeldFor(s, job, ip), None, ip, base) && JoiningOk(base, current, futs, conn, ip, c)
    case Rollback(current, _) => RollbackBase(s, job, ip, base) && RemovingOk(base, current, futs, ip, c)
    case _ => AtRest(HeldFor(s, job, ip), None, ip, base) && RemovingOk(base, JobIps(s, job), futs, ip, c)
  }

  /** Session `k` deals only in addresses it owns, and remembers consistent tables. */
  ghost predicate OwnAddresses<T>(owner: IpAddr -> nat, s: Session<T>, k: nat) {
    && (forall ip :: ip in s.routes ==> owner(ip) == k)
    && ((s.pc.Waiting? || s.pc.Running?) && !s.pc.job.Withdraw? ==>
         forall ip :: ip in s.pc.job.current ==> owner(ip) == k)
    && (s.pc.Running? ==> Consistent(s.pc.base))
  }

  ghost predicate OwnedCell<T>(owner: IpAddr -> nat, d: Daemon<T>, ip: IpAddr) {
    if owner(ip) < |d.sessions| then CellOk(d.sessions[owner(ip)], ip, At(d.table, ip))
    else AtRest(false, None, ip, At(d.table, ip))
  }

  ghost predicate OwnerInv<T>(owner: IpAddr -> nat, d: Daemon<T>) {
    && (forall k :: 0 <= k < |d.sessions| ==> OwnAddresses(owner, d.sessions[k], k))
    && (forall ip :: OwnedCell(owner, d, ip))
  }

  ghost predicate OwnStep<T>(owner: IpAddr -> nat, k: nat, ev: Event<T>) {
    ev.HandshakeOk? ==> forall ip :: ip in ev.current ==> owner(ip) == k
  }

  // ----- One step, one address -----

  lemma {:induction false} OwnAddressesStep<T>(owner: IpAddr -> nat, c: Config, d: Daemon<T>, k: nat, ev: Event<T>)
    requires LockInv(c, d) && OwnerInv(owner, d) && Enabled(c, d, k, ev) && OwnStep(owner, k, ev)
    ensures OwnAddresses(owner, Step(c, d, k, ev).sessions[k], k)
  {
    assert OwnAddresses(owner, d.sessions[k], k);
  }

  lemma {:induction false} ForeignCellsUnpolled<T>(owner: IpAddr -> nat, c: Config, d: Daemon<T>, k: nat, i: nat, e: Poll, ip: IpAddr)
    requires Enabled(c, d, k, Advance(i, e)) && OwnAddresses(owner, d.sessions[k], k) && owner(ip) != k
    ensures At(AdvanceJob(d, k, i, e).table, ip) == At(d.table, ip)
  {
    var s := d.sessions[k];
    assert JobIps(s, s.pc.job)[i] in JobIps(s, s.pc.job);
  }

  /** A step changes only cells of addresses its session owns. */
  lemma {:induction false} ForeignCellsUntouched<T>(owner: IpAddr -> nat, c: Config, d: Daemon<T>, k: nat, ev: Event<T>, ip: IpAddr)
    requires Enabled(c, d, k, ev) && OwnAddresses(owner, d.sessions[k], k) && owner(ip) != k
    ensures At(Step(c, d, k, ev).table, ip) == At(d.table, ip)
  {
    if ev.Advance? {
      ForeignCellsUnpolled(owner, c, d, k, ev.i, ev.e, ip);
    }
  }

  lemma {:induction false} InsertPollKeepsCell<T>(owner: IpAddr -> nat, c: Config, d: Daemon<T>, k: nat, i: nat, e: Poll, ip: IpAddr)
    requires LockInv(c, d) && OwnerInv(owner, d) && Enabled(c, d, k, Advance(i, e)) && owner(ip) == k
    requires d.sessions[k].pc.job.Register?
    ensures CellOk(AdvanceJob(d, k, i, e).sessions[k], ip, At(AdvanceJob(d, k, i, e).table, ip))
  {
    var s := d.sessions[k];
    var ips := s.pc.job.current;
    assert OwnAddresses(owner, s, k) && OwnedCell(owner, d, ip);
    if e != Completed(false) {
      JoiningStep(s.pc.base, d.table, ips, s.pc.futs, s.pc.job.conn, i, e, ip);
    }
  }

  lemma {:induction false} RemovePollKeepsCell<T>(owner: IpAddr -> nat, c: Config, d: Daemon<T>, k: nat, i: nat, e: Poll, ip: IpAddr)
    requires OwnerInv(owner, d) && Enabled(c, d, k, Advance(i, e)) && owner(ip) == k
    requires !d.sessions[k].pc.job.Register?
    ensures CellOk(AdvanceJob(d, k, i, e).sessions[k], ip, At(AdvanceJob(d, k, i, e).table, ip))
  {
    var s := d.sessions[k];
    assert OwnedCell(owner, d, ip);
    RemovingStep(s.pc.base, d.table, JobIps(s, s.pc.job), s.pc.futs, i, e, ip);
  }

  lemma {:induction false} FinishKeepsCell<T>(owner: IpAddr -> nat, c: Config, d: Daemon<T>, k: nat, ip: IpAddr)
    requires OwnerInv(owner, d) && Enabled(c, d, k, Finish) && owner(ip) == k
    ensures CellOk(FinishJob(c, d.(lock := None), k).sessions[k], ip, At(d.table, ip))
  {
    assert OwnedCell(owner, d, ip);
  }

  lemma {:induction false} QuietKeepsCell<T>(owner: IpAddr -> nat, c: Config, d: Daemon<T>, k: nat, ev: Event<T>, ip: IpAddr)
    requires OwnerInv(owner, d) && Enabled(c, d, k, ev) && owner(ip) == k && !ev.Advance? && !ev.Finish?
    ensures CellOk(Step(c, d, k, ev).sessions[k], ip, At(Step(c, d, k, ev).table, ip))
  {
    assert OwnedCell(owner, d, ip);
  }

  lemma {:induction false} OwnCellStep<T>(owner: IpAddr -> nat, c: Config, d: Daemon<T>, k: nat, ev: Event<T>, ip: IpAddr)
    requires LockInv(c, d) && OwnerInv(owner, d) && Enabled(c, d, k, ev) && owner(ip) == k
    ensures CellOk(Step(c, d, k, ev).sessions[k], ip, At(Step(c, d, k, ev).table, ip))
  {
    match ev
    case Advance(i, e) =>
      if d.sessions[k].pc.job.Register? {
        InsertPollKeepsCell(owner, c, d, k, i, e, ip);
      } else {
        RemovePollKeepsCell(owner, c, d, k, i, e, ip);
      }
    case Finish => FinishKeepsCell(owner, c, d, k, ip);
    case _ => QuietKeepsCell(owner, c, d, k, ev, ip);
  }

  lemma {:induction false} OwnerInvStep<T>(owner: IpAddr -> nat, c: Config, d: Daemon<T>, k: nat, ev: Event<T>)
    requires LockInv(c, d) && OwnerInv(owner, d) && Enabled(c, d, k, ev) && OwnStep(owner, k, ev)
    ensures OwnerInv(owner, Step(c, d, k, ev))
  {
    var d' := Step(c, d, k, ev);
    OwnAddressesStep(owner, c, d, k, ev);
    forall ip ensures OwnedCell(owner, d', ip) {
      assert OwnedCell(owner, d, ip);
      if owner(ip) == k {
        OwnCellStep(owner, c, d, k, ev, ip);
      } else {
        ForeignCellsUntouched(owner, c, d, k, ev, ip);
      }
    }
  }

  // ----- Every state of every run -----

  /** A run in which the sets negotiated by different peers are disjoint. */
  ghost predicate OwnRun<T>(owner: IpAddr -> nat, c: Config, r: Run<T>) {
    IsRun(c, r) && OwnBatches(owner, r)
  }

  lemma {:induction false} RunKeepsOwnerInv<T>(owner: IpAddr -> nat, c: Config, r: Run<T>, n: nat)
    requires OwnRun(owner, c, r) && n < |r.states|
    ensures LockInv(c, r.states[n]) && OwnerInv(owner, r.states[n])
  {
    RunKeepsLockInv(c, r, n);
    if n == 0 {
    } else {
      RunKeepsOwnerInv(owner, c, r, n - 1);
      assert TakesStep(c, r.states[n - 1], r.steps[n - 1], r.states[n]);
      OwnerInvStep(owner, c, r.states[n - 1], r.steps[n - 1].0, r.steps[n - 1].1);
    }
  }

  /** Not in the middle of replacing its addresses in the relay. */
  ghost predicate Settled<T>(s: Session<T>) {
    !s.pc.Running? && !(s.pc.Waiting? && s.pc.job.Register?)
  }

  /** With every session settled, the map's domain is the disjoint union of the sessions' routes. */
  lemma {:induction false} RelayIsUnionOfRoutes<T>(owner: IpAddr -> nat, c: Config, r: Run<T>, n: nat, ip: IpAddr)
    requires OwnRun(owner, c, r) && n < |r.states|
    requires forall k :: 0 <= k < |r.states[n].sessions| ==> Settled(r.states[n].sessions[k])
    ensures var d := r.states[n];
            && (ip in d.table.peerMap <==> exists k :: 0 <= k < |d.sessions| && ip in d.sessions[k].routes)
            && (forall j, k :: 0 <= j < k < |d.sessions| ==> ip !in d.sessions[j].routes || ip !in d.sessions[k].routes)
  {
    RunKeepsOwnerInv(owner, c, r, n);
    var d := r.states[n];
    assert OwnedCell(owner, d, ip);
    forall k | 0 <= k < |d.sessions| && ip in d.sessions[k].routes ensures owner(ip) == k {
      assert OwnAddresses(owner, d.sessions[k], k);
    }
  }

  /** On connection `v`: registering on it, receiving on it, or parking after it dropped. */
  ghost predicate OnConnection<T>(s: Session<T>, v: T) {
    || (s.pc.Running? && s.pc.job.Register? && s.pc.job.conn == v)
    || (s.pc.Running? && s.pc.job.Rollback? && s.pc.job.conn == v)
    || (s.pc.Receiving? && s.pc.conn == v)
    || (s.pc.Parking? && s.pc.dropped == Some(v))
  }

  /** A packet is handed to connection `v` only while the address's owner is on that connection. */
  lemma {:induction false} DispatchFollowsConnection<T>(owner: IpAddr -> nat, c: Config, r: Run<T>, n: nat, ip: IpAddr)
    requires OwnRun(owner, c, r) && n < |r.states|
    ensures var d := r.states[n];
            && (Lookup(d.table, ip).Some? ==> owner(ip) < |d.sessions|)
            && (forall v :: Lookup(d.table, ip) == Some(Connected(v)) ==> OnConnection(d.sessions[owner(ip)], v))
            && (owner(ip) < |d.sessions| && d.sessions[owner(ip)].pc.Receiving? && ip in d.sessions[owner(ip)].routes ==>
                 Lookup(d.table, ip) == Some(Connected(d.sessions[owner(ip)].pc.conn)))
  {
    RunKeepsOwnerInv(owner, c, r, n);
    assert OwnedCell(owner, r.states[n], ip);
  }

  /** The step that reports a failed registration leaves nothing of the old or the new set behind. */
  lemma {:induction false} FailedReconcileLeavesNothing<T>(owner: IpAddr -> nat, c: Config, r: Run<T>, n: nat, ip: IpAddr)
    requires OwnRun(owner, c, r) && n < |r.steps| && r.steps[n].1.Finish?
    requires r.steps[n].0 < |r.states[n].sessions|
    requires r.states[n].sessions[r.steps[n].0].pc.Running? && r.states[n].sessions[r.steps[n].0].pc.job.Rollback?
    requires var s := r.states[n].sessions[r.steps[n].0]; ip in s.routes || ip in s.pc.job.current
    ensures var t := r.states[n + 1].table; ip !in t.peerMap && (ip in t.kernel ==> ip in t.orphans)
  {
    var k := r.steps[n].0;
    assert TakesStep(c, r.states[n], r.steps[n], r.states[n + 1]);
    RunKeepsOwnerInv(owner, c, r, n);
    RunKeepsOwnerInv(owner, c, r, n + 1);
    assert OwnAddresses(owner, r.states[n].sessions[k], k);
    assert OwnedCell(owner, r.states[n + 1], ip);
  }

  /** An address that stays in the set keeps its entry and its route, and no OS call concerns it. */
  lemma {:induction false} KeptAddressIsUndisturbed<T>(owner: IpAddr -> nat, c: Config, r: Run<T>, n: nat, k: nat, ip: IpAddr)
    requires OwnRun(owner, c, r) && n < |r.states| && k < |r.states[n].sessions|
    requires var s := r.states[n].sessions[k];
             && (s.pc.Waiting? || s.pc.Running?) && (s.pc.job.DropStale? || s.pc.job.Register?)
             && ip in s.routes && ip in s.pc.job.current
    ensures var d := r.states[n]; var s := d.sessions[k];
            && ip in d.table.peerMap && ip in d.table.kernel
            && (s.pc.Running? ==> |s.pc.futs| == |JobIps(s, s.pc.job)|)
            && (s.pc.Running? ==> forall i :: 0 <= i < |s.pc.futs| && JobIps(s, s.pc.job)[i] == ip ==> !s.pc.futs[i].Awaiting?)
  {
    RunKeepsOwnerInv(owner, c, r, n);
    assert OwnAddresses(owner, r.states[n].sessions[k], k);
    assert OwnedCell(owner, r.states[n], ip);
  }
}
