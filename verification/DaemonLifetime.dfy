/** How long a session keeps its routes and its name, and what it takes to lose them. */
module DaemonLifetime {
  import opened Wrappers
  import opened Net
  import opened RelayTable
  import opened RelayService
  import opened PeerNames
  import opened Daemon
  import opened DaemonLock
  import opened DaemonNames

  /** Neither over nor on its way out. */
  ghost predicate Staying<T>(s: Session<T>) {
    !s.pc.Ended? && !((s.pc.Waiting? || s.pc.Running?) && s.pc.job.Withdraw?)
  }

  ghost predicate NoLinkEnd<T>(r: Run<T>, n: nat, k: nat) {
    forall m :: 0 <= m < n && m < |r.steps| ==> r.steps[m] != (k, LinkEnded)
  }

  lemma {:induction false} StayingStep<T>(c: Config, d: Daemon<T>, k: nat, ev: Event<T>, j: nat)
    requires Enabled(c, d, k, ev) && j < |d.sessions| && Staying(d.sessions[j]) && (k, ev) != (j, LinkEnded)
    ensures j < |Step(c, d, k, ev).sessions| && Staying(Step(c, d, k, ev).sessions[j])
    ensures d.sessions[j].registered.Some? ==> Step(c, d, k, ev).sessions[j].registered.Some?
  {
  }

  /** In every run, only the end of its link task makes a session withdraw or end. */
  lemma {:induction false} SessionOutlivesDisconnects<T>(c: Config, r: Run<T>, n: nat, k: nat)
    requires IsRun(c, r) && n < |r.states| && k < |c| && NoLinkEnd(r, n, k)
    ensures k < |r.states[n].sessions| && Staying(r.states[n].sessions[k])
  {
    if n > 0 {
      SessionOutlivesDisconnects(c, r, n - 1, k);
      assert TakesStep(c, r.states[n - 1], r.steps[n - 1], r.states[n]) && r.steps[n - 1] != (k, LinkEnded);
      StayingStep(c, r.states[n - 1], r.steps[n - 1].0, r.steps[n - 1].1, k);
    }
  }

  /** A name, once there, stays until the link task of its session ends. */
  lemma {:induction false} NameOutlivesDisconnects<T>(c: Config, r: Run<T>, n: nat, m: nat, k: nat)
    requires IsRun(c, r) && DistinctNames(c) && n <= m < |r.states| && k < |c| && NoLinkEnd(r, m, k)
    requires Lower(c[k]) in r.states[n].names
    ensures Lower(c[k]) in r.states[m].names
  {
    RunKeepsNames(c, r, m);
    assert NameOk(c, r.states[m], k);
    if n < m {
      NameOutlivesDisconnects(c, r, n, m - 1, k);
      RunKeepsNames(c, r, m - 1);
      assert NameOk(c, r.states[m - 1], k);
      SessionOutlivesDisconnects(c, r, m - 1, k);
      assert TakesStep(c, r.states[m - 1], r.steps[m - 1], r.states[m]) && r.steps[m - 1] != (k, LinkEnded);
      StayingStep(c, r.states[m - 1], r.steps[m - 1].0, r.steps[m - 1].1, k);
    }
  }

  /** A connection whose handshake fails leaves no trace. */
  lemma {:induction false} FailedHandshakeLeavesNoTrace<T>(c: Config, d: Daemon<T>, k: nat, v: T)
    requires Enabled(c, d, k, LinkUp(v))
    ensures Enabled(c, Step(c, d, k, LinkUp(v)), k, HandshakeFailed)
    ensures Step(c, Step(c, d, k, LinkUp(v)), k, HandshakeFailed) == d
  {
    assert d.sessions[k := d.sessions[k]] == d.sessions;
  }

  /** Parking routes that are parked, because the link reports down, leaves no trace either. */
  lemma {:induction false} LinkDownLeavesNoTrace<T>(c: Config, r: Run<T>, k: nat) returns (r': Run<T>)
    requires IsRun(c, r) && Enabled(c, Last(r), k, LinkDown)
    requires forall ip :: ip in Last(r).sessions[k].routes && ip in Last(r).table.peerMap ==> Last(r).table.peerMap[ip].value == None
    ensures IsRun(c, r') && Last(r') == Last(r)
  {
    var d := Last(r);
    var n := |d.sessions[k].routes|;
    r' := Extend(c, r, k, LinkDown);
    r' := ParkAll(c, r', k, 0);
    r' := Extend(c, r', k, ParkDone);
    assert d.sessions[k := d.sessions[k]] == d.sessions;
  }

  /** From address `n` on, all there is to park is parked already. */
  lemma {:induction false} ParkAll<T>(c: Config, r: Run<T>, k: nat, n: nat) returns (r': Run<T>)
    requires IsRun(c, r) && !Last(r).table.panicked && k < |Last(r).sessions| == |c|
    requires Last(r).sessions[k].pc == Parking(None, n) && n <= |Last(r).sessions[k].routes|
    requires forall ip :: ip in Last(r).sessions[k].routes && ip in Last(r).table.peerMap ==> Last(r).table.peerMap[ip].value == None
    ensures IsRun(c, r') && Last(r').table == Last(r).table && Last(r').lock == Last(r).lock && Last(r').names == Last(r).names
    ensures Last(r').sessions == Last(r).sessions[k := Last(r).sessions[k].(pc := Parking(None, |Last(r).sessions[k].routes|))]
    decreases |Last(r).sessions[k].routes| - n
  {
    var d := Last(r);
    if n == |d.sessions[k].routes| {
      assert d.sessions[k := d.sessions[k]] == d.sessions;
      r' := r;
    } else {
      var ip := d.sessions[k].routes[n];
      assert ip in d.sessions[k].routes;
      assert ParkEntry(d.table, ip) == d.table;
      r' := Extend(c, r, k, ParkNext);
      r' := ParkAll(c, r', k, n + 1);
    }
  }

  /** The routes a session has after its running job is done. */
  ghost function RoutesAfterJob<T>(s: Session<T>): seq<IpAddr>
    requires s.pc.Running?
  {
    match s.pc.job
    case DropStale(_, _) => s.routes
    case Register(current, _) => current
    case Rollback(_, _) => []
    case Withdraw => []
  }

  lemma {:induction false} RoutesStep<T>(c: Config, d: Daemon<T>, k: nat, ev: Event<T>, j: nat)
    requires LockInv(c, d) && Enabled(c, d, k, ev) && j < |d.sessions|
    ensures j < |Step(c, d, k, ev).sessions|
    ensures Step(c, d, k, ev).sessions[j].routes ==
            if (k, ev) == (j, Finish) then RoutesAfterJob(d.sessions[j]) else d.sessions[j].routes
  {
  }

  /** In every run a session's routes change only when a job of its finishes: registered, rolled back or withdrawn. */
  lemma {:induction false} RoutesChangeOnlyByJobs<T>(c: Config, r: Run<T>, n: nat, k: nat)
    requires IsRun(c, r) && n < |r.steps| && k < |c|
    ensures |r.states[n].sessions| == |r.states[n + 1].sessions| == |c|
    ensures r.steps[n] == (k, Finish) ==> r.states[n].sessions[k].pc.Running?
    ensures r.states[n + 1].sessions[k].routes ==
            if r.steps[n] == (k, Finish) then RoutesAfterJob(r.states[n].sessions[k]) else r.states[n].sessions[k].routes
  {
    RunKeepsLockInv(c, r, n);
    RunKeepsLockInv(c, r, n + 1);
    assert TakesStep(c, r.states[n], r.steps[n], r.states[n + 1]);
    RoutesStep(c, r.states[n], r.steps[n].0, r.steps[n].1, k);
  }

  // ----- What the OS refused -----

  /** In this step the OS reports a failure for `ip`, to session `k`: of an addition, or of a removal. */
  ghost predicate Refusal<T>(d: Daemon<T>, step: (nat, Event<T>), k: nat, ip: IpAddr, addition: bool) {
    && step.0 == k < |d.sessions| && step.1.Advance? && step.1.e == Completed(false)
    && var s := d.sessions[k];
    && s.pc.Running? && s.pc.job.Register? == addition
    && step.1.i < |JobIps(s, s.pc.job)| && JobIps(s, s.pc.job)[step.1.i] == ip
  }

  /** The OS refused session `k` the addition, or the removal, of `ip` before state `n`. */
  ghost predicate Refused<T>(r: Run<T>, n: nat, k: nat, ip: IpAddr, addition: bool) {
    exists m :: 0 <= m < n && m < |r.steps| && m < |r.states| && Refusal(r.states[m], r.steps[m], k, ip, addition)
  }

  lemma {:induction false} RollbackStep<T>(c: Config, d: Daemon<T>, k: nat, ev: Event<T>, j: nat) returns (ip: IpAddr)
    requires Enabled(c, d, k, ev) && j < |d.sessions|
    requires !(d.sessions[j].pc.Running? && d.sessions[j].pc.job.Rollback?)
    requires !(d.sessions[j].pc.Waiting? && d.sessions[j].pc.job.Rollback?)
    ensures j < |Step(c, d, k, ev).sessions|
    ensures var s := Step(c, d, k, ev).sessions[j];
            && !(s.pc.Waiting? && s.pc.job.Rollback?)
            && (s.pc.Running? && s.pc.job.Rollback? ==> Refusal(d, (k, ev), j, ip, true))
  {
    ip := RELEASED;
    var s := d.sessions[k];
    if ev.Advance? && s.pc.job.Register? {
      ip := s.pc.job.current[ev.i];
    }
  }

  ghost predicate RollingBack<T>(s: Session<T>) {
    (s.pc.Running? || s.pc.Waiting?) && s.pc.job.Rollback?
  }

  /** In every run a registration is rolled back only if the OS has refused the session a route. */
  lemma {:induction false} RollbackNeedsRefusal<T>(c: Config, r: Run<T>, n: nat, k: nat)
    requires IsRun(c, r) && n < |r.states| && k < |r.states[n].sessions|
    ensures !(r.states[n].sessions[k].pc.Waiting? && r.states[n].sessions[k].pc.job.Rollback?)
    ensures RollingBack(r.states[n].sessions[k]) ==> exists ip :: Refused(r, n, k, ip, true)
  {
    if n > 0 {
      var d, step := r.states[n - 1], r.steps[n - 1];
      RunKeepsLockInv(c, r, n - 1);
      RunKeepsLockInv(c, r, n);
      assert TakesStep(c, d, step, r.states[n]);
      RollbackNeedsRefusal(c, r, n - 1, k);
      if RollingBack(d.sessions[k]) {
        var ip :| Refused(r, n - 1, k, ip, true);
        var m :| 0 <= m < n - 1 && m < |r.steps| && m < |r.states| && Refusal(r.states[m], r.steps[m], k, ip, true);
        assert Refused(r, n, k, ip, true);
        NotQueuedForRollback(c, d, step.0, step.1, k);
      } else {
        var ip := RollbackStep(c, d, step.0, step.1, k);
        if RollingBack(r.states[n].sessions[k]) {
          assert Refused(r, n, k, ip, true);
        }
      }
    }
  }

  lemma {:induction false} NotQueuedForRollback<T>(c: Config, d: Daemon<T>, k: nat, ev: Event<T>, j: nat)
    requires Enabled(c, d, k, ev) && j < |d.sessions| && !(d.sessions[j].pc.Waiting? && d.sessions[j].pc.job.Rollback?)
    ensures j < |Step(c, d, k, ev).sessions|
    ensures !(Step(c, d, k, ev).sessions[j].pc.Waiting? && Step(c, d, k, ev).sessions[j].pc.job.Rollback?)
  {
  }

  lemma {:induction false} OrphanStep<T>(c: Config, d: Daemon<T>, k: nat, ev: Event<T>, ip: IpAddr)
    requires Enabled(c, d, k, ev) && ip in Step(c, d, k, ev).table.orphans && ip !in d.table.orphans
    ensures Refusal(d, (k, ev), k, ip, false)
  {
  }

  /** What counts as a failed removal was refused by the OS. */
  lemma {:induction false} OrphansWereRefused<T>(c: Config, r: Run<T>, n: nat, ip: IpAddr)
    requires IsRun(c, r) && n < |r.states| && ip in r.states[n].table.orphans
    ensures exists k :: Refused(r, n, k, ip, false)
  {
    if n > 0 {
      var d, step := r.states[n - 1], r.steps[n - 1];
      assert TakesStep(c, d, step, r.states[n]);
      if ip in d.table.orphans {
        OrphansWereRefused(c, r, n - 1, ip);
        var k :| Refused(r, n - 1, k, ip, false);
        var m :| 0 <= m < n - 1 && m < |r.steps| && m < |r.states| && Refusal(r.states[m], r.steps[m], k, ip, false);
        assert Refused(r, n, k, ip, false);
      } else {
        OrphanStep(c, d, step.0, step.1, ip);
        assert Refused(r, n, step.0, ip, false);
      }
    }
  }

  /** While nobody holds the lock, every kernel route is in the map, or the OS refused to remove it. */
  lemma {:induction false} LeftoverWasRefused<T>(c: Config, r: Run<T>, n: nat, ip: IpAddr)
    requires IsRun(c, r) && n < |r.states| && r.states[n].lock.None? && ip in r.states[n].table.kernel
    ensures ip in r.states[n].table.peerMap || exists k :: Refused(r, n, k, ip, false)
  {
    NoForgottenRoutes(c, r, n, ip);
    if ip in r.states[n].table.orphans {
      OrphansWereRefused(c, r, n, ip);
    }
  }
}
