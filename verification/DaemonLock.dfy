/**
What the routing-table lock alone guarantees, in every run: nothing is assumed about which peers
claim which addresses, nor, but for the safety of route guards, about repetitions within a batch.
*/
module DaemonLock {
  import opened Wrappers
  import opened Net
  import opened RelayTable
  import opened RelayService
  import opened Daemon

  /** The lock holder's futures against the table. */
  ghost predicate HolderOk<T>(t: Table<T>, s: Session<T>) {
    && s.pc.Running?
    && var ips := JobIps(s, s.pc.job);
    && |s.pc.futs| == |ips|
    && forall i :: 0 <= i < |ips| ==>
      if s.pc.job.Register? then
        && (s.pc.futs[i] == Done ==> ips[i] in t.peerMap)
        && (s.pc.futs[i] == Awaiting(true) ==> ips[i] in t.kernel)
      else
        && (s.pc.futs[i] != Fresh ==> ips[i] !in t.peerMap)
        && (s.pc.futs[i] == Awaiting(true) ==> ips[i] !in t.kernel)
        && (s.pc.futs[i] == Done && ips[i] in t.kernel ==> ips[i] in t.orphans)
  }

  ghost predicate BeingHandled<T>(d: Daemon<T>, ip: IpAddr) {
    d.lock.Some? && d.lock.value < |d.sessions| &&
    var s := d.sessions[d.lock.value];
    s.pc.Running? && ip in JobIps(s, s.pc.job)
  }

  /** The addresses a session answers for. */
  ghost predicate Claims<T>(s: Session<T>, ip: IpAddr) {
    match s.pc
    case Waiting(job) => ClaimsInJob(s, job, ip)
    case Running(job, _, _) => ClaimsInJob(s, job, ip)
    case _ => ip in s.routes
  }

  ghost predicate ClaimsInJob<T>(s: Session<T>, job: Job<T>, ip: IpAddr) {
    if job.Register? || job.Rollback? then ip in job.current else ip in s.routes
  }

  /** Exactly the lock holder is running, and an ended session has no routes. */
  ghost predicate LockHeld<T>(c: Config, d: Daemon<T>) {
    && |d.sessions| == |c|
    && (d.lock.Some? ==> d.lock.value < |d.sessions|)
    && (forall k :: 0 <= k < |d.sessions| ==> (d.sessions[k].pc.Running? <==> d.lock == Some(k)))
    && (forall k :: 0 <= k < |d.sessions| && d.sessions[k].pc.Ended? ==> d.sessions[k].routes == [])
  }

  /** A kernel route is in the map, or its removal failed, or the lock holder is at work on it. */
  ghost predicate Accounted<T>(d: Daemon<T>, ip: IpAddr) {
    ip in d.table.kernel ==> ip in d.table.peerMap || ip in d.table.orphans || BeingHandled(d, ip)
  }

  ghost predicate Claimed<T>(d: Daemon<T>, ip: IpAddr) {
    ip in d.table.peerMap ==> exists k :: 0 <= k < |d.sessions| && Claims(d.sessions[k], ip)
  }

  ghost predicate LockInv<T>(c: Config, d: Daemon<T>) {
    && LockHeld(c, d)
    && (d.lock.Some? ==> HolderOk(d.table, d.sessions[d.lock.value]))
    && Consistent(d.table)
    && (forall ip :: Accounted(d, ip))
    && (forall ip :: Claimed(d, ip))
  }

  // ----- Steps that leave the lock and the set of entries alone -----

  ghost predicate QuietStep<T>(d: Daemon<T>, d': Daemon<T>, k: nat) {
    && k < |d.sessions| == |d'.sessions|
    && d'.lock == d.lock
    && !d.sessions[k].pc.Running? && !d'.sessions[k].pc.Running?
    && (d'.sessions[k].pc.Ended? ==> d'.sessions[k].routes == [])
    && (forall j :: 0 <= j < |d.sessions| && j != k ==> d'.sessions[j] == d.sessions[j])
    && (forall ip :: Claims(d.sessions[k], ip) ==> Claims(d'.sessions[k], ip))
    && d'.table.kernel == d.table.kernel && d'.table.orphans == d.table.orphans
    && d'.table.panicked == d.table.panicked
    && d'.table.peerMap.Keys == d.table.peerMap.Keys
    && (forall ip :: ip in d.table.peerMap ==> d'.table.peerMap[ip].route == d.table.peerMap[ip].route)
  }

  lemma {:induction false} StepIsQuiet<T>(c: Config, d: Daemon<T>, k: nat, ev: Event<T>)
    requires LockHeld(c, d) && Enabled(c, d, k, ev) && !ev.Acquire? && !ev.Advance? && !ev.Finish?
    ensures QuietStep(d, Step(c, d, k, ev), k)
  {
  }

  lemma {:induction false} QuietKeepsLockInv<T>(c: Config, d: Daemon<T>, d': Daemon<T>, k: nat)
    requires LockInv(c, d) && QuietStep(d, d', k)
    ensures LockInv(c, d')
  {
    forall ip
      ensures Accounted(d', ip)
      ensures Claimed(d', ip)
    {
      assert Accounted(d, ip) && Claimed(d, ip);
      if ip in d'.table.peerMap {
        var j :| 0 <= j < |d.sessions| && Claims(d.sessions[j], ip);
        assert Claims(d'.sessions[j], ip);
      }
    }
  }

  // ----- Steps of the lock holder -----

  lemma {:induction false} AcquireKeepsLockInv<T>(c: Config, d: Daemon<T>, k: nat)
    requires LockInv(c, d) && Enabled(c, d, k, Acquire)
    ensures LockInv(c, Step(c, d, k, Acquire))
  {
    var d' := Step(c, d, k, Acquire);
    forall ip
      ensures Accounted(d', ip)
      ensures Claimed(d', ip)
    {
      assert Accounted(d, ip) && Claimed(d, ip);
      if ip in d'.table.peerMap {
        var j :| 0 <= j < |d.sessions| && Claims(d.sessions[j], ip);
        assert Claims(d'.sessions[j], ip);
      }
    }
  }

  lemma {:induction false} AdvanceKeepsHolder<T>(c: Config, d: Daemon<T>, k: nat, i: nat, e: Poll)
    requires LockInv(c, d) && Enabled(c, d, k, Advance(i, e))
    ensures var d' := AdvanceJob(d, k, i, e);
            LockHeld(c, d') && Consistent(d'.table) && d'.lock == Some(k) && HolderOk(d'.table, d'.sessions[k])
  {
    assert HolderOk(d.table, d.sessions[k]);
  }

  lemma {:induction false} AdvanceKeepsAddress<T>(c: Config, d: Daemon<T>, k: nat, i: nat, e: Poll, ip: IpAddr)
    requires LockInv(c, d) && Enabled(c, d, k, Advance(i, e))
    ensures var d' := AdvanceJob(d, k, i, e); Accounted(d', ip) && Claimed(d', ip)
  {
    var d' := AdvanceJob(d, k, i, e);
    var s := d.sessions[k];
    assert d.lock == Some(k) && HolderOk(d.table, s);
    assert Accounted(d, ip) && Claimed(d, ip);
    assert BeingHandled(d, ip) <==> BeingHandled(d', ip);
    assert Claims(s, ip) <==> Claims(d'.sessions[k], ip);
    if ip in d.table.peerMap {
      var j :| 0 <= j < |d.sessions| && Claims(d.sessions[j], ip);
      assert Claims(d'.sessions[j], ip);
    } else if ip in d'.table.peerMap {
      assert Claims(d'.sessions[k], ip);
    }
  }

  lemma {:induction false} FinishKeepsLockInv<T>(c: Config, d: Daemon<T>, k: nat)
    requires LockInv(c, d) && Enabled(c, d, k, Finish)
    ensures LockInv(c, FinishJob(c, d.(lock := None), k))
  {
    var d' := FinishJob(c, d.(lock := None), k);
    var s := d.sessions[k];
    assert d.lock == Some(k) && HolderOk(d.table, s);
    forall ip
      ensures Accounted(d', ip)
      ensures Claimed(d', ip)
    {
      assert Accounted(d, ip) && Claimed(d, ip);
      if ip in d'.table.peerMap {
        var j :| 0 <= j < |d.sessions| && Claims(d.sessions[j], ip);
        assert Claims(d'.sessions[j], ip);
      }
    }
  }

  lemma {:induction false} LockInvStep<T>(c: Config, d: Daemon<T>, k: nat, ev: Event<T>)
    requires LockInv(c, d) && Enabled(c, d, k, ev)
    ensures LockInv(c, Step(c, d, k, ev))
  {
    match ev
    case Acquire => AcquireKeepsLockInv(c, d, k);
    case Advance(i, e) =>
      AdvanceKeepsHolder(c, d, k, i, e);
      forall ip
        ensures Accounted(AdvanceJob(d, k, i, e), ip)
        ensures Claimed(AdvanceJob(d, k, i, e), ip)
      {
        AdvanceKeepsAddress(c, d, k, i, e, ip);
      }
    case Finish => FinishKeepsLockInv(c, d, k);
    case _ =>
      StepIsQuiet(c, d, k, ev);
      QuietKeepsLockInv(c, d, Step(c, d, k, ev), k);
  }

  // ----- Guards -----

  /** The lock holder's registration against the table it started from. */
  ghost predicate GuardedJob<T>(t: Table<T>, s: Session<T>) {
    s.pc.Running? && s.pc.job.Register? ==>
      && FreshlyDistinct(s.pc.base.peerMap, s.pc.job.current)
      && s.pc.base.peerMap.Keys <= t.peerMap.Keys
      && NothingToDisplace(t, s.pc.job.current, s.pc.futs)
  }

  ghost predicate GuardInv<T>(d: Daemon<T>) {
    && !d.table.panicked
    && forall k :: 0 <= k < |d.sessions| ==> GuardedJob(d.table, d.sessions[k])
  }

  /** A registration about to start repeats no address that is new to the map. */
  ghost predicate FreshStart<T>(d: Daemon<T>, step: (nat, Event<T>)) {
    step.1.Acquire? && step.0 < |d.sessions| && d.sessions[step.0].pc.Waiting? && d.sessions[step.0].pc.job.Register? ==>
      FreshlyDistinct(d.table.peerMap, d.sessions[step.0].pc.job.current)
  }

  ghost predicate FreshBatches<T>(r: Run<T>) {
    forall n :: 0 <= n < |r.steps| && n < |r.states| ==> FreshStart(r.states[n], r.steps[n])
  }

  lemma {:induction false} AdvanceKeepsGuards<T>(c: Config, d: Daemon<T>, k: nat, i: nat, e: Poll)
    requires LockInv(c, d) && GuardInv(d) && Enabled(c, d, k, Advance(i, e))
    ensures GuardInv(AdvanceJob(d, k, i, e))
  {
    var s := d.sessions[k];
    assert d.lock == Some(k) && GuardedJob(d.table, s);
    if s.pc.job.Register? && e != Completed(false) {
      GuardStep(s.pc.base.peerMap, d.table, s.pc.job.current, s.pc.futs, s.pc.job.conn, i, e);
    }
  }

  lemma {:induction false} GuardInvStep<T>(c: Config, d: Daemon<T>, k: nat, ev: Event<T>)
    requires LockInv(c, d) && GuardInv(d) && Enabled(c, d, k, ev) && FreshStart(d, (k, ev))
    ensures GuardInv(Step(c, d, k, ev))
  {
    if ev.Advance? {
      AdvanceKeepsGuards(c, d, k, ev.i, ev.e);
    } else if !ev.Acquire? && !ev.Finish? {
      StepIsQuiet(c, d, k, ev);
    }
  }

  // ----- Every state of every run -----

  lemma {:induction false} RunKeepsLockInv<T>(c: Config, r: Run<T>, n: nat)
    requires IsRun(c, r) && n < |r.states|
    ensures LockInv(c, r.states[n])
  {
    if n == 0 {
    } else {
      RunKeepsLockInv(c, r, n - 1);
      assert TakesStep(c, r.states[n - 1], r.steps[n - 1], r.states[n]);
      LockInvStep(c, r.states[n - 1], r.steps[n - 1].0, r.steps[n - 1].1);
    }
  }

  /** Insertion is kernel-then-map and removal map-then-kernel: the map never outruns the kernel. */
  lemma {:induction false} EntriesAreRouted<T>(c: Config, r: Run<T>, n: nat, ip: IpAddr)
    requires IsRun(c, r) && n < |r.states|
    ensures ip in r.states[n].table.peerMap ==> ip in r.states[n].table.kernel
  {
    RunKeepsLockInv(c, r, n);
  }

  /** While nobody holds the lock, a kernel route without an entry is one whose removal failed. */
  lemma {:induction false} NoForgottenRoutes<T>(c: Config, r: Run<T>, n: nat, ip: IpAddr)
    requires IsRun(c, r) && n < |r.states| && r.states[n].lock.None?
    ensures ip in r.states[n].table.kernel ==> ip in r.states[n].table.peerMap || ip in r.states[n].table.orphans
  {
    RunKeepsLockInv(c, r, n);
    assert Accounted(r.states[n], ip);
  }

  /** Once every session has ended, the relay is empty and can be dropped without a panic. */
  lemma {:induction false} EndedSessionsLeaveNothing<T>(c: Config, r: Run<T>, n: nat)
    requires IsRun(c, r) && n < |r.states|
    requires forall k :: 0 <= k < |r.states[n].sessions| ==> r.states[n].sessions[k].pc.Ended?
    ensures r.states[n].table.peerMap == map[]
    ensures r.states[n].table.kernel <= r.states[n].table.orphans
  {
    RunKeepsLockInv(c, r, n);
    var d := r.states[n];
    forall ip ensures ip !in d.table.peerMap && (ip in d.table.kernel ==> ip in d.table.orphans) {
      assert Claimed(d, ip) && Accounted(d, ip);
    }
  }

  /** No run destroys an armed route guard unless some registration repeats an address new to the map. */
  lemma {:induction false} GuardsAreReleased<T>(c: Config, r: Run<T>, n: nat)
    requires IsRun(c, r) && FreshBatches(r) && n < |r.states|
    ensures !r.states[n].table.panicked && GuardInv(r.states[n])
  {
    if n == 0 {
    } else {
      GuardsAreReleased(c, r, n - 1);
      RunKeepsLockInv(c, r, n - 1);
      assert TakesStep(c, r.states[n - 1], r.steps[n - 1], r.states[n]) && FreshStart(r.states[n - 1], r.steps[n - 1]);
      GuardInvStep(c, r.states[n - 1], r.steps[n - 1].0, r.steps[n - 1].1);
    }
  }

  ghost predicate DistinctJob<T>(s: Session<T>) {
    (s.pc.Waiting? || s.pc.Running?) && !s.pc.job.Withdraw? ==> Distinct(s.pc.job.current)
  }

  lemma {:induction false} DistinctJobStep<T>(c: Config, d: Daemon<T>, k: nat, ev: Event<T>, j: nat)
    requires Enabled(c, d, k, ev) && j < |d.sessions| && DistinctJob(d.sessions[j])
    requires ev.HandshakeOk? ==> Distinct(ev.current)
    ensures j < |Step(c, d, k, ev).sessions| && DistinctJob(Step(c, d, k, ev).sessions[j])
  {
  }

  lemma {:induction false} RunKeepsDistinctJobs<T>(c: Config, r: Run<T>, n: nat, j: nat)
    requires IsRun(c, r) && DistinctBatches(r) && n < |r.states| && j < |r.states[n].sessions|
    ensures DistinctJob(r.states[n].sessions[j])
  {
    if n > 0 {
      assert TakesStep(c, r.states[n - 1], r.steps[n - 1], r.states[n]);
      RunKeepsLockInv(c, r, n - 1);
      RunKeepsLockInv(c, r, n);
      RunKeepsDistinctJobs(c, r, n - 1, j);
      DistinctJobStep(c, r.states[n - 1], r.steps[n - 1].0, r.steps[n - 1].1, j);
    }
  }

  /** Handshakes that negotiate distinct addresses make every registration safe. */
  lemma {:induction false} DistinctBatchesAreFresh<T>(c: Config, r: Run<T>)
    requires IsRun(c, r) && DistinctBatches(r)
    ensures FreshBatches(r)
  {
    forall n | 0 <= n < |r.steps| && n < |r.states| ensures FreshStart(r.states[n], r.steps[n]) {
      if r.steps[n].0 < |r.states[n].sessions| {
        RunKeepsDistinctJobs(c, r, n, r.steps[n].0);
      }
    }
  }

  // ----- The lock is always given back -----

  /** Steps the lock holder can still take before it must let go. */
  ghost function HolderWork<T>(s: Session<T>): nat
    requires s.pc.Running?
  {
    Work(s.pc.futs) + if s.pc.job.Register? then 3 * |s.pc.job.current| + 1 else 0
  }

  lemma {:induction false} FreshWork(n: nat)
    ensures Work(AllFresh(n)) == 3 * n
  {
    if n > 0 {
      FreshWork(n - 1);
      assert AllFresh(n)[1..] == AllFresh(n - 1);
    }
  }

  lemma {:induction false} PollShrinksWork<T>(c: Config, d: Daemon<T>, k: nat, i: nat, e: Poll)
    requires Enabled(c, d, k, Advance(i, e))
    ensures HolderWork(AdvanceJob(d, k, i, e).sessions[k]) < HolderWork(d.sessions[k])
  {
    var s := d.sessions[k];
    if s.pc.job.Register? {
      WorkUpdate(s.pc.futs, i, InsertNext(d.table, s.pc.job.current[i], e));
      FreshWork(|s.pc.job.current|);
    } else {
      WorkUpdate(s.pc.futs, i, RemoveNext(e));
    }
  }

  /**
  In every state of every run the lock holder can move, whatever the others do, and each of its
  polls leaves it with less to do: no schedule keeps the lock for ever.
  */
  lemma {:induction false} LockHolderProgresses<T>(c: Config, r: Run<T>, n: nat, k: nat)
    requires IsRun(c, r) && n < |r.states| && r.states[n].lock == Some(k) && !r.states[n].table.panicked
    ensures var d := r.states[n];
            Enabled(c, d, k, Finish) || exists i: nat, e :: Enabled(c, d, k, Advance(i, e))
    ensures var d := r.states[n];
            forall i: nat, e :: Enabled(c, d, k, Advance(i, e)) ==>
              HolderWork(AdvanceJob(d, k, i, e).sessions[k]) < HolderWork(d.sessions[k])
  {
    RunKeepsLockInv(c, r, n);
    var d := r.states[n];
    var s := d.sessions[k];
    if Work(s.pc.futs) == 0 {
      NoWorkMeansDone(s.pc.futs);
      assert Enabled(c, d, k, Finish);
    } else {
      var i, e := UnfinishedHasFuture(s.pc.futs);
      assert Enabled(c, d, k, Advance(i, e));
    }
    forall i: nat, e | Enabled(c, d, k, Advance(i, e))
      ensures HolderWork(AdvanceJob(d, k, i, e).sessions[k]) < HolderWork(s)
    {
      PollShrinksWork(c, d, k, i, e);
    }
  }
}
