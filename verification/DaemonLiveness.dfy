/** What every session can always bring about, once the lock is free and the OS grants its calls. */
module DaemonLiveness {
  import opened Wrappers
  import opened Net
  import opened RelayTable
  import opened RelayService
  import opened PeerNames
  import opened Daemon
  import opened DaemonLock
  import opened DaemonNames

  /** The run is going on, and session `k` holds the lock for the job `job`. */
  ghost predicate Holding<T>(c: Config, r: Run<T>, k: nat, job: Job<T>) {
    && IsRun(c, r) && GuardInv(Last(r)) && Last(r).lock == Some(k)
    && k < |Last(r).sessions| == |c| && Last(r).sessions[k].pc.Running? && Last(r).sessions[k].pc.job == job
  }

  /** The run is going on, and session `k`, with the lock free, is at `pc`. */
  ghost predicate Resting<T>(c: Config, r: Run<T>, k: nat, pc: Pc<T>) {
    && IsRun(c, r) && GuardInv(Last(r)) && Last(r).lock.None?
    && k < |Last(r).sessions| == |c| && Last(r).sessions[k].pc == pc
  }

  /** Nothing but session `k` has changed, and of the map nothing but entries of `ips`. */
  ghost predicate OnlySession<T>(d: Daemon<T>, d': Daemon<T>, k: nat, ips: seq<IpAddr>) {
    && k < |d.sessions| && |d'.sessions| == |d.sessions|
    && (forall j :: 0 <= j < |d.sessions| && j != k ==> d'.sessions[j] == d.sessions[j])
    && forall ip :: ip !in ips ==> (ip in d'.table.peerMap <==> ip in d.table.peerMap)
  }

  lemma {:induction false} PollTouches<T>(c: Config, d: Daemon<T>, k: nat, i: nat, e: Poll)
    requires Enabled(c, d, k, Advance(i, e)) && e != Completed(false)
    ensures var s, d' := d.sessions[k], AdvanceJob(d, k, i, e);
            && OnlySession(d, d', k, JobIps(s, s.pc.job)) && d'.lock == d.lock && d'.names == d.names
            && d'.sessions[k].routes == s.routes && d'.sessions[k].pc.Running? && d'.sessions[k].pc.job == s.pc.job
            && d'.sessions[k].registered == s.registered
            && Work(d'.sessions[k].pc.futs) < Work(s.pc.futs)
  {
    var s := d.sessions[k];
    var next := if s.pc.job.Register? then InsertNext(d.table, JobIps(s, s.pc.job)[i], e) else RemoveNext(e);
    assert JobIps(s, s.pc.job)[i] in JobIps(s, s.pc.job);
    WorkUpdate(s.pc.futs, i, next);
  }

  /** The lock holder, left to itself, can run its batch to the end. */
  lemma {:induction false} BatchCanFinish<T>(c: Config, r: Run<T>, k: nat, job: Job<T>) returns (r': Run<T>)
    requires Holding(c, r, k, job)
    ensures Holding(c, r', k, job) && AllDone(Last(r').sessions[k].pc.futs)
    ensures Last(r').sessions[k].routes == Last(r).sessions[k].routes && Last(r').names == Last(r).names
    ensures Last(r').sessions[k].registered == Last(r).sessions[k].registered
    ensures OnlySession(Last(r), Last(r'), k, JobIps(Last(r).sessions[k], job))
    decreases Work(Last(r).sessions[k].pc.futs)
  {
    var d := Last(r);
    var futs := d.sessions[k].pc.futs;
    RunKeepsLockInv(c, r, |r.states| - 1);
    if Work(futs) == 0 {
      NoWorkMeansDone(futs);
      r' := r;
    } else {
      var i, e := UnfinishedHasFuture(futs);
      PollTouches(c, d, k, i, e);
      AdvanceKeepsGuards(c, d, k, i, e);
      r' := Extend(c, r, k, Advance(i, e));
      r' := BatchCanFinish(c, r', k, job);
    }
  }

  lemma {:induction false} AcquireAndFinish<T>(c: Config, r: Run<T>, k: nat, job: Job<T>) returns (r': Run<T>)
    requires Resting(c, r, k, Waiting(job)) && !job.Rollback?
    requires job.Register? ==> FreshlyDistinct(Last(r).table.peerMap, job.current)
    ensures Holding(c, r', k, job) && AllDone(Last(r').sessions[k].pc.futs)
    ensures Last(r').sessions[k].routes == Last(r).sessions[k].routes && Last(r').names == Last(r).names
    ensures Last(r').sessions[k].registered == Last(r).sessions[k].registered
    ensures OnlySession(Last(r), Last(r'), k, JobIps(Last(r).sessions[k], job))
  {
    RunKeepsLockInv(c, r, |r.states| - 1);
    GuardInvStep(c, Last(r), k, Acquire);
    r' := Extend(c, r, k, Acquire);
    assert JobIps(Last(r').sessions[k], job) == JobIps(Last(r).sessions[k], job);
    r' := BatchCanFinish(c, r', k, job);
  }

  lemma {:induction false} FinishReleases<T>(c: Config, r: Run<T>, k: nat, job: Job<T>) returns (r': Run<T>)
    requires Holding(c, r, k, job) && AllDone(Last(r).sessions[k].pc.futs)
    ensures IsRun(c, r') && GuardInv(Last(r')) && Last(r').lock.None?
    ensures Last(r') == FinishJob(c, Last(r).(lock := None), k)
  {
    RunKeepsLockInv(c, r, |r.states| - 1);
    GuardInvStep(c, Last(r), k, Finish);
    r' := Extend(c, r, k, Finish);
  }

  lemma {:induction false} StaleGone<T>(c: Config, r: Run<T>, k: nat, current: seq<IpAddr>, conn: T) returns (r': Run<T>)
    requires Resting(c, r, k, Waiting(DropStale(current, conn))) && FreshlyDistinct(Last(r).table.peerMap, current)
    ensures Resting(c, r', k, Waiting(Register(current, conn))) && FreshlyDistinct(Last(r').table.peerMap, current)
  {
    var job := DropStale(current, conn);
    r' := AcquireAndFinish(c, r, k, job);
    assert forall ip :: ip in current ==> ip !in JobIps(Last(r).sessions[k], job);
    var done := Last(r');
    r' := FinishReleases(c, r', k, job);
    assert Last(r').table == done.table;
  }

  /**
  Whatever the other sessions are in the middle of, as long as none of them holds the lock, an idle
  session can connect and register any set that repeats no new address, and its name with it.
  */
  lemma {:induction false} RegistrationIsPossible<T>(c: Config, r: Run<T>, k: nat, current: seq<IpAddr>, conn: T) returns (r': Run<T>)
    requires Resting(c, r, k, Idle) && current != [] && FreshlyDistinct(Last(r).table.peerMap, current)
    ensures IsRun(c, r') && k < |c| == |Last(r').sessions|
    ensures Last(r').sessions[k] == Session(current, Receiving(conn), Some(current))
    ensures Lower(c[k]) in Last(r').names && Last(r').names[Lower(c[k])] == current
    ensures forall ip :: ip in current ==> ip in Last(r').table.peerMap && ip in Last(r').table.kernel
  {
    r' := Negotiated(c, r, k, current, conn);
    if Last(r').sessions[k].pc.job.DropStale? {
      r' := StaleGone(c, r', k, current, conn);
    }
    r' := AcquireAndFinish(c, r', k, Register(current, conn));
    RunKeepsLockInv(c, r', |r'.states| - 1);
    assert HolderOk(Last(r').table, Last(r').sessions[k]);
    var done := Last(r');
    forall ip | ip in current ensures ip in done.table.peerMap && ip in done.table.kernel {
      var i :| 0 <= i < |current| && current[i] == ip;
      assert done.sessions[k].pc.futs[i] == Done;
    }
    r' := FinishReleases(c, r', k, Register(current, conn));
  }

  lemma {:induction false} Negotiated<T>(c: Config, r: Run<T>, k: nat, current: seq<IpAddr>, conn: T) returns (r': Run<T>)
    requires Resting(c, r, k, Idle) && current != []
    ensures exists job :: (job == Register(current, conn) || job == DropStale(current, conn)) && Resting(c, r', k, Waiting(job))
    ensures Last(r').table == Last(r).table
  {
    var d := Last(r);
    RunKeepsLockInv(c, r, |r.states| - 1);
    GuardInvStep(c, d, k, LinkUp(conn));
    r' := Extend(c, r, k, LinkUp(conn));
    RunKeepsLockInv(c, r', |r'.states| - 1);
    GuardInvStep(c, Last(r'), k, HandshakeOk(current));
    r' := Extend(c, r', k, HandshakeOk(current));
    assert Resting(c, r', k, Last(r').sessions[k].pc);
  }

  /** And it can end, whenever its link task does. */
  lemma {:induction false} EndIsPossible<T>(c: Config, r: Run<T>, k: nat) returns (r': Run<T>)
    requires Resting(c, r, k, Idle)
    ensures IsRun(c, r') && k < |c| == |Last(r').sessions| && Last(r').sessions[k] == Session([], Ended, None)
    ensures Lower(c[k]) !in Last(r').names
    ensures forall ip :: ip in Last(r).sessions[k].routes ==> ip !in Last(r').table.peerMap
  {
    var d := Last(r);
    RunKeepsLockInv(c, r, |r.states| - 1);
    GuardInvStep(c, d, k, LinkEnded);
    r' := Extend(c, r, k, LinkEnded);
    if d.sessions[k].routes != [] {
      r' := AcquireAndFinish(c, r', k, Withdraw);
      RunKeepsLockInv(c, r', |r'.states| - 1);
      var done := Last(r');
      assert HolderOk(done.table, done.sessions[k]);
      forall ip | ip in d.sessions[k].routes ensures ip !in done.table.peerMap {
        var i :| 0 <= i < |d.sessions[k].routes| && d.sessions[k].routes[i] == ip;
        assert done.sessions[k].pc.futs[i] == Done;
      }
      r' := FinishReleases(c, r', k, Withdraw);
    }
  }
}
