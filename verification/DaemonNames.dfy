/** What the DNS registry answers over a whole run, and when peer names may be shared. */
module DaemonNames {
  import opened Wrappers
  import opened Net
  import opened RelayTable
  import opened RelayService
  import opened PeerNames
  import opened Daemon
  import opened DaemonLock
  import opened DaemonOwnership

  /** No two configured names fold to the same key. */
  ghost predicate DistinctNames(c: Config) {
    forall j, k :: 0 <= j < k < |c| ==> Lower(c[j]) != Lower(c[k])
  }

  /** A session's name maps to its last registration, if it has one. */
  ghost predicate NameOk<T>(c: Config, d: Daemon<T>, k: nat)
    requires k < |c| == |d.sessions|
  {
    d.sessions[k].registered == if Lower(c[k]) in d.names then Some(d.names[Lower(c[k])]) else None
  }

  /** The routes are those of the last registration, unless a later one failed. */
  ghost predicate RoutesOk<T>(s: Session<T>) {
    match s.registered
    case None => s.routes == []
    case Some(addrs) => addrs != [] && (s.routes == addrs || s.routes == [])
  }

  /** A batch waiting to be registered is never empty. */
  ghost predicate BatchNotEmpty<T>(s: Session<T>) {
    (s.pc.Waiting? || s.pc.Running?) && !s.pc.job.Withdraw? ==> s.pc.job.current != []
  }

  ghost predicate SessionNamed<T>(s: Session<T>) {
    RoutesOk(s) && BatchNotEmpty(s)
  }

  ghost predicate NamesInv<T>(c: Config, d: Daemon<T>) {
    && |c| == |d.sessions|
    && forall k :: 0 <= k < |c| ==> NameOk(c, d, k) && SessionNamed(d.sessions[k])
  }

  lemma {:induction false} SessionNamedStep<T>(c: Config, d: Daemon<T>, k: nat, ev: Event<T>)
    requires Enabled(c, d, k, ev) && SessionNamed(d.sessions[k])
    ensures SessionNamed(Step(c, d, k, ev).sessions[k])
  {
  }

  /** A step touches at most its own session's name. */
  lemma {:induction false} NameStep<T>(c: Config, d: Daemon<T>, k: nat, ev: Event<T>, j: nat)
    requires DistinctNames(c) && |c| == |d.sessions| && j < |c| && Enabled(c, d, k, ev)
    requires NameOk(c, d, j) && SessionNamed(d.sessions[k])
    ensures |Step(c, d, k, ev).sessions| == |c| && NameOk(c, Step(c, d, k, ev), j)
    ensures j != k ==> Step(c, d, k, ev).sessions[j] == d.sessions[j]
  {
  }

  lemma {:induction false} RunKeepsNames<T>(c: Config, r: Run<T>, n: nat)
    requires IsRun(c, r) && DistinctNames(c) && n < |r.states|
    ensures NamesInv(c, r.states[n])
  {
    if n > 0 {
      RunKeepsNames(c, r, n - 1);
      var d, k, ev := r.states[n - 1], r.steps[n - 1].0, r.steps[n - 1].1;
      assert TakesStep(c, d, r.steps[n - 1], r.states[n]);
      SessionNamedStep(c, d, k, ev);
      forall j | 0 <= j < |c| ensures NameOk(c, r.states[n], j) && SessionNamed(r.states[n].sessions[j]) {
        NameStep(c, d, k, ev, j);
      }
    }
  }

  /** A name resolves to the addresses of its last successful registration until its session ends. */
  lemma {:induction false} NameResolves<T>(c: Config, r: Run<T>, n: nat, k: nat, suffix: string, matches: (string, string) -> bool)
    requires IsRun(c, r) && DistinctNames(c) && n < |r.states| && k < |c|
    requires Resolvable(c[k]) && matches(QueryFor(c[k], suffix), suffix)
    ensures |r.states[n].sessions| == |c|
    ensures Resolve(r.states[n].names, matches, suffix, QueryFor(c[k], suffix)) ==
            match r.states[n].sessions[k].registered
            case Some(addrs) => Answer(addrs)
            case None => NxDomain
  {
    RunKeepsNames(c, r, n);
    QueryFindsName(c[k], suffix);
    assert NameOk(c, r.states[n], k);
  }

  /** None of the futures for `ip` in the running batch has been polled. */
  ghost predicate Unpolled<T>(s: Session<T>, ip: IpAddr)
    requires s.pc.Running?
  {
    forall i :: 0 <= i < |s.pc.futs| && i < |JobIps(s, s.pc.job)| && JobIps(s, s.pc.job)[i] == ip ==> s.pc.futs[i] == Fresh
  }

  /**
  What a session's own state says about one of its registered addresses. The name is changed only
  after the routes are, so that an address can be gone from the relay and still be resolved to:
  once its removal has begun, or, dropped from the set, while the new set is registered.
  */
  ghost predicate StillRouted<T>(s: Session<T>, ip: IpAddr) {
    match s.pc
    case Waiting(job) => job.Register? ==> ip in job.current
    case Running(job, _, _) =>
      && (job.Register? || job.Rollback? ==> ip in job.current)
      && (!job.Register? ==> Unpolled(s, ip))
    case _ => true
  }

  /**
  Unless a later registration failed, an address that a name resolves to is in the relay, with its
  route, exactly as long as its session has not begun to take it out.
  */
  lemma {:induction false} ResolvedIsRoutedIff<T>(owner: IpAddr -> nat, c: Config, r: Run<T>, n: nat, k: nat, ip: IpAddr)
    requires OwnRun(owner, c, r) && DistinctNames(c) && n < |r.states| && k < |c| == |r.states[n].sessions|
    requires r.states[n].sessions[k].routes != []
    requires Lower(c[k]) in r.states[n].names && ip in r.states[n].names[Lower(c[k])]
    ensures var d := r.states[n];
            && (ip in d.table.peerMap <==> StillRouted(d.sessions[k], ip))
            && (ip in d.table.peerMap ==> ip in d.table.kernel)
  {
    RunKeepsNames(c, r, n);
    RunKeepsOwnerInv(owner, c, r, n);
    var d := r.states[n];
    assert NameOk(c, d, k) && RoutesOk(d.sessions[k]) && OwnAddresses(owner, d.sessions[k], k);
    assert OwnedCell(owner, d, ip);
    RoutedCellIff(d.sessions[k], ip, At(d.table, ip));
  }

  lemma {:induction false} RoutedCellIff<T>(s: Session<T>, ip: IpAddr, cell: Cell<T>)
    requires CellOk(s, ip, cell) && ip in s.routes && !s.pc.Ended?
    ensures cell.entry.Some? <==> StillRouted(s, ip)
  {
    if s.pc.Running? && !s.pc.job.Register? && ip in JobIps(s, s.pc.job) {
      var ips := JobIps(s, s.pc.job);
      if !Unpolled(s, ip) {
        var i :| 0 <= i < |s.pc.futs| && i < |ips| && ips[i] == ip && s.pc.futs[i] != Fresh;
        assert cell.entry.None?;
      }
    }
  }

  // ----- Names that collide -----

  ghost function Last<T>(r: Run<T>): Daemon<T>
    requires r.states != []
  {
    r.states[|r.states| - 1]
  }

  ghost function Extend<T>(c: Config, r: Run<T>, k: nat, ev: Event<T>): (r': Run<T>)
    requires IsRun(c, r) && Enabled(c, Last(r), k, ev)
    ensures IsRun(c, r') && Last(r') == Step(c, Last(r), k, ev)
  {
    var r' := Run(r.states + [Step(c, Last(r), k, ev)], r.steps + [(k, ev)]);
    assert forall n :: 0 <= n < |r'.steps| ==> TakesStep(c, r'.states[n], r'.steps[n], r'.states[n + 1]) by {
      forall n | 0 <= n < |r'.steps| ensures TakesStep(c, r'.states[n], r'.steps[n], r'.states[n + 1]) {
        if n < |r.steps| {
          assert TakesStep(c, r.states[n], r.steps[n], r.states[n + 1]);
        }
      }
    }
    r'
  }

  /** A new peer's batch of one address, about to be polled for the first time. */
  ghost predicate AboutToInsert<T>(d: Daemon<T>, k: nat, ip: IpAddr, v: T) {
    && k < |d.sessions| && !d.table.panicked && ip !in d.table.peerMap
    && d.sessions[k].pc == Running(Register([ip], v), AllFresh(1), d.table)
  }

  lemma {:induction false} ConnectAndNegotiate<T>(c: Config, r: Run<T>, k: nat, ip: IpAddr, v: T) returns (r': Run<T>)
    requires IsRun(c, r) && k < |c| == |Last(r).sessions|
    requires Last(r).sessions[k] == Session([], Idle, None) && Last(r).lock.None? && !Last(r).table.panicked
    requires ip !in Last(r).table.peerMap
    ensures IsRun(c, r') && AboutToInsert(Last(r'), k, ip, v)
    ensures Last(r').table == Last(r).table && Last(r').names == Last(r).names
    ensures Last(r').sessions == Last(r).sessions[k := Last(r').sessions[k]]
  {
    r' := Extend(c, r, k, LinkUp(v));
    r' := Extend(c, r', k, HandshakeOk([ip]));
    r' := Extend(c, r', k, Acquire);
  }

  lemma {:induction false} InsertAndFinish<T>(c: Config, r: Run<T>, k: nat, ip: IpAddr, v: T) returns (r': Run<T>)
    requires IsRun(c, r) && k < |c| == |Last(r).sessions| && AboutToInsert(Last(r), k, ip, v)
    ensures IsRun(c, r')
    ensures Last(r').sessions == Last(r).sessions[k := Session([ip], Receiving(v), Some([ip]))]
    ensures Last(r').names == Last(r).names[Lower(c[k]) := [ip]]
    ensures Last(r').lock.None? && !Last(r').table.panicked
    ensures Last(r').table.peerMap.Keys == Last(r).table.peerMap.Keys + {ip}
  {
    r' := Extend(c, r, k, Advance(0, Start));
    r' := Extend(c, r', k, Advance(0, Applied));
    r' := Extend(c, r', k, Advance(0, Completed(true)));
    r' := Extend(c, r', k, Finish);
  }

  /** A peer reconnects with another address: its name still resolves to the old one, already gone from the relay. */
  lemma {:induction false} NameOutlivesRoute<T>(c: Config, k: nat, v: T) returns (r: Run<T>)
    requires k < |c|
    ensures IsRun(c, r) && |Last(r).sessions| == |c| && Last(r).sessions[k].routes == [V6(1)]
    ensures Lower(c[k]) in Last(r).names && Last(r).names[Lower(c[k])] == [V6(1)] && V6(1) !in Last(r).table.peerMap
  {
    r := Run([Init(c)], []);
    r := ConnectAndNegotiate(c, r, k, V6(1), v);
    r := InsertAndFinish(c, r, k, V6(1), v);
    r := Reconnect(c, r, k, v);
    r := Extend(c, r, k, HandshakeOk([V6(2)]));
    r := Extend(c, r, k, Acquire);
    r := Extend(c, r, k, Advance(0, Start));
  }

  lemma {:induction false} Reconnect<T>(c: Config, r: Run<T>, k: nat, v: T) returns (r': Run<T>)
    requires IsRun(c, r) && k < |c| == |Last(r).sessions| && !Last(r).table.panicked
    requires Last(r).sessions[k] == Session([V6(1)], Receiving(v), Some([V6(1)]))
    ensures IsRun(c, r') && |Last(r').sessions| == |c| && !Last(r').table.panicked
    ensures Last(r').sessions[k] == Session([V6(1)], Handshaking(v), Some([V6(1)]))
    ensures Last(r').names == Last(r).names && Last(r').lock == Last(r).lock
  {
    r' := Extend(c, r, k, ConnectionDropped);
    r' := Extend(c, r', k, ParkNext);
    r' := Extend(c, r', k, ParkDone);
    r' := Extend(c, r', k, LinkUp(v));
  }

  lemma {:induction false} SharedNameIsOverwritten<T>(c: Config, j: nat, k: nat, v: T) returns (r: Run<T>)
    requires j < k < |c| && Lower(c[j]) == Lower(c[k])
    ensures IsRun(c, r) && |Last(r).sessions| == |c| && !NameOk(c, Last(r), j)
  {
    r := Run([Init(c)], []);
    r := ConnectAndNegotiate(c, r, j, V6(1), v);
    r := InsertAndFinish(c, r, j, V6(1), v);
    r := ConnectAndNegotiate(c, r, k, V6(2), v);
    r := InsertAndFinish(c, r, k, V6(2), v);
    assert Last(r).sessions[j].registered == Some([V6(1)]);
  }

  /** Every name keeps its last registration in every run, exactly when no two names fold together. */
  lemma {:induction false} NamesHoldIffDistinct<T(!new)>(c: Config, v: T)
    ensures (forall r: Run<T>, k: nat :: IsRun(c, r) && k < |c| == |Last(r).sessions| ==> NameOk(c, Last(r), k))
            <==> DistinctNames(c)
  {
    if DistinctNames(c) {
      forall r: Run<T>, k: nat | IsRun(c, r) && k < |c| == |Last(r).sessions| ensures NameOk(c, Last(r), k) {
        RunKeepsNames(c, r, |r.states| - 1);
      }
    } else {
      var j, k :| 0 <= j < k < |c| && Lower(c[j]) == Lower(c[k]);
      var r := SharedNameIsOverwritten(c, j, k, v);
    }
  }
}
