/**
The relay: the map from addresses to peers, kept in step with the kernel routing table.

Each method runs its futures under an arbitrary scheduler (any future may advance next, the OS may
report anything it is allowed to) and is specified by what an atomic operation would have done.
*/
module RelayService {
  import opened Wrappers
  import opened Net
  import opened RelayTable

  datatype InsertResult = Inserted | InsertFailed | InsertPanicked

  /** The map once every address of `ips` is connected to `v`. */
  function Armed<T>(m: map<IpAddr, PeerValue<T>>, ips: seq<IpAddr>, v: T): map<IpAddr, PeerValue<T>> {
    map ip | ip in m.Keys + Elements(ips) :: if ip in ips then PeerValue(Some(v), ip) else m[ip]
  }

  function Elements(ips: seq<IpAddr>): set<IpAddr> {
    set ip | ip in ips
  }

  function AllParked<T>(m: map<IpAddr, PeerValue<T>>, ips: seq<IpAddr>): map<IpAddr, PeerValue<T>> {
    map ip | ip in m :: if ip in ips then m[ip].(value := None) else m[ip]
  }

  /** The addresses of `previous` that `current` no longer has, in order. */
  function Stale(previous: seq<IpAddr>, current: seq<IpAddr>): (stale: seq<IpAddr>)
    ensures forall ip :: ip in stale <==> ip in previous && ip !in current
  {
    if previous == [] then []
    else if previous[0] in current then Stale(previous[1..], current)
    else [previous[0]] + Stale(previous[1..], current)
  }

  lemma {:induction false} StaleKeepsOrder(a: seq<IpAddr>, b: seq<IpAddr>, current: seq<IpAddr>)
    ensures Stale(a + b, current) == Stale(a, current) + Stale(b, current)
  {
    if a == [] {
      assert a + b == b;
    } else {
      assert (a + b)[1..] == a[1..] + b;
      StaleKeepsOrder(a[1..], b, current);
    }
  }

  /** Steps a batch of futures still has ahead of it. */
  function Work(futs: seq<Fut>): nat {
    if futs == [] then 0 else FutWork(futs[0]) + Work(futs[1..])
  }

  function FutWork(f: Fut): nat {
    match f
    case Fresh => 3
    case Awaiting(applied) => if applied then 1 else 2
    case Done => 0
  }

  lemma {:induction false} WorkUpdate(futs: seq<Fut>, i: nat, f: Fut)
    requires i < |futs|
    ensures Work(futs[i := f]) == Work(futs) - FutWork(futs[i]) + FutWork(f)
  {
    if i == 0 {
      assert futs[i := f][1..] == futs[1..];
    } else {
      assert futs[i := f][1..] == futs[1..][i - 1 := f];
      WorkUpdate(futs[1..], i - 1, f);
    }
  }

  lemma {:induction false} NoWorkMeansDone(futs: seq<Fut>)
    requires Work(futs) == 0
    ensures AllDone(futs)
  {
    if futs != [] {
      NoWorkMeansDone(futs[1..]);
      assert futs == [futs[0]] + futs[1..];
    }
  }

  lemma {:induction false} UnfinishedHasFuture(futs: seq<Fut>) returns (i: nat, e: Poll)
    requires Work(futs) > 0
    ensures i < |futs| && CanAdvance(futs[i], e) && e != Completed(false)
  {
    if FutWork(futs[0]) > 0 {
      i, e := 0, if futs[0].Fresh? then Start else if futs[0].applied then Completed(true) else Applied;
    } else {
      i, e := UnfinishedHasFuture(futs[1..]);
      i := i + 1;
    }
  }

  /**
  What the OS will say about calls of one kind: it refuses some addresses, grants others, and may do
  either with the rest, differently each time.
  */
  datatype Verdicts = Verdicts(refuses: set<IpAddr>, grants: set<IpAddr>)

  datatype Os = Os(adds: Verdicts, deletes: Verdicts)

  predicate MayReport(v: Verdicts, ip: IpAddr, ok: bool) {
    if ok then ip !in v.refuses else ip in v.refuses || ip !in v.grants
  }

  /** The OS has no choice but to carry the call out. */
  predicate Grants(v: Verdicts, ip: IpAddr) {
    !MayReport(v, ip, false)
  }

  /** The executor: any future that can advance, by any step open to it, the OS reporting as it may. */
  method Schedule(futs: seq<Fut>, ips: seq<IpAddr>, v: Verdicts) returns (i: nat, e: Poll)
    requires Work(futs) > 0 && |futs| == |ips|
    ensures i < |futs| && CanAdvance(futs[i], e) && (e.Completed? ==> MayReport(v, ips[i], e.ok))
  {
    ghost var j, f := UnfinishedHasFuture(futs);
    if f.Completed? {
      assert CanAdvance(futs[j], Completed(ips[j] !in v.refuses)) && MayReport(v, ips[j], ips[j] !in v.refuses);
    }
    i, e :| 0 <= i < |futs| && CanAdvance(futs[i], e) && (e.Completed? ==> MayReport(v, ips[i], e.ok));
  }

  /** Calls from index `n` on are route additions, for addresses of `ips` that `m` does not have. */
  ghost predicate OnlyNewRoutes<T>(calls: seq<OsCall>, n: nat, m: map<IpAddr, PeerValue<T>>, ips: seq<IpAddr>) {
    forall k :: n <= k < |calls| ==> calls[k].AddRoute? && calls[k].ip in ips && calls[k].ip !in m
  }

  /** The call was issued, at index `n` or later. */
  ghost predicate Issued(calls: seq<OsCall>, n: nat, call: OsCall) {
    exists k :: n <= k < |calls| && calls[k] == call
  }

  /** A join in progress, from the table `base`. */
  ghost predicate Joining<T>(base: Table<T>, t: Table<T>, ips: seq<IpAddr>, futs: seq<Fut>, v: T) {
    && |futs| == |ips|
    && (forall ip :: JoiningOk(At(base, ip), ips, futs, v, ip, At(t, ip)))
    && base.calls <= t.calls && OnlyNewRoutes(t.calls, |base.calls|, base.peerMap, ips)
    && Consistent(t) && base.peerMap.Keys <= t.peerMap.Keys
  }

  lemma {:induction false} JoinStep<T>(base: Table<T>, t: Table<T>, ips: seq<IpAddr>, futs: seq<Fut>, v: T, i: nat, e: Poll)
    requires Consistent(base) && Joining(base, t, ips, futs, v)
    requires i < |ips| && CanAdvance(futs[i], e) && e != Completed(false)
    ensures Joining(base, InsertEffect(t, ips[i], v, e), ips, futs[i := InsertNext(t, ips[i], e)], v)
  {
    assert JoiningOk(At(base, ips[i]), ips, futs, v, ips[i], At(t, ips[i]));
    JoiningStepAll(base, t, ips, futs, v, i, e);
  }

  /** What is new in the map was asked of the OS and not refused. */
  ghost predicate AskedFor<T>(base: Table<T>, t: Table<T>, ips: seq<IpAddr>, futs: seq<Fut>, os: Verdicts) {
    && |futs| == |ips|
    && (forall i :: 0 <= i < |ips| && futs[i].Awaiting? ==> Issued(t.calls, |base.calls|, AddRoute(ips[i])))
    && (forall ip :: ip in t.peerMap && ip !in base.peerMap ==>
         Issued(t.calls, |base.calls|, AddRoute(ip)) && MayReport(os, ip, true) && ip !in t.orphans)
  }

  lemma {:induction false} IssuedStays(calls: seq<OsCall>, more: seq<OsCall>, n: nat)
    ensures forall call :: Issued(calls, n, call) ==> Issued(calls + more, n, call)
  {
    forall call | Issued(calls, n, call) ensures Issued(calls + more, n, call) {
      var k :| n <= k < |calls| && calls[k] == call;
      assert (calls + more)[k] == call;
    }
  }

  lemma {:induction false} IssuedNow(calls: seq<OsCall>, n: nat, call: OsCall)
    requires n <= |calls|
    ensures Issued(calls + [call], n, call)
  {
    assert (calls + [call])[|calls|] == call;
  }

  lemma {:induction false} AskStep<T>(base: Table<T>, t: Table<T>, ips: seq<IpAddr>, futs: seq<Fut>, v: T, i: nat, e: Poll, os: Verdicts)
    requires AskedFor(base, t, ips, futs, os) && |base.calls| <= |t.calls|
    requires i < |ips| && CanAdvance(futs[i], e) && e != Completed(false) && (e.Completed? ==> MayReport(os, ips[i], e.ok))
    ensures AskedFor(base, InsertEffect(t, ips[i], v, e), ips, futs[i := InsertNext(t, ips[i], e)], os)
  {
    IssuedStays(t.calls, [AddRoute(ips[i])], |base.calls|);
    IssuedNow(t.calls, |base.calls|, AddRoute(ips[i]));
  }

  /** What has been polled was asked of the OS, and is gone once done if the OS had to carry it out. */
  ghost predicate AskedAway<T>(base: Table<T>, t: Table<T>, ips: seq<IpAddr>, futs: seq<Fut>, os: Verdicts) {
    && |futs| == |ips|
    && forall i :: 0 <= i < |ips| ==>
      && (futs[i] != Fresh ==> Issued(t.calls, |base.calls|, DeleteRoute(ips[i])))
      && (futs[i] == Done && Grants(os, ips[i]) ==> ips[i] !in t.kernel && ips[i] !in t.orphans)
      && (futs[i] == Awaiting(true) ==> ips[i] !in t.kernel)
  }

  lemma {:induction false} AskAwayStep<T>(base: Table<T>, t: Table<T>, ips: seq<IpAddr>, futs: seq<Fut>, i: nat, e: Poll, os: Verdicts)
    requires AskedAway(base, t, ips, futs, os) && |base.calls| <= |t.calls|
    requires i < |ips| && CanAdvance(futs[i], e) && (e.Completed? ==> MayReport(os, ips[i], e.ok))
    ensures AskedAway(base, RemoveEffect(t, ips[i], e), ips, futs[i := RemoveNext(e)], os)
  {
    IssuedStays(t.calls, [DeleteRoute(ips[i])], |base.calls|);
    IssuedNow(t.calls, |base.calls|, DeleteRoute(ips[i]));
  }

  /** Every address of the batch is known already, or its addition is sure to be granted. */
  ghost predicate SureToInsert<T>(m: map<IpAddr, PeerValue<T>>, ips: seq<IpAddr>, os: Verdicts) {
    forall ip :: ip in ips ==> ip in m || Grants(os, ip)
  }

  /** Some new address of the batch is sure to be refused. */
  ghost predicate SureToFail<T>(m: map<IpAddr, PeerValue<T>>, ips: seq<IpAddr>, os: Verdicts) {
    exists ip :: ip in ips && ip !in m && !MayReport(os, ip, true)
  }

  /** The OS is asked only about addresses that are new. */
  lemma {:induction false} AwaitedIsNew<T>(base: Table<T>, t: Table<T>, ips: seq<IpAddr>, futs: seq<Fut>, v: T, i: nat)
    requires Joining(base, t, ips, futs, v) && i < |ips| && futs[i].Awaiting?
    ensures ips[i] in ips && ips[i] !in base.peerMap
  {
    assert JoiningOk(At(base, ips[i]), ips, futs, v, ips[i], At(t, ips[i]));
  }

  lemma {:induction false} InsertedWasGranted<T>(base: Table<T>, t: Table<T>, ips: seq<IpAddr>, futs: seq<Fut>, v: T, os: Verdicts)
    requires Joining(base, t, ips, futs, v) && AskedFor(base, t, ips, futs, os) && AllDone(futs)
    ensures !SureToFail(base.peerMap, ips, os)
  {
    JoinKeepsTheRest(base, t, ips, futs, v);
    assert forall ip :: ip in ips ==> ip in t.peerMap;
  }

  class Relay<T> {
    var peerMap: map<IpAddr, PeerValue<T>>
    var kernel: set<IpAddr>
    var orphans: set<IpAddr>
    var calls: seq<OsCall>
    var panicked: bool

    function State(): Table<T>
      reads this
    {
      Table(peerMap, kernel, orphans, calls, panicked)
    }

    ghost predicate Valid()
      reads this
    {
      Consistent(State())
    }

    constructor ()
      ensures Valid() && peerMap == map[] && kernel == {} && !panicked
    {
      peerMap, kernel, orphans, calls, panicked := map[], {}, {}, [], false;
    }

    method Assign(t: Table<T>)
      modifies this
      ensures State() == t
    {
      peerMap, kernel, orphans, calls, panicked := t.peerMap, t.kernel, t.orphans, t.calls, t.panicked;
    }

    function Get(ip: IpAddr): (r: Option<Dispatch<T>>)
      reads this
      ensures r.None? <==> ip !in peerMap
      ensures r.Some? ==> peerMap[ip].value == if r.value.Connected? then Some(r.value.peer) else None
    {
      Lookup(State(), ip)
    }

    /** `try_join_all` over the insert futures: stops at the first failure, cancelling the rest. */
    method JoinInserts(ips: seq<IpAddr>, v: T, os: Verdicts) returns (result: InsertResult, ghost futs: seq<Fut>)
      requires Valid() && !panicked
      modifies this
      ensures Valid() && (panicked <==> result == InsertPanicked)
      ensures FreshlyDistinct(old(peerMap), ips) ==> result != InsertPanicked
      ensures SureToInsert(old(peerMap), ips, os) ==> result != InsertFailed
      ensures SureToFail(old(peerMap), ips, os) ==> result != Inserted
      ensures forall ip :: JoiningOk(At(old(State()), ip), ips, futs, v, ip, At(State(), ip))
      ensures old(calls) <= calls && OnlyNewRoutes(calls, |old(calls)|, old(peerMap), ips)
      ensures AskedFor(old(State()), State(), ips, futs, os)
      ensures |futs| == |ips| && (result == Inserted ==> AllDone(futs))
    {
      var fs := AllFresh(|ips|);
      ghost var distinct := FreshlyDistinct(peerMap, ips);
      while Work(fs) > 0 && !panicked
        invariant Joining(old(State()), State(), ips, fs, v) && AskedFor(old(State()), State(), ips, fs, os)
        invariant distinct ==> !panicked && NothingToDisplace(State(), ips, fs)
        decreases Work(fs)
      {
        var i, e := Schedule(fs, ips, os);
        if e == Completed(false) {
          AwaitedIsNew(old(State()), State(), ips, fs, v, i);
          return InsertFailed, fs;
        }
        ghost var before := State();
        var f := InsertNext(State(), ips[i], e);
        Assign(InsertEffect(State(), ips[i], v, e));
        JoinStep(old(State()), before, ips, fs, v, i, e);
        AskStep(old(State()), before, ips, fs, v, i, e, os);
        if distinct {
          GuardStep(old(peerMap), before, ips, fs, v, i, e);
        }
        WorkUpdate(fs, i, f);
        fs := fs[i := f];
      }
      if panicked {
        return InsertPanicked, fs;
      }
      NoWorkMeansDone(fs);
      InsertedWasGranted(old(State()), State(), ips, fs, v, os);
      return Inserted, fs;
    }

    /** `join_all` over the removal futures: every one runs to its end. */
    method RemoveLocked(ips: seq<IpAddr>, os: Verdicts)
      requires Valid()
      modifies this
      ensures Valid() && panicked == old(panicked)
      ensures peerMap == old(peerMap) - Elements(ips)
      ensures forall ip :: ip !in ips ==> At(State(), ip) == At(old(State()), ip)
      ensures forall ip :: ip in ips && ip in kernel ==> ip in orphans && ip in old(kernel)
      ensures forall ip :: ip in ips && Grants(os, ip) ==> ip !in kernel && ip !in orphans
      ensures old(calls) <= calls && forall ip :: ip in ips ==> Issued(calls, |old(calls)|, DeleteRoute(ip))
      ensures forall k :: |old(calls)| <= k < |calls| ==> calls[k].DeleteRoute? && calls[k].ip in ips
    {
      var fs := AllFresh(|ips|);
      while Work(fs) > 0
        invariant |fs| == |ips| && panicked == old(panicked)
        invariant forall ip :: RemovingOk(At(old(State()), ip), ips, fs, ip, At(State(), ip))
        invariant AskedAway(old(State()), State(), ips, fs, os)
        invariant old(calls) <= calls
        invariant forall k :: |old(calls)| <= k < |calls| ==> calls[k].DeleteRoute? && calls[k].ip in ips
        decreases Work(fs)
      {
        var i, e := Schedule(fs, ips, os);
        ghost var before := State();
        var f := RemoveNext(e);
        Assign(RemoveEffect(State(), ips[i], e));
        forall ip ensures RemovingOk(At(old(State()), ip), ips, fs[i := f], ip, At(State(), ip)) {
          RemovingStep(old(State()), before, ips, fs, i, e, ip);
        }
        AskAwayStep(old(State()), before, ips, fs, i, e, os);
        WorkUpdate(fs, i, f);
        fs := fs[i := f];
      }
      NoWorkMeansDone(fs);
      RemovalIsComplete(old(State()), State(), ips, fs);
    }

    method Remove(ips: seq<IpAddr>, os: Verdicts)
      requires Valid()
      modifies this
      ensures Valid() && panicked == old(panicked)
      ensures peerMap == old(peerMap) - Elements(ips)
      ensures forall ip :: ip !in ips ==> At(State(), ip) == At(old(State()), ip)
      ensures forall ip :: ip in ips && ip in kernel ==> ip in orphans && ip in old(kernel)
      ensures forall ip :: ip in ips && Grants(os, ip) ==> ip !in kernel && ip !in orphans
      ensures old(calls) <= calls && forall ip :: ip in ips ==> Issued(calls, |old(calls)|, DeleteRoute(ip))
      ensures forall k :: |old(calls)| <= k < |calls| ==> calls[k].DeleteRoute? && calls[k].ip in ips
    {
      RemoveLocked(ips, os);
    }

    method Insert(ips: seq<IpAddr>, v: T, os: Os) returns (result: InsertResult)
      requires Valid() && !panicked
      modifies this
      ensures Valid() && (panicked <==> result == InsertPanicked)
      ensures FreshlyDistinct(old(peerMap), ips) ==> result != InsertPanicked
      ensures SureToInsert(old(peerMap), ips, os.adds) ==> result != InsertFailed
      ensures SureToFail(old(peerMap), ips, os.adds) ==> result != Inserted
      ensures forall ip :: ip !in ips ==> At(State(), ip) == At(old(State()), ip)
      ensures result == Inserted ==>
                && peerMap == Armed(old(peerMap), ips, v)
                && old(calls) <= calls && OnlyNewRoutes(calls, |old(calls)|, old(peerMap), ips)
                && forall ip :: ip in ips && ip !in old(peerMap) ==> Issued(calls, |old(calls)|, AddRoute(ip)) && ip !in orphans
      ensures result == InsertFailed ==>
                && peerMap == old(peerMap) - Elements(ips)
                && forall ip :: ip in ips && ip in kernel ==> ip in orphans && !Grants(os.deletes, ip)
    {
      ghost var futs;
      result, futs := JoinInserts(ips, v, os.adds);
      JoinKeepsTheRest(old(State()), State(), ips, futs, v);
      if result == InsertFailed {
        ghost var joined := State();
        RemoveLocked(ips, os.deletes);
        assert forall ip :: ip !in ips ==> At(State(), ip) == At(joined, ip);
      }
    }

    method Reconcile(current: seq<IpAddr>, previous: seq<IpAddr>, v: T, os: Os) returns (result: InsertResult)
      requires Valid() && !panicked
      modifies this
      ensures Valid() && (panicked <==> result == InsertPanicked)
      ensures FreshlyDistinct(old(peerMap), current) ==> result != InsertPanicked
      ensures SureToInsert(old(peerMap), current, os.adds) ==> result != InsertFailed
      ensures SureToFail(old(peerMap), current, os.adds) ==> result != Inserted
      ensures forall ip :: ip !in current && ip !in previous ==> At(State(), ip) == At(old(State()), ip)
      ensures result == Inserted ==>
                && peerMap == Armed(old(peerMap) - Elements(Stale(previous, current)), current, v)
                && (forall ip :: ip in previous && ip !in current && ip in kernel ==> ip in orphans && !Grants(os.deletes, ip))
                && old(calls) <= calls
                && (forall k :: |old(calls)| <= k < |calls| ==> !(calls[k].ip in current && calls[k].ip in old(peerMap)))
      ensures result == InsertFailed ==>
                && peerMap == old(peerMap) - Elements(previous) - Elements(current)
                && forall ip :: (ip in previous || ip in current) && ip in kernel ==> ip in orphans && !Grants(os.deletes, ip)
    {
      var stale := Stale(previous, current);
      if stale != [] {
        Remove(stale, os.deletes);
      }
      assert peerMap == old(peerMap) - Elements(stale);
      ghost var kept, removed := peerMap, State();
      result := Insert(current, v, os);
      assert FreshlyDistinct(old(peerMap), current) ==> FreshlyDistinct(kept, current);
      assert forall ip :: ip in stale ==> At(State(), ip) == At(removed, ip);
      if result == InsertFailed {
        assert kept - Elements(current) == old(peerMap) - Elements(previous) - Elements(current);
      }
    }

    method Park(ips: seq<IpAddr>)
      requires Valid()
      modifies this`peerMap
      ensures Valid() && peerMap == AllParked(old(peerMap), ips)
    {
      for n := 0 to |ips|
        invariant peerMap == AllParked(old(peerMap), ips[..n])
      {
        if ips[n] in peerMap {
          peerMap := peerMap[ips[n] := peerMap[ips[n]].(value := None)];
        }
        assert ips[..n + 1] == ips[..n] + [ips[n]];
      }
      assert ips[..|ips|] == ips;
    }
  }

  // ----- From the per-address predicates to the whole map -----

  lemma {:induction false} RemovalIsComplete<T>(base: Table<T>, t: Table<T>, ips: seq<IpAddr>, futs: seq<Fut>)
    requires Consistent(base) && |futs| == |ips| && AllDone(futs)
    requires forall ip :: RemovingOk(At(base, ip), ips, futs, ip, At(t, ip))
    ensures Consistent(t) && t.peerMap == base.peerMap - Elements(ips)
    ensures forall ip :: ip !in ips ==> At(t, ip) == At(base, ip)
    ensures forall ip :: ip in ips && ip in t.kernel ==> ip in t.orphans && ip in base.kernel
  {
    forall ip
      ensures ip !in ips ==> At(t, ip) == At(base, ip)
      ensures ip in ips ==> ip !in t.peerMap && (ip in t.kernel ==> ip in t.orphans && ip in base.kernel)
    {
      assert RemovingOk(At(base, ip), ips, futs, ip, At(t, ip));
    }
    forall ip
      ensures ip in t.peerMap <==> ip in base.peerMap && ip !in ips
      ensures ip in t.peerMap ==> t.peerMap[ip] == base.peerMap[ip] && ip in t.kernel
    {
      assert ip !in ips ==> At(t, ip) == At(base, ip);
    }
  }

  lemma {:induction false} JoinKeepsTheRest<T>(base: Table<T>, t: Table<T>, ips: seq<IpAddr>, futs: seq<Fut>, v: T)
    requires |futs| == |ips|
    requires forall ip :: JoiningOk(At(base, ip), ips, futs, v, ip, At(t, ip))
    ensures forall ip :: ip !in ips ==> At(t, ip) == At(base, ip)
    ensures t.peerMap - Elements(ips) == base.peerMap - Elements(ips)
    ensures AllDone(futs) ==> t.peerMap == Armed(base.peerMap, ips, v)
  {
    forall ip
      ensures ip !in ips ==> At(t, ip) == At(base, ip)
      ensures AllDone(futs) && ip in ips ==> ip in t.peerMap && t.peerMap[ip] == PeerValue(Some(v), ip)
    {
      assert JoiningOk(At(base, ip), ips, futs, v, ip, At(t, ip));
    }
    forall ip | ip !in ips
      ensures ip in t.peerMap <==> ip in base.peerMap
      ensures ip in t.peerMap ==> t.peerMap[ip] == base.peerMap[ip]
    {
      assert At(t, ip) == At(base, ip);
    }
  }
}
