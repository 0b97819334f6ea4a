/**
When joining the futures of one `insert` can destroy an armed route guard.

A run is any sequence of polls; a failed poll ends the join, and the rollback after it releases
every guard it takes, so the runs below are all that matters.
*/
module GuardSafety {
  import opened Net
  import opened RelayTable

  ghost predicate Runs<T>(t: Table<T>, ips: seq<IpAddr>, futs: seq<Fut>, v: T, steps: seq<(nat, Poll)>)
    requires |ips| == |futs|
    decreases |steps|
  {
    steps == [] ||
    var (i, e) := steps[0];
    && i < |ips| && CanAdvance(futs[i], e) && e != Completed(false)
    && Runs(InsertEffect(t, ips[i], v, e), ips, futs[i := InsertNext(t, ips[i], e)], v, steps[1..])
  }

  ghost function After<T>(t: Table<T>, ips: seq<IpAddr>, futs: seq<Fut>, v: T, steps: seq<(nat, Poll)>): Table<T>
    requires |ips| == |futs| && Runs(t, ips, futs, v, steps)
    decreases |steps|
  {
    if steps == [] then t
    else
      var (i, e) := steps[0];
      After(InsertEffect(t, ips[i], v, e), ips, futs[i := InsertNext(t, ips[i], e)], v, steps[1..])
  }

  lemma {:induction false} DistinctRunsKeepGuards<T>(base: Table<T>, t: Table<T>, ips: seq<IpAddr>, futs: seq<Fut>, v: T, steps: seq<(nat, Poll)>)
    requires |ips| == |futs| && Runs(t, ips, futs, v, steps)
    requires Consistent(base) && FreshlyDistinct(base.peerMap, ips) && !t.panicked && NothingToDisplace(t, ips, futs)
    requires forall ip :: JoiningOk(At(base, ip), ips, futs, v, ip, At(t, ip))
    ensures !After(t, ips, futs, v, steps).panicked
    decreases |steps|
  {
    if steps != [] {
      var (i, e) := steps[0];
      var t', futs' := InsertEffect(t, ips[i], v, e), futs[i := InsertNext(t, ips[i], e)];
      JoiningStepAll(base, t, ips, futs, v, i, e);
      assert JoiningOk(At(base, ips[i]), ips, futs, v, ips[i], At(t, ips[i]));
      GuardStep(base.peerMap, t, ips, futs, v, i, e);
      DistinctRunsKeepGuards(base, t', ips, futs', v, steps[1..]);
    }
  }

  /** Both futures of a repeated new address reach the OS before either is in the map. */
  lemma {:induction false} RepeatedAddressPanics<T>(t: Table<T>, ips: seq<IpAddr>, v: T, i: nat, j: nat)
      returns (steps: seq<(nat, Poll)>)
    requires i < j < |ips| && ips[i] == ips[j] && ips[i] !in t.peerMap && !IsUnspecified(ips[i])
    ensures Runs(t, ips, AllFresh(|ips|), v, steps)
    ensures After(t, ips, AllFresh(|ips|), v, steps).panicked
  {
    var ip := ips[i];
    var last := [(j, Completed(true))];
    var fourth := [(i, Completed(true))] + last;
    var third := [(j, Applied)] + fourth;
    var second := [(i, Applied)] + third;
    var first := [(j, Start)] + second;
    steps := [(i, Start)] + first;

    var t1, f1 := InsertEffect(t, ip, v, Start), AllFresh(|ips|)[i := Awaiting(false)];
    var t2, f2 := InsertEffect(t1, ip, v, Start), f1[j := Awaiting(false)];
    var t3, f3 := InsertEffect(t2, ip, v, Applied), f2[i := Awaiting(true)];
    var t4, f4 := InsertEffect(t3, ip, v, Applied), f3[j := Awaiting(true)];
    var t5, f5 := InsertEffect(t4, ip, v, Completed(true)), f4[i := Done];
    var t6, f6 := InsertEffect(t5, ip, v, Completed(true)), f5[j := Done];
    assert t6.panicked;
    assert last[1..] == [] && Runs(t6, ips, f6, v, []) && After(t6, ips, f6, v, []) == t6;
    assert Runs(t5, ips, f5, v, last) && After(t5, ips, f5, v, last) == t6;
    assert fourth[1..] == last;
    assert Runs(t4, ips, f4, v, fourth) && After(t4, ips, f4, v, fourth) == t6;
    assert third[1..] == fourth;
    assert Runs(t3, ips, f3, v, third) && After(t3, ips, f3, v, third) == t6;
    assert second[1..] == third;
    assert Runs(t2, ips, f2, v, second) && After(t2, ips, f2, v, second) == t6;
    assert first[1..] == second;
    assert Runs(t1, ips, f1, v, first) && After(t1, ips, f1, v, first) == t6;
    assert steps[1..] == first;
  }

  /** No schedule of an insert destroys an armed guard exactly when its new addresses are distinct. */
  lemma {:induction false} GuardSafeIffFreshlyDistinct<T>(t: Table<T>, ips: seq<IpAddr>, v: T)
    requires Consistent(t) && !t.panicked
    ensures (forall steps :: Runs(t, ips, AllFresh(|ips|), v, steps) ==>
                !After(t, ips, AllFresh(|ips|), v, steps).panicked)
            <==> FreshlyDistinct(t.peerMap, ips)
  {
    if FreshlyDistinct(t.peerMap, ips) {
      forall steps | Runs(t, ips, AllFresh(|ips|), v, steps)
        ensures !After(t, ips, AllFresh(|ips|), v, steps).panicked
      {
        DistinctRunsKeepGuards(t, t, ips, AllFresh(|ips|), v, steps);
      }
    } else {
      var i, j :| 0 <= i < j < |ips| && ips[i] == ips[j] && ips[i] !in t.peerMap && !IsUnspecified(ips[i]);
      var steps := RepeatedAddressPanics(t, ips, v, i, j);
    }
  }
}
