/**
The data one relay keeps about routes, and what each poll of a route future does to it.

A `Table` holds the peer map, the kernel's view of the modelled routes, and three records the
properties are stated with: addresses whose last OS removal reported an error, the OS calls issued,
and whether a route guard was ever destroyed while still armed (which panics in the program).

The OS is adversarial: a call may be applied or not before it reports, an error may follow an
applied change, and a call cancelled by its sibling's failure may already have been applied.
*/
module RelayTable {
  import opened Wrappers
  import opened Net

  /** A map entry: the live value, if any, and the address its route guard still answers for. */
  datatype PeerValue<+T> = PeerValue(value: Option<T>, route: IpAddr)

  datatype Dispatch<+T> = Connected(peer: T) | Parked

  datatype OsCall = AddRoute(ip: IpAddr) | DeleteRoute(ip: IpAddr)

  datatype Table<T> = Table(
    peerMap: map<IpAddr, PeerValue<T>>,
    kernel: set<IpAddr>,
    orphans: set<IpAddr>,
    calls: seq<OsCall>,
    panicked: bool)

  /** What the table says about a single address. */
  datatype Cell<T> = Cell(entry: Option<PeerValue<T>>, routed: bool, orphan: bool)

  function At<T>(t: Table<T>, ip: IpAddr): Cell<T> {
    Cell(if ip in t.peerMap then Some(t.peerMap[ip]) else None, ip in t.kernel, ip in t.orphans)
  }

  function Lookup<T>(t: Table<T>, ip: IpAddr): Option<Dispatch<T>> {
    if ip !in t.peerMap then None
    else match t.peerMap[ip].value
         case Some(v) => Some(Connected(v))
         case None => Some(Parked)
  }

  /** Every entry is guarded under its own key and has its kernel route. */
  ghost predicate Consistent<T>(t: Table<T>) {
    forall ip :: ip in t.peerMap ==> t.peerMap[ip].route == ip && ip in t.kernel
  }

  // ----- Route guards -----

  /** Destroying a guard panics unless it was marked released. */
  function DropGuard<T>(t: Table<T>, route: IpAddr): Table<T> {
    t.(panicked := t.panicked || !IsUnspecified(route))
  }

  /** Puts a freshly guarded entry into the map; a displaced entry's guard is destroyed. */
  function Install<T>(t: Table<T>, ip: IpAddr, v: T): Table<T> {
    var t' := if ip in t.peerMap then DropGuard(t, t.peerMap[ip].route) else t;
    t'.(peerMap := t'.peerMap[ip := PeerValue(Some(v), ip)], orphans := t'.orphans - {ip})
  }

  /** Takes the entry out of the map, if there is one; its guard is released and then destroyed. */
  function Take<T>(t: Table<T>, ip: IpAddr): Table<T> {
    var t' := if ip in t.peerMap then DropGuard(t, RELEASED) else t;
    t'.(peerMap := t'.peerMap - {ip})
  }

  function ParkEntry<T>(t: Table<T>, ip: IpAddr): Table<T> {
    if ip in t.peerMap then t.(peerMap := t.peerMap[ip := t.peerMap[ip].(value := None)]) else t
  }

  // ----- One future per address -----

  datatype Fut = Fresh | Awaiting(applied: bool) | Done

  /** First poll, the OS applying the change, or the OS call reporting its outcome. */
  datatype Poll = Start | Applied | Completed(ok: bool)

  predicate CanAdvance(f: Fut, e: Poll) {
    match e
    case Start => f.Fresh?
    case Applied => f == Awaiting(false)
    case Completed(ok) => f.Awaiting? && (ok ==> f.applied)
  }

  /** An OS call may fail whether or not it was applied, and succeeds only if it was. */
  lemma {:induction false} OsMayFail(f: Fut)
    requires f.Awaiting?
    ensures CanAdvance(f, Completed(false)) && (CanAdvance(f, Completed(true)) <==> f.applied)
  {
  }

  /** One poll of `insert`'s future for `ip`; a failed call has no effect of its own. */
  function InsertEffect<T>(t: Table<T>, ip: IpAddr, v: T, e: Poll): Table<T> {
    match e
    case Start =>
      if ip in t.peerMap then t.(peerMap := t.peerMap[ip := t.peerMap[ip].(value := Some(v))])
      else t.(calls := t.calls + [AddRoute(ip)])
    case Applied => t.(kernel := t.kernel + {ip})
    case Completed(ok) => if ok then Install(t, ip, v) else t
  }

  function InsertNext<T>(t: Table<T>, ip: IpAddr, e: Poll): Fut {
    match e
    case Start => if ip in t.peerMap then Done else Awaiting(false)
    case Applied => Awaiting(true)
    case Completed(_) => Done
  }

  /** One poll of `remove_locked`'s future for `ip`. */
  function RemoveEffect<T>(t: Table<T>, ip: IpAddr, e: Poll): Table<T> {
    match e
    case Start => Take(t, ip).(calls := t.calls + [DeleteRoute(ip)])
    case Applied => t.(kernel := t.kernel - {ip})
    case Completed(ok) => t.(orphans := if ok then t.orphans - {ip} else t.orphans + {ip})
  }

  function RemoveNext(e: Poll): Fut {
    match e
    case Start => Awaiting(false)
    case Applied => Awaiting(true)
    case Completed(_) => Done
  }

  function AllFresh(n: nat): (futs: seq<Fut>)
    ensures |futs| == n && forall i :: 0 <= i < n ==> futs[i] == Fresh
  {
    seq(n, _ => Fresh)
  }

  ghost predicate AllDone(futs: seq<Fut>) {
    forall i :: 0 <= i < |futs| ==> futs[i] == Done
  }

  // ----- What a running batch keeps about one address -----

  /**
  While `insert` is joining its futures, the cell `c` of `ip` against the cell `base` it had when
  the lock was taken.
  */
  ghost predicate JoiningOk<T>(base: Cell<T>, ips: seq<IpAddr>, futs: seq<Fut>, v: T, ip: IpAddr, c: Cell<T>) {
    && |ips| == |futs|
    && (ip !in ips ==> c == base)
    && (forall i :: 0 <= i < |ips| && ips[i] == ip ==>
         && (futs[i] == Done ==> c.entry == Some(PeerValue(Some(v), ip)))
         && (futs[i].Awaiting? ==> base.entry.None? && (futs[i].applied ==> c.routed)))
    && (base.entry.Some? ==>
         && c.entry in {base.entry, Some(PeerValue(Some(v), ip))}
         && c.routed == base.routed && c.orphan == base.orphan)
    && (base.entry.None? ==> c.entry in {None, Some(PeerValue(Some(v), ip))})
    && (c.entry.Some? ==> c.routed)
  }

  /** While `remove_locked` is running over `ips`. */
  ghost predicate RemovingOk<T>(base: Cell<T>, ips: seq<IpAddr>, futs: seq<Fut>, ip: IpAddr, c: Cell<T>) {
    && |ips| == |futs|
    && (ip !in ips ==> c == base)
    && (forall i :: 0 <= i < |ips| && ips[i] == ip ==>
         && (futs[i] != Fresh ==> c.entry.None?)
         && (futs[i] == Awaiting(true) ==> !c.routed)
         && (futs[i] == Done && c.routed ==> c.orphan))
    && ((forall i :: 0 <= i < |ips| && ips[i] == ip ==> futs[i] == Fresh) ==> c == base)
    && (c.entry.Some? ==> c.entry == base.entry && c.routed)
    && (c.routed ==> base.routed)
  }

  ghost predicate Distinct(ips: seq<IpAddr>) {
    forall i, j :: 0 <= i < j < |ips| ==> ips[i] != ips[j]
  }

  /**
  The addresses of a batch may repeat only where the repetition is harmless: an address already in
  the map is re-armed without a new guard, and an unspecified address yields a guard that counts as
  released.
  */
  ghost predicate FreshlyDistinct<T>(peerMap: map<IpAddr, PeerValue<T>>, ips: seq<IpAddr>) {
    forall i, j :: 0 <= i < j < |ips| && ips[i] == ips[j] ==> ips[i] in peerMap || IsUnspecified(ips[i])
  }

  /** No future still waiting for the OS has an armed entry in the way of its new one. */
  ghost predicate NothingToDisplace<T>(t: Table<T>, ips: seq<IpAddr>, futs: seq<Fut>) {
    && |ips| == |futs|
    && forall i :: 0 <= i < |ips| && futs[i].Awaiting? && !IsUnspecified(ips[i]) ==> ips[i] !in t.peerMap
  }

  lemma {:induction false} JoiningStep<T>(base: Table<T>, t: Table<T>, ips: seq<IpAddr>, futs: seq<Fut>, v: T, i: nat, e: Poll, ip: IpAddr)
    requires Consistent(base)
    requires |ips| == |futs| && i < |ips| && CanAdvance(futs[i], e) && e != Completed(false)
    requires JoiningOk(At(base, ip), ips, futs, v, ip, At(t, ip))
    ensures JoiningOk(At(base, ip), ips, futs[i := InsertNext(t, ips[i], e)], v, ip, At(InsertEffect(t, ips[i], v, e), ip))
  {
  }

  lemma {:induction false} JoiningStepAll<T>(base: Table<T>, t: Table<T>, ips: seq<IpAddr>, futs: seq<Fut>, v: T, i: nat, e: Poll)
    requires Consistent(base)
    requires |ips| == |futs| && i < |ips| && CanAdvance(futs[i], e) && e != Completed(false)
    requires forall ip :: JoiningOk(At(base, ip), ips, futs, v, ip, At(t, ip))
    ensures forall ip :: JoiningOk(At(base, ip), ips, futs[i := InsertNext(t, ips[i], e)], v, ip, At(InsertEffect(t, ips[i], v, e), ip))
  {
    forall ip
      ensures JoiningOk(At(base, ip), ips, futs[i := InsertNext(t, ips[i], e)], v, ip, At(InsertEffect(t, ips[i], v, e), ip))
    {
      JoiningStep(base, t, ips, futs, v, i, e, ip);
    }
  }

  /** A poll destroys no armed guard, nor prepares for one to be, if new addresses do not repeat. */
  lemma {:induction false} GuardStep<T>(known: map<IpAddr, PeerValue<T>>, t: Table<T>, ips: seq<IpAddr>, futs: seq<Fut>, v: T, i: nat, e: Poll)
    requires FreshlyDistinct(known, ips) && NothingToDisplace(t, ips, futs)
    requires i < |ips| && CanAdvance(futs[i], e) && e != Completed(false)
    requires ips[i] in known ==> ips[i] in t.peerMap
    requires ips[i] in t.peerMap ==> t.peerMap[ips[i]].route == ips[i]
    ensures NothingToDisplace(InsertEffect(t, ips[i], v, e), ips, futs[i := InsertNext(t, ips[i], e)])
    ensures InsertEffect(t, ips[i], v, e).panicked == t.panicked
  {
  }

  lemma {:induction false} RemovingStep<T>(base: Table<T>, t: Table<T>, ips: seq<IpAddr>, futs: seq<Fut>, i: nat, e: Poll, ip: IpAddr)
    requires |ips| == |futs| && i < |ips| && CanAdvance(futs[i], e)
    requires RemovingOk(At(base, ip), ips, futs, ip, At(t, ip))
    ensures RemovingOk(At(base, ip), ips, futs[i := RemoveNext(e)], ip, At(RemoveEffect(t, ips[i], e), ip))
    ensures RemoveEffect(t, ips[i], e).panicked == t.panicked
  {
  }
}
