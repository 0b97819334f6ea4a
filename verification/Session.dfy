/**
One peer's session as the program runs it, driven by a script of link events: the reconnect loop,
route registration, parking and withdrawal, on a relay that other peers' entries may share.
*/
module PeerSessions {
  import opened Wrappers
  import opened Net
  import opened RelayTable
  import opened RelayService
  import opened PeerNames

  /** A connection comes with the outcome of its handshake; what the OS will say is given as well. */
  datatype LinkEvent<+T> = Up(conn: T, negotiated: Option<seq<IpAddr>>, os: Os) | Down | LinkTaskEnded(deletes: Verdicts)

  function Offered<T>(e: LinkEvent<T>): seq<IpAddr> {
    if e.Up? && e.negotiated.Some? then e.negotiated.value else []
  }

  /** Every address some handshake of the script negotiated. */
  function Negotiated<T>(events: seq<LinkEvent<T>>): set<IpAddr> {
    if events == [] then {}
    else Negotiated(events[..|events| - 1]) + Elements(Offered(events[|events| - 1]))
  }

  /** What the world outside a session knows of its doings. */
  datatype View<T> = View(peerMap: map<IpAddr, PeerValue<T>>, routes: seq<IpAddr>, names: map<string, seq<IpAddr>>)

  /** A connection whose negotiated set was registered: at its end that set is parked, and named. */
  function Registered<T>(v: View<T>, name: string, conn: T, current: seq<IpAddr>): View<T> {
    View(AllParked(Armed(v.peerMap - Elements(Stale(v.routes, current)), current, conn), current),
         current, v.names[Lower(name) := current])
  }

  /** A connection whose registration failed: no routes, but the name stays as it was. */
  function RolledBack<T>(v: View<T>, current: seq<IpAddr>): View<T> {
    View(v.peerMap - Elements(v.routes) - Elements(current), [], v.names)
  }

  function Withdrawn<T>(v: View<T>, name: string): View<T> {
    View(v.peerMap - Elements(v.routes), [], v.names - {Lower(name)})
  }

  /** The turn of the reconnect loop for `e` leads from `v` to `v'`. */
  ghost predicate Turn<T>(v: View<T>, name: string, e: LinkEvent<T>, v': View<T>) {
    match e
    case Up(conn, None, _) => v' == v
    case Up(conn, Some(current), os) =>
      || (v' == Registered(v, name, conn, current) && !SureToFail(v.peerMap, current, os.adds))
      || (v' == RolledBack(v, current) && !SureToInsert(v.peerMap, current, os.adds))
    case Down => v' == v
    case LinkTaskEnded(_) => v' == Withdrawn(v, name)
  }

  /** A script of turns that nothing interrupts, from the first view to the last. */
  ghost predicate Turns<T>(views: seq<View<T>>, name: string, events: seq<LinkEvent<T>>)
    decreases |events|
  {
    && |views| == |events| + 1
    && (events == [] ||
        var n := |events| - 1;
        Turns(views[..n + 1], name, events[..n]) && Turn(views[n], name, events[n], views[n + 1]))
  }

  /** Registering, then parking, touches only the old and the new routes. */
  lemma {:induction false} RestAfterConnection<T>(m: map<IpAddr, PeerValue<T>>, routes: seq<IpAddr>, current: seq<IpAddr>, v: T)
    ensures AllParked(Armed(m - Elements(Stale(routes, current)), current, v), current) - Elements(current) ==
            m - Elements(routes) - Elements(current)
  {
  }

  /** Parking routes that are parked changes nothing. */
  lemma {:induction false} ParkedStays<T>(m: map<IpAddr, PeerValue<T>>, routes: seq<IpAddr>)
    requires forall ip :: ip in routes ==> ip in m && m[ip].value == None
    ensures AllParked(m, routes) == m
  {
  }

  /** A kernel route that is in the map, or whose removal failed. */
  ghost predicate NotForgotten<T>(t: Table<T>, ip: IpAddr) {
    ip in t.kernel ==> ip in t.peerMap || ip in t.orphans
  }

  /** Only addresses of the two sets changed, and unless a panic came between, none of them is forgotten. */
  ghost predicate OnlyTouches<T>(t: Table<T>, t': Table<T>, routes: seq<IpAddr>, current: seq<IpAddr>) {
    forall ip ::
      if ip in routes || ip in current then t'.panicked || NotForgotten(t', ip)
      else At(t', ip) == At(t, ip)
  }

  /**
  How a session that has negotiated `seen` has changed the relay: other addresses are as before,
  of its own none is forgotten, and those not among its routes are out of the map.
  */
  ghost predicate Progressed<T>(t: Table<T>, t': Table<T>, routes: seq<IpAddr>, seen: set<IpAddr>) {
    && Elements(routes) <= seen
    && t'.peerMap - Elements(routes) == t.peerMap - seen
    && forall ip :: if ip in seen then NotForgotten(t', ip) else At(t', ip) == At(t, ip)
  }

  lemma {:induction false} ProgressStep<T>(t: Table<T>, t1: Table<T>, t2: Table<T>, routes: seq<IpAddr>, routes': seq<IpAddr>,
                                           current: seq<IpAddr>, seen: set<IpAddr>)
    requires Progressed(t, t1, routes, seen) && OnlyTouches(t1, t2, routes, current) && !t2.panicked
    requires Elements(routes') <= Elements(routes) + Elements(current)
    requires t2.peerMap - Elements(routes') == t1.peerMap - Elements(routes) - Elements(current)
    ensures Progressed(t, t2, routes', seen + Elements(current))
  {
    forall ip ensures if ip in seen + Elements(current) then NotForgotten(t2, ip) else At(t2, ip) == At(t, ip) {
      assert if ip in seen then NotForgotten(t1, ip) else At(t1, ip) == At(t, ip);
      assert if ip in routes || ip in current then NotForgotten(t2, ip) else At(t2, ip) == At(t1, ip);
    }
    assert t.peerMap - seen - Elements(current) == t.peerMap - (seen + Elements(current));
  }

  /** A turn takes the session's old and new addresses out of the rest of the map, and touches nothing else of it. */
  lemma {:induction false} TurnLeavesRest<T>(v: View<T>, name: string, e: LinkEvent<T>, v': View<T>)
    requires Turn(v, name, e, v')
    ensures Elements(v'.routes) <= Elements(v.routes) + Elements(Offered(e))
    ensures v'.peerMap - Elements(v'.routes) == v.peerMap - Elements(v.routes) - Elements(Offered(e))
  {
    if e.Up? {
      RestAfterConnection(v.peerMap, v.routes, Offered(e), e.conn);
    }
  }

  /** Addresses outside `seen` have the entries and kernel routes they had. */
  ghost predicate Unaffected<T>(t: Table<T>, t': Table<T>, seen: set<IpAddr>) {
    forall ip :: ip !in seen ==> At(t', ip) == At(t, ip)
  }

  /** What has become of a session after the events `done`, which took the views `views`. */
  ghost predicate Story<T>(t: Table<T>, t': Table<T>, name: string, views: seq<View<T>>, done: seq<LinkEvent<T>>) {
    && Turns(views, name, done)
    && views[|done|].peerMap == t'.peerMap
    && Progressed(t, t', views[|done|].routes, Negotiated(done))
  }

  lemma {:induction false} StoryBegins<T>(t: Table<T>, name: string, v: View<T>)
    requires v.peerMap == t.peerMap && v.routes == []
    ensures Story(t, t, name, [v], [])
  {
  }

  /** Once the link task has ended, nothing the session ever negotiated is in the map, nor its name in the registry. */
  lemma {:induction false} StoryEnds<T>(t: Table<T>, t': Table<T>, name: string, views: seq<View<T>>, done: seq<LinkEvent<T>>)
    requires Story(t, t', name, views, done) && done != [] && done[|done| - 1].LinkTaskEnded?
    ensures var v := views[|done|];
            v.routes == [] && Lower(name) !in v.names && t'.peerMap == t.peerMap - Negotiated(done)
  {
    var v := views[|done|];
    assert Turn(views[|done| - 1], name, done[|done| - 1], v);
    assert t'.peerMap - Elements(v.routes) == t'.peerMap;
  }

  lemma {:induction false} StoryStep<T>(t: Table<T>, t1: Table<T>, t2: Table<T>, name: string,
                                        views: seq<View<T>>, done: seq<LinkEvent<T>>, e: LinkEvent<T>, v: View<T>)
    requires Story(t, t1, name, views, done)
    requires Turn(views[|done|], name, e, v) && v.peerMap == t2.peerMap && !t2.panicked
    requires OnlyTouches(t1, t2, views[|done|].routes, Offered(e))
    ensures Story(t, t2, name, views + [v], done + [e])
  {
    var last := views[|done|];
    TurnLeavesRest(last, name, e, v);
    ProgressStep(t, t1, t2, last.routes, v.routes, Offered(e), Negotiated(done));
    assert (done + [e])[..|done|] == done && (views + [v])[..|done| + 1] == views;
  }

  /** The link task has not ended in any of these events. */
  ghost predicate Ongoing<T>(done: seq<LinkEvent<T>>) {
    forall e :: e in done ==> !e.LinkTaskEnded?
  }

  lemma {:induction false} OngoingStep<T>(events: seq<LinkEvent<T>>, n: nat)
    requires n < |events| && Ongoing(events[..n])
    ensures events[..n + 1] == events[..n] + [events[n]]
    ensures Ongoing(events[..n + 1]) <==> !events[n].LinkTaskEnded?
  {
    assert forall e :: e in events[..n + 1] <==> e in events[..n] || e == events[n];
  }

  class PeerSession<T> {
    const name: string
    const relay: Relay<T>
    const names: Registry
    var routes: seq<IpAddr>

    /** The session's routes are in the relay, all parked. */
    ghost predicate Valid()
      reads this, relay
    {
      && relay.Valid() && !relay.panicked
      && forall ip :: ip in routes ==> ip in relay.peerMap && relay.peerMap[ip].value == None
    }

    constructor (name: string, relay: Relay<T>, names: Registry)
      requires relay.Valid() && !relay.panicked
      ensures Valid() && this.name == name && this.relay == relay && this.names == names && routes == []
    {
      this.name, this.relay, this.names, this.routes := name, relay, names, [];
    }

    ghost function Seen(): View<T>
      reads this, relay, names
    {
      View(relay.peerMap, routes, names.addresses)
    }

    method ParkRoutes()
      requires relay.Valid()
      modifies relay`peerMap
      ensures relay.Valid() && relay.peerMap == AllParked(old(relay.peerMap), routes)
    {
      if routes != [] {
        relay.Park(routes);
      }
    }

    method WithdrawRoutes(deletes: Verdicts, ghost matches: (string, string) -> bool)
      requires Valid()
      modifies this, relay, names
      ensures Valid() && Seen() == Withdrawn(old(Seen()), name)
      ensures forall ip :: ip in old(routes) && ip in relay.kernel ==> ip in relay.orphans && !Grants(deletes, ip)
      ensures forall ip :: ip !in old(routes) ==> At(relay.State(), ip) == At(old(relay.State()), ip)
    {
      if routes != [] {
        relay.Remove(routes, deletes);
        routes := [];
      }
      names.Remove(name, matches);
    }

    /** One connection from its handshake to its end: what it registered is parked, or gone. */
    method RunConnection(conn: T, negotiated: Option<seq<IpAddr>>, os: Os, ghost matches: (string, string) -> bool)
      requires Valid()
      modifies this, relay, names
      ensures relay.Valid()
      ensures relay.panicked ==> negotiated.Some? && !FreshlyDistinct(old(relay.peerMap), negotiated.value)
      ensures !relay.panicked ==> Valid() && Turn(old(Seen()), name, Up(conn, negotiated, os), Seen())
      ensures negotiated.None? ==> relay.State() == old(relay.State())
      ensures OnlyTouches(old(relay.State()), relay.State(), old(routes), Offered(Up(conn, negotiated, os)))
    {
      if negotiated.None? {
        return;
      }
      var result := relay.Reconcile(negotiated.value, routes, conn, os);
      if result == InsertPanicked {
        return;
      }
      if result == InsertFailed {
        routes := [];
        return;
      }
      routes := negotiated.value;
      names.Set(name, routes, matches);
      ParkRoutes();
    }

    /** One turn of the reconnect loop. */
    method HandleEvent(e: LinkEvent<T>, ghost matches: (string, string) -> bool)
      requires Valid()
      modifies this, relay, names
      ensures relay.Valid() && (relay.panicked ==> !FreshlyDistinct(old(relay.peerMap), Offered(e)))
      ensures !relay.panicked ==> Valid() && Turn(old(Seen()), name, e, Seen())
      ensures e.Down? ==> relay.State() == old(relay.State())
      ensures OnlyTouches(old(relay.State()), relay.State(), old(routes), Offered(e))
    {
      match e
      case Up(conn, negotiated, os) =>
        RunConnection(conn, negotiated, os, matches);
      case Down =>
        ParkedStays(relay.peerMap, routes);
        ParkRoutes();
      case LinkTaskEnded(deletes) =>
        WithdrawRoutes(deletes, matches);
    }

    /** The session's story so far, since it began with the table `t` and the view `v`. */
    ghost predicate Told(t: Table<T>, v: View<T>, views: seq<View<T>>, done: seq<LinkEvent<T>>)
      reads this, relay, names
    {
      Valid() && Story(t, relay.State(), name, views, done) && views[0] == v && views[|done|] == Seen()
    }

    /** One more turn in the story. */
    method RunTurn(e: LinkEvent<T>, ghost t: Table<T>, ghost v: View<T>, ghost views: seq<View<T>>, ghost done: seq<LinkEvent<T>>,
                   ghost matches: (string, string) -> bool)
        returns (ghost views': seq<View<T>>)
      requires Told(t, v, views, done)
      modifies this, relay, names
      ensures relay.Valid() && (relay.panicked ==> !Distinct(Offered(e)) && !e.LinkTaskEnded?)
      ensures !relay.panicked ==> Told(t, v, views', done + [e])
      ensures Unaffected(t, relay.State(), Negotiated(done + [e]))
    {
      ghost var before := relay.State();
      HandleEvent(e, matches);
      assert (done + [e])[..|done|] == done;
      views' := views;
      if !relay.panicked {
        StoryStep(t, before, relay.State(), name, views, done, e, Seen());
        views' := views + [Seen()];
      }
    }

    /**
    The whole session: a sequence of such turns. Addresses it never negotiated keep their entries and
    kernel routes; of the others, a kernel route without an entry is one whose removal failed. Only
    the end of the link task ends it, leaving nothing it ever negotiated in the relay; or a panic
    does, where a handshake negotiated an address twice.
    */
    method Run(events: seq<LinkEvent<T>>, ghost matches: (string, string) -> bool)
        returns (taken: nat, ghost done: seq<LinkEvent<T>>, ghost views: seq<View<T>>)
      requires Valid() && routes == []
      modifies this, relay, names
      ensures relay.Valid() && taken <= |events| && done == events[..taken]
      ensures taken > 0 ==> Ongoing(events[..taken - 1])
      ensures taken < |events| ==> taken > 0 && (relay.panicked || events[taken - 1].LinkTaskEnded?)
      ensures relay.panicked ==> taken > 0 && !Distinct(Offered(events[taken - 1]))
      ensures !relay.panicked ==> Told(old(relay.State()), old(Seen()), views, done)
      ensures Unaffected(old(relay.State()), relay.State(), Negotiated(done))
      ensures taken > 0 && events[taken - 1].LinkTaskEnded? ==>
                && !relay.panicked && relay.peerMap == old(relay.peerMap) - Negotiated(done)
                && routes == [] && Lower(name) !in names.addresses
    {
      ghost var t, v := relay.State(), Seen();
      taken, done, views := 0, [], [v];
      StoryBegins(t, name, v);
      while taken < |events|
        invariant taken <= |events| && done == events[..taken] && Ongoing(done)
        invariant Told(t, v, views, done) && Unaffected(t, relay.State(), Negotiated(done))
      {
        var e := events[taken];
        OngoingStep(events, taken);
        views := RunTurn(e, t, v, views, done, matches);
        done, taken := done + [e], taken + 1;
        if relay.panicked {
          return;
        }
        if e.LinkTaskEnded? {
          StoryEnds(t, relay.State(), name, views, done);
          return;
        }
      }
    }
  }
}
