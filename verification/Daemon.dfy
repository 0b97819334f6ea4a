/**
N peer sessions sharing one relay, one routing-table lock and one name registry, as a step system.

Every suspension point of the program is a program counter of some session, and a step advances one
session; a run is any interleaving. `Running` carries the table at the moment the lock was taken,
and `registered` the last successful registration: records for stating properties, read by no step.
*/
module Daemon {
  import opened Wrappers
  import opened Net
  import opened RelayTable
  import opened RelayService
  import opened PeerNames

  /** What a session does while holding the routing-table lock. */
  datatype Job<T> =
    | DropStale(current: seq<IpAddr>, conn: T)
    | Register(current: seq<IpAddr>, conn: T)
    | Rollback(current: seq<IpAddr>, conn: T)
    | Withdraw

  datatype Pc<T> =
    | Idle
    | Handshaking(conn: T)
    | Waiting(job: Job<T>)
    | Running(job: Job<T>, futs: seq<Fut>, base: Table<T>)
    | Receiving(conn: T)
    | Parking(dropped: Option<T>, next: nat)
    | Ended

  datatype Session<T> = Session(routes: seq<IpAddr>, pc: Pc<T>, registered: Option<seq<IpAddr>>)

  datatype Daemon<T> = Daemon(
    table: Table<T>,
    lock: Option<nat>,
    sessions: seq<Session<T>>,
    names: map<string, seq<IpAddr>>)

  datatype Event<T> =
    | LinkUp(conn: T)
    | LinkDown
    | LinkEnded
    | HandshakeFailed
    | HandshakeOk(current: seq<IpAddr>)
    | Acquire
    | Advance(i: nat, e: Poll)
    | Finish
    | ConnectionDropped
    | ParkNext
    | ParkDone

  /** The configured peer name of each session. */
  type Config = seq<string>

  function JobIps<T>(s: Session<T>, job: Job<T>): seq<IpAddr> {
    match job
    case DropStale(current, _) => Stale(s.routes, current)
    case Register(current, _) => current
    case Rollback(current, _) => current
    case Withdraw => s.routes
  }

  function Init<T>(c: Config): Daemon<T> {
    Daemon(Table(map[], {}, {}, [], false), None, seq(|c|, _ => Session([], Idle, None)), map[])
  }

  /** A panic takes the whole process down, so nothing is enabled after one. */
  ghost predicate Enabled<T>(c: Config, d: Daemon<T>, k: nat, ev: Event<T>) {
    && !d.table.panicked
    && k < |d.sessions| == |c|
    && var s := d.sessions[k];
    match ev
    case LinkUp(_) => s.pc.Idle?
    case LinkDown => s.pc.Idle?
    case LinkEnded => s.pc.Idle?
    case HandshakeFailed => s.pc.Handshaking?
    case HandshakeOk(current) => s.pc.Handshaking? && current != []
    case Acquire => s.pc.Waiting? && d.lock.None?
    case Advance(i, e) => s.pc.Running? && i < |s.pc.futs| == |JobIps(s, s.pc.job)| && CanAdvance(s.pc.futs[i], e)
    case Finish => s.pc.Running? && AllDone(s.pc.futs)
    case ConnectionDropped => s.pc.Receiving?
    case ParkNext => s.pc.Parking? && s.pc.next < |s.routes|
    case ParkDone => s.pc.Parking? && s.pc.next == |s.routes|
  }

  ghost function Step<T>(c: Config, d: Daemon<T>, k: nat, ev: Event<T>): Daemon<T>
    requires Enabled(c, d, k, ev)
  {
    var s := d.sessions[k];
    match ev
    case LinkUp(conn) => Goto(d, k, Handshaking(conn))
    case LinkDown => Goto(d, k, Parking(None, 0))
    case LinkEnded => if s.routes == [] then EndSession(c, d, k) else Goto(d, k, Waiting(Withdraw))
    case HandshakeFailed => Goto(d, k, Idle)
    case HandshakeOk(current) =>
      if Stale(s.routes, current) == [] then Goto(d, k, Waiting(Register(current, s.pc.conn)))
      else Goto(d, k, Waiting(DropStale(current, s.pc.conn)))
    case Acquire =>
      Goto(d.(lock := Some(k)), k, Running(s.pc.job, AllFresh(|JobIps(s, s.pc.job)|), d.table))
    case Advance(i, e) => AdvanceJob(d, k, i, e)
    case Finish => FinishJob(c, d.(lock := None), k)
    case ConnectionDropped => Goto(d, k, Parking(Some(s.pc.conn), 0))
    case ParkNext =>
      Goto(d.(table := ParkEntry(d.table, s.routes[s.pc.next])), k, s.pc.(next := s.pc.next + 1))
    case ParkDone => Goto(d, k, Idle)
  }

  function Goto<T>(d: Daemon<T>, k: nat, pc: Pc<T>): Daemon<T>
    requires k < |d.sessions|
  {
    d.(sessions := d.sessions[k := d.sessions[k].(pc := pc)])
  }

  /** One poll of a future of the running batch; a failed insert cancels the batch and rolls it back. */
  function AdvanceJob<T>(d: Daemon<T>, k: nat, i: nat, e: Poll): Daemon<T>
    requires k < |d.sessions| && d.sessions[k].pc.Running?
    requires i < |d.sessions[k].pc.futs| == |JobIps(d.sessions[k], d.sessions[k].pc.job)|
  {
    var s := d.sessions[k];
    var ip := JobIps(s, s.pc.job)[i];
    if s.pc.job.Register? then
      if e == Completed(false) then
        Goto(d, k, Running(Rollback(s.pc.job.current, s.pc.job.conn), AllFresh(|s.pc.job.current|), d.table))
      else
        Goto(d.(table := InsertEffect(d.table, ip, s.pc.job.conn, e)), k,
             s.pc.(futs := s.pc.futs[i := InsertNext(d.table, ip, e)]))
    else
      Goto(d.(table := RemoveEffect(d.table, ip, e)), k, s.pc.(futs := s.pc.futs[i := RemoveNext(e)]))
  }

  function FinishJob<T>(c: Config, d: Daemon<T>, k: nat): Daemon<T>
    requires k < |d.sessions| == |c| && d.sessions[k].pc.Running?
  {
    var s := d.sessions[k];
    match s.pc.job
    case DropStale(current, conn) => Goto(d, k, Waiting(Register(current, conn)))
    case Register(current, conn) =>
      d.(sessions := d.sessions[k := Session(current, Receiving(conn), Some(current))],
         names := d.names[Lower(c[k]) := current])
    case Rollback(_, _) => d.(sessions := d.sessions[k := s.(routes := [], pc := Idle)])
    case Withdraw => EndSession(c, d, k)
  }

  function EndSession<T>(c: Config, d: Daemon<T>, k: nat): Daemon<T>
    requires k < |d.sessions| == |c|
  {
    d.(sessions := d.sessions[k := Session([], Ended, None)], names := d.names - {Lower(c[k])})
  }

  // ----- Runs -----

  /** A finite run: the states passed through and the step taken from each of them. */
  datatype Run<T> = Run(states: seq<Daemon<T>>, steps: seq<(nat, Event<T>)>)

  ghost predicate IsRun<T>(c: Config, r: Run<T>) {
    && |r.states| == |r.steps| + 1
    && r.states[0] == Init(c)
    && forall n :: 0 <= n < |r.steps| ==> TakesStep(c, r.states[n], r.steps[n], r.states[n + 1])
  }

  ghost predicate TakesStep<T>(c: Config, d: Daemon<T>, step: (nat, Event<T>), d': Daemon<T>) {
    Enabled(c, d, step.0, step.1) && d' == Step(c, d, step.0, step.1)
  }

  /** Every handshake of the run negotiated pairwise distinct addresses. */
  ghost predicate DistinctBatches<T>(r: Run<T>) {
    forall n :: 0 <= n < |r.steps| && r.steps[n].1.HandshakeOk? ==> Distinct(r.steps[n].1.current)
  }

  /** Every handshake of the run negotiated addresses that only its own peer may claim. */
  ghost predicate OwnBatches<T>(owner: IpAddr -> nat, r: Run<T>) {
    forall n :: 0 <= n < |r.steps| && r.steps[n].1.HandshakeOk? ==>
      forall ip :: ip in r.steps[n].1.current ==> owner(ip) == r.steps[n].0
  }
}
