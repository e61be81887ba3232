/**
 Any number of nodes competing for one distributed lock key with a time-to-live.

 Every node has its own owner id and runs at most one tick of the task at a time.  The store is a single lock register
 with the three operations the nodes use: set-if-absent with expiry, compare-and-expire, compare-and-delete.  Each
 operation takes effect at some step between its issue and its reply; a reply may be lost.  Timers never fire early
 but may fire late or never.
 */
module CronLockProtocol {
  import opened Options
  import opened CronLockMonitor

  type NodeId = nat

  datatype Lock = Free | Held(owner: NodeId, expiresAt: nat)

  /** One grant of the lock and how long it was held without a gap: from `from` up to, but excluding, `until`. */
  datatype Lease = Lease(owner: NodeId, from: nat, until: nat)

  /**
   A run of the task body.  `effected` renewals have reached the store, the last of them may still be `inFlight`;
   `clean` says that the node had issued no shutdown release when the run started.
   */
  datatype Run = Run(
    lease: nat,
    startedAt: nat,
    monitor: Monitor,
    effected: nat,
    inFlight: Option<Outcome>,
    finishedAt: Option<nat>,
    clean: bool)

  datatype Phase = Idle | Requesting | Granted(lease: nat) | Denied | Running(run: Run) | Releasing | Released

  datatype ShutdownRelease = NotIssued | Issued | Performed

  datatype Node = Node(ttl: nat, phase: Phase, owned: bool, stopping: bool, shutdown: ShutdownRelease)

  datatype Success = Success(node: NodeId, lease: nat, acquiredAt: nat, startedAt: nat, finishedAt: nat, clean: bool)

  datatype State = State(
    now: nat,
    lock: Lock,
    leases: seq<Lease>,
    nodes: map<NodeId, Node>,
    successes: seq<Success>)

  function Init(ttls: map<NodeId, nat>): State {
    State(0, Free, [], map n | n in ttls :: Node(ttls[n], Idle, false, false, NotIssued), [])
  }

  datatype Action =
    | Advance(ms: nat)
    | Request(n: NodeId)
    | RequestEffect(n: NodeId)
    | RequestOver(n: NodeId)
    | Start(n: NodeId)
    | TimerFires(n: NodeId)
    | RenewEffect(n: NodeId)
    | RenewFails(n: NodeId)
    | RenewDone(n: NodeId)
    | BodyDone(n: NodeId)
    | BodyThrew(n: NodeId)
    | Report(n: NodeId)
    | ReleaseEffect(n: NodeId)
    | ReleaseDone(n: NodeId)
    | ReleaseFails(n: NodeId)
    | StrayRenew(n: NodeId)
    | Shutdown(n: NodeId)
    | ShutdownIssue(n: NodeId)
    | ShutdownEffect(n: NodeId)

  predicate Live(s: State) {
    s.lock.Held? && s.now < s.lock.expiresAt
  }

  predicate HeldBy(s: State, n: NodeId) {
    Live(s) && s.lock.owner == n
  }

  predicate Enabled(s: State, a: Action) {
    if a.Advance? then true
    else
      a.n in s.nodes &&
      var node := s.nodes[a.n];
      match a
      case Request(_) => node.phase == Idle
      case RequestEffect(_) => node.phase == Requesting
      case RequestOver(_) => node.phase == Requesting || node.phase == Denied || node.phase.Granted?
      case Start(_) => node.phase.Granted? && node.phase.lease < |s.leases|
      case TimerFires(_) =>
        node.phase.Running? && !node.phase.run.monitor.stopped &&
        s.now >= node.phase.run.startedAt + (node.phase.run.monitor.queued + 1) * node.phase.run.monitor.interval
      case RenewEffect(_) =>
        node.phase.Running? && node.phase.run.inFlight == None &&
        node.phase.run.effected < node.phase.run.monitor.queued
      case RenewFails(_) =>
        node.phase.Running? &&
        (node.phase.run.inFlight.Some? || node.phase.run.effected < node.phase.run.monitor.queued)
      case RenewDone(_) => node.phase.Running? && node.phase.run.inFlight.Some?
      case BodyDone(_) =>
        node.phase.Running? && node.phase.run.finishedAt == None && node.phase.run.monitor.interval > 0
      case BodyThrew(_) => node.phase.Running? && node.phase.run.finishedAt == None
      case Report(_) =>
        node.phase.Running? && node.phase.run.finishedAt.Some? && node.phase.run.inFlight == None &&
        node.phase.run.effected == node.phase.run.monitor.queued && node.phase.run.lease < |s.leases|
      case ReleaseEffect(_) => node.phase == Releasing
      case ReleaseDone(_) => node.phase == Released
      case ReleaseFails(_) => node.phase == Releasing || node.phase == Released
      case StrayRenew(_) => true
      case Shutdown(_) => true
      // A key whose run is in progress is never released by the shutdown of its node.
      case ShutdownIssue(_) =>
        node.stopping && node.owned && node.shutdown == NotIssued &&
        !node.phase.Running? && node.phase != Releasing && node.phase != Released
      case ShutdownEffect(_) => node.shutdown == Issued
  }

  function SetPhase(s: State, n: NodeId, phase: Phase): State
    requires n in s.nodes
  {
    s.(nodes := s.nodes[n := s.nodes[n].(phase := phase)])
  }

  function SetRun(s: State, n: NodeId, run: Run): State
    requires n in s.nodes
  {
    SetPhase(s, n, Running(run))
  }

  function EndLease(leases: seq<Lease>, until: nat): seq<Lease> {
    if leases == [] then leases else leases[|leases| - 1 := leases[|leases| - 1].(until := until)]
  }

  /** Set if absent, with expiry. */
  function SetIfAbsent(s: State, n: NodeId): State
    requires n in s.nodes
  {
    if Live(s) then SetPhase(s, n, Denied)
    else
      var until := s.now + s.nodes[n].ttl;
      SetPhase(s.(lock := Held(n, until), leases := s.leases + [Lease(n, s.now, until)]), n, Granted(|s.leases|))
  }

  /** If the stored value is the owner id, push the expiry out. */
  function CompareAndExpire(s: State, n: NodeId): State
    requires n in s.nodes
  {
    if HeldBy(s, n) then
      s.(lock := Held(n, s.now + s.nodes[n].ttl), leases := EndLease(s.leases, s.now + s.nodes[n].ttl))
    else s
  }

  /** If the stored value is the owner id, delete it. */
  function CompareAndDelete(s: State, n: NodeId): State {
    if HeldBy(s, n) then s.(lock := Free, leases := EndLease(s.leases, s.now)) else s
  }

  function Step(s: State, a: Action): State
    requires Enabled(s, a)
  {
    match a
    case Advance(ms) => s.(now := s.now + ms)
    case Request(n) => SetPhase(s, n, Requesting)
    case RequestEffect(n) => SetIfAbsent(s, n)
    case RequestOver(n) => SetPhase(s, n, Idle)
    case Start(n) =>
      var node := s.nodes[n];
      var run := Run(node.phase.lease, s.now, Fresh(node.ttl, s.now), 0, None, None, node.shutdown == NotIssued);
      s.(nodes := s.nodes[n := node.(phase := Running(run), owned := true)])
    case TimerFires(n) =>
      var run := s.nodes[n].phase.run;
      SetRun(s, n, run.(monitor := QueueOne(run.monitor)))
    case RenewEffect(n) =>
      var run := s.nodes[n].phase.run;
      SetRun(CompareAndExpire(s, n), n,
             run.(effected := run.effected + 1, inFlight := Some(if HeldBy(s, n) then Renewed else OwnershipLost)))
    case RenewFails(n) =>
      var run := s.nodes[n].phase.run;
      SetRun(s, n, run.(effected := if run.inFlight.Some? then run.effected else run.effected + 1,
                        inFlight := Some(RenewalFailed)))
    case RenewDone(n) =>
      var run := s.nodes[n].phase.run;
      SetRun(s, n, run.(monitor := Record(run.monitor, run.inFlight.value), inFlight := None))
    case BodyDone(n) =>
      var run := s.nodes[n].phase.run;
      SetRun(s, n, run.(monitor := QueueDue(run.monitor, s.now).(stopped := true), finishedAt := Some(s.now)))
    case BodyThrew(n) => SetPhase(s, n, Releasing)
    case Report(n) =>
      var run := s.nodes[n].phase.run;
      var done := SetPhase(s, n, Releasing);
      if run.monitor.error.Some? then done
      else done.(successes := s.successes + [Success(n, run.lease, s.leases[run.lease].from, run.startedAt,
                                                     run.finishedAt.value, run.clean)])
    case ReleaseEffect(n) => SetPhase(CompareAndDelete(s, n), n, Released)
    case ReleaseDone(n) => s.(nodes := s.nodes[n := s.nodes[n].(phase := Idle, owned := false)])
    case ReleaseFails(n) => SetPhase(s, n, Idle)
    case StrayRenew(n) => CompareAndExpire(s, n)
    case Shutdown(n) => s.(nodes := s.nodes[n := s.nodes[n].(stopping := true)])
    case ShutdownIssue(n) => s.(nodes := s.nodes[n := s.nodes[n].(shutdown := Issued)])
    case ShutdownEffect(n) =>
      var s' := CompareAndDelete(s, n);
      s'.(nodes := s.nodes[n := s.nodes[n].(shutdown := Performed, owned := false)])
  }

  /** The state a schedule leads to, if every action of it was possible. */
  function Reach(ttls: map<NodeId, nat>, actions: seq<Action>): Option<State> {
    if actions == [] then Some(Init(ttls))
    else
      var before := Reach(ttls, actions[..|actions| - 1]);
      var a := actions[|actions| - 1];
      if before.None? || !Enabled(before.value, a) then None else Some(Step(before.value, a))
  }
}
