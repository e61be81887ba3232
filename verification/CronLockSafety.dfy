/** What the lock protocol guarantees about runs that report success, over every schedule. */
module CronLockSafety {
  import opened Options
  import opened CronLockMonitor
  import opened CronLockProtocol

  // ---------- The register and its leases ----------

  ghost predicate NodesOk(s: State, ttls: map<NodeId, nat>) {
    s.nodes.Keys == ttls.Keys && forall n <- s.nodes :: s.nodes[n].ttl == ttls[n] >= 1000
  }

  /** Leases follow each other without overlap. */
  ghost predicate LeasesOk(s: State) {
    && (forall i | 0 <= i < |s.leases| ::
         s.leases[i].from <= s.leases[i].until && s.leases[i].from <= s.now && s.leases[i].owner in s.nodes &&
         s.leases[i].until <= s.now + s.nodes[s.leases[i].owner].ttl)
    && (forall i, j | 0 <= i < j < |s.leases| :: s.leases[i].until <= s.leases[j].from)
  }

  /** The register is held exactly while the last lease lasts. */
  ghost predicate LockOk(s: State) {
    if Live(s) then
      s.leases != [] && s.leases[|s.leases| - 1].owner == s.lock.owner &&
      s.leases[|s.leases| - 1].until == s.lock.expiresAt
    else s.leases != [] ==> s.leases[|s.leases| - 1].until <= s.now
  }

  ghost predicate RegisterOk(s: State) { LeasesOk(s) && LockOk(s) }

  /** An operation of node n leaves the leases of all other nodes alone. */
  ghost predicate OnlyOwnLease(before: seq<Lease>, after: seq<Lease>, n: NodeId) {
    && |before| <= |after|
    && (forall i | 0 <= i < |before| ::
         after[i].owner == before[i].owner && after[i].from == before[i].from &&
         (before[i].owner != n ==> after[i] == before[i]))
    && (forall i | |before| <= i < |after| :: after[i].owner == n)
  }

  lemma SetIfAbsentKeeps(s: State, n: NodeId)
    requires RegisterOk(s) && n in s.nodes && s.nodes[n].ttl > 0
    ensures RegisterOk(SetIfAbsent(s, n)) && OnlyOwnLease(s.leases, SetIfAbsent(s, n).leases, n)
    ensures forall i | 0 <= i < |s.leases| :: SetIfAbsent(s, n).leases[i] == s.leases[i]
  {
  }

  lemma CompareAndExpireKeeps(s: State, n: NodeId)
    requires RegisterOk(s) && n in s.nodes && s.nodes[n].ttl > 0
    ensures RegisterOk(CompareAndExpire(s, n)) && OnlyOwnLease(s.leases, CompareAndExpire(s, n).leases, n)
    ensures forall i | 0 <= i < |s.leases| :: s.leases[i].until <= CompareAndExpire(s, n).leases[i].until
  {
  }

  lemma CompareAndDeleteKeeps(s: State, n: NodeId)
    requires RegisterOk(s) && n in s.nodes
    ensures RegisterOk(CompareAndDelete(s, n)) && OnlyOwnLease(s.leases, CompareAndDelete(s, n).leases, n)
    ensures forall i | 0 <= i < |s.leases| ::
              CompareAndDelete(s, n).leases[i].until == s.leases[i].until ||
              CompareAndDelete(s, n).leases[i].until == s.now
  {
  }

  ghost predicate SameRegister(s: State, s': State) {
    && s'.now == s.now && s'.lock == s.lock && s'.leases == s.leases && s'.nodes.Keys == s.nodes.Keys
    && forall n <- s.nodes :: s'.nodes[n].ttl == s.nodes[n].ttl
  }

  lemma SameRegisterKeeps(s: State, s': State)
    requires RegisterOk(s) && SameRegister(s, s')
    ensures RegisterOk(s')
  {
  }

  /** What a step does to the register, before it updates the node. */
  function RegisterPart(s: State, a: Action): State
    requires a.Advance? || a.n in s.nodes
  {
    match a
    case Advance(ms) => s.(now := s.now + ms)
    case RequestEffect(n) => SetIfAbsent(s, n)
    case RenewEffect(n) => CompareAndExpire(s, n)
    case StrayRenew(n) => CompareAndExpire(s, n)
    case ReleaseEffect(n) => CompareAndDelete(s, n)
    case ShutdownEffect(n) => CompareAndDelete(s, n)
    case _ => s
  }

  lemma StepIsRegisterPart(s: State, a: Action)
    requires Enabled(s, a)
    ensures SameRegister(RegisterPart(s, a), Step(s, a))
  {
  }

  lemma StepLeavesOthers(s: State, a: Action)
    requires Enabled(s, a) && !a.Advance?
    ensures Step(s, a).nodes.Keys == s.nodes.Keys
    ensures forall m <- s.nodes :: m != a.n ==> Step(s, a).nodes[m] == s.nodes[m]
  {
  }

  lemma StepKeepsRegister(s: State, a: Action)
    requires RegisterOk(s) && Enabled(s, a) && (forall n <- s.nodes :: s.nodes[n].ttl > 0)
    ensures RegisterOk(Step(s, a))
    ensures !a.Advance? ==> OnlyOwnLease(s.leases, Step(s, a).leases, a.n)
  {
    StepIsRegisterPart(s, a);
    RegisterPartKeeps(s, a);
    SameRegisterKeeps(RegisterPart(s, a), Step(s, a));
  }

  lemma RegisterPartKeeps(s: State, a: Action)
    requires RegisterOk(s) && Enabled(s, a) && (forall n <- s.nodes :: s.nodes[n].ttl > 0)
    ensures RegisterOk(RegisterPart(s, a))
    ensures !a.Advance? ==> OnlyOwnLease(s.leases, RegisterPart(s, a).leases, a.n)
  {
    if a.RequestEffect? {
      SetIfAbsentKeeps(s, a.n);
    } else if a.RenewEffect? || a.StrayRenew? {
      CompareAndExpireKeeps(s, a.n);
    } else if a.ReleaseEffect? || a.ShutdownEffect? {
      CompareAndDeleteKeeps(s, a.n);
    }
  }

  // ---------- Runs ----------

  /** The lease belongs to node n and is the latest that does. */
  ghost predicate Latest(leases: seq<Lease>, n: NodeId, lease: nat) {
    lease < |leases| && leases[lease].owner == n &&
    forall i | lease < i < |leases| :: leases[i].owner != n
  }

  ghost predicate ScheduleOk(s: State, ttl: nat, run: Run) {
    && OnSchedule(run.monitor, run.startedAt) && run.monitor.interval == RenewalInterval(ttl)
    && run.startedAt + run.monitor.queued * run.monitor.interval <= s.now
    && run.effected <= run.monitor.queued
    && (run.finishedAt == None <==> !run.monitor.stopped)
    && (run.finishedAt.Some? ==> run.finishedAt.value <= s.now && run.finishedAt.value < run.monitor.nextDueAt)
  }

  /** How far the lease of a run without errors certainly reaches. */
  function CertainUntil(lease: Lease, ttl: nat, run: Run): nat {
    if run.effected == 0 then lease.from + ttl
    else run.startedAt + run.effected * run.monitor.interval + ttl
  }

  predicate ErrorFree(run: Run) {
    run.monitor.error == None && (run.inFlight == None || run.inFlight == Some(Renewed))
  }

  ghost predicate LeaseOk(s: State, n: NodeId, run: Run)
    requires n in s.nodes
  {
    && Latest(s.leases, n, run.lease)
    && s.leases[run.lease].from <= run.startedAt
    && (run.clean ==> s.nodes[n].shutdown == NotIssued)
    && (run.clean && ErrorFree(run) ==>
         s.leases[run.lease].until >= CertainUntil(s.leases[run.lease], s.nodes[n].ttl, run))
  }

  ghost predicate NodeOk(s: State, n: NodeId)
    requires n in s.nodes
  {
    var node := s.nodes[n];
    match node.phase
    case Granted(lease) =>
      && Latest(s.leases, n, lease)
      && (node.shutdown == NotIssued ==> s.leases[lease].until >= s.leases[lease].from + node.ttl)
    case Running(run) => ScheduleOk(s, node.ttl, run) && LeaseOk(s, n, run)
    case _ => true
  }

  lemma OtherNodeKeeps(s: State, s': State, n: NodeId, m: NodeId)
    requires m in s.nodes && m in s'.nodes && s'.nodes[m] == s.nodes[m] && NodeOk(s, m)
    requires s.now <= s'.now && m != n && OnlyOwnLease(s.leases, s'.leases, n)
    ensures NodeOk(s', m)
  {
  }

  lemma StartKeepsNode(s: State, n: NodeId)
    requires RegisterOk(s) && Enabled(s, Start(n)) && NodeOk(s, n)
    ensures NodeOk(Step(s, Start(n)), n)
  {
  }

  lemma TimerKeepsNode(s: State, n: NodeId)
    requires Enabled(s, TimerFires(n)) && NodeOk(s, n)
    ensures NodeOk(Step(s, TimerFires(n)), n)
  {
    var m := s.nodes[n].phase.run.monitor;
    assert (m.queued + 1 + 1) * m.interval == (m.queued + 1) * m.interval + m.interval;
  }

  lemma BodyDoneKeepsNode(s: State, n: NodeId)
    requires Enabled(s, BodyDone(n)) && NodeOk(s, n)
    ensures NodeOk(Step(s, BodyDone(n)), n)
  {
    var run := s.nodes[n].phase.run;
    QueueDueCatchesUp(run.monitor, s.now, run.startedAt);
  }

  lemma MonotoneProduct(a: nat, b: nat, c: nat)
    requires a <= b
    ensures a * c <= b * c
  {
  }

  /** A renewal that finds the lock still held reaches one time-to-live past its own due time. */
  lemma RenewKeepsNode(s: State, n: NodeId)
    requires RegisterOk(s) && Enabled(s, RenewEffect(n)) && NodeOk(s, n) && s.nodes[n].ttl > 0
    ensures NodeOk(Step(s, RenewEffect(n)), n)
  {
    CompareAndExpireKeeps(s, n);
    var run := s.nodes[n].phase.run;
    MonotoneProduct(run.effected + 1, run.monitor.queued, run.monitor.interval);
    if HeldBy(s, n) {
      assert s.leases[|s.leases| - 1].owner == n;
      assert run.lease == |s.leases| - 1;
    }
  }

  lemma RenewOverKeepsNode(s: State, a: Action)
    requires Enabled(s, a) && (a.RenewFails? || a.RenewDone?) && NodeOk(s, a.n)
    ensures NodeOk(Step(s, a), a.n)
  {
  }

  lemma StrayKeepsNode(s: State, n: NodeId)
    requires RegisterOk(s) && Enabled(s, StrayRenew(n)) && NodeOk(s, n) && s.nodes[n].ttl > 0
    ensures NodeOk(Step(s, StrayRenew(n)), n)
  {
    CompareAndExpireKeeps(s, n);
  }

  lemma ShutdownKeepsNode(s: State, a: Action)
    requires RegisterOk(s) && Enabled(s, a) && (a.Shutdown? || a.ShutdownIssue? || a.ShutdownEffect?) && NodeOk(s, a.n)
    ensures NodeOk(Step(s, a), a.n)
  {
    CompareAndDeleteKeeps(s, a.n);
  }

  lemma RequestKeepsNode(s: State, n: NodeId)
    requires RegisterOk(s) && Enabled(s, RequestEffect(n)) && NodeOk(s, n)
    ensures NodeOk(Step(s, RequestEffect(n)), n)
  {
  }

  lemma StepKeepsOwnNode(s: State, a: Action)
    requires RegisterOk(s) && Enabled(s, a) && !a.Advance? && NodeOk(s, a.n) && s.nodes[a.n].ttl > 0
    ensures a.n in Step(s, a).nodes && NodeOk(Step(s, a), a.n)
  {
    match a
    case Start(n) => StartKeepsNode(s, n);
    case TimerFires(n) => TimerKeepsNode(s, n);
    case BodyDone(n) => BodyDoneKeepsNode(s, n);
    case RenewEffect(n) => RenewKeepsNode(s, n);
    case RenewFails(_) => RenewOverKeepsNode(s, a);
    case RenewDone(_) => RenewOverKeepsNode(s, a);
    case StrayRenew(n) => StrayKeepsNode(s, n);
    case RequestEffect(n) => RequestKeepsNode(s, n);
    case Shutdown(_) => ShutdownKeepsNode(s, a);
    case ShutdownIssue(_) => ShutdownKeepsNode(s, a);
    case ShutdownEffect(_) => ShutdownKeepsNode(s, a);
    case _ =>
  }

  ghost predicate AllNodesOk(s: State) {
    forall n <- s.nodes :: NodeOk(s, n)
  }

  lemma StepKeepsNodes(s: State, a: Action, ttls: map<NodeId, nat>)
    requires NodesOk(s, ttls) && RegisterOk(s) && AllNodesOk(s) && Enabled(s, a)
    ensures NodesOk(Step(s, a), ttls) && AllNodesOk(Step(s, a))
  {
    var s' := Step(s, a);
    StepIsRegisterPart(s, a);
    StepKeepsRegister(s, a);
    if !a.Advance? {
      StepLeavesOthers(s, a);
      StepKeepsOwnNode(s, a);
      forall m | m in s.nodes && m != a.n ensures NodeOk(s', m) {
        OtherNodeKeeps(s, s', a.n, m);
      }
    }
  }

  // ---------- Runs that report success ----------

  /** From grant to start it takes at most one time-to-live less one renewal interval, give or take `slack`. */
  predicate InTime(wait: nat, ttl: nat, slack: nat) {
    wait + RenewalInterval(ttl) <= ttl + slack
  }

  function WaitOf(su: Success): nat {
    if su.acquiredAt <= su.startedAt then su.startedAt - su.acquiredAt else 0
  }

  /** The hypotheses under which a success is a proof of possession. */
  predicate Sound(su: Success, ttls: map<NodeId, nat>) {
    su.node in ttls && su.clean && InTime(WaitOf(su), ttls[su.node], 0)
  }

  /**
   The hypotheses under which a success excludes others: one tick more, since a lease ends before its last instant.
   */
  predicate Exclusive(su: Success, ttls: map<NodeId, nat>) {
    su.node in ttls && su.clean && InTime(WaitOf(su), ttls[su.node], 1)
  }

  function LeaseInUse(phase: Phase): Option<nat> {
    match phase
    case Granted(lease) => Some(lease)
    case Running(run) => Some(run.lease)
    case _ => None
  }

  ghost predicate SuccessOk(s: State, ttls: map<NodeId, nat>, su: Success) {
    && su.lease < |s.leases| && s.leases[su.lease].owner == su.node && s.leases[su.lease].from == su.acquiredAt
    && su.finishedAt <= s.now
    && (Exclusive(su, ttls) ==> su.finishedAt <= s.leases[su.lease].until)
  }

  ghost predicate SuccessesOk(s: State, ttls: map<NodeId, nat>) {
    && (forall su <- s.successes :: SuccessOk(s, ttls, su))
    && (forall i, j | 0 <= i < j < |s.successes| :: s.successes[i].lease != s.successes[j].lease)
    && (forall n <- s.nodes, su <- s.successes :: LeaseInUse(s.nodes[n].phase) != Some(su.lease))
  }

  ghost predicate Inv(s: State, ttls: map<NodeId, nat>) {
    NodesOk(s, ttls) && RegisterOk(s) && AllNodesOk(s) && SuccessesOk(s, ttls)
  }

  /** A run that finishes without an error finished before its lease did. */
  lemma ReportedInsideLease(s: State, ttls: map<NodeId, nat>, n: NodeId, slack: nat)
    requires NodesOk(s, ttls) && Enabled(s, Report(n)) && NodeOk(s, n) && slack <= 1
    requires s.nodes[n].phase.run.monitor.error == None && s.nodes[n].phase.run.clean
    requires InTime(s.nodes[n].phase.run.startedAt - s.leases[s.nodes[n].phase.run.lease].from, ttls[n], slack)
    ensures s.nodes[n].phase.run.finishedAt.value < s.leases[s.nodes[n].phase.run.lease].until + slack
  {
    var run := s.nodes[n].phase.run;
    var m := run.monitor;
    assert (m.queued + 1) * m.interval == m.queued * m.interval + m.interval;
    if m.queued == 0 {
      assert m.nextDueAt == run.startedAt + m.interval;
    }
  }

  lemma ReportKeepsSuccesses(s: State, ttls: map<NodeId, nat>, n: NodeId)
    requires Inv(s, ttls) && Enabled(s, Report(n))
    ensures SuccessesOk(Step(s, Report(n)), ttls)
  {
    var run := s.nodes[n].phase.run;
    var s' := Step(s, Report(n));
    if run.monitor.error == None {
      var su := s'.successes[|s.successes|];
      if Exclusive(su, ttls) { ReportedInsideLease(s, ttls, n, 1); }
      assert SuccessOk(s', ttls, su);
      forall m | m in s'.nodes ensures LeaseInUse(s'.nodes[m].phase) != Some(su.lease) {
        assert m != n ==> NodeOk(s, m);
      }
    }
  }

  lemma RegisterPartKeepsSuccess(s: State, ttls: map<NodeId, nat>, a: Action, su: Success)
    requires NodesOk(s, ttls) && RegisterOk(s) && Enabled(s, a) && SuccessOk(s, ttls, su)
    ensures SuccessOk(Step(s, a), ttls, su)
  {
    StepIsRegisterPart(s, a);
    if a.RequestEffect? {
      SetIfAbsentKeeps(s, a.n);
    } else if a.RenewEffect? || a.StrayRenew? {
      CompareAndExpireKeeps(s, a.n);
    } else if a.ReleaseEffect? || a.ShutdownEffect? {
      CompareAndDeleteKeeps(s, a.n);
    }
  }

  /** A step uses a lease only if it was in use before, or is new. */
  lemma LeasesInUseAreNew(s: State, a: Action, n: NodeId)
    requires Enabled(s, a) && n in s.nodes
    ensures n in Step(s, a).nodes
    ensures var use := LeaseInUse(Step(s, a).nodes[n].phase);
            use == None || use == LeaseInUse(s.nodes[n].phase) || use == Some(|s.leases|)
  {
  }

  ghost predicate NotInUse(s: State, su: Success) {
    forall n <- s.nodes :: LeaseInUse(s.nodes[n].phase) != Some(su.lease)
  }

  lemma StaysUnused(s: State, a: Action, su: Success)
    requires Enabled(s, a) && NotInUse(s, su) && su.lease < |s.leases|
    ensures NotInUse(Step(s, a), su)
  {
    var s' := Step(s, a);
    StepIsRegisterPart(s, a);
    forall n | n in s'.nodes ensures LeaseInUse(s'.nodes[n].phase) != Some(su.lease) {
      LeasesInUseAreNew(s, a, n);
    }
  }

  lemma StepKeepsSuccesses(s: State, ttls: map<NodeId, nat>, a: Action)
    requires Inv(s, ttls) && Enabled(s, a)
    ensures SuccessesOk(Step(s, a), ttls)
  {
    if a.Report? {
      ReportKeepsSuccesses(s, ttls, a.n);
    } else {
      assert Step(s, a).successes == s.successes by { NoNewSuccess(s, a); }
      forall su | su in s.successes ensures SuccessOk(Step(s, a), ttls, su) && NotInUse(Step(s, a), su) {
        RegisterPartKeepsSuccess(s, ttls, a, su);
        assert SuccessOk(s, ttls, su);
        StaysUnused(s, a, su);
      }
    }
  }

  lemma NoNewSuccess(s: State, a: Action)
    requires Enabled(s, a) && !a.Report?
    ensures Step(s, a).successes == s.successes
  {
  }

  lemma {:induction false} ReachableInv(ttls: map<NodeId, nat>, actions: seq<Action>)
    requires Reach(ttls, actions).Some? && forall n <- ttls :: ttls[n] >= 1000
    ensures Inv(Reach(ttls, actions).value, ttls)
  {
    if actions != [] {
      var before := Reach(ttls, actions[..|actions| - 1]).value;
      var a := actions[|actions| - 1];
      ReachableInv(ttls, actions[..|actions| - 1]);
      StepKeepsNodes(before, a, ttls);
      StepKeepsRegister(before, a);
      StepKeepsSuccesses(before, ttls, a);
    }
  }

  /**
   Mutual exclusion of reported successes.  On every schedule, two runs of the key that both report success, each
   started in time and before any shutdown release of its node, do not overlap.
   */
  lemma SuccessfulRunsNeverOverlap(ttls: map<NodeId, nat>, actions: seq<Action>, i: nat, j: nat)
    requires Reach(ttls, actions).Some? && forall n <- ttls :: ttls[n] >= 1000
    requires i < |Reach(ttls, actions).value.successes| && j < |Reach(ttls, actions).value.successes| && i != j
    requires Exclusive(Reach(ttls, actions).value.successes[i], ttls)
    requires Exclusive(Reach(ttls, actions).value.successes[j], ttls)
    ensures var a, b := Reach(ttls, actions).value.successes[i], Reach(ttls, actions).value.successes[j];
            a.finishedAt <= b.acquiredAt || b.finishedAt <= a.acquiredAt
  {
    ReachableInv(ttls, actions);
    var s := Reach(ttls, actions).value;
    var a, b := s.successes[i], s.successes[j];
    assert SuccessOk(s, ttls, a) && SuccessOk(s, ttls, b);
    assert a.lease != b.lease;
  }

  // ---------- Possession at every instant ----------

  lemma LapsedStaysLapsed(s: State, a: Action, lease: nat)
    requires RegisterOk(s) && Enabled(s, a) && lease < |s.leases| && s.leases[lease].until <= s.now
    ensures lease < |Step(s, a).leases| && Step(s, a).leases[lease] == s.leases[lease] && s.now <= Step(s, a).now
  {
    StepIsRegisterPart(s, a);
  }

  lemma {:induction false} LapsedForever(ttls: map<NodeId, nat>, actions: seq<Action>, j: nat, lease: nat)
    requires Reach(ttls, actions).Some? && (forall n <- ttls :: ttls[n] >= 1000) && j <= |actions|
    requires Reach(ttls, actions[..j]).Some? && lease < |Reach(ttls, actions[..j]).value.leases|
    requires Reach(ttls, actions[..j]).value.leases[lease].until <= Reach(ttls, actions[..j]).value.now
    ensures lease < |Reach(ttls, actions).value.leases|
    ensures Reach(ttls, actions).value.leases[lease] == Reach(ttls, actions[..j]).value.leases[lease]
    ensures Reach(ttls, actions[..j]).value.now <= Reach(ttls, actions).value.now
  {
    if j < |actions| {
      var before := actions[..|actions| - 1];
      assert before[..j] == actions[..j];
      LapsedForever(ttls, before, j, lease);
      ReachableInv(ttls, before);
      LapsedStaysLapsed(Reach(ttls, before).value, actions[|actions| - 1], lease);
    } else {
      assert actions[..j] == actions;
    }
  }

  /** While the latest lease of a node has not lapsed, the register holds that node. */
  lemma UnlapsedIsHeld(s: State, lease: nat)
    requires RegisterOk(s) && lease < |s.leases| && s.now < s.leases[lease].until
    ensures HeldBy(s, s.leases[lease].owner)
  {
  }

  lemma {:induction false} LeasesGrow(ttls: map<NodeId, nat>, actions: seq<Action>, j: nat, lease: nat)
    requires Reach(ttls, actions).Some? && (forall n <- ttls :: ttls[n] >= 1000) && j <= |actions|
    requires Reach(ttls, actions[..j]).Some? && lease < |Reach(ttls, actions[..j]).value.leases|
    ensures lease < |Reach(ttls, actions).value.leases|
    ensures Reach(ttls, actions).value.leases[lease].owner == Reach(ttls, actions[..j]).value.leases[lease].owner
  {
    if j < |actions| {
      var before := actions[..|actions| - 1];
      assert before[..j] == actions[..j];
      LeasesGrow(ttls, before, j, lease);
      ReachableInv(ttls, before);
      StepKeepsRegister(Reach(ttls, before).value, actions[|actions| - 1]);
    } else {
      assert actions[..j] == actions;
    }
  }

  /** At the report of a success the lock was held in every earlier state since its grant, until the body finished. */
  lemma HeldUntilReport(ttls: map<NodeId, nat>, before: seq<Action>, n: NodeId, j: nat)
    requires Reach(ttls, before).Some? && (forall m <- ttls :: ttls[m] >= 1000) && j <= |before|
    requires Enabled(Reach(ttls, before).value, Report(n)) && Reach(ttls, before[..j]).Some? && n in ttls
    requires var s, p := Reach(ttls, before).value, Reach(ttls, before[..j]).value;
             var run := s.nodes[n].phase.run;
             && run.monitor.error == None && run.clean && run.lease < |p.leases| && p.now <= run.finishedAt.value
             && s.leases[run.lease].from <= run.startedAt
             && InTime(run.startedAt - s.leases[run.lease].from, ttls[n], 0)
    ensures HeldBy(Reach(ttls, before[..j]).value, n)
  {
    var s, p := Reach(ttls, before).value, Reach(ttls, before[..j]).value;
    var lease := s.nodes[n].phase.run.lease;
    ReachableInv(ttls, before);
    ReachableInv(ttls, before[..j]);
    ReportedInsideLease(s, ttls, n, 0);
    LeasesGrow(ttls, before, j, lease);
    if p.leases[lease].until <= p.now {
      LapsedForever(ttls, before, j, lease);
      assert false;
    }
    UnlapsedIsHeld(p, lease);
  }

  /**
   A reported success held its lock throughout.  In every state between the grant of its lease and its report, up to
   the instant its body finished, the register names its node.
   */
  lemma {:induction false} SuccessfulRunHeldTheLock(ttls: map<NodeId, nat>, actions: seq<Action>, k: nat, j: nat)
    requires Reach(ttls, actions).Some? && (forall n <- ttls :: ttls[n] >= 1000) && j <= |actions|
    requires k < |Reach(ttls, actions).value.successes| && Sound(Reach(ttls, actions).value.successes[k], ttls)
    requires Reach(ttls, actions[..j]).Some?
    requires var su, p := Reach(ttls, actions).value.successes[k], Reach(ttls, actions[..j]).value;
             su.lease < |p.leases| && |p.successes| <= k && p.now <= su.finishedAt
    ensures HeldBy(Reach(ttls, actions[..j]).value, Reach(ttls, actions).value.successes[k].node)
  {
    assert actions[..|actions|] == actions;
    assert j < |actions|;
    var before := actions[..|actions| - 1];
    var a := actions[|actions| - 1];
    assert before[..j] == actions[..j];
    var s := Reach(ttls, before).value;
    if k < |s.successes| {
      assert s.successes[k] == Reach(ttls, actions).value.successes[k];
      SuccessfulRunHeldTheLock(ttls, before, k, j);
    } else {
      ReachableInv(ttls, before);
      HeldUntilReport(ttls, before, a.n, j);
    }
  }
}
