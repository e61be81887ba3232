/**
 The conditions under which a successful run is safe are exact: for every pair of nodes, every time-to-live and every
 wait between grant and start that breaks them, some schedule breaks mutual exclusion, and possession likewise.
 */
module CronLockTightness {
  import opened Options
  import opened CronLockMonitor
  import opened CronLockProtocol
  import opened CronLockSafety

  ghost predicate Overlap(a: Success, b: Success) {
    a.acquiredAt < b.finishedAt && b.acquiredAt < a.finishedAt
  }

  /**
   A success of the given kind: its node, how long it waited for the reply, and whether it started before a shutdown
   release.
   */
  predicate OfKind(su: Success, n: NodeId, wait: nat, clean: bool) {
    su.node == n && su.startedAt == su.acquiredAt + wait && su.clean == clean
  }

  /** A success of n of the given kind overlaps one of m that meets the conditions. */
  ghost predicate Overlapped(ttls: map<NodeId, nat>, actions: seq<Action>, n: NodeId, m: NodeId, wait: nat,
                             clean: bool) {
    Reach(ttls, actions).Some? &&
    var successes := Reach(ttls, actions).value.successes;
    exists a <- successes, b <- successes ::
      OfKind(a, n, wait, clean) && b.node == m && Exclusive(b, ttls) && Overlap(a, b)
  }

  /** During a success of n of the given kind, up to the instant its body finished, the register names somebody else. */
  ghost predicate Dispossessed(ttls: map<NodeId, nat>, actions: seq<Action>, n: NodeId, wait: nat, clean: bool) {
    Reach(ttls, actions).Some? &&
    exists k: nat, j: nat :: LostAt(ttls, actions, n, wait, clean, k, j)
  }

  ghost predicate LostAt(ttls: map<NodeId, nat>, actions: seq<Action>, n: NodeId, wait: nat, clean: bool, k: nat,
                         j: nat)
    requires Reach(ttls, actions).Some?
  {
    k < |Reach(ttls, actions).value.successes| && j <= |actions| && Reach(ttls, actions[..j]).Some? &&
    var su, p := Reach(ttls, actions).value.successes[k], Reach(ttls, actions[..j]).value;
    OfKind(su, n, wait, clean) && su.lease < |p.leases| && |p.successes| <= k && p.now <= su.finishedAt && !HeldBy(p, n)
  }

  // ---------- Building schedules ----------

  function IdleNode(ttl: nat): Node { Node(ttl, Idle, false, false, NotIssued) }

  function BusyRun(lease: nat, ttl: nat, startedAt: nat, clean: bool): Run {
    Run(lease, startedAt, Fresh(ttl, startedAt), 0, None, None, clean)
  }

  lemma Extend(ttls: map<NodeId, nat>, actions: seq<Action>, s: State, a: Action)
      returns (longer: seq<Action>, s': State)
    requires Reach(ttls, actions) == Some(s) && Enabled(s, a)
    ensures s' == Step(s, a) && longer == actions + [a] && Reach(ttls, longer) == Some(s')
  {
    longer, s' := actions + [a], Step(s, a);
    assert longer[..|longer| - 1] == actions;
  }

  /** Only node n differs. */
  ghost predicate OthersSame(s: State, s': State, n: NodeId) {
    s'.nodes.Keys == s.nodes.Keys && forall m <- s.nodes :: m != n ==> s'.nodes[m] == s.nodes[m]
  }

  /** An idle node asks for the free lock and starts its run when the reply arrives. */
  lemma GrantAndStart(ttls: map<NodeId, nat>, actions: seq<Action>, s: State, n: NodeId, wait: nat)
      returns (longer: seq<Action>, s': State)
    requires Reach(ttls, actions) == Some(s) && n in s.nodes && s.nodes[n] == IdleNode(s.nodes[n].ttl) && !Live(s)
    ensures Reach(ttls, longer) == Some(s') && OthersSame(s, s', n)
    ensures var ttl := s.nodes[n].ttl;
            && s'.now == s.now + wait && s'.lock == Held(n, s.now + ttl) && s'.successes == s.successes
            && s'.leases == s.leases + [Lease(n, s.now, s.now + ttl)]
            && n in s'.nodes
            && s'.nodes[n] == Node(ttl, Running(BusyRun(|s.leases|, ttl, s.now + wait, true)), true, false, NotIssued)
  {
    longer, s' := Extend(ttls, actions, s, Request(n));
    longer, s' := GrantedLater(ttls, longer, s', n, wait);
    longer, s' := Extend(ttls, longer, s', Start(n));
  }

  lemma GrantedLater(ttls: map<NodeId, nat>, actions: seq<Action>, s: State, n: NodeId, wait: nat)
      returns (longer: seq<Action>, s': State)
    requires Reach(ttls, actions) == Some(s) && n in s.nodes && s.nodes[n].phase == Requesting && !Live(s)
    ensures Reach(ttls, longer) == Some(s') && OthersSame(s, s', n)
    ensures var ttl := s.nodes[n].ttl;
            && s'.now == s.now + wait && s'.lock == Held(n, s.now + ttl) && s'.successes == s.successes
            && s'.leases == s.leases + [Lease(n, s.now, s.now + ttl)]
            && n in s'.nodes && s'.nodes[n] == s.nodes[n].(phase := Granted(|s.leases|))
  {
    longer, s' := Extend(ttls, actions, s, RequestEffect(n));
    longer, s' := Extend(ttls, longer, s', Advance(wait));
  }

  /** A run with no renewal due yet finishes and reports. */
  lemma FinishAndReport(ttls: map<NodeId, nat>, actions: seq<Action>, s: State, n: NodeId)
      returns (longer: seq<Action>, s': State)
    requires Reach(ttls, actions) == Some(s) && n in s.nodes && s.nodes[n].phase.Running?
    requires var run := s.nodes[n].phase.run;
             run == BusyRun(run.lease, s.nodes[n].ttl, run.startedAt, run.clean) &&
             s.now < run.startedAt + RenewalInterval(s.nodes[n].ttl) && run.lease < |s.leases|
    ensures Reach(ttls, longer) == Some(s') && OthersSame(s, s', n) && |longer| == |actions| + 2
    ensures longer[..|actions|] == actions && s'.now == s.now && s'.leases == s.leases
    ensures var run := s.nodes[n].phase.run;
            s'.successes == s.successes +
              [Success(n, run.lease, s.leases[run.lease].from, run.startedAt, s.now, run.clean)]
  {
    longer, s' := Extend(ttls, actions, s, BodyDone(n));
    longer, s' := Extend(ttls, longer, s', Report(n));
  }

  // ---------- A late reply ----------

  function Later(a: nat, b: nat): nat { if a < b then b else a }

  /** The lock of n is granted at time 0 and n starts after the wait; the lock has lapsed at the given instant. */
  lemma StartLate(ttls: map<NodeId, nat>, n: NodeId, wait: nat) returns (actions: seq<Action>, s: State)
    requires n in ttls && ttls[n] >= 1000
    ensures Reach(ttls, actions) == Some(s) && s.now == Later(ttls[n], wait) && !Live(s) && s.successes == []
    ensures s.leases == [Lease(n, 0, ttls[n])] && OthersSame(Init(ttls), s, n)
    ensures n in s.nodes && s.nodes[n].ttl == ttls[n]
    ensures s.nodes[n].phase == Running(BusyRun(0, ttls[n], wait, true))
  {
    var start := Init(ttls);
    assert Reach(ttls, []) == Some(start);
    actions, s := GrantAndStart(ttls, [], start, n, wait);
    actions, s := Extend(ttls, actions, s, Advance(Later(ttls[n], wait) - wait));
  }

  /** A reply that comes more than one tick too late: m takes the lapsed lock over while n still reports success. */
  lemma LateReplyOverlaps(ttls: map<NodeId, nat>, n: NodeId, m: NodeId, wait: nat) returns (actions: seq<Action>)
    requires n in ttls && m in ttls && n != m && ttls[n] >= 1000 && ttls[m] >= 1000 && !InTime(wait, ttls[n], 1)
    ensures Overlapped(ttls, actions, n, m, wait, true)
  {
    var s: State;
    actions, s := StartLate(ttls, n, wait);
    actions, s := OverlapFrom(ttls, actions, s, n, m);
  }

  /** A run of n without a renewal due for some time, whose lock is gone. */
  ghost predicate Unprotected(s: State, n: NodeId) {
    n in s.nodes && s.nodes[n].phase.Running? && !Live(s) &&
    var run := s.nodes[n].phase.run;
    && run == BusyRun(run.lease, s.nodes[n].ttl, run.startedAt, run.clean)
    && run.lease < |s.leases| && s.leases[run.lease].from <= s.now && s.leases[run.lease].from <= run.startedAt
    && s.now + 1 < run.startedAt + RenewalInterval(s.nodes[n].ttl)
  }

  predicate AboutToFinish(s: State, n: NodeId) {
    n in s.nodes && s.nodes[n].phase.Running? &&
    var run := s.nodes[n].phase.run;
    run == BusyRun(run.lease, s.nodes[n].ttl, run.startedAt, run.clean) &&
    s.now < run.startedAt + RenewalInterval(s.nodes[n].ttl) && run.lease < |s.leases|
  }

  function Finished(s: State, n: NodeId): Success
    requires AboutToFinish(s, n)
  {
    var run := s.nodes[n].phase.run;
    Success(n, run.lease, s.leases[run.lease].from, run.startedAt, s.now, run.clean)
  }

  lemma FinishBoth(ttls: map<NodeId, nat>, actions: seq<Action>, s: State, n: NodeId, m: NodeId)
      returns (longer: seq<Action>, s': State)
    requires Reach(ttls, actions) == Some(s) && n != m && AboutToFinish(s, n) && AboutToFinish(s, m)
    ensures Reach(ttls, longer) == Some(s') && s'.successes == s.successes + [Finished(s, n)] + [Finished(s, m)]
  {
    longer, s' := FinishAndReport(ttls, actions, s, n);
    longer, s' := FinishAndReport(ttls, longer, s', m);
  }

  /** While n runs without holding the lock, m acquires it; one tick later both are about to finish. */
  lemma BothRun(ttls: map<NodeId, nat>, actions: seq<Action>, s: State, n: NodeId, m: NodeId)
      returns (longer: seq<Action>, s': State)
    requires Reach(ttls, actions) == Some(s) && Unprotected(s, n) && n != m
    requires m in ttls && ttls[m] >= 1000 && m in s.nodes && s.nodes[m] == IdleNode(ttls[m])
    ensures Reach(ttls, longer) == Some(s') && AboutToFinish(s', n) && AboutToFinish(s', m)
    ensures var run := s.nodes[n].phase.run;
            Finished(s', n) == Success(n, run.lease, s.leases[run.lease].from, run.startedAt, s.now + 1, run.clean)
    ensures Finished(s', m) == Success(m, |s.leases|, s.now, s.now, s.now + 1, true)
  {
    longer, s' := GrantAndStart(ttls, actions, s, m, 0);
    assert s'.nodes[n] == s.nodes[n] && s'.leases[..|s.leases|] == s.leases;
    longer, s' := Extend(ttls, longer, s', Advance(1));
  }

  /** Both then report success, and their runs overlap. */
  lemma OverlapFrom(ttls: map<NodeId, nat>, actions: seq<Action>, s: State, n: NodeId, m: NodeId)
      returns (longer: seq<Action>, s': State)
    requires Reach(ttls, actions) == Some(s) && Unprotected(s, n) && n != m
    requires m in ttls && ttls[m] >= 1000 && m in s.nodes && s.nodes[m] == IdleNode(ttls[m])
    ensures var run := s.nodes[n].phase.run;
            Overlapped(ttls, longer, n, m, run.startedAt - s.leases[run.lease].from, run.clean)
  {
    longer, s' := BothRun(ttls, actions, s, n, m);
    var a, b := Finished(s', n), Finished(s', m);
    longer, s' := FinishBoth(ttls, longer, s', n, m);
    assert a in s'.successes && b in s'.successes && Overlap(a, b);
  }

  // ---------- A shutdown release during acquisition ----------

  /** A tick that failed to release its key leaves it in the owned set; the next tick asks for it during a shutdown. */
  lemma AskAgain(ttls: map<NodeId, nat>, n: NodeId) returns (actions: seq<Action>, s: State)
    requires n in ttls && ttls[n] >= 1000
    ensures Reach(ttls, actions) == Some(s) && s.now == ttls[n] && !Live(s) && s.successes == []
    ensures s.leases == [Lease(n, 0, ttls[n])] && OthersSame(Init(ttls), s, n)
    ensures n in s.nodes && s.nodes[n] == Node(ttls[n], Requesting, true, true, Issued)
  {
    actions, s := LeftOwned(ttls, n);
    actions, s := Extend(ttls, actions, s, Request(n));
    actions, s := Extend(ttls, actions, s, Shutdown(n));
    actions, s := Extend(ttls, actions, s, ShutdownIssue(n));
  }

  lemma LeftOwned(ttls: map<NodeId, nat>, n: NodeId) returns (actions: seq<Action>, s: State)
    requires n in ttls && ttls[n] >= 1000
    ensures Reach(ttls, actions) == Some(s) && s.now == ttls[n] && !Live(s) && s.successes == []
    ensures s.leases == [Lease(n, 0, ttls[n])] && OthersSame(Init(ttls), s, n)
    ensures n in s.nodes && s.nodes[n] == Node(ttls[n], Idle, true, false, NotIssued)
  {
    var start := Init(ttls);
    assert Reach(ttls, []) == Some(start);
    actions, s := GrantAndStart(ttls, [], start, n, 0);
    actions, s := Extend(ttls, actions, s, BodyThrew(n));
    actions, s := Extend(ttls, actions, s, ReleaseFails(n));
    actions, s := Extend(ttls, actions, s, Advance(ttls[n]));
  }

  /** The shutdown release reaches the store after the new grant; its reply then starts a run without a lock. */
  lemma Undercut(ttls: map<NodeId, nat>, n: NodeId, wait: nat) returns (actions: seq<Action>, s: State)
    requires n in ttls && ttls[n] >= 1000
    ensures Reach(ttls, actions) == Some(s) && s.now == ttls[n] + wait && !Live(s) && s.successes == []
    ensures |s.leases| == 2 && s.leases[1].from == ttls[n] && OthersSame(Init(ttls), s, n)
    ensures n in s.nodes && s.nodes[n].ttl == ttls[n]
    ensures s.nodes[n].phase == Running(BusyRun(1, ttls[n], ttls[n] + wait, false))
  {
    actions, s := ReleasedWhileAsking(ttls, n);
    actions, s := Extend(ttls, actions, s, Advance(wait));
    actions, s := Extend(ttls, actions, s, Start(n));
  }

  lemma ReleasedWhileAsking(ttls: map<NodeId, nat>, n: NodeId) returns (actions: seq<Action>, s: State)
    requires n in ttls && ttls[n] >= 1000
    ensures Reach(ttls, actions) == Some(s) && s.now == ttls[n] && s.lock == Free && s.successes == []
    ensures |s.leases| == 2 && s.leases[1].from == ttls[n] && OthersSame(Init(ttls), s, n)
    ensures n in s.nodes && s.nodes[n] == Node(ttls[n], Granted(1), false, true, Performed)
  {
    actions, s := AskAgain(ttls, n);
    actions, s := GrantedLater(ttls, actions, s, n, 0);
    actions, s := Extend(ttls, actions, s, ShutdownEffect(n));
  }

  /**
   A key kept after a failed release is released by the shutdown while the node is acquiring it again: the key is not
   yet among the running ones, so the fresh lock is deleted and both nodes report success, however short the wait.
   */
  lemma ShutdownDuringAcquisitionOverlaps(ttls: map<NodeId, nat>, n: NodeId, m: NodeId, wait: nat)
      returns (actions: seq<Action>)
    requires n in ttls && m in ttls && n != m && ttls[n] >= 1000 && ttls[m] >= 1000
    ensures Overlapped(ttls, actions, n, m, wait, false)
  {
    var s: State;
    actions, s := Undercut(ttls, n, wait);
    actions, s := OverlapFrom(ttls, actions, s, n, m);
  }

  // ---------- The conditions are exact ----------

  /**
   Whatever the times-to-live, the nodes and the wait: some schedule makes a success of n overlap one of m that meets
   the conditions if and only if the wait is too long or the run started after a shutdown release was issued.
   */
  lemma OverlapExactly(ttls: map<NodeId, nat>, n: NodeId, m: NodeId, wait: nat, clean: bool)
    requires (forall k <- ttls :: ttls[k] >= 1000) && n in ttls && m in ttls && n != m
    ensures (exists actions :: Overlapped(ttls, actions, n, m, wait, clean)) <==> !(clean && InTime(wait, ttls[n], 1))
  {
    if !clean {
      var actions := ShutdownDuringAcquisitionOverlaps(ttls, n, m, wait);
    } else if !InTime(wait, ttls[n], 1) {
      var actions := LateReplyOverlaps(ttls, n, m, wait);
    } else {
      forall actions ensures !Overlapped(ttls, actions, n, m, wait, clean) {
        NotOverlapped(ttls, actions, n, m, wait);
      }
    }
  }

  lemma NotOverlapped(ttls: map<NodeId, nat>, actions: seq<Action>, n: NodeId, m: NodeId, wait: nat)
    requires (forall k <- ttls :: ttls[k] >= 1000) && n in ttls && n != m && InTime(wait, ttls[n], 1)
    ensures !Overlapped(ttls, actions, n, m, wait, true)
  {
    if Overlapped(ttls, actions, n, m, wait, true) {
      var successes := Reach(ttls, actions).value.successes;
      var a, b :| a in successes && b in successes && OfKind(a, n, wait, true) && b.node == m && Exclusive(b, ttls) &&
                  Overlap(a, b);
      var i :| 0 <= i < |successes| && successes[i] == a;
      var j :| 0 <= j < |successes| && successes[j] == b;
      SuccessfulRunsNeverOverlap(ttls, actions, i, j);
    }
  }

  /** Possession is lost within reach of a schedule exactly when the wait is one tick longer than allowed, or more. */
  lemma PossessionExactly(ttls: map<NodeId, nat>, n: NodeId, wait: nat, clean: bool)
    requires (forall k <- ttls :: ttls[k] >= 1000) && n in ttls
    ensures (exists actions :: Dispossessed(ttls, actions, n, wait, clean)) <==> !(clean && InTime(wait, ttls[n], 0))
  {
    if clean && InTime(wait, ttls[n], 0) {
      forall actions ensures !Dispossessed(ttls, actions, n, wait, clean) {
        NotDispossessed(ttls, actions, n, wait);
      }
    } else {
      var actions, s;
      if clean {
        actions, s := StartLate(ttls, n, wait);
      } else {
        actions, s := Undercut(ttls, n, wait);
      }
      var longer, s' := FinishAndReport(ttls, actions, s, n);
      assert LostAt(ttls, longer, n, wait, clean, 0, |actions|);
      assert Dispossessed(ttls, longer, n, wait, clean);
    }
  }

  lemma NotDispossessed(ttls: map<NodeId, nat>, actions: seq<Action>, n: NodeId, wait: nat)
    requires (forall k <- ttls :: ttls[k] >= 1000) && n in ttls && InTime(wait, ttls[n], 0)
    ensures !Dispossessed(ttls, actions, n, wait, true)
  {
    if Dispossessed(ttls, actions, n, wait, true) {
      var k: nat, j: nat :| LostAt(ttls, actions, n, wait, true, k, j);
      SuccessfulRunHeldTheLock(ttls, actions, k, j);
    }
  }
}
