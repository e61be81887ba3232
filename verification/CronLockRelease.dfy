/**
 The lock is not left behind.  While it names a node, that node is using it, or the schedule has an action by which the
 node lost track of it; a completed release frees it, and the next request is granted at once.
 */
module CronLockRelease {
  import opened Options
  import opened CronLockMonitor
  import opened CronLockProtocol
  import opened CronLockSafety

  /** The node has a grant or a run, or is about to release. */
  predicate Using(phase: Phase) { phase.Granted? || phase.Running? || phase == Releasing }

  /** A release that fails, or a grant of which the node never learns, while the register names the node. */
  predicate Loses(s: State, a: Action, n: NodeId) {
    HeldBy(s, n) && n in s.nodes && (a == ReleaseFails(n) || (a == RequestOver(n) && s.nodes[n].phase.Granted?))
  }

  ghost predicate LosesAt(ttls: map<NodeId, nat>, actions: seq<Action>, n: NodeId, j: nat) {
    j < |actions| && Reach(ttls, actions[..j]).Some? && Loses(Reach(ttls, actions[..j]).value, actions[j], n)
  }

  /** In every state after the j-th action the register names the node. */
  ghost predicate HeldSince(ttls: map<NodeId, nat>, actions: seq<Action>, n: NodeId, j: nat) {
    forall k | j < k <= |actions| :: Reach(ttls, actions[..k]).Some? && HeldBy(Reach(ttls, actions[..k]).value, n)
  }

  ghost predicate Lost(ttls: map<NodeId, nat>, actions: seq<Action>, n: NodeId) {
    exists j :: LosesAt(ttls, actions, n, j) && HeldSince(ttls, actions, n, j)
  }

  lemma LostStays(ttls: map<NodeId, nat>, actions: seq<Action>, n: NodeId)
    requires actions != [] && Lost(ttls, actions[..|actions| - 1], n)
    requires Reach(ttls, actions).Some? && HeldBy(Reach(ttls, actions).value, n)
    ensures Lost(ttls, actions, n)
  {
    var before := actions[..|actions| - 1];
    var j: nat :| LosesAt(ttls, before, n, j) && HeldSince(ttls, before, n, j);
    assert before[..j] == actions[..j] && LosesAt(ttls, actions, n, j);
    forall k | j < k <= |actions|
      ensures Reach(ttls, actions[..k]).Some? && HeldBy(Reach(ttls, actions[..k]).value, n)
    {
      if k < |actions| { assert before[..k] == actions[..k]; } else { assert actions[..k] == actions; }
    }
    assert HeldSince(ttls, actions, n, j);
  }

  lemma JustLost(ttls: map<NodeId, nat>, actions: seq<Action>, n: NodeId)
    requires actions != [] && Reach(ttls, actions).Some? && HeldBy(Reach(ttls, actions).value, n)
    requires LosesAt(ttls, actions, n, |actions| - 1)
    ensures Lost(ttls, actions, n)
  {
    assert actions[..|actions|] == actions;
    assert HeldSince(ttls, actions, n, |actions| - 1);
  }

  /** A node that the register names without using it was named before, and was not using the lock or loses it now. */
  lemma StepHolds(s: State, a: Action, n: NodeId)
    requires Enabled(s, a) && n in s.nodes
    ensures n in Step(s, a).nodes
    ensures HeldBy(Step(s, a), n) && !Using(Step(s, a).nodes[n].phase) ==>
              HeldBy(s, n) && (Using(s.nodes[n].phase) ==> Loses(s, a, n))
  {
    if !a.Advance? && a.n == n { OwnStepHolds(s, a); } else { OtherStepHolds(s, a, n); }
  }

  lemma OwnStepHolds(s: State, a: Action)
    requires !a.Advance? && Enabled(s, a)
    ensures a.n in Step(s, a).nodes
    ensures HeldBy(Step(s, a), a.n) && !Using(Step(s, a).nodes[a.n].phase) ==>
              HeldBy(s, a.n) && (Using(s.nodes[a.n].phase) ==> Loses(s, a, a.n))
  {
  }

  lemma OtherStepHolds(s: State, a: Action, n: NodeId)
    requires Enabled(s, a) && n in s.nodes && (a.Advance? || a.n != n)
    ensures n in Step(s, a).nodes && Step(s, a).nodes[n] == s.nodes[n]
    ensures HeldBy(Step(s, a), n) ==> HeldBy(s, n)
  {
  }

  lemma {:induction false} NodesStay(ttls: map<NodeId, nat>, actions: seq<Action>)
    requires Reach(ttls, actions).Some?
    ensures Reach(ttls, actions).value.nodes.Keys == ttls.Keys
  {
    if actions != [] {
      var before, a := actions[..|actions| - 1], actions[|actions| - 1];
      NodesStay(ttls, before);
      if !a.Advance? { StepLeavesOthers(Reach(ttls, before).value, a); }
    }
  }

  /**
   No orphaned lock.  In every state of every schedule, if the register names a node, the node has a grant, a run, or a
   release to make, or it has lost the lock, by a release that failed or by a grant of which it never learned, and the
   register has named it ever since.
   */
  lemma {:induction false} HeldIsUsedOrLost(ttls: map<NodeId, nat>, actions: seq<Action>, n: NodeId)
    requires Reach(ttls, actions).Some? && n in ttls && HeldBy(Reach(ttls, actions).value, n)
    ensures n in Reach(ttls, actions).value.nodes
    ensures Using(Reach(ttls, actions).value.nodes[n].phase) || Lost(ttls, actions, n)
  {
    NodesStay(ttls, actions);
    if actions != [] && !Using(Reach(ttls, actions).value.nodes[n].phase) {
      var before, a := actions[..|actions| - 1], actions[|actions| - 1];
      NodesStay(ttls, before);
      StepHolds(Reach(ttls, before).value, a, n);
      HeldIsUsedOrLost(ttls, before, n);
      if Lost(ttls, before, n) {
        LostStays(ttls, actions, n);
      } else {
        assert LosesAt(ttls, actions, n, |before|);
        JustLost(ttls, actions, n);
      }
    }
  }

  /**
   A request is granted exactly if the register names nobody; otherwise it names a node that uses the lock or has lost
   it.
   */
  lemma RequestIsGranted(ttls: map<NodeId, nat>, actions: seq<Action>, m: NodeId)
    requires Reach(ttls, actions).Some? && forall n <- ttls :: ttls[n] >= 1000
    requires Enabled(Reach(ttls, actions).value, RequestEffect(m))
    ensures var s := Reach(ttls, actions).value;
            var s' := Step(s, RequestEffect(m));
            && (s'.nodes[m].phase.Granted? <==> forall n <- ttls :: !HeldBy(s, n))
            && (s'.nodes[m].phase.Granted? ==> HeldBy(s', m))
            && (!s'.nodes[m].phase.Granted? ==>
                  exists n <- ttls ::
                    HeldBy(s, n) && n in s.nodes && (Using(s.nodes[n].phase) || Lost(ttls, actions, n)))
  {
    var s := Reach(ttls, actions).value;
    ReachableInv(ttls, actions);
    if Live(s) {
      var n := s.lock.owner;
      assert s.leases[|s.leases| - 1].owner == n && n in ttls && HeldBy(s, n);
      HeldIsUsedOrLost(ttls, actions, n);
    }
  }

  lemma OnlyRequestAcquires(s: State, a: Action, n: NodeId)
    requires Enabled(s, a) && HeldBy(Step(s, a), n) && !HeldBy(s, n)
    ensures a == RequestEffect(n)
  {
  }

  /** Once a release has taken effect, the register does not name the node until a later request of its own. */
  lemma {:induction false} ReleasedStaysFree(ttls: map<NodeId, nat>, actions: seq<Action>, n: NodeId, j: nat)
    requires Reach(ttls, actions).Some? && j < |actions| && actions[j] == ReleaseEffect(n)
    requires forall k | j < k < |actions| :: actions[k] != RequestEffect(n)
    ensures !HeldBy(Reach(ttls, actions).value, n)
    decreases |actions|
  {
    var before, a := actions[..|actions| - 1], actions[|actions| - 1];
    if j < |before| {
      ReleasedStaysFree(ttls, before, n, j);
      if HeldBy(Reach(ttls, actions).value, n) { OnlyRequestAcquires(Reach(ttls, before).value, a, n); }
    } else {
      ReleaseFrees(Reach(ttls, before).value, n);
    }
  }

  lemma ReleaseFrees(s: State, n: NodeId)
    requires Enabled(s, ReleaseEffect(n))
    ensures !HeldBy(Step(s, ReleaseEffect(n)), n)
    ensures forall m :: HeldBy(Step(s, ReleaseEffect(n)), m) ==> HeldBy(s, m)
  {
  }

  /** Right after the release of the node that held the lock, any other node's request is granted. */
  lemma LockIsHandedOver(ttls: map<NodeId, nat>, actions: seq<Action>, n: NodeId, m: NodeId)
    requires Reach(ttls, actions).Some? && forall k <- ttls :: ttls[k] >= 1000
    requires var s := Reach(ttls, actions).value;
             m != n && HeldBy(s, n) && Enabled(s, ReleaseEffect(n)) && Enabled(s, RequestEffect(m))
    ensures Enabled(Step(Reach(ttls, actions).value, ReleaseEffect(n)), RequestEffect(m))
    ensures var s := Step(Step(Reach(ttls, actions).value, ReleaseEffect(n)), RequestEffect(m));
            m in s.nodes && s.nodes[m].phase.Granted? && HeldBy(s, m)
  {
    ReachableInv(ttls, actions);
    ReleaseFrees(Reach(ttls, actions).value, n);
  }

  /** When no node uses the lock and none has lost it, whoever asks gets it. */
  lemma IdleLockIsGranted(ttls: map<NodeId, nat>, actions: seq<Action>, m: NodeId)
    requires Reach(ttls, actions).Some? && forall n <- ttls :: ttls[n] >= 1000
    requires var s := Reach(ttls, actions).value;
             Enabled(s, RequestEffect(m)) &&
             forall n <- ttls :: n in s.nodes && !Using(s.nodes[n].phase) && !Lost(ttls, actions, n)
    ensures Step(Reach(ttls, actions).value, RequestEffect(m)).nodes[m].phase.Granted?
  {
    RequestIsGranted(ttls, actions, m);
  }

  // ---------- The keys a node believes it owns ----------

  ghost predicate StartsAt(actions: seq<Action>, n: NodeId, j: nat) { j < |actions| && actions[j] == Start(n) }

  ghost predicate NotReleasedSince(actions: seq<Action>, n: NodeId, j: nat) {
    forall k | j < k < |actions| :: actions[k] != ReleaseDone(n) && actions[k] != ShutdownEffect(n)
  }

  lemma StepOwns(s: State, a: Action, n: NodeId)
    requires Enabled(s, a) && n in s.nodes
    ensures n in Step(s, a).nodes
    ensures Step(s, a).nodes[n].owned <==>
            a == Start(n) || (s.nodes[n].owned && a != ReleaseDone(n) && a != ShutdownEffect(n))
  {
  }

  /**
   A node takes a key for its own exactly if it has learned of a grant and no release of it, by the run or by the
   shutdown, has come back since; a release that failed leaves it so.
   */
  lemma {:induction false} OwnedExactly(ttls: map<NodeId, nat>, actions: seq<Action>, n: NodeId)
    requires Reach(ttls, actions).Some? && n in ttls
    ensures n in Reach(ttls, actions).value.nodes
    ensures Reach(ttls, actions).value.nodes[n].owned <==>
            exists j :: StartsAt(actions, n, j) && NotReleasedSince(actions, n, j)
    decreases |actions|
  {
    NodesStay(ttls, actions);
    if actions != [] {
      var last := |actions| - 1;
      var before, a := actions[..last], actions[last];
      NodesStay(ttls, before);
      OwnedExactly(ttls, before, n);
      StepOwns(Reach(ttls, before).value, a, n);
      assert StartsAt(actions, n, last) <==> a == Start(n);
      assert NotReleasedSince(actions, n, last);
      forall j: nat | j < last
        ensures StartsAt(actions, n, j) <==> StartsAt(before, n, j)
        ensures NotReleasedSince(actions, n, j) <==>
                NotReleasedSince(before, n, j) && a != ReleaseDone(n) && a != ShutdownEffect(n)
      {
        assert forall k | j < k < last :: actions[k] == before[k];
      }
    }
  }

  /** The node holds a key for its own although it has no run. */
  predicate KeepsKey(node: Node) {
    node.owned && !node.phase.Running? && node.phase != Releasing && node.phase != Released
  }

  ghost predicate FailsToReleaseAt(actions: seq<Action>, n: NodeId, j: nat) {
    j < |actions| && actions[j] == ReleaseFails(n)
  }

  lemma StepKeepsKey(s: State, a: Action, n: NodeId)
    requires Enabled(s, a) && n in s.nodes
    ensures n in Step(s, a).nodes
    ensures KeepsKey(Step(s, a).nodes[n]) ==>
              a == ReleaseFails(n) || (KeepsKey(s.nodes[n]) && a != Start(n) && a != ShutdownEffect(n))
  {
  }

  /** Between its runs a node owns a key only since a release failed: after one that came back it owns none. */
  lemma {:induction false} KeptKeyFailedToRelease(ttls: map<NodeId, nat>, actions: seq<Action>, n: NodeId)
      returns (j: nat)
    requires Reach(ttls, actions).Some? && n in Reach(ttls, actions).value.nodes
    requires KeepsKey(Reach(ttls, actions).value.nodes[n])
    ensures FailsToReleaseAt(actions, n, j)
    ensures forall k | j < k < |actions| :: actions[k] != Start(n) && actions[k] != ShutdownEffect(n)
    decreases |actions|
  {
    assert actions != [];
    j := |actions| - 1;
    var before, a := actions[..j], actions[j];
    NodesStay(ttls, actions);
    NodesStay(ttls, before);
    StepKeepsKey(Reach(ttls, before).value, a, n);
    if a != ReleaseFails(n) { j := KeptKeyFailedToRelease(ttls, before, n); }
  }

  // ---------- The renewals of a run ----------

  /** How often the renewal timer of the node has fired since the node last started a run. */
  function Fired(actions: seq<Action>, n: NodeId): nat {
    if actions == [] then 0
    else
      var before, a := actions[..|actions| - 1], actions[|actions| - 1];
      if a == Start(n) then 0 else Fired(before, n) + if a == TimerFires(n) then 1 else 0
  }

  /** Until its body has ended, a run asks for one renewal each time its timer fires, and for no other. */
  lemma {:induction false} RenewalsFollowTimer(ttls: map<NodeId, nat>, actions: seq<Action>, n: NodeId)
    requires Reach(ttls, actions).Some? && n in Reach(ttls, actions).value.nodes
    requires var phase := Reach(ttls, actions).value.nodes[n].phase; phase.Running? && phase.run.finishedAt.None?
    ensures Reach(ttls, actions).value.nodes[n].phase.run.monitor.queued == Fired(actions, n)
    decreases |actions|
  {
    var before, a := actions[..|actions| - 1], actions[|actions| - 1];
    NodesStay(ttls, actions);
    NodesStay(ttls, before);
    var node, node' := Reach(ttls, before).value.nodes[n], Reach(ttls, actions).value.nodes[n];
    StepQueues(Reach(ttls, before).value, a, n);
    if a != Start(n) { RenewalsFollowTimer(ttls, before, n); }
  }

  lemma StepQueues(s: State, a: Action, n: NodeId)
    requires Enabled(s, a) && n in s.nodes && n in Step(s, a).nodes
    requires var phase := Step(s, a).nodes[n].phase; phase.Running? && phase.run.finishedAt.None?
    ensures a == Start(n) ==> Step(s, a).nodes[n].phase.run.monitor.queued == 0
    ensures a != Start(n) ==>
              var phase := s.nodes[n].phase;
              phase.Running? && phase.run.finishedAt.None? &&
              Step(s, a).nodes[n].phase.run.monitor.queued ==
              phase.run.monitor.queued + if a == TimerFires(n) then 1 else 0
  {
  }
}
