/**
 Transactional reload under re-entrancy, with the manager that forwards snapshots to the configuration service.

 A reload resolves a new snapshot, publishes it, and calls the listeners; user code that runs in between may ask for
 further reloads, which are remembered and served afterwards.  The only listener of the manager's reloader is its
 forwarder, which swaps the service's snapshot before it calls the manager's own listeners.
 */
module ConfigReload {
  import opened Options

  type Snapshot = nat
  datatype Reason = Manual | Watch

  // ---------- Steps ----------

  datatype Phase =
    | Idle
    | Resolving(reason: Reason)
    | Notifying(reason: Reason, previous: Snapshot, servicePrevious: Snapshot)

  /** `accepted` lists the snapshots that every listener accepted. */
  datatype State = State(
    current: Snapshot,
    pending: Option<Reason>,
    phase: Phase,
    service: Snapshot,
    accepted: seq<Snapshot>)

  datatype Step =
    | Reload(reason: Reason)
    | ResolveSucceeds(snapshot: Snapshot)
    | ResolveFails
    | ListenersAccept
    | ListenerThrows

  function Started(initial: Snapshot, service: Snapshot): State { State(initial, None, Idle, service, []) }

  predicate Enabled(s: State, step: Step) {
    match step
    case Reload(_) => true
    case ResolveSucceeds(_) => s.phase.Resolving?
    case ResolveFails => s.phase.Resolving?
    case ListenersAccept => s.phase.Notifying?
    case ListenerThrows => s.phase.Notifying?
  }

  function Next(s: State, step: Step): State
    requires Enabled(s, step)
  {
    match step
    case Reload(reason) =>
      if s.phase.Idle? then s.(phase := Resolving(reason)) else s.(pending := Some(reason))
    case ResolveSucceeds(v) =>
      s.(current := v, service := v, phase := Notifying(s.phase.reason, s.current, s.service))
    case ResolveFails => s.(phase := Idle, pending := None)
    case ListenersAccept =>
      s.(accepted := s.accepted + [s.current],
         phase := if s.pending.Some? then Resolving(s.pending.value) else Idle,
         pending := None)
    case ListenerThrows =>
      s.(current := s.phase.previous, service := s.phase.servicePrevious, phase := Idle, pending := None)
  }

  predicate ValidRun(s: State, steps: seq<Step>)
    decreases |steps|
  {
    steps == [] || (Enabled(s, steps[0]) && ValidRun(Next(s, steps[0]), steps[1..]))
  }

  function After(s: State, steps: seq<Step>): State
    requires ValidRun(s, steps)
    decreases |steps|
  {
    if steps == [] then s else After(Next(s, steps[0]), steps[1..])
  }

  function LatestOf(accepted: seq<Snapshot>, otherwise: Snapshot): Snapshot {
    if accepted == [] then otherwise else accepted[|accepted| - 1]
  }

  predicate Inv(s: State, initial: Snapshot, service: Snapshot) {
    var latest := LatestOf(s.accepted, initial);
    var served := LatestOf(s.accepted, service);
    match s.phase
    case Idle => s.pending.None? && s.current == latest && s.service == served
    case Resolving(_) => s.current == latest && s.service == served
    case Notifying(_, previous, servicePrevious) =>
      previous == latest && servicePrevious == served && s.current == s.service
  }

  lemma {:induction false} RunKeeps(s: State, steps: seq<Step>, initial: Snapshot, service: Snapshot)
    requires Inv(s, initial, service) && ValidRun(s, steps)
    ensures Inv(After(s, steps), initial, service)
    decreases |steps|
  {
    if steps != [] {
      assert Inv(Next(s, steps[0]), initial, service);
      RunKeeps(Next(s, steps[0]), steps[1..], initial, service);
    }
  }

  /**
   Whenever no reload is running, nothing is pending and the current snapshot is the initial one or the latest that
   every listener accepted, for any mix of nested reloads, failed validations and throwing listeners.
   */
  lemma ReloadIsTransactional(initial: Snapshot, service: Snapshot, steps: seq<Step>)
    requires ValidRun(Started(initial, service), steps)
    ensures var s := After(Started(initial, service), steps);
            s.phase.Idle? ==> s.pending.None? && s.current == LatestOf(s.accepted, initial)
  {
    RunKeeps(Started(initial, service), steps, initial, service);
  }

  /**
   From the first accepted reload on the service shows the reloader's current snapshot, at every moment of every run.
   */
  lemma ServiceFollowsReloader(initial: Snapshot, service: Snapshot, steps: seq<Step>)
    requires ValidRun(Started(initial, service), steps)
    ensures var s := After(Started(initial, service), steps);
            && (s.accepted != [] || s.phase.Notifying? ==> s.service == s.current)
            && (s.accepted == [] && !s.phase.Notifying? ==> s.service == service)
  {
    RunKeeps(Started(initial, service), steps, initial, service);
  }

  // ---------- No reload is forgotten ----------

  lemma {:induction false} RunSnoc(s: State, steps: seq<Step>, step: Step)
    requires ValidRun(s, steps + [step])
    ensures ValidRun(s, steps) && Enabled(After(s, steps), step)
    ensures After(s, steps + [step]) == Next(After(s, steps), step)
    decreases |steps|
  {
    var all := steps + [step];
    if steps == [] {
      assert all[0] == step && all[1..] == [];
    } else {
      assert all[0] == steps[0] && all[1..] == steps[1..] + [step];
      RunSnoc(Next(s, steps[0]), steps[1..], step);
    }
  }

  /** The step begins to resolve a snapshot, for this reason. */
  function BeginsFor(s: State, step: Step): Option<Reason> {
    if step.Reload? && s.phase.Idle? then Some(step.reason)
    else if step.ListenersAccept? && s.phase.Notifying? then s.pending
    else None
  }

  /** The last reload among the steps. */
  function LastAsked(steps: seq<Step>): Option<Reason> {
    if steps == [] then None
    else
      var last := steps[|steps| - 1];
      if last.Reload? then Some(last.reason) else LastAsked(steps[..|steps| - 1])
  }

  ghost predicate BeginsAt(s: State, steps: seq<Step>, j: nat, reason: Reason) {
    j < |steps| && ValidRun(s, steps[..j]) && BeginsFor(After(s, steps[..j]), steps[j]) == Some(reason)
  }

  /**
   While a reload is under way, its last resolution began at j for the reason it names, and what is pending is the
   last reload asked for since.
   */
  ghost predicate Remembers(s: State, steps: seq<Step>, j: nat) {
    && ValidRun(s, steps) && !After(s, steps).phase.Idle? && BeginsAt(s, steps, j, After(s, steps).phase.reason)
    && After(s, steps).pending == LastAsked(steps[j + 1..])
  }

  lemma RemembersMore(s: State, steps: seq<Step>, step: Step, j: nat)
    requires Remembers(s, steps, j) && ValidRun(s, steps + [step]) && !After(s, steps + [step]).phase.Idle?
    requires BeginsFor(After(s, steps), step) == None
    ensures Remembers(s, steps + [step], j)
  {
    var all := steps + [step];
    RunSnoc(s, steps, step);
    assert all[..j] == steps[..j] && all[j] == steps[j];
    assert all[j + 1..] == steps[j + 1..] + [step];
    assert all[j + 1..][..|all[j + 1..]| - 1] == steps[j + 1..];
  }

  lemma RemembersBegin(s: State, steps: seq<Step>, step: Step)
    requires ValidRun(s, steps + [step]) && ValidRun(s, steps) && BeginsFor(After(s, steps), step).Some?
    requires After(s, steps).phase.Idle? ==> After(s, steps).pending.None?
    ensures Remembers(s, steps + [step], |steps|)
  {
    var all := steps + [step];
    RunSnoc(s, steps, step);
    assert all[..|steps|] == steps && all[|steps| + 1..] == [];
  }

  lemma {:induction false} EveryReloadIsRemembered(initial: Snapshot, service: Snapshot, steps: seq<Step>)
      returns (j: nat)
    requires ValidRun(Started(initial, service), steps) && !After(Started(initial, service), steps).phase.Idle?
    ensures Remembers(Started(initial, service), steps, j)
    decreases |steps|
  {
    var s0, n := Started(initial, service), |steps| - 1;
    var before, step := steps[..n], steps[n];
    assert steps == before + [step];
    RunSnoc(s0, before, step);
    if BeginsFor(After(s0, before), step).Some? {
      j := n;
      RunKeeps(s0, before, initial, service);
      RemembersBegin(s0, before, step);
    } else {
      j := EveryReloadIsRemembered(initial, service, before);
      RemembersMore(s0, before, step, j);
    }
  }

  lemma {:induction false} NoneAsked(steps: seq<Step>)
    ensures LastAsked(steps).None? <==> forall step <- steps :: !step.Reload?
    decreases |steps|
  {
    if steps != [] {
      NoneAsked(steps[..|steps| - 1]);
      assert steps == steps[..|steps| - 1] + [steps[|steps| - 1]];
    }
  }

  /**
   No reload is forgotten: when the listeners accept and nothing more is done, no reload was asked for since the last
   resolution began; otherwise the next resolution begins at once, for the last reason asked for since then.
   */
  lemma EveryReloadIsServed(initial: Snapshot, service: Snapshot, steps: seq<Step>) returns (j: nat)
    requires ValidRun(Started(initial, service), steps + [ListenersAccept])
    ensures ValidRun(Started(initial, service), steps) && j < |steps|
    ensures exists reason :: BeginsAt(Started(initial, service), steps, j, reason)
    ensures var s := After(Started(initial, service), steps + [ListenersAccept]);
            && (s.phase.Idle? <==> forall step <- steps[j + 1..] :: !step.Reload?)
            && (!s.phase.Idle? ==> LastAsked(steps[j + 1..]) == Some(s.phase.reason) && s.phase.Resolving?)
  {
    var s0 := Started(initial, service);
    RunSnoc(s0, steps, ListenersAccept);
    j := EveryReloadIsRemembered(initial, service, steps);
    NoneAsked(steps[j + 1..]);
  }

  // ---------- What is published is what was resolved ----------

  /** The snapshot of the last resolution that succeeded. */
  function LastResolved(steps: seq<Step>): Option<Snapshot> {
    if steps == [] then None
    else
      var last := steps[|steps| - 1];
      if last.ResolveSucceeds? then Some(last.snapshot) else LastResolved(steps[..|steps| - 1])
  }

  lemma {:induction false} NotifiesResolved(initial: Snapshot, service: Snapshot, steps: seq<Step>)
    requires ValidRun(Started(initial, service), steps) && After(Started(initial, service), steps).phase.Notifying?
    ensures LastResolved(steps) == Some(After(Started(initial, service), steps).current)
    decreases |steps|
  {
    var s0, n := Started(initial, service), |steps| - 1;
    var before, step := steps[..n], steps[n];
    assert steps == before + [step];
    RunSnoc(s0, before, step);
    if !step.ResolveSucceeds? { NotifiesResolved(initial, service, before); }
  }

  /** While the listeners are called, and when they accept, reloader and service show the snapshot resolved last. */
  lemma ResolvedIsPublished(initial: Snapshot, service: Snapshot, steps: seq<Step>)
    requires ValidRun(Started(initial, service), steps) && After(Started(initial, service), steps).phase.Notifying?
    ensures var s := After(Started(initial, service), steps);
            Some(s.current) == Some(s.service) == LastResolved(steps) &&
            Next(s, ListenersAccept).accepted == s.accepted + [LastResolved(steps).value]
  {
    NotifiesResolved(initial, service, steps);
    RunKeeps(Started(initial, service), steps, initial, service);
  }

  // ---------- The reload loop ----------

  /** What a listener does: the reloads it asks for, and whether it throws. */
  datatype Listener = Listener(asks: seq<Reason>, throws: bool)

  /** One round: the reloads asked for while resolving, the outcome, and the listeners as they are called. */
  datatype Round = Round(asks: seq<Reason>, resolved: Option<Snapshot>, listeners: seq<Listener>)

  predicate Fails(r: Round) {
    r.resolved.None? || exists l <- r.listeners :: l.throws
  }

  function AskedBy(listeners: seq<Listener>): seq<Reason> {
    if listeners == [] then [] else AskedBy(listeners[..|listeners| - 1]) + listeners[|listeners| - 1].asks
  }

  /** The reloads asked for in a round, in order. */
  function AskedIn(r: Round): seq<Reason> { r.asks + AskedBy(r.listeners) }

  /** Of several reloads asked for the last is remembered. */
  function Latest(pending: Option<Reason>, asks: seq<Reason>): Option<Reason> {
    if asks == [] then pending else Some(asks[|asks| - 1])
  }

  lemma LatestTwice(pending: Option<Reason>, a: seq<Reason>, b: seq<Reason>)
    ensures Latest(Latest(pending, a), b) == Latest(pending, a + b)
  {
  }

  /** The script ends: its last round fails or asks for nothing, and the rounds before it succeed and ask for more. */
  predicate Complete(rounds: seq<Round>) {
    rounds != [] && (Fails(rounds[0]) || AskedIn(rounds[0]) == [] || Complete(rounds[1..]))
  }

  /** The round succeeds and has another one follow, which serves the last reload asked for. */
  predicate Continues(r: Round, next: Reason) {
    !Fails(r) && Latest(None, AskedIn(r)) == Some(next)
  }

  // ---------- A round is a run of the step system ----------

  function ReloadsOf(asks: seq<Reason>): seq<Step> { seq(|asks|, i requires 0 <= i < |asks| => Reload(asks[i])) }

  /** The steps of a round, from the resolution under way to the end of its listeners. */
  function StepsOf(r: Round): seq<Step> {
    ReloadsOf(r.asks) +
    if r.resolved.None? then [ResolveFails]
    else [ResolveSucceeds(r.resolved.value)] + ReloadsOf(AskedBy(r.listeners)) +
         [if Fails(r) then ListenerThrows else ListenersAccept]
  }

  lemma {:induction false} RunTwice(s: State, a: seq<Step>, b: seq<Step>)
    requires ValidRun(s, a) && ValidRun(After(s, a), b)
    ensures ValidRun(s, a + b) && After(s, a + b) == After(After(s, a), b)
    decreases |a|
  {
    if a == [] {
      assert a + b == b;
    } else {
      assert (a + b)[0] == a[0] && (a + b)[1..] == a[1..] + b;
      RunTwice(Next(s, a[0]), a[1..], b);
    }
  }

  lemma OneStep(s: State, step: Step)
    requires Enabled(s, step)
    ensures ValidRun(s, [step]) && After(s, [step]) == Next(s, step)
  {
    assert [step][1..] == [];
    assert After(Next(s, step), []) == Next(s, step);
  }

  lemma {:induction false} AskingIsARun(s: State, asks: seq<Reason>)
    requires !s.phase.Idle?
    ensures ValidRun(s, ReloadsOf(asks))
    ensures After(s, ReloadsOf(asks)) == s.(pending := Latest(s.pending, asks))
    decreases |asks|
  {
    if asks != [] {
      var n := |asks| - 1;
      AskingIsARun(s, asks[..n]);
      var before := After(s, ReloadsOf(asks[..n]));
      OneStep(before, Reload(asks[n]));
      RunTwice(s, ReloadsOf(asks[..n]), [Reload(asks[n])]);
      assert ReloadsOf(asks) == ReloadsOf(asks[..n]) + [Reload(asks[n])];
    }
  }

  /** The state after a round that was resolving: the next round begins, or nothing is under way any more. */
  function AfterRound(s: State, r: Round): State {
    if Fails(r) then s.(phase := Idle, pending := None)
    else
      var next := Latest(None, AskedIn(r));
      State(r.resolved.value, None, if next.Some? then Resolving(next.value) else Idle, r.resolved.value,
            s.accepted + [r.resolved.value])
  }

  /**
   Each round of the loop is a run of the step system: it fails and leaves both snapshots as they were, or its snapshot
   is accepted, and then the resolution that follows is for the last reload asked for in the round.
   */
  lemma RoundIsARun(s: State, r: Round)
    requires s.phase.Resolving? && s.pending.None?
    ensures ValidRun(s, StepsOf(r)) && After(s, StepsOf(r)) == AfterRound(s, r)
  {
    AskingIsARun(s, r.asks);
    var asked := After(s, ReloadsOf(r.asks));
    if r.resolved.None? {
      OneStep(asked, ResolveFails);
      RunTwice(s, ReloadsOf(r.asks), [ResolveFails]);
    } else {
      NotifyingIsARun(s, asked, r);
      RunTwice(s, ReloadsOf(r.asks), StepsOf(r)[|r.asks|..]);
      assert StepsOf(r) == ReloadsOf(r.asks) + StepsOf(r)[|r.asks|..];
    }
  }

  lemma NotifyingIsARun(s: State, asked: State, r: Round)
    requires s.phase.Resolving? && s.pending.None? && r.resolved.Some?
    requires asked == s.(pending := Latest(None, r.asks))
    ensures ValidRun(asked, StepsOf(r)[|r.asks|..]) && After(asked, StepsOf(r)[|r.asks|..]) == AfterRound(s, r)
  {
    var resolves, asks := [ResolveSucceeds(r.resolved.value)], ReloadsOf(AskedBy(r.listeners));
    var last := if Fails(r) then ListenerThrows else ListenersAccept;
    assert StepsOf(r)[|r.asks|..] == resolves + asks + [last];
    OneStep(asked, resolves[0]);
    var notifying := Next(asked, resolves[0]);
    AskingIsARun(notifying, AskedBy(r.listeners));
    RunTwice(asked, resolves, asks);
    LatestTwice(None, r.asks, AskedBy(r.listeners));
    var heard := notifying.(pending := Latest(None, AskedIn(r)));
    OneStep(heard, last);
    RunTwice(asked, resolves + asks, [last]);
  }

  class ReloadManager {
    var current: Snapshot
    var pending: Option<Reason>
    var reloading: bool
    var service: Snapshot

    constructor (initial: Snapshot, service: Snapshot)
      ensures current == initial && pending == None && !reloading && this.service == service
    {
      current, pending, reloading := initial, None, false;
      this.service := service;
    }

    /** A reload asked for while one is running is only remembered. */
    method AskWhileReloading(asks: seq<Reason>)
      requires reloading
      modifies this`pending
      ensures pending == Latest(old(pending), asks)
    {
      for i := 0 to |asks|
        invariant pending == Latest(old(pending), asks[..i])
      {
        pending := Some(asks[i]);
      }
      assert asks[..|asks|] == asks;
    }

    /** The forwarder: it publishes to the service, calls the listeners in turn, and takes back what one refuses. */
    method Forward(next: Snapshot, listeners: seq<Listener>) returns (thrown: bool)
      requires reloading
      modifies this`pending, this`service
      ensures thrown <==> exists l <- listeners :: l.throws
      ensures service == if thrown then old(service) else next
      ensures !thrown ==> pending == Latest(old(pending), AskedBy(listeners))
    {
      var previous := service;
      service := next;
      for i := 0 to |listeners|
        invariant service == next && forall j | 0 <= j < i :: !listeners[j].throws
        invariant pending == Latest(old(pending), AskedBy(listeners[..i]))
      {
        AskWhileReloading(listeners[i].asks);
        LatestTwice(old(pending), AskedBy(listeners[..i]), listeners[i].asks);
        assert listeners[..i + 1][..i] == listeners[..i];
        if listeners[i].throws {
          service := previous;
          assert listeners[i] in listeners;
          return true;
        }
      }
      assert listeners[..|listeners|] == listeners;
      thrown := false;
    }

    method ApplyReloadNow(round: Round) returns (failed: bool)
      requires reloading && pending.None?
      modifies this`pending, this`service, this`current
      ensures failed == Fails(round)
      ensures failed ==> current == old(current) && service == old(service)
      ensures !failed ==> current == round.resolved.value && service == current
      ensures !failed ==> pending == Latest(None, AskedIn(round))
    {
      var previous := current;
      AskWhileReloading(round.asks);
      if round.resolved.None? {
        return true;
      }
      current := round.resolved.value;
      failed := Forward(current, round.listeners);
      LatestTwice(None, round.asks, AskedBy(round.listeners));
      if failed {
        current := previous;
      }
    }

    /**
     Rounds are served, for the reasons in `served`, until one asks for nothing or fails.  The rounds before that one
     succeeded and asked for the one after them.  Success publishes the snapshot of the last round, failure leaves what
     the round before it published; nothing stays pending and no reload stays marked as running.
     */
    method ApplyReload(reason: Reason, rounds: seq<Round>) returns (succeeded: bool, served: seq<Reason>)
      requires !reloading && pending.None? && Complete(rounds)
      modifies this
      ensures !reloading && pending.None?
      ensures 0 < |served| <= |rounds| && served[0] == reason
      ensures forall k | 0 <= k < |served| - 1 :: Continues(rounds[k], served[k + 1])
      ensures var last := rounds[|served| - 1];
              if succeeded then !Fails(last) && AskedIn(last) == [] && current == service == last.resolved.value
              else Fails(last)
      ensures !succeeded ==>
                if |served| == 1 then current == old(current) && service == old(service)
                else rounds[|served| - 2].resolved.Some? &&
                     current == service == rounds[|served| - 2].resolved.value
    {
      reloading := true;
      served := [reason];
      var failed := ApplyReloadNow(rounds[0]);
      while !failed && pending.Some?
        invariant 0 < |served| <= |rounds| && served[0] == reason && reloading && Complete(rounds[|served| - 1..])
        invariant forall k | 0 <= k < |served| - 1 :: Continues(rounds[k], served[k + 1])
        invariant failed == Fails(rounds[|served| - 1])
        invariant !failed ==> pending == Latest(None, AskedIn(rounds[|served| - 1]))
        invariant !failed ==> current == rounds[|served| - 1].resolved.value == service
        invariant failed && |served| == 1 ==> current == old(current) && service == old(service)
        invariant failed && |served| > 1 ==> current == service == rounds[|served| - 2].resolved.value
        decreases |rounds| - |served|
      {
        assert rounds[|served| - 1..][1..] == rounds[|served|..];
        served := served + [pending.value];
        pending := None;
        failed := ApplyReloadNow(rounds[|served| - 1]);
      }
      pending := None;
      reloading := false;
      succeeded := !failed;
    }
  }
}
