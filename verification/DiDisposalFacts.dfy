/**
 Conservation of disposal over every interleaving: a disposable instance is destroyed once, plus once more exactly when
 an override dropped it from a scope whose disposal was under way.
 */
module DiDisposalFacts {
  import opened Options
  import opened DiDisposal

  // ---------- Sequences ----------

  ghost predicate NoDup(s: seq<Item>) {
    forall i, j | 0 <= i < j < |s| :: s[i] != s[j]
  }

  lemma {:induction false} CollectFacts(entries: seq<Item>, seen: set<Item>, disposable: Item -> bool)
    ensures var c := Collect(entries, seen, disposable);
            NoDup(c) && forall i :: i in c <==> i in entries && disposable(i) && i !in seen
    decreases |entries|
  {
    if entries != [] {
      assert entries == [entries[0]] + entries[1..];
      if disposable(entries[0]) && entries[0] !in seen {
        CollectFacts(entries[1..], seen + {entries[0]}, disposable);
      } else {
        CollectFacts(entries[1..], seen, disposable);
      }
    }
  }

  lemma {:induction false} WithoutFacts(entries: seq<Item>, drops: set<Item>)
    ensures forall i :: i in Without(entries, drops) <==> i in entries && i !in drops
    decreases |entries|
  {
    if entries != [] {
      assert entries == [entries[0]] + entries[1..];
      WithoutFacts(entries[1..], drops);
    }
  }

  lemma DropFacts(st: ScopeState, drops: set<Item>)
    ensures forall i :: i in Entries(Drop(st, drops)) <==> i in Entries(st) && i !in drops
  {
    WithoutFacts(st.cache, drops);
    WithoutFacts(st.multiCache, drops);
  }

  ghost function CallsOf(log: seq<Call>, i: Item): nat {
    if log == [] then 0 else CallsOf(log[..|log| - 1], i) + if log[|log| - 1].item == i then 1 else 0
  }

  lemma OneMoreCall(log: seq<Call>, c: Call, i: Item)
    ensures CallsOf(log + [c], i) == CallsOf(log, i) + if c.item == i then 1 else 0
  {
    assert (log + [c])[..|log|] == log;
  }

  /** The instances a container's own disposal pass destroyed, in order. */
  ghost function PassOf(log: seq<Call>, s: ScopeId): seq<Item> {
    if log == [] then []
    else
      var last := log[|log| - 1];
      PassOf(log[..|log| - 1], s) + if last.inPass && last.scope == s then [last.item] else []
  }

  lemma OneMoreInPass(log: seq<Call>, c: Call, s: ScopeId)
    ensures PassOf(log + [c], s) == PassOf(log, s) + if c.inPass && c.scope == s then [c.item] else []
  {
    assert (log + [c])[..|log|] == log;
  }

  lemma {:induction false} ReversedSnoc(s: seq<Item>, x: Item)
    ensures Reversed([x] + s) == Reversed(s) + [x]
  {
    assert ([x] + s)[1..] == s;
  }

  /** The errors of a container's stale tasks. */
  ghost function StaleFailuresOf(failed: seq<Call>, s: ScopeId): multiset<Item> {
    if failed == [] then multiset{}
    else
      var last := failed[|failed| - 1];
      StaleFailuresOf(failed[..|failed| - 1], s) +
      if !last.inPass && last.scope == s then multiset{last.item} else multiset{}
  }

  lemma OneMoreStaleFailure(failed: seq<Call>, c: Call, s: ScopeId)
    ensures StaleFailuresOf(failed + [c], s) ==
            StaleFailuresOf(failed, s) + if !c.inPass && c.scope == s then multiset{c.item} else multiset{}
  {
    assert (failed + [c])[..|failed|] == failed;
  }

  // ---------- What one container sees ----------

  /**
   The container, the instances that entered it, how often each was destroyed, its pass so far, its hits, and the errors
   its pass and its stale tasks threw.
   */
  datatype View = View(
    st: ScopeState,
    mine: set<Item>,
    calls: map<Item, nat>,
    pass: seq<Item>,
    hits: set<Item>,
    thrown: seq<Item>,
    staleFailures: multiset<Item>)

  ghost function ViewOf(w: World, s: ScopeId): View
    requires s in w.scopes
  {
    View(w.scopes[s],
         (set i | i in w.home && w.home[i] == s),
         (map i | i in w.home && w.home[i] == s :: CallsOf(w.log, i)),
         PassOf(w.log, s),
         (set i | i in w.hits && i in w.home && w.home[i] == s),
         PassOf(w.failed, s),
         StaleFailuresOf(w.failed, s))
  }

  function One(b: bool): nat { if b then 1 else 0 }

  /** Still to be destroyed by the container's own pass. */
  ghost predicate Pending(st: ScopeState, i: Item, disposable: Item -> bool) {
    match st.phase
    case Live => i in Entries(st)
    case AwaitingScopes => i in Entries(st)
    case AwaitingStale(e) => i in e
    case Collecting(e) => i in e
    case Destroying(e, left, _, _, _) => left <= |Disposables(e, disposable)| && i in Disposables(e, disposable)[..left]
    case Disposed(_, _, _) => false
  }

  ghost predicate Held(v: View) {
    && (forall i <- Entries(v.st) :: i in v.mine && i !in v.st.waiting && i !in v.st.running && i !in v.hits)
    && v.st.waiting <= v.mine && v.st.running <= v.mine && v.hits <= v.mine && v.calls.Keys == v.mine
    && (InDisposal(v.st.phase) ==> forall i <- v.st.phase.entries :: i in v.mine)
  }

  ghost predicate Shape(v: View, disposable: Item -> bool) {
    && v.st.waiting !! v.st.running
    && (v.st.phase.Destroying? ==>
          v.st.phase.left + One(v.st.phase.busy) <= |Disposables(v.st.phase.entries, disposable)|)
    && (Drained(v.st.phase) ==> v.st.waiting <= v.hits && v.st.running <= v.hits)
    && (v.st.phase.Disposed? ==> Entries(v.st) == [])
  }

  /** The stale tasks that the disposal waits for have ended. */
  predicate Drained(phase: Phase) { phase.Collecting? || phase.Destroying? || phase.Disposed? }

  /** The disposal has taken the stale errors over. */
  predicate Taken(phase: Phase) { phase.Destroying? || phase.Disposed? }

  /** Every error is kept: those of the pass in order, those of the stale tasks taken over or still to be taken. */
  ghost predicate Reported(v: View) {
    var late := multiset(v.st.staleErrors);
    if Taken(v.st.phase) then
      && v.thrown == v.st.phase.thrown && v.staleFailures == multiset(v.st.phase.stale) + late
      && forall i <- v.st.staleErrors :: i in v.hits
    else v.thrown == [] && v.staleFailures == late
  }

  /** Calls made and calls still to come add up to one, or to two for an instance dropped during a disposal. */
  ghost predicate Laws(v: View, disposable: Item -> bool) {
    forall i <- v.calls :: disposable(i) ==>
      v.calls[i] + One(Pending(v.st, i, disposable)) + One(i in v.st.waiting) == 1 + One(i in v.hits)
  }

  /** A pass destroys the disposable entries of its snapshot in reverse order. */
  ghost predicate InOrder(v: View, disposable: Item -> bool) {
    match v.st.phase
    case Destroying(e, left, _, _, _) =>
      left <= |Disposables(e, disposable)| && v.pass == Reversed(Disposables(e, disposable)[left..])
    case Disposed(e, _, _) => v.pass == Reversed(Disposables(e, disposable))
    case _ => v.pass == []
  }

  ghost predicate ViewOk(v: View, disposable: Item -> bool) {
    Destroyed(v, disposable) && Reported(v)
  }

  ghost predicate Destroyed(v: View, disposable: Item -> bool) {
    Held(v) && Shape(v, disposable) && Laws(v, disposable) && InOrder(v, disposable)
  }

  // ---------- How a step changes the view of the container it touches ----------

  lemma EnterOk(v: View, v': View, i: Item, disposable: Item -> bool)
    requires ViewOk(v, disposable) && v.st.phase.Live? && i !in v.mine
    requires forall x :: x in Entries(v'.st) <==> x in Entries(v.st) || x == i
    requires v'.st.phase == Live && v'.st.waiting == v.st.waiting && v'.st.running == v.st.running
    requires v'.mine == v.mine + {i} && v'.calls == v.calls[i := 0] && v'.pass == v.pass && v'.hits == v.hits
    requires v'.st.staleErrors == v.st.staleErrors && v'.thrown == v.thrown && v'.staleFailures == v.staleFailures
    ensures ViewOk(v', disposable)
  {
  }

  lemma DropOk(v: View, drops: set<Item>, disposable: Item -> bool)
    requires ViewOk(v, disposable)
    ensures var gone := set i | i in drops && i in Entries(v.st);
            var hits := if InDisposal(v.st.phase) then v.hits + gone else v.hits;
            ViewOk(v.(st := Drop(v.st, drops), hits := hits), disposable)
  {
    DropFacts(v.st, drops);
  }

  lemma BeginOk(v: View, disposable: Item -> bool)
    requires ViewOk(v, disposable) && (v.st.phase.Live? || v.st.phase.AwaitingScopes?)
    ensures ViewOk(v.(st := Begin(v.st)), disposable)
  {
  }

  /** The view when the stale task of the instance has started. */
  ghost function StaleBegun(v: View, i: Item, disposable: Item -> bool): View
    requires i in v.calls
  {
    v.(st := v.st.(waiting := v.st.waiting - {i}, running := v.st.running + {i}),
       calls := if disposable(i) then v.calls[i := v.calls[i] + 1] else v.calls)
  }

  lemma StaleStartOk(v: View, i: Item, disposable: Item -> bool)
    requires ViewOk(v, disposable) && i in v.st.waiting
    ensures i in v.calls && ViewOk(StaleBegun(v, i, disposable), disposable)
  {
  }

  lemma DrainedOk(v: View, disposable: Item -> bool)
    requires ViewOk(v, disposable) && v.st.phase.AwaitingStale? && v.st.waiting == {} && v.st.running == {}
    ensures ViewOk(v.(st := v.st.(phase := Collecting(v.st.phase.entries))), disposable)
  {
  }

  /** The view once a stale task has ended. */
  ghost function WithStaleSettled(v: View, i: Item, threw: bool): View {
    v.(st := StaleSettled(v.st, i, threw),
       staleFailures := v.staleFailures + if threw then multiset{i} else multiset{})
  }

  lemma StaleSettleOk(v: View, i: Item, threw: bool, disposable: Item -> bool)
    requires ViewOk(v, disposable) && i in v.st.running
    ensures ViewOk(WithStaleSettled(v, i, threw), disposable)
  {
    var v' := WithStaleSettled(v, i, threw);
    StaleSettleReported(v, v', i, threw, disposable);
    StaleSettleDestroyed(v, v', i, threw, disposable);
  }

  lemma StaleSettleReported(v: View, v': View, i: Item, threw: bool, disposable: Item -> bool)
    requires Reported(v) && i in v.st.running && (Taken(v.st.phase) ==> i in v.hits)
    requires v' == WithStaleSettled(v, i, threw)
    ensures Reported(v')
  {
    assert multiset(v.st.staleErrors + [i]) == multiset(v.st.staleErrors) + multiset{i};
  }

  lemma StaleSettleDestroyed(v: View, v': View, i: Item, threw: bool, disposable: Item -> bool)
    requires Destroyed(v, disposable) && v' == WithStaleSettled(v, i, threw)
    ensures Destroyed(v', disposable)
  {
  }

  lemma CallSettledOk(v: View, i: Item, threw: bool, disposable: Item -> bool)
    requires ViewOk(v, disposable) && v.st.phase.Destroying?
    ensures ViewOk(v.(st := CallSettled(v.st, i, threw), thrown := v.thrown + if threw then [i] else []), disposable)
  {
  }

  lemma CollectedOk(v: View, disposable: Item -> bool)
    requires ViewOk(v, disposable) && v.st.phase.Collecting?
    ensures ViewOk(v.(st := BeginPass(v.st, disposable)), disposable)
  {
    var e := v.st.phase.entries;
    var d := Disposables(e, disposable);
    CollectFacts(e, {}, disposable);
    assert d[..|d|] == d && d[|d|..] == [];
  }

  /** The view once the pass has called the next onDestroy. */
  ghost function WithCall(v: View, i: Item): View
    requires v.st.phase.Destroying? && v.st.phase.left > 0 && i in v.calls
  {
    v.(st := CallBegun(v.st), calls := v.calls[i := v.calls[i] + 1], pass := v.pass + [i])
  }

  lemma DestroyOk(v: View, disposable: Item -> bool)
    requires ViewOk(v, disposable) && v.st.phase.Destroying? && v.st.phase.left > 0 && !v.st.phase.busy
    ensures var ph := v.st.phase;
            var i := Disposables(ph.entries, disposable)[ph.left - 1];
            i in v.calls && ViewOk(WithCall(v, i), disposable)
  {
    var ph := v.st.phase;
    var i := Disposables(ph.entries, disposable)[ph.left - 1];
    NextInPass(ph.entries, ph.left, disposable);
    assert Pending(v.st, i, disposable);
    DestroyedNext(v, i, disposable);
  }

  /** The instance a pass turns to next, and what that does to the rest and to the part that is done. */
  lemma NextInPass(entries: seq<Item>, left: nat, disposable: Item -> bool)
    requires 0 < left <= |Disposables(entries, disposable)|
    ensures var d := Disposables(entries, disposable);
            var i := d[left - 1];
            && i in entries && disposable(i) && i !in d[..left - 1]
            && Reversed(d[left - 1..]) == Reversed(d[left..]) + [i]
            && forall x :: x in d[..left] <==> x in d[..left - 1] || x == i
  {
    var d := Disposables(entries, disposable);
    CollectFacts(entries, {}, disposable);
    var i := d[left - 1];
    assert i in d;
    assert d[..left] == d[..left - 1] + [i];
    assert d[left - 1..] == [i] + d[left..];
    ReversedSnoc(d[left..], i);
  }

  lemma DestroyedNext(v: View, i: Item, disposable: Item -> bool)
    requires ViewOk(v, disposable) && v.st.phase.Destroying? && v.st.phase.left > 0 && !v.st.phase.busy
    requires var ph := v.st.phase;
             var d := Disposables(ph.entries, disposable);
             && i == d[ph.left - 1] && i in v.calls && disposable(i) && i !in d[..ph.left - 1]
             && Reversed(d[ph.left - 1..]) == Reversed(d[ph.left..]) + [i]
             && forall x :: x in d[..ph.left] <==> x in d[..ph.left - 1] || x == i
    ensures ViewOk(WithCall(v, i), disposable)
  {
  }

  lemma FinishOk(v: View, disposable: Item -> bool)
    requires ViewOk(v, disposable) && v.st.phase.Destroying? && v.st.phase.left == 0
    ensures ViewOk(v.(st := Finished(v.st)), disposable)
  {
    var d := Disposables(v.st.phase.entries, disposable);
    assert d[0..] == d;
  }

}
