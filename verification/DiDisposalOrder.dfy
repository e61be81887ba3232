/**
 The order of a disposal pass, told from the steps of a run: instances of the multi cache go first, those of the other
 cache follow, and in each the one that entered last goes first.
 */
module DiDisposalOrder {
  import opened Options
  import opened DiDisposal
  import opened DiDisposalFacts
  import opened DiDisposalRuns

  // ---------- Lists in which earlier elements stand in a relation to later ones ----------

  ghost predicate Chain(list: seq<Item>, before: (Item, Item) -> bool) {
    list == [] || ((forall x <- list[1..] :: before(list[0], x)) && Chain(list[1..], before))
  }

  lemma {:induction false} ChainAt(list: seq<Item>, before: (Item, Item) -> bool, a: nat, b: nat)
    requires Chain(list, before) && a < b < |list|
    ensures before(list[a], list[b])
    decreases |list|
  {
    if a == 0 {
      assert list[b] == list[1..][b - 1];
    } else {
      ChainAt(list[1..], before, a - 1, b - 1);
    }
  }

  lemma {:induction false} ChainMono(list: seq<Item>, before: (Item, Item) -> bool, after: (Item, Item) -> bool)
    requires Chain(list, before) && forall x, y :: before(x, y) ==> after(x, y)
    ensures Chain(list, after)
    decreases |list|
  {
    if list != [] { ChainMono(list[1..], before, after); }
  }

  lemma {:induction false} ChainConcat(a: seq<Item>, b: seq<Item>, before: (Item, Item) -> bool)
    requires Chain(a, before) && Chain(b, before) && forall x <- a, y <- b :: before(x, y)
    ensures Chain(a + b, before)
    decreases |a|
  {
    if a == [] {
      assert a + b == b;
    } else {
      assert (a + b)[0] == a[0] && (a + b)[1..] == a[1..] + b && a[0] in a && forall x <- a[1..] :: x in a;
      ChainConcat(a[1..], b, before);
    }
  }

  lemma {:induction false} ChainWithout(list: seq<Item>, drops: set<Item>, before: (Item, Item) -> bool)
    requires Chain(list, before)
    ensures Chain(Without(list, drops), before)
    decreases |list|
  {
    if list != [] {
      ChainWithout(list[1..], drops, before);
      WithoutFacts(list[1..], drops);
      assert Without(list, drops) ==
             if list[0] in drops then Without(list[1..], drops) else [list[0]] + Without(list[1..], drops);
    }
  }

  lemma {:induction false} ChainCollect(list: seq<Item>, seen: set<Item>, disposable: Item -> bool,
                                        before: (Item, Item) -> bool)
    requires Chain(list, before)
    ensures Chain(Collect(list, seen, disposable), before)
    decreases |list|
  {
    if list != [] {
      if disposable(list[0]) && list[0] !in seen {
        ChainCollect(list[1..], seen + {list[0]}, disposable, before);
        CollectFacts(list[1..], seen + {list[0]}, disposable);
        var rest := Collect(list[1..], seen + {list[0]}, disposable);
        assert ([list[0]] + rest)[1..] == rest;
      } else {
        ChainCollect(list[1..], seen, disposable, before);
      }
    }
  }

  lemma {:induction false} ReversedAt(list: seq<Item>, k: nat)
    requires k < |list|
    ensures |Reversed(list)| == |list| && Reversed(list)[k] == list[|list| - 1 - k]
    decreases |list|
  {
    ReversedLength(list);
    ReversedLength(list[1..]);
    if k < |list| - 1 { ReversedAt(list[1..], k); }
  }

  lemma {:induction false} ReversedLength(list: seq<Item>)
    ensures |Reversed(list)| == |list|
    decreases |list|
  {
    if list != [] { ReversedLength(list[1..]); }
  }

  // ---------- When an instance entered ----------

  ghost predicate Entered(past: seq<Step>, s: ScopeId, i: Item, multi: bool) {
    exists p | 0 <= p < |past| :: past[p] == Enter(s, i, multi)
  }

  /** Both entered the same cache of the container, i before j. */
  ghost predicate Earlier(past: seq<Step>, s: ScopeId, i: Item, j: Item, multi: bool) {
    exists p, q | 0 <= p < q < |past| :: past[p] == Enter(s, i, multi) && past[q] == Enter(s, j, multi)
  }

  /** i comes before j among the entries of the container: single instances first, each kind in the order of entry. */
  ghost predicate Precedes(past: seq<Step>, s: ScopeId, i: Item, j: Item) {
    Earlier(past, s, i, j, false) || Earlier(past, s, i, j, true) ||
    (Entered(past, s, i, false) && Entered(past, s, j, true))
  }

  ghost function Order(past: seq<Step>, s: ScopeId): (Item, Item) -> bool {
    (i: Item, j: Item) => Precedes(past, s, i, j)
  }

  ghost predicate AllEntered(past: seq<Step>, s: ScopeId, list: seq<Item>, multi: bool) {
    forall i <- list :: Entered(past, s, i, multi)
  }

  ghost predicate InOrder(past: seq<Step>, s: ScopeId, list: seq<Item>) {
    Chain(list, Order(past, s))
  }

  lemma EnteredStays(past: seq<Step>, step: Step, s: ScopeId, i: Item, multi: bool)
    requires Entered(past, s, i, multi)
    ensures Entered(past + [step], s, i, multi)
  {
    var p :| 0 <= p < |past| && past[p] == Enter(s, i, multi);
    assert (past + [step])[p] == Enter(s, i, multi);
  }

  lemma EarlierStays(past: seq<Step>, step: Step, s: ScopeId, i: Item, j: Item, multi: bool)
    requires Earlier(past, s, i, j, multi)
    ensures Earlier(past + [step], s, i, j, multi)
  {
    var p, q :| 0 <= p < q < |past| && past[p] == Enter(s, i, multi) && past[q] == Enter(s, j, multi);
    assert (past + [step])[p] == Enter(s, i, multi) && (past + [step])[q] == Enter(s, j, multi);
  }

  lemma InOrderStays(past: seq<Step>, step: Step, s: ScopeId, list: seq<Item>)
    requires InOrder(past, s, list)
    ensures InOrder(past + [step], s, list)
  {
    forall i, j | Precedes(past, s, i, j) ensures Precedes(past + [step], s, i, j) {
      if Earlier(past, s, i, j, false) {
        EarlierStays(past, step, s, i, j, false);
      } else if Earlier(past, s, i, j, true) {
        EarlierStays(past, step, s, i, j, true);
      } else {
        EnteredStays(past, step, s, i, false);
        EnteredStays(past, step, s, j, true);
      }
    }
    ChainMono(list, Order(past, s), Order(past + [step], s));
  }

  lemma AllEnteredStays(past: seq<Step>, step: Step, s: ScopeId, list: seq<Item>, multi: bool)
    requires AllEntered(past, s, list, multi)
    ensures AllEntered(past + [step], s, list, multi)
  {
    forall i | i in list ensures Entered(past + [step], s, i, multi) { EnteredStays(past, step, s, i, multi); }
  }

  lemma JustEntered(past: seq<Step>, s: ScopeId, list: seq<Item>, i: Item, multi: bool)
    requires AllEntered(past, s, list, multi) && InOrder(past, s, list)
    ensures AllEntered(past + [Enter(s, i, multi)], s, list + [i], multi)
    ensures InOrder(past + [Enter(s, i, multi)], s, list + [i])
  {
    var now := past + [Enter(s, i, multi)];
    InOrderStays(past, Enter(s, i, multi), s, list);
    AllEnteredStays(past, Enter(s, i, multi), s, list, multi);
    assert now[|past|] == Enter(s, i, multi) && Entered(now, s, i, multi);
    forall x | x in list ensures Precedes(now, s, x, i) {
      var p :| 0 <= p < |past| && past[p] == Enter(s, x, multi);
      assert now[p] == Enter(s, x, multi);
      assert Earlier(now, s, x, i, multi);
    }
    var before := Order(now, s);
    assert [i][1..] == [];
    assert Chain([i], before);
    ChainConcat(list, [i], before);
  }

  // ---------- Every run keeps the order ----------

  predicate HasEntries(phase: Phase) { !phase.Live? && !phase.AwaitingScopes? }

  ghost predicate ScopeInOrder(past: seq<Step>, s: ScopeId, st: ScopeState) {
    && AllEntered(past, s, st.cache, false) && InOrder(past, s, st.cache)
    && AllEntered(past, s, st.multiCache, true) && InOrder(past, s, st.multiCache)
    && (HasEntries(st.phase) ==> InOrder(past, s, st.phase.entries))
  }

  ghost predicate WorldInOrder(w: World, past: seq<Step>) {
    forall s <- w.scopes :: ScopeInOrder(past, s, w.scopes[s])
  }

  lemma EntriesInOrder(past: seq<Step>, s: ScopeId, st: ScopeState)
    requires ScopeInOrder(past, s, st)
    ensures InOrder(past, s, Entries(st))
  {
    forall x, y | x in st.cache && y in st.multiCache ensures Precedes(past, s, x, y) {}
    ChainConcat(st.cache, st.multiCache, Order(past, s));
  }

  lemma ScopeStays(past: seq<Step>, step: Step, s: ScopeId, st: ScopeState)
    requires ScopeInOrder(past, s, st)
    ensures ScopeInOrder(past + [step], s, st)
  {
    AllEnteredStays(past, step, s, st.cache, false);
    AllEnteredStays(past, step, s, st.multiCache, true);
    InOrderStays(past, step, s, st.cache);
    InOrderStays(past, step, s, st.multiCache);
    if HasEntries(st.phase) { InOrderStays(past, step, s, st.phase.entries); }
  }

  lemma DroppedInOrder(past: seq<Step>, s: ScopeId, st: ScopeState, drops: set<Item>)
    requires ScopeInOrder(past, s, st)
    ensures ScopeInOrder(past, s, Drop(st, drops))
  {
    var before := Order(past, s);
    ChainWithout(st.cache, drops, before);
    ChainWithout(st.multiCache, drops, before);
    WithoutFacts(st.cache, drops);
    WithoutFacts(st.multiCache, drops);
  }

  /** What a step may do to a container, as far as the order is concerned. */
  predicate Reordered(st: ScopeState, st': ScopeState, drops: set<Item>) {
    && (st'.cache, st'.multiCache) in {(st.cache, st.multiCache), ([], []),
                                       (Without(st.cache, drops), Without(st.multiCache, drops))}
    && (HasEntries(st'.phase) ==>
          (HasEntries(st.phase) && st'.phase.entries == st.phase.entries) || st'.phase.entries == Entries(st))
  }

  lemma ReorderedInOrder(past: seq<Step>, s: ScopeId, st: ScopeState, st': ScopeState, drops: set<Item>)
    requires ScopeInOrder(past, s, st) && Reordered(st, st', drops)
    ensures ScopeInOrder(past, s, st')
  {
    EntriesInOrder(past, s, st);
    DroppedInOrder(past, s, st, drops);
  }

  lemma StepReorders(w: World, step: Step, x: ScopeId, disposable: Item -> bool)
    requires WellFormed(w) && Enabled(w, step, disposable) && x in w.scopes
    requires !(step.Enter? && step.scope == x)
    ensures x in Next(w, step, disposable).scopes
    ensures Reordered(w.scopes[x], Next(w, step, disposable).scopes[x], if step.Override? then step.drops else {})
  {
  }

  lemma StepInOrder(w: World, past: seq<Step>, step: Step, disposable: Item -> bool)
    requires WellFormed(w) && WorldInOrder(w, past) && Enabled(w, step, disposable)
    ensures WorldInOrder(Next(w, step, disposable), past + [step])
  {
    var w' := Next(w, step, disposable);
    forall x | x in w'.scopes ensures ScopeInOrder(past + [step], x, w'.scopes[x]) {
      if step.Enter? && step.scope == x {
        EnterInOrder(w, past, x, step.item, step.multi, disposable);
      } else if x in w.scopes {
        StepReorders(w, step, x, disposable);
        ScopeStays(past, step, x, w.scopes[x]);
        ReorderedInOrder(past + [step], x, w.scopes[x], w'.scopes[x], if step.Override? then step.drops else {});
      }
    }
  }

  lemma EnterInOrder(w: World, past: seq<Step>, s: ScopeId, i: Item, multi: bool, disposable: Item -> bool)
    requires WellFormed(w) && WorldInOrder(w, past) && Enabled(w, Enter(s, i, multi), disposable)
    ensures ScopeInOrder(past + [Enter(s, i, multi)], s, Next(w, Enter(s, i, multi), disposable).scopes[s])
  {
    var st := w.scopes[s];
    assert ScopeInOrder(past, s, st);
    ScopeStays(past, Enter(s, i, multi), s, st);
    JustEntered(past, s, if multi then st.multiCache else st.cache, i, multi);
  }

  lemma {:induction false} RunInOrder(w: World, past: seq<Step>, steps: seq<Step>, disposable: Item -> bool)
    requires WellFormed(w) && WorldInOrder(w, past) && ValidRun(w, steps, disposable)
    ensures WorldInOrder(After(w, steps, disposable), past + steps)
    decreases |steps|
  {
    if steps == [] {
      assert past + steps == past;
    } else {
      var now := past + [steps[0]];
      assert now + steps[1..] == past + steps;
      RunBegins(w, steps, disposable);
      StepInOrder(w, past, steps[0], disposable);
      RunInOrder(Next(w, steps[0], disposable), now, steps[1..], disposable);
    }
  }

  lemma RunBegins(w: World, steps: seq<Step>, disposable: Item -> bool)
    requires WellFormed(w) && ValidRun(w, steps, disposable) && steps != []
    ensures Enabled(w, steps[0], disposable) && WellFormed(Next(w, steps[0], disposable))
    ensures ValidRun(Next(w, steps[0], disposable), steps[1..], disposable)
    ensures After(w, steps, disposable) == After(Next(w, steps[0], disposable), steps[1..], disposable)
  {
    NextIsWellFormed(w, steps[0], disposable);
  }

  /**
   On every run, of two instances that the pass of a container destroys the one destroyed first had entered later: both
   entered the same cache in the other order, or the first one is of a multi provider and the second is not.
   */
  lemma LaterGoesFirst(steps: seq<Step>, s: ScopeId, a: nat, b: nat, disposable: Item -> bool)
    requires ValidRun(Initial, steps, disposable)
    requires var w := After(Initial, steps, disposable);
             s in w.scopes && w.scopes[s].phase.Disposed? && a < b < |PassOf(w.log, s)|
    ensures var pass := PassOf(After(Initial, steps, disposable).log, s); Precedes(steps, s, pass[b], pass[a])
  {
    var e := After(Initial, steps, disposable).scopes[s].phase.entries;
    PassesAreOrdered(steps, s, disposable);
    DisposedEntriesInOrder(steps, s, disposable);
    ReversedInOrder(steps, s, e, a, b, disposable);
  }

  lemma DisposedEntriesInOrder(steps: seq<Step>, s: ScopeId, disposable: Item -> bool)
    requires ValidRun(Initial, steps, disposable)
    requires var w := After(Initial, steps, disposable); s in w.scopes && w.scopes[s].phase.Disposed?
    ensures InOrder(steps, s, After(Initial, steps, disposable).scopes[s].phase.entries)
  {
    RunInOrder(Initial, [], steps, disposable);
    assert [] + steps == steps;
    assert ScopeInOrder(steps, s, After(Initial, steps, disposable).scopes[s]);
  }

  lemma ReversedInOrder(steps: seq<Step>, s: ScopeId, entries: seq<Item>, a: nat, b: nat, disposable: Item -> bool)
    requires InOrder(steps, s, entries) && a < b < |Reversed(Disposables(entries, disposable))|
    ensures var pass := Reversed(Disposables(entries, disposable)); Precedes(steps, s, pass[b], pass[a])
  {
    var d := Disposables(entries, disposable);
    ChainCollect(entries, {}, disposable, Order(steps, s));
    ReversedLength(d);
    ReversedAt(d, a);
    ReversedAt(d, b);
    ChainAt(d, Order(steps, s), |d| - 1 - b, |d| - 1 - a);
  }
}
