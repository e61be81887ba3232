/**
 The containers of one tree: their registrations, and the plan caches that remember what lookups computed.

 A plan carries the lineage revision string of the moment it was written and is used only while that string is
 current.  The history of a scope's registrations, indexed by its graph revision, records what a revision number means.
 The containers of a tree are the entries of one table; a scope is created after its parent and has a larger number.
 */
module DiContainer {
  import opened Options
  import opened DiGraph
  import opened DiRevision

  type ScopeId = nat

  datatype Effective = Found(provider: Option<Provider>) | AliasCycle(path: seq<Token>)

  /** Follows aliases to the provider behind a token. */
  function EffectiveProvider(l: Lineage, t: Token, visited: set<Token>, chain: seq<Token>): Effective
    decreases Registered(l) - visited
  {
    ProvidersAreRegistered(l, t);
    if t in visited then AliasCycle(chain + [t])
    else match Lookup(l, t)
      case None => Found(None)
      case Some(p) =>
        if p.kind.Existing? then EffectiveProvider(l, p.kind.target, visited + {t}, chain + [t]) else Found(Some(p))
  }

  datatype PlanKind = LookupPlan | MultiPlan | VerdictPlan | EffectivePlan
  datatype PlanValue =
    | AProvider(provider: Option<Provider>)
    | Providers(providers: seq<Provider>)
    | Verdict(verdict: bool)
    | AnEffective(effective: Effective)

  /** The uncached computation behind each of the four plan caches. */
  function Compute(kind: PlanKind, l: Lineage, t: Token): PlanValue {
    match kind
    case LookupPlan => AProvider(Lookup(l, t))
    case MultiPlan => Providers(Collect(l, t))
    case VerdictPlan => Verdict(NeedsRequestScope(l, t, {}))
    case EffectivePlan => AnEffective(EffectiveProvider(l, t, {}, []))
  }

  datatype Plan = Plan(lineageRevision: string, value: PlanValue)
  datatype PlanKey = PlanKey(kind: PlanKind, token: Token)

  datatype ScopeState = ScopeState(
    parent: Option<ScopeId>,
    local: Local,
    revision: nat,
    history: seq<Local>,
    plans: map<PlanKey, Plan>)

  type Tree = map<ScopeId, ScopeState>

  /** Parents exist and come first; the history of a scope ends with its present registrations. */
  ghost predicate WellFormed(tree: Tree) {
    forall c <- tree ::
      (tree[c].parent.Some? ==> tree[c].parent.value in tree && tree[c].parent.value < c) &&
      |tree[c].history| == tree[c].revision + 1 && tree[c].history[tree[c].revision] == tree[c].local
  }

  /** The scopes from c up to the root. */
  ghost function Scopes(tree: Tree, c: ScopeId): (path: seq<ScopeId>)
    requires WellFormed(tree) && c in tree
    ensures path != [] && path[0] == c && forall x <- path :: x in tree
    decreases c
  {
    [c] + if tree[c].parent.None? then [] else Scopes(tree, tree[c].parent.value)
  }

  function LineageOf(tree: Tree, c: ScopeId): Lineage
    requires WellFormed(tree) && c in tree
    decreases c
  {
    [tree[c].local] + if tree[c].parent.None? then [] else LineageOf(tree, tree[c].parent.value)
  }

  function RevisionsOf(tree: Tree, c: ScopeId): (r: seq<nat>)
    requires WellFormed(tree) && c in tree
    ensures r != []
    decreases c
  {
    [tree[c].revision] + if tree[c].parent.None? then [] else RevisionsOf(tree, tree[c].parent.value)
  }

  ghost function HistoriesOf(tree: Tree, c: ScopeId): (h: seq<seq<Local>>)
    requires WellFormed(tree) && c in tree
    ensures h != []
    decreases c
  {
    [tree[c].history] + if tree[c].parent.None? then [] else HistoriesOf(tree, tree[c].parent.value)
  }

  // ---------- What a cached plan promises ----------

  ghost predicate InHistory(histories: seq<seq<Local>>, revisions: seq<nat>) {
    |histories| == |revisions| && forall i | 0 <= i < |histories| :: revisions[i] < |histories[i]|
  }

  /** The lineage as it was when its scopes were at the given revisions. */
  ghost function LineageAt(histories: seq<seq<Local>>, revisions: seq<nat>): Lineage
    requires InHistory(histories, revisions)
  {
    seq(|histories|, i requires 0 <= i < |histories| => histories[i][revisions[i]])
  }

  /** The plan was computed from the registrations its revision string stands for. */
  ghost predicate Justified(histories: seq<seq<Local>>, key: PlanKey, plan: Plan) {
    exists revisions: seq<nat> ::
      revisions != [] && InHistory(histories, revisions) && RevisionString(revisions) == plan.lineageRevision &&
      plan.value == Compute(key.kind, LineageAt(histories, revisions), key.token)
  }

  ghost predicate PlansJustified(tree: Tree)
    requires WellFormed(tree)
  {
    forall c <- tree, key <- tree[c].plans :: Justified(HistoriesOf(tree, c), key, tree[c].plans[key])
  }

  ghost predicate TreeOk(tree: Tree) {
    WellFormed(tree) && PlansJustified(tree)
  }

  lemma {:induction false} PresentIsInHistory(tree: Tree, c: ScopeId)
    requires WellFormed(tree) && c in tree
    ensures InHistory(HistoriesOf(tree, c), RevisionsOf(tree, c))
    ensures LineageAt(HistoriesOf(tree, c), RevisionsOf(tree, c)) == LineageOf(tree, c)
    decreases c
  {
    var st := tree[c];
    if st.parent.Some? {
      var q := st.parent.value;
      PresentIsInHistory(tree, q);
      HistoryOfChild(st.history, st.revision, HistoriesOf(tree, q), RevisionsOf(tree, q));
    } else {
      HistoryOfChild(st.history, st.revision, [], []);
    }
  }

  lemma HistoryOfChild(own: seq<Local>, revision: nat, above: seq<seq<Local>>, revisions: seq<nat>)
    requires revision < |own| && InHistory(above, revisions)
    ensures InHistory([own] + above, [revision] + revisions)
    ensures LineageAt([own] + above, [revision] + revisions) == [own[revision]] + LineageAt(above, revisions)
  {
  }

  /** A plan whose revision string is current has the value an uncached computation gives now. */
  lemma CurrentPlanIsRight(tree: Tree, c: ScopeId, key: PlanKey)
    requires TreeOk(tree) && c in tree && key in tree[c].plans
    requires tree[c].plans[key].lineageRevision == RevisionString(RevisionsOf(tree, c))
    ensures tree[c].plans[key].value == Compute(key.kind, LineageOf(tree, c), key.token)
  {
    var h := HistoriesOf(tree, c);
    var plan := tree[c].plans[key];
    assert Justified(h, key, plan);
    var written: seq<nat> :| written != [] && InHistory(h, written) &&
      RevisionString(written) == plan.lineageRevision &&
      plan.value == Compute(key.kind, LineageAt(h, written), key.token);
    PresentIsInHistory(tree, c);
    RevisionStringInjective(written, RevisionsOf(tree, c));
  }

  // ---------- The operations on the table ----------

  function WritePlan(tree: Tree, c: ScopeId, key: PlanKey, value: PlanValue): Tree
    requires WellFormed(tree) && c in tree
  {
    tree[c := tree[c].(plans := tree[c].plans[key := Plan(RevisionString(RevisionsOf(tree, c)), value)])]
  }

  /** A change of registrations takes the next revision number and drops the scope's own plans. */
  function Advance(tree: Tree, c: ScopeId, local: Local): Tree
    requires c in tree
  {
    tree[c := tree[c].(local := local, revision := tree[c].revision + 1, history := tree[c].history + [local],
                       plans := map[])]
  }

  function AddScope(tree: Tree, c: ScopeId, parent: Option<ScopeId>): Tree {
    tree[c := ScopeState(parent, NoRegistrations, 0, [NoRegistrations], map[])]
  }

  /** The trees agree on everything but the plans. */
  ghost predicate SameRegistrations(before: Tree, after: Tree) {
    before.Keys == after.Keys && forall c <- before :: after[c].(plans := map[]) == before[c].(plans := map[])
  }

  lemma {:induction false} SameRegistrationsSameLineage(before: Tree, after: Tree, c: ScopeId)
    requires WellFormed(before) && SameRegistrations(before, after) && c in before
    ensures WellFormed(after) && LineageOf(after, c) == LineageOf(before, c)
    ensures RevisionsOf(after, c) == RevisionsOf(before, c) && HistoriesOf(after, c) == HistoriesOf(before, c)
    decreases c
  {
    assert forall x <- after :: after[x].(plans := map[]) == before[x].(plans := map[]);
    if before[c].parent.Some? {
      SameRegistrationsSameLineage(before, after, before[c].parent.value);
    }
  }

  lemma WritePlanKeeps(tree: Tree, c: ScopeId, key: PlanKey, value: PlanValue)
    requires TreeOk(tree) && c in tree && value == Compute(key.kind, LineageOf(tree, c), key.token)
    ensures TreeOk(WritePlan(tree, c, key, value)) && SameRegistrations(tree, WritePlan(tree, c, key, value))
  {
    var tree' := WritePlan(tree, c, key, value);
    assert SameRegistrations(tree, tree');
    SameRegistrationsSameLineage(tree, tree', c);
    forall x, k | x in tree' && k in tree'[x].plans ensures Justified(HistoriesOf(tree', x), k, tree'[x].plans[k]) {
      SameRegistrationsSameLineage(tree, tree', x);
      if x == c && k == key {
        WrittenIsJustified(tree, c, key);
      } else {
        assert Justified(HistoriesOf(tree, x), k, tree[x].plans[k]);
      }
    }
  }

  lemma WrittenIsJustified(tree: Tree, c: ScopeId, key: PlanKey)
    requires WellFormed(tree) && c in tree
    ensures Justified(HistoriesOf(tree, c), key,
                      Plan(RevisionString(RevisionsOf(tree, c)), Compute(key.kind, LineageOf(tree, c), key.token)))
  {
    PresentIsInHistory(tree, c);
  }

  ghost predicate Extended(before: seq<seq<Local>>, after: seq<seq<Local>>) {
    |before| == |after| && forall i | 0 <= i < |before| :: before[i] <= after[i]
  }

  lemma JustifiedSurvives(before: seq<seq<Local>>, after: seq<seq<Local>>, key: PlanKey, plan: Plan)
    requires Extended(before, after) && Justified(before, key, plan)
    ensures Justified(after, key, plan)
  {
    var revisions: seq<nat> :| revisions != [] && InHistory(before, revisions) &&
      RevisionString(revisions) == plan.lineageRevision &&
      plan.value == Compute(key.kind, LineageAt(before, revisions), key.token);
    assert LineageAt(after, revisions) == LineageAt(before, revisions);
  }

  lemma {:induction false} AdvanceExtends(tree: Tree, c: ScopeId, local: Local, x: ScopeId)
    requires WellFormed(tree) && c in tree && x in tree
    ensures WellFormed(Advance(tree, c, local))
    ensures Extended(HistoriesOf(tree, x), HistoriesOf(Advance(tree, c, local), x))
    decreases x
  {
    if tree[x].parent.Some? {
      AdvanceExtends(tree, c, local, tree[x].parent.value);
    }
  }

  /** Changing one scope keeps the plans of every scope of the tree justified, also those below the changed one. */
  lemma AdvanceKeeps(tree: Tree, c: ScopeId, local: Local)
    requires TreeOk(tree) && c in tree
    ensures TreeOk(Advance(tree, c, local))
  {
    var tree' := Advance(tree, c, local);
    AdvanceExtends(tree, c, local, c);
    forall x, k | x in tree' && k in tree'[x].plans ensures Justified(HistoriesOf(tree', x), k, tree'[x].plans[k]) {
      AdvanceExtends(tree, c, local, x);
      assert Justified(HistoriesOf(tree, x), k, tree[x].plans[k]);
      JustifiedSurvives(HistoriesOf(tree, x), HistoriesOf(tree', x), k, tree[x].plans[k]);
    }
  }

  lemma {:induction false} AddScopeSameHistories(tree: Tree, c: ScopeId, parent: Option<ScopeId>, x: ScopeId)
    requires WellFormed(tree) && c !in tree && x in tree
    requires parent.Some? ==> parent.value in tree && parent.value < c
    ensures WellFormed(AddScope(tree, c, parent)) && HistoriesOf(AddScope(tree, c, parent), x) == HistoriesOf(tree, x)
    decreases x
  {
    if tree[x].parent.Some? {
      AddScopeSameHistories(tree, c, parent, tree[x].parent.value);
    }
  }

  lemma AddScopeKeeps(tree: Tree, c: ScopeId, parent: Option<ScopeId>)
    requires TreeOk(tree) && c !in tree && (parent.Some? ==> parent.value in tree && parent.value < c)
    ensures TreeOk(AddScope(tree, c, parent))
  {
    var tree' := AddScope(tree, c, parent);
    forall x, k | x in tree' && k in tree'[x].plans ensures Justified(HistoriesOf(tree', x), k, tree'[x].plans[k]) {
      AddScopeSameHistories(tree, c, parent, x);
      assert Justified(HistoriesOf(tree, x), k, tree[x].plans[k]);
    }
  }
}
