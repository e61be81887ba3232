/**
 What registrations mean: which provider a container finds, which multi providers it collects and in what order, when a
 registration or an override is refused, and what an accepted one changes.
 */
module DiRegistrations {
  import opened Options
  import opened DiGraph
  import opened DiRevision
  import opened DiContainer
  import opened DiContainerTree

  // ---------- Which provider is found ----------

  /** The scope at i is the nearest one that registers the token. */
  ghost predicate Nearest(l: Lineage, t: Token, i: nat) {
    i < |l| && t in l[i].singles && forall j | 0 <= j < i :: t !in l[j].singles
  }

  /** A lookup finds the registration of the nearest scope that has one. */
  lemma {:induction false} LookupIsNearest(l: Lineage, t: Token)
    ensures Lookup(l, t).None? <==> forall local <- l :: t !in local.singles
    ensures forall i: nat :: Nearest(l, t, i) ==> Lookup(l, t) == Some(l[i].singles[t])
    decreases |l|
  {
    if l != [] {
      assert l == [l[0]] + l[1..] && l[0] in l;
      LookupIsNearest(l[1..], t);
      forall i: nat | Nearest(l, t, i) ensures Lookup(l, t) == Some(l[i].singles[t]) {
        if i > 0 {
          assert t !in l[0].singles && l[1..][i - 1] == l[i];
          assert forall j | 0 <= j < i - 1 :: l[1..][j] == l[j + 1];
          assert Nearest(l[1..], t, i - 1);
        }
      }
    }
  }

  /** Multi providers are there if some scope of the lineage has some. */
  lemma {:induction false} HasMultiAnywhere(l: Lineage, t: Token)
    ensures HasMulti(l, t) <==> exists local <- l :: t in local.multis
    decreases |l|
  {
    if l != [] {
      assert l == [l[0]] + l[1..] && l[0] in l;
      HasMultiAnywhere(l[1..], t);
    }
  }

  /** A dependency is left out exactly if it is optional and no scope of the lineage registers its token. */
  lemma OnlyUnregisteredIsSkipped(l: Lineage, d: Dep)
    ensures Skipped(l, d) <==>
            d.Optional? && forall local <- l :: d.token !in local.singles && d.token !in local.multis
  {
    LookupIsNearest(l, d.token);
    HasMultiAnywhere(l, d.token);
  }

  // ---------- Which multi providers are collected ----------

  /** The scopes that contribute: from the nearest up to the first that overrides the token, or all. */
  function Contributing(l: Lineage, t: Token): (n: nat)
    ensures n <= |l|
    ensures forall i | 0 <= i < n - 1 :: t !in l[i].overridden
    ensures n < |l| ==> n > 0 && t in l[n - 1].overridden
  {
    if l == [] then 0 else if t in l[0].overridden then 1 else 1 + Contributing(l[1..], t)
  }

  /** How many providers the scopes from i to n contribute. */
  function CountFrom(l: Lineage, t: Token, i: nat, n: nat): nat
    requires i <= n <= |l|
    decreases n - i
  {
    if i == n then 0 else |LocalMultis(l[i], t)| + CountFrom(l, t, i + 1, n)
  }

  lemma {:induction false} CountFromTail(l: Lineage, t: Token, i: nat, n: nat)
    requires l != [] && i <= n <= |l| - 1
    ensures CountFrom(l, t, i + 1, n + 1) == CountFrom(l[1..], t, i, n)
    decreases n - i
  {
    if i < n { CountFromTail(l, t, i + 1, n); }
  }

  lemma {:induction false} CountCollected(l: Lineage, t: Token)
    ensures |Collect(l, t)| == CountFrom(l, t, 0, Contributing(l, t))
    decreases |l|
  {
    if l != [] {
      if t in l[0].overridden {
        assert CountFrom(l, t, 1, 1) == 0;
      } else {
        CountCollected(l[1..], t);
        CountFromTail(l, t, 0, Contributing(l, t) - 1);
      }
    }
  }

  /** The part stands at this place of the whole. */
  predicate StandsAt(whole: seq<Provider>, start: nat, part: seq<Provider>) {
    start + |part| <= |whole| && whole[start..start + |part|] == part
  }

  lemma StandsInFront(a: seq<Provider>, b: seq<Provider>, start: nat, part: seq<Provider>)
    requires StandsAt(a, start, part)
    ensures StandsAt(a + b, start, part)
  {
    assert (a + b)[start..start + |part|] == a[start..start + |part|];
  }

  lemma StandsBehind(a: seq<Provider>, b: seq<Provider>)
    ensures StandsAt(a + b, |a|, b)
  {
  }

  /**
   The providers of the outermost contributing scope come first and those of the container itself last, each scope's in
   the order of their registration: those of scope i stand behind all that the scopes further out contribute.
   */
  lemma {:induction false} CollectedFromTheRoot(l: Lineage, t: Token, i: nat)
    requires i < Contributing(l, t)
    ensures StandsAt(Collect(l, t), CountFrom(l, t, i + 1, Contributing(l, t)), LocalMultis(l[i], t))
    decreases |l|
  {
    var n, own := Contributing(l, t), LocalMultis(l[0], t);
    if t in l[0].overridden {
      assert CountFrom(l, t, 1, 1) == 0 && own[0..|own|] == own;
    } else if i > 0 {
      CountFromTail(l, t, i, n - 1);
      CollectedFromTheRoot(l[1..], t, i - 1);
      assert l[1..][i - 1] == l[i];
      StandsInFront(Collect(l[1..], t), own, CountFrom(l, t, i + 1, n), LocalMultis(l[i], t));
    } else {
      CountFromTail(l, t, 0, n - 1);
      CountCollected(l[1..], t);
      StandsBehind(Collect(l[1..], t), own);
    }
  }

  // ---------- When a registration or an override is refused ----------

  /**
   A registration is refused as a scope mismatch exactly if a request scope is given a singleton, and else as a
   duplicate exactly if a multi provider meets a single one anywhere in the lineage, or a single one meets a single one
   of the same container or a multi provider anywhere in the lineage.
   */
  lemma RefusedRegistrations(l: Lineage, p: Provider)
    requires l != []
    ensures var r := RegistrationConflict(l, p);
            var mismatch := |l| > 1 && p.scope == Singleton;
            var duplicate := if p.multi then exists local <- l :: p.provide in local.singles
                             else p.provide in l[0].singles || exists local <- l :: p.provide in local.multis;
            && (r == Some(ScopeMismatch(p.provide)) <==> mismatch)
            && (r == Some(DuplicateProvider(p.provide)) <==> !mismatch && duplicate)
            && (r.None? <==> !mismatch && !duplicate)
  {
    LookupIsNearest(l, p.provide);
    HasMultiAnywhere(l, p.provide);
  }

  /** An override is refused exactly if it mixes single and multi providers, or gives several single ones. */
  lemma RefusedOverrides(t: Token, providers: seq<Provider>)
    ensures OverrideConflict(t, providers).Some? <==>
            ((exists p <- providers :: p.multi) && (exists p <- providers :: !p.multi)) ||
            ((forall p <- providers :: !p.multi) && |providers| > 1)
    ensures OverrideConflict(t, providers).Some? ==> OverrideConflict(t, providers) == Some(DuplicateProvider(t))
  {
  }

  /** A container is disposed in its hierarchy exactly if one of the containers from it up to the root is. */
  lemma {:induction false} DisposedAbove(tree: Tree, disposed: set<ScopeId>, c: ScopeId)
    requires WellFormed(tree) && c in tree
    ensures DisposedInHierarchy(tree, disposed, c) <==> exists x <- Scopes(tree, c) :: x in disposed
    decreases c
  {
    if tree[c].parent.Some? { DisposedAbove(tree, disposed, tree[c].parent.value); }
  }

  // ---------- What an accepted registration changes ----------

  /** The lineage with other registrations in its innermost container. */
  function WithLocal(l: Lineage, local: Local): Lineage
    requires l != []
  {
    [local] + l[1..]
  }

  /** A registered single provider is what the container finds; no other lookup and no collection changes. */
  lemma RegisteredIsFound(l: Lineage, p: Provider, u: Token)
    requires l != [] && !p.multi
    ensures var l' := WithLocal(l, WithProvider(l[0], p));
            && Lookup(l', u) == (if u == p.provide then Some(p) else Lookup(l, u)) && Collect(l', u) == Collect(l, u)
  {
  }

  /** A registered multi provider is collected last; no other collection and no lookup changes. */
  lemma RegisteredIsCollected(l: Lineage, p: Provider, u: Token)
    requires l != [] && p.multi
    ensures var l' := WithLocal(l, WithProvider(l[0], p));
            && Lookup(l', u) == Lookup(l, u)
            && Collect(l', u) == Collect(l, u) + if u == p.provide then [p] else []
  {
    var l' := WithLocal(l, WithProvider(l[0], p));
    assert Collect(l', u) ==
           (if u in l[0].overridden then [] else Collect(l[1..], u)) + LocalMultis(WithProvider(l[0], p), u);
    assert Collect(l, u) == (if u in l[0].overridden then [] else Collect(l[1..], u)) + LocalMultis(l[0], u);
  }

  /**
   After an override with one provider the container finds that one and collects none; after one with multi providers it
   collects exactly these and finds no single one of its own.  Nothing changes for other tokens.
   */
  lemma OverrideReplaces(l: Lineage, t: Token, providers: seq<Provider>, u: Token)
    requires l != [] && providers != []
    ensures var l' := WithLocal(l, WithOverride(l[0], t, providers));
            if u != t then Lookup(l', u) == Lookup(l, u) && Collect(l', u) == Collect(l, u)
            else if providers[0].multi then Collect(l', t) == providers && Lookup(l', t) == Lookup(l[1..], t)
            else Lookup(l', t) == Some(providers[0]) && Collect(l', t) == []
  {
  }

  /** The two lineages of the path differ just where the container c is on it. */
  predicate Shows(path: seq<ScopeId>, before: Lineage, after: Lineage, c: ScopeId, local: Local) {
    |before| == |path| == |after| &&
    forall i | 0 <= i < |path| :: after[i] == if path[i] == c then local else before[i]
  }

  lemma ShowsOneMore(path: seq<ScopeId>, before: Lineage, after: Lineage, c: ScopeId, local: Local, x: ScopeId,
                     own: Local)
    requires Shows(path, before, after, c, local)
    ensures Shows([x] + path, [own] + before, [if x == c then local else own] + after, c, local)
  {
  }

  /** A change in a container shows in its own lineage and in those of the scopes below it, and in no other. */
  lemma {:induction false} ChangeShowsBelow(tree: Tree, c: ScopeId, local: Local, x: ScopeId)
    requires WellFormed(tree) && c in tree && x in tree && WellFormed(Advance(tree, c, local))
    ensures Shows(Scopes(tree, x), LineageOf(tree, x), LineageOf(Advance(tree, c, local), x), c, local)
    decreases x
  {
    var tree' := Advance(tree, c, local);
    if tree[x].parent.Some? {
      var q := tree[x].parent.value;
      ChangeShowsBelow(tree, c, local, q);
      ShowsOneMore(Scopes(tree, q), LineageOf(tree, q), LineageOf(tree', q), c, local, x, tree[x].local);
    } else {
      ShowsOneMore([], [], [], c, local, x, tree[x].local);
    }
  }

  lemma {:induction false} OthersKeepLineage(tree: Tree, c: ScopeId, parent: Option<ScopeId>, x: ScopeId)
    requires WellFormed(tree) && c !in tree && x in tree && WellFormed(AddScope(tree, c, parent))
    ensures LineageOf(AddScope(tree, c, parent), x) == LineageOf(tree, x)
    decreases x
  {
    if tree[x].parent.Some? { OthersKeepLineage(tree, c, parent, tree[x].parent.value); }
  }

  /** A new request scope has no registrations of its own and sees its parent's; nobody else sees a difference. */
  lemma NewScopeInherits(tree: Tree, c: ScopeId, p: ScopeId, x: ScopeId)
    requires WellFormed(tree) && c !in tree && p in tree && p < c && x in tree
    ensures var tree' := AddScope(tree, c, Some(p));
            && WellFormed(tree') && LineageOf(tree', c) == [NoRegistrations] + LineageOf(tree, p)
            && LineageOf(tree', x) == LineageOf(tree, x)
  {
    AddScopeSameHistories(tree, c, Some(p), p);
    OthersKeepLineage(tree, c, Some(p), p);
    OthersKeepLineage(tree, c, Some(p), x);
  }

  // ---------- How long a plan is used ----------

  /** The revisions of the path differ just where the container x is on it, and there by one. */
  predicate Advanced(path: seq<ScopeId>, before: seq<nat>, after: seq<nat>, x: ScopeId) {
    |before| == |path| == |after| &&
    forall i | 0 <= i < |path| :: after[i] == before[i] + if path[i] == x then 1 else 0
  }

  lemma AdvancedOneMore(path: seq<ScopeId>, before: seq<nat>, after: seq<nat>, x: ScopeId, c: ScopeId, own: nat)
    requires Advanced(path, before, after, x)
    ensures Advanced([c] + path, [own] + before, [own + if c == x then 1 else 0] + after, x)
  {
  }

  lemma {:induction false} RevisionsAfterChange(tree: Tree, x: ScopeId, local: Local, c: ScopeId)
    requires WellFormed(tree) && x in tree && c in tree && WellFormed(Advance(tree, x, local))
    ensures Advanced(Scopes(tree, c), RevisionsOf(tree, c), RevisionsOf(Advance(tree, x, local), c), x)
    decreases c
  {
    var tree' := Advance(tree, x, local);
    if tree[c].parent.Some? {
      var q := tree[c].parent.value;
      RevisionsAfterChange(tree, x, local, q);
      AdvancedOneMore(Scopes(tree, q), RevisionsOf(tree, q), RevisionsOf(tree', q), x, c, tree[c].revision);
    } else {
      AdvancedOneMore([], [], [], x, c, tree[c].revision);
    }
  }

  /** A written plan is there and current, so it is the one that is read next. */
  lemma WrittenPlanIsCurrent(tree: Tree, c: ScopeId, key: PlanKey, value: PlanValue)
    requires WellFormed(tree) && c in tree
    ensures var tree' := WritePlan(tree, c, key, value);
            && WellFormed(tree') && key in tree'[c].plans && tree'[c].plans[key].value == value
            && tree'[c].plans[key].lineageRevision == RevisionString(RevisionsOf(tree', c))
  {
    SameRegistrationsSameLineage(tree, WritePlan(tree, c, key, value), c);
  }

  /** A container's revision string stays as it is exactly while no container of its lineage changes. */
  lemma RevisionChangesWithLineage(tree: Tree, x: ScopeId, local: Local, c: ScopeId)
    requires WellFormed(tree) && x in tree && c in tree
    ensures WellFormed(Advance(tree, x, local))
    ensures RevisionString(RevisionsOf(Advance(tree, x, local), c)) == RevisionString(RevisionsOf(tree, c)) <==>
            x !in Scopes(tree, c)
  {
    AdvanceExtends(tree, x, local, c);
    RevisionsAfterChange(tree, x, local, c);
    var before, after := RevisionsOf(tree, c), RevisionsOf(Advance(tree, x, local), c);
    if x in Scopes(tree, c) {
      var i :| 0 <= i < |Scopes(tree, c)| && Scopes(tree, c)[i] == x;
      assert after[i] != before[i];
      if RevisionString(after) == RevisionString(before) { RevisionStringInjective(after, before); }
    } else {
      assert after == before;
    }
  }
}
