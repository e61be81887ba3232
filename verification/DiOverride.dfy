/**
 Overrides after instances exist: the entries that depend on the overridden token are dropped, everything else stays,
 and what stays is still what the new graph would build.

 Only the root registers and overrides; request scopes have no registrations of their own.
 */
module DiOverride {
  import opened Options
  import opened DiGraph
  import opened DiContainer
  import opened DiContainerTree
  import opened DiResolve
  import opened DiCoherence

  // ---------- Two graphs that differ at one token ----------

  /** Everything registered for tokens other than t is the same. */
  ghost predicate SameBut(l: Lineage, l': Lineage, t: Token) {
    && |l| == |l'| && l != []
    && forall x | x != t ::
         && Lookup(l, x) == Lookup(l', x) && Collect(l, x) == Collect(l', x) && Has(l, x) == Has(l', x)
         && (x in l[0].singles <==> x in l'[0].singles) && LocalMultis(l[0], x) == LocalMultis(l'[0], x)
  }

  function RequestScopeOf(root: Local): Lineage { [NoRegistrations, root] }

  lemma ScopeAddsNothing(root: Local, t: Token)
    ensures Lookup(RequestScopeOf(root), t) == Lookup([root], t)
    ensures Collect(RequestScopeOf(root), t) == Collect([root], t)
    ensures Has(RequestScopeOf(root), t) == Has([root], t)
    ensures ProvidersOf(RequestScopeOf(root), t) == ProvidersOf([root], t)
  {
    assert RequestScopeOf(root)[1..] == [root];
    assert Collect([root], t) + [] == Collect([root], t);
  }

  lemma OverrideChangesOneToken(root: Local, t: Token, providers: seq<Provider>)
    requires providers != []
    ensures SameBut([root], [WithOverride(root, t, providers)], t)
    ensures SameBut(RequestScopeOf(root), RequestScopeOf(WithOverride(root, t, providers)), t)
  {
    var root' := WithOverride(root, t, providers);
    assert [root][1..] == [] && [root'][1..] == [];
    forall x | x != t
      ensures Lookup([root], x) == Lookup([root'], x) && Collect([root], x) == Collect([root'], x)
      ensures Has([root], x) == Has([root'], x)
    {
    }
    forall x ensures Lookup(RequestScopeOf(root), x) == Lookup([root], x)
             ensures Collect(RequestScopeOf(root), x) == Collect([root], x)
             ensures Has(RequestScopeOf(root), x) == Has([root], x)
             ensures Lookup(RequestScopeOf(root'), x) == Lookup([root'], x)
             ensures Collect(RequestScopeOf(root'), x) == Collect([root'], x)
             ensures Has(RequestScopeOf(root'), x) == Has([root'], x)
    {
      ScopeAddsNothing(root, x);
      ScopeAddsNothing(root', x);
    }
  }

  /** The lineages of the tree before and after the override. */
  ghost predicate OverridePair(root: Local, root': Local, t: Token, l: Lineage, l': Lineage) {
    && SameBut([root], [root'], t) && SameBut(RequestScopeOf(root), RequestScopeOf(root'), t)
    && ((l == [root] && l' == [root']) || (l == RequestScopeOf(root) && l' == RequestScopeOf(root')))
  }

  lemma RawEdgesAgree(root: Local, a: Token, b: Token)
    ensures RawEdge(RequestScopeOf(root), a, b) <==> RawEdge([root], a, b)
  {
    ScopeAddsNothing(root, a);
  }

  lemma DependenciesAgree(root: Local, a: Token, b: Token)
    ensures DependsOn(RequestScopeOf(root), a, b) <==> DependsOn([root], a, b)
  {
    forall x, y ensures RawEdge(RequestScopeOf(root), x, y) <==> RawEdge([root], x, y) { RawEdgesAgree(root, x, y); }
    if w :| RawWalk(RequestScopeOf(root), w, a, b) { assert RawWalk([root], w, a, b); }
    if w :| RawWalk([root], w, a, b) { assert RawWalk(RequestScopeOf(root), w, a, b); }
  }

  /** A provider none of whose dependencies leads to t. */
  ghost predicate Independent(l: Lineage, p: Provider, t: Token) {
    forall u <- RawTargets(p) :: !DependsOn(l, u, t)
  }

  lemma EdgeDepends(l: Lineage, a: Token, u: Token, t: Token)
    requires RawEdge(l, a, u) && DependsOn(l, u, t)
    ensures DependsOn(l, a, t)
  {
    var w :| RawWalk(l, w, u, t);
    assert RawWalk(l, [a] + w, a, t);
  }

  lemma IndependentTargets(l: Lineage, a: Token, t: Token, p: Provider)
    requires !DependsOn(l, a, t) && p in ProvidersOf(l, a)
    ensures Independent(l, p, t) && a != t
  {
    assert a == t ==> RawWalk(l, [a], a, t);
    forall u | u in RawTargets(p) ensures !DependsOn(l, u, t) {
      assert RawEdge(l, a, u);
      if DependsOn(l, u, t) { EdgeDepends(l, a, u, t); }
    }
  }

  lemma HomesAgree(root: Local, root': Local, t: Token, l: Lineage, l': Lineage, p: Provider)
    requires OverridePair(root, root', t, l, l') && p.provide != t
    ensures OverridePair(root, root', t, Home(l, p), Home(l', p))
    ensures OverridePair(root, root', t, HomeMulti(l, p), HomeMulti(l', p))
    ensures forall x, y :: DependsOn(Home(l, p), x, y) <==> DependsOn(l, x, y)
    ensures forall x, y :: DependsOn(HomeMulti(l, p), x, y) <==> DependsOn(l, x, y)
  {
    assert RootOf([root]) == [root] && RootOf(RequestScopeOf(root)) == [root];
    assert RootOf([root']) == [root'] && RootOf(RequestScopeOf(root')) == [root'];
    forall x, y ensures DependsOn(RequestScopeOf(root), x, y) <==> DependsOn([root], x, y) {
      DependenciesAgree(root, x, y);
    }
  }

  lemma ScopeKeyed(root: Local)
    requires KeyedByToken([root])
    ensures KeyedByToken(RequestScopeOf(root))
  {
    assert RequestScopeOf(root)[1] == [root][0];
  }

  // ---------- Instances that do not depend on t survive ----------

  lemma {:induction false} AliasesSurvive(root: Local, root': Local, t: Token, l: Lineage, l': Lineage, a: Token,
                                          e: Token, n: nat)
    requires OverridePair(root, root', t, l, l') && !DependsOn(l, a, t) && AliasTo(l, a, e, n)
    ensures AliasTo(l', a, e, n) && !DependsOn(l, e, t)
    decreases n
  {
    assert a != t by { if a == t { assert RawWalk(l, [a], a, t); } }
    if n > 0 {
      var p := Lookup(l, a).value;
      assert p in ProvidersOf(l, a);
      IndependentTargets(l, a, t, p);
      assert p.kind.target in RawTargets(p);
      AliasesSurvive(root, root', t, l, l', p.kind.target, e, n - 1);
    }
  }

  lemma {:induction false} YieldsSurvives(root: Local, root': Local, t: Token, l: Lineage, l': Lineage, a: Token,
                                          v: Instance)
    requires OverridePair(root, root', t, l, l') && KeyedByToken([root])
    requires !DependsOn(l, a, t) && Yields(l, a, v)
    ensures Yields(l', a, v)
    decreases v, 2
  {
    var e: Token, n: nat :| AliasTo(l, a, e, n) && DirectYields(l, e, v);
    AliasesSurvive(root, root', t, l, l', a, e, n);
    assert e != t by { if e == t { assert RawWalk(l, [e], e, t); } }
    ScopeKeyed(root);
    ProvidersKeyed(l, e);
    if IsMulti(l, e) {
      MultisSurvive(root, root', t, l, l', e, v);
    } else {
      SingleSurvives(root, root', t, l, l', e, v);
    }
  }

  lemma {:induction false} MultisSurvive(root: Local, root': Local, t: Token, l: Lineage, l': Lineage, e: Token,
                                         v: Instance)
    requires OverridePair(root, root', t, l, l') && KeyedByToken([root]) && e != t
    requires !DependsOn(l, e, t) && IsMulti(l, e) && DirectYields(l, e, v) &&
             forall p <- Collect(l, e) :: p.provide == e
    ensures DirectYields(l', e, v)
    decreases v, 1
  {
    forall i | 0 <= i < |v.instances| ensures MultiYields(l', Collect(l', e)[i], v.instances[i]) {
      var p := Collect(l, e)[i];
      assert p in ProvidersOf(l, e);
      IndependentTargets(l, e, t, p);
      MultiSurvives(root, root', t, l, l', p, v.instances[i]);
    }
  }

  lemma {:induction false} SingleSurvives(root: Local, root': Local, t: Token, l: Lineage, l': Lineage, e: Token,
                                          v: Instance)
    requires OverridePair(root, root', t, l, l') && KeyedByToken([root]) && e != t
    requires !DependsOn(l, e, t) && !IsMulti(l, e) && DirectYields(l, e, v) && Lookup(l, e).value.provide == e
    ensures DirectYields(l', e, v)
    decreases v, 1
  {
    var p := Lookup(l, e).value;
    assert p in ProvidersOf(l, e);
    IndependentTargets(l, e, t, p);
    HomesAgree(root, root', t, l, l', p);
    ProviderSurvives(root, root', t, Home(l, p), Home(l', p), p, v);
  }

  lemma {:induction false} MultiSurvives(root: Local, root': Local, t: Token, l: Lineage, l': Lineage, p: Provider,
                                         v: Instance)
    requires OverridePair(root, root', t, l, l') && KeyedByToken([root])
    requires p.provide != t && Independent(l, p, t) && MultiYields(l, p, v)
    ensures MultiYields(l', p, v)
    decreases v, 3
  {
    if p.kind.Existing? {
      assert p.kind.target in RawTargets(p);
      YieldsSurvives(root, root', t, l, l', p.kind.target, v);
    } else {
      HomesAgree(root, root', t, l, l', p);
      ProviderSurvives(root, root', t, HomeMulti(l, p), HomeMulti(l', p), p, v);
    }
  }

  lemma {:induction false} ProviderSurvives(root: Local, root': Local, t: Token, l: Lineage, l': Lineage,
                                            p: Provider, v: Instance)
    requires OverridePair(root, root', t, l, l') && KeyedByToken([root])
    requires Independent(l, p, t) && ProviderYields(l, p, v)
    ensures ProviderYields(l', p, v)
    decreases v, 0
  {
    if !p.kind.Value? {
      forall i | 0 <= i < |v.deps| ensures DepYields(l', p.inject[i], v.deps[i]) {
        assert DepYields(l, p.inject[i], v.deps[i]);
        assert RawTargets(p)[i] == p.inject[i].token;
        assert p.inject[i].token in RawTargets(p);
        DepSurvives(root, root', t, l, l', p.inject[i], v.deps[i]);
      }
    }
  }

  lemma {:induction false} DepSurvives(root: Local, root': Local, t: Token, l: Lineage, l': Lineage, d: Dep,
                                       v: Instance)
    requires OverridePair(root, root', t, l, l') && KeyedByToken([root])
    requires !DependsOn(l, d.token, t) && DepYields(l, d, v)
    ensures DepYields(l', d, v)
    decreases v, 4
  {
    assert d.token != t by { if d.token == t { assert RawWalk(l, [t], t, t); } }
    if !Skipped(l, d) {
      YieldsSurvives(root, root', t, l, l', d.token, v);
    }
  }

  // ---------- A multi provider that was built does not lead back to its own token ----------

  /** As registration and override leave the root: a token is single or multi, and values have no dependencies. */
  ghost predicate Normal(root: Local) {
    && KeyedByToken([root])
    && (forall t <- root.singles :: LocalMultis(root, t) == [])
    && (forall t <- root.singles :: root.singles[t].kind.Value? ==> root.singles[t].inject == [])
    && (forall t <- root.multis :: forall p <- root.multis[t] :: p.kind.Value? ==> p.inject == [])
  }

  ghost predicate OfTree(root: Local, l: Lineage) {
    l == [root] || l == RequestScopeOf(root)
  }

  ghost function Size(v: Instance): nat {
    match v
    case Built(_, _, deps) => 1 + TotalSize(deps)
    case Many(vs) => 1 + TotalSize(vs)
    case _ => 0
  }

  ghost function TotalSize(vs: seq<Instance>): nat {
    if vs == [] then 0 else Size(vs[0]) + TotalSize(vs[1..])
  }

  lemma {:induction false} PartIsSmaller(vs: seq<Instance>, i: nat)
    requires i < |vs|
    ensures Size(vs[i]) <= TotalSize(vs)
    decreases i
  {
    if i > 0 { PartIsSmaller(vs[1..], i - 1); }
  }

  lemma TreeProviders(root: Local, l: Lineage, t: Token)
    requires Normal(root) && OfTree(root, l)
    ensures Lookup(l, t) == (if t in root.singles then Some(root.singles[t]) else None)
    ensures Collect(l, t) == LocalMultis(root, t)
    ensures ProvidersOf(l, t) == ProvidersOf([root], t)
    ensures IsMulti(l, t) ==> ProvidersOf(l, t) == Collect(l, t)
    ensures !IsMulti(l, t) && Lookup(l, t).Some? ==> ProvidersOf(l, t) == [Lookup(l, t).value]
    ensures forall p <- ProvidersOf(l, t) :: p.provide == t && (p.kind.Value? ==> p.inject == [])
    ensures ProvidersOf(l, t) != [] ==> Has(l, t)
  {
    ScopeAddsNothing(root, t);
    assert [root][1..] == [];
    assert [] + LocalMultis(root, t) == LocalMultis(root, t);
    ProvidersKeyed([root], t);
  }

  lemma HomesInTree(root: Local, l: Lineage, p: Provider)
    requires OfTree(root, l)
    ensures OfTree(root, Home(l, p)) && OfTree(root, HomeMulti(l, p))
  {
    assert RootOf([root]) == [root] && RootOf(RequestScopeOf(root)) == [root];
  }

  /** One dependency step inside an instance: what p was built from for b, in the lineage p was built in. */
  lemma DescendStep(root: Local, l: Lineage, p: Provider, b: Token, v: Instance) returns (w: Instance)
    requires Normal(root) && OfTree(root, l) && ProviderYields(l, p, v) && (p.kind.Value? ==> p.inject == [])
    requires b in RawTargets(p) && Has(l, b)
    ensures Yields(l, b, w) && Size(w) < Size(v)
  {
    var i :| 0 <= i < |p.inject| && p.inject[i].token == b;
    w := v.deps[i];
    assert DepYields(l, p.inject[i], w);
    PartIsSmaller(v.deps, i);
  }

  /** Along a walk of the graph an instance contains an instance for every token passed, and it is no larger. */
  lemma {:induction false} Descend(root: Local, l: Lineage, a: Token, v: Instance, w: seq<Token>, x: Token)
      returns (l': Lineage, v': Instance)
    requires Normal(root) && OfTree(root, l) && Yields(l, a, v) && RawWalk([root], w, a, x)
    requires ProvidersOf([root], x) != []
    ensures OfTree(root, l') && Yields(l', x, v') && Size(v') <= Size(v)
    decreases |w|
  {
    if |w| == 1 {
      return l, v;
    }
    var b := w[1];
    assert RawEdge([root], w[0], w[1]);
    var q :| q in ProvidersOf([root], a) && b in RawTargets(q);
    var rest := w[1..];
    forall i | 0 <= i < |rest| - 1 ensures RawEdge([root], rest[i], rest[i + 1]) {
      assert RawEdge([root], w[i + 1], w[i + 2]);
    }
    if |rest| > 1 { assert RawEdge([root], w[1], w[2]); }
    TreeProviders(root, l, a);
    var home, part := StepInto(root, l, a, v, q, b);
    l', v' := Descend(root, home, b, part, rest, x);
  }

  lemma StepIntoMulti(root: Local, l: Lineage, a: Token, v: Instance, q: Provider, b: Token)
      returns (home: Lineage, part: Instance)
    requires Normal(root) && OfTree(root, l) && IsMulti(l, a) && DirectYields(l, a, v)
    requires q in Collect(l, a) && (q.kind.Value? ==> q.inject == []) && b in RawTargets(q) &&
             ProvidersOf([root], b) != []
    ensures OfTree(root, home) && Yields(home, b, part) && Size(part) <= Size(v)
  {
    var i :| 0 <= i < |Collect(l, a)| && Collect(l, a)[i] == q;
    PartIsSmaller(v.instances, i);
    home, part := StepIntoEntry(root, l, v.instances[i], q, b);
  }

  lemma StepIntoEntry(root: Local, l: Lineage, v: Instance, q: Provider, b: Token)
      returns (home: Lineage, part: Instance)
    requires Normal(root) && OfTree(root, l) && MultiYields(l, q, v)
    requires (q.kind.Value? ==> q.inject == []) && b in RawTargets(q) && ProvidersOf([root], b) != []
    ensures OfTree(root, home) && Yields(home, b, part) && Size(part) <= Size(v)
  {
    if q.kind.Existing? {
      return l, v;
    }
    home := HomeMulti(l, q);
    HomesInTree(root, l, q);
    TreeProviders(root, home, b);
    part := DescendStep(root, home, q, b, v);
  }

  lemma StepIntoSingle(root: Local, l: Lineage, a: Token, v: Instance, q: Provider, b: Token)
      returns (home: Lineage, part: Instance)
    requires Normal(root) && OfTree(root, l) && !IsMulti(l, a) && DirectYields(l, a, v)
    requires Lookup(l, a) == Some(q) && (q.kind.Value? ==> q.inject == []) && b in RawTargets(q)
    requires ProvidersOf([root], b) != []
    ensures OfTree(root, home) && Yields(home, b, part) && Size(part) <= Size(v)
  {
    home := Home(l, q);
    HomesInTree(root, l, q);
    TreeProviders(root, home, b);
    part := DescendStep(root, home, q, b, v);
  }

  lemma StepInto(root: Local, l: Lineage, a: Token, v: Instance, q: Provider, b: Token)
      returns (home: Lineage, part: Instance)
    requires Normal(root) && OfTree(root, l) && Yields(l, a, v)
    requires q in ProvidersOf([root], a) && b in RawTargets(q) && ProvidersOf([root], b) != []
    ensures OfTree(root, home) && Yields(home, b, part) && Size(part) <= Size(v)
  {
    TreeProviders(root, l, a);
    var e: Token, n: nat :| AliasTo(l, a, e, n) && DirectYields(l, e, v);
    if n > 0 {
      assert q == Lookup(l, a).value;
      assert AliasTo(l, b, e, n - 1);
      home, part := l, v;
    } else if IsMulti(l, a) {
      home, part := StepIntoMulti(root, l, a, v, q, b);
    } else {
      home, part := StepIntoSingle(root, l, a, v, q, b);
    }
  }

  lemma MultiYieldsDirectly(l: Lineage, x: Token, v: Instance)
    requires l != [] && IsMulti(l, x) && Yields(l, x, v)
    ensures DirectYields(l, x, v)
  {
    var e: Token, n: nat :| AliasTo(l, x, e, n) && DirectYields(l, e, v);
    assert !IsAlias(l, x);
    assert e == x;
  }

  lemma PartOfMultis(l: Lineage, ps: seq<Provider>, p: Provider, many: Instance) returns (part: Instance)
    requires l != [] && many.Many? && |many.instances| == |ps| && p in ps
    requires forall i | 0 <= i < |ps| :: MultiYields(l, ps[i], many.instances[i])
    ensures MultiYields(l, p, part) && Size(part) < Size(many)
  {
    var i :| 0 <= i < |ps| && ps[i] == p;
    part := many.instances[i];
    PartIsSmaller(many.instances, i);
  }

  /** An instance for a multi token contains one built by each of its class, factory and value providers. */
  lemma PartOfMany(root: Local, l: Lineage, p: Provider, many: Instance) returns (part: Instance)
    requires Normal(root) && OfTree(root, l) && p in LocalMultis(root, p.provide) && !p.kind.Existing?
    requires Yields(l, p.provide, many)
    ensures OfTree(root, HomeMulti(l, p)) && ProviderYields(HomeMulti(l, p), p, part) && Size(part) < Size(many)
  {
    TreeProviders(root, l, p.provide);
    HomesInTree(root, l, p);
    assert IsMulti(l, p.provide);
    MultiYieldsDirectly(l, p.provide, many);
    part := PartOfMultis(l, Collect(l, p.provide), p, many);
  }

  lemma {:induction false} NoSelfCycle(root: Local, l: Lineage, p: Provider, v: Instance, u: Token, w: seq<Token>)
    requires Normal(root) && OfTree(root, l) && p in LocalMultis(root, p.provide) && ProviderYields(l, p, v)
    requires u in RawTargets(p) && RawWalk([root], w, u, p.provide)
    ensures false
    decreases Size(v)
  {
    var x := p.provide;
    TreeProviders(root, l, x);
    TreeProviders(root, l, u);
    if |w| > 1 { assert RawEdge([root], w[0], w[1]); }
    var dep := DescendStep(root, l, p, u, v);
    var l', many := Descend(root, l, u, dep, w, x);
    var part := PartOfMany(root, l', p, many);
    NoSelfCycle(root, HomeMulti(l', p), p, part, u, w);
  }

  lemma NoWalkBack(root: Local, l: Lineage, p: Provider, v: Instance, u: Token, w: seq<Token>, t: Token)
    requires Normal(root) && OfTree(root, l) && p in LocalMultis(root, p.provide) && ProviderYields(l, p, v)
    requires u in RawTargets(p) && RawWalk(l, w, u, t)
    ensures p.provide !in w
  {
    if p.provide in w {
      var k :| 0 <= k < |w| && w[k] == p.provide;
      var prefix := w[..k + 1];
      forall i | 0 <= i < |prefix| - 1 ensures RawEdge([root], prefix[i], prefix[i + 1]) {
        assert RawEdge(l, w[i], w[i + 1]);
        TreeProviders(root, l, w[i]);
      }
      NoSelfCycle(root, l, p, v, u, prefix);
    }
  }

  /** An entry for a multi provider that the override scan keeps has no dependency that leads to t. */
  lemma KeptMultiIsIndependent(root: Local, l: Lineage, p: Provider, v: Instance, t: Token)
    requires Normal(root) && OfTree(root, l) && p in Collect(l, p.provide) && ProviderYields(l, p, v)
    requires !StaleProvider(l, p, t)
    ensures Independent(l, p, t) && p.provide != t
  {
    TreeProviders(root, l, p.provide);
    forall u | u in RawTargets(p) ensures !DependsOn(l, u, t) {
      if DependsOn(l, u, t) {
        var w0 :| RawWalk(l, w0, u, t);
        var w := WalkCanBeSimple(l, w0, u, t);
        NoWalkBack(root, l, p, v, u, w, t);
        SimpleWalkIsFound(l, w, u, t, {p.provide});
      }
    }
  }
}
