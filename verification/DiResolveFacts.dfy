/** What every resolution guarantees: circular errors name real cycles, and the root stays free of request scope. */
module DiResolveFacts {
  import opened Options
  import opened DiGraph
  import opened DiContainer
  import opened DiResolve

  // ---------- Circular errors report real cycles ----------

  /** A dependency seen by the resolving scope or by the root it delegates to. */
  ghost predicate ScopeEdge(full: Lineage, a: Token, b: Token)
    requires full != []
  {
    Edge(full, a, b) || Edge(RootOf(full), a, b)
  }

  ghost predicate RealPath(full: Lineage, w: seq<Token>)
    requires full != []
  {
    w != [] && forall i | 0 <= i < |w| - 1 :: ScopeEdge(full, w[i], w[i + 1])
  }

  /** One of the two lineages has a provider for this token, under whatever token it is registered. */
  ghost predicate ProvidedIn(full: Lineage, p: Provider)
    requires full != []
  {
    exists x :: p in ProvidersOf(full, x) || p in ProvidersOf(RootOf(full), x)
  }

  /** The singleton check objects to the provider, as seen by the resolving scope or by the root, and names d. */
  ghost predicate Objected(full: Lineage, p: Provider, d: Token)
    requires full != []
  {
    p.scope == Singleton && (FindInDeps(full, p.inject, {p.provide}) == FoundRequest(d) ||
                             FindInDeps(RootOf(full), p.inject, {p.provide}) == FoundRequest(d))
  }

  /** The token lacks a provider where it was looked for, and a path of dependencies leads to it from the first one. */
  ghost predicate Missed(full: Lineage, first: Token, t: Token)
    requires full != []
  {
    (ProvidersOf(full, t) == [] || ProvidersOf(RootOf(full), t) == []) &&
    exists w :: RealPath(full, w) && w[0] == first && w[|w| - 1] == t
  }

  /** The error of a resolution that began with the first token names something that is really wrong. */
  ghost predicate RealFailure(full: Lineage, first: Token, e: Error, throws: nat -> bool)
    requires full != []
  {
    match e
    case Circular(path) => RealPath(full, path) && EndsInRepeat(path)
    case NotRegistered(t) => Missed(full, first, t)
    case OutsideRequestScope(t) => exists p :: ProvidedIn(full, p) && p.provide == t && p.scope == Request
    case DependsOnRequestScope(t, d) => exists p :: ProvidedIn(full, p) && p.provide == t && Objected(full, p, d)
    case ConstructorThrew(p) => ProvidedIn(full, p) && exists n :: throws(n)
    case ContainerDisposed(_) => false
  }

  lemma EnteredIsProvided(full: Lineage, l: Lineage, p: Provider, chain: seq<Token>)
    requires full != [] && Entered(full, l, p, chain)
    ensures ProvidedIn(full, p)
  {
    assert p in ProvidersOf(full, chain[|chain| - 1]) || p in ProvidersOf(RootOf(full), chain[|chain| - 1]);
  }

  /** l is the resolving lineage or the root's, and p is a provider of the token last entered into the chain. */
  ghost predicate Entered(full: Lineage, l: Lineage, p: Provider, chain: seq<Token>)
    requires full != []
  {
    && (l == full || l == RootOf(full)) && chain != [] && RealPath(full, chain)
    && (p in ProvidersOf(full, chain[|chain| - 1]) || (l == RootOf(full) && p in ProvidersOf(l, chain[|chain| - 1])))
  }

  lemma {:induction false} RootHasLess(l: Lineage, t: Token)
    requires l != []
    ensures Has(RootOf(l), t) ==> Has(l, t)
    ensures Lookup(RootOf(l), t).Some? ==> Lookup(l, t).Some?
    ensures HasMulti(RootOf(l), t) ==> HasMulti(l, t)
  {
    if |l| > 1 {
      RootHasLess(l[1..], t);
      assert RootOf(l[1..]) == RootOf(l);
    } else {
      assert RootOf(l) == l;
    }
  }

  /** What the root needs for a provider, every scope below it needs too. */
  lemma TargetsOfRoot(full: Lineage, l: Lineage, p: Provider, u: Token)
    requires full != [] && l == RootOf(full) && u in Targets(l, p)
    ensures u in Targets(full, p)
  {
    if !p.kind.Existing? {
      var i :| 0 <= i < |p.inject| && !Skipped(l, p.inject[i]) && p.inject[i].token == u;
      RootHasLess(full, u);
      assert !Skipped(full, p.inject[i]);
    }
  }

  lemma PathGrows(full: Lineage, chain: seq<Token>, u: Token)
    requires full != [] && RealPath(full, chain) && ScopeEdge(full, chain[|chain| - 1], u)
    ensures RealPath(full, chain + [u])
  {
    var w := chain + [u];
    forall i | 0 <= i < |w| - 1 ensures ScopeEdge(full, w[i], w[i + 1]) {
      if i < |chain| - 1 { assert ScopeEdge(full, chain[i], chain[i + 1]); }
    }
  }

  lemma EnteredEdge(full: Lineage, l: Lineage, p: Provider, chain: seq<Token>, u: Token)
    requires full != [] && Entered(full, l, p, chain) && u in Targets(l, p)
    ensures RealPath(full, chain + [u])
  {
    var last := chain[|chain| - 1];
    if p in ProvidersOf(full, last) && l != full {
      TargetsOfRoot(full, l, p, u);
    }
    assert Edge(full, last, u) || Edge(RootOf(full), last, u);
    PathGrows(full, chain, u);
  }

  lemma {:induction false} AliasLoopIsWalk(l: Lineage, t: Token, visited: set<Token>, chain: seq<Token>)
    requires IsWalk(l, chain + [t]) && visited == Elements(chain)
    ensures var e := EffectiveProvider(l, t, visited, chain);
            e.AliasCycle? ==> IsWalk(l, e.path) && EndsInRepeat(e.path) && e.path[0] == (chain + [t])[0]
    decreases Registered(l) - visited
  {
    ProvidersAreRegistered(l, t);
    if t in visited {
      assert (chain + [t])[..|chain|] == chain;
    } else if Lookup(l, t).Some? && Lookup(l, t).value.kind.Existing? {
      var p := Lookup(l, t).value;
      assert p in ProvidersOf(l, t);
      assert Edge(l, t, p.kind.target);
      AliasLoopIsWalk(l, p.kind.target, visited + {t}, chain + [t]);
    }
  }

  lemma {:induction false} FoundLoopIsWalk(l: Lineage, deps: seq<Dep>, visited: set<Token>)
    ensures var f := FindInDeps(l, deps, visited); f.AliasLoop? ==> IsWalk(l, f.path) && EndsInRepeat(f.path)
    decreases Registered(l) - visited, 1, |deps|
  {
    if deps != [] {
      if !Skipped(l, deps[0]) {
        FoundLoopInTokenIsWalk(l, deps[0].token, visited);
      }
      FoundLoopIsWalk(l, deps[1..], visited);
    }
  }

  lemma {:induction false} FoundLoopInTokenIsWalk(l: Lineage, t: Token, visited: set<Token>)
    ensures var f := FindInToken(l, t, visited); f.AliasLoop? ==> IsWalk(l, f.path) && EndsInRepeat(f.path)
    decreases Registered(l) - visited, 0
  {
    AliasLoopIsWalk(l, t, {}, []);
    var e := EffectiveProvider(l, t, {}, []);
    if t !in visited && e.Found? && e.provider.Some? && e.provider.value.scope != Request {
      EffectiveIsRegistered(l, t);
      FoundLoopIsWalk(l, e.provider.value.inject, visited + {t});
    }
  }

  lemma WalkIsReal(full: Lineage, l: Lineage, w: seq<Token>)
    requires full != [] && (l == full || l == RootOf(full)) && IsWalk(l, w)
    ensures RealPath(full, w)
  {
  }

  /**
   Every error names a real cause: a path of dependencies that ends at a token already on it, one that ends at a token
   without a provider, a request-scoped provider, a singleton that depends on one, or a constructor that threw.
   */
  lemma {:induction false} FailureIsReal(full: Lineage, l: Lineage, t: Token, chain: seq<Token>, c: Caches,
                                         throws: nat -> bool)
    requires full != [] && (l == full || l == RootOf(full)) && RealPath(full, chain + [t])
    ensures var r := ResolveToken(l, t, chain, c, throws).result;
            r.Failed? ==> RealFailure(full, (chain + [t])[0], r.error, throws)
    decreases Registered(l) - Elements(chain), 1
  {
    ProvidersAreRegistered(l, t);
    var path := chain + [t];
    if t in chain {
      assert path[..|chain|] == chain;
    } else if t !in l[0].singles && Collect(l, t) != [] {
      ChainGrows(l, chain, t);
      forall p | p in Collect(l, t) ensures Entered(full, l, p, path) {
        assert p in ProvidersOf(l, t);
      }
      MultisFailureIsReal(full, l, Collect(l, t), path, c, throws);
    } else if Lookup(l, t).Some? {
      var p := Lookup(l, t).value;
      assert p in ProvidersOf(l, t);
      ChainGrows(l, chain, t);
      if p.kind.Existing? {
        EnteredEdge(full, l, p, path, p.kind.target);
        FailureIsReal(full, l, p.kind.target, path, c, throws);
      } else if p.scope == Transient {
        InstantiateFailureIsReal(full, l, p, path, c, throws);
      } else {
        ScopedFailureIsReal(full, l, p, path, c, throws);
      }
    }
  }

  lemma {:induction false} MultisFailureIsReal(full: Lineage, l: Lineage, ps: seq<Provider>, chain: seq<Token>,
                                               c: Caches, throws: nat -> bool)
    requires full != [] && l != [] && chain != [] && forall p <- ps :: Entered(full, l, p, chain)
    ensures var r := ResolveMultis(l, ps, chain, c, throws).result;
            r.Failed? ==> RealFailure(full, chain[0], r.error, throws)
    decreases Registered(l) - Elements(chain), 6, |ps|
  {
    if ps != [] {
      MultiFailureIsReal(full, l, ps[0], chain, c, throws);
      MultisFailureIsReal(full, l, ps[1..], chain, ResolveMulti(l, ps[0], chain, c, throws).caches, throws);
    }
  }

  lemma {:induction false} MultiFailureIsReal(full: Lineage, l: Lineage, p: Provider, chain: seq<Token>, c: Caches,
                                              throws: nat -> bool)
    requires full != [] && l != [] && Entered(full, l, p, chain)
    ensures var r := ResolveMulti(l, p, chain, c, throws).result;
            r.Failed? ==> RealFailure(full, chain[0], r.error, throws)
    decreases Registered(l) - Elements(chain), 5, |l|
  {
    if p.kind.Existing? {
      EnteredEdge(full, l, p, chain, p.kind.target);
      FailureIsReal(full, l, p.kind.target, chain, c, throws);
    } else if p.scope != Transient && FromRootMulti(l, p) {
      RootRegistered(l);
      assert l == full;
      MultiFailureIsReal(full, RootOf(l), p, chain, c, throws);
    } else {
      InstantiateFailureIsReal(full, l, p, chain, c, throws);
    }
  }

  lemma {:induction false} ScopedFailureIsReal(full: Lineage, l: Lineage, p: Provider, chain: seq<Token>, c: Caches,
                                               throws: nat -> bool)
    requires full != [] && l != [] && Entered(full, l, p, chain) && !p.kind.Existing? && p.scope != Transient
    ensures var r := ResolveScoped(l, p, chain, c, throws).result;
            r.Failed? ==> RealFailure(full, chain[0], r.error, throws)
    decreases Registered(l) - Elements(chain), 5, |l|
  {
    if FromRoot(l, p) {
      RootRegistered(l);
      assert l == full;
      ScopedFailureIsReal(full, RootOf(l), p, chain, c, throws);
    } else {
      InstantiateFailureIsReal(full, l, p, chain, c, throws);
    }
  }

  lemma {:induction false} InstantiateFailureIsReal(full: Lineage, l: Lineage, p: Provider, chain: seq<Token>,
                                                    c: Caches, throws: nat -> bool)
    requires full != [] && l != [] && Entered(full, l, p, chain) && !p.kind.Existing?
    ensures var r := Instantiate(l, p, chain, c, throws).result;
            r.Failed? ==> RealFailure(full, chain[0], r.error, throws)
    decreases Registered(l) - Elements(chain), 4
  {
    EnteredIsProvided(full, l, p, chain);
    var f := if p.scope == Singleton then FindInDeps(l, p.inject, {p.provide}) else Nothing;
    if f == Nothing {
      DepsFailureIsReal(full, l, p, 0, chain, c, throws);
      assert p.inject[0..] == p.inject;
    } else {
      ObjectionIsReal(full, l, p, chain[0], throws);
    }
  }

  lemma ObjectionIsReal(full: Lineage, l: Lineage, p: Provider, first: Token, throws: nat -> bool)
    requires full != [] && (l == full || l == RootOf(full)) && ProvidedIn(full, p) && p.scope == Singleton
    ensures var f := FindInDeps(l, p.inject, {p.provide});
            && (f.FoundRequest? ==> RealFailure(full, first, DependsOnRequestScope(p.provide, f.token), throws))
            && (f.AliasLoop? ==> RealFailure(full, first, Circular(f.path), throws))
  {
    var f := FindInDeps(l, p.inject, {p.provide});
    FoundLoopIsWalk(l, p.inject, {p.provide});
    if f.AliasLoop? { WalkIsReal(full, l, f.path); }
    if f.FoundRequest? { assert Objected(full, p, f.token); }
  }

  lemma {:induction false} DepsFailureIsReal(full: Lineage, l: Lineage, p: Provider, i: nat, chain: seq<Token>,
                                             c: Caches, throws: nat -> bool)
    requires full != [] && l != [] && Entered(full, l, p, chain) && !p.kind.Existing? && i <= |p.inject|
    ensures var r := ResolveDeps(l, p.inject[i..], chain, c, throws).result;
            r.Failed? ==> RealFailure(full, chain[0], r.error, throws)
    decreases Registered(l) - Elements(chain), 3, |p.inject| - i
  {
    if i < |p.inject| {
      var d := p.inject[i];
      assert p.inject[i..][0] == d && p.inject[i..][1..] == p.inject[i + 1..];
      if Skipped(l, d) {
        DepsFailureIsReal(full, l, p, i + 1, chain, c, throws);
      } else {
        assert d.token in Targets(l, p);
        EnteredEdge(full, l, p, chain, d.token);
        FailureIsReal(full, l, d.token, chain, c, throws);
        DepsFailureIsReal(full, l, p, i + 1, chain, ResolveToken(l, d.token, chain, c, throws).caches, throws);
      }
    }
  }

  // ---------- A clean verdict means a clean resolution ----------

  lemma NeedIsMonotone(l: Lineage, t: Token, visited: set<Token>, more: set<Token>)
    requires NeedsRequestScope(l, t, visited) && visited <= more
    ensures NeedsRequestScope(l, t, more)
  {
    var w := SearchFindsWalk(l, t, visited);
    WalkIsFound(l, w, more);
  }

  lemma {:induction false} EffectiveWalk(l: Lineage, t: Token, visited: set<Token>, chain: seq<Token>)
      returns (w: seq<Token>)
    requires EffectiveProvider(l, t, visited, chain).Found? && EffectiveProvider(l, t, visited, chain).provider.Some?
    ensures IsWalk(l, w) && w[0] == t
    ensures EffectiveProvider(l, t, visited, chain).provider.value in ProvidersOf(l, w[|w| - 1])
    decreases Registered(l) - visited
  {
    ProvidersAreRegistered(l, t);
    w := [t];
    var p := Lookup(l, t).value;
    assert p in ProvidersOf(l, t);
    if p.kind.Existing? {
      var rest := EffectiveWalk(l, p.kind.target, visited + {t}, chain + [t]);
      assert Edge(l, t, p.kind.target);
      w := [t] + rest;
    }
  }

  lemma WalksJoin(l: Lineage, w: seq<Token>, rest: seq<Token>)
    requires IsWalk(l, w) && IsWalk(l, rest) && Edge(l, w[|w| - 1], rest[0])
    ensures IsWalk(l, w + rest)
  {
    var whole := w + rest;
    forall i | 0 <= i < |whole| - 1 ensures Edge(l, whole[i], whole[i + 1]) {
      if i < |w| - 1 {
        assert whole[i] == w[i] && whole[i + 1] == w[i + 1];
      } else if i >= |w| {
        assert whole[i] == rest[i - |w|] && whole[i + 1] == rest[i + 1 - |w|];
      }
    }
  }

  lemma NeedIsInherited(l: Lineage, w: seq<Token>, u: Token)
    requires IsWalk(l, w) && Edge(l, w[|w| - 1], u) && NeedsRequestScope(l, u, {})
    ensures NeedsRequestScope(l, w[0], {})
  {
    var rest := SearchFindsWalk(l, u, {});
    var whole := w + rest;
    WalksJoin(l, w, rest);
    assert whole[|whole| - 1] == rest[|rest| - 1] && whole[0] == w[0];
    assert whole[..|whole| - 1] == w + rest[..|rest| - 1];
    assert EndsInRepeat(rest) ==> EndsInRepeat(whole);
    WalkIsFound(l, whole, {});
  }

  predicate ScopeFree(l: Lineage, deps: seq<Dep>) {
    forall d <- deps :: !Skipped(l, d) ==> !NeedsRequestScope(l, d.token, {})
  }

  lemma {:induction false} NothingInDeps(l: Lineage, deps: seq<Dep>, visited: set<Token>)
    requires ScopeFree(l, deps)
    ensures FindInDeps(l, deps, visited) == Nothing
    decreases Registered(l) - visited, 1, |deps|
  {
    if deps != [] {
      if !Skipped(l, deps[0]) {
        NothingInToken(l, deps[0].token, visited);
      }
      NothingInDeps(l, deps[1..], visited);
    }
  }

  lemma {:induction false} NothingInToken(l: Lineage, t: Token, visited: set<Token>)
    requires !NeedsRequestScope(l, t, {})
    ensures FindInToken(l, t, visited) == Nothing
    decreases Registered(l) - visited, 0
  {
    var e := EffectiveProvider(l, t, {}, []);
    if t !in visited {
      AliasLoopIsWalk(l, t, {}, []);
      if e.AliasCycle? {
        WalkIsFound(l, e.path, {});
        assert false;
      } else if e.provider.Some? {
        var p := e.provider.value;
        var w := EffectiveWalk(l, t, {}, []);
        EffectiveIsRegistered(l, t);
        if p.scope == Request {
          assert RequestScopedAt(l, w[|w| - 1]);
          WalkIsFound(l, w, {});
          assert false;
        } else if !p.kind.Existing? {
          forall d | d in p.inject && !Skipped(l, d) ensures !NeedsRequestScope(l, d.token, {}) {
            if NeedsRequestScope(l, d.token, {}) {
              var i :| 0 <= i < |p.inject| && p.inject[i] == d;
              assert d.token in Targets(l, p);
              assert Edge(l, w[|w| - 1], d.token);
              NeedIsInherited(l, w, d.token);
            }
          }
          NothingInDeps(l, p.inject, visited + {t});
        } else {
          EffectiveIsNoAlias(l, t, {}, []);
        }
      }
    }
  }

  lemma {:induction false} EffectiveIsNoAlias(l: Lineage, t: Token, visited: set<Token>, chain: seq<Token>)
    ensures var e := EffectiveProvider(l, t, visited, chain);
            e.Found? && e.provider.Some? ==> !e.provider.value.kind.Existing?
    decreases Registered(l) - visited
  {
    ProvidersAreRegistered(l, t);
    if t !in visited && Lookup(l, t).Some? && Lookup(l, t).value.kind.Existing? {
      EffectiveIsNoAlias(l, Lookup(l, t).value.kind.target, visited + {t}, chain + [t]);
    }
  }

  /** The failures that have nothing to do with cycles or scopes. */
  predicate Harmless<T>(r: Result<T>) {
    r.Failed? ==> r.error.NotRegistered? || r.error.ConstructorThrew?
  }

  /** The provider belongs to a token whose search, with the chain as path, found nothing. */
  ghost predicate CleanProvider(l: Lineage, p: Provider, chain: seq<Token>) {
    !ProviderNeedsRequestScope(l, p, Elements(chain))
  }

  /**
   When the verdict for a token is negative, resolving it on the root raises neither a circular-dependency error nor
   any request-scope error.
   */
  lemma {:induction false} CleanVerdictResolves(l: Lineage, t: Token, chain: seq<Token>, c: Caches, throws: nat -> bool)
    requires |l| == 1 && !NeedsRequestScope(l, t, Elements(chain))
    ensures Harmless(ResolveToken(l, t, chain, c, throws).result)
    decreases Registered(l) - Elements(chain), 1
  {
    ProvidersAreRegistered(l, t);
    var path := chain + [t];
    assert Elements(path) == Elements(chain) + {t};
    if t !in l[0].singles && Collect(l, t) != [] {
      ChainGrows(l, chain, t);
      forall p | p in Collect(l, t) ensures CleanProvider(l, p, path) {
        assert p in ProvidersOf(l, t);
      }
      CleanMultis(l, Collect(l, t), path, c, throws);
    } else if Lookup(l, t).Some? {
      var p := Lookup(l, t).value;
      assert p in ProvidersOf(l, t);
      ChainGrows(l, chain, t);
      if p.kind.Existing? {
        CleanVerdictResolves(l, p.kind.target, path, c, throws);
      } else {
        CleanInstantiate(l, p, path, c, throws);
      }
    }
  }

  lemma {:induction false} CleanMultis(l: Lineage, ps: seq<Provider>, chain: seq<Token>, c: Caches, throws: nat -> bool)
    requires |l| == 1 && forall p <- ps :: CleanProvider(l, p, chain)
    ensures Harmless(ResolveMultis(l, ps, chain, c, throws).result)
    decreases Registered(l) - Elements(chain), 6, |ps|
  {
    if ps != [] {
      if ps[0].kind.Existing? {
        assert CleanProvider(l, ps[0], chain);
        CleanVerdictResolves(l, ps[0].kind.target, chain, c, throws);
      } else {
        CleanInstantiate(l, ps[0], chain, c, throws);
      }
      CleanMultis(l, ps[1..], chain, ResolveMulti(l, ps[0], chain, c, throws).caches, throws);
    }
  }

  lemma {:induction false} CleanInstantiate(l: Lineage, p: Provider, chain: seq<Token>, c: Caches, throws: nat -> bool)
    requires |l| == 1 && CleanProvider(l, p, chain) && !p.kind.Existing?
    ensures p.scope != Request && Harmless(Instantiate(l, p, chain, c, throws).result)
    decreases Registered(l) - Elements(chain), 4
  {
    forall d | d in p.inject && !Skipped(l, d)
      ensures !NeedsRequestScope(l, d.token, Elements(chain)) && !NeedsRequestScope(l, d.token, {})
    {
      var i :| 0 <= i < |p.inject| && p.inject[i] == d;
      assert d.token in Targets(l, p);
      if NeedsRequestScope(l, d.token, {}) { NeedIsMonotone(l, d.token, {}, Elements(chain)); }
    }
    NothingInDeps(l, p.inject, {p.provide});
    CleanDeps(l, p.inject, chain, c, throws);
  }

  lemma {:induction false} CleanDeps(l: Lineage, deps: seq<Dep>, chain: seq<Token>, c: Caches, throws: nat -> bool)
    requires |l| == 1 && forall d <- deps :: !Skipped(l, d) ==> !NeedsRequestScope(l, d.token, Elements(chain))
    ensures Harmless(ResolveDeps(l, deps, chain, c, throws).result)
    decreases Registered(l) - Elements(chain), 3, |deps|
  {
    if deps != [] {
      if Skipped(l, deps[0]) {
        CleanDeps(l, deps[1..], chain, c, throws);
      } else {
        CleanVerdictResolves(l, deps[0].token, chain, c, throws);
        CleanDeps(l, deps[1..], chain, ResolveToken(l, deps[0].token, chain, c, throws).caches, throws);
      }
    }
  }

  lemma RealPathInRoot(l: Lineage, w: seq<Token>)
    requires |l| == 1 && RealPath(l, w)
    ensures IsWalk(l, w)
  {
    assert RootOf(l) == l;
    forall i | 0 <= i < |w| - 1 ensures Edge(l, w[i], w[i + 1]) { assert ScopeEdge(l, w[i], w[i + 1]); }
  }

  /**
   When the verdict for a token is negative, everything it leads to is registered and no constructor throws, the root
   resolves it.
   */
  lemma NothingWrongResolves(l: Lineage, t: Token, c: Caches, throws: nat -> bool)
    requires |l| == 1 && !NeedsRequestScope(l, t, {}) && forall n :: !throws(n)
    requires forall w :: IsWalk(l, w) && w[0] == t ==> ProvidersOf(l, w[|w| - 1]) != []
    ensures ResolveToken(l, t, [], c, throws).result.Ok?
  {
    assert [] + [t] == [t] && Elements([]) == {} && RootOf(l) == l;
    assert RealPath(l, [t]);
    CleanVerdictResolves(l, t, [], c, throws);
    FailureIsReal(l, l, t, [], c, throws);
    forall w | RealPath(l, w) ensures IsWalk(l, w) { RealPathInRoot(l, w); }
  }
}
