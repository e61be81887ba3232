/**
 What a resolution does to the caches: it only adds to them, it adds nothing for tokens it is in the middle of, and
 nothing that depends on request scope ever gets into the root's caches.
 */
module DiResolveCaches {
  import opened Options
  import opened DiGraph
  import opened DiContainer
  import opened DiResolve

  ghost predicate Keeps<K>(before: map<K, Instance>, after: map<K, Instance>) {
    before.Keys <= after.Keys && forall k <- before :: after[k] == before[k]
  }

  ghost predicate Grows(c: Caches, c': Caches) {
    && Keeps(c.singles, c'.singles) && Keeps(c.multiSingles, c'.multiSingles)
    && Keeps(c.requests, c'.requests) && Keeps(c.multiRequests, c'.multiRequests) && c.built <= c'.built
  }

  /** Nothing was added under the given tokens. */
  ghost predicate Untouched(chain: seq<Token>, c: Caches, c': Caches) {
    && (forall t <- chain :: (t in c'.singles ==> t in c.singles) && (t in c'.requests ==> t in c.requests))
    && (forall p <- c'.multiSingles :: p.provide in chain ==> p in c.multiSingles)
    && (forall p <- c'.multiRequests :: p.provide in chain ==> p in c.multiRequests)
  }

  /** The instance and everything it was built from is free of request-scoped providers. */
  ghost predicate Pure(v: Instance) {
    match v
    case Missing => true
    case Given(p) => p.scope != Request
    case Built(_, p, deps) => p.scope != Request && forall d <- deps :: Pure(d)
    case Many(vs) => forall w <- vs :: Pure(w)
  }

  ghost predicate RootPure(c: Caches) {
    (forall t <- c.singles :: Pure(c.singles[t])) && (forall p <- c.multiSingles :: Pure(c.multiSingles[p]))
  }

  ghost predicate AllPure(vs: seq<Instance>) {
    forall v <- vs :: Pure(v)
  }

  ghost predicate Sound(chain: seq<Token>, c: Caches, c': Caches) {
    Grows(c, c') && Untouched(chain, c, c') && (RootPure(c) ==> RootPure(c'))
  }

  lemma SoundTransitive(chain: seq<Token>, c0: Caches, c1: Caches, c2: Caches)
    requires Sound(chain, c0, c1) && Sound(chain, c1, c2)
    ensures Sound(chain, c0, c2)
  {
  }

  lemma SoundShorter(chain: seq<Token>, t: Token, c: Caches, c': Caches)
    requires Sound(chain + [t], c, c')
    ensures Sound(chain, c, c')
  {
  }

  lemma SoundSame(chain: seq<Token>, c: Caches)
    ensures Sound(chain, c, c)
  {
  }

  lemma SoundCounts(chain: seq<Token>, c: Caches, c': Caches)
    requires Sound(chain, c, c')
    ensures Sound(chain, c, c'.(built := c'.built + 1))
  {
  }

  /** The instance of a token just left may be stored: nothing was stored for it in the meantime. */
  lemma SoundStores(chain: seq<Token>, p: Provider, v: Instance, c: Caches, c': Caches)
    requires Sound(chain + [p.provide], c, c') && p.provide !in chain
    requires RootPure(c) ==> Pure(v)
    ensures p.provide !in c.singles ==> Sound(chain, c, c'.(singles := c'.singles[p.provide := v]))
    ensures p !in c.multiSingles ==> Sound(chain, c, c'.(multiSingles := c'.multiSingles[p := v]))
  {
    assert p.provide in chain + [p.provide];
  }

  lemma SoundStoresInScope(chain: seq<Token>, p: Provider, v: Instance, c: Caches, c': Caches)
    requires Sound(chain + [p.provide], c, c') && p.provide !in chain
    ensures p.provide !in c.requests ==> Sound(chain, c, c'.(requests := c'.requests[p.provide := v]))
    ensures p !in c.multiRequests ==> Sound(chain, c, c'.(multiRequests := c'.multiRequests[p := v]))
  {
    assert p.provide in chain + [p.provide];
  }

  lemma {:induction false} RootKeyed(l: Lineage)
    requires l != [] && KeyedByToken(l)
    ensures KeyedByToken(RootOf(l))
  {
  }

  /** The provider's token is the one last entered into the chain, and was not on it before. */
  ghost predicate Innermost(chain: seq<Token>, p: Provider) {
    chain != [] && p.provide == chain[|chain| - 1] && p.provide !in chain[..|chain| - 1]
  }

  lemma {:induction false} ResolveTokenSound(l: Lineage, t: Token, chain: seq<Token>, c: Caches, throws: nat -> bool)
    requires l != [] && KeyedByToken(l)
    ensures var a := ResolveToken(l, t, chain, c, throws);
            Sound(chain, c, a.caches) && (RootPure(c) && |l| == 1 && a.result.Ok? ==> Pure(a.result.value))
    decreases Registered(l) - Elements(chain), 1
  {
    ProvidersAreRegistered(l, t);
    ProvidersKeyed(l, t);
    var path := chain + [t];
    if t !in chain {
      assert path[..|path| - 1] == chain;
      if t !in l[0].singles && Collect(l, t) != [] {
        ChainGrows(l, chain, t);
        ResolveMultisSound(l, Collect(l, t), path, c, throws);
      } else if Lookup(l, t).Some? {
        var p := Lookup(l, t).value;
        ChainGrows(l, chain, t);
        if p.kind.Existing? {
          ResolveTokenSound(l, p.kind.target, path, c, throws);
          SoundShorter(chain, t, c, ResolveToken(l, p.kind.target, path, c, throws).caches);
        } else if p.scope == Transient {
          InstantiateSound(l, p, path, c, throws);
          SoundShorter(chain, t, c, Instantiate(l, p, path, c, throws).caches);
        } else {
          ResolveScopedSound(l, p, path, c, throws);
        }
      }
    }
  }

  lemma {:induction false} ResolveMultisSound(l: Lineage, ps: seq<Provider>, chain: seq<Token>, c: Caches,
                                              throws: nat -> bool)
    requires l != [] && KeyedByToken(l) && chain != [] && forall p <- ps :: Innermost(chain, p)
    ensures var a := ResolveMultis(l, ps, chain, c, throws);
            Sound(chain[..|chain| - 1], c, a.caches) &&
            (RootPure(c) && |l| == 1 && a.result.Ok? ==> AllPure(a.result.value))
    decreases Registered(l) - Elements(chain), 6, |ps|
  {
    if ps != [] {
      var first := ResolveMulti(l, ps[0], chain, c, throws);
      ResolveMultiSound(l, ps[0], chain, c, throws);
      ResolveMultisSound(l, ps[1..], chain, first.caches, throws);
      if first.result.Ok? {
        SoundTransitive(chain[..|chain| - 1], c, first.caches,
                        ResolveMultis(l, ps[1..], chain, first.caches, throws).caches);
      }
    }
  }

  lemma {:induction false} ResolveMultiSound(l: Lineage, p: Provider, chain: seq<Token>, c: Caches, throws: nat -> bool)
    requires l != [] && KeyedByToken(l) && Innermost(chain, p)
    ensures var a := ResolveMulti(l, p, chain, c, throws);
            Sound(chain[..|chain| - 1], c, a.caches) &&
            (RootPure(c) && |l| == 1 && a.result.Ok? ==> Pure(a.result.value))
    decreases Registered(l) - Elements(chain), 5, |l|
  {
    var outer := chain[..|chain| - 1];
    assert chain == outer + [p.provide];
    if p.kind.Existing? {
      ResolveTokenSound(l, p.kind.target, chain, c, throws);
      SoundShorter(outer, p.provide, c, ResolveToken(l, p.kind.target, chain, c, throws).caches);
    } else if p.scope != Transient && FromRootMulti(l, p) {
      RootRegistered(l);
      RootKeyed(l);
      ResolveMultiSound(RootOf(l), p, chain, c, throws);
    } else if |l| == 1 && p.scope == Request {
      SoundSame(outer, c);
    } else {
      StoreMultiSound(l, p, outer, c, throws);
    }
  }

  lemma {:induction false} StoreMultiSound(l: Lineage, p: Provider, outer: seq<Token>, c: Caches, throws: nat -> bool)
    requires l != [] && KeyedByToken(l) && p.provide !in outer && !p.kind.Existing?
    requires (p.scope == Transient || !FromRootMulti(l, p)) && (|l| == 1 ==> p.scope != Request)
    ensures var a := ResolveMulti(l, p, outer + [p.provide], c, throws);
            Sound(outer, c, a.caches) && (RootPure(c) && |l| == 1 && a.result.Ok? ==> Pure(a.result.value))
    decreases Registered(l) - Elements(outer + [p.provide]), 4, 1
  {
    var chain := outer + [p.provide];
    var a := Instantiate(l, p, chain, c, throws);
    InstantiateSound(l, p, chain, c, throws);
    SoundShorter(outer, p.provide, c, a.caches);
    SoundSame(outer, c);
    if a.result.Ok? {
      if |l| == 1 { SoundStores(outer, p, a.result.value, c, a.caches); }
      SoundStoresInScope(outer, p, a.result.value, c, a.caches);
    }
  }

  lemma {:induction false} ResolveScopedSound(l: Lineage, p: Provider, chain: seq<Token>, c: Caches,
                                              throws: nat -> bool)
    requires l != [] && KeyedByToken(l) && !p.kind.Existing? && Innermost(chain, p)
    requires p.scope != Transient
    ensures var a := ResolveScoped(l, p, chain, c, throws);
            Sound(chain[..|chain| - 1], c, a.caches) &&
            (RootPure(c) && |l| == 1 && a.result.Ok? ==> Pure(a.result.value))
    decreases Registered(l) - Elements(chain), 5, |l|
  {
    assert chain == chain[..|chain| - 1] + [chain[|chain| - 1]];
    if FromRoot(l, p) {
      RootRegistered(l);
      RootKeyed(l);
      ResolveScopedSound(RootOf(l), p, chain, c, throws);
    } else if |l| > 1 || p.scope != Request {
      InstantiateSound(l, p, chain, c, throws);
      var a := Instantiate(l, p, chain, c, throws);
      SoundShorter(chain[..|chain| - 1], p.provide, c, a.caches);
      if a.result.Ok? {
        if |l| == 1 { SoundStores(chain[..|chain| - 1], p, a.result.value, c, a.caches); }
        SoundStoresInScope(chain[..|chain| - 1], p, a.result.value, c, a.caches);
      }
    }
  }

  lemma {:induction false} InstantiateSound(l: Lineage, p: Provider, chain: seq<Token>, c: Caches, throws: nat -> bool)
    requires l != [] && KeyedByToken(l) && !p.kind.Existing? && (|l| == 1 ==> p.scope != Request)
    ensures var a := Instantiate(l, p, chain, c, throws);
            Sound(chain, c, a.caches) && (RootPure(c) && |l| == 1 && a.result.Ok? ==> Pure(a.result.value))
    decreases Registered(l) - Elements(chain), 4, 0
  {
    var finding := if p.scope == Singleton then FindInDeps(l, p.inject, {p.provide}) else Nothing;
    if finding == Nothing && !p.kind.Value? {
      var deps := ResolveDeps(l, p.inject, chain, c, throws);
      ResolveDepsSound(l, p.inject, chain, c, throws);
      SoundCounts(chain, c, deps.caches);
    } else {
      SoundSame(chain, c);
    }
  }

  lemma {:induction false} ResolveDepsSound(l: Lineage, deps: seq<Dep>, chain: seq<Token>, c: Caches,
                                            throws: nat -> bool)
    requires l != [] && KeyedByToken(l)
    ensures var a := ResolveDeps(l, deps, chain, c, throws);
            Sound(chain, c, a.caches) && (RootPure(c) && |l| == 1 && a.result.Ok? ==> AllPure(a.result.value))
    decreases Registered(l) - Elements(chain), 3, |deps|
  {
    if deps != [] {
      var d := deps[0];
      if Skipped(l, d) {
        ResolveDepsSound(l, deps[1..], chain, c, throws);
      } else {
        var first := ResolveToken(l, d.token, chain, c, throws);
        ResolveTokenSound(l, d.token, chain, c, throws);
        ResolveDepsSound(l, deps[1..], chain, first.caches, throws);
        if first.result.Ok? {
          SoundTransitive(chain, c, first.caches, ResolveDeps(l, deps[1..], chain, first.caches, throws).caches);
        }
      }
    }
  }

  /** For any depth of request scopes: no instance in the root's caches was built from a request-scoped one. */
  lemma RootCachesStayPure(l: Lineage, t: Token, c: Caches, throws: nat -> bool)
    requires l != [] && KeyedByToken(l) && RootPure(c)
    ensures RootPure(ResolveToken(l, t, [], c, throws).caches)
    ensures var a := ResolveToken(l, t, [], c, throws); |l| == 1 && a.result.Ok? ==> Pure(a.result.value)
  {
    ResolveTokenSound(l, t, [], c, throws);
  }

  /** The token is bound to one root singleton that the scope does not shadow. */
  predicate RootSingleton(l: Lineage, t: Token, p: Provider)
    requires l != []
  {
    Lookup(l, t) == Some(p) && (|l| > 1 ==> t !in l[0].singles) && (t in l[0].singles || Collect(l, t) == []) &&
    !p.kind.Existing? && p.scope == Singleton && p.provide == t
  }

  lemma ScopedIsCached(l: Lineage, p: Provider, chain: seq<Token>, c: Caches, throws: nat -> bool)
    requires l != [] && !p.kind.Existing? && p.scope == Singleton && (|l| == 1 || FromRoot(l, p))
    ensures var a := ResolveScoped(l, p, chain, c, throws);
            a.result.Ok? ==> p.provide in a.caches.singles && a.caches.singles[p.provide] == a.result.value
  {
  }

  /**
   A root singleton is constructed once and shared: resolving it leaves an entry at the root, and as long as that entry
   is there, whatever else has come or gone, resolving it from the root or from any scope that does not shadow it
   returns the same instance, constructs nothing and changes no cache.
   */
  lemma SingletonIsShared(l: Lineage, l': Lineage, t: Token, p: Provider, c: Caches, later: Caches, throws: nat -> bool)
    requires l != [] && l' != [] && RootSingleton(l, t, p) && RootSingleton(l', t, p)
    requires ResolveToken(l, t, [], c, throws).result.Ok?
    ensures var a := ResolveToken(l, t, [], c, throws);
            t in a.caches.singles && a.caches.singles[t] == a.result.value
    ensures var v := ResolveToken(l, t, [], c, throws).result.value;
            t in later.singles && later.singles[t] == v ==>
              ResolveToken(l', t, [], later, throws) == Answer(Ok(v), later)
  {
    if CachedSingleton(l, p, c).None? {
      ScopedIsCached(l, p, [t], c, throws);
      assert [] + [t] == [t];
    }
  }
}
