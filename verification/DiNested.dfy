/**
 Request scopes nested in request scopes.

 A singleton that a scope finds above itself is handed to the root, which constructs and caches it.  That is coherent
 exactly if the root has that singleton registered.  An override in a scope in between gives it another one.
 */
module DiNested {
  import opened Options
  import opened DiGraph
  import opened DiContainer
  import opened DiResolve
  import opened DiResolveCaches
  import opened DiCoherence

  // ---------- A resolution in the root leaves the caches of every scope alone ----------

  ghost predicate SameScope(c: Caches, c': Caches) {
    c'.requests == c.requests && c'.multiRequests == c.multiRequests
  }

  lemma {:induction false} RootTokenKeepsScope(l: Lineage, t: Token, chain: seq<Token>, c: Caches, throws: nat -> bool)
    requires |l| == 1
    ensures SameScope(c, ResolveToken(l, t, chain, c, throws).caches)
    decreases Registered(l) - Elements(chain), 1
  {
    ProvidersAreRegistered(l, t);
    if t !in chain {
      var path := chain + [t];
      if IsMulti(l, t) {
        ChainGrows(l, chain, t);
        RootMultisKeepScope(l, Collect(l, t), path, c, throws);
      } else if Lookup(l, t).Some? {
        var p := Lookup(l, t).value;
        ChainGrows(l, chain, t);
        if p.kind.Existing? {
          RootTokenKeepsScope(l, p.kind.target, path, c, throws);
        } else {
          RootInstanceKeepsScope(l, p, path, c, throws);
        }
      }
    }
  }

  lemma {:induction false} RootMultisKeepScope(l: Lineage, ps: seq<Provider>, chain: seq<Token>, c: Caches,
                                               throws: nat -> bool)
    requires |l| == 1
    ensures SameScope(c, ResolveMultis(l, ps, chain, c, throws).caches)
    decreases Registered(l) - Elements(chain), 6, |ps|
  {
    if ps != [] {
      RootMultiKeepsScope(l, ps[0], chain, c, throws);
      RootMultisKeepScope(l, ps[1..], chain, ResolveMulti(l, ps[0], chain, c, throws).caches, throws);
    }
  }

  lemma {:induction false} RootMultiKeepsScope(l: Lineage, p: Provider, chain: seq<Token>, c: Caches,
                                               throws: nat -> bool)
    requires |l| == 1
    ensures SameScope(c, ResolveMulti(l, p, chain, c, throws).caches)
    decreases Registered(l) - Elements(chain), 5
  {
    if p.kind.Existing? {
      RootTokenKeepsScope(l, p.kind.target, chain, c, throws);
    } else {
      RootInstanceKeepsScope(l, p, chain, c, throws);
    }
  }

  lemma {:induction false} RootInstanceKeepsScope(l: Lineage, p: Provider, chain: seq<Token>, c: Caches,
                                                  throws: nat -> bool)
    requires |l| == 1 && !p.kind.Existing?
    ensures SameScope(c, Instantiate(l, p, chain, c, throws).caches)
    ensures SameScope(c, ResolveScoped(l, p, chain, c, throws).caches)
    decreases Registered(l) - Elements(chain), 4
  {
    RootDepsKeepScope(l, p.inject, chain, c, throws);
  }

  lemma {:induction false} RootDepsKeepScope(l: Lineage, deps: seq<Dep>, chain: seq<Token>, c: Caches,
                                             throws: nat -> bool)
    requires |l| == 1
    ensures SameScope(c, ResolveDeps(l, deps, chain, c, throws).caches)
    decreases Registered(l) - Elements(chain), 3, |deps|
  {
    if deps != [] {
      if Skipped(l, deps[0]) {
        RootDepsKeepScope(l, deps[1..], chain, c, throws);
      } else {
        RootTokenKeepsScope(l, deps[0].token, chain, c, throws);
        RootDepsKeepScope(l, deps[1..], chain, ResolveToken(l, deps[0].token, chain, c, throws).caches, throws);
      }
    }
  }

  // ---------- What a coherent outcome says about the tokens that were resolved ----------

  /** Whatever the scope itself has cached was built by ready providers; so it is when nothing is cached. */
  ghost predicate Vetted(l: Lineage, c: Caches)
    requires l != []
  {
    && (forall t <- c.requests :: Lookup(l, t).Some? ==> ProviderReady(l, Lookup(l, t).value))
    && (forall p <- c.multiRequests :: ProviderReady(l, p))
  }

  function ProviderOf(v: Instance): Option<Provider> {
    match v
    case Given(p) => Some(p)
    case Built(_, p, _) => Some(p)
    case _ => None
  }

  lemma BuiltBy(l: Lineage, p: Provider, v: Instance)
    requires l != [] && ProviderYields(l, p, v)
    ensures ProviderOf(v) == Some(p)
  {
  }

  lemma GrowsTwice(c0: Caches, c1: Caches, c2: Caches)
    requires Grows(c0, c1) && Grows(c1, c2)
    ensures Grows(c0, c2)
  {
  }

  lemma {:induction false} TokenNeeds(l: Lineage, t: Token, chain: seq<Token>, c: Caches, end: Caches,
                                      throws: nat -> bool)
    requires |l| > 1 && KeyedByToken(l) && Vetted(l, c) && Coherent(l, end)
    requires var a := ResolveToken(l, t, chain, c, throws);
             a.result.Ok? && Grows(a.caches, end) && Yields(l, t, a.result.value)
    ensures Vetted(l, ResolveToken(l, t, chain, c, throws).caches) && Ready(l, t)
    decreases Registered(l) - Elements(chain), 1
  {
    ProvidersAreRegistered(l, t);
    ProvidersKeyed(l, t);
    ChainGrows(l, chain, t);
    var path, v := chain + [t], ResolveToken(l, t, chain, c, throws).result.value;
    assert path[..|path| - 1] == chain;
    if IsMulti(l, t) {
      var a := ResolveMultis(l, Collect(l, t), path, c, throws);
      assert ResolveToken(l, t, chain, c, throws) == Answer(Ok(Many(a.result.value)), a.caches);
      ManyNeeds(l, t, path, c, end, throws);
    } else {
      var p := Lookup(l, t).value;
      assert ResolveToken(l, t, chain, c, throws) == ProviderAnswer(l, p, path, c, throws);
      ProviderNeeds(l, t, p, path, c, end, throws);
    }
    assert Ready(l, t) by { ReadyUnfolds(l, t); }
  }

  lemma {:induction false} ManyNeeds(l: Lineage, t: Token, chain: seq<Token>, c: Caches, end: Caches,
                                     throws: nat -> bool)
    requires |l| > 1 && KeyedByToken(l) && Vetted(l, c) && Coherent(l, end) && IsMulti(l, t)
    requires chain != [] && forall p <- Collect(l, t) :: Innermost(chain, p)
    requires var a := ResolveMultis(l, Collect(l, t), chain, c, throws);
             a.result.Ok? && Grows(a.caches, end) && Yields(l, t, Many(a.result.value))
    ensures Vetted(l, ResolveMultis(l, Collect(l, t), chain, c, throws).caches) && TokenReady(l, t)
    decreases Registered(l) - Elements(chain), 7
  {
    ManyYields(l, t, ResolveMultis(l, Collect(l, t), chain, c, throws).result.value);
    MultisNeed(l, Collect(l, t), chain, c, end, throws);
  }

  /** What a token gets that is no multi token. */
  function ProviderAnswer(l: Lineage, p: Provider, chain: seq<Token>, c: Caches, throws: nat -> bool): Answer<Instance>
    requires l != []
  {
    if p.kind.Existing? then ResolveToken(l, p.kind.target, chain, c, throws) else SingleAnswer(l, p, chain, c, throws)
  }

  lemma {:induction false} ProviderNeeds(l: Lineage, t: Token, p: Provider, chain: seq<Token>, c: Caches, end: Caches,
                                         throws: nat -> bool)
    requires |l| > 1 && KeyedByToken(l) && Vetted(l, c) && Coherent(l, end) && Innermost(chain, p)
    requires !IsMulti(l, t) && Lookup(l, t) == Some(p) && p.provide == t
    requires var a := ProviderAnswer(l, p, chain, c, throws);
             a.result.Ok? && Grows(a.caches, end) && Yields(l, t, a.result.value)
    ensures Vetted(l, ProviderAnswer(l, p, chain, c, throws).caches) && TokenReady(l, t)
    decreases Registered(l) - Elements(chain), 7
  {
    AliasYields(l, t, p, ProviderAnswer(l, p, chain, c, throws).result.value);
    if p.kind.Existing? {
      TokenNeeds(l, p.kind.target, chain, c, end, throws);
    } else {
      SingleNeeds(l, p, chain, c, end, throws);
    }
  }

  lemma ManyYields(l: Lineage, t: Token, vs: seq<Instance>)
    requires l != [] && IsMulti(l, t) && Yields(l, t, Many(vs))
    ensures AllMultisYield(l, Collect(l, t), vs)
  {
    var e: Token, n: nat :| AliasTo(l, t, e, n) && DirectYields(l, e, Many(vs));
    assert e == t;
  }

  /** What an alias stands for is what its target stands for. */
  lemma AliasYields(l: Lineage, t: Token, p: Provider, v: Instance)
    requires l != [] && !IsMulti(l, t) && Lookup(l, t) == Some(p) && Yields(l, t, v)
    ensures if p.kind.Existing? then Yields(l, p.kind.target, v) else DirectYields(l, t, v)
  {
    var e: Token, n: nat :| AliasTo(l, t, e, n) && DirectYields(l, e, v);
    if p.kind.Existing? { assert AliasTo(l, p.kind.target, e, n - 1); }
  }

  lemma {:induction false} MultisNeed(l: Lineage, ps: seq<Provider>, chain: seq<Token>, c: Caches, end: Caches,
                                      throws: nat -> bool)
    requires |l| > 1 && KeyedByToken(l) && Vetted(l, c) && Coherent(l, end)
    requires chain != [] && forall p <- ps :: Innermost(chain, p)
    requires var a := ResolveMultis(l, ps, chain, c, throws);
             a.result.Ok? && Grows(a.caches, end) && AllMultisYield(l, ps, a.result.value)
    ensures Vetted(l, ResolveMultis(l, ps, chain, c, throws).caches) && forall p <- ps :: MultiReady(l, p)
    decreases Registered(l) - Elements(chain), 6, |ps|
  {
    if ps != [] {
      assert ps[0] in ps && forall p <- ps[1..] :: p in ps;
      var first := ResolveMulti(l, ps[0], chain, c, throws);
      var rest := ResolveMultis(l, ps[1..], chain, first.caches, throws);
      MultisGrow(l, ps[1..], chain, first.caches, end, throws);
      MultisSplit(l, ps, first.result.value, rest.result.value);
      MultiNeeds(l, ps[0], chain, c, end, throws);
      MultisNeed(l, ps[1..], chain, first.caches, end, throws);
    }
  }

  lemma MultisGrow(l: Lineage, ps: seq<Provider>, chain: seq<Token>, c: Caches, end: Caches, throws: nat -> bool)
    requires l != [] && KeyedByToken(l) && chain != [] && forall p <- ps :: Innermost(chain, p)
    requires Grows(ResolveMultis(l, ps, chain, c, throws).caches, end)
    ensures Grows(c, end)
  {
    ResolveMultisSound(l, ps, chain, c, throws);
    GrowsTwice(c, ResolveMultis(l, ps, chain, c, throws).caches, end);
  }

  lemma MultisSplit(l: Lineage, ps: seq<Provider>, v: Instance, vs: seq<Instance>)
    requires l != [] && ps != [] && AllMultisYield(l, ps, [v] + vs)
    ensures MultiYields(l, ps[0], v) && AllMultisYield(l, ps[1..], vs)
  {
    var all := [v] + vs;
    assert MultiYields(l, ps[0], all[0]) && |vs| == |ps[1..]|;
    forall i | 0 <= i < |ps[1..]| ensures MultiYields(l, ps[1..][i], vs[i]) {
      assert MultiYields(l, ps[i + 1], all[i + 1]) && all[i + 1] == vs[i];
    }
  }

  lemma {:induction false} MultiNeeds(l: Lineage, p: Provider, chain: seq<Token>, c: Caches, end: Caches,
                                      throws: nat -> bool)
    requires |l| > 1 && KeyedByToken(l) && Vetted(l, c) && Coherent(l, end) && Innermost(chain, p)
    requires var a := ResolveMulti(l, p, chain, c, throws);
             a.result.Ok? && Grows(a.caches, end) && MultiYields(l, p, a.result.value)
    ensures Vetted(l, ResolveMulti(l, p, chain, c, throws).caches) && MultiReady(l, p)
    decreases Registered(l) - Elements(chain), 5
  {
    if p.kind.Existing? {
      TokenNeeds(l, p.kind.target, chain, c, end, throws);
    } else if FromRootMulti(l, p) {
      RootMultiIsThere(l, p, chain, c, end, throws);
      RootMultiKeepsScope(RootOf(l), p, chain, c, throws);
    } else if p.scope == Transient || p !in c.multiRequests {
      var made := Instantiate(l, p, chain, c, throws);
      OwnMultiIsStored(l, p, chain, c, throws);
      GrowsTwice(made.caches, ResolveMulti(l, p, chain, c, throws).caches, end);
      InstanceNeeds(l, p, chain, c, end, throws);
    }
  }

  /** An instance the scope constructs itself is stored, if at all, where nothing was stored meanwhile. */
  lemma OwnMultiIsStored(l: Lineage, p: Provider, chain: seq<Token>, c: Caches, throws: nat -> bool)
    requires |l| > 1 && KeyedByToken(l) && !p.kind.Existing? && p.provide in chain && !FromRootMulti(l, p)
    requires (p.scope == Transient || p !in c.multiRequests) && ResolveMulti(l, p, chain, c, throws).result.Ok?
    ensures var a, made := ResolveMulti(l, p, chain, c, throws), Instantiate(l, p, chain, c, throws);
            && a.result == made.result && Grows(made.caches, a.caches)
            && (a.caches == made.caches ||
                a.caches == made.caches.(multiRequests := made.caches.multiRequests[p := a.result.value]))
  {
    InstantiateSound(l, p, chain, c, throws);
  }

  lemma OwnSingleIsStored(l: Lineage, p: Provider, chain: seq<Token>, c: Caches, throws: nat -> bool)
    requires |l| > 1 && KeyedByToken(l) && !p.kind.Existing? && p.provide in chain && !FromRoot(l, p)
    requires (p.scope == Transient || p.provide !in c.requests) && SingleAnswer(l, p, chain, c, throws).result.Ok?
    ensures var a, made := SingleAnswer(l, p, chain, c, throws), Instantiate(l, p, chain, c, throws);
            && a.result == made.result && Grows(made.caches, a.caches)
            && (a.caches == made.caches ||
                a.caches == made.caches.(requests := made.caches.requests[p.provide := a.result.value]))
  {
    InstantiateSound(l, p, chain, c, throws);
  }

  /** The root's entry for what it was handed is coherent, so the root has it registered. */
  lemma RootMultiIsThere(l: Lineage, p: Provider, chain: seq<Token>, c: Caches, end: Caches, throws: nat -> bool)
    requires |l| > 1 && Coherent(l, end) && !p.kind.Existing? && FromRootMulti(l, p)
    requires var a := ResolveMulti(l, p, chain, c, throws); a.result.Ok? && Grows(a.caches, end)
    ensures p in Collect(RootOf(l), p.provide)
  {
    RootRegistered(l);
    assert p in ResolveMulti(RootOf(l), p, chain, c, throws).caches.multiSingles;
    assert MultiSingleEntry(RootOf(l), p, end.multiSingles[p]);
  }

  lemma {:induction false} SingleNeeds(l: Lineage, p: Provider, chain: seq<Token>, c: Caches, end: Caches,
                                       throws: nat -> bool)
    requires |l| > 1 && KeyedByToken(l) && Vetted(l, c) && Coherent(l, end) && Innermost(chain, p)
    requires !p.kind.Existing? && Lookup(l, p.provide) == Some(p)
    requires var a := SingleAnswer(l, p, chain, c, throws);
             a.result.Ok? && Grows(a.caches, end) && ProviderYields(Home(l, p), p, a.result.value)
    ensures Vetted(l, SingleAnswer(l, p, chain, c, throws).caches) && SingleReady(l, p)
    decreases Registered(l) - Elements(chain), 5
  {
    if FromRoot(l, p) {
      RootSingleIsThere(l, p, chain, c, end, throws);
      RootInstanceKeepsScope(RootOf(l), p, chain, c, throws);
    } else if p.scope == Transient || p.provide !in c.requests {
      var made := Instantiate(l, p, chain, c, throws);
      OwnSingleIsStored(l, p, chain, c, throws);
      GrowsTwice(made.caches, SingleAnswer(l, p, chain, c, throws).caches, end);
      InstanceNeeds(l, p, chain, c, end, throws);
    } else {
      assert SingleAnswer(l, p, chain, c, throws).caches == c;
    }
  }

  /** How a token with a provider of its own that is no alias is answered. */
  function SingleAnswer(l: Lineage, p: Provider, chain: seq<Token>, c: Caches, throws: nat -> bool): Answer<Instance>
    requires l != [] && !p.kind.Existing?
  {
    if p.scope == Transient then Instantiate(l, p, chain, c, throws)
    else if CachedSingleton(l, p, c).Some? then Answer(Ok(CachedSingleton(l, p, c).value), c)
    else ResolveScoped(l, p, chain, c, throws)
  }

  lemma RootSingleIsThere(l: Lineage, p: Provider, chain: seq<Token>, c: Caches, end: Caches, throws: nat -> bool)
    requires |l| > 1 && Coherent(l, end) && !p.kind.Existing? && FromRoot(l, p)
    requires var a := SingleAnswer(l, p, chain, c, throws);
             a.result.Ok? && Grows(a.caches, end) && ProviderYields(RootOf(l), p, a.result.value)
    ensures Lookup(RootOf(l), p.provide) == Some(p)
  {
    RootRegistered(l);
    var a := SingleAnswer(l, p, chain, c, throws);
    ScopedIsCached(l, p, chain, c, throws);
    assert p.provide in a.caches.singles && a.caches.singles[p.provide] == a.result.value;
    assert SingleEntry(RootOf(l), p.provide, end.singles[p.provide]);
    BuiltBy(RootOf(l), p, a.result.value);
    BuiltBy(RootOf(l), Lookup(RootOf(l), p.provide).value, a.result.value);
  }

  lemma {:induction false} InstanceNeeds(l: Lineage, p: Provider, chain: seq<Token>, c: Caches, end: Caches,
                                         throws: nat -> bool)
    requires |l| > 1 && KeyedByToken(l) && Vetted(l, c) && Coherent(l, end) && !p.kind.Existing?
    requires var a := Instantiate(l, p, chain, c, throws);
             a.result.Ok? && Grows(a.caches, end) && ProviderYields(l, p, a.result.value)
    ensures Vetted(l, Instantiate(l, p, chain, c, throws).caches) && ProviderReady(l, p)
    decreases Registered(l) - Elements(chain), 4
  {
    if !p.kind.Value? { DepsNeed(l, p.inject, chain, c, end, throws); }
  }

  lemma {:induction false} DepsNeed(l: Lineage, deps: seq<Dep>, chain: seq<Token>, c: Caches, end: Caches,
                                    throws: nat -> bool)
    requires |l| > 1 && KeyedByToken(l) && Vetted(l, c) && Coherent(l, end)
    requires var a := ResolveDeps(l, deps, chain, c, throws);
             a.result.Ok? && Grows(a.caches, end) && AllDepsYield(l, deps, a.result.value)
    ensures Vetted(l, ResolveDeps(l, deps, chain, c, throws).caches) && DepsReady(l, deps)
    decreases Registered(l) - Elements(chain), 3, |deps|
  {
    if deps != [] {
      var first :=
        if Skipped(l, deps[0]) then Answer(Ok(Missing), c) else ResolveToken(l, deps[0].token, chain, c, throws);
      var rest := ResolveDeps(l, deps[1..], chain, first.caches, throws);
      DepsGrow(l, deps[1..], chain, first.caches, end, throws);
      DepsSplit(l, deps, first.result.value, rest.result.value);
      if !Skipped(l, deps[0]) { TokenNeeds(l, deps[0].token, chain, c, end, throws); }
      DepsNeed(l, deps[1..], chain, first.caches, end, throws);
    }
  }

  lemma DepsGrow(l: Lineage, deps: seq<Dep>, chain: seq<Token>, c: Caches, end: Caches, throws: nat -> bool)
    requires l != [] && KeyedByToken(l) && Grows(ResolveDeps(l, deps, chain, c, throws).caches, end)
    ensures Grows(c, end)
  {
    ResolveDepsSound(l, deps, chain, c, throws);
    GrowsTwice(c, ResolveDeps(l, deps, chain, c, throws).caches, end);
  }

  lemma DepsSplit(l: Lineage, deps: seq<Dep>, v: Instance, vs: seq<Instance>)
    requires l != [] && deps != [] && AllDepsYield(l, deps, [v] + vs)
    ensures DepYields(l, deps[0], v) && AllDepsYield(l, deps[1..], vs)
  {
    var all := [v] + vs;
    assert DepYields(l, deps[0], all[0]) && |vs| == |deps[1..]|;
    forall i | 0 <= i < |deps[1..]| ensures DepYields(l, deps[1..][i], vs[i]) {
      assert DepYields(l, deps[i + 1], all[i + 1]) && all[i + 1] == vs[i];
    }
  }

  // ---------- Coherence is exact ----------

  /**
   A successful resolution by a scope that has not cached anything unready, an empty one say, keeps the caches coherent
   and returns an instance the graph stands for if and only if the token is ready: for every token the resolution leads
   to, the root has registered what is handed to it.
   */
  lemma CoherenceIsExact(l: Lineage, t: Token, c: Caches, throws: nat -> bool)
    requires l != [] && KeyedByToken(l) && Coherent(l, c) && Vetted(l, c)
    requires ResolveToken(l, t, [], c, throws).result.Ok?
    ensures var a := ResolveToken(l, t, [], c, throws);
            Coherent(l, a.caches) && Yields(l, t, a.result.value) <==> Ready(l, t)
  {
    var a := ResolveToken(l, t, [], c, throws);
    if Ready(l, t) {
      TokenCoherent(l, l, t, [], c, throws);
    } else if Coherent(l, a.caches) && Yields(l, t, a.result.value) {
      if |l| == 1 { RootIsReady(l, t); } else { TokenNeeds(l, t, [], c, a.caches, throws); }
    }
  }

  // ---------- The two ways in which it fails ----------

  lemma YieldsDirectly(l: Lineage, t: Token, v: Instance)
    requires l != [] && !IsAlias(l, t) && Yields(l, t, v)
    ensures DirectYields(l, t, v)
  {
    var e: Token, n: nat :| AliasTo(l, t, e, n) && DirectYields(l, e, v);
    assert e == t;
  }

  /**
   Resolving a singleton that an enclosing scope has and the root has not, if it succeeds: when the root has cached an
   instance of its own, that one is returned in place of the scope's; otherwise the scope's gets into the root's cache,
   where it follows no registration of the root.
   */
  lemma InheritedSingletonPollutes(l: Lineage, t: Token, p: Provider, c: Caches, throws: nat -> bool)
    requires l != [] && !IsMulti(l, t) && Lookup(l, t) == Some(p) && p.provide == t && !p.kind.Existing?
    requires FromRoot(l, p) && Lookup(RootOf(l), t) != Some(p) && Coherent(l, c)
    requires ResolveToken(l, t, [], c, throws).result.Ok?
    ensures var a := ResolveToken(l, t, [], c, throws);
            if t in c.singles then a == Answer(Ok(c.singles[t]), c) && !Yields(l, t, a.result.value)
            else t in a.caches.singles && a.caches.singles[t] == a.result.value && !Coherent(l, a.caches)
  {
    var root, a := RootOf(l), ResolveToken(l, t, [], c, throws);
    RootRegistered(l);
    assert [] + [t] == [t];
    if t in c.singles {
      assert SingleEntry(root, t, c.singles[t]);
      BuiltBy(root, Lookup(root, t).value, c.singles[t]);
      if Yields(l, t, a.result.value) {
        YieldsDirectly(l, t, a.result.value);
        BuiltBy(root, p, a.result.value);
      }
    } else {
      assert a == ResolveScoped(root, p, [t], c, throws);
      InstantiatedBy(root, p, [t], c, throws);
      if Coherent(l, a.caches) {
        assert SingleEntry(root, t, a.caches.singles[t]);
        BuiltBy(root, Lookup(root, t).value, a.result.value);
      }
    }
  }

  lemma InstantiatedBy(l: Lineage, p: Provider, chain: seq<Token>, c: Caches, throws: nat -> bool)
    requires l != [] && !p.kind.Existing?
    ensures var a := Instantiate(l, p, chain, c, throws); a.result.Ok? ==> ProviderOf(a.result.value) == Some(p)
  {
  }

  /** Likewise for a multi provider, whose instance always gets into the root's cache. */
  lemma InheritedMultiPollutes(l: Lineage, t: Token, p: Provider, c: Caches, throws: nat -> bool)
    requires l != [] && KeyedByToken(l) && IsMulti(l, t) && p in Collect(l, t) && !p.kind.Existing?
    requires FromRootMulti(l, p) && p !in Collect(RootOf(l), t)
    requires ResolveToken(l, t, [], c, throws).result.Ok?
    ensures var a := ResolveToken(l, t, [], c, throws);
            p in a.caches.multiSingles && !Coherent(l, a.caches)
  {
    ProvidersAreRegistered(l, t);
    ProvidersKeyed(l, t);
    ChainGrows(l, [], t);
    assert [] + [t] == [t];
    HandedMultiIsCached(l, Collect(l, t), [t], p, c, throws);
    var a := ResolveToken(l, t, [], c, throws);
    assert !MultiSingleEntry(RootOf(l), p, a.caches.multiSingles[p]);
  }

  lemma {:induction false} HandedMultiIsCached(l: Lineage, ps: seq<Provider>, chain: seq<Token>, p: Provider, c: Caches,
                                               throws: nat -> bool)
    requires l != [] && KeyedByToken(l) && chain != [] && forall q <- ps :: Innermost(chain, q)
    requires p in ps && !p.kind.Existing? && FromRootMulti(l, p) && ResolveMultis(l, ps, chain, c, throws).result.Ok?
    ensures p in ResolveMultis(l, ps, chain, c, throws).caches.multiSingles
    decreases |ps|
  {
    assert ps[0] in ps && forall q <- ps[1..] :: q in ps;
    var first := ResolveMulti(l, ps[0], chain, c, throws);
    if ps[0] == p {
      RootRegistered(l);
      assert first == ResolveMulti(RootOf(l), p, chain, c, throws) && first.result.Ok?;
      assert p in first.caches.multiSingles;
      ResolveMultisSound(l, ps[1..], chain, first.caches, throws);
    } else {
      assert ps == [ps[0]] + ps[1..];
      HandedMultiIsCached(l, ps[1..], chain, p, first.caches, throws);
    }
  }
}
