/**
 What it means that an instance was built by the providers a graph gives for its token and, recursively, for every
 token of its dependency tree, and that resolution produces exactly such instances.
 */
module DiCoherence {
  import opened Options
  import opened DiGraph
  import opened DiContainer
  import opened DiResolve

  predicate IsMulti(l: Lineage, t: Token)
    requires l != []
  {
    t !in l[0].singles && Collect(l, t) != []
  }

  predicate IsAlias(l: Lineage, t: Token)
    requires l != []
  {
    !IsMulti(l, t) && Lookup(l, t).Some? && Lookup(l, t).value.kind.Existing?
  }

  /** Following n aliases from t ends at e, which is none. */
  ghost predicate AliasTo(l: Lineage, t: Token, e: Token, n: nat)
    requires l != []
    decreases n
  {
    if n == 0 then t == e && !IsAlias(l, t)
    else IsAlias(l, t) && AliasTo(l, Lookup(l, t).value.kind.target, e, n - 1)
  }

  function Home(l: Lineage, p: Provider): (h: Lineage)
    requires l != []
    ensures h != []
  {
    if FromRoot(l, p) then RootOf(l) else l
  }

  function HomeMulti(l: Lineage, p: Provider): (h: Lineage)
    requires l != []
    ensures h != []
  {
    if FromRootMulti(l, p) then RootOf(l) else l
  }

  /** In lineage l the token t stands for the instance v. */
  ghost predicate Yields(l: Lineage, t: Token, v: Instance)
    requires l != []
    decreases v, 2
  {
    exists e: Token, n: nat :: AliasTo(l, t, e, n) && DirectYields(l, e, v)
  }

  ghost predicate DirectYields(l: Lineage, t: Token, v: Instance)
    requires l != []
    decreases v, 1
  {
    if IsMulti(l, t) then
      v.Many? && |v.instances| == |Collect(l, t)| &&
      forall i | 0 <= i < |v.instances| :: MultiYields(l, Collect(l, t)[i], v.instances[i])
    else Lookup(l, t).Some? && ProviderYields(Home(l, Lookup(l, t).value), Lookup(l, t).value, v)
  }

  ghost predicate MultiYields(l: Lineage, p: Provider, v: Instance)
    requires l != []
    decreases v, 3
  {
    if p.kind.Existing? then Yields(l, p.kind.target, v) else ProviderYields(HomeMulti(l, p), p, v)
  }

  /** v was built by p from instances its dependencies stand for. */
  ghost predicate ProviderYields(l: Lineage, p: Provider, v: Instance)
    requires l != []
    decreases v, 0
  {
    match p.kind
    case Existing(_) => false
    case Value => v == Given(p)
    case _ =>
      v.Built? && v.provider == p && |v.deps| == |p.inject| &&
      forall i | 0 <= i < |v.deps| :: DepYields(l, p.inject[i], v.deps[i])
  }

  ghost predicate DepYields(l: Lineage, d: Dep, v: Instance)
    requires l != []
    decreases v, 4
  {
    if Skipped(l, d) then v == Missing else Yields(l, d.token, v)
  }

  // ---------- Coherent caches ----------

  ghost predicate SingleEntry(root: Lineage, t: Token, v: Instance)
    requires root != []
  {
    Lookup(root, t).Some? && Lookup(root, t).value.scope == Singleton && ProviderYields(root, Lookup(root, t).value, v)
  }

  ghost predicate MultiSingleEntry(root: Lineage, p: Provider, v: Instance)
    requires root != []
  {
    p in Collect(root, p.provide) && p.scope == Singleton && ProviderYields(root, p, v)
  }

  ghost predicate RequestEntry(l: Lineage, t: Token, v: Instance)
    requires l != []
  {
    Lookup(l, t).Some? && !FromRoot(l, Lookup(l, t).value) && ProviderYields(l, Lookup(l, t).value, v)
  }

  ghost predicate MultiRequestEntry(l: Lineage, p: Provider, v: Instance)
    requires l != []
  {
    p in Collect(l, p.provide) && !FromRootMulti(l, p) && ProviderYields(l, p, v)
  }

  ghost predicate RootCoherent(root: Lineage, c: Caches)
    requires root != []
  {
    && (forall t <- c.singles :: SingleEntry(root, t, c.singles[t]))
    && (forall p <- c.multiSingles :: MultiSingleEntry(root, p, c.multiSingles[p]))
  }

  ghost predicate ScopeCoherent(l: Lineage, c: Caches)
    requires l != []
  {
    && (forall t <- c.requests :: RequestEntry(l, t, c.requests[t]))
    && (forall p <- c.multiRequests :: MultiRequestEntry(l, p, c.multiRequests[p]))
  }

  /** The caches of the root and of the resolving scope, which may be the root itself. */
  ghost predicate Coherent(full: Lineage, c: Caches) {
    full != [] && RootCoherent(RootOf(full), c) && (|full| > 1 ==> ScopeCoherent(full, c))
  }

  ghost predicate InTree(full: Lineage, l: Lineage) {
    full != [] && (l == full || l == RootOf(full)) && KeyedByToken(full) && KeyedByToken(l)
  }

  lemma Levels(full: Lineage, l: Lineage)
    requires InTree(full, l)
    ensures |l| == 1 ==> l == RootOf(full)
    ensures |l| > 1 ==> l == full
  {
    assert |full| == 1 ==> RootOf(full) == full;
  }

  ghost predicate AllMultisYield(l: Lineage, ps: seq<Provider>, vs: seq<Instance>)
    requires l != []
  {
    |vs| == |ps| && forall i | 0 <= i < |ps| :: MultiYields(l, ps[i], vs[i])
  }

  ghost predicate AllDepsYield(l: Lineage, deps: seq<Dep>, vs: seq<Instance>)
    requires l != []
  {
    |vs| == |deps| && forall i | 0 <= i < |deps| :: DepYields(l, deps[i], vs[i])
  }

  // ---------- Tokens for which the root has what is handed to it ----------

  /** Constructing p in l resolves b in l. */
  ghost predicate DepLeads(l: Lineage, p: Provider, b: Token) {
    !p.kind.Value? && exists d <- p.inject :: !Skipped(l, d) && d.token == b
  }

  /** Resolving a in l resolves b in l as well: what is handed to the root is resolved there, not in l. */
  ghost predicate Leads(l: Lineage, a: Token, b: Token)
    requires l != []
  {
    if IsMulti(l, a) then exists p <- Collect(l, a) :: MultiLeads(l, p, b)
    else Lookup(l, a).Some? && SingleLeads(l, Lookup(l, a).value, b)
  }

  ghost predicate MultiLeads(l: Lineage, p: Provider, b: Token)
    requires l != []
  {
    if p.kind.Existing? then b == p.kind.target else !FromRootMulti(l, p) && DepLeads(l, p, b)
  }

  ghost predicate SingleLeads(l: Lineage, p: Provider, b: Token)
    requires l != []
  {
    if p.kind.Existing? then b == p.kind.target else !FromRoot(l, p) && DepLeads(l, p, b)
  }

  /** What resolving t in l hands to the root itself is registered there. */
  ghost predicate RootHas(l: Lineage, t: Token)
    requires l != []
  {
    if IsMulti(l, t) then forall p <- Collect(l, t) :: RootHasMulti(l, p)
    else Lookup(l, t).Some? ==> RootHasSingle(l, Lookup(l, t).value)
  }

  ghost predicate RootHasMulti(l: Lineage, p: Provider)
    requires l != []
  {
    !p.kind.Existing? && FromRootMulti(l, p) ==> p in Collect(RootOf(l), p.provide)
  }

  ghost predicate RootHasSingle(l: Lineage, p: Provider)
    requires l != []
  {
    !p.kind.Existing? && FromRoot(l, p) ==> Lookup(RootOf(l), p.provide) == Some(p)
  }

  ghost predicate LeadingWalk(l: Lineage, w: seq<Token>)
    requires l != []
  {
    w != [] && forall i | 0 <= i < |w| - 1 :: Leads(l, w[i], w[i + 1])
  }

  /** The root has what is handed to it for every token that resolving t leads to. */
  ghost predicate Ready(l: Lineage, t: Token)
    requires l != []
  {
    forall w :: LeadingWalk(l, w) && w[0] == t ==> RootHas(l, w[|w| - 1])
  }

  ghost predicate DepsReady(l: Lineage, deps: seq<Dep>)
    requires l != []
  {
    forall d <- deps :: Skipped(l, d) || Ready(l, d.token)
  }

  ghost predicate ProviderReady(l: Lineage, p: Provider)
    requires l != []
  {
    p.kind.Value? || DepsReady(l, p.inject)
  }

  ghost predicate MultiReady(l: Lineage, p: Provider)
    requires l != []
  {
    if p.kind.Existing? then Ready(l, p.kind.target)
    else if FromRootMulti(l, p) then p in Collect(RootOf(l), p.provide)
    else ProviderReady(l, p)
  }

  ghost predicate SingleReady(l: Lineage, p: Provider)
    requires l != []
  {
    if p.kind.Existing? then Ready(l, p.kind.target)
    else if FromRoot(l, p) then Lookup(RootOf(l), p.provide) == Some(p)
    else ProviderReady(l, p)
  }

  ghost predicate TokenReady(l: Lineage, t: Token)
    requires l != []
  {
    if IsMulti(l, t) then forall p <- Collect(l, t) :: MultiReady(l, p)
    else Lookup(l, t).Some? ==> SingleReady(l, Lookup(l, t).value)
  }

  lemma ReadyHere(l: Lineage, t: Token)
    requires l != [] && Ready(l, t)
    ensures RootHas(l, t)
  {
    assert LeadingWalk(l, [t]);
  }

  lemma ReadyNext(l: Lineage, t: Token, b: Token)
    requires l != [] && Ready(l, t) && Leads(l, t, b)
    ensures Ready(l, b)
  {
    forall w | LeadingWalk(l, w) && w[0] == b ensures RootHas(l, w[|w| - 1]) {
      var longer := [t] + w;
      assert forall i | 0 < i < |longer| - 1 :: longer[i] == w[i - 1] && longer[i + 1] == w[i];
      assert LeadingWalk(l, longer);
    }
  }

  lemma ReadyIf(l: Lineage, t: Token)
    requires l != [] && RootHas(l, t) && forall b :: Leads(l, t, b) ==> Ready(l, b)
    ensures Ready(l, t)
  {
    forall w | LeadingWalk(l, w) && w[0] == t ensures RootHas(l, w[|w| - 1]) {
      if |w| > 1 {
        var rest := w[1..];
        forall i | 0 <= i < |rest| - 1 ensures Leads(l, rest[i], rest[i + 1]) { assert Leads(l, w[i + 1], w[i + 2]); }
        assert Leads(l, t, w[1]);
        assert LeadingWalk(l, rest) && rest[|rest| - 1] == w[|w| - 1];
      }
    }
  }

  /** Readiness unfolds along the resolution. */
  lemma ReadyUnfolds(l: Lineage, t: Token)
    requires l != []
    ensures Ready(l, t) <==> TokenReady(l, t)
  {
    if Ready(l, t) { ReadyGives(l, t); }
    if TokenReady(l, t) {
      forall b | Leads(l, t, b) ensures Ready(l, b) {}
      ReadyIf(l, t);
    }
  }

  lemma ReadyGives(l: Lineage, t: Token)
    requires l != [] && Ready(l, t)
    ensures TokenReady(l, t)
  {
    ReadyHere(l, t);
    forall b | Leads(l, t, b) ensures Ready(l, b) { ReadyNext(l, t, b); }
    if IsMulti(l, t) {
      forall p | p in Collect(l, t) ensures MultiReady(l, p) {
        assert RootHasMulti(l, p);
        assert forall b :: MultiLeads(l, p, b) ==> Leads(l, t, b);
        if p.kind.Existing? {
          assert MultiLeads(l, p, p.kind.target);
        } else if !FromRootMulti(l, p) && !p.kind.Value? {
          forall d | d in p.inject && !Skipped(l, d) ensures Ready(l, d.token) { assert MultiLeads(l, p, d.token); }
        }
      }
    } else if Lookup(l, t).Some? {
      var p := Lookup(l, t).value;
      if p.kind.Existing? {
        assert SingleLeads(l, p, p.kind.target);
      } else if !FromRoot(l, p) && !p.kind.Value? {
        forall d | d in p.inject && !Skipped(l, d) ensures Ready(l, d.token) { assert SingleLeads(l, p, d.token); }
      }
    }
  }

  lemma RootIsReady(l: Lineage, t: Token)
    requires |l| == 1
    ensures Ready(l, t)
  {
  }

  lemma RootProviderIsReady(l: Lineage, p: Provider)
    requires |l| == 1
    ensures ProviderReady(l, p) && MultiReady(l, p) && SingleReady(l, p)
  {
    forall t ensures Ready(l, t) { RootIsReady(l, t); }
  }

  ghost predicate NoSingletons(local: Local) {
    (forall t <- local.singles :: local.singles[t].scope != Singleton) &&
    (forall t <- local.multis :: forall p <- local.multis[t] :: p.scope != Singleton)
  }

  /** No scope strictly between the resolving one and the root has a singleton, so none was overridden with one. */
  ghost predicate NoSingletonsBetween(full: Lineage) {
    forall i | 0 < i < |full| - 1 :: NoSingletons(full[i])
  }

  lemma {:induction false} SingletonIsAtRoot(l: Lineage, p: Provider)
    requires l != [] && p.scope == Singleton && forall i | 0 <= i < |l| - 1 :: NoSingletons(l[i])
    ensures Lookup(l, p.provide) == Some(p) ==> Lookup(RootOf(l), p.provide) == Some(p)
    ensures p in Collect(l, p.provide) ==> p in Collect(RootOf(l), p.provide)
    decreases |l|
  {
    if |l| > 1 {
      assert RootOf(l[1..]) == RootOf(l);
      SingletonIsAtRoot(l[1..], p);
      assert NoSingletons(l[0]);
    } else {
      assert RootOf(l) == l;
    }
  }

  /** Without singletons in between, every token is ready. */
  lemma SingletonsComeFromRoot(full: Lineage, t: Token)
    requires full != [] && KeyedByToken(full) && NoSingletonsBetween(full)
    ensures Ready(full, t)
  {
    forall x ensures RootHas(full, x) {
      ProvidersKeyed(full, x);
      forall p: Provider | |full| > 1 && p.scope == Singleton
        ensures p.provide !in full[0].singles && Lookup(full, p.provide) == Some(p) ==>
                  Lookup(RootOf(full), p.provide) == Some(p)
        ensures p !in LocalMultis(full[0], p.provide) && p in Collect(full, p.provide) ==>
                  p in Collect(RootOf(full), p.provide)
      {
        assert RootOf(full[1..]) == RootOf(full);
        SingletonIsAtRoot(full[1..], p);
      }
    }
  }

  // ---------- Resolution keeps the caches coherent ----------

  lemma CachedCoherent(full: Lineage, l: Lineage, p: Provider, c: Caches)
    requires InTree(full, l) && Coherent(full, c) && Lookup(l, p.provide) == Some(p)
    requires CachedSingleton(l, p, c).Some? && SingleReady(l, p) && !p.kind.Existing?
    ensures ProviderYields(Home(l, p), p, CachedSingleton(l, p, c).value)
  {
    Levels(full, l);
    if |l| == 1 || FromRoot(l, p) {
      assert SingleEntry(RootOf(full), p.provide, c.singles[p.provide]);
    } else {
      assert RequestEntry(full, p.provide, c.requests[p.provide]);
    }
  }

  lemma StoreInRoot(full: Lineage, p: Provider, v: Instance, c: Caches)
    requires Coherent(full, c) && SingleEntry(RootOf(full), p.provide, v)
    ensures Coherent(full, c.(singles := c.singles[p.provide := v]))
  {
  }

  lemma StoreInScope(full: Lineage, p: Provider, v: Instance, c: Caches)
    requires |full| > 1 && Coherent(full, c) && RequestEntry(full, p.provide, v)
    ensures Coherent(full, c.(requests := c.requests[p.provide := v]))
  {
  }

  lemma StoreScoped(full: Lineage, l: Lineage, p: Provider, v: Instance, c: Caches)
    requires InTree(full, l) && Coherent(full, c) && Lookup(l, p.provide) == Some(p) && !FromRoot(l, p)
    requires ProviderYields(l, p, v)
    ensures |l| == 1 && p.scope == Singleton ==> Coherent(full, c.(singles := c.singles[p.provide := v]))
    ensures |l| > 1 ==> Coherent(full, c.(requests := c.requests[p.provide := v]))
  {
    Levels(full, l);
    if |l| == 1 && p.scope == Singleton { StoreInRoot(full, p, v, c); }
    if |l| > 1 { StoreInScope(full, p, v, c); }
  }

  lemma StoreMulti(full: Lineage, l: Lineage, p: Provider, v: Instance, c: Caches)
    requires InTree(full, l) && Coherent(full, c) && p in Collect(l, p.provide) && !FromRootMulti(l, p)
    requires ProviderYields(l, p, v)
    ensures |l| == 1 && p.scope == Singleton ==> Coherent(full, c.(multiSingles := c.multiSingles[p := v]))
    ensures |l| > 1 ==> Coherent(full, c.(multiRequests := c.multiRequests[p := v]))
  {
    Levels(full, l);
    if |l| == 1 && p.scope == Singleton { StoreMultiInRoot(full, p, v, c); }
    if |l| > 1 { StoreMultiInScope(full, p, v, c); }
  }

  lemma StoreMultiInRoot(full: Lineage, p: Provider, v: Instance, c: Caches)
    requires Coherent(full, c) && MultiSingleEntry(RootOf(full), p, v)
    ensures Coherent(full, c.(multiSingles := c.multiSingles[p := v]))
  {
  }

  lemma StoreMultiInScope(full: Lineage, p: Provider, v: Instance, c: Caches)
    requires |full| > 1 && Coherent(full, c) && MultiRequestEntry(full, p, v)
    ensures Coherent(full, c.(multiRequests := c.multiRequests[p := v]))
  {
  }

  lemma {:induction false} TokenCoherent(full: Lineage, l: Lineage, t: Token, chain: seq<Token>, c: Caches,
                                         throws: nat -> bool)
    requires InTree(full, l) && Coherent(full, c) && Ready(l, t)
    ensures var a := ResolveToken(l, t, chain, c, throws);
            Coherent(full, a.caches) && (a.result.Ok? ==> Yields(l, t, a.result.value))
    decreases Registered(l) - Elements(chain), 1
  {
    ProvidersAreRegistered(l, t);
    ProvidersKeyed(l, t);
    ReadyGives(l, t);
    var a := ResolveToken(l, t, chain, c, throws);
    var path := chain + [t];
    if t !in chain {
      if IsMulti(l, t) {
        ChainGrows(l, chain, t);
        MultisCoherent(full, l, Collect(l, t), path, c, throws);
        assert AliasTo(l, t, t, 0);
        assert a.result.Ok? ==> DirectYields(l, t, a.result.value);
      } else if Lookup(l, t).Some? {
        var p := Lookup(l, t).value;
        ChainGrows(l, chain, t);
        if p.kind.Existing? {
          TokenCoherent(full, l, p.kind.target, path, c, throws);
          if a.result.Ok? {
            var e: Token, n: nat :| AliasTo(l, p.kind.target, e, n) && DirectYields(l, e, a.result.value);
            assert AliasTo(l, t, e, n + 1);
          }
        } else {
          SingleCoherent(full, l, p, path, c, throws);
          assert AliasTo(l, t, t, 0);
          assert a.result.Ok? ==> DirectYields(l, t, a.result.value);
        }
      }
    }
  }

  lemma {:induction false} SingleCoherent(full: Lineage, l: Lineage, p: Provider, path: seq<Token>, c: Caches,
                                          throws: nat -> bool)
    requires InTree(full, l) && Coherent(full, c) && !p.kind.Existing? && Lookup(l, p.provide) == Some(p)
    requires SingleReady(l, p)
    ensures var a := if p.scope == Transient then Instantiate(l, p, path, c, throws)
                     else if CachedSingleton(l, p, c).Some? then Answer(Ok(CachedSingleton(l, p, c).value), c)
                     else ResolveScoped(l, p, path, c, throws);
            Coherent(full, a.caches) && (a.result.Ok? ==> ProviderYields(Home(l, p), p, a.result.value))
    decreases Registered(l) - Elements(path), 6
  {
    if p.scope == Transient {
      InstantiateCoherent(full, l, p, path, c, throws);
    } else if CachedSingleton(l, p, c).Some? {
      CachedCoherent(full, l, p, c);
    } else {
      ScopedCoherent(full, l, p, path, c, throws);
    }
  }

  lemma {:induction false} MultisCoherent(full: Lineage, l: Lineage, ps: seq<Provider>, chain: seq<Token>, c: Caches,
                                          throws: nat -> bool)
    requires InTree(full, l) && Coherent(full, c) && forall p <- ps :: p in Collect(l, p.provide) && MultiReady(l, p)
    ensures var a := ResolveMultis(l, ps, chain, c, throws);
            Coherent(full, a.caches) &&
            (a.result.Ok? ==> AllMultisYield(l, ps, a.result.value))
    decreases Registered(l) - Elements(chain), 6, |ps|
  {
    if ps != [] {
      assert ps[0] in ps && forall p <- ps[1..] :: p in ps;
      var first := ResolveMulti(l, ps[0], chain, c, throws);
      MultiCoherent(full, l, ps[0], chain, c, throws);
      MultisCoherent(full, l, ps[1..], chain, first.caches, throws);
      var rest := ResolveMultis(l, ps[1..], chain, first.caches, throws);
      if first.result.Ok? && rest.result.Ok? {
        OneMoreYields(l, ps, first.result.value, rest.result.value);
      }
    }
  }

  lemma OneMoreYields(l: Lineage, ps: seq<Provider>, v: Instance, vs: seq<Instance>)
    requires l != [] && ps != [] && MultiYields(l, ps[0], v) && AllMultisYield(l, ps[1..], vs)
    ensures AllMultisYield(l, ps, [v] + vs)
  {
  }

  lemma {:induction false} MultiCoherent(full: Lineage, l: Lineage, p: Provider, chain: seq<Token>, c: Caches,
                                         throws: nat -> bool)
    requires InTree(full, l) && Coherent(full, c) && p in Collect(l, p.provide) && MultiReady(l, p)
    ensures var a := ResolveMulti(l, p, chain, c, throws);
            Coherent(full, a.caches) && (a.result.Ok? ==> MultiYields(l, p, a.result.value))
    decreases Registered(l) - Elements(chain), 5, |l|
  {
    Levels(full, l);
    if p.kind.Existing? {
      TokenCoherent(full, l, p.kind.target, chain, c, throws);
    } else if p.scope == Transient {
      InstantiateCoherent(full, l, p, chain, c, throws);
    } else if FromRootMulti(l, p) {
      RootRegistered(l);
      RootProviderIsReady(RootOf(l), p);
      MultiCoherent(full, RootOf(l), p, chain, c, throws);
    } else {
      OwnMultiCoherent(full, l, p, chain, c, throws);
    }
  }

  lemma {:induction false} OwnMultiCoherent(full: Lineage, l: Lineage, p: Provider, chain: seq<Token>, c: Caches,
                                            throws: nat -> bool)
    requires InTree(full, l) && Coherent(full, c) && p in Collect(l, p.provide)
    requires !p.kind.Existing? && p.scope != Transient && !FromRootMulti(l, p) && ProviderReady(l, p)
    ensures var a := ResolveMulti(l, p, chain, c, throws);
            Coherent(full, a.caches) && (a.result.Ok? ==> MultiYields(l, p, a.result.value))
    decreases Registered(l) - Elements(chain), 5, 0
  {
    Levels(full, l);
    if |l| == 1 && p in c.multiSingles {
      assert MultiSingleEntry(RootOf(full), p, c.multiSingles[p]);
    } else if |l| > 1 && p in c.multiRequests {
      assert MultiRequestEntry(full, p, c.multiRequests[p]);
    } else {
      var a := Instantiate(l, p, chain, c, throws);
      InstantiateCoherent(full, l, p, chain, c, throws);
      if a.result.Ok? { StoreMulti(full, l, p, a.result.value, a.caches); }
    }
  }

  lemma {:induction false} ScopedCoherent(full: Lineage, l: Lineage, p: Provider, chain: seq<Token>, c: Caches,
                                          throws: nat -> bool)
    requires InTree(full, l) && Coherent(full, c) && !p.kind.Existing? && Lookup(l, p.provide) == Some(p)
    requires p.scope != Transient && SingleReady(l, p)
    ensures var a := ResolveScoped(l, p, chain, c, throws);
            Coherent(full, a.caches) && (a.result.Ok? ==> ProviderYields(Home(l, p), p, a.result.value))
    decreases Registered(l) - Elements(chain), 5, |l|
  {
    Levels(full, l);
    if FromRoot(l, p) {
      RootRegistered(l);
      RootProviderIsReady(RootOf(l), p);
      ScopedCoherent(full, RootOf(l), p, chain, c, throws);
    } else {
      OwnScopedCoherent(full, l, p, chain, c, throws);
    }
  }

  lemma {:induction false} OwnScopedCoherent(full: Lineage, l: Lineage, p: Provider, chain: seq<Token>, c: Caches,
                                             throws: nat -> bool)
    requires InTree(full, l) && Coherent(full, c) && !p.kind.Existing? && Lookup(l, p.provide) == Some(p)
    requires p.scope != Transient && !FromRoot(l, p) && ProviderReady(l, p)
    ensures var a := ResolveScoped(l, p, chain, c, throws);
            Coherent(full, a.caches) && (a.result.Ok? ==> ProviderYields(l, p, a.result.value))
    decreases Registered(l) - Elements(chain), 5, 0
  {
    Levels(full, l);
    if |l| == 1 && p.provide in c.singles {
      assert SingleEntry(RootOf(full), p.provide, c.singles[p.provide]);
    } else if |l| > 1 && p.provide in c.requests {
      assert RequestEntry(full, p.provide, c.requests[p.provide]);
    } else {
      var a := Instantiate(l, p, chain, c, throws);
      InstantiateCoherent(full, l, p, chain, c, throws);
      if a.result.Ok? { StoreScoped(full, l, p, a.result.value, a.caches); }
    }
  }

  lemma {:induction false} InstantiateCoherent(full: Lineage, l: Lineage, p: Provider, chain: seq<Token>, c: Caches,
                                               throws: nat -> bool)
    requires InTree(full, l) && Coherent(full, c) && !p.kind.Existing? && ProviderReady(l, p)
    ensures var a := Instantiate(l, p, chain, c, throws);
            Coherent(full, a.caches) && (a.result.Ok? ==> ProviderYields(l, p, a.result.value))
    decreases Registered(l) - Elements(chain), 4
  {
    if !p.kind.Value? { DepsCoherent(full, l, p.inject, chain, c, throws); }
  }

  lemma {:induction false} DepsCoherent(full: Lineage, l: Lineage, deps: seq<Dep>, chain: seq<Token>, c: Caches,
                                        throws: nat -> bool)
    requires InTree(full, l) && Coherent(full, c) && DepsReady(l, deps)
    ensures var a := ResolveDeps(l, deps, chain, c, throws);
            Coherent(full, a.caches) &&
            (a.result.Ok? ==> AllDepsYield(l, deps, a.result.value))
    decreases Registered(l) - Elements(chain), 3, |deps|
  {
    if deps != [] {
      assert deps[0] in deps && forall d <- deps[1..] :: d in deps;
      if Skipped(l, deps[0]) {
        DepsCoherent(full, l, deps[1..], chain, c, throws);
      } else {
        TokenCoherent(full, l, deps[0].token, chain, c, throws);
        DepsCoherent(full, l, deps[1..], chain, ResolveToken(l, deps[0].token, chain, c, throws).caches, throws);
      }
    }
  }
}
