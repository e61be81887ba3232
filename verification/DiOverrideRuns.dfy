/**
 Whole runs of a container: registrations, resolutions in the root and in request scopes, overrides, and scopes that
 come and go.  Registrations come before the first instance; no resolution is in flight during an override.
 */
module DiOverrideRuns {
  import opened Options
  import opened DiGraph
  import opened DiContainer
  import opened DiContainerTree
  import opened DiResolve
  import opened DiResolveCaches
  import opened DiCoherence
  import opened DiOverride

  datatype ScopeCaches = ScopeCaches(requests: map<Token, Instance>, multiRequests: map<Provider, Instance>)

  /** The root's registrations and caches, the caches of its request scopes, and the number of constructions so far. */
  datatype World = World(
    root: Local,
    singles: map<Token, Instance>,
    multiSingles: map<Provider, Instance>,
    scopes: map<ScopeId, ScopeCaches>,
    built: nat)

  const Empty := World(NoRegistrations, map[], map[], map[], 0)

  datatype Step =
    | Register(provider: Provider)
    | ResolveInRoot(token: Token)
    | ResolveInScope(scope: ScopeId, token: Token)
    | Override(overridden: Token, providers: seq<Provider>)
    | CreateScope(created: ScopeId)
    | DisposeScope(disposed: ScopeId)

  /** What provider normalization guarantees. */
  predicate Normalized(p: Provider) {
    p.kind.Value? ==> p.inject == []
  }

  predicate AcceptedOverride(t: Token, providers: seq<Provider>) {
    && providers != [] && (forall p <- providers :: p.provide == t && Normalized(p))
    && ((forall p <- providers :: p.multi) || (|providers| == 1 && !providers[0].multi))
  }

  predicate NothingBuilt(w: World) {
    w.singles == map[] && w.multiSingles == map[] &&
    forall s <- w.scopes :: w.scopes[s] == ScopeCaches(map[], map[])
  }

  predicate Enabled(w: World, step: Step) {
    match step
    case Register(p) => NothingBuilt(w) && Normalized(p) && RegistrationConflict([w.root], p).None?
    case ResolveInRoot(_) => true
    case ResolveInScope(s, _) => s in w.scopes
    case Override(t, ps) => AcceptedOverride(t, ps)
    case CreateScope(s) => s !in w.scopes
    case DisposeScope(s) => s in w.scopes
  }

  function KeepTokens(l: Lineage, cache: map<Token, Instance>, t: Token): map<Token, Instance> {
    map c | c in cache && !StaleToken(l, c, t) :: cache[c]
  }

  function KeepProviders(l: Lineage, cache: map<Provider, Instance>, t: Token): map<Provider, Instance> {
    map p | p in cache && !StaleProvider(l, p, t) :: cache[p]
  }

  /** The scan runs on the graph as it was before the override, each scope with its own lineage. */
  function AfterOverride(w: World, t: Token, providers: seq<Provider>): World
    requires providers != []
  {
    World(WithOverride(w.root, t, providers),
          KeepTokens([w.root], w.singles, t),
          KeepProviders([w.root], w.multiSingles, t),
          map s | s in w.scopes ::
            ScopeCaches(KeepTokens(RequestScopeOf(w.root), w.scopes[s].requests, t),
                        KeepProviders(RequestScopeOf(w.root), w.scopes[s].multiRequests, t)),
          w.built)
  }

  function CachesOfRoot(w: World): Caches {
    Caches(w.singles, w.multiSingles, map[], map[], w.built)
  }

  function CachesOfScope(w: World, s: ScopeId): Caches
    requires s in w.scopes
  {
    Caches(w.singles, w.multiSingles, w.scopes[s].requests, w.scopes[s].multiRequests, w.built)
  }

  function AfterRootResolve(w: World, c: Caches): World {
    w.(singles := c.singles, multiSingles := c.multiSingles, built := c.built)
  }

  function AfterScopeResolve(w: World, s: ScopeId, c: Caches): World {
    w.(singles := c.singles, multiSingles := c.multiSingles, built := c.built,
       scopes := w.scopes[s := ScopeCaches(c.requests, c.multiRequests)])
  }

  function Next(w: World, step: Step, throws: nat -> bool): World
    requires Enabled(w, step)
  {
    match step
    case Register(p) => w.(root := WithProvider(w.root, p))
    case ResolveInRoot(t) =>
      AfterRootResolve(w, ResolveToken([w.root], t, [], CachesOfRoot(w), throws).caches)
    case ResolveInScope(s, t) =>
      AfterScopeResolve(w, s, ResolveToken(RequestScopeOf(w.root), t, [], CachesOfScope(w, s), throws).caches)
    case Override(t, ps) => AfterOverride(w, t, ps)
    case CreateScope(s) => w.(scopes := w.scopes[s := ScopeCaches(map[], map[])])
    case DisposeScope(s) => w.(scopes := w.scopes - {s})
  }

  predicate ValidRun(w: World, steps: seq<Step>, throws: nat -> bool)
    decreases |steps|
  {
    steps == [] || (Enabled(w, steps[0]) && ValidRun(Next(w, steps[0], throws), steps[1..], throws))
  }

  function After(w: World, steps: seq<Step>, throws: nat -> bool): World
    requires ValidRun(w, steps, throws)
    decreases |steps|
  {
    if steps == [] then w else After(Next(w, steps[0], throws), steps[1..], throws)
  }

  // ---------- Coherence ----------

  ghost predicate ScopesCoherent(l: Lineage, scopes: map<ScopeId, ScopeCaches>)
    requires l != []
  {
    forall s <- scopes ::
      (forall t <- scopes[s].requests :: RequestEntry(l, t, scopes[s].requests[t])) &&
      (forall p <- scopes[s].multiRequests :: MultiRequestEntry(l, p, scopes[s].multiRequests[p]))
  }

  /** Every cached instance was built by the provider the present graph gives, through its whole dependency tree. */
  ghost predicate CoherentWorld(w: World) {
    && Normal(w.root)
    && (forall t <- w.singles :: SingleEntry([w.root], t, w.singles[t]))
    && (forall p <- w.multiSingles :: MultiSingleEntry([w.root], p, w.multiSingles[p]))
    && ScopesCoherent(RequestScopeOf(w.root), w.scopes)
  }

  lemma RegisterCoherent(w: World, p: Provider)
    requires CoherentWorld(w) && Enabled(w, Register(p))
    ensures CoherentWorld(w.(root := WithProvider(w.root, p)))
  {
    assert [w.root][1..] == [];
    assert Normal(WithProvider(w.root, p));
  }

  lemma RootResolveCoherent(w: World, t: Token, throws: nat -> bool)
    requires CoherentWorld(w)
    ensures CoherentWorld(Next(w, ResolveInRoot(t), throws))
  {
    assert RootOf([w.root]) == [w.root];
    RootIsReady([w.root], t);
    TokenCoherent([w.root], [w.root], t, [], CachesOfRoot(w), throws);
  }

  lemma ScopeResolveCoherent(w: World, s: ScopeId, t: Token, throws: nat -> bool)
    requires CoherentWorld(w) && s in w.scopes
    ensures CoherentWorld(Next(w, ResolveInScope(s, t), throws))
  {
    var l := RequestScopeOf(w.root);
    assert RootOf(l) == [w.root];
    assert KeyedByToken(l) by {
      assert KeyedByToken([w.root]);
      assert l[1] == [w.root][0];
    }
    SingletonsComeFromRoot(l, t);
    TokenCoherent(l, l, t, [], CachesOfScope(w, s), throws);
  }

  lemma OverrideKeepsNormal(root: Local, t: Token, ps: seq<Provider>)
    requires Normal(root) && AcceptedOverride(t, ps)
    ensures Normal(WithOverride(root, t, ps))
  {
    assert KeyedByToken([root]);
    assert [root][0] == root;
  }

  lemma KeptSingle(root: Local, t: Token, ps: seq<Provider>, c: Token, v: Instance)
    requires Normal(root) && ps != [] && SingleEntry([root], c, v) && !StaleToken([root], c, t)
    ensures SingleEntry([WithOverride(root, t, ps)], c, v)
  {
    var root' := WithOverride(root, t, ps);
    OverrideChangesOneToken(root, t, ps);
    StaleIsDependency([root], c, t);
    var p := Lookup([root], c).value;
    assert p in ProvidersOf([root], c);
    IndependentTargets([root], c, t, p);
    ProviderSurvives(root, root', t, [root], [root'], p, v);
  }

  lemma KeptRequest(root: Local, t: Token, ps: seq<Provider>, c: Token, v: Instance)
    requires Normal(root) && ps != [] && RequestEntry(RequestScopeOf(root), c, v)
    requires !StaleToken(RequestScopeOf(root), c, t)
    ensures RequestEntry(RequestScopeOf(WithOverride(root, t, ps)), c, v)
  {
    var root' := WithOverride(root, t, ps);
    var l, l' := RequestScopeOf(root), RequestScopeOf(root');
    OverrideChangesOneToken(root, t, ps);
    ScopeKeyed(root);
    StaleIsDependency(l, c, t);
    var p := Lookup(l, c).value;
    assert p in ProvidersOf(l, c);
    IndependentTargets(l, c, t, p);
    ProviderSurvives(root, root', t, l, l', p, v);
  }

  lemma KeptMultiSingle(root: Local, t: Token, ps: seq<Provider>, p: Provider, v: Instance)
    requires Normal(root) && ps != [] && MultiSingleEntry([root], p, v) && !StaleProvider([root], p, t)
    ensures MultiSingleEntry([WithOverride(root, t, ps)], p, v)
  {
    OverrideChangesOneToken(root, t, ps);
    KeptMultiIsIndependent(root, [root], p, v, t);
    ProviderSurvives(root, WithOverride(root, t, ps), t, [root], [WithOverride(root, t, ps)], p, v);
  }

  lemma KeptMultiRequest(root: Local, t: Token, ps: seq<Provider>, p: Provider, v: Instance)
    requires Normal(root) && ps != [] && MultiRequestEntry(RequestScopeOf(root), p, v)
    requires !StaleProvider(RequestScopeOf(root), p, t)
    ensures MultiRequestEntry(RequestScopeOf(WithOverride(root, t, ps)), p, v)
  {
    var root' := WithOverride(root, t, ps);
    var l, l' := RequestScopeOf(root), RequestScopeOf(root');
    OverrideChangesOneToken(root, t, ps);
    KeptMultiIsIndependent(root, l, p, v, t);
    ProviderSurvives(root, root', t, l, l', p, v);
  }

  lemma OverrideCoherent(w: World, t: Token, ps: seq<Provider>)
    requires CoherentWorld(w) && AcceptedOverride(t, ps)
    ensures CoherentWorld(AfterOverride(w, t, ps))
  {
    var w' := AfterOverride(w, t, ps);
    var l := RequestScopeOf(w.root);
    OverrideKeepsNormal(w.root, t, ps);
    forall c | c in w'.singles ensures SingleEntry([w'.root], c, w'.singles[c]) {
      KeptSingle(w.root, t, ps, c, w.singles[c]);
    }
    forall p | p in w'.multiSingles ensures MultiSingleEntry([w'.root], p, w'.multiSingles[p]) {
      KeptMultiSingle(w.root, t, ps, p, w.multiSingles[p]);
    }
    forall s, c | s in w'.scopes && c in w'.scopes[s].requests
      ensures RequestEntry(RequestScopeOf(w'.root), c, w'.scopes[s].requests[c])
    {
      assert RequestEntry(l, c, w.scopes[s].requests[c]);
      KeptRequest(w.root, t, ps, c, w.scopes[s].requests[c]);
    }
    forall s, p | s in w'.scopes && p in w'.scopes[s].multiRequests
      ensures MultiRequestEntry(RequestScopeOf(w'.root), p, w'.scopes[s].multiRequests[p])
    {
      assert MultiRequestEntry(l, p, w.scopes[s].multiRequests[p]);
      KeptMultiRequest(w.root, t, ps, p, w.scopes[s].multiRequests[p]);
    }
  }

  lemma StepCoherent(w: World, step: Step, throws: nat -> bool)
    requires CoherentWorld(w) && Enabled(w, step)
    ensures CoherentWorld(Next(w, step, throws))
  {
    match step
    case Register(p) => RegisterCoherent(w, p);
    case ResolveInRoot(t) => RootResolveCoherent(w, t, throws);
    case ResolveInScope(s, t) => ScopeResolveCoherent(w, s, t, throws);
    case Override(t, ps) => OverrideCoherent(w, t, ps);
    case CreateScope(_) =>
    case DisposeScope(_) =>
  }

  lemma {:induction false} RunCoherent(w: World, steps: seq<Step>, throws: nat -> bool)
    requires CoherentWorld(w) && ValidRun(w, steps, throws)
    ensures CoherentWorld(After(w, steps, throws))
    decreases |steps|
  {
    if steps != [] {
      StepCoherent(w, steps[0], throws);
      RunCoherent(Next(w, steps[0], throws), steps[1..], throws);
    }
  }

  /**
   Override coherence: after any run from an empty container, every instance in the root's or a request scope's caches
   was built by the provider the current graph gives for its token, recursively through its dependencies.
   */
  lemma CachesFollowTheGraph(steps: seq<Step>, throws: nat -> bool)
    requires ValidRun(Empty, steps, throws)
    ensures CoherentWorld(After(Empty, steps, throws))
  {
    RunCoherent(Empty, steps, throws);
  }

  /** What a resolution returns is what the current graph stands for at that moment, whatever was overridden before. */
  lemma ResolutionFollowsTheGraph(steps: seq<Step>, s: ScopeId, t: Token, throws: nat -> bool)
    requires ValidRun(Empty, steps, throws) && s in After(Empty, steps, throws).scopes
    ensures var w := After(Empty, steps, throws);
            var a := ResolveToken(RequestScopeOf(w.root), t, [], CachesOfScope(w, s), throws);
            a.result.Ok? ==> Yields(RequestScopeOf(w.root), t, a.result.value)
  {
    var w := After(Empty, steps, throws);
    var l := RequestScopeOf(w.root);
    CachesFollowTheGraph(steps, throws);
    assert RootOf(l) == [w.root];
    ScopeKeyed(w.root);
    SingletonsComeFromRoot(l, t);
    TokenCoherent(l, l, t, [], CachesOfScope(w, s), throws);
  }

  // ---------- An override drops exactly what depends on the token ----------

  lemma StaleProviderIsDependent(l: Lineage, p: Provider, t: Token)
    requires StaleProvider(l, p, t) && p.provide != t
    ensures !Independent(l, p, t)
  {
    var u :| u in RawTargets(p) && TokenReaches(l, u, t, {p.provide});
    var w := ReachFindsWalk(l, u, t, {p.provide});
    assert DependsOn(l, u, t);
  }

  /** The cache after the override holds the entries whose tokens do not lead to t, with the instances they had. */
  ghost predicate TokensKeptExactly(l: Lineage, before: map<Token, Instance>, after: map<Token, Instance>, t: Token) {
    && (forall c :: c in after <==> c in before && !DependsOn(l, c, t))
    && (forall c <- after :: after[c] == before[c])
  }

  ghost predicate ProvidersKeptExactly(l: Lineage, before: map<Provider, Instance>, after: map<Provider, Instance>,
                                       t: Token) {
    && (forall p :: p in after <==> p in before && p.provide != t && Independent(l, p, t))
    && (forall p <- after :: after[p] == before[p])
  }

  lemma TokensAreKept(l: Lineage, before: map<Token, Instance>, t: Token)
    requires KeyedByToken(l)
    ensures TokensKeptExactly(l, before, KeepTokens(l, before, t), t)
  {
    forall c ensures StaleToken(l, c, t) <==> DependsOn(l, c, t) { StaleIsDependency(l, c, t); }
  }

  lemma ProvidersAreKept(root: Local, l: Lineage, before: map<Provider, Instance>, t: Token)
    requires Normal(root) && OfTree(root, l)
    requires forall p <- before :: p in Collect(l, p.provide) && ProviderYields(l, p, before[p])
    ensures ProvidersKeptExactly(l, before, KeepProviders(l, before, t), t)
  {
    forall p | p in before ensures StaleProvider(l, p, t) <==> p.provide == t || !Independent(l, p, t) {
      if StaleProvider(l, p, t) {
        if p.provide != t { StaleProviderIsDependent(l, p, t); }
      } else {
        KeptMultiIsIndependent(root, l, p, before[p], t);
      }
    }
  }

  /** Each override removes exactly the entries that lead to the overridden token and leaves the others untouched. */
  lemma OverrideIsExact(steps: seq<Step>, t: Token, ps: seq<Provider>, throws: nat -> bool)
    requires ValidRun(Empty, steps, throws) && AcceptedOverride(t, ps)
    ensures var w := After(Empty, steps, throws);
            var w' := AfterOverride(w, t, ps);
            && TokensKeptExactly([w.root], w.singles, w'.singles, t)
            && ProvidersKeptExactly([w.root], w.multiSingles, w'.multiSingles, t)
            && w'.scopes.Keys == w.scopes.Keys
            && forall s <- w.scopes ::
                 TokensKeptExactly(RequestScopeOf(w.root), w.scopes[s].requests, w'.scopes[s].requests, t) &&
                 ProvidersKeptExactly(RequestScopeOf(w.root), w.scopes[s].multiRequests, w'.scopes[s].multiRequests, t)
  {
    var w := After(Empty, steps, throws);
    var l := RequestScopeOf(w.root);
    CachesFollowTheGraph(steps, throws);
    ScopeKeyed(w.root);
    TokensAreKept([w.root], w.singles, t);
    ProvidersAreKept(w.root, [w.root], w.multiSingles, t);
    forall s | s in w.scopes
      ensures TokensKeptExactly(l, w.scopes[s].requests, AfterOverride(w, t, ps).scopes[s].requests, t)
      ensures ProvidersKeptExactly(l, w.scopes[s].multiRequests, AfterOverride(w, t, ps).scopes[s].multiRequests, t)
    {
      TokensAreKept(l, w.scopes[s].requests, t);
      ProvidersAreKept(w.root, l, w.scopes[s].multiRequests, t);
    }
  }

  // ---------- A root singleton over a run ----------

  /** No override of the run concerns something that t leads to in the graph at that time. */
  ghost predicate Unconcerned(w: World, steps: seq<Step>, t: Token, throws: nat -> bool)
    requires ValidRun(w, steps, throws)
    decreases |steps|
  {
    steps == [] ||
    ((steps[0].Override? ==> !DependsOn([w.root], t, steps[0].overridden)) &&
     Unconcerned(Next(w, steps[0], throws), steps[1..], t, throws))
  }

  lemma EntryIsKept(w: World, step: Step, t: Token, throws: nat -> bool)
    requires CoherentWorld(w) && Enabled(w, step) && t in w.singles
    requires step.Override? ==> !DependsOn([w.root], t, step.overridden)
    ensures var w' := Next(w, step, throws); t in w'.singles && w'.singles[t] == w.singles[t]
  {
    match step
    case ResolveInRoot(u) => ResolveTokenSound([w.root], u, [], CachesOfRoot(w), throws);
    case ResolveInScope(s, u) =>
      ScopeKeyed(w.root);
      ResolveTokenSound(RequestScopeOf(w.root), u, [], CachesOfScope(w, s), throws);
    case Override(o, _) => StaleIsDependency([w.root], t, o);
    case _ =>
  }

  /** A singleton the root has built stays the shared instance through any run whose overrides do not concern it. */
  lemma {:induction false} SingletonIsKept(w: World, steps: seq<Step>, t: Token, throws: nat -> bool)
    requires CoherentWorld(w) && ValidRun(w, steps, throws) && t in w.singles && Unconcerned(w, steps, t, throws)
    ensures var w' := After(w, steps, throws); t in w'.singles && w'.singles[t] == w.singles[t]
    decreases |steps|
  {
    if steps != [] {
      EntryIsKept(w, steps[0], t, throws);
      StepCoherent(w, steps[0], throws);
      SingletonIsKept(Next(w, steps[0], throws), steps[1..], t, throws);
    }
  }

  // ---------- An override in a request scope, seen from a scope below it ----------

  const NoCaches := Caches(map[], map[], map[], map[], 0)

  /**
   An override in a request scope is meant to stay out of the root's cache, and does for that scope itself.  Resolved
   from a scope created below it, the overriding singleton gets there, and the root returns it from then on.
   */
  lemma OverrideReachesRoot(t: Token, p: Provider, q: Provider, throws: nat -> bool)
    requires p.provide == q.provide == t && p != q && p.scope == q.scope == Singleton && p.kind == q.kind == Value
    requires !p.multi && !q.multi && Normalized(p) && Normalized(q)
    ensures RegistrationConflict([NoRegistrations], p).None? && AcceptedOverride(t, [q])
    ensures var root, scope := WithProvider(NoRegistrations, p), WithOverride(NoRegistrations, t, [q]);
            var a := ResolveToken([NoRegistrations, scope, root], t, [], NoCaches, throws);
            && ResolveToken([scope, root], t, [], NoCaches, throws).caches.singles == map[]
            && a.result == Ok(Given(q)) && ResolveToken([root], t, [], a.caches, throws).result == Ok(Given(q))
  {
    var root, scope := WithProvider(NoRegistrations, p), WithOverride(NoRegistrations, t, [q]);
    var nested, below := [NoRegistrations, scope, root], [scope, root];
    assert [NoRegistrations][1..] == [] && !HasMulti([NoRegistrations], t);
    assert nested[1..] == below && below[1..] == [root] && [root][1..] == [];
    assert Collect(below, t) == [] && Collect(nested, t) == [];
    assert RootOf(nested) == [root] && Lookup(nested, t) == Some(q);
    assert FromRoot(nested, q) && CachedSingleton(nested, q, NoCaches).None?;
    RootRegistered(nested);
    assert [] + [t] == [t];
    var a := Answer(Ok(Given(q)), NoCaches);
    assert Instantiate([root], q, [t], NoCaches, throws) == a;
    assert ResolveScoped([root], q, [t], NoCaches, throws) ==
           Answer(a.result, NoCaches.(singles := map[t := Given(q)]));
    assert ResolveToken(nested, t, [], NoCaches, throws) == ResolveScoped([root], q, [t], NoCaches, throws);
    assert Instantiate(below, q, [t], NoCaches, throws) == a;
  }

  /** If the root has resolved the token before, the scope below gets the root's instance and the override is missed. */
  lemma OverrideIsMissed(t: Token, p: Provider, q: Provider, throws: nat -> bool)
    requires p.provide == q.provide == t && p != q && p.scope == q.scope == Singleton && p.kind == q.kind == Value
    requires !p.multi && !q.multi && Normalized(p) && Normalized(q)
    ensures var root, scope := WithProvider(NoRegistrations, p), WithOverride(NoRegistrations, t, [q]);
            var first := ResolveToken([root], t, [], NoCaches, throws);
            && first.result == Ok(Given(p))
            && ResolveToken([scope, root], t, [], first.caches, throws).result == Ok(Given(q))
            && ResolveToken([NoRegistrations, scope, root], t, [], first.caches, throws) == first
  {
    var root, scope := WithProvider(NoRegistrations, p), WithOverride(NoRegistrations, t, [q]);
    var nested, below := [NoRegistrations, scope, root], [scope, root];
    assert nested[1..] == below && below[1..] == [root] && [root][1..] == [];
    assert Collect(below, t) == [] && Collect(nested, t) == [];
    assert RootOf(nested) == [root] && Lookup(nested, t) == Some(q) && FromRoot(nested, q);
    assert [] + [t] == [t];
    var c := NoCaches.(singles := map[t := Given(p)]);
    assert Instantiate([root], p, [t], NoCaches, throws) == Answer(Ok(Given(p)), NoCaches);
    assert ResolveToken([root], t, [], NoCaches, throws) == Answer(Ok(Given(p)), c);
    assert Instantiate(below, q, [t], c, throws) == Answer(Ok(Given(q)), c);
    assert CachedSingleton(nested, q, c) == Some(Given(p));
  }
}
