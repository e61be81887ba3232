/** The container operations that read and write plan caches, as methods on the table of one container tree. */
module DiContainerTree {
  import opened Options
  import opened DiGraph
  import opened DiRevision
  import opened DiContainer

  datatype RegisterError = AlreadyDisposed | ScopeMismatch(token: Token) | DuplicateProvider(token: Token)

  /** The set of tokens on the current search path, shared by the whole search. */
  class TokenSet {
    var items: set<Token>

    constructor ()
      ensures items == {}
    {
      items := {};
    }
  }

  predicate HasSingle(l: Lineage, t: Token) { Lookup(l, t).Some? }

  /** Why a registration is refused, if it is. */
  function RegistrationConflict(l: Lineage, p: Provider): Option<RegisterError>
    requires l != []
  {
    if |l| > 1 && p.scope == Singleton then Some(ScopeMismatch(p.provide))
    else if p.multi then
      if HasSingle(l, p.provide) then Some(DuplicateProvider(p.provide)) else None
    else if p.provide in l[0].singles || HasMulti(l, p.provide) then Some(DuplicateProvider(p.provide))
    else None
  }

  function WithProvider(local: Local, p: Provider): Local {
    if p.multi then local.(multis := local.multis[p.provide := LocalMultis(local, p.provide) + [p]])
    else local.(singles := local.singles[p.provide := p])
  }

  /** An override replaces everything the scope had for the token and cuts off inherited multi providers. */
  function WithOverride(local: Local, t: Token, providers: seq<Provider>): Local
    requires providers != []
  {
    Local(if providers[0].multi then local.singles - {t} else local.singles[t := providers[0]],
          if providers[0].multi then local.multis[t := providers] else local.multis - {t},
          local.overridden + {t})
  }

  lemma ParentLineage(tree: Tree, c: ScopeId)
    requires WellFormed(tree) && c in tree
    ensures LineageOf(tree, c)[0] == tree[c].local
    ensures LineageOf(tree, c)[1..] == if tree[c].parent.None? then [] else LineageOf(tree, tree[c].parent.value)
  {
  }

  /** The container or one of its ancestors has been disposed. */
  predicate DisposedInHierarchy(tree: Tree, disposed: set<ScopeId>, c: ScopeId)
    requires WellFormed(tree) && c in tree
    decreases c
  {
    c in disposed || (tree[c].parent.Some? && DisposedInHierarchy(tree, disposed, tree[c].parent.value))
  }

  /** Why an override of one token is refused, if it is: it replaces by multi providers or by a single one. */
  function OverrideConflict(t: Token, providers: seq<Provider>): Option<RegisterError> {
    var someMulti := exists p <- providers :: p.multi;
    var mixed := someMulti && exists p <- providers :: !p.multi;
    if mixed || (!someMulti && |providers| > 1) then Some(DuplicateProvider(t)) else None
  }

  class ContainerTree {
    var scopes: Tree
    var disposed: set<ScopeId>

    constructor ()
      ensures TreeOk(scopes) && scopes.Keys == {0} && LineageOf(scopes, 0) == [NoRegistrations] && disposed == {}
    {
      scopes, disposed := AddScope(map[], 0, None), {};
      AddScopeKeeps(map[], 0, None);
    }

    method IsDisposedInHierarchy(c: ScopeId) returns (r: bool)
      requires TreeOk(scopes) && c in scopes
      ensures r == DisposedInHierarchy(scopes, disposed, c)
    {
      if c in disposed {
        return true;
      }
      if scopes[c].parent.None? {
        return false;
      }
      r := IsDisposedInHierarchy(scopes[c].parent.value);
    }

    /** From here on the container and the scopes below it refuse to change or grow. */
    method BeginDispose(c: ScopeId)
      requires TreeOk(scopes) && c in scopes
      modifies this
      ensures TreeOk(scopes) && disposed == old(disposed) + {c}
      ensures scopes == Advance(old(scopes), c, old(scopes)[c].local)
    {
      disposed := disposed + {c};
      AdvanceKeeps(scopes, c, scopes[c].local);
      scopes := Advance(scopes, c, scopes[c].local);
    }

    /** The new scope object is identified by c. */
    method CreateRequestScope(parent: ScopeId, c: ScopeId) returns (error: Option<RegisterError>)
      requires TreeOk(scopes) && parent in scopes && parent < c && c !in scopes
      modifies this`scopes
      ensures TreeOk(scopes)
      ensures error == if DisposedInHierarchy(old(scopes), disposed, parent) then Some(AlreadyDisposed) else None
      ensures scopes == if error.Some? then old(scopes) else AddScope(old(scopes), c, Some(parent))
    {
      var gone := IsDisposedInHierarchy(parent);
      if gone {
        return Some(AlreadyDisposed);
      }
      error := None;
      AddScopeKeeps(scopes, c, Some(parent));
      scopes := AddScope(scopes, c, Some(parent));
    }

    method ReadCachedPlan(c: ScopeId, key: PlanKey) returns (r: Option<PlanValue>)
      requires TreeOk(scopes) && c in scopes
      ensures r.Some? <==> key in scopes[c].plans
                           && scopes[c].plans[key].lineageRevision == RevisionString(RevisionsOf(scopes, c))
      ensures r.Some? ==> r.value == Compute(key.kind, LineageOf(scopes, c), key.token)
    {
      if key !in scopes[c].plans || scopes[c].plans[key].lineageRevision != RevisionString(RevisionsOf(scopes, c)) {
        return None;
      }
      CurrentPlanIsRight(scopes, c, key);
      r := Some(scopes[c].plans[key].value);
    }

    method WritePlanCache(c: ScopeId, key: PlanKey, value: PlanValue)
      requires TreeOk(scopes) && c in scopes && value == Compute(key.kind, LineageOf(scopes, c), key.token)
      modifies this`scopes
      ensures TreeOk(scopes) && SameRegistrations(old(scopes), scopes)
      ensures scopes == WritePlan(old(scopes), c, key, value)
    {
      WritePlanKeeps(scopes, c, key, value);
      scopes := WritePlan(scopes, c, key, value);
    }

    method LookupProvider(c: ScopeId, t: Token) returns (r: Option<Provider>)
      requires TreeOk(scopes) && c in scopes
      modifies this`scopes
      ensures TreeOk(scopes) && SameRegistrations(old(scopes), scopes)
      ensures r == Lookup(old(LineageOf(scopes, c)), t)
      decreases c
    {
      var key := PlanKey(LookupPlan, t);
      var cached := ReadCachedPlan(c, key);
      if cached.Some? {
        return cached.value.provider;
      }
      ghost var l := LineageOf(scopes, c);
      ParentLineage(scopes, c);
      assert l != [];
      if t in scopes[c].local.singles {
        r := Some(scopes[c].local.singles[t]);
      } else if scopes[c].parent.Some? {
        r := LookupProvider(scopes[c].parent.value, t);
      } else {
        r := None;
      }
      assert r == Lookup(l, t);
      SameRegistrationsSameLineage(old(scopes), scopes, c);
      WritePlanCache(c, key, AProvider(r));
    }

    method CollectMultiProviders(c: ScopeId, t: Token) returns (r: seq<Provider>)
      requires TreeOk(scopes) && c in scopes
      modifies this`scopes
      ensures TreeOk(scopes) && SameRegistrations(old(scopes), scopes)
      ensures r == Collect(old(LineageOf(scopes, c)), t)
      decreases c
    {
      var key := PlanKey(MultiPlan, t);
      var cached := ReadCachedPlan(c, key);
      if cached.Some? {
        return cached.value.providers;
      }
      ghost var l := LineageOf(scopes, c);
      ParentLineage(scopes, c);
      assert l != [];
      var own := LocalMultis(scopes[c].local, t);
      if t in scopes[c].local.overridden {
        r := own;
      } else if scopes[c].parent.Some? {
        var fromParent := CollectMultiProviders(scopes[c].parent.value, t);
        r := fromParent + own;
      } else {
        r := [] + own;
      }
      assert r == Collect(l, t);
      SameRegistrationsSameLineage(old(scopes), scopes, c);
      WritePlanCache(c, key, Providers(r));
    }

    method HasProvider(c: ScopeId, t: Token) returns (r: bool)
      requires TreeOk(scopes) && c in scopes
      modifies this`scopes
      ensures TreeOk(scopes) && SameRegistrations(old(scopes), scopes)
      ensures r == Has(old(LineageOf(scopes, c)), t)
    {
      var single := LookupProvider(c, t);
      SameRegistrationsSameLineage(old(scopes), scopes, c);
      r := single.Some? || HasMulti(LineageOf(scopes, c), t);
    }

    method ResolveEffectiveProvider(c: ScopeId, t: Token) returns (r: Effective)
      requires TreeOk(scopes) && c in scopes
      modifies this`scopes
      ensures TreeOk(scopes) && SameRegistrations(old(scopes), scopes)
      ensures r == EffectiveProvider(old(LineageOf(scopes, c)), t, {}, [])
    {
      var key := PlanKey(EffectivePlan, t);
      var cached := ReadCachedPlan(c, key);
      if cached.Some? {
        return cached.value.effective;
      }
      ghost var l := LineageOf(scopes, c);
      var visited: set<Token>, chain: seq<Token>, current := {}, [], t;
      while true
        invariant TreeOk(scopes) && SameRegistrations(old(scopes), scopes)
        invariant EffectiveProvider(l, current, visited, chain) == EffectiveProvider(l, t, {}, [])
        decreases Registered(l) - visited
      {
        if current in visited {
          return AliasCycle(chain + [current]);
        }
        SameRegistrationsSameLineage(old(scopes), scopes, c);
        ProvidersAreRegistered(l, current);
        var provider := LookupProvider(c, current);
        if provider == None || !provider.value.kind.Existing? {
          SameRegistrationsSameLineage(old(scopes), scopes, c);
          WritePlanCache(c, key, AnEffective(Found(provider)));
          return Found(provider);
        }
        visited, chain, current := visited + {current}, chain + [current], provider.value.kind.target;
      }
    }

    method DependencyRequires(c: ScopeId, d: Dep, visited: TokenSet) returns (r: bool)
      requires TreeOk(scopes) && c in scopes
      modifies this`scopes, visited
      ensures TreeOk(scopes) && SameRegistrations(old(scopes), scopes) && visited.items == old(visited.items)
      ensures var l := old(LineageOf(scopes, c));
              r == (!Skipped(l, d) && NeedsRequestScope(l, d.token, old(visited.items)))
      decreases Registered(LineageOf(scopes, c)) - visited.items, 2
    {
      if d.Optional? {
        var registered := HasProvider(c, d.token);
        SameRegistrationsSameLineage(old(scopes), scopes, c);
        if !registered {
          return false;
        }
      }
      r := GraphRequiresRequestScope(c, d.token, visited);
    }

    method ProviderRequires(c: ScopeId, p: Provider, visited: TokenSet) returns (r: bool)
      requires TreeOk(scopes) && c in scopes
      modifies this`scopes, visited
      ensures TreeOk(scopes) && SameRegistrations(old(scopes), scopes) && visited.items == old(visited.items)
      ensures r == ProviderNeedsRequestScope(old(LineageOf(scopes, c)), p, old(visited.items))
      decreases Registered(LineageOf(scopes, c)) - visited.items, 3
    {
      if p.scope == Request {
        return true;
      }
      if p.kind.Existing? {
        r := GraphRequiresRequestScope(c, p.kind.target, visited);
        return;
      }
      ghost var l := LineageOf(scopes, c);
      for i := 0 to |p.inject|
        invariant TreeOk(scopes) && SameRegistrations(old(scopes), scopes) && visited.items == old(visited.items)
        invariant forall k | 0 <= k < i ::
                    Skipped(l, p.inject[k]) || !NeedsRequestScope(l, p.inject[k].token, visited.items)
      {
        SameRegistrationsSameLineage(old(scopes), scopes, c);
        r := DependencyRequires(c, p.inject[i], visited);
        if r {
          assert p.inject[i].token in Targets(l, p);
          return;
        }
      }
      r := false;
    }

    /** The single provider first, then the multi providers. */
    method GatherProviders(c: ScopeId, t: Token) returns (r: seq<Provider>)
      requires TreeOk(scopes) && c in scopes
      modifies this`scopes
      ensures TreeOk(scopes) && SameRegistrations(old(scopes), scopes)
      ensures r == ProvidersOf(old(LineageOf(scopes, c)), t)
    {
      var single := LookupProvider(c, t);
      SameRegistrationsSameLineage(old(scopes), scopes, c);
      var multis := CollectMultiProviders(c, t);
      r := (if single.Some? then [single.value] else []) + multis;
    }

    method SomeProviderRequires(c: ScopeId, providers: seq<Provider>, visited: TokenSet) returns (r: bool)
      requires TreeOk(scopes) && c in scopes
      modifies this`scopes, visited
      ensures TreeOk(scopes) && SameRegistrations(old(scopes), scopes) && visited.items == old(visited.items)
      ensures r <==>
              exists p <- providers :: ProviderNeedsRequestScope(old(LineageOf(scopes, c)), p, old(visited.items))
      decreases Registered(LineageOf(scopes, c)) - visited.items, 4
    {
      ghost var l := LineageOf(scopes, c);
      for i := 0 to |providers|
        invariant TreeOk(scopes) && SameRegistrations(old(scopes), scopes) && visited.items == old(visited.items)
        invariant forall k | 0 <= k < i :: !ProviderNeedsRequestScope(l, providers[k], visited.items)
      {
        SameRegistrationsSameLineage(old(scopes), scopes, c);
        r := ProviderRequires(c, providers[i], visited);
        if r {
          return;
        }
      }
      r := false;
    }

    /** Depth-first search with a path set: a token is on the path while its providers are searched. */
    method GraphRequiresRequestScope(c: ScopeId, t: Token, visited: TokenSet) returns (r: bool)
      requires TreeOk(scopes) && c in scopes
      modifies this`scopes, visited
      ensures TreeOk(scopes) && SameRegistrations(old(scopes), scopes) && visited.items == old(visited.items)
      ensures r == NeedsRequestScope(old(LineageOf(scopes, c)), t, old(visited.items))
      decreases Registered(LineageOf(scopes, c)) - visited.items, 1
    {
      if t in visited.items {
        return true;
      }
      ghost var l := LineageOf(scopes, c);
      ProvidersAreRegistered(l, t);
      visited.items := visited.items + {t};
      var providers := GatherProviders(c, t);
      SameRegistrationsSameLineage(old(scopes), scopes, c);
      if providers == [] {
        r := false;
      } else {
        r := SomeProviderRequires(c, providers, visited);
      }
      visited.items := visited.items - {t};
    }

    /** The verdict: does resolving t from c need a request scope? */
    method HasRequestScopedDependency(c: ScopeId, t: Token) returns (r: bool)
      requires TreeOk(scopes) && c in scopes
      modifies this`scopes
      ensures TreeOk(scopes) && SameRegistrations(old(scopes), scopes)
      ensures r <==> exists w :: ScopeWalk(old(LineageOf(scopes, c)), t, w)
    {
      VerdictIsReachability(LineageOf(scopes, c), t);
      var key := PlanKey(VerdictPlan, t);
      var cached := ReadCachedPlan(c, key);
      if cached.Some? {
        return cached.value.verdict;
      }
      var visited := new TokenSet();
      r := GraphRequiresRequestScope(c, t, visited);
      SameRegistrationsSameLineage(old(scopes), scopes, c);
      WritePlanCache(c, key, Verdict(r));
    }

    method Register(c: ScopeId, p: Provider) returns (error: Option<RegisterError>)
      requires TreeOk(scopes) && c in scopes
      modifies this`scopes
      ensures TreeOk(scopes)
      ensures error == if DisposedInHierarchy(old(scopes), disposed, c) then Some(AlreadyDisposed)
                       else RegistrationConflict(old(LineageOf(scopes, c)), p)
      ensures scopes == if error.Some? then old(scopes)
                        else Advance(old(scopes), c, WithProvider(old(scopes)[c].local, p))
    {
      var gone := IsDisposedInHierarchy(c);
      if gone {
        return Some(AlreadyDisposed);
      }
      error := RegistrationConflict(LineageOf(scopes, c), p);
      if error.Some? {
        return;
      }
      AdvanceKeeps(scopes, c, WithProvider(scopes[c].local, p));
      scopes := Advance(scopes, c, WithProvider(scopes[c].local, p));
    }

    method Override(c: ScopeId, t: Token, providers: seq<Provider>) returns (error: Option<RegisterError>)
      requires TreeOk(scopes) && c in scopes && providers != []
      modifies this`scopes
      ensures TreeOk(scopes)
      ensures error == if DisposedInHierarchy(old(scopes), disposed, c) then Some(AlreadyDisposed)
                       else OverrideConflict(t, providers)
      ensures scopes == if error.Some? then old(scopes)
                        else Advance(old(scopes), c, WithOverride(old(scopes)[c].local, t, providers))
    {
      var gone := IsDisposedInHierarchy(c);
      if gone {
        return Some(AlreadyDisposed);
      }
      error := OverrideConflict(t, providers);
      if error.Some? {
        return;
      }
      var local := scopes[c].local;
      var singles, multis := local.singles - {t}, local.multis - {t};
      if providers[0].multi {
        multis := multis[t := providers];
      } else {
        singles := singles[t := providers[0]];
      }
      var replaced := Local(singles, multis, local.overridden + {t});
      assert replaced == WithOverride(local, t, providers);
      AdvanceKeeps(scopes, c, replaced);
      scopes := Advance(scopes, c, replaced);
    }
  }
}
