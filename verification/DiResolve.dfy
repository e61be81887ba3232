/**
 What resolving a token does, as functions on the caches.

 A resolution runs its dependencies one after the other.  Request scopes see their whole lineage; a singleton that the
 scope does not register itself is handed to the root, which resolves it in its own lineage.  Constructors may throw:
 `throws(n)` says whether the n-th construction does.
 */
module DiResolve {
  import opened Options
  import opened DiGraph
  import opened DiContainer

  /** An instance and how it came about; `id` is its identity. */
  datatype Instance =
    | Missing
    | Given(provider: Provider)
    | Built(id: nat, provider: Provider, deps: seq<Instance>)
    | Many(instances: seq<Instance>)

  datatype Error =
    | Circular(path: seq<Token>)
    | NotRegistered(token: Token)
    | OutsideRequestScope(token: Token)
    | DependsOnRequestScope(token: Token, dependency: Token)
    | ConstructorThrew(provider: Provider)
    | ContainerDisposed(token: Token)

  datatype Result<+T> = Ok(value: T) | Failed(error: Error)

  /** The root's two caches, the two caches of the resolving request scope, and the number of constructions so far. */
  datatype Caches = Caches(
    singles: map<Token, Instance>,
    multiSingles: map<Provider, Instance>,
    requests: map<Token, Instance>,
    multiRequests: map<Provider, Instance>,
    built: nat)

  datatype Answer<T> = Answer(result: Result<T>, caches: Caches)

  function RootOf(l: Lineage): Lineage
    requires l != []
  {
    [l[|l| - 1]]
  }

  predicate FromRoot(l: Lineage, p: Provider)
    requires l != []
  {
    p.scope == Singleton && |l| > 1 && p.provide !in l[0].singles
  }

  predicate FromRootMulti(l: Lineage, p: Provider)
    requires l != []
  {
    p.scope == Singleton && |l| > 1 && p !in LocalMultis(l[0], p.provide)
  }

  // ---------- The check that a singleton does not depend on a request-scoped provider ----------

  datatype Finding = Nothing | FoundRequest(token: Token) | AliasLoop(path: seq<Token>)

  lemma {:induction false} EffectiveIsRegistered(l: Lineage, t: Token)
    requires EffectiveProvider(l, t, {}, []) != Found(None)
    ensures t in Registered(l)
  {
    ProvidersAreRegistered(l, t);
  }

  function FindInDeps(l: Lineage, deps: seq<Dep>, visited: set<Token>): Finding
    decreases Registered(l) - visited, 1, |deps|
  {
    if deps == [] then Nothing
    else if Skipped(l, deps[0]) then FindInDeps(l, deps[1..], visited)
    else
      var first := FindInToken(l, deps[0].token, visited);
      if first == Nothing then FindInDeps(l, deps[1..], visited) else first
  }

  function FindInToken(l: Lineage, t: Token, visited: set<Token>): Finding
    decreases Registered(l) - visited, 0
  {
    if t in visited then Nothing
    else match EffectiveProvider(l, t, {}, [])
      case AliasCycle(path) => AliasLoop(path)
      case Found(None) => Nothing
      case Found(Some(p)) =>
        EffectiveIsRegistered(l, t);
        if p.scope == Request then FoundRequest(p.provide) else FindInDeps(l, p.inject, visited + {t})
  }

  // ---------- Resolution ----------

  ghost function Elements(chain: seq<Token>): set<Token> { set t | t in chain }

  lemma {:induction false} RootRegistered(l: Lineage)
    requires l != []
    ensures Registered(RootOf(l)) <= Registered(l)
  {
    if |l| > 1 {
      RootRegistered(l[1..]);
      assert RootOf(l[1..]) == RootOf(l);
    } else {
      assert RootOf(l) == l;
    }
  }

  lemma ChainGrows(l: Lineage, chain: seq<Token>, t: Token)
    requires t in Registered(l) && t !in chain
    ensures Registered(l) - Elements(chain + [t]) < Registered(l) - Elements(chain)
  {
    assert Elements(chain + [t]) == Elements(chain) + {t};
    assert t in Registered(l) - Elements(chain);
  }

  function CachedSingleton(l: Lineage, p: Provider, c: Caches): Option<Instance>
    requires l != []
  {
    if p.scope != Singleton then None
    else if |l| == 1 || FromRoot(l, p) then if p.provide in c.singles then Some(c.singles[p.provide]) else None
    else if p.provide in c.requests then Some(c.requests[p.provide]) else None
  }

  function ResolveToken(l: Lineage, t: Token, chain: seq<Token>, c: Caches, throws: nat -> bool): Answer<Instance>
    requires l != []
    decreases Registered(l) - Elements(chain), 1
  {
    if t in chain then Answer(Failed(Circular(chain + [t])), c)
    else
      ProvidersAreRegistered(l, t);
      var path := chain + [t];
      if t !in l[0].singles && Collect(l, t) != [] then
        ChainGrows(l, chain, t);
        var a := ResolveMultis(l, Collect(l, t), path, c, throws);
        Answer(if a.result.Ok? then Ok(Many(a.result.value)) else Failed(a.result.error), a.caches)
      else match Lookup(l, t)
        case None => Answer(Failed(NotRegistered(t)), c)
        case Some(p) =>
          ChainGrows(l, chain, t);
          if p.kind.Existing? then ResolveToken(l, p.kind.target, path, c, throws)
          else if p.scope == Transient then Instantiate(l, p, path, c, throws)
          else if CachedSingleton(l, p, c).Some? then Answer(Ok(CachedSingleton(l, p, c).value), c)
          else ResolveScoped(l, p, path, c, throws)
  }

  function ResolveMultis(l: Lineage, ps: seq<Provider>, chain: seq<Token>, c: Caches, throws: nat -> bool)
      : Answer<seq<Instance>>
    requires l != []
    decreases Registered(l) - Elements(chain), 6, |ps|
  {
    if ps == [] then Answer(Ok([]), c)
    else
      var first := ResolveMulti(l, ps[0], chain, c, throws);
      if first.result.Failed? then Answer(Failed(first.result.error), first.caches)
      else
        var rest := ResolveMultis(l, ps[1..], chain, first.caches, throws);
        Answer(if rest.result.Ok? then Ok([first.result.value] + rest.result.value) else rest.result, rest.caches)
  }

  function ResolveMulti(l: Lineage, p: Provider, chain: seq<Token>, c: Caches, throws: nat -> bool): Answer<Instance>
    requires l != []
    decreases Registered(l) - Elements(chain), 5, |l|
  {
    if p.kind.Existing? then ResolveToken(l, p.kind.target, chain, c, throws)
    else if p.scope == Transient then Instantiate(l, p, chain, c, throws)
    else if FromRootMulti(l, p) then
      RootRegistered(l);
      ResolveMulti(RootOf(l), p, chain, c, throws)
    else if p.scope == Singleton && |l| == 1 then
      if p in c.multiSingles then Answer(Ok(c.multiSingles[p]), c)
      else
        var a := Instantiate(l, p, chain, c, throws);
        Answer(a.result, a.caches.(multiSingles :=
          if a.result.Ok? then a.caches.multiSingles[p := a.result.value] else a.caches.multiSingles))
    else if |l| == 1 then Answer(Failed(OutsideRequestScope(p.provide)), c)
    else if p in c.multiRequests then Answer(Ok(c.multiRequests[p]), c)
    else
      var a := Instantiate(l, p, chain, c, throws);
      Answer(a.result, a.caches.(multiRequests :=
        if a.result.Ok? then a.caches.multiRequests[p := a.result.value] else a.caches.multiRequests))
  }

  function ResolveScoped(l: Lineage, p: Provider, chain: seq<Token>, c: Caches, throws: nat -> bool): Answer<Instance>
    requires l != [] && !p.kind.Existing?
    decreases Registered(l) - Elements(chain), 5, |l|
  {
    if FromRoot(l, p) then
      RootRegistered(l);
      ResolveScoped(RootOf(l), p, chain, c, throws)
    else if p.scope == Singleton && |l| == 1 then
      if p.provide in c.singles then Answer(Ok(c.singles[p.provide]), c)
      else
        var a := Instantiate(l, p, chain, c, throws);
        Answer(a.result, a.caches.(singles :=
          if a.result.Ok? then a.caches.singles[p.provide := a.result.value] else a.caches.singles))
    else if |l| == 1 then Answer(Failed(OutsideRequestScope(p.provide)), c)
    else if p.provide in c.requests then Answer(Ok(c.requests[p.provide]), c)
    else
      var a := Instantiate(l, p, chain, c, throws);
      Answer(a.result, a.caches.(requests :=
        if a.result.Ok? then a.caches.requests[p.provide := a.result.value] else a.caches.requests))
  }

  function Instantiate(l: Lineage, p: Provider, chain: seq<Token>, c: Caches, throws: nat -> bool): Answer<Instance>
    requires l != [] && !p.kind.Existing?
    decreases Registered(l) - Elements(chain), 4
  {
    match if p.scope == Singleton then FindInDeps(l, p.inject, {p.provide}) else Nothing
    case FoundRequest(d) => Answer(Failed(DependsOnRequestScope(p.provide, d)), c)
    case AliasLoop(path) => Answer(Failed(Circular(path)), c)
    case Nothing =>
      if p.kind.Value? then Answer(Ok(Given(p)), c)
      else
        var a := ResolveDeps(l, p.inject, chain, c, throws);
        if a.result.Failed? then Answer(Failed(a.result.error), a.caches)
        else
          var n := a.caches.built;
          Answer(if throws(n) then Failed(ConstructorThrew(p)) else Ok(Built(n, p, a.result.value)),
                 a.caches.(built := n + 1))
  }

  function ResolveDeps(l: Lineage, deps: seq<Dep>, chain: seq<Token>, c: Caches, throws: nat -> bool)
      : Answer<seq<Instance>>
    requires l != []
    decreases Registered(l) - Elements(chain), 3, |deps|
  {
    if deps == [] then Answer(Ok([]), c)
    else
      var first :=
        if Skipped(l, deps[0]) then Answer(Ok(Missing), c) else ResolveToken(l, deps[0].token, chain, c, throws);
      if first.result.Failed? then Answer(Failed(first.result.error), first.caches)
      else
        var rest := ResolveDeps(l, deps[1..], chain, first.caches, throws);
        Answer(if rest.result.Ok? then Ok([first.result.value] + rest.result.value) else rest.result, rest.caches)
  }
}
