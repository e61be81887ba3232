/**
 Who shares an instance with whom: a request scope resolves each of its providers once, a multi provider keeps one
 instance in the cache of its scope, and a transient provider is constructed anew every time.
 */
module DiSharing {
  import opened Options
  import opened DiGraph
  import opened DiContainer
  import opened DiResolve
  import opened DiResolveCaches
  import opened DiCoherence

  /** In this request scope the token is bound to one provider whose instance belongs to the scope. */
  predicate ScopeOwns(l: Lineage, t: Token, p: Provider) {
    && |l| > 1 && !IsMulti(l, t) && Lookup(l, t) == Some(p) && p.provide == t
    && !p.kind.Existing? && p.scope != Transient && !FromRoot(l, p)
  }

  /**
   A request scope constructs an instance of its own once: resolving it, at the top or for a dependency, leaves an entry
   in the scope's cache, and as long as that entry is there, whatever else has come or gone, resolving it again returns
   the same instance, constructs nothing and changes no cache.
   */
  lemma RequestIsShared(l: Lineage, t: Token, p: Provider, chain: seq<Token>, again: seq<Token>, c: Caches,
                        later: Caches, throws: nat -> bool)
    requires ScopeOwns(l, t, p) && t !in again && ResolveToken(l, t, chain, c, throws).result.Ok?
    ensures var a := ResolveToken(l, t, chain, c, throws);
            t in a.caches.requests && a.caches.requests[t] == a.result.value
    ensures var v := ResolveToken(l, t, chain, c, throws).result.value;
            t in later.requests && later.requests[t] == v ==>
              ResolveToken(l, t, again, later, throws) == Answer(Ok(v), later)
  {
    if CachedSingleton(l, p, c).None? { OwnIsCached(l, p, chain + [t], c, throws); }
  }

  lemma OwnIsCached(l: Lineage, p: Provider, chain: seq<Token>, c: Caches, throws: nat -> bool)
    requires |l| > 1 && !p.kind.Existing? && !FromRoot(l, p)
    ensures var a := ResolveScoped(l, p, chain, c, throws);
            a.result.Ok? ==> p.provide in a.caches.requests && a.caches.requests[p.provide] == a.result.value
  {
  }

  /** Another scope has another cache: an instance that is not in it yet is constructed during the resolution. */
  lemma EachScopeBuildsItsOwn(l: Lineage, t: Token, p: Provider, c: Caches, throws: nat -> bool)
    requires KeyedByToken(l) && ScopeOwns(l, t, p) && !p.kind.Value? && t !in c.requests
    requires ResolveToken(l, t, [], c, throws).result.Ok?
    ensures var a := ResolveToken(l, t, [], c, throws);
            a.result.value.Built? && a.result.value.provider == p && c.built <= a.result.value.id < a.caches.built
  {
    assert [] + [t] == [t];
    ConstructionIsNew(l, p, [t], c, throws);
  }

  lemma ConstructionIsNew(l: Lineage, p: Provider, chain: seq<Token>, c: Caches, throws: nat -> bool)
    requires l != [] && KeyedByToken(l) && !p.kind.Existing? && !p.kind.Value?
    ensures var a := Instantiate(l, p, chain, c, throws);
            a.result.Ok? ==>
              a.result.value.Built? && a.result.value.provider == p && c.built <= a.result.value.id < a.caches.built
  {
    ResolveDepsSound(l, p.inject, chain, c, throws);
  }

  // ---------- Multi providers ----------

  predicate AtRoot(l: Lineage, p: Provider)
    requires l != []
  {
    p.scope == Singleton && (|l| == 1 || FromRootMulti(l, p))
  }

  /** The instance of a multi provider: a singleton's is in the root's cache, any other in the scope's. */
  function HeldMulti(l: Lineage, p: Provider, c: Caches): Option<Instance>
    requires l != []
  {
    if AtRoot(l, p) then if p in c.multiSingles then Some(c.multiSingles[p]) else None
    else if p in c.multiRequests then Some(c.multiRequests[p]) else None
  }

  lemma MultiIsCached(l: Lineage, p: Provider, chain: seq<Token>, c: Caches, throws: nat -> bool)
    requires l != [] && !p.kind.Existing? && p.scope != Transient
    ensures var a := ResolveMulti(l, p, chain, c, throws);
            a.result.Ok? ==> HeldMulti(l, p, a.caches) == Some(a.result.value)
  {
    if FromRootMulti(l, p) {
      RootRegistered(l);
      assert ResolveMulti(l, p, chain, c, throws) == ResolveMulti(RootOf(l), p, chain, c, throws);
    }
  }

  lemma HeldMultiIsReturned(l: Lineage, p: Provider, chain: seq<Token>, c: Caches, throws: nat -> bool)
    requires l != [] && !p.kind.Existing? && p.scope != Transient && HeldMulti(l, p, c).Some?
    requires |l| > 1 || p.scope == Singleton
    ensures ResolveMulti(l, p, chain, c, throws) == Answer(Ok(HeldMulti(l, p, c).value), c)
  {
    if FromRootMulti(l, p) {
      RootRegistered(l);
      assert ResolveMulti(l, p, chain, c, throws) == ResolveMulti(RootOf(l), p, chain, c, throws);
    }
  }

  ghost predicate AllHeld(l: Lineage, ps: seq<Provider>, vs: seq<Instance>, c: Caches)
    requires l != []
  {
    |vs| == |ps| && forall i | 0 <= i < |ps| :: HeldMulti(l, ps[i], c) == Some(vs[i])
  }

  lemma HeldStays(l: Lineage, p: Provider, c: Caches, c': Caches)
    requires l != [] && Grows(c, c') && HeldMulti(l, p, c).Some?
    ensures HeldMulti(l, p, c') == HeldMulti(l, p, c)
  {
  }

  predicate Kept(ps: seq<Provider>) { forall p <- ps :: !p.kind.Existing? && p.scope != Transient }

  lemma {:induction false} MultisAreCached(l: Lineage, ps: seq<Provider>, chain: seq<Token>, c: Caches,
                                           throws: nat -> bool)
    requires l != [] && KeyedByToken(l) && Kept(ps) && chain != [] && forall p <- ps :: Innermost(chain, p)
    ensures var a := ResolveMultis(l, ps, chain, c, throws);
            a.result.Ok? ==> AllHeld(l, ps, a.result.value, a.caches)
    ensures ResolveMultis(l, ps, chain, c, throws).result.Ok? && |l| == 1 ==> forall p <- ps :: p.scope == Singleton
  {
    var a := ResolveMultis(l, ps, chain, c, throws);
    if ps != [] && a.result.Ok? {
      assert ps == [ps[0]] + ps[1..] && ps[0] in ps && forall p <- ps[1..] :: p in ps;
      var first := ResolveMulti(l, ps[0], chain, c, throws);
      var rest := ResolveMultis(l, ps[1..], chain, first.caches, throws);
      MultiIsCached(l, ps[0], chain, c, throws);
      MultisAreCached(l, ps[1..], chain, first.caches, throws);
      ResolveMultisSound(l, ps[1..], chain, first.caches, throws);
      HeldStays(l, ps[0], first.caches, rest.caches);
      forall i | 0 <= i < |ps| ensures HeldMulti(l, ps[i], a.caches) == Some(a.result.value[i]) {
        if i > 0 { assert ps[i] == ps[1..][i - 1] && a.result.value[i] == rest.result.value[i - 1]; }
      }
    }
  }

  lemma {:induction false} HeldMultisAreReturned(l: Lineage, ps: seq<Provider>, vs: seq<Instance>, chain: seq<Token>,
                                                 c: Caches, throws: nat -> bool)
    requires l != [] && Kept(ps) && AllHeld(l, ps, vs, c) && (|l| > 1 || forall p <- ps :: p.scope == Singleton)
    ensures ResolveMultis(l, ps, chain, c, throws) == Answer(Ok(vs), c)
    decreases |ps|
  {
    if ps != [] {
      assert ps == [ps[0]] + ps[1..] && ps[0] in ps && forall p <- ps[1..] :: p in ps;
      assert HeldMulti(l, ps[0], c) == Some(vs[0]);
      HeldMultiIsReturned(l, ps[0], chain, c, throws);
      forall i | 0 <= i < |ps[1..]| ensures HeldMulti(l, ps[1..][i], c) == Some(vs[1..][i]) {
        assert ps[1..][i] == ps[i + 1] && vs[1..][i] == vs[i + 1];
      }
      HeldMultisAreReturned(l, ps[1..], vs[1..], chain, c, throws);
      assert vs == [vs[0]] + vs[1..];
    }
  }

  /**
   A multi token without aliases and transient providers is shared likewise: a resolution leaves an entry for each of
   its providers, singletons at the root and the others in the scope, and while these entries are there resolving the
   token again returns the same instances in the same order, constructs nothing and changes no cache.
   */
  lemma MultiIsShared(l: Lineage, t: Token, c: Caches, later: Caches, throws: nat -> bool)
    requires l != [] && KeyedByToken(l) && IsMulti(l, t) && Kept(Collect(l, t))
    requires ResolveToken(l, t, [], c, throws).result.Ok?
    ensures var a := ResolveToken(l, t, [], c, throws);
            a.result.value.Many? && AllHeld(l, Collect(l, t), a.result.value.instances, a.caches)
    ensures var v := ResolveToken(l, t, [], c, throws).result.value;
            v.Many? && AllHeld(l, Collect(l, t), v.instances, later) ==>
              ResolveToken(l, t, [], later, throws) == Answer(Ok(v), later)
  {
    ProvidersKeyed(l, t);
    ProvidersAreRegistered(l, t);
    ChainGrows(l, [], t);
    assert [] + [t] == [t];
    MultisAreCached(l, Collect(l, t), [t], c, throws);
    var v := ResolveToken(l, t, [], c, throws).result.value;
    if AllHeld(l, Collect(l, t), v.instances, later) {
      HeldMultisAreReturned(l, Collect(l, t), v.instances, [t], later, throws);
    }
  }

  // ---------- Transient providers ----------

  predicate BoundTransient(l: Lineage, t: Token, p: Provider) {
    && l != [] && !IsMulti(l, t) && Lookup(l, t) == Some(p) && p.provide == t && p.scope == Transient
    && (p.kind.Class? || p.kind.Factory?)
  }

  /** Two resolutions of a transient provider return different instances, and neither leaves an entry for it. */
  lemma TransientIsNeverShared(l: Lineage, t: Token, p: Provider, c: Caches, later: Caches, throws: nat -> bool)
    requires KeyedByToken(l) && BoundTransient(l, t, p)
    requires ResolveToken(l, t, [], c, throws).caches.built <= later.built
    requires ResolveToken(l, t, [], c, throws).result.Ok? && ResolveToken(l, t, [], later, throws).result.Ok?
    ensures var v := ResolveToken(l, t, [], c, throws).result.value;
            var w := ResolveToken(l, t, [], later, throws).result.value;
            v.Built? && w.Built? && v.id < w.id && v.provider == w.provider == p
    ensures var after := ResolveToken(l, t, [], c, throws).caches;
            (t in after.singles ==> t in c.singles) && (t in after.requests ==> t in c.requests)
  {
    assert [] + [t] == [t];
    ProvidersAreRegistered(l, t);
    ConstructionIsNew(l, p, [t], c, throws);
    ConstructionIsNew(l, p, [t], later, throws);
    InstantiateSound(l, p, [t], c, throws);
    assert t in [t];
  }

  lemma TransientMultiIsNeverShared(l: Lineage, p: Provider, chain: seq<Token>, c: Caches, later: Caches,
                                    throws: nat -> bool)
    requires l != [] && KeyedByToken(l) && p.scope == Transient && (p.kind.Class? || p.kind.Factory?)
    requires p.provide in chain && ResolveMulti(l, p, chain, c, throws).caches.built <= later.built
    requires ResolveMulti(l, p, chain, c, throws).result.Ok? && ResolveMulti(l, p, chain, later, throws).result.Ok?
    ensures var v := ResolveMulti(l, p, chain, c, throws).result.value;
            var w := ResolveMulti(l, p, chain, later, throws).result.value;
            v.Built? && w.Built? && v.id < w.id && v.provider == w.provider == p
    ensures var after := ResolveMulti(l, p, chain, c, throws).caches;
            (p in after.multiSingles ==> p in c.multiSingles) && (p in after.multiRequests ==> p in c.multiRequests)
  {
    ConstructionIsNew(l, p, chain, c, throws);
    ConstructionIsNew(l, p, chain, later, throws);
    InstantiateSound(l, p, chain, c, throws);
  }
}
