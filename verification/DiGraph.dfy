/**
 Provider graphs as the container sees them.

 A container scope owns single and multi registrations and hides those of its ancestors.  A lineage lists the scopes
 from the container itself up to the root.  Class metadata is folded into the normalized providers, and a forward
 reference is represented by the token it yields.
 */
module DiGraph {
  import opened Options

  type Token = nat

  datatype Scope = Singleton | Request | Transient
  datatype Dep = Plain(token: Token) | Forward(token: Token) | Optional(token: Token)
  datatype Kind = Value | Factory | Class | Existing(target: Token)

  /** A normalized provider record; `id` is the identity of the record. */
  datatype Provider = Provider(id: nat, provide: Token, kind: Kind, scope: Scope, inject: seq<Dep>, multi: bool)

  datatype Local = Local(singles: map<Token, Provider>, multis: map<Token, seq<Provider>>, overridden: set<Token>)
  type Lineage = seq<Local>

  const NoRegistrations := Local(map[], map[], {})

  function Lookup(l: Lineage, t: Token): Option<Provider> {
    if l == [] then None else if t in l[0].singles then Some(l[0].singles[t]) else Lookup(l[1..], t)
  }

  function LocalMultis(local: Local, t: Token): seq<Provider> {
    if t in local.multis then local.multis[t] else []
  }

  /** Multi providers accumulate from the root down; an overriding scope cuts off what its ancestors contribute. */
  function Collect(l: Lineage, t: Token): seq<Provider> {
    if l == [] then []
    else if t in l[0].overridden then LocalMultis(l[0], t)
    else Collect(l[1..], t) + LocalMultis(l[0], t)
  }

  predicate HasMulti(l: Lineage, t: Token) {
    l != [] && (t in l[0].multis || HasMulti(l[1..], t))
  }

  predicate Has(l: Lineage, t: Token) {
    Lookup(l, t).Some? || HasMulti(l, t)
  }

  function ProvidersOf(l: Lineage, t: Token): seq<Provider> {
    (if Lookup(l, t).Some? then [Lookup(l, t).value] else []) + Collect(l, t)
  }

  function Registered(l: Lineage): set<Token> {
    if l == [] then {} else l[0].singles.Keys + l[0].multis.Keys + Registered(l[1..])
  }

  lemma {:induction false} ProvidersAreRegistered(l: Lineage, t: Token)
    ensures Lookup(l, t).Some? ==> t in Registered(l)
    ensures Collect(l, t) != [] ==> t in Registered(l)
    ensures ProvidersOf(l, t) != [] ==> t in Registered(l)
  {
    if l != [] {
      ProvidersAreRegistered(l[1..], t);
    }
  }

  /** The tokens a provider refers to, whether or not an optional one is registered. */
  function RawTargets(p: Provider): seq<Token> {
    if p.kind.Existing? then [p.kind.target] else seq(|p.inject|, i requires 0 <= i < |p.inject| => p.inject[i].token)
  }

  predicate Skipped(l: Lineage, d: Dep) {
    d.Optional? && !Has(l, d.token)
  }

  /** The tokens a provider needs in this lineage: unregistered optional dependencies are skipped. */
  function Targets(l: Lineage, p: Provider): set<Token> {
    if p.kind.Existing? then {p.kind.target}
    else set i | 0 <= i < |p.inject| && !Skipped(l, p.inject[i]) :: p.inject[i].token
  }

  // ---------- Does resolving a token need a request scope? ----------

  /** Depth-first search along the current path; a token met again on the path counts as needing a scope. */
  predicate NeedsRequestScope(l: Lineage, t: Token, visited: set<Token>)
    decreases Registered(l) - visited, 1
  {
    ProvidersAreRegistered(l, t);
    t in visited || exists p <- ProvidersOf(l, t) :: ProviderNeedsRequestScope(l, p, visited + {t})
  }

  predicate ProviderNeedsRequestScope(l: Lineage, p: Provider, visited: set<Token>)
    decreases Registered(l) - visited, 2
  {
    p.scope == Request || exists u <- Targets(l, p) :: NeedsRequestScope(l, u, visited)
  }

  ghost predicate Edge(l: Lineage, a: Token, b: Token) {
    exists p <- ProvidersOf(l, a) :: b in Targets(l, p)
  }

  ghost predicate IsWalk(l: Lineage, w: seq<Token>) {
    w != [] && forall i | 0 <= i < |w| - 1 :: Edge(l, w[i], w[i + 1])
  }

  ghost predicate RequestScopedAt(l: Lineage, t: Token) {
    exists p <- ProvidersOf(l, t) :: p.scope == Request
  }

  ghost predicate EndsInRepeat(w: seq<Token>) {
    w != [] && w[|w| - 1] in w[..|w| - 1]
  }

  /** A walk from t that ends at a request-scoped provider or closes a cycle. */
  ghost predicate ScopeWalk(l: Lineage, t: Token, w: seq<Token>) {
    IsWalk(l, w) && w[0] == t && (RequestScopedAt(l, w[|w| - 1]) || EndsInRepeat(w))
  }

  lemma StepThenWalk(l: Lineage, t: Token, rest: seq<Token>)
    requires IsWalk(l, rest) && Edge(l, t, rest[0])
    ensures IsWalk(l, [t] + rest)
  {
    var w := [t] + rest;
    forall i | 0 <= i < |w| - 1 ensures Edge(l, w[i], w[i + 1]) {
      if i > 0 { assert Edge(l, rest[i - 1], rest[i]); }
    }
  }

  lemma {:induction false} SearchFindsWalk(l: Lineage, t: Token, visited: set<Token>) returns (w: seq<Token>)
    requires NeedsRequestScope(l, t, visited)
    ensures IsWalk(l, w) && w[0] == t
    ensures RequestScopedAt(l, w[|w| - 1]) || EndsInRepeat(w) || w[|w| - 1] in visited
    decreases Registered(l) - visited
  {
    ProvidersAreRegistered(l, t);
    w := [t];
    if t !in visited {
      var p :| p in ProvidersOf(l, t) && ProviderNeedsRequestScope(l, p, visited + {t});
      if p.scope != Request {
        var u :| u in Targets(l, p) && NeedsRequestScope(l, u, visited + {t});
        var rest := SearchFindsWalk(l, u, visited + {t});
        w := [t] + rest;
        StepThenWalk(l, t, rest);
        assert w[..|w| - 1] == [t] + rest[..|rest| - 1];
      }
    }
  }

  lemma {:induction false} WalkIsFound(l: Lineage, w: seq<Token>, visited: set<Token>)
    requires IsWalk(l, w)
    requires RequestScopedAt(l, w[|w| - 1]) || EndsInRepeat(w) || w[|w| - 1] in visited
    ensures NeedsRequestScope(l, w[0], visited)
    decreases |w|
  {
    if w[0] !in visited {
      if |w| == 1 {
        var p :| p in ProvidersOf(l, w[0]) && p.scope == Request;
        assert ProviderNeedsRequestScope(l, p, visited + {w[0]});
      } else {
        assert Edge(l, w[0], w[1]);
        var p :| p in ProvidersOf(l, w[0]) && w[1] in Targets(l, p);
        if p.scope != Request {
          var rest := w[1..];
          forall i | 0 <= i < |rest| - 1 ensures Edge(l, rest[i], rest[i + 1]) {
            assert Edge(l, w[i + 1], w[i + 2]);
          }
          assert w[..|w| - 1] == [w[0]] + rest[..|rest| - 1];
          WalkIsFound(l, rest, visited + {w[0]});
        }
        assert ProviderNeedsRequestScope(l, p, visited + {w[0]});
      }
    }
  }

  /**
   The verdict is exact: a token needs a request scope if and only if a request-scoped provider or a cycle can be
   reached from it along dependencies, aliases and multi providers.
   */
  lemma VerdictIsReachability(l: Lineage, t: Token)
    ensures NeedsRequestScope(l, t, {}) <==> exists w :: ScopeWalk(l, t, w)
  {
    if NeedsRequestScope(l, t, {}) {
      var w := SearchFindsWalk(l, t, {});
      assert ScopeWalk(l, t, w);
    }
    if w :| ScopeWalk(l, t, w) {
      WalkIsFound(l, w, {});
    }
  }

  // ---------- Does a cached token depend on an overridden one? ----------

  predicate TokenReaches(l: Lineage, d: Token, t: Token, visited: set<Token>)
    decreases Registered(l) - visited, 1
  {
    ProvidersAreRegistered(l, d);
    d == t || (d !in visited && exists p <- ProvidersOf(l, d) :: ProviderReaches(l, p, t, visited + {d}))
  }

  predicate ProviderReaches(l: Lineage, p: Provider, t: Token, visited: set<Token>)
    decreases Registered(l) - visited, 2
  {
    exists u <- RawTargets(p) :: TokenReaches(l, u, t, visited)
  }

  /** Whether an override of t makes the instance cached for c stale. */
  predicate StaleToken(l: Lineage, c: Token, t: Token) {
    c == t || exists p <- ProvidersOf(l, c) :: ProviderReaches(l, p, t, {p.provide})
  }

  predicate StaleProvider(l: Lineage, p: Provider, t: Token) {
    p.provide == t || ProviderReaches(l, p, t, {p.provide})
  }

  ghost predicate RawEdge(l: Lineage, a: Token, b: Token) {
    exists p <- ProvidersOf(l, a) :: b in RawTargets(p)
  }

  ghost predicate RawWalk(l: Lineage, w: seq<Token>, a: Token, b: Token) {
    w != [] && w[0] == a && w[|w| - 1] == b && forall i | 0 <= i < |w| - 1 :: RawEdge(l, w[i], w[i + 1])
  }

  ghost predicate Simple(w: seq<Token>) {
    forall i, j | 0 <= i < j < |w| :: w[i] != w[j]
  }

  ghost predicate DependsOn(l: Lineage, a: Token, b: Token) {
    exists w :: RawWalk(l, w, a, b)
  }

  lemma {:induction false} ReachFindsWalk(l: Lineage, d: Token, t: Token, visited: set<Token>) returns (w: seq<Token>)
    requires TokenReaches(l, d, t, visited)
    ensures RawWalk(l, w, d, t)
    decreases Registered(l) - visited
  {
    ProvidersAreRegistered(l, d);
    w := [d];
    if d != t {
      var p :| p in ProvidersOf(l, d) && ProviderReaches(l, p, t, visited + {d});
      var u :| u in RawTargets(p) && TokenReaches(l, u, t, visited + {d});
      var rest := ReachFindsWalk(l, u, t, visited + {d});
      w := [d] + rest;
    }
  }

  lemma {:induction false} SimpleWalkIsFound(l: Lineage, w: seq<Token>, d: Token, t: Token, visited: set<Token>)
    requires RawWalk(l, w, d, t) && Simple(w) && forall x <- w :: x !in visited
    ensures TokenReaches(l, d, t, visited)
    decreases |w|
  {
    if d != t {
      assert RawEdge(l, w[0], w[1]);
      var p :| p in ProvidersOf(l, d) && w[1] in RawTargets(p);
      var rest := w[1..];
      forall i | 0 <= i < |rest| - 1 ensures RawEdge(l, rest[i], rest[i + 1]) {
        assert RawEdge(l, w[i + 1], w[i + 2]);
      }
      SimpleWalkIsFound(l, rest, w[1], t, visited + {d});
      assert ProviderReaches(l, p, t, visited + {d});
    }
  }

  lemma {:induction false} WalkCanBeSimple(l: Lineage, w: seq<Token>, a: Token, b: Token) returns (s: seq<Token>)
    requires RawWalk(l, w, a, b)
    ensures RawWalk(l, s, a, b) && Simple(s)
    decreases |w|
  {
    if Simple(w) {
      s := w;
    } else {
      var i: nat, j: nat :| i < j < |w| && w[i] == w[j];
      CutIsWalk(l, w, a, b, i, j);
      s := WalkCanBeSimple(l, w[..i] + w[j..], a, b);
    }
  }

  lemma CutIsWalk(l: Lineage, w: seq<Token>, a: Token, b: Token, i: nat, j: nat)
    requires RawWalk(l, w, a, b) && i < j < |w| && w[i] == w[j]
    ensures RawWalk(l, w[..i] + w[j..], a, b)
  {
    var short := w[..i] + w[j..];
    assert short[0] == (if i == 0 then w[j] else w[0]) && short[|short| - 1] == w[|w| - 1];
    forall k | 0 <= k < |short| - 1 ensures RawEdge(l, short[k], short[k + 1]) { CutEdge(l, w, a, b, i, j, k); }
  }

  lemma CutEdge(l: Lineage, w: seq<Token>, a: Token, b: Token, i: nat, j: nat, k: nat)
    requires RawWalk(l, w, a, b) && i < j < |w| && w[i] == w[j] && k < |w[..i] + w[j..]| - 1
    ensures RawEdge(l, (w[..i] + w[j..])[k], (w[..i] + w[j..])[k + 1])
  {
    var from := CutAt(w, i, j, k);
    assert RawEdge(l, w[from], w[from + 1]);
  }

  lemma CutAt(w: seq<Token>, i: nat, j: nat, k: nat) returns (from: nat)
    requires i < j < |w| && w[i] == w[j] && k < |w[..i] + w[j..]| - 1
    ensures from < |w| - 1 && (w[..i] + w[j..])[k] == w[from] && (w[..i] + w[j..])[k + 1] == w[from + 1]
  {
    from := if k < i then k else k - i + j;
  }

  ghost predicate KeyedByToken(l: Lineage) {
    forall i | 0 <= i < |l| ::
      (forall t <- l[i].singles :: l[i].singles[t].provide == t) &&
      (forall t <- l[i].multis :: forall p <- l[i].multis[t] :: p.provide == t)
  }

  lemma {:induction false} ProvidersKeyed(l: Lineage, t: Token)
    requires KeyedByToken(l)
    ensures Lookup(l, t).Some? ==> Lookup(l, t).value.provide == t
    ensures forall p <- Collect(l, t) :: p.provide == t
    ensures forall p <- ProvidersOf(l, t) :: p.provide == t
  {
    if l != [] {
      assert forall i | 0 <= i < |l[1..]| :: l[1..][i] == l[i + 1];
      ProvidersKeyed(l[1..], t);
    }
  }

  lemma StepThenRawWalk(l: Lineage, a: Token, u: Token, b: Token, rest: seq<Token>)
    requires RawWalk(l, rest, u, b) && RawEdge(l, a, u)
    ensures RawWalk(l, [a] + rest, a, b)
  {
    var w := [a] + rest;
    forall i | 0 <= i < |w| - 1 ensures RawEdge(l, w[i], w[i + 1]) {
      if i > 0 { assert RawEdge(l, rest[i - 1], rest[i]); }
    }
  }

  lemma StaleIsWalk(l: Lineage, c: Token, t: Token)
    requires StaleToken(l, c, t)
    ensures DependsOn(l, c, t)
  {
    if c == t {
      assert RawWalk(l, [c], c, t);
    } else {
      var p :| p in ProvidersOf(l, c) && ProviderReaches(l, p, t, {p.provide});
      var u :| u in RawTargets(p) && TokenReaches(l, u, t, {p.provide});
      var rest := ReachFindsWalk(l, u, t, {p.provide});
      assert RawEdge(l, c, u);
      StepThenRawWalk(l, c, u, t, rest);
    }
  }

  lemma WalkIsStale(l: Lineage, w: seq<Token>, c: Token, t: Token)
    requires KeyedByToken(l) && RawWalk(l, w, c, t) && Simple(w)
    ensures StaleToken(l, c, t)
  {
    if c != t {
      assert RawEdge(l, w[0], w[1]);
      var p :| p in ProvidersOf(l, c) && w[1] in RawTargets(p);
      ProvidersKeyed(l, c);
      var rest := w[1..];
      forall i | 0 <= i < |rest| - 1 ensures RawEdge(l, rest[i], rest[i + 1]) {
        assert RawEdge(l, w[i + 1], w[i + 2]);
      }
      SimpleWalkIsFound(l, rest, w[1], t, {c});
      assert ProviderReaches(l, p, t, {p.provide});
    }
  }

  /** The override scan is exact: it marks the cached tokens that depend on the overridden one, directly or not. */
  lemma StaleIsDependency(l: Lineage, c: Token, t: Token)
    requires KeyedByToken(l)
    ensures StaleToken(l, c, t) <==> DependsOn(l, c, t)
  {
    if StaleToken(l, c, t) {
      StaleIsWalk(l, c, t);
    }
    if w0 :| RawWalk(l, w0, c, t) {
      var w := WalkCanBeSimple(l, w0, c, t);
      WalkIsStale(l, w, c, t);
    }
  }
}
