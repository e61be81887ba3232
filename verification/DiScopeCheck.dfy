/**
 The check that a singleton does not depend on anything of request scope: it follows aliases and dependencies, and finds
 a request-scoped provider or a cycle of aliases exactly if one can be reached.
 */
module DiScopeCheck {
  import opened Options
  import opened DiGraph
  import opened DiContainer
  import opened DiResolve

  // ---------- What stands behind a token ----------

  /** Following n aliases from t leads to e. */
  ghost predicate Follows(l: Lineage, t: Token, e: Token, n: nat)
    decreases n
  {
    if n == 0 then t == e
    else Lookup(l, t).Some? && Lookup(l, t).value.kind.Existing? && Follows(l, Lookup(l, t).value.kind.target, e, n - 1)
  }

  /** The provider registered for the token, or none, and it is no alias. */
  predicate EndsAt(l: Lineage, e: Token, end: Option<Provider>) {
    Lookup(l, e) == end && (end.Some? ==> !end.value.kind.Existing?)
  }

  ghost predicate AliasesLeadTo(l: Lineage, t: Token, end: Option<Provider>) {
    exists e: Token, n: nat :: Follows(l, t, e, n) && EndsAt(l, e, end)
  }

  lemma {:induction false} FollowingEnds(l: Lineage, t: Token, visited: set<Token>, chain: seq<Token>)
    ensures var r := EffectiveProvider(l, t, visited, chain); r.Found? ==> AliasesLeadTo(l, t, r.provider)
    decreases Registered(l) - visited
  {
    ProvidersAreRegistered(l, t);
    if t !in visited {
      var p := Lookup(l, t);
      if p.Some? && p.value.kind.Existing? {
        var u, r := p.value.kind.target, EffectiveProvider(l, p.value.kind.target, visited + {t}, chain + [t]);
        FollowingEnds(l, u, visited + {t}, chain + [t]);
        if r.Found? {
          var e: Token, n: nat :| Follows(l, u, e, n) && EndsAt(l, e, r.provider);
          assert Follows(l, t, e, n + 1);
        }
      } else {
        assert Follows(l, t, t, 0);
      }
    }
  }

  lemma {:induction false} EndIsUnique(l: Lineage, t: Token, e: Token, n: nat, f: Token, m: nat, a: Option<Provider>,
                                       b: Option<Provider>)
    requires Follows(l, t, e, n) && EndsAt(l, e, a) && Follows(l, t, f, m) && EndsAt(l, f, b)
    ensures n == m && a == b
    decreases n
  {
    if n > 0 && m > 0 { EndIsUnique(l, Lookup(l, t).value.kind.target, e, n - 1, f, m - 1, a, b); }
  }

  /** With n aliases to follow and none of them on the path yet, following comes to an end. */
  lemma {:induction false} EndIsFound(l: Lineage, t: Token, visited: set<Token>, chain: seq<Token>, e: Token, n: nat,
                                      end: Option<Provider>)
    requires Follows(l, t, e, n) && EndsAt(l, e, end)
    requires forall v <- visited, m: nat | Follows(l, v, e, m) :: n < m
    ensures EffectiveProvider(l, t, visited, chain) == Found(end)
    decreases n
  {
    ProvidersAreRegistered(l, t);
    assert t !in visited;
    if n > 0 {
      var u := Lookup(l, t).value.kind.target;
      forall v, m: nat | v in visited + {t} && Follows(l, v, e, m) ensures n - 1 < m {
        if v == t { EndIsUnique(l, t, e, n, e, m, end, end); }
      }
      EndIsFound(l, u, visited + {t}, chain + [t], e, n - 1, end);
    }
  }

  /** Following aliases finds what they lead to, and fails only if they lead nowhere. */
  lemma EffectiveIsExact(l: Lineage, t: Token, end: Option<Provider>)
    ensures EffectiveProvider(l, t, {}, []) == Found(end) <==> AliasesLeadTo(l, t, end)
    ensures EffectiveProvider(l, t, {}, []).AliasCycle? <==> forall x :: !AliasesLeadTo(l, t, x)
  {
    FollowingEnds(l, t, {}, []);
    forall x | AliasesLeadTo(l, t, x) ensures EffectiveProvider(l, t, {}, []) == Found(x) {
      var e: Token, n: nat :| Follows(l, t, e, n) && EndsAt(l, e, x);
      EndIsFound(l, t, {}, [], e, n, x);
    }
  }

  // ---------- The search ----------

  /** The dependencies include the token; optional ones count if it is registered. */
  ghost predicate Includes(l: Lineage, deps: seq<Dep>, u: Token) {
    exists d <- deps :: !Skipped(l, d) && d.token == u
  }

  /** The provider behind a needs b. */
  ghost predicate CheckEdge(l: Lineage, a: Token, b: Token) {
    exists p :: EffectiveProvider(l, a, {}, []) == Found(Some(p)) && Includes(l, p.inject, b)
  }

  /** Behind the token stands a request-scoped provider, or it leads into a cycle of aliases. */
  predicate Forbidden(l: Lineage, t: Token) {
    var e := EffectiveProvider(l, t, {}, []);
    e.AliasCycle? || (e.provider.Some? && e.provider.value.scope == Request)
  }

  ghost predicate CheckWalk(l: Lineage, w: seq<Token>) {
    w != [] && forall i | 0 <= i < |w| - 1 :: CheckEdge(l, w[i], w[i + 1])
  }

  /** A walk from t to something forbidden that keeps off the given tokens. */
  ghost predicate LeadsToForbidden(l: Lineage, t: Token, w: seq<Token>, visited: set<Token>) {
    CheckWalk(l, w) && w[0] == t && Forbidden(l, w[|w| - 1]) && forall x <- w :: x !in visited
  }

  lemma StepThenCheckWalk(l: Lineage, t: Token, rest: seq<Token>)
    requires CheckWalk(l, rest) && CheckEdge(l, t, rest[0])
    ensures CheckWalk(l, [t] + rest)
  {
    var w := [t] + rest;
    forall i | 0 <= i < |w| - 1 ensures CheckEdge(l, w[i], w[i + 1]) {
      if i > 0 { assert CheckEdge(l, rest[i - 1], rest[i]); }
    }
  }

  /** What the search answers belongs to something forbidden that a walk leads to. */
  lemma {:induction false} FindingHasWalk(l: Lineage, t: Token, visited: set<Token>) returns (w: seq<Token>)
    requires FindInToken(l, t, visited) != Nothing
    ensures LeadsToForbidden(l, t, w, visited)
    ensures FindInToken(l, t, visited).FoundRequest? ==>
              var e := EffectiveProvider(l, w[|w| - 1], {}, []);
              e.Found? && e.provider.Some? && FindInToken(l, t, visited) == FoundRequest(e.provider.value.provide)
    ensures FindInToken(l, t, visited).AliasLoop? ==> EffectiveProvider(l, w[|w| - 1], {}, []).AliasCycle?
    decreases Registered(l) - visited, 0
  {
    w := [t];
    var e := EffectiveProvider(l, t, {}, []);
    if e.Found? && e.provider.value.scope != Request {
      EffectiveIsRegistered(l, t);
      var u, rest := FindingInDepsHasWalk(l, e.provider.value.inject, visited + {t});
      assert CheckEdge(l, t, u);
      StepThenCheckWalk(l, t, rest);
      w := [t] + rest;
    }
  }

  lemma {:induction false} FindingInDepsHasWalk(l: Lineage, deps: seq<Dep>, visited: set<Token>)
      returns (u: Token, w: seq<Token>)
    requires FindInDeps(l, deps, visited) != Nothing
    ensures Includes(l, deps, u) && LeadsToForbidden(l, u, w, visited)
    ensures FindInDeps(l, deps, visited).FoundRequest? ==>
              var e := EffectiveProvider(l, w[|w| - 1], {}, []);
              e.Found? && e.provider.Some? && FindInDeps(l, deps, visited) == FoundRequest(e.provider.value.provide)
    ensures FindInDeps(l, deps, visited).AliasLoop? ==> EffectiveProvider(l, w[|w| - 1], {}, []).AliasCycle?
    decreases Registered(l) - visited, 1, |deps|
  {
    assert deps == [deps[0]] + deps[1..] && deps[0] in deps;
    if !Skipped(l, deps[0]) && FindInToken(l, deps[0].token, visited) != Nothing {
      u := deps[0].token;
      w := FindingHasWalk(l, u, visited);
    } else {
      u, w := FindingInDepsHasWalk(l, deps[1..], visited);
    }
  }

  lemma {:induction false} OneFindingIsEnough(l: Lineage, deps: seq<Dep>, d: Dep, visited: set<Token>)
    requires d in deps && !Skipped(l, d) && FindInToken(l, d.token, visited) != Nothing
    ensures FindInDeps(l, deps, visited) != Nothing
    decreases |deps|
  {
    if d != deps[0] {
      assert deps == [deps[0]] + deps[1..];
      OneFindingIsEnough(l, deps[1..], d, visited);
    }
  }

  ghost predicate NoRepeat(w: seq<Token>) {
    forall i, j | 0 <= i < j < |w| :: w[i] != w[j]
  }

  lemma {:induction false} SimpleWalkFinds(l: Lineage, t: Token, w: seq<Token>, visited: set<Token>)
    requires LeadsToForbidden(l, t, w, visited) && NoRepeat(w)
    ensures FindInToken(l, t, visited) != Nothing
    decreases |w|
  {
    assert t in w;
    if |w| > 1 && !Forbidden(l, t) {
      assert CheckEdge(l, w[0], w[1]);
      var p :| EffectiveProvider(l, t, {}, []) == Found(Some(p)) && Includes(l, p.inject, w[1]);
      var d :| d in p.inject && !Skipped(l, d) && d.token == w[1];
      var rest := w[1..];
      forall i | 0 <= i < |rest| - 1 ensures CheckEdge(l, rest[i], rest[i + 1]) {
        assert CheckEdge(l, w[i + 1], w[i + 2]);
      }
      EffectiveIsRegistered(l, t);
      SimpleWalkFinds(l, w[1], rest, visited + {t});
      OneFindingIsEnough(l, p.inject, d, visited + {t});
    }
  }

  lemma CutCheckWalk(l: Lineage, w: seq<Token>, i: nat, j: nat)
    requires CheckWalk(l, w) && i < j < |w| && w[i] == w[j]
    ensures CheckWalk(l, w[..i] + w[j..])
  {
    var short := w[..i] + w[j..];
    forall k | 0 <= k < |short| - 1 ensures CheckEdge(l, short[k], short[k + 1]) {
      var from := CutAt(w, i, j, k);
      assert CheckEdge(l, w[from], w[from + 1]);
    }
  }

  lemma {:induction false} WalkFinds(l: Lineage, t: Token, w: seq<Token>, visited: set<Token>)
    requires LeadsToForbidden(l, t, w, visited)
    ensures FindInToken(l, t, visited) != Nothing
    decreases |w|
  {
    if NoRepeat(w) {
      SimpleWalkFinds(l, t, w, visited);
    } else {
      var i: nat, j: nat :| i < j < |w| && w[i] == w[j];
      CutCheckWalk(l, w, i, j);
      var short := w[..i] + w[j..];
      assert short[0] == (if i == 0 then w[j] else w[0]) && short[|short| - 1] == w[|w| - 1];
      assert forall x <- short :: x in w;
      WalkFinds(l, t, short, visited);
    }
  }

  /**
   The check is exact: it objects to a singleton if and only if some walk along its dependencies, aliases followed, that
   does not come back to it leads to a request-scoped provider or into a cycle of aliases.
   */
  lemma SingletonCheckIsExact(l: Lineage, p: Provider)
    ensures FindInDeps(l, p.inject, {p.provide}) != Nothing <==>
            exists u: Token, w: seq<Token> :: Includes(l, p.inject, u) && LeadsToForbidden(l, u, w, {p.provide})
  {
    if FindInDeps(l, p.inject, {p.provide}) != Nothing {
      var u, w := FindingInDepsHasWalk(l, p.inject, {p.provide});
    }
    forall u: Token, w: seq<Token> | Includes(l, p.inject, u) && LeadsToForbidden(l, u, w, {p.provide})
      ensures FindInDeps(l, p.inject, {p.provide}) != Nothing
    {
      WalkFinds(l, u, w, {p.provide});
      var d :| d in p.inject && !Skipped(l, d) && d.token == u;
      OneFindingIsEnough(l, p.inject, d, {p.provide});
    }
  }

  // ---------- What a finding means for a resolution ----------

  /** A walk along its dependencies leads from the provider to something forbidden. */
  ghost predicate LeadsAstray(l: Lineage, p: Provider) {
    exists u: Token, w: seq<Token> :: Includes(l, p.inject, u) && LeadsToForbidden(l, u, w, {p.provide})
  }

  lemma AstrayIsNotBuilt(l: Lineage, p: Provider, chain: seq<Token>, c: Caches, throws: nat -> bool)
    requires l != [] && p.scope == Singleton && !p.kind.Existing? && LeadsAstray(l, p)
    ensures var a := Instantiate(l, p, chain, c, throws); a.result.Failed? && a.caches == c
    ensures var e := Instantiate(l, p, chain, c, throws).result.error; e.DependsOnRequestScope? || e.Circular?
  {
    SingletonCheckIsExact(l, p);
  }

  /** Where the singleton is constructed: in the root's lineage if it is handed to the root, else in the scope's own. */
  function BuiltIn(l: Lineage, p: Provider): (h: Lineage)
    requires l != []
    ensures h != []
  {
    if FromRoot(l, p) then RootOf(l) else l
  }

  lemma AstrayScopedFails(l: Lineage, p: Provider, chain: seq<Token>, c: Caches, throws: nat -> bool)
    requires l != [] && p.scope == Singleton && !p.kind.Existing? && LeadsAstray(BuiltIn(l, p), p)
    requires p.provide !in c.singles && p.provide !in c.requests
    ensures var a := ResolveScoped(l, p, chain, c, throws);
            a.result.Failed? && a.caches == c && (a.result.error.DependsOnRequestScope? || a.result.error.Circular?)
  {
    AstrayIsNotBuilt(BuiltIn(l, p), p, chain, c, throws);
    if FromRoot(l, p) {
      RootRegistered(l);
      assert ResolveScoped(l, p, chain, c, throws) == ResolveScoped(RootOf(l), p, chain, c, throws);
    }
  }

  /**
   A singleton from which a walk leads to a request-scoped provider is never constructed: unless an instance is cached,
   resolving its token fails and changes nothing.
   */
  lemma AstraySingletonFails(l: Lineage, t: Token, p: Provider, chain: seq<Token>, c: Caches, throws: nat -> bool)
    requires l != [] && (t in l[0].singles || Collect(l, t) == []) && Lookup(l, t) == Some(p) && p.provide == t
    requires p.scope == Singleton && !p.kind.Existing? && LeadsAstray(BuiltIn(l, p), p)
    requires t !in c.singles && t !in c.requests
    ensures var a := ResolveToken(l, t, chain, c, throws);
            a.result.Failed? && a.caches == c && (a.result.error.DependsOnRequestScope? || a.result.error.Circular?)
  {
    if t !in chain {
      ProvidersAreRegistered(l, t);
      ChainGrows(l, chain, t);
      assert CachedSingleton(l, p, c).None?;
      AstrayScopedFails(l, p, chain + [t], c, throws);
    }
  }
}
