/**
 Resolution as the container runs it: the caches are updated in place, and one chain with its set of active tokens is
 pushed and popped along the whole resolution.
 */
module DiResolver {
  import opened Options
  import opened DiGraph
  import R = DiResolve

  /** The tokens being resolved, in order and as a set. */
  class ResolutionPath {
    var chain: seq<Token>
    var active: set<Token>

    ghost predicate Valid()
      reads this
    {
      active == R.Elements(chain) && forall i, j | 0 <= i < j < |chain| :: chain[i] != chain[j]
    }

    constructor ()
      ensures Valid() && chain == []
    {
      chain, active := [], {};
    }

    method Enter(t: Token)
      requires Valid() && t !in active
      modifies this
      ensures Valid() && chain == old(chain) + [t] && active == old(active) + {t}
    {
      chain := chain + [t];
      active := active + {t};
    }

    method Leave()
      requires Valid() && chain != []
      modifies this
      ensures Valid() && chain == old(chain)[..|old(chain)| - 1]
    {
      var t := chain[|chain| - 1];
      active := active - {t};
      chain := chain[..|chain| - 1];
      assert old(chain) == chain + [t];
      assert R.Elements(old(chain)) == R.Elements(chain) + {t};
      assert t !in R.Elements(chain);
    }
  }

  class Resolver {
    var singles: map<Token, R.Instance>
    var multiSingles: map<Provider, R.Instance>
    var requests: map<Token, R.Instance>
    var multiRequests: map<Provider, R.Instance>
    var built: nat

    ghost function Contents(): R.Caches
      reads this
    {
      R.Caches(singles, multiSingles, requests, multiRequests, built)
    }

    constructor ()
      ensures Contents() == R.Caches(map[], map[], map[], map[], 0)
    {
      singles, multiSingles, requests, multiRequests, built := map[], map[], map[], map[], 0;
    }

    /** A public resolution is refused once the container or one above it is disposed, and starts with an empty path. */
    method Resolve(l: Lineage, t: Token, gone: bool, throws: nat -> bool) returns (r: R.Result<R.Instance>)
      requires l != []
      modifies this
      ensures gone ==> r == R.Failed(R.ContainerDisposed(t)) && Contents() == old(Contents())
      ensures !gone ==> R.Answer(r, Contents()) == R.ResolveToken(l, t, [], old(Contents()), throws)
    {
      if gone {
        return R.Failed(R.ContainerDisposed(t));
      }
      var path := new ResolutionPath();
      r := ResolveToken(l, t, path, throws);
    }

    method ResolveToken(l: Lineage, t: Token, path: ResolutionPath, throws: nat -> bool)
        returns (r: R.Result<R.Instance>)
      requires l != [] && path.Valid()
      modifies this, path
      ensures path.Valid() && path.chain == old(path.chain) && path.active == old(path.active)
      ensures R.Answer(r, Contents()) == R.ResolveToken(l, t, old(path.chain), old(Contents()), throws)
      decreases Registered(l) - R.Elements(path.chain), 1
    {
      if t in path.active {
        return R.Failed(R.Circular(path.chain + [t]));
      }
      ProvidersAreRegistered(l, t);
      ghost var outer := path.chain;
      var multis := Collect(l, t);
      if t !in l[0].singles && multis != [] {
        R.ChainGrows(l, path.chain, t);
        path.Enter(t);
        var rs := ResolveMultis(l, multis, path, throws);
        path.Leave();
        r := if rs.Ok? then R.Ok(R.Many(rs.value)) else R.Failed(rs.error);
        return;
      }
      var found := Lookup(l, t);
      if found == None {
        return R.Failed(R.NotRegistered(t));
      }
      var p := found.value;
      R.ChainGrows(l, path.chain, t);
      if p.kind.Existing? {
        path.Enter(t);
        r := ResolveToken(l, p.kind.target, path, throws);
        path.Leave();
      } else if p.scope == Transient {
        path.Enter(t);
        r := Instantiate(l, p, path, throws);
        path.Leave();
      } else {
        var cached := CachedSingleton(l, p);
        if cached.Some? {
          return R.Ok(cached.value);
        }
        path.Enter(t);
        r := ResolveScoped(l, p, path, throws);
        path.Leave();
      }
    }

    method CachedSingleton(l: Lineage, p: Provider) returns (r: Option<R.Instance>)
      requires l != []
      ensures r == R.CachedSingleton(l, p, Contents())
    {
      if p.scope != Singleton {
        return None;
      }
      if |l| == 1 || R.FromRoot(l, p) {
        r := if p.provide in singles then Some(singles[p.provide]) else None;
      } else {
        r := if p.provide in requests then Some(requests[p.provide]) else None;
      }
    }

    method ResolveMultis(l: Lineage, ps: seq<Provider>, path: ResolutionPath, throws: nat -> bool)
        returns (r: R.Result<seq<R.Instance>>)
      requires l != [] && path.Valid()
      modifies this, path
      ensures path.Valid() && path.chain == old(path.chain) && path.active == old(path.active)
      ensures R.Answer(r, Contents()) == R.ResolveMultis(l, ps, old(path.chain), old(Contents()), throws)
      decreases Registered(l) - R.Elements(path.chain), 6
    {
      var instances: seq<R.Instance> := [];
      ghost var chain := path.chain;
      assert ps[0..] == ps;
      CompletedNothing(R.ResolveMultis(l, ps, chain, Contents(), throws));
      for i := 0 to |ps|
        invariant path.Valid() && path.chain == chain && path.active == old(path.active)
        invariant Completed(instances, R.ResolveMultis(l, ps[i..], chain, Contents(), throws))
               == R.ResolveMultis(l, ps, chain, old(Contents()), throws)
      {
        assert ps[i..][0] == ps[i] && ps[i..][1..] == ps[i + 1..];
        var next := ResolveMulti(l, ps[i], path, throws);
        if next.Failed? {
          return R.Failed(next.error);
        }
        CompletedOneMore(instances, next.value, R.ResolveMultis(l, ps[i + 1..], chain, Contents(), throws));
        instances := instances + [next.value];
      }
      assert ps[|ps|..] == [];
      assert instances + [] == instances;
      r := R.Ok(instances);
    }

    /** The answer for the whole list, given what came out so far and the answer for the rest. */
    static ghost function Completed(done: seq<R.Instance>, rest: R.Answer<seq<R.Instance>>): R.Answer<seq<R.Instance>> {
      if rest.result.Ok? then rest.(result := R.Ok(done + rest.result.value)) else rest
    }

    static lemma CompletedNothing(rest: R.Answer<seq<R.Instance>>)
      ensures Completed([], rest) == rest
    {
      if rest.result.Ok? {
        assert [] + rest.result.value == rest.result.value;
      }
    }

    static lemma CompletedOneMore(done: seq<R.Instance>, next: R.Instance, rest: R.Answer<seq<R.Instance>>)
      ensures Completed(done + [next], rest) == Completed(done, Completed([next], rest))
    {
      if rest.result.Ok? {
        assert (done + [next]) + rest.result.value == done + ([next] + rest.result.value);
      }
    }

    method ResolveMulti(l: Lineage, p: Provider, path: ResolutionPath, throws: nat -> bool)
        returns (r: R.Result<R.Instance>)
      requires l != [] && path.Valid()
      modifies this, path
      ensures path.Valid() && path.chain == old(path.chain) && path.active == old(path.active)
      ensures R.Answer(r, Contents()) == R.ResolveMulti(l, p, old(path.chain), old(Contents()), throws)
      decreases Registered(l) - R.Elements(path.chain), 5, |l|
    {
      if p.kind.Existing? {
        r := ResolveToken(l, p.kind.target, path, throws);
        return;
      }
      if p.scope == Transient {
        r := Instantiate(l, p, path, throws);
        return;
      }
      if R.FromRootMulti(l, p) {
        R.RootRegistered(l);
        r := ResolveMulti(R.RootOf(l), p, path, throws);
        return;
      }
      if p.scope == Singleton && |l| == 1 {
        if p in multiSingles {
          return R.Ok(multiSingles[p]);
        }
        r := Instantiate(l, p, path, throws);
        if r.Ok? {
          multiSingles := multiSingles[p := r.value];
        }
        return;
      }
      if |l| == 1 {
        return R.Failed(R.OutsideRequestScope(p.provide));
      }
      if p in multiRequests {
        return R.Ok(multiRequests[p]);
      }
      r := Instantiate(l, p, path, throws);
      if r.Ok? {
        multiRequests := multiRequests[p := r.value];
      }
    }

    method ResolveScoped(l: Lineage, p: Provider, path: ResolutionPath, throws: nat -> bool)
        returns (r: R.Result<R.Instance>)
      requires l != [] && path.Valid() && !p.kind.Existing?
      modifies this, path
      ensures path.Valid() && path.chain == old(path.chain) && path.active == old(path.active)
      ensures R.Answer(r, Contents()) == R.ResolveScoped(l, p, old(path.chain), old(Contents()), throws)
      decreases Registered(l) - R.Elements(path.chain), 5, |l|
    {
      if R.FromRoot(l, p) {
        R.RootRegistered(l);
        r := ResolveScoped(R.RootOf(l), p, path, throws);
        return;
      }
      if p.scope == Singleton && |l| == 1 {
        if p.provide in singles {
          return R.Ok(singles[p.provide]);
        }
        r := Instantiate(l, p, path, throws);
        if r.Ok? {
          singles := singles[p.provide := r.value];
        }
        return;
      }
      if |l| == 1 {
        return R.Failed(R.OutsideRequestScope(p.provide));
      }
      if p.provide in requests {
        return R.Ok(requests[p.provide]);
      }
      r := Instantiate(l, p, path, throws);
      if r.Ok? {
        requests := requests[p.provide := r.value];
      }
    }

    method Instantiate(l: Lineage, p: Provider, path: ResolutionPath, throws: nat -> bool)
        returns (r: R.Result<R.Instance>)
      requires l != [] && path.Valid() && !p.kind.Existing?
      modifies this, path
      ensures path.Valid() && path.chain == old(path.chain) && path.active == old(path.active)
      ensures R.Answer(r, Contents()) == R.Instantiate(l, p, old(path.chain), old(Contents()), throws)
      decreases Registered(l) - R.Elements(path.chain), 4
    {
      if p.scope == Singleton {
        var finding := R.FindInDeps(l, p.inject, {p.provide});
        if finding.FoundRequest? {
          return R.Failed(R.DependsOnRequestScope(p.provide, finding.token));
        }
        if finding.AliasLoop? {
          return R.Failed(R.Circular(finding.path));
        }
      }
      if p.kind.Value? {
        return R.Ok(R.Given(p));
      }
      var deps := ResolveDeps(l, p.inject, path, throws);
      if deps.Failed? {
        return R.Failed(deps.error);
      }
      var n := built;
      built := n + 1;
      r := if throws(n) then R.Failed(R.ConstructorThrew(p)) else R.Ok(R.Built(n, p, deps.value));
    }

    method ResolveDep(l: Lineage, d: Dep, path: ResolutionPath, throws: nat -> bool) returns (r: R.Result<R.Instance>)
      requires l != [] && path.Valid()
      modifies this, path
      ensures path.Valid() && path.chain == old(path.chain) && path.active == old(path.active)
      ensures R.Answer(r, Contents())
           == if Skipped(l, d) then R.Answer(R.Ok(R.Missing), old(Contents()))
              else R.ResolveToken(l, d.token, old(path.chain), old(Contents()), throws)
      decreases Registered(l) - R.Elements(path.chain), 2
    {
      if d.Optional? && !Has(l, d.token) {
        return R.Ok(R.Missing);
      }
      r := ResolveToken(l, d.token, path, throws);
    }

    /** Dependencies are awaited one after the other, in declaration order. */
    method ResolveDeps(l: Lineage, deps: seq<Dep>, path: ResolutionPath, throws: nat -> bool)
        returns (r: R.Result<seq<R.Instance>>)
      requires l != [] && path.Valid()
      modifies this, path
      ensures path.Valid() && path.chain == old(path.chain) && path.active == old(path.active)
      ensures R.Answer(r, Contents()) == R.ResolveDeps(l, deps, old(path.chain), old(Contents()), throws)
      decreases Registered(l) - R.Elements(path.chain), 3
    {
      var instances: seq<R.Instance> := [];
      ghost var chain := path.chain;
      assert deps[0..] == deps;
      CompletedNothing(R.ResolveDeps(l, deps, chain, Contents(), throws));
      for i := 0 to |deps|
        invariant path.Valid() && path.chain == chain && path.active == old(path.active)
        invariant Completed(instances, R.ResolveDeps(l, deps[i..], chain, Contents(), throws))
               == R.ResolveDeps(l, deps, chain, old(Contents()), throws)
      {
        assert deps[i..][0] == deps[i] && deps[i..][1..] == deps[i + 1..];
        var next := ResolveDep(l, deps[i], path, throws);
        if next.Failed? {
          return R.Failed(next.error);
        }
        CompletedOneMore(instances, next.value, R.ResolveDeps(l, deps[i + 1..], chain, Contents(), throws));
        instances := instances + [next.value];
      }
      assert deps[|deps|..] == [];
      assert instances + [] == instances;
      r := R.Ok(instances);
    }
  }
}
