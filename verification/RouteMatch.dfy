/**
 The compiled route index and the match of a request against it.

 Literal routes are found by method and exact path, parameterized ones by method and number of segments.  What the
 index finds is what an ordered scan of all descriptors finds: literal routes before parameterized ones, a route of the
 requested version before the first unversioned one, the request's own method before ALL, then registration order.
 */
module RouteMatch {
  import opened Options
  import opened RoutePath
  import opened RouteTable
  import Text

  datatype Request = Request(verb: string, path: string, versions: seq<Option<string>>)
  datatype HandlerMatch = HandlerMatch(descriptor: Descriptor, params: Params)
  datatype Indexed = Indexed(descriptor: Descriptor, segments: seq<Segment>)

  datatype Index = Index(
    literals: map<string, map<string, seq<Descriptor>>>,
    params: map<string, map<nat, seq<Indexed>>>)

  // ---------- Versions ----------

  /** The first extracted value that is a string and not empty once normalized. */
  function RequestVersion(values: seq<Option<string>>): Option<string> {
    if values == [] then None
    else if values[0].Some? && NormalizeVersion(values[0].value) != "" then Some(NormalizeVersion(values[0].value))
    else RequestVersion(values[1..])
  }

  predicate MatchesVersion(d: Descriptor, version: Option<string>) {
    if d.version.None? || d.version.value == "" then version.None?
    else version.Some? && version.value != "" && NormalizeVersion(d.version.value) == version.value
  }

  predicate Exact(d: Descriptor, versioning: Versioning, version: Option<string>) {
    versioning.Uri? || MatchesVersion(d, version)
  }

  // ---------- Ordered scans ----------

  function First(ds: seq<Descriptor>, f: Descriptor -> bool): Option<Descriptor> {
    if ds == [] then None else if f(ds[0]) then Some(ds[0]) else First(ds[1..], f)
  }

  function Filter(ds: seq<Descriptor>, f: Descriptor -> bool): seq<Descriptor> {
    if ds == [] then [] else (if f(ds[0]) then [ds[0]] else []) + Filter(ds[1..], f)
  }

  function OrElse<T>(a: Option<T>, b: Option<T>): Option<T> { if a.Some? then a else b }

  function FirstExact(ds: seq<Descriptor>, versioning: Versioning, version: Option<string>): Option<Descriptor> {
    First(ds, (d: Descriptor) => Exact(d, versioning, version))
  }

  function FirstUnversioned(ds: seq<Descriptor>): Option<Descriptor> {
    First(ds, (d: Descriptor) => d.version.None?)
  }

  /** The first descriptor of the requested version, else the first without a version. */
  function Pick(ds: seq<Descriptor>, versioning: Versioning, version: Option<string>): Option<Descriptor> {
    OrElse(FirstExact(ds, versioning, version), FirstUnversioned(ds))
  }

  predicate AllLiteral(segments: seq<Segment>) { forall s <- segments :: s.Literal? }

  predicate IsLiteral(d: Descriptor) { Parses(d) && AllLiteral(Parse(d.path).value) }

  predicate InLiterals(d: Descriptor, verb: string, path: string) {
    d.verb == verb && IsLiteral(d) && d.path == path
  }

  predicate InParams(d: Descriptor, verb: string, count: nat) {
    d.verb == verb && Parses(d) && !IsLiteral(d) && |Parse(d.path).value| == count
  }

  function LiteralBucket(ds: seq<Descriptor>, verb: string, path: string): seq<Descriptor> {
    Filter(ds, (d: Descriptor) => InLiterals(d, verb, path))
  }

  function ParamBucket(ds: seq<Descriptor>, verb: string, count: nat): seq<Descriptor> {
    Filter(ds, (d: Descriptor) => InParams(d, verb, count))
  }

  function Index1(d: Descriptor): Indexed
    requires Parses(d)
  {
    Indexed(d, Parse(d.path).value)
  }

  ghost predicate AllParse(ds: seq<Descriptor>) { forall d <- ds :: Parses(d) }

  function IndexAll(ds: seq<Descriptor>): seq<Indexed>
    requires AllParse(ds)
  {
    seq(|ds|, i requires 0 <= i < |ds| => Index1(ds[i]))
  }

  lemma {:induction false} FilterIsPart(ds: seq<Descriptor>, f: Descriptor -> bool)
    ensures forall d :: d in Filter(ds, f) <==> d in ds && f(d)
    decreases |ds|
  {
    if ds != [] {
      assert ds == [ds[0]] + ds[1..];
      FilterIsPart(ds[1..], f);
    }
  }

  lemma {:induction false} FilterSnoc(ds: seq<Descriptor>, d: Descriptor, f: Descriptor -> bool)
    ensures Filter(ds + [d], f) == Filter(ds, f) + if f(d) then [d] else []
    decreases |ds|
  {
    if ds != [] {
      assert (ds + [d])[1..] == ds[1..] + [d];
      FilterSnoc(ds[1..], d, f);
    } else {
      assert ds + [d] == [d];
    }
  }

  // ---------- Building the index ----------

  function LiteralsAt(index: Index, verb: string, path: string): seq<Descriptor> {
    if verb in index.literals && path in index.literals[verb] then index.literals[verb][path] else []
  }

  function ParamsAt(index: Index, verb: string, count: nat): seq<Indexed> {
    if verb in index.params && count in index.params[verb] then index.params[verb][count] else []
  }

  /** Every bucket lists the descriptors that belong to it, in registration order. */
  ghost predicate Represents(index: Index, ds: seq<Descriptor>) {
    && AllParse(ds)
    && (forall verb, path :: LiteralsAt(index, verb, path) == LiteralBucket(ds, verb, path))
    && (forall verb, count | AllParse(ParamBucket(ds, verb, count)) ::
          ParamsAt(index, verb, count) == IndexAll(ParamBucket(ds, verb, count)))
  }

  lemma ParamBucketParses(ds: seq<Descriptor>, verb: string, count: nat)
    ensures AllParse(ParamBucket(ds, verb, count))
  {
    FilterIsPart(ds, (d: Descriptor) => InParams(d, verb, count));
  }

  function AddLiteral(index: Index, d: Descriptor): Index {
    var paths := if d.verb in index.literals then index.literals[d.verb] else map[];
    var bucket := if d.path in paths then paths[d.path] else [];
    index.(literals := index.literals[d.verb := paths[d.path := bucket + [d]]])
  }

  function AddParam(index: Index, d: Descriptor, segments: seq<Segment>): Index {
    var counts := if d.verb in index.params then index.params[d.verb] else map[];
    var bucket := if |segments| in counts then counts[|segments|] else [];
    index.(params := index.params[d.verb := counts[|segments| := bucket + [Indexed(d, segments)]]])
  }

  lemma LiteralBucketGrows(index: Index, index': Index, ds: seq<Descriptor>, d: Descriptor, verb: string, path: string)
    requires LiteralsAt(index, verb, path) == LiteralBucket(ds, verb, path)
    requires LiteralsAt(index', verb, path)
          == LiteralsAt(index, verb, path) + if InLiterals(d, verb, path) then [d] else []
    ensures LiteralsAt(index', verb, path) == LiteralBucket(ds + [d], verb, path)
  {
    FilterSnoc(ds, d, (x: Descriptor) => InLiterals(x, verb, path));
  }

  lemma ParamBucketGrows(index: Index, index': Index, ds: seq<Descriptor>, d: Descriptor, verb: string, count: nat)
    requires AllParse(ParamBucket(ds, verb, count)) && Parses(d)
    requires ParamsAt(index, verb, count) == IndexAll(ParamBucket(ds, verb, count))
    requires ParamsAt(index', verb, count)
          == ParamsAt(index, verb, count) + if InParams(d, verb, count) then [Index1(d)] else []
    ensures AllParse(ParamBucket(ds + [d], verb, count))
    ensures ParamsAt(index', verb, count) == IndexAll(ParamBucket(ds + [d], verb, count))
  {
    FilterSnoc(ds, d, (x: Descriptor) => InParams(x, verb, count));
  }

  lemma AddLiteralRepresents(index: Index, ds: seq<Descriptor>, d: Descriptor)
    requires Represents(index, ds) && IsLiteral(d)
    ensures Represents(AddLiteral(index, d), ds + [d])
  {
    var index' := AddLiteral(index, d);
    forall verb, path ensures LiteralsAt(index', verb, path) == LiteralBucket(ds + [d], verb, path) {
      LiteralBucketGrows(index, index', ds, d, verb, path);
    }
    forall verb, count | AllParse(ParamBucket(ds + [d], verb, count))
      ensures ParamsAt(index', verb, count) == IndexAll(ParamBucket(ds + [d], verb, count))
    {
      LiteralKeepsParams(index, ds, d, verb, count);
    }
  }

  lemma LiteralKeepsParams(index: Index, ds: seq<Descriptor>, d: Descriptor, verb: string, count: nat)
    requires Represents(index, ds) && IsLiteral(d)
    ensures AllParse(ParamBucket(ds + [d], verb, count))
    ensures ParamsAt(AddLiteral(index, d), verb, count) == IndexAll(ParamBucket(ds + [d], verb, count))
  {
    ParamBucketParses(ds, verb, count);
    ParamBucketGrows(index, AddLiteral(index, d), ds, d, verb, count);
  }

  lemma AddParamRepresents(index: Index, ds: seq<Descriptor>, d: Descriptor)
    requires Represents(index, ds) && Parses(d) && !IsLiteral(d)
    ensures Represents(AddParam(index, d, Parse(d.path).value), ds + [d])
  {
    var index' := AddParam(index, d, Parse(d.path).value);
    forall verb, path ensures LiteralsAt(index', verb, path) == LiteralBucket(ds + [d], verb, path) {
      LiteralBucketGrows(index, index', ds, d, verb, path);
    }
    forall verb, count | AllParse(ParamBucket(ds + [d], verb, count))
      ensures ParamsAt(index', verb, count) == IndexAll(ParamBucket(ds + [d], verb, count))
    {
      ParamBucketParses(ds, verb, count);
      ParamBucketGrows(index, index', ds, d, verb, count);
    }
  }

  method BuildDescriptorIndex(ds: seq<Descriptor>) returns (index: Index)
    requires AllParse(ds)
    ensures Represents(index, ds)
  {
    index := Index(map[], map[]);
    for k := 0 to |ds|
      invariant Represents(index, ds[..k])
    {
      var d := ds[k];
      assert ds[..k + 1] == ds[..k] + [d] && d in ds;
      var segments := Parse(d.path).value;
      if AllLiteral(segments) {
        AddLiteralRepresents(index, ds[..k], d);
        index := AddLiteral(index, d);
      } else {
        AddParamRepresents(index, ds[..k], d);
        index := AddParam(index, d, segments);
      }
    }
    assert ds[..|ds|] == ds;
  }

  // ---------- Matching ----------

  function Flatten(buckets: seq<seq<Descriptor>>): seq<Descriptor> {
    if buckets == [] then [] else buckets[0] + Flatten(buckets[1..])
  }

  lemma {:induction false} FirstSnoc(ds: seq<Descriptor>, d: Descriptor, f: Descriptor -> bool)
    ensures First(ds + [d], f) == OrElse(First(ds, f), if f(d) then Some(d) else None)
    decreases |ds|
  {
    if ds != [] {
      assert (ds + [d])[1..] == ds[1..] + [d];
      FirstSnoc(ds[1..], d, f);
    } else {
      assert ds + [d] == [d];
    }
  }

  lemma {:induction false} FirstOfConcat(a: seq<Descriptor>, b: seq<Descriptor>, f: Descriptor -> bool)
    ensures First(a + b, f) == OrElse(First(a, f), First(b, f))
    decreases |a|
  {
    if a != [] {
      assert (a + b)[1..] == a[1..] + b;
      FirstOfConcat(a[1..], b, f);
    } else {
      assert a + b == b;
    }
  }

  lemma {:induction false} FlattenSnoc(buckets: seq<seq<Descriptor>>, b: seq<Descriptor>)
    ensures Flatten(buckets + [b]) == Flatten(buckets) + b
    decreases |buckets|
  {
    if buckets != [] {
      assert (buckets + [b])[1..] == buckets[1..] + [b];
      FlattenSnoc(buckets[1..], b);
    } else {
      assert buckets + [b] == [b];
    }
  }

  lemma FlattenPair(a: seq<Descriptor>, b: seq<Descriptor>)
    ensures Flatten([a, b]) == a + b
  {
    FlattenSnoc([a], b);
    assert [a] + [b] == [a, b];
    assert Flatten([a]) == a + Flatten([a][1..]);
  }

  function Plainly(d: Option<Descriptor>): Option<HandlerMatch> {
    match d
    case None => None
    case Some(x) => Some(HandlerMatch(x, map[]))
  }

  method FindStaticMatch(buckets: seq<seq<Descriptor>>, version: Option<string>, versioning: Versioning)
      returns (r: Option<HandlerMatch>)
    ensures r == Plainly(Pick(Flatten(buckets), versioning, version))
  {
    var exact := (d: Descriptor) => Exact(d, versioning, version);
    var unversioned := (d: Descriptor) => d.version.None?;
    var firstUnversioned: Option<Descriptor> := None;
    ghost var seen: seq<Descriptor> := [];
    for b := 0 to |buckets|
      invariant seen == Flatten(buckets[..b])
      invariant First(seen, exact) == None && firstUnversioned == First(seen, unversioned)
    {
      ghost var before := seen;
      for k := 0 to |buckets[b]|
        invariant seen == before + buckets[b][..k]
        invariant First(seen, exact) == None && firstUnversioned == First(seen, unversioned)
      {
        var d := buckets[b][k];
        FirstSnoc(seen, d, exact);
        FirstSnoc(seen, d, unversioned);
        seen := seen + [d];
        assert seen == before + buckets[b][..k + 1];
        if versioning.Uri? || MatchesVersion(d, version) {
          ExactFound(buckets, b, k, seen, exact);
          return Some(HandlerMatch(d, map[]));
        }
        if d.version == None && firstUnversioned == None {
          firstUnversioned := Some(d);
        }
      }
      assert buckets[..b + 1] == buckets[..b] + [buckets[b]];
      FlattenSnoc(buckets[..b], buckets[b]);
      assert buckets[b][..|buckets[b]|] == buckets[b];
    }
    assert buckets[..|buckets|] == buckets;
    r := Plainly(firstUnversioned);
  }

  lemma ExactFound(buckets: seq<seq<Descriptor>>, b: nat, k: nat, seen: seq<Descriptor>, f: Descriptor -> bool)
    requires b < |buckets| && k < |buckets[b]| && seen == Flatten(buckets[..b]) + buckets[b][..k + 1]
    requires First(seen, f).Some?
    ensures First(Flatten(buckets), f) == First(seen, f)
  {
    FlattenSplit(buckets, b);
    var rest := buckets[b][k + 1..] + Flatten(buckets[b + 1..]);
    assert Flatten(buckets) == seen + rest;
    FirstOfConcat(seen, rest, f);
  }

  lemma {:induction false} FlattenSplit(buckets: seq<seq<Descriptor>>, b: nat)
    requires b < |buckets|
    ensures Flatten(buckets) == Flatten(buckets[..b]) + buckets[b] + Flatten(buckets[b + 1..])
    decreases b
  {
    if b > 0 {
      FlattenSplit(buckets[1..], b - 1);
      assert buckets[1..][..b - 1] == buckets[1..b] && buckets[..b][1..] == buckets[1..b];
      assert buckets[1..][b..] == buckets[b + 1..];
    }
  }

  predicate Fits(d: Descriptor, incoming: seq<string>) { Parses(d) && Matches(Parse(d.path).value, incoming) }

  function Fitting(ds: seq<Descriptor>, incoming: seq<string>): seq<Descriptor> {
    Filter(ds, (d: Descriptor) => Fits(d, incoming))
  }

  function Bound(d: Option<Descriptor>, incoming: seq<string>): Option<HandlerMatch> {
    match d
    case None => None
    case Some(x) => if Fits(x, incoming) then Some(HandlerMatch(x, Bind(Parse(x.path).value, incoming))) else None
  }

  lemma {:induction false} FilterConcat(a: seq<Descriptor>, b: seq<Descriptor>, f: Descriptor -> bool)
    ensures Filter(a + b, f) == Filter(a, f) + Filter(b, f)
    decreases |a|
  {
    if a != [] {
      assert (a + b)[1..] == a[1..] + b;
      FilterConcat(a[1..], b, f);
    } else {
      assert a + b == b;
    }
  }

  lemma FittingFound(ds: seq<Descriptor>, k: nat, incoming: seq<string>, f: Descriptor -> bool)
    requires k <= |ds| && First(Fitting(ds[..k], incoming), f).Some?
    ensures First(Fitting(ds, incoming), f) == First(Fitting(ds[..k], incoming), f)
  {
    var fits := (d: Descriptor) => Fits(d, incoming);
    assert ds == ds[..k] + ds[k..];
    FilterConcat(ds[..k], ds[k..], fits);
    FirstOfConcat(Filter(ds[..k], fits), Filter(ds[k..], fits), f);
  }

  lemma FittingNext(ds: seq<Descriptor>, k: nat, incoming: seq<string>, f: Descriptor -> bool)
    requires k < |ds|
    ensures First(Fitting(ds[..k + 1], incoming), f)
         == OrElse(First(Fitting(ds[..k], incoming), f),
                   if Fits(ds[k], incoming) && f(ds[k]) then Some(ds[k]) else None)
  {
    assert ds[..k + 1] == ds[..k] + [ds[k]];
    FilterSnoc(ds[..k], ds[k], (x: Descriptor) => Fits(x, incoming));
    FirstSnoc(Fitting(ds[..k], incoming), ds[k], f);
    assert Fitting(ds[..k], incoming) + [] == Fitting(ds[..k], incoming);
  }

  method FindParameterizedMatch(ghost ds: seq<Descriptor>, candidates: seq<Indexed>, incoming: seq<string>,
                                version: Option<string>, versioning: Versioning)
      returns (r: Option<HandlerMatch>)
    requires AllParse(ds) && candidates == IndexAll(ds)
    ensures r == Bound(Pick(Fitting(ds, incoming), versioning, version), incoming)
  {
    var exact := (d: Descriptor) => Exact(d, versioning, version);
    var unversioned := (d: Descriptor) => d.version.None?;
    var firstUnversioned: Option<HandlerMatch> := None;
    for k := 0 to |candidates|
      invariant First(Fitting(ds[..k], incoming), exact) == None
      invariant firstUnversioned == Bound(First(Fitting(ds[..k], incoming), unversioned), incoming)
      invariant firstUnversioned.None? ==> First(Fitting(ds[..k], incoming), unversioned) == None
    {
      var d := candidates[k].descriptor;
      var params := MatchParameterizedRoute(candidates[k].segments, incoming);
      FittingNext(ds, k, incoming, exact);
      FittingNext(ds, k, incoming, unversioned);
      if params.Some? {
        if versioning.Uri? || MatchesVersion(d, version) {
          FittingFound(ds, k + 1, incoming, exact);
          return Some(HandlerMatch(d, params.value));
        }
        if d.version == None && firstUnversioned == None {
          firstUnversioned := Some(HandlerMatch(d, params.value));
        }
      }
    }
    assert ds[..|ds|] == ds;
    r := firstUnversioned;
  }

  /** What a match finds in the buckets, literal routes first. */
  function Found(ds: seq<Descriptor>, versioning: Versioning, request: Request): Option<HandlerMatch> {
    var verb := Text.ToUpper(request.verb);
    var path := Normalize(request.path);
    var incoming := Segments(path);
    var version := if versioning.Uri? then None else RequestVersion(request.versions);
    OrElse(
      Plainly(Pick(LiteralBucket(ds, verb, path) + LiteralBucket(ds, "ALL", path), versioning, version)),
      Bound(Pick(Fitting(ParamBucket(ds, verb, |incoming|) + ParamBucket(ds, "ALL", |incoming|), incoming),
                 versioning, version), incoming))
  }

  lemma CandidatesOf(ds: seq<Descriptor>, index: Index, verb: string, count: nat)
    requires Represents(index, ds)
    ensures var both := ParamBucket(ds, verb, count) + ParamBucket(ds, "ALL", count);
            AllParse(both) && ParamsAt(index, verb, count) + ParamsAt(index, "ALL", count) == IndexAll(both)
  {
    ParamBucketParses(ds, verb, count);
    ParamBucketParses(ds, "ALL", count);
  }

  /** The index is asked for the request's own method first, then for routes of every method. */
  method Match(ghost ds: seq<Descriptor>, index: Index, versioning: Versioning, request: Request)
      returns (r: Option<HandlerMatch>)
    requires Represents(index, ds)
    ensures r == Found(ds, versioning, request)
  {
    var version := if versioning.Uri? then None else RequestVersion(request.versions);
    var verb := Text.ToUpper(request.verb);
    var path := Normalize(request.path);
    var buckets := [LiteralsAt(index, verb, path), LiteralsAt(index, "ALL", path)];
    FlattenPair(buckets[0], buckets[1]);
    var direct := FindStaticMatch(buckets, version, versioning);
    if direct.Some? {
      return direct;
    }
    var incoming := Segments(path);
    ghost var inBuckets := ParamBucket(ds, verb, |incoming|) + ParamBucket(ds, "ALL", |incoming|);
    CandidatesOf(ds, index, verb, |incoming|);
    var candidates := ParamsAt(index, verb, |incoming|) + ParamsAt(index, "ALL", |incoming|);
    r := FindParameterizedMatch(inBuckets, candidates, incoming, version, versioning);
  }
}
