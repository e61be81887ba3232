/** The match is the best of all eligible routes: the index refines a plain ordered scan of the descriptors. */
module RouteOrder {
  import opened Options
  import opened RoutePath
  import opened RouteTable
  import opened RouteMatch
  import Text

  /** What a match depends on: method in upper case, path normalized, version the first one the request gives. */
  datatype Query = Query(versioning: Versioning, verb: string, path: string, version: Option<string>)

  function QueryOf(versioning: Versioning, request: Request): Query {
    Query(versioning, Text.ToUpper(request.verb), Normalize(request.path),
          if versioning.Uri? then None else RequestVersion(request.versions))
  }

  // ---------- The plain scan ----------

  /** Method, path and version of the request allow this route. */
  predicate Eligible(d: Descriptor, q: Query) {
    && (d.verb == q.verb || d.verb == "ALL") && Fits(d, Segments(q.path))
    && (Exact(d, q.versioning, q.version) || d.version.None?)
  }

  /** Smaller is better: literal, then of the requested version, then registered for the request's own method. */
  function Tier(d: Descriptor, q: Query): nat {
    (if IsLiteral(d) then 0 else 4) + (if Exact(d, q.versioning, q.version) then 0 else 2) +
    (if d.verb == q.verb then 0 else 1)
  }

  ghost predicate NormalPaths(ds: seq<Descriptor>) {
    forall d <- ds :: Parses(d) && Normalize(d.path) == d.path
  }

  /** ds[i] is eligible and no other eligible descriptor is of a better tier, or of the same tier and earlier. */
  ghost predicate Best(ds: seq<Descriptor>, i: nat, q: Query)
    requires i < |ds|
  {
    && Eligible(ds[i], q)
    && forall j | 0 <= j < |ds| :: Eligible(ds[j], q) ==>
         var a, b := Tier(ds[i], q), Tier(ds[j], q);
         a < b || (a == b && i <= j)
  }

  // ---------- Scanning tier by tier ----------

  predicate Level(d: Descriptor, k: nat, q: Query) {
    && (if k < 4 then IsLiteral(d) && d.path == q.path else !IsLiteral(d) && Fits(d, Segments(q.path)))
    && d.verb == (if k % 2 == 0 then q.verb else "ALL")
    && (if k % 4 < 2 then Exact(d, q.versioning, q.version) else d.version.None?)
  }

  function AtLevel(k: nat, q: Query): Descriptor -> bool {
    (d: Descriptor) => Level(d, k, q)
  }

  function Scan(ds: seq<Descriptor>, k: nat, q: Query)
      : Option<Descriptor>
    decreases 8 - k
  {
    if k >= 8 then None
    else OrElse(First(ds, AtLevel(k, q)), Scan(ds, k + 1, q))
  }

  lemma {:induction false} FirstIsLeast(ds: seq<Descriptor>, f: Descriptor -> bool) returns (i: nat)
    requires First(ds, f).Some?
    ensures i < |ds| && First(ds, f) == Some(ds[i]) && f(ds[i]) && forall j | 0 <= j < i :: !f(ds[j])
    decreases |ds|
  {
    if f(ds[0]) {
      i := 0;
    } else {
      i := FirstIsLeast(ds[1..], f);
      i := i + 1;
      forall j | 0 <= j < i ensures !f(ds[j]) { if j > 0 { assert ds[j] == ds[1..][j - 1]; } }
    }
  }

  lemma {:induction false} NothingFirst(ds: seq<Descriptor>, f: Descriptor -> bool)
    ensures First(ds, f).None? <==> forall d <- ds :: !f(d)
    decreases |ds|
  {
    if ds != [] {
      assert ds == [ds[0]] + ds[1..];
      NothingFirst(ds[1..], f);
    }
  }

  /** A literal route fits a path exactly when it is that path. */
  lemma LiteralFits(d: Descriptor, path: string)
    requires IsLiteral(d) && Normalize(d.path) == d.path && Normalize(path) == path
    ensures Fits(d, Segments(path)) <==> d.path == path
    ensures Fits(d, Segments(path)) ==> Bind(Parse(d.path).value, Segments(path)) == map[]
  {
    var segments := Parse(d.path).value;
    ParseRoundTrip(d.path);
    NormalizeKeepsSegments(d.path, path);
    assert forall i | 0 <= i < |segments| :: segments[i] in segments;
    if Fits(d, Segments(path)) {
      assert Segments(d.path) == Segments(path) by {
        forall i | 0 <= i < |segments| ensures Segments(d.path)[i] == Segments(path)[i] {
          assert Render(segments[i]) == Segments(d.path)[i];
        }
      }
      BindsNothing(segments, Segments(path));
    }
    if d.path == path {
      forall i | 0 <= i < |segments| ensures segments[i].value == Segments(path)[i] {
        assert Render(segments[i]) == Segments(d.path)[i];
      }
    }
  }

  lemma {:induction false} BindsNothing(segments: seq<Segment>, incoming: seq<string>)
    requires |segments| == |incoming| && AllLiteral(segments)
    ensures Bind(segments, incoming) == map[]
    decreases |segments|
  {
    if segments != [] {
      assert segments[|segments| - 1] in segments && forall s <- segments[..|segments| - 1] :: s in segments;
      BindsNothing(segments[..|segments| - 1], incoming[..|segments| - 1]);
    }
  }

  lemma LevelIsEligible(d: Descriptor, k: nat, q: Query)
    requires k < 8 && Normalize(q.path) == q.path && Parses(d) && Normalize(d.path) == d.path
    requires Level(d, k, q)
    ensures Eligible(d, q) && Tier(d, q) <= k
  {
    if k < 4 { LiteralFits(d, q.path); }
  }

  lemma EligibleIsAtLevel(d: Descriptor, q: Query)
    requires Normalize(q.path) == q.path && Parses(d) && Normalize(d.path) == d.path
    requires Eligible(d, q)
    ensures Level(d, Tier(d, q), q)
  {
    if IsLiteral(d) { LiteralFits(d, q.path); }
  }

  /** Nothing is found below tier k. */
  ghost predicate NoneBelow(ds: seq<Descriptor>, k: nat, q: Query) {
    forall d, m: nat | d in ds && m < k :: !Level(d, m, q)
  }

  lemma {:induction false} ScanIsBest(ds: seq<Descriptor>, k: nat, q: Query) returns (i: nat)
    requires NormalPaths(ds) && Normalize(q.path) == q.path && k <= 8
    requires NoneBelow(ds, k, q)
    ensures var r := Scan(ds, k, q);
            && (r.Some? ==> i < |ds| && ds[i] == r.value && Best(ds, i, q))
            && (r.None? ==> forall d <- ds :: !Eligible(d, q))
    decreases 8 - k
  {
    i := 0;
    if k == 8 {
      forall d | d in ds ensures !Eligible(d, q) {
        if Eligible(d, q) {
          EligibleIsAtLevel(d, q);
        }
      }
    } else {
      var f := AtLevel(k, q);
      if First(ds, f).Some? {
        i := FirstIsLeast(ds, f);
        LeastIsBest(ds, i, k, q);
      } else {
        NothingFirst(ds, f);
        assert forall d <- ds :: !f(d);
        i := ScanIsBest(ds, k + 1, q);
      }
    }
  }

  lemma LeastIsBest(ds: seq<Descriptor>, i: nat, k: nat, q: Query)
    requires NormalPaths(ds) && Normalize(q.path) == q.path && k < 8 && i < |ds|
    requires NoneBelow(ds, k, q) && Level(ds[i], k, q)
    requires forall j | 0 <= j < i :: !Level(ds[j], k, q)
    ensures Best(ds, i, q)
  {
    LevelIsEligible(ds[i], k, q);
    EligibleIsAtLevel(ds[i], q);
    forall j | 0 <= j < |ds| && Eligible(ds[j], q)
      ensures k < Tier(ds[j], q) || (k == Tier(ds[j], q) && i <= j)
    {
      EligibleIsAtLevel(ds[j], q);
    }
  }

  // ---------- The buckets hold what the scan meets ----------

  lemma {:induction false} FirstOfFilter(ds: seq<Descriptor>, g: Descriptor -> bool, e: Descriptor -> bool,
                                         f: Descriptor -> bool)
    requires forall d <- ds :: f(d) <==> g(d) && e(d)
    ensures First(Filter(ds, g), e) == First(ds, f)
    decreases |ds|
  {
    if ds != [] {
      assert forall d <- ds[1..] :: d in ds;
      FirstOfFilter(ds[1..], g, e, f);
      if g(ds[0]) {
        assert ([ds[0]] + Filter(ds[1..], g))[1..] == Filter(ds[1..], g);
      } else {
        assert [] + Filter(ds[1..], g) == Filter(ds[1..], g);
      }
    }
  }

  lemma FirstExactLiteral(ds: seq<Descriptor>, v: string, k: nat, q: Query)
    requires (k == 0 && v == q.verb) || (k == 1 && v == "ALL")
    ensures FirstExact(LiteralBucket(ds, v, q.path), q.versioning, q.version) == From(ds, k, q)
  {
    FirstOfFilter(ds, (d: Descriptor) => InLiterals(d, v, q.path), (d: Descriptor) => Exact(d, q.versioning, q.version),
                  AtLevel(k, q));
  }

  lemma FirstUnversionedLiteral(ds: seq<Descriptor>, v: string, k: nat, q: Query)
    requires (k == 2 && v == q.verb) || (k == 3 && v == "ALL")
    ensures FirstUnversioned(LiteralBucket(ds, v, q.path)) == From(ds, k, q)
  {
    FirstOfFilter(ds, (d: Descriptor) => InLiterals(d, v, q.path), (d: Descriptor) => d.version.None?,
                  AtLevel(k, q));
  }

  lemma FirstFitting(ds: seq<Descriptor>, verb: string, incoming: seq<string>, e: Descriptor -> bool,
                     f: Descriptor -> bool)
    requires forall d <- ds :: f(d) <==> d.verb == verb && !IsLiteral(d) && Fits(d, incoming) && e(d)
    ensures First(Fitting(ParamBucket(ds, verb, |incoming|), incoming), e) == First(ds, f)
  {
    var g := (d: Descriptor) => InParams(d, verb, |incoming|);
    var both := (d: Descriptor) => Fits(d, incoming) && e(d);
    FirstOfFilter(Filter(ds, g), (d: Descriptor) => Fits(d, incoming), e, both);
    FirstOfFilter(ds, g, both, f);
  }

  function ParamFits(ds: seq<Descriptor>, verb: string, incoming: seq<string>): seq<Descriptor> {
    Fitting(ParamBucket(ds, verb, |incoming|), incoming)
  }

  lemma FirstExactParam(ds: seq<Descriptor>, v: string, k: nat, q: Query)
    requires (k == 4 && v == q.verb) || (k == 5 && v == "ALL")
    ensures FirstExact(ParamFits(ds, v, Segments(q.path)), q.versioning, q.version) == From(ds, k, q)
  {
    FirstFitting(ds, v, Segments(q.path), (d: Descriptor) => Exact(d, q.versioning, q.version),
                 AtLevel(k, q));
  }

  lemma FirstUnversionedParam(ds: seq<Descriptor>, v: string, k: nat, q: Query)
    requires (k == 6 && v == q.verb) || (k == 7 && v == "ALL")
    ensures FirstUnversioned(ParamFits(ds, v, Segments(q.path))) == From(ds, k, q)
  {
    var unversioned := (d: Descriptor) => d.version.None?;
    forall d ensures AtLevel(k, q)(d) <==>
                     d.verb == v && !IsLiteral(d) && Fits(d, Segments(q.path)) && unversioned(d) {}
    FirstFitting(ds, v, Segments(q.path), unversioned, AtLevel(k, q));
  }

  lemma PickOfPair(a: seq<Descriptor>, b: seq<Descriptor>, versioning: Versioning, version: Option<string>)
    ensures Pick(a + b, versioning, version) ==
              OrElse(OrElse(FirstExact(a, versioning, version), FirstExact(b, versioning, version)),
                     OrElse(FirstUnversioned(a), FirstUnversioned(b)))
  {
    FirstOfConcat(a, b, (d: Descriptor) => Exact(d, versioning, version));
    FirstOfConcat(a, b, (d: Descriptor) => d.version.None?);
  }

  function Chosen(r: Option<HandlerMatch>): Option<Descriptor> {
    match r
    case None => None
    case Some(m) => Some(m.descriptor)
  }

  function From(ds: seq<Descriptor>, k: nat, q: Query)
      : Option<Descriptor>
  {
    First(ds, AtLevel(k, q))
  }

  lemma ScanUnrolled(ds: seq<Descriptor>, q: Query)
    ensures var f := (k: nat) => From(ds, k, q);
            Scan(ds, 0, q) ==
              OrElse(OrElse(OrElse(f(0), f(1)), OrElse(f(2), f(3))), OrElse(OrElse(f(4), f(5)), OrElse(f(6), f(7))))
  {
    var s4 := Scan(ds, 4, q);
    assert s4 == OrElse(From(ds, 4, q), Scan(ds, 5, q));
    assert Scan(ds, 6, q)
        == OrElse(From(ds, 6, q), Scan(ds, 7, q));
    assert Scan(ds, 2, q)
        == OrElse(From(ds, 2, q), Scan(ds, 3, q));
    assert Scan(ds, 8, q) == None;
  }

  lemma PickByLevels(a: seq<Descriptor>, b: seq<Descriptor>, versioning: Versioning, version: Option<string>,
                     e0: Option<Descriptor>, e1: Option<Descriptor>, u0: Option<Descriptor>, u1: Option<Descriptor>)
    requires FirstExact(a, versioning, version) == e0 && FirstExact(b, versioning, version) == e1
    requires FirstUnversioned(a) == u0 && FirstUnversioned(b) == u1
    ensures Pick(a + b, versioning, version) == OrElse(OrElse(e0, e1), OrElse(u0, u1))
  {
    PickOfPair(a, b, versioning, version);
  }

  lemma LiteralPick(ds: seq<Descriptor>, q: Query)
    ensures var f := (k: nat) => From(ds, k, q);
            Pick(LiteralBucket(ds, q.verb, q.path) + LiteralBucket(ds, "ALL", q.path), q.versioning, q.version)
              == OrElse(OrElse(f(0), f(1)), OrElse(f(2), f(3)))
  {
    FirstExactLiteral(ds, q.verb, 0, q);
    FirstExactLiteral(ds, "ALL", 1, q);
    FirstUnversionedLiteral(ds, q.verb, 2, q);
    FirstUnversionedLiteral(ds, "ALL", 3, q);
    PickByLevels(LiteralBucket(ds, q.verb, q.path), LiteralBucket(ds, "ALL", q.path), q.versioning, q.version,
                 From(ds, 0, q), From(ds, 1, q),
                 From(ds, 2, q), From(ds, 3, q));
  }

  lemma ParamLevels(ds: seq<Descriptor>, q: Query)
    ensures var f := (k: nat) => From(ds, k, q);
            Pick(ParamFits(ds, q.verb, Segments(q.path)) + ParamFits(ds, "ALL", Segments(q.path)),
                 q.versioning, q.version)
              == OrElse(OrElse(f(4), f(5)), OrElse(f(6), f(7)))
  {
    FirstExactParam(ds, q.verb, 4, q);
    FirstExactParam(ds, "ALL", 5, q);
    FirstUnversionedParam(ds, q.verb, 6, q);
    FirstUnversionedParam(ds, "ALL", 7, q);
    PickByLevels(ParamFits(ds, q.verb, Segments(q.path)), ParamFits(ds, "ALL", Segments(q.path)),
                 q.versioning, q.version,
                 From(ds, 4, q), From(ds, 5, q),
                 From(ds, 6, q), From(ds, 7, q));
  }

  lemma ParamPick(ds: seq<Descriptor>, q: Query)
    ensures var f := (k: nat) => From(ds, k, q);
            var incoming := Segments(q.path);
            Pick(Fitting(ParamBucket(ds, q.verb, |incoming|) + ParamBucket(ds, "ALL", |incoming|), incoming),
                 q.versioning, q.version)
              == OrElse(OrElse(f(4), f(5)), OrElse(f(6), f(7)))
  {
    var incoming := Segments(q.path);
    FilterConcat(ParamBucket(ds, q.verb, |incoming|), ParamBucket(ds, "ALL", |incoming|),
                 (d: Descriptor) => Fits(d, incoming));
    ParamLevels(ds, q);
  }

  lemma {:induction false} FirstHolds(ds: seq<Descriptor>, f: Descriptor -> bool)
    requires First(ds, f).Some?
    ensures f(First(ds, f).value) && First(ds, f).value in ds
    decreases |ds|
  {
    if !f(ds[0]) { FirstHolds(ds[1..], f); }
  }

  lemma PickedFits(ds: seq<Descriptor>, incoming: seq<string>, versioning: Versioning, version: Option<string>)
    ensures var p := Pick(Fitting(ds, incoming), versioning, version); p.Some? ==> Fits(p.value, incoming)
  {
    var l := Fitting(ds, incoming);
    FilterIsPart(ds, (d: Descriptor) => Fits(d, incoming));
    if FirstExact(l, versioning, version).Some? {
      FirstHolds(l, (d: Descriptor) => Exact(d, versioning, version));
    }
    if FirstUnversioned(l).Some? {
      FirstHolds(l, (d: Descriptor) => d.version.None?);
    }
  }

  lemma FoundIsScan(ds: seq<Descriptor>, versioning: Versioning, request: Request)
    ensures Chosen(Found(ds, versioning, request)) == Scan(ds, 0, QueryOf(versioning, request))
  {
    var q := QueryOf(versioning, request);
    var incoming := Segments(q.path);
    ScanUnrolled(ds, q);
    LiteralPick(ds, q);
    ParamPick(ds, q);
    PickedFits(ParamBucket(ds, q.verb, |incoming|) + ParamBucket(ds, "ALL", |incoming|), incoming, versioning,
               q.version);
  }

  // ---------- The main result ----------

  lemma FoundParams(ds: seq<Descriptor>, versioning: Versioning, request: Request)
    requires NormalPaths(ds) && Found(ds, versioning, request).Some?
    ensures var m := Found(ds, versioning, request).value;
            Fits(m.descriptor, Segments(request.path)) ==>
            m.params == Bind(Parse(m.descriptor.path).value, Segments(request.path))
  {
    var q := QueryOf(versioning, request);
    NormalizeKeepsSegments(request.path, request.path);
    var literals := Pick(LiteralBucket(ds, q.verb, q.path) + LiteralBucket(ds, "ALL", q.path), versioning, q.version);
    if literals.Some? {
      LiteralPick(ds, q);
      var k: nat :| k < 4 && From(ds, k, q) == literals;
      FirstHolds(ds, AtLevel(k, q));
      LiteralFits(literals.value, q.path);
    }
  }

  /**
   For descriptors with normalized paths, a request is matched to the best eligible descriptor and to none only if no
   descriptor is eligible; the parameters are those its pattern binds on the request path.
   */
  lemma MatchIsBest(ds: seq<Descriptor>, versioning: Versioning, request: Request) returns (i: nat)
    requires NormalPaths(ds)
    ensures var q := QueryOf(versioning, request);
            var r := Found(ds, versioning, request);
            && (r.None? <==> forall d <- ds :: !Eligible(d, q))
            && (r.Some? ==> i < |ds| && ds[i] == r.value.descriptor && Best(ds, i, q)
                            && Fits(ds[i], Segments(request.path))
                            && r.value.params == Bind(Parse(ds[i].path).value, Segments(request.path)))
  {
    NormalizeKeepsSegments(request.path, request.path);
    FoundIsScan(ds, versioning, request);
    i := ScanIsBest(ds, 0, QueryOf(versioning, request));
    if Found(ds, versioning, request).Some? {
      FoundParams(ds, versioning, request);
    }
  }

  /** The descriptors made from route sources have normalized paths, so their matches are best. */
  lemma DescribedPathsAreNormal(routes: seq<Route>, versioning: Versioning)
    requires forall d <- DescribeAll(routes, versioning) :: Parses(d)
    ensures NormalPaths(DescribeAll(routes, versioning))
  {
    var ds := DescribeAll(routes, versioning);
    forall d | d in ds ensures Normalize(d.path) == d.path {
      var i :| 0 <= i < |ds| && ds[i] == d;
      EffectivePathIsNormal(routes[i], versioning);
    }
  }
}
