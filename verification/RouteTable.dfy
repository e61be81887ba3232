/** From route sources to route descriptors: effective paths, versions, and the refusal of duplicate routes. */
module RouteTable {
  import opened Options
  import opened RoutePath
  import opened Text

  /** Versions in the path, or taken from a header, a media type or a custom extractor. */
  datatype Versioning = Uri | Negotiated

  datatype Route = Route(id: nat, verb: string, basePath: string, path: string,
                         controllerVersion: Option<string>, version: Option<string>)

  datatype Descriptor = Descriptor(id: nat, verb: string, path: string, version: Option<string>)

  datatype Creation = Created(descriptors: seq<Descriptor>) | BadPath(segment: string) | RouteConflict(key: string)

  // ---------- Versions ----------

  predicate IsSpace(c: char) {
    '\t' <= c <= '\r' || c == ' ' || c == '\U{00a0}' || c == '\U{1680}' || '\U{2000}' <= c <= '\U{200a}'
    || c == '\U{2028}' || c == '\U{2029}' || c == '\U{202f}' || c == '\U{205f}' || c == '\U{3000}' || c == '\U{feff}'
  }

  function TrimStart(s: string): string {
    if s != "" && IsSpace(s[0]) then TrimStart(s[1..]) else s
  }

  function TrimEnd(s: string): string {
    if s != "" && IsSpace(s[|s| - 1]) then TrimEnd(s[..|s| - 1]) else s
  }

  function NormalizeVersion(version: string): string {
    var v := TrimEnd(TrimStart(version));
    if v != "" && v[0] in "vV" then v[1..] else v
  }

  function JoinPaths(base: string, path: string): string { Normalize(base + "/" + path) }

  function VersionOf(r: Route): Option<string> {
    if r.version.Some? then r.version else r.controllerVersion
  }

  /** The path a route is reached by: in URI versioning a non-empty version becomes its first segment. */
  function EffectivePath(r: Route, versioning: Versioning): string {
    var path := JoinPaths(r.basePath, r.path);
    var version := VersionOf(r);
    if versioning.Uri? && version.Some? && version.value != "" then
      JoinPaths("/v" + NormalizeVersion(version.value), path)
    else path
  }

  function Describe(r: Route, versioning: Versioning): Descriptor {
    Descriptor(r.id, r.verb, EffectivePath(r, versioning), VersionOf(r))
  }

  function DescribeAll(routes: seq<Route>, versioning: Versioning): seq<Descriptor> {
    seq(|routes|, i requires 0 <= i < |routes| => Describe(routes[i], versioning))
  }

  predicate Parses(d: Descriptor) { Parse(d.path).Ok? }

  lemma EffectivePathIsNormal(r: Route, versioning: Versioning)
    ensures Normalize(EffectivePath(r, versioning)) == EffectivePath(r, versioning)
  {
    var path := JoinPaths(r.basePath, r.path);
    NormalizeKeepsSegments(r.basePath + "/" + r.path, "");
    if VersionOf(r).Some? {
      NormalizeKeepsSegments("/v" + NormalizeVersion(VersionOf(r).value) + "/" + path, "");
    }
  }

  // ---------- Duplicates ----------

  function VersionLabel(d: Descriptor): string {
    match d.version
    case None => "<none>"
    case Some(v) => NormalizeVersion(v)
  }

  function KeyOf(d: Descriptor): string { d.verb + ":" + d.path + ":" + VersionLabel(d) }

  ghost predicate DistinctKeys(ds: seq<Descriptor>) { AllDifferent(KeysOf(ds)) }

  /** Descriptors of the same method, path and version. */
  predicate SameRoute(a: Descriptor, b: Descriptor) {
    a.verb == b.verb && a.path == b.path && a.version.Some? == b.version.Some? &&
    (a.version.Some? ==> NormalizeVersion(a.version.value) == NormalizeVersion(b.version.value))
  }

  function KeysOf(ds: seq<Descriptor>): seq<string> {
    seq(|ds|, i requires 0 <= i < |ds| => KeyOf(ds[i]))
  }

  ghost predicate AllDifferent(keys: seq<string>) {
    forall i, j | 0 <= i < j < |keys| :: keys[i] != keys[j]
  }

  ghost predicate OccursTwice(keys: seq<string>, key: string) {
    exists i, j | 0 <= i < j < |keys| :: keys[i] == key && keys[j] == key
  }

  method FindConflict(ds: seq<Descriptor>) returns (conflict: Option<string>)
    ensures conflict.None? <==> AllDifferent(KeysOf(ds))
    ensures conflict.Some? ==> OccursTwice(KeysOf(ds), conflict.value)
  {
    ghost var keys := KeysOf(ds);
    var seen: set<string> := {};
    for k := 0 to |ds|
      invariant forall i | 0 <= i < k :: keys[i] in seen
      invariant forall key <- seen :: exists i | 0 <= i < k :: keys[i] == key
      invariant forall i, j | 0 <= i < j < k :: keys[i] != keys[j]
    {
      var key := KeyOf(ds[k]);
      assert key == keys[k];
      if key in seen {
        assert OccursTwice(keys, key);
        return Some(key);
      }
      seen := seen + {key};
    }
    conflict := None;
  }

  method DescribeRoutes(routes: seq<Route>, versioning: Versioning) returns (bad: Option<string>, ds: seq<Descriptor>)
    ensures bad.None? <==> forall d <- DescribeAll(routes, versioning) :: Parses(d)
    ensures bad.None? ==> ds == DescribeAll(routes, versioning)
  {
    ghost var all := DescribeAll(routes, versioning);
    ds := [];
    for k := 0 to |routes|
      invariant ds == all[..k] && forall i | 0 <= i < k :: Parses(all[i])
    {
      var d := Describe(routes[k], versioning);
      var parsed := Parse(d.path);
      assert all[k] == d;
      if parsed.InvalidRoutePath? {
        assert d in all && !Parses(d);
        return Some(parsed.segment), ds;
      }
      ds := ds + [d];
    }
    assert ds == all;
    bad := None;
  }

  /** Paths are checked as the descriptors are made; then every route key must be new. */
  method BuildDescriptorList(routes: seq<Route>, versioning: Versioning) returns (r: Creation)
    ensures r.Created? ==> r.descriptors == DescribeAll(routes, versioning)
    ensures r.Created? <==> (forall d <- DescribeAll(routes, versioning) :: Parses(d)) &&
                            DistinctKeys(DescribeAll(routes, versioning))
    ensures r.BadPath? <==> !(forall d <- DescribeAll(routes, versioning) :: Parses(d))
    ensures r.RouteConflict? ==> OccursTwice(KeysOf(DescribeAll(routes, versioning)), r.key)
  {
    var bad, ds := DescribeRoutes(routes, versioning);
    if bad.Some? {
      return BadPath(bad.value);
    }
    var conflict := FindConflict(ds);
    r := if conflict.Some? then RouteConflict(conflict.value) else Created(ds);
  }

  /** No two accepted routes have the same method, path and version. */
  lemma AcceptedRoutesAreDistinct(ds: seq<Descriptor>, i: nat, j: nat)
    requires DistinctKeys(ds) && i < j < |ds|
    ensures !SameRoute(ds[i], ds[j])
  {
    assert KeysOf(ds)[i] != KeysOf(ds)[j];
  }

  lemma {:induction false} SplitAtFirstColon(a: string, x: string, b: string, y: string)
    requires ':' !in a && ':' !in b && a + ":" + x == b + ":" + y
    ensures a == b && x == y
    decreases |a|
  {
    var s, t := a + ":" + x, b + ":" + y;
    assert a != "" ==> s[0] == a[0] && a[0] in a;
    assert b != "" ==> t[0] == b[0] && b[0] in b;
    if a == "" {
      assert b == "";
      assert s[1..] == x && t[1..] == y;
    } else {
      assert s[1..] == a[1..] + ":" + x && t[1..] == b[1..] + ":" + y;
      SplitAtFirstColon(a[1..], x, b[1..], y);
      assert a == [a[0]] + a[1..] && b == [b[0]] + b[1..];
    }
  }

  // ---------- When two routes share a key ----------

  lemma {:induction false} ColonsOfJoined(parts: seq<string>)
    requires forall s <- parts :: s != "" && WellFormedSegment(s)
    ensures forall i | 0 < i < |Join(parts, '/')| :: Join(parts, '/')[i] == ':' ==> Join(parts, '/')[i - 1] == '/'
    ensures parts != [] ==> Join(parts, '/') != ""
    decreases |parts|
  {
    if parts != [] {
      var s, joined := parts[0], Join(parts, '/');
      assert s in parts && forall t <- parts[1..] :: t in parts;
      ColonsOfSegment(s);
      ColonsOfJoined(parts[1..]);
      if |parts| > 1 {
        var rest := Join(parts[1..], '/');
        assert joined == s + ['/'] + rest;
        forall i | 0 < i < |joined| ensures joined[i] == ':' ==> joined[i - 1] == '/' {
          if i < |s| {
            assert joined[i] == s[i];
          } else if i > |s| + 1 {
            assert joined[i] == rest[i - |s| - 1] && joined[i - 1] == rest[i - |s| - 2];
          }
        }
      }
    }
  }

  lemma ColonsOfSegment(s: string)
    requires s != "" && WellFormedSegment(s)
    ensures forall i | 0 < i < |s| :: s[i] != ':'
  {
    forall i | 0 < i < |s| ensures s[i] != ':' {
      assert s[i] in s && s[1..][i - 1] == s[i] && s[i] in s[1..];
    }
  }

  /** In a normalized path that parses, a colon stands only right after a slash. */
  lemma ColonsFollowSlashes(path: string)
    requires Parse(path).Ok? && Normalize(path) == path
    ensures forall i | 0 <= i < |path| :: path[i] == ':' ==> i > 0 && path[i - 1] == '/'
  {
    var parts := Segments(path);
    ParseRoundTrip(path);
    SegmentsArePlain(path);
    ColonsOfJoined(parts);
    assert path == "/" + Join(parts, '/');
    forall i | 0 <= i < |path| ensures path[i] == ':' ==> i > 0 && path[i - 1] == '/' {
      if i > 1 { assert path[i] == Join(parts, '/')[i - 1] && path[i - 1] == Join(parts, '/')[i - 2]; }
    }
  }

  lemma {:induction false} JoinedEnds(parts: seq<string>)
    requires parts != [] && Plain(parts)
    ensures Join(parts, '/') != "" && Join(parts, '/')[|Join(parts, '/')| - 1] != '/'
    decreases |parts|
  {
    assert parts[0] in parts && forall t <- parts[1..] :: t in parts;
    if |parts| == 1 {
      assert parts[0][|parts[0]| - 1] in parts[0];
    } else {
      JoinedEnds(parts[1..]);
    }
  }

  lemma OnlyRootEndsInSlash(path: string)
    requires Normalize(path) == path && path[|path| - 1] == '/'
    ensures path == "/"
  {
    SegmentsArePlain(path);
    assert path == "/" + Join(Segments(path), '/');
    if Segments(path) != [] { JoinedEnds(Segments(path)); }
  }

  /** What descriptors made from routes that parse have in common. */
  predicate Proper(d: Descriptor) { Parses(d) && Normalize(d.path) == d.path && ':' !in d.verb }

  /** An unversioned route and one whose version reads like the mark for no version. */
  predicate AbsenceMark(a: Descriptor, b: Descriptor) {
    a.path == b.path && a.version.None? && b.version.Some? && NormalizeVersion(b.version.value) == "<none>"
  }

  /** A root route whose version spells the rest of another path, which begins with a parameter, and its version. */
  predicate Shadows(a: Descriptor, b: Descriptor) {
    a.path == "/" && |b.path| >= 2 && b.path[..2] == "/:" && VersionLabel(a) == b.path[2..] + ":" + VersionLabel(b)
  }

  lemma ShorterPathIsRoot(p: string, x: string, q: string, y: string)
    requires Parse(q).Ok? && Normalize(q) == q && Normalize(p) == p
    requires p + ":" + x == q + ":" + y && |p| < |q|
    ensures p == "/" && |q| >= 2 && q[..2] == "/:" && x == q[2..] + ":" + y
  {
    var s := p + ":" + x;
    assert s == q + ":" + y;
    assert q[|p|] == s[|p|] == ':';
    ColonsFollowSlashes(q);
    assert p[|p| - 1] == s[|p| - 1] == q[|p| - 1];
    OnlyRootEndsInSlash(p);
    assert q[..2] == s[..2] == "/:";
    assert x == s[2..];
    assert s[2..] == q[2..] + ":" + y;
  }

  lemma SamePathSameLabel(p: string, x: string, q: string, y: string)
    requires p + ":" + x == q + ":" + y && |p| == |q|
    ensures p == q && x == y
  {
    var s := p + ":" + x;
    assert p == s[..|p|] && x == s[|p| + 1..];
    assert q == s[..|q|] && y == s[|q| + 1..];
  }

  lemma ShadowSharesKey(a: Descriptor, b: Descriptor)
    requires a.verb == b.verb && Shadows(a, b)
    ensures KeyOf(a) == KeyOf(b)
  {
    assert b.path == "/:" + b.path[2..];
    assert KeyOf(b) == b.verb + ":" + "/:" + b.path[2..] + ":" + VersionLabel(b);
    assert KeyOf(a) == a.verb + ":" + "/" + ":" + (b.path[2..] + ":" + VersionLabel(b));
  }

  lemma SameLabel(a: Descriptor, b: Descriptor)
    requires a.verb == b.verb && a.path == b.path && VersionLabel(a) == VersionLabel(b)
    ensures SameRoute(a, b) || AbsenceMark(a, b) || AbsenceMark(b, a)
  {
  }

  lemma SharedLabel(a: Descriptor, b: Descriptor)
    requires a.path == b.path && (SameRoute(a, b) || AbsenceMark(a, b) || AbsenceMark(b, a))
    ensures VersionLabel(a) == VersionLabel(b)
  {
  }

  lemma SharedTail(a: Descriptor, b: Descriptor)
    requires Proper(a) && Proper(b) && a.verb == b.verb
    requires a.path + ":" + VersionLabel(a) == b.path + ":" + VersionLabel(b)
    ensures SameRoute(a, b) || AbsenceMark(a, b) || AbsenceMark(b, a) || Shadows(a, b) || Shadows(b, a)
  {
    if |a.path| < |b.path| {
      ShorterPathIsRoot(a.path, VersionLabel(a), b.path, VersionLabel(b));
    } else if |b.path| < |a.path| {
      ShorterPathIsRoot(b.path, VersionLabel(b), a.path, VersionLabel(a));
    } else {
      SamePathSameLabel(a.path, VersionLabel(a), b.path, VersionLabel(b));
      SameLabel(a, b);
    }
  }

  lemma KeyParts(d: Descriptor)
    ensures KeyOf(d) == d.verb + ":" + (d.path + ":" + VersionLabel(d))
  {
  }

  /**
   Two routes that parse share a key exactly when they are the same route, or one of them is unversioned and the other's
   version reads like the mark for that, or one is the root and its version spells out the other's path and version.
   */
  lemma KeyIsExact(a: Descriptor, b: Descriptor)
    requires Proper(a) && Proper(b)
    ensures KeyOf(a) == KeyOf(b) <==>
            a.verb == b.verb &&
            (SameRoute(a, b) || AbsenceMark(a, b) || AbsenceMark(b, a) || Shadows(a, b) || Shadows(b, a))
  {
    if KeyOf(a) == KeyOf(b) {
      KeyParts(a);
      KeyParts(b);
      SplitAtFirstColon(a.verb, a.path + ":" + VersionLabel(a), b.verb, b.path + ":" + VersionLabel(b));
      SharedTail(a, b);
    }
    if SameRoute(a, b) || AbsenceMark(a, b) || AbsenceMark(b, a) { SharedLabel(a, b); }
    if a.verb == b.verb && Shadows(a, b) { ShadowSharesKey(a, b); }
    if a.verb == b.verb && Shadows(b, a) { ShadowSharesKey(b, a); }
  }

  // ---------- Different routes that are refused together ----------

  lemma PlainPath(part: string)
    requires part != "" && '/' !in part && WellFormedSegment(part)
    ensures Normalize("/" + part) == "/" + part && Parse("/" + part).Ok?
  {
    SegmentsOfJoined([part]);
    assert Join([part], '/') == part;
    ParseRoundTrip("/" + part);
  }

  lemma RootPath()
    ensures Normalize("/") == "/" && Parse("/").Ok?
  {
    SegmentsOfJoined([]);
    assert "/" + Join([], '/') == "/";
    ParseRoundTrip("/");
  }

  const RootRoute := Route(0, "GET", "", "", None, Some("a:b"))
  const ParamRoute := Route(1, "GET", "", ":a", None, Some("b"))
  const RootDescriptor := Descriptor(0, "GET", "/", Some("a:b"))
  const ParamDescriptor := Descriptor(1, "GET", "/:a", Some("b"))

  lemma DescribedRoot()
    ensures Describe(RootRoute, Negotiated) == RootDescriptor && Parses(RootDescriptor)
  {
    RootPath();
    assert "" + "/" + "" == "/";
  }

  lemma DescribedParam()
    ensures Describe(ParamRoute, Negotiated) == ParamDescriptor && Parses(ParamDescriptor)
  {
    PlainPath(":a");
    assert "" + "/" + ":a" == "/" + ":a" == "/:a";
  }

  lemma ExampleVersions()
    ensures NormalizeVersion("a:b") == "a:b" && NormalizeVersion("b") == "b"
  {
  }

  lemma ExampleShadows()
    ensures Shadows(RootDescriptor, ParamDescriptor) && !SameRoute(RootDescriptor, ParamDescriptor)
  {
    ExampleVersions();
    assert ParamDescriptor.path[2..] == "a" && ParamDescriptor.path[..2] == "/:";
    assert "a:b" == "a" + ":" + "b";
    assert |RootDescriptor.path| != |ParamDescriptor.path|;
  }

  /** Two routes of different paths and versions, negotiated by header say, are refused as duplicates of each other. */
  method DifferentRoutesAreRefused() returns (r: Creation)
    ensures !SameRoute(Describe(RootRoute, Negotiated), Describe(ParamRoute, Negotiated))
    ensures r.RouteConflict?
  {
    var routes := [RootRoute, ParamRoute];
    DescribedRoot();
    DescribedParam();
    ExampleShadows();
    ShadowSharesKey(RootDescriptor, ParamDescriptor);
    ghost var ds := DescribeAll(routes, Negotiated);
    assert ds == [RootDescriptor, ParamDescriptor];
    assert KeysOf(ds)[0] == KeysOf(ds)[1];
    r := BuildDescriptorList(routes, Negotiated);
  }
}
