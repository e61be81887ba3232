/** Which path, version and method a route gets from its controller and itself, and which version a request asks for. */
module RouteSources {
  import opened Options
  import opened Text
  import opened RoutePath
  import opened RouteTable
  import opened RouteMatch
  import opened RouteOrder

  // ---------- The segments of joined paths ----------

  lemma {:induction false} SplitConcat(a: string, b: string, sep: char)
    ensures Split(a + [sep] + b, sep) == Split(a, sep) + Split(b, sep)
    decreases |a|
  {
    var all := a + [sep] + b;
    if a == "" {
      assert all[0] == sep && all[1..] == b;
    } else {
      assert all[0] == a[0] && all[1..] == a[1..] + [sep] + b;
      SplitConcat(a[1..], b, sep);
    }
  }

  lemma {:induction false} PresentConcat(a: seq<string>, b: seq<string>)
    ensures Present(a + b) == Present(a) + Present(b)
    decreases |a|
  {
    if a == [] {
      assert a + b == b;
    } else {
      assert (a + b)[0] == a[0] && (a + b)[1..] == a[1..] + b;
      PresentConcat(a[1..], b);
    }
  }

  lemma SegmentsConcat(a: string, b: string)
    ensures Segments(a + "/" + b) == Segments(a) + Segments(b)
  {
    SplitConcat(a, b, '/');
    PresentConcat(Split(a, '/'), Split(b, '/'));
  }

  lemma JoinedSegments(base: string, path: string)
    ensures Segments(JoinPaths(base, path)) == Segments(base) + Segments(path)
  {
    NormalizeKeepsSegments(base + "/" + path, "");
    SegmentsConcat(base, path);
  }

  /** What URI versioning puts in front: the letter v and the version, without blanks and without a v of its own. */
  function VersionPart(version: Option<string>, versioning: Versioning): seq<string> {
    if versioning.Uri? && version.Some? && version.value != "" then Segments("v" + NormalizeVersion(version.value))
    else []
  }

  lemma PrefixSegments(v: string)
    ensures Segments("/v" + v) == Segments("v" + v)
  {
    assert "/v" + v == "" + "/" + ("v" + v);
    SegmentsConcat("", "v" + v);
    assert [""][1..] == [];
    assert Present([""]) == [] + Present([]);
  }

  /**
   A route is described under its own id and method.  Its version is its own if it has one and else the controller's.
   Its path consists of the version in URI versioning, the segments of the controller's base path, and those of its own.
   */
  lemma DescribedAsDeclared(r: Route, versioning: Versioning)
    ensures var d := Describe(r, versioning);
            && d.id == r.id && d.verb == r.verb
            && (r.version.Some? ==> d.version == r.version) && (r.version.None? ==> d.version == r.controllerVersion)
            && Segments(d.path) == VersionPart(d.version, versioning) + Segments(r.basePath) + Segments(r.path)
            && d.path == "/" + Join(Segments(d.path), '/')
  {
    var d := Describe(r, versioning);
    JoinedSegments(r.basePath, r.path);
    if versioning.Uri? && d.version.Some? && d.version.value != "" {
      JoinedSegments("/v" + NormalizeVersion(d.version.value), JoinPaths(r.basePath, r.path));
      PrefixSegments(NormalizeVersion(d.version.value));
    }
    EffectivePathIsNormal(r, versioning);
  }

  /** A version without slashes becomes one segment. */
  lemma VersionIsOneSegment(version: string)
    requires version != "" && '/' !in NormalizeVersion(version)
    ensures VersionPart(Some(version), Uri) == ["v" + NormalizeVersion(version)]
  {
    var v := "v" + NormalizeVersion(version);
    SplitPlain(v, '/');
    assert [v][1..] == [];
    assert Present([v]) == [v] + Present([]);
  }

  /** The descriptors of an accepted list are those of the routes, in order. */
  lemma DescribedInOrder(routes: seq<Route>, versioning: Versioning, i: nat)
    requires i < |routes|
    ensures |DescribeAll(routes, versioning)| == |routes|
    ensures DescribeAll(routes, versioning)[i] == Describe(routes[i], versioning)
  {
  }

  // ---------- Normalized versions ----------

  ghost predicate Blank(s: string) { forall c <- s :: IsSpace(c) }

  /** Neither the first nor the last character is a blank. */
  predicate Tight(s: string) { s != "" ==> !IsSpace(s[0]) && !IsSpace(s[|s| - 1]) }

  lemma {:induction false} TrimStartDrops(a: string, s: string)
    requires Blank(a) && (s != "" ==> !IsSpace(s[0]))
    ensures TrimStart(a + s) == s
    decreases |a|
  {
    if a == "" {
      assert a + s == s;
    } else {
      assert a[0] in a && (a + s)[0] == a[0] && (a + s)[1..] == a[1..] + s;
      TrimStartDrops(a[1..], s);
    }
  }

  lemma {:induction false} TrimEndDrops(s: string, b: string)
    requires Blank(b) && (s != "" ==> !IsSpace(s[|s| - 1]))
    ensures TrimEnd(s + b) == s
    decreases |b|
  {
    if b == "" {
      assert s + b == s;
    } else {
      var n := |b| - 1;
      assert b[n] in b && (s + b)[|s + b| - 1] == b[n] && (s + b)[..|s + b| - 1] == s + b[..n];
      TrimEndDrops(s, b[..n]);
    }
  }

  /** Blanks around a version do not matter, and one leading v or V does not either. */
  lemma VersionIsTrimmed(a: string, core: string, b: string)
    requires Blank(a) && Blank(b) && Tight(core)
    ensures NormalizeVersion(a + core + b) ==
            if core != "" && (core[0] == 'v' || core[0] == 'V') then core[1..] else core
  {
    if core == "" {
      assert a + core + b == a + b && Blank(a + b) && (a + b) + "" == a + b;
      TrimStartDrops(a + b, "");
    } else {
      assert a + core + b == a + (core + b);
      TrimStartDrops(a, core + b);
      TrimEndDrops(core, b);
    }
  }

  lemma {:induction false} TrimStartLeaves(s: string) returns (a: string)
    ensures Blank(a) && s == a + TrimStart(s) && (TrimStart(s) != "" ==> !IsSpace(TrimStart(s)[0]))
    decreases |s|
  {
    a := "";
    if s != "" && IsSpace(s[0]) {
      var rest := TrimStartLeaves(s[1..]);
      a := [s[0]] + rest;
      assert s == [s[0]] + s[1..];
    }
  }

  lemma {:induction false} TrimEndLeaves(s: string) returns (b: string)
    ensures Blank(b) && s == TrimEnd(s) + b && (TrimEnd(s) != "" ==> !IsSpace(TrimEnd(s)[|TrimEnd(s)| - 1]))
    ensures TrimEnd(s) != "" ==> TrimEnd(s)[0] == s[0]
    decreases |s|
  {
    b := "";
    if s != "" && IsSpace(s[|s| - 1]) {
      var rest := TrimEndLeaves(s[..|s| - 1]);
      b := rest + [s[|s| - 1]];
      assert s == s[..|s| - 1] + [s[|s| - 1]];
    }
  }

  /** Every version has this form, so `VersionIsTrimmed` says what each of them normalizes to. */
  lemma VersionHasCore(version: string) returns (a: string, core: string, b: string)
    ensures version == a + core + b && Blank(a) && Blank(b) && Tight(core)
  {
    a := TrimStartLeaves(version);
    b := TrimEndLeaves(TrimStart(version));
    core := TrimEnd(TrimStart(version));
  }

  // ---------- The version of a request ----------

  /** The value is a string that says something. */
  predicate Usable(value: Option<string>) { value.Some? && NormalizeVersion(value.value) != "" }

  ghost predicate FirstUsable(values: seq<Option<string>>, i: nat) {
    i < |values| && Usable(values[i]) && forall j | 0 <= j < i :: !Usable(values[j])
  }

  /** The first usable value asks for this version. */
  ghost predicate AsksFor(values: seq<Option<string>>, version: string) {
    exists i | 0 <= i < |values| :: FirstUsable(values, i) && NormalizeVersion(values[i].value) == version
  }

  lemma {:induction false} RequestVersionIsFirst(values: seq<Option<string>>)
    ensures RequestVersion(values).None? <==> forall v <- values :: !Usable(v)
    ensures forall version :: RequestVersion(values) == Some(version) <==> AsksFor(values, version)
    decreases |values|
  {
    if values != [] {
      assert values == [values[0]] + values[1..] && values[0] in values;
      if Usable(values[0]) {
        assert FirstUsable(values, 0);
        assert forall i | 0 <= i < |values| :: FirstUsable(values, i) ==> i == 0;
      } else {
        RequestVersionIsFirst(values[1..]);
        forall version ensures AsksFor(values, version) <==> AsksFor(values[1..], version) {
          AsksAfterUnusable(values, version);
        }
      }
    }
  }

  lemma FirstUsableLater(values: seq<Option<string>>, i: nat)
    requires values != [] && !Usable(values[0]) && i < |values| - 1
    ensures FirstUsable(values, i + 1) <==> FirstUsable(values[1..], i)
  {
    var rest := values[1..];
    assert forall j | 0 <= j < |rest| :: rest[j] == values[j + 1];
    if FirstUsable(rest, i) {
      forall j | 0 <= j < i + 1 ensures !Usable(values[j]) { if j > 0 { assert values[j] == rest[j - 1]; } }
    }
  }

  lemma AsksAfterUnusable(values: seq<Option<string>>, version: string)
    requires values != [] && !Usable(values[0])
    ensures AsksFor(values, version) <==> AsksFor(values[1..], version)
  {
    var rest := values[1..];
    if AsksFor(values, version) {
      var i :| 0 <= i < |values| && FirstUsable(values, i) && NormalizeVersion(values[i].value) == version;
      FirstUsableLater(values, i - 1);
      assert rest[i - 1] == values[i] && FirstUsable(rest, i - 1);
    }
    if AsksFor(rest, version) {
      var i :| 0 <= i < |rest| && FirstUsable(rest, i) && NormalizeVersion(rest[i].value) == version;
      FirstUsableLater(values, i);
      assert rest[i] == values[i + 1];
    }
  }

  /**
   A versioned route is of the requested version exactly if the first usable value of the request normalizes to the same
   version; a route without one, or with an empty one, exactly if the request has no usable value.
   */
  lemma VersionsAgree(d: Descriptor, values: seq<Option<string>>)
    ensures MatchesVersion(d, RequestVersion(values)) <==>
            if d.version.Some? && d.version.value != "" then AsksFor(values, NormalizeVersion(d.version.value))
            else forall v <- values :: !Usable(v)
  {
    RequestVersionIsFirst(values);
    if d.version.Some? { assert AsksFor(values, NormalizeVersion(d.version.value)) ==> RequestVersion(values).Some?; }
    assert !AsksFor(values, "");
  }

  /**
   What a match depends on is what the request says: the segments of its path, its method in upper case, and, unless the
   version is in the path, the version its first usable value asks for, if there is one.
   */
  lemma QueryIsRequest(versioning: Versioning, request: Request)
    ensures var q := QueryOf(versioning, request);
            && q.versioning == versioning && Segments(q.path) == Segments(request.path)
            && q.verb == ToUpper(request.verb)
            && (forall version :: q.version == Some(version) <==>
                                  versioning.Negotiated? && AsksFor(request.versions, version))
  {
    NormalizeKeepsSegments(request.path, "");
    RequestVersionIsFirst(request.versions);
  }

  // ---------- Methods ----------

  predicate HasLower(s: string) { exists c <- s :: 'a' <= c <= 'z' }

  /** Upper case has no small letters, changes nothing without any, and is taken letter by letter. */
  lemma MethodsIgnoreCase(a: string, b: string)
    ensures !HasLower(ToUpper(a)) && (!HasLower(a) ==> ToUpper(a) == a)
    ensures ToUpper(a + b) == ToUpper(a) + ToUpper(b)
    ensures ToUpper("abcdefghijklmnopqrstuvwxyz") == "ABCDEFGHIJKLMNOPQRSTUVWXYZ"
  {
    if !HasLower(a) {
      forall i | 0 <= i < |a| ensures ToUpper(a)[i] == a[i] { assert a[i] in a; }
    }
    assert |"abcdefghijklmnopqrstuvwxyz"| == 26;
  }
}
