/** Route paths: normalization, parsing, and matching of parsed segments against those of a request. */
module RoutePath {
  import opened Options
  import opened Text

  datatype Segment = Literal(value: string) | Param(name: string)
  datatype Result<+T> = Ok(value: T) | InvalidRoutePath(segment: string)

  type Params = map<string, string>

  // ---------- Splitting and normalizing ----------

  function Present(parts: seq<string>): seq<string> {
    if parts == [] then [] else (if parts[0] == "" then [] else [parts[0]]) + Present(parts[1..])
  }

  function Segments(path: string): seq<string> { Present(Split(path, '/')) }

  function Normalize(path: string): string { "/" + Join(Segments(path), '/') }

  ghost predicate Plain(parts: seq<string>) {
    forall s <- parts :: s != "" && '/' !in s
  }

  lemma {:induction false} PresentFacts(parts: seq<string>)
    ensures forall s :: s in Present(parts) <==> s in parts && s != ""
    ensures (forall s <- parts :: s != "") ==> Present(parts) == parts
    decreases |parts|
  {
    if parts != [] {
      assert parts == [parts[0]] + parts[1..];
      assert parts[0] in parts && forall s <- parts[1..] :: s in parts;
      PresentFacts(parts[1..]);
    }
  }

  lemma SegmentsArePlain(path: string)
    ensures Plain(Segments(path))
  {
    SplitHasNoSeparator(path, '/');
    PresentFacts(Split(path, '/'));
  }

  lemma SegmentsOfJoined(parts: seq<string>)
    requires Plain(parts)
    ensures Segments("/" + Join(parts, '/')) == parts
  {
    var path := "/" + Join(parts, '/');
    assert path[1..] == Join(parts, '/');
    var rest := Split(Join(parts, '/'), '/');
    assert Split(path, '/') == [""] + rest && ([""] + rest)[1..] == rest;
    assert Present(Split(path, '/')) == [] + Present(rest);
    if parts != [] {
      SplitJoin(parts, '/');
      PresentFacts(parts);
    } else {
      assert rest == [""] && rest[1..] == [];
      assert Present(rest) == [];
      assert parts == [];
    }
  }

  /** Normalizing keeps the segments, changes nothing the second time, and separates paths with other segments. */
  lemma NormalizeKeepsSegments(path: string, other: string)
    ensures Segments(Normalize(path)) == Segments(path)
    ensures Normalize(Normalize(path)) == Normalize(path)
    ensures Normalize(path) == Normalize(other) <==> Segments(path) == Segments(other)
  {
    SegmentsArePlain(path);
    SegmentsArePlain(other);
    SegmentsOfJoined(Segments(path));
    SegmentsOfJoined(Segments(other));
  }

  // ---------- Parsing ----------

  predicate Letter(c: char) { 'a' <= c <= 'z' || 'A' <= c <= 'Z' || c == '_' }

  predicate ValidName(s: string) {
    s != "" && Letter(s[0]) && forall c <- s :: Letter(c) || '0' <= c <= '9'
  }

  predicate Unsupported(c: char) { c in "*?+()[]{}\\" }

  function ParseSegment(s: string): Result<Segment> {
    if s != "" && s[0] == ':' then
      if ValidName(s[1..]) then Ok(Param(s[1..])) else InvalidRoutePath(s)
    else if ':' in s then InvalidRoutePath(s)
    else if exists c <- s :: Unsupported(c) then InvalidRoutePath(s)
    else Ok(Literal(s))
  }

  function ParseAll(parts: seq<string>): Result<seq<Segment>> {
    if parts == [] then Ok([])
    else match ParseSegment(parts[0])
      case InvalidRoutePath(s) => InvalidRoutePath(s)
      case Ok(first) =>
        match ParseAll(parts[1..])
        case InvalidRoutePath(s) => InvalidRoutePath(s)
        case Ok(rest) => Ok([first] + rest)
  }

  function Parse(path: string): Result<seq<Segment>> { ParseAll(Segments(Normalize(path))) }

  function Render(segment: Segment): string {
    match segment
    case Literal(v) => v
    case Param(n) => ":" + n
  }

  ghost predicate Renders(segments: seq<Segment>, parts: seq<string>) {
    |segments| == |parts| && forall i | 0 <= i < |parts| :: Render(segments[i]) == parts[i]
  }

  /** What a segment may look like: a literal free of special characters, or a colon and a parameter name. */
  ghost predicate WellFormedSegment(s: string) {
    (s != "" && s[0] == ':' && ValidName(s[1..])) || forall c <- s :: c != ':' && !Unsupported(c)
  }

  lemma ParsesIfWellFormed(s: string)
    ensures ParseSegment(s).Ok? <==> WellFormedSegment(s)
    ensures ParseSegment(s).Ok? ==> Render(ParseSegment(s).value) == s
  {
    if s != "" && s[0] == ':' {
      assert s[0] in s;
      assert s == ":" + s[1..];
    } else if ':' !in s {
      if c :| c in s && Unsupported(c) {
        assert !WellFormedSegment(s);
      }
    }
  }

  lemma {:induction false} ParseAllRenders(parts: seq<string>)
    ensures ParseAll(parts).Ok? <==> forall s <- parts :: WellFormedSegment(s)
    ensures ParseAll(parts).Ok? ==> Renders(ParseAll(parts).value, parts)
    decreases |parts|
  {
    if parts != [] {
      assert parts == [parts[0]] + parts[1..];
      ParseAllRenders(parts[1..]);
      ParsesIfWellFormed(parts[0]);
    }
  }

  /** A path parses exactly when all its segments are well formed, and the parsed segments spell its normal form. */
  lemma ParseRoundTrip(path: string)
    ensures Parse(path).Ok? <==> forall s <- Segments(path) :: WellFormedSegment(s)
    ensures Parse(path).Ok? ==> Renders(Parse(path).value, Segments(path))
  {
    NormalizeKeepsSegments(path, path);
    ParseAllRenders(Segments(path));
  }

  lemma {:induction false} RenderingIsInjective(a: seq<Segment>, b: seq<Segment>, parts: seq<string>)
    requires Renders(a, parts) && Renders(b, parts)
    requires forall s <- a :: s.Literal? ==> ':' !in s.value
    requires forall s <- b :: s.Literal? ==> ':' !in s.value
    ensures a == b
  {
    forall i | 0 <= i < |parts| ensures a[i] == b[i] {
      assert Render(a[i]) == Render(b[i]);
      assert a[i] in a && b[i] in b;
      if a[i].Param? { assert Render(a[i])[0] == ':' && Render(a[i])[1..] == a[i].name; }
      if b[i].Param? { assert Render(b[i])[0] == ':' && Render(b[i])[1..] == b[i].name; }
    }
  }

  // ---------- Matching ----------

  predicate Matches(segments: seq<Segment>, incoming: seq<string>) {
    |segments| == |incoming| &&
    forall i | 0 <= i < |segments| :: segments[i].Literal? ==> segments[i].value == incoming[i]
  }

  /** Assigning a string to the `__proto__` key of a plain record creates no entry. */
  function Assign(params: Params, name: string, value: string): Params {
    if name == "__proto__" then params else params[name := value]
  }

  function BindOne(params: Params, segment: Segment, value: string): Params {
    if segment.Param? then Assign(params, segment.name, value) else params
  }

  function Bind(segments: seq<Segment>, incoming: seq<string>): Params
    requires |segments| == |incoming|
  {
    if segments == [] then map[]
    else
      var n := |segments| - 1;
      BindOne(Bind(segments[..n], incoming[..n]), segments[n], incoming[n])
  }

  function MatchSegments(segments: seq<Segment>, incoming: seq<string>): Option<Params> {
    if Matches(segments, incoming) then Some(Bind(segments, incoming)) else None
  }

  lemma BindNext(segments: seq<Segment>, incoming: seq<string>, i: nat)
    requires |segments| == |incoming| && i < |segments|
    ensures Bind(segments[..i + 1], incoming[..i + 1]) ==
            BindOne(Bind(segments[..i], incoming[..i]), segments[i], incoming[i])
  {
    assert segments[..i + 1][..i] == segments[..i] && incoming[..i + 1][..i] == incoming[..i];
  }

  /** Fills the record while it compares. */
  method MatchRoutePath(registered: seq<Segment>, incoming: seq<string>) returns (r: Option<Params>)
    ensures r == MatchSegments(registered, incoming)
  {
    if |registered| != |incoming| {
      return None;
    }
    var params: Params := map[];
    for index := 0 to |registered|
      invariant params == Bind(registered[..index], incoming[..index])
      invariant forall k | 0 <= k < index :: registered[k].Literal? ==> registered[k].value == incoming[k]
    {
      BindNext(registered, incoming, index);
      var segment := registered[index];
      if segment.Param? {
        params := Assign(params, segment.name, incoming[index]);
      } else if segment.value != incoming[index] {
        return None;
      }
    }
    assert registered[..|registered|] == registered && incoming[..|registered|] == incoming;
    r := Some(params);
  }

  /** Compares all literals first and fills the record in a second loop. */
  method MatchParameterizedRoute(segments: seq<Segment>, incoming: seq<string>) returns (r: Option<Params>)
    ensures r == MatchSegments(segments, incoming)
  {
    if |segments| != |incoming| {
      return None;
    }
    for index := 0 to |segments|
      invariant forall k | 0 <= k < index :: segments[k].Literal? ==> segments[k].value == incoming[k]
    {
      if segments[index].Literal? && segments[index].value != incoming[index] {
        return None;
      }
    }
    var params: Params := map[];
    for index := 0 to |segments|
      invariant params == Bind(segments[..index], incoming[..index])
    {
      BindNext(segments, incoming, index);
      if segments[index].Param? {
        params := Assign(params, segments[index].name, incoming[index]);
      }
    }
    assert segments[..|segments|] == segments && incoming[..|segments|] == incoming;
    r := Some(params);
  }

  // ---------- The returned parameters spell the request path ----------

  /** The pattern with its parameters replaced, if all of them are in the record. */
  function Fill(segments: seq<Segment>, params: Params): Option<seq<string>> {
    if segments == [] then Some([])
    else match Fill(segments[1..], params)
      case None => None
      case Some(rest) =>
        match segments[0]
        case Literal(v) => Some([v] + rest)
        case Param(n) => if n in params then Some([params[n]] + rest) else None
  }

  lemma {:induction false} FillIsPointwise(segments: seq<Segment>, params: Params, parts: seq<string>)
    requires |segments| == |parts|
    ensures Fill(segments, params) == Some(parts) <==>
            forall i | 0 <= i < |segments| ::
              match segments[i]
              case Literal(v) => v == parts[i]
              case Param(n) => n in params && params[n] == parts[i]
    decreases |segments|
  {
    if segments != [] {
      var first, rest := segments[0], segments[1..];
      FillIsPointwise(rest, params, parts[1..]);
      assert parts == [parts[0]] + parts[1..];
      forall i | 0 <= i < |rest| ensures rest[i] == segments[i + 1] && parts[1..][i] == parts[i + 1] {}
      forall i | 1 <= i < |segments| ensures segments[i] == rest[i - 1] && parts[i] == parts[1..][i - 1] {}
    }
  }

  /** No parameter of this name comes after the one at k. */
  predicate LastParam(segments: seq<Segment>, name: string, k: nat) {
    k < |segments| && segments[k] == Param(name) && forall j | k < j < |segments| :: segments[j] != Param(name)
  }

  /** The record holds a value for each parameter name but one, that of the last parameter of this name. */
  lemma {:induction false} BoundValue(segments: seq<Segment>, incoming: seq<string>, name: string)
    requires |segments| == |incoming|
    ensures name in Bind(segments, incoming) <==> name != "__proto__" && Param(name) in segments
    ensures name in Bind(segments, incoming) ==>
              exists k: nat :: LastParam(segments, name, k) && Bind(segments, incoming)[name] == incoming[k]
    decreases |segments|
  {
    if segments != [] {
      var n := |segments| - 1;
      BoundValue(segments[..n], incoming[..n], name);
      assert segments == segments[..n] + [segments[n]];
      if name in Bind(segments, incoming) {
        if segments[n] == Param(name) {
          assert Bind(segments, incoming)[name] == incoming[n];
          assert LastParam(segments, name, n);
        } else {
          assert Bind(segments, incoming)[name] == Bind(segments[..n], incoming[..n])[name];
          var k: nat :| LastParam(segments[..n], name, k) &&
            Bind(segments[..n], incoming[..n])[name] == incoming[..n][k];
          assert incoming[..n][k] == incoming[k] && segments[..n][k] == segments[k];
          forall j | k < j < |segments| ensures segments[j] != Param(name) {
            if j < n { assert segments[..n][j] == segments[j]; }
          }
          assert LastParam(segments, name, k);
        }
      }
    }
  }

  /** No two parameters of the same name got different values, and none is called `__proto__`. */
  predicate Consistent(segments: seq<Segment>, incoming: seq<string>)
    requires |segments| == |incoming|
  {
    (forall s <- segments :: s != Param("__proto__")) &&
    forall i, j | 0 <= i < j < |segments| ::
      segments[i].Param? && segments[i] == segments[j] ==> incoming[i] == incoming[j]
  }

  lemma ConsistentRebuilds(segments: seq<Segment>, incoming: seq<string>)
    requires Matches(segments, incoming) && Consistent(segments, incoming)
    ensures Fill(segments, Bind(segments, incoming)) == Some(incoming)
  {
    var params := Bind(segments, incoming);
    forall i | 0 <= i < |segments| && segments[i].Param?
      ensures segments[i].name in params && params[segments[i].name] == incoming[i]
    {
      var s := segments[i];
      assert s in segments;
      BoundValue(segments, incoming, s.name);
      var k :| 0 <= k < |segments| && segments[k] == Param(s.name) && params[s.name] == incoming[k];
      assert segments[k] == segments[i];
      assert k < i || i < k || k == i;
    }
    FillIsPointwise(segments, params, incoming);
  }

  lemma RebuildsConsistent(segments: seq<Segment>, incoming: seq<string>)
    requires Matches(segments, incoming) && Fill(segments, Bind(segments, incoming)) == Some(incoming)
    ensures Consistent(segments, incoming)
  {
    var params := Bind(segments, incoming);
    FillIsPointwise(segments, params, incoming);
    BoundValue(segments, incoming, "__proto__");
  }

  /**
   Replacing the parameters of a matched pattern by the returned record rebuilds the request exactly when consistent.
   */
  lemma ParamsRebuildPath(segments: seq<Segment>, incoming: seq<string>)
    requires Matches(segments, incoming)
    ensures Fill(segments, Bind(segments, incoming)) == Some(incoming) <==> Consistent(segments, incoming)
  {
    if Consistent(segments, incoming) { ConsistentRebuilds(segments, incoming); }
    if Fill(segments, Bind(segments, incoming)) == Some(incoming) { RebuildsConsistent(segments, incoming); }
  }

  ghost predicate DistinctNames(segments: seq<Segment>) {
    forall i, j | 0 <= i < j < |segments| :: segments[i].Param? ==> segments[i] != segments[j]
  }

  /** With distinct parameter names the record rebuilds the normalized path of every request that matches. */
  lemma DistinctParamsRebuildPath(segments: seq<Segment>, path: string)
    requires Matches(segments, Segments(path)) && DistinctNames(segments) && Param("__proto__") !in segments
    ensures var filled := Fill(segments, Bind(segments, Segments(path)));
            filled.Some? && "/" + Join(filled.value, '/') == Normalize(path)
  {
    ParamsRebuildPath(segments, Segments(path));
  }
}
