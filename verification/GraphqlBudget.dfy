/**
 The request budget of a GraphQL operation: a walk that expands fragments as it meets them, against the metrics of the
 operation with all fragments inlined.  A spread of a fragment that is being expanded, which section 5.5.2.2 of the
 GraphQL specification forbids, and a spread of an unknown fragment contribute nothing.
 */
module GraphqlBudget {
  import opened Options

  datatype Selection =
    | Field(name: string, selections: seq<Selection>)
    | InlineFragment(selections: seq<Selection>)
    | FragmentSpread(name: string)

  datatype Definition =
    | Fragment(name: string, selections: seq<Selection>)
    | Operation(operationName: Option<string>, selections: seq<Selection>)
    | Other

  type Fragments = map<string, seq<Selection>>

  /** A field of the inlined operation. */
  datatype Tree = Tree(name: string, children: seq<Tree>)

  datatype Metrics = Metrics(complexity: nat, cost: nat, maxDepth: nat)

  // ---------- Reference: the inlined operation and the depths of its fields ----------

  function Inlined(fragments: Fragments, selections: seq<Selection>, active: set<string>): seq<Tree>
    decreases fragments.Keys - active, selections
  {
    if selections == [] then []
    else InlinedOne(fragments, selections[0], active) + Inlined(fragments, selections[1..], active)
  }

  function InlinedOne(fragments: Fragments, selection: Selection, active: set<string>): seq<Tree>
    decreases fragments.Keys - active, selection
  {
    match selection
    case Field(name, sub) => [Tree(name, Inlined(fragments, sub, active))]
    case InlineFragment(sub) => Inlined(fragments, sub, active)
    case FragmentSpread(name) =>
      if name in active || name !in fragments then []
      else
        assert name in fragments.Keys - active;
        Inlined(fragments, fragments[name], active + {name})
  }

  function Depths(forest: seq<Tree>, depth: nat): seq<nat> {
    if forest == [] then []
    else [depth + 1] + Depths(forest[0].children, depth + 1) + Depths(forest[1..], depth)
  }

  function Sum(s: seq<nat>): nat { if s == [] then 0 else s[0] + Sum(s[1..]) }

  function Max2(a: nat, b: nat): nat { if a < b then b else a }

  function Max(s: seq<nat>): nat { if s == [] then 0 else Max2(s[0], Max(s[1..])) }

  /** Field count, sum of depths, and height. */
  function MetricsOf(forest: seq<Tree>): Metrics {
    var depths := Depths(forest, 0);
    Metrics(|depths|, Sum(depths), Max(depths))
  }

  lemma {:induction false} SumMaxConcat(a: seq<nat>, b: seq<nat>)
    ensures Sum(a + b) == Sum(a) + Sum(b) && Max(a + b) == Max2(Max(a), Max(b))
    decreases |a|
  {
    if a == [] {
      assert a + b == b;
    } else {
      assert (a + b)[1..] == a[1..] + b;
      SumMaxConcat(a[1..], b);
    }
  }

  lemma {:induction false} InlinedConcat(fragments: Fragments, a: seq<Selection>, b: seq<Selection>,
                                         active: set<string>)
    ensures Inlined(fragments, a + b, active) == Inlined(fragments, a, active) + Inlined(fragments, b, active)
    decreases |a|
  {
    if a == [] {
      assert a + b == b;
    } else {
      assert (a + b)[1..] == a[1..] + b;
      InlinedConcat(fragments, a[1..], b, active);
    }
  }

  lemma {:induction false} DepthsConcat(a: seq<Tree>, b: seq<Tree>, depth: nat)
    ensures Depths(a + b, depth) == Depths(a, depth) + Depths(b, depth)
    decreases |a|
  {
    if a == [] {
      assert a + b == b;
    } else {
      assert (a + b)[1..] == a[1..] + b;
      DepthsConcat(a[1..], b, depth);
    }
  }

  // ---------- The walk ----------

  /** The metrics after the fields at the given depths have been counted. */
  function Counted(m: Metrics, depths: seq<nat>): Metrics {
    Metrics(m.complexity + |depths|, m.cost + Sum(depths), Max2(m.maxDepth, Max(depths)))
  }

  lemma CountedTwice(m: Metrics, a: seq<nat>, b: seq<nat>)
    ensures Counted(Counted(m, a), b) == Counted(m, a + b)
  {
    SumMaxConcat(a, b);
  }

  ghost function DepthsOf(fragments: Fragments, selections: seq<Selection>, active: set<string>, depth: nat): seq<nat> {
    Depths(Inlined(fragments, selections, active), depth)
  }

  lemma DepthsOfNext(fragments: Fragments, selections: seq<Selection>, k: nat, active: set<string>, depth: nat)
    requires k < |selections|
    ensures DepthsOf(fragments, selections[..k + 1], active, depth)
         == DepthsOf(fragments, selections[..k], active, depth)
            + Depths(InlinedOne(fragments, selections[k], active), depth)
  {
    var one := [selections[k]];
    assert selections[..k + 1] == selections[..k] + one;
    InlinedConcat(fragments, selections[..k], one, active);
    assert one[1..] == [];
    assert Inlined(fragments, one, active) == InlinedOne(fragments, selections[k], active);
    DepthsConcat(Inlined(fragments, selections[..k], active), Inlined(fragments, one, active), depth);
  }

  class Walker {
    const fragments: Fragments
    var metrics: Metrics
    var active: set<string>

    constructor (fragments: Fragments)
      ensures this.fragments == fragments && metrics == Metrics(0, 0, 0) && active == {}
    {
      this.fragments := fragments;
      metrics := Metrics(0, 0, 0);
      active := {};
    }

    /** Counts the fields of the inlined selections, and leaves the active fragments as it found them. */
    method WalkSelectionSet(selections: seq<Selection>, depth: nat)
      modifies this
      ensures active == old(active)
      ensures metrics == Counted(old(metrics), DepthsOf(fragments, selections, old(active), depth))
      decreases fragments.Keys - active, selections
    {
      for k := 0 to |selections|
        invariant active == old(active)
        invariant metrics == Counted(old(metrics), DepthsOf(fragments, selections[..k], old(active), depth))
      {
        ghost var before := DepthsOf(fragments, selections[..k], active, depth);
        DepthsOfNext(fragments, selections, k, active, depth);
        Walk(selections[k], depth);
        CountedTwice(old(metrics), before, Depths(InlinedOne(fragments, selections[k], active), depth));
      }
      assert selections[..|selections|] == selections;
    }

    method Walk(selection: Selection, depth: nat)
      modifies this
      ensures active == old(active)
      ensures metrics == Counted(old(metrics), Depths(InlinedOne(fragments, selection, old(active)), depth))
      decreases fragments.Keys - active, selection
    {
      match selection
      case Field(name, sub) =>
        metrics := Metrics(metrics.complexity + 1, metrics.cost + depth + 1, Max2(metrics.maxDepth, depth + 1));
        assert [depth + 1][1..] == [];
        assert Sum([depth + 1]) == depth + 1 && Max([depth + 1]) == depth + 1;
        assert metrics == Counted(old(metrics), [depth + 1]);
        WalkSelectionSet(sub, depth + 1);
        ghost var deeper := DepthsOf(fragments, sub, active, depth + 1);
        CountedTwice(old(metrics), [depth + 1], deeper);
        OneTree(Tree(name, Inlined(fragments, sub, active)), depth);
      case InlineFragment(sub) =>
        WalkSelectionSet(sub, depth);
      case FragmentSpread(name) =>
        if name !in active && name in fragments {
          assert name in fragments.Keys - active;
          active := active + {name};
          WalkSelectionSet(fragments[name], depth);
          active := active - {name};
        }
    }
  }

  lemma OneTree(tree: Tree, depth: nat)
    ensures Depths([tree], depth) == [depth + 1] + Depths(tree.children, depth + 1)
  {
    assert [tree][1..] == [];
  }

  // ---------- Documents ----------

  /** Of several fragments with one name the last counts. */
  function FragmentsOf(document: seq<Definition>): Fragments {
    if document == [] then map[]
    else
      var last := document[|document| - 1];
      var earlier := FragmentsOf(document[..|document| - 1]);
      if last.Fragment? then earlier[last.name := last.selections] else earlier
  }

  function OperationsOf(document: seq<Definition>): seq<Definition> {
    if document == [] then []
    else
      var last := document[|document| - 1];
      OperationsOf(document[..|document| - 1]) + if last.Operation? then [last] else []
  }

  function FindOperation(operations: seq<Definition>, name: string): Option<Definition> {
    if operations == [] then None
    else if operations[0].Operation? && operations[0].operationName == Some(name) then Some(operations[0])
    else FindOperation(operations[1..], name)
  }

  /** An empty name counts as none; without a name the operation must be the only one. */
  function ResolveOperation(operations: seq<Definition>, name: Option<string>): Option<Definition> {
    if name.Some? && name.value != "" then FindOperation(operations, name.value)
    else if |operations| == 1 then Some(operations[0]) else None
  }

  lemma {:induction false} OperationsAreOperations(document: seq<Definition>)
    ensures forall d <- OperationsOf(document) :: d.Operation? && d in document
    decreases |document|
  {
    if document != [] {
      OperationsAreOperations(document[..|document| - 1]);
    }
  }

  lemma {:induction false} FoundOperation(operations: seq<Definition>, name: string)
    ensures FindOperation(operations, name).Some? ==>
              FindOperation(operations, name).value in operations && FindOperation(operations, name).value.Operation?
    decreases |operations|
  {
    if operations != [] { FoundOperation(operations[1..], name); }
  }

  lemma ResolvedIsOperation(document: seq<Definition>, name: Option<string>)
    ensures var r := ResolveOperation(OperationsOf(document), name); r.Some? ==> r.value.Operation?
  {
    OperationsAreOperations(document);
    if name.Some? { FoundOperation(OperationsOf(document), name.value); }
  }

  method AnalyzeGraphqlOperation(document: seq<Definition>, name: Option<string>) returns (r: Option<Metrics>)
    ensures var op := ResolveOperation(OperationsOf(document), name);
            && (r.None? <==> op.None?)
            && (op.Some? && op.value.Operation? ==>
                  r == Some(MetricsOf(Inlined(FragmentsOf(document), op.value.selections, {}))))
  {
    var fragments: Fragments := map[];
    var operations: seq<Definition> := [];
    for k := 0 to |document|
      invariant fragments == FragmentsOf(document[..k]) && operations == OperationsOf(document[..k])
    {
      var definition := document[k];
      assert document[..k + 1][..k] == document[..k];
      if definition.Fragment? {
        fragments := fragments[definition.name := definition.selections];
      } else if definition.Operation? {
        operations := operations + [definition];
      }
    }
    assert document[..|document|] == document;
    ResolvedIsOperation(document, name);
    var operation := ResolveOperation(operations, name);
    if operation.None? {
      return None;
    }
    var walker := new Walker(fragments);
    walker.WalkSelectionSet(operation.value.selections, 0);
    r := Some(walker.metrics);
  }

  datatype Limits = Limits(maxDepth: int, maxComplexity: int, maxCost: int)
  datatype Measure = Depth | Complexity | Cost
  datatype Exceeded = Exceeded(measure: Measure, actual: int, limit: int)

  function Rank(m: Measure): nat {
    match m
    case Depth => 0
    case Complexity => 1
    case Cost => 2
  }

  function Actual(m: Metrics, measure: Measure): int {
    match measure
    case Depth => m.maxDepth
    case Complexity => m.complexity
    case Cost => m.cost
  }

  function Limit(limits: Limits, measure: Measure): int {
    match measure
    case Depth => limits.maxDepth
    case Complexity => limits.maxComplexity
    case Cost => limits.maxCost
  }

  predicate Exceeds(m: Metrics, limits: Limits, measure: Measure) { Actual(m, measure) > Limit(limits, measure) }

  /** One error for each measure above its limit, with both numbers, in the order depth, complexity, cost. */
  ghost predicate ReportsExcess(errors: seq<Exceeded>, m: Metrics, limits: Limits) {
    && (forall e <- errors :: e.actual == Actual(m, e.measure) && e.limit == Limit(limits, e.measure))
    && (forall measure :: Exceeds(m, limits, measure) <==> exists e <- errors :: e.measure == measure)
    && (forall i, j | 0 <= i < j < |errors| :: Rank(errors[i].measure) < Rank(errors[j].measure))
  }

  function ErrorFor(check: Exceeded): seq<Exceeded> {
    if check.actual > check.limit then [check] else []
  }

  lemma AllErrors(a: Exceeded, b: Exceeded, c: Exceeded, m: Metrics, limits: Limits)
    requires a == Exceeded(Depth, m.maxDepth, limits.maxDepth)
    requires b == Exceeded(Complexity, m.complexity, limits.maxComplexity)
    requires c == Exceeded(Cost, m.cost, limits.maxCost)
    ensures ReportsExcess(ErrorFor(a) + ErrorFor(b) + ErrorFor(c), m, limits)
  {
    var errors := ErrorFor(a) + ErrorFor(b) + ErrorFor(c);
    assert forall e <- errors :: e in {a, b, c};
    forall measure ensures Exceeds(m, limits, measure) <==> exists e <- errors :: e.measure == measure {
      var mine := if measure.Depth? then a else if measure.Complexity? then b else c;
      assert mine in errors <==> mine.actual > mine.limit;
    }
  }

  /** One error for each exceeded limit in the order depth, complexity, cost, and none without an operation. */
  method EvaluateGraphqlRequestLimits(document: seq<Definition>, name: Option<string>, limits: Limits)
      returns (errors: seq<Exceeded>)
    ensures var op := ResolveOperation(OperationsOf(document), name);
            && (op.None? ==> errors == [])
            && (op.Some? && op.value.Operation? ==>
                  ReportsExcess(errors, MetricsOf(Inlined(FragmentsOf(document), op.value.selections, {})), limits))
  {
    var metrics := AnalyzeGraphqlOperation(document, name);
    errors := [];
    if metrics.Some? {
      var m := metrics.value;
      var checks := [
        Exceeded(Depth, m.maxDepth, limits.maxDepth),
        Exceeded(Complexity, m.complexity, limits.maxComplexity),
        Exceeded(Cost, m.cost, limits.maxCost)
      ];
      for k := 0 to |checks|
        invariant k == 0 ==> errors == []
        invariant k == 1 ==> errors == ErrorFor(checks[0])
        invariant k == 2 ==> errors == ErrorFor(checks[0]) + ErrorFor(checks[1])
        invariant k == 3 ==> errors == ErrorFor(checks[0]) + ErrorFor(checks[1]) + ErrorFor(checks[2])
      {
        if checks[k].actual > checks[k].limit {
          errors := errors + [checks[k]];
        }
      }
      AllErrors(checks[0], checks[1], checks[2], m, limits);
    }
  }

  // ---------- Bounds between the metrics ----------

  function Triangle(n: nat): nat { n * (n + 1) / 2 }

  lemma TriangleStep(n: nat)
    ensures Triangle(n + 1) == Triangle(n) + n + 1
  {
    assert (n + 1) * (n + 2) == n * (n + 1) + 2 * (n + 1);
  }

  /** A forest reaches its height through fields at every depth in between. */
  lemma {:induction false} HeightNeedsFields(forest: seq<Tree>, depth: nat)
    requires forest != []
    ensures var d := Depths(forest, depth);
            && depth < Max(d) && Max(d) <= depth + |d|
            && Triangle(Max(d)) <= Triangle(depth) + Sum(d)
    decreases forest
  {
    var below := Depths(forest[0].children, depth + 1);
    var beside := Depths(forest[1..], depth);
    var d := Depths(forest, depth);
    SumMaxConcat([depth + 1], below);
    SumMaxConcat([depth + 1] + below, beside);
    TriangleStep(depth);
    if forest[0].children != [] { HeightNeedsFields(forest[0].children, depth + 1); }
    if forest[1..] != [] { HeightNeedsFields(forest[1..], depth); }
  }

  lemma {:induction false} MaxBounds(s: seq<nat>)
    ensures forall x <- s :: x <= Max(s)
    decreases |s|
  {
    if s != [] {
      assert s == [s[0]] + s[1..];
      MaxBounds(s[1..]);
    }
  }

  lemma {:induction false} SumIsBounded(s: seq<nat>, m: nat)
    requires forall x <- s :: 1 <= x <= m
    ensures |s| <= Sum(s) <= |s| * m
    decreases |s|
  {
    if s != [] {
      assert s[0] in s && forall x <- s[1..] :: x in s;
      SumIsBounded(s[1..], m);
      OneMore(|s[1..]|, m);
    }
  }

  lemma OneMore(n: nat, m: nat)
    ensures (n + 1) * m == n * m + m
  {
  }

  lemma {:induction false} DepthsArePositive(forest: seq<Tree>, depth: nat)
    ensures forall x <- Depths(forest, depth) :: depth < x
    decreases forest
  {
    if forest != [] {
      DepthsArePositive(forest[0].children, depth + 1);
      DepthsArePositive(forest[1..], depth);
    }
  }

  /** For every operation: height <= fields <= cost <= fields * height, and cost >= height * (height + 1) / 2. */
  lemma MetricsAreOrdered(forest: seq<Tree>)
    ensures var m := MetricsOf(forest);
            m.maxDepth <= m.complexity <= m.cost <= m.complexity * m.maxDepth && Triangle(m.maxDepth) <= m.cost
  {
    var d := Depths(forest, 0);
    DepthsArePositive(forest, 0);
    MaxBounds(d);
    SumIsBounded(d, Max(d));
    if forest != [] { HeightNeedsFields(forest, 0); }
  }

  // ---------- Acyclic documents ----------

  ghost predicate SpreadsBelow(fragments: Fragments, rank: string -> nat, selections: seq<Selection>, n: nat) {
    selections == [] ||
    ((match selections[0]
      case Field(_, sub) => SpreadsBelow(fragments, rank, sub, n)
      case InlineFragment(sub) => SpreadsBelow(fragments, rank, sub, n)
      case FragmentSpread(name) => name in fragments ==> rank(name) < n)
     && SpreadsBelow(fragments, rank, selections[1..], n))
  }

  /** Every fragment spreads only fragments of smaller rank: no spread leads back to its own fragment. */
  ghost predicate Acyclic(fragments: Fragments, rank: string -> nat) {
    forall name <- fragments :: SpreadsBelow(fragments, rank, fragments[name], rank(name))
  }

  /** Plain inlining, without a record of active fragments. */
  ghost function Expanded(fragments: Fragments, rank: string -> nat, selections: seq<Selection>, n: nat): seq<Tree>
    requires Acyclic(fragments, rank) && SpreadsBelow(fragments, rank, selections, n)
    decreases n, selections
  {
    if selections == [] then []
    else
      (match selections[0]
       case Field(name, sub) => [Tree(name, Expanded(fragments, rank, sub, n))]
       case InlineFragment(sub) => Expanded(fragments, rank, sub, n)
       case FragmentSpread(name) =>
         if name in fragments then Expanded(fragments, rank, fragments[name], rank(name)) else [])
      + Expanded(fragments, rank, selections[1..], n)
  }

  lemma {:induction false} ActiveIsIrrelevant(fragments: Fragments, rank: string -> nat, selections: seq<Selection>,
                                              n: nat, active: set<string>)
    requires Acyclic(fragments, rank) && SpreadsBelow(fragments, rank, selections, n)
    requires forall name <- active :: n <= rank(name)
    ensures Inlined(fragments, selections, active) == Expanded(fragments, rank, selections, n)
    decreases n, selections
  {
    if selections != [] {
      ActiveIsIrrelevant(fragments, rank, selections[1..], n, active);
      match selections[0]
      case Field(_, sub) => ActiveIsIrrelevant(fragments, rank, sub, n, active);
      case InlineFragment(sub) => ActiveIsIrrelevant(fragments, rank, sub, n, active);
      case FragmentSpread(name) =>
        if name in fragments {
          ActiveIsIrrelevant(fragments, rank, fragments[name], rank(name), active + {name});
        }
    }
  }

  /** For a document without cyclic spreads the budget is that of the plainly inlined operation. */
  lemma AcyclicDocumentsAreInlined(fragments: Fragments, rank: string -> nat, selections: seq<Selection>, n: nat)
    requires Acyclic(fragments, rank) && SpreadsBelow(fragments, rank, selections, n)
    ensures MetricsOf(Inlined(fragments, selections, {})) == MetricsOf(Expanded(fragments, rank, selections, n))
  {
    ActiveIsIrrelevant(fragments, rank, selections, n, {});
  }
}
