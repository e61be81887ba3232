/**
 What the parts of a document contribute: the operation a request names, the fragments its spreads mean, and how a
 field, an inline fragment or a spread changes the metrics.
 */
module GraphqlDocuments {
  import opened Options
  import opened GraphqlBudget

  // ---------- The operation ----------

  predicate Named(d: Definition, name: string) { d.Operation? && d.operationName == Some(name) }

  /** The first operation of this name in the document. */
  ghost predicate FirstNamed(document: seq<Definition>, name: string, i: nat) {
    i < |document| && Named(document[i], name) && forall j | 0 <= j < i :: !Named(document[j], name)
  }

  ghost predicate OnlyOperation(document: seq<Definition>, i: nat) {
    i < |document| && document[i].Operation? && forall j | 0 <= j < |document| && j != i :: !document[j].Operation?
  }

  lemma {:induction false} FindInConcat(a: seq<Definition>, b: seq<Definition>, name: string)
    ensures FindOperation(a + b, name) ==
            if FindOperation(a, name).Some? then FindOperation(a, name) else FindOperation(b, name)
    decreases |a|
  {
    if a == [] {
      assert a + b == b;
    } else {
      assert (a + b)[1..] == a[1..] + b;
      FindInConcat(a[1..], b, name);
    }
  }

  lemma {:induction false} NamedOperation(document: seq<Definition>, name: string)
    ensures FindOperation(OperationsOf(document), name).None? <==> forall d <- document :: !Named(d, name)
    ensures forall i: nat :: FirstNamed(document, name, i) ==>
              FindOperation(OperationsOf(document), name) == Some(document[i])
    decreases |document|
  {
    if document != [] {
      var n := |document| - 1;
      var before, last := document[..n], document[n];
      assert document == before + [last];
      NamedOperation(before, name);
      var tail := if last.Operation? then [last] else [];
      assert [last][1..] == [] && FindOperation([], name) == None;
      assert FindOperation(tail, name) == if Named(last, name) then Some(last) else None;
      FindInConcat(OperationsOf(before), tail, name);
      forall i: nat | FirstNamed(document, name, i)
        ensures FindOperation(OperationsOf(document), name) == Some(document[i])
      {
        if i < n {
          assert forall j | 0 <= j <= i :: before[j] == document[j];
          assert FirstNamed(before, name, i);
        } else {
          assert forall d <- before :: !Named(d, name);
        }
      }
    }
  }

  lemma {:induction false} CountOperations(document: seq<Definition>)
    ensures OperationsOf(document) == [] <==> forall d <- document :: !d.Operation?
    ensures |OperationsOf(document)| == 1 <==> exists i: nat :: OnlyOperation(document, i)
    ensures forall i: nat :: OnlyOperation(document, i) ==> OperationsOf(document) == [document[i]]
    decreases |document|
  {
    if document != [] {
      var n := |document| - 1;
      var before, last := document[..n], document[n];
      assert document == before + [last];
      CountOperations(before);
      forall i: nat ensures OnlyOperation(document, i) <==>
                            if last.Operation? then i == n && OperationsOf(before) == [] else OnlyOperation(before, i)
      {
        OnlyInPrefix(document, i);
      }
      if last.Operation? {
        assert OperationsOf(document) == OperationsOf(before) + [last];
        assert |OperationsOf(document)| == 1 <==> OnlyOperation(document, n);
      } else {
        assert OperationsOf(document) == OperationsOf(before);
      }
    }
  }

  lemma OnlyInPrefix(document: seq<Definition>, i: nat)
    requires document != []
    ensures var before, last := document[..|document| - 1], document[|document| - 1];
            OnlyOperation(document, i) <==>
            if last.Operation? then i == |before| && forall d <- before :: !d.Operation? else OnlyOperation(before, i)
  {
    var n := |document| - 1;
    var before := document[..n];
    assert forall j | 0 <= j < n :: before[j] == document[j] && document[j] in before;
  }

  /**
   A request that names an operation gets the first one of that name in the document, or none if there is no such one; a
   request without a name, or with an empty one, gets the document's only operation, or none if there are several.
   */
  lemma OperationIsChosen(document: seq<Definition>, name: Option<string>)
    ensures var r := ResolveOperation(OperationsOf(document), name);
            if name.Some? && name.value != "" then
              (r.None? <==> forall d <- document :: !Named(d, name.value)) &&
              (forall i: nat :: FirstNamed(document, name.value, i) ==> r == Some(document[i]))
            else
              (r.Some? <==> exists i: nat :: OnlyOperation(document, i)) &&
              (forall i: nat :: OnlyOperation(document, i) ==> r == Some(document[i]))
  {
    if name.Some? { NamedOperation(document, name.value); }
    CountOperations(document);
  }

  /** Of several fragments of one name the last one in the document counts. */
  lemma {:induction false} LastFragmentCounts(document: seq<Definition>, name: string)
    ensures name in FragmentsOf(document) <==> exists d <- document :: d.Fragment? && d.name == name
    ensures name in FragmentsOf(document) ==>
              exists i | 0 <= i < |document| ::
                document[i] == Fragment(name, FragmentsOf(document)[name]) &&
                forall j | i < j < |document| :: !(document[j].Fragment? && document[j].name == name)
    decreases |document|
  {
    if document != [] {
      var n := |document| - 1;
      var before, last := document[..n], document[n];
      assert document == before + [last];
      LastFragmentCounts(before, name);
      if name in FragmentsOf(document) {
        if last.Fragment? && last.name == name {
          assert document[n] == Fragment(name, FragmentsOf(document)[name]);
        } else {
          var i :| 0 <= i < n && before[i] == Fragment(name, FragmentsOf(before)[name]) &&
            forall j | i < j < n :: !(before[j].Fragment? && before[j].name == name);
          assert document[i] == Fragment(name, FragmentsOf(document)[name]);
          assert forall j | i < j < n :: document[j] == before[j];
        }
      }
    }
  }

  // ---------- The metrics ----------

  lemma InlinedSingle(fragments: Fragments, selection: Selection, active: set<string>)
    ensures Inlined(fragments, [selection], active) == InlinedOne(fragments, selection, active)
  {
    assert [selection][1..] == [];
  }

  lemma InlinedAround(fragments: Fragments, before: seq<Selection>, selection: Selection, after: seq<Selection>,
                      active: set<string>)
    ensures Inlined(fragments, before + [selection] + after, active) ==
            Inlined(fragments, before, active) + InlinedOne(fragments, selection, active) +
            Inlined(fragments, after, active)
  {
    InlinedConcat(fragments, before + [selection], after, active);
    InlinedConcat(fragments, before, [selection], active);
    InlinedSingle(fragments, selection, active);
  }

  /** Writing the selections of an inline fragment in its place changes nothing. */
  lemma InlineFragmentIsTransparent(fragments: Fragments, before: seq<Selection>, sub: seq<Selection>,
                                    after: seq<Selection>, active: set<string>)
    ensures Inlined(fragments, before + [InlineFragment(sub)] + after, active) ==
            Inlined(fragments, before + sub + after, active)
  {
    InlinedAround(fragments, before, InlineFragment(sub), after, active);
    InlinedConcat(fragments, before + sub, after, active);
    InlinedConcat(fragments, before, sub, active);
  }

  /** Without cyclic spreads, writing a fragment's selections in place of a spread of it changes nothing. */
  lemma SpreadIsItsFragment(fragments: Fragments, rank: string -> nat, before: seq<Selection>, name: string,
                            after: seq<Selection>)
    requires Acyclic(fragments, rank) && name in fragments
    ensures Inlined(fragments, before + [FragmentSpread(name)] + after, {}) ==
            Inlined(fragments, before + fragments[name] + after, {})
  {
    InlinedAround(fragments, before, FragmentSpread(name), after, {});
    InlinedConcat(fragments, before + fragments[name], after, {});
    InlinedConcat(fragments, before, fragments[name], {});
    assert {} + {name} == {name};
    ActiveIsIrrelevant(fragments, rank, fragments[name], rank(name), {name});
    ActiveIsIrrelevant(fragments, rank, fragments[name], rank(name), {});
  }

  lemma {:induction false} DeeperByOne(forest: seq<Tree>, depth: nat)
    ensures |Depths(forest, depth + 1)| == |Depths(forest, depth)|
    ensures forall i | 0 <= i < |Depths(forest, depth)| :: Depths(forest, depth + 1)[i] == Depths(forest, depth)[i] + 1
    decreases forest
  {
    if forest != [] {
      DeeperByOne(forest[0].children, depth + 1);
      DeeperByOne(forest[1..], depth);
    }
  }

  lemma {:induction false} SumMaxOfDeeper(s: seq<nat>, t: seq<nat>)
    requires |t| == |s| && forall i | 0 <= i < |s| :: t[i] == s[i] + 1
    ensures Sum(t) == Sum(s) + |s| && Max(t) == if s == [] then 0 else Max(s) + 1
    decreases |s|
  {
    if s != [] { SumMaxOfDeeper(s[1..], t[1..]); }
  }

  /**
   A field around selections counts itself, moves what it selects one level down, and so adds one to the height and the
   number of fields it encloses, and one more for itself, to the cost.
   */
  lemma FieldAddsALevel(fragments: Fragments, name: string, sub: seq<Selection>, active: set<string>)
    ensures var m := MetricsOf(Inlined(fragments, sub, active));
            MetricsOf(Inlined(fragments, [Field(name, sub)], active)) ==
            Metrics(m.complexity + 1, m.cost + m.complexity + 1, m.maxDepth + 1)
  {
    var inner := Inlined(fragments, sub, active);
    InlinedSingle(fragments, Field(name, sub), active);
    OneTree(Tree(name, inner), 0);
    DeeperByOne(inner, 0);
    SumMaxOfDeeper(Depths(inner, 0), Depths(inner, 1));
    assert Depths([Tree(name, inner)], 0) == [1] + Depths(inner, 1);
    assert [1][1..] == [];
    SumMaxConcat([1], Depths(inner, 1));
  }

  /** Selections side by side: fields and costs add up, the height is the greater one. */
  lemma SelectionsAddUp(fragments: Fragments, a: seq<Selection>, b: seq<Selection>, active: set<string>)
    ensures var m, n := MetricsOf(Inlined(fragments, a, active)), MetricsOf(Inlined(fragments, b, active));
            MetricsOf(Inlined(fragments, a + b, active)) ==
            Metrics(m.complexity + n.complexity, m.cost + n.cost, Max2(m.maxDepth, n.maxDepth))
  {
    InlinedConcat(fragments, a, b, active);
    DepthsConcat(Inlined(fragments, a, active), Inlined(fragments, b, active), 0);
    SumMaxConcat(Depths(Inlined(fragments, a, active), 0), Depths(Inlined(fragments, b, active), 0));
  }
}
