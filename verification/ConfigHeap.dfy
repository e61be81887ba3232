/**
 The in-place merge: the target's dictionaries change in place, the sources neither change nor end up in the result.
 */
module ConfigHeap {
  import opened Options
  import opened ConfigMerge
  import opened ConfigShapes
  import opened ConfigClone

  /** No object occurs twice. */
  ghost predicate Distinct(shape: Shape) {
    shape.Object? ==>
      (forall k <- shape.parts :: Distinct(shape.parts[k]) && shape.loc !in Locs(shape.parts[k])) &&
      forall j <- shape.parts, k <- shape.parts :: j != k ==> Locs(shape.parts[j]) !! Locs(shape.parts[k])
  }

  // ---------- Replacing one part ----------

  function WithPart(shape: Shape, k: string, p: Shape): Shape
    requires shape.Object?
  {
    shape.(parts := shape.parts[k := p])
  }

  lemma PartReplaced(cells: Cells, cells': Cells, shape: Shape, k: string, slot: Slot, p: Shape)
    requires shape.Object? && Realizes(cells, ObjectSlot(shape.loc), shape)
    requires shape.loc in cells' && cells'[shape.loc] == DictCell(cells[shape.loc].entries[k := slot])
    requires Realizes(cells', slot, p)
    requires forall j <- shape.parts :: j != k ==> Agree(cells, cells', Locs(shape.parts[j]))
    ensures Realizes(cells', ObjectSlot(shape.loc), WithPart(shape, k, p))
  {
    var shape' := WithPart(shape, k, p);
    forall j | j in shape'.parts ensures Realizes(cells', cells'[shape.loc].entries[j], shape'.parts[j]) {
      if j != k { StillRealizes(cells, cells', cells[shape.loc].entries[j], shape.parts[j]); }
    }
  }

  lemma PartReplacedDistinct(shape: Shape, k: string, p: Shape)
    requires shape.Object? && Distinct(shape) && Distinct(p) && shape.loc !in Locs(p)
    requires forall j <- shape.parts :: j != k ==> Locs(shape.parts[j]) !! Locs(p)
    ensures Distinct(WithPart(shape, k, p))
  {
  }

  lemma PartReplacedLocs(shape: Shape, k: string, p: Shape, x: Loc)
    requires shape.Object? && x in Locs(WithPart(shape, k, p))
    ensures x in Locs(shape) || x in Locs(p)
  {
    var shape' := WithPart(shape, k, p);
    if x != shape.loc {
      var j :| j in shape'.parts && x in Locs(shape'.parts[j]);
      if j != k { PartLocs(shape, j); }
    }
  }

  lemma PartReplacedMeaning(shape: Shape, k: string, p: Shape)
    requires shape.Object?
    ensures Meaning(WithPart(shape, k, p)).entries == Meaning(shape).entries[k := Meaning(p)]
  {
  }

  // ---------- The merge ----------

  ghost function PriorAt(m: map<string, Value>, k: string): Value {
    if k in m then m[k] else EmptyDict
  }

  /** A dictionary object realizes a shape of which no part occurs twice. */
  ghost predicate TreeAt(cells: Cells, l: Loc, shape: Shape) {
    shape.Object? && shape.loc == l && Realizes(cells, ObjectSlot(l), shape) && Distinct(shape)
  }

  /** The later shape consists of objects of the earlier one and of new objects, and nothing else was written. */
  ghost predicate OnlyWrites(cells: Cells, cells': Cells, next: Loc, shape: Shape, shape': Shape) {
    && (forall x <- Locs(shape') :: x in Locs(shape) || next <= x)
    && (forall l <- cells :: l !in Locs(shape) ==> l in cells' && cells'[l] == cells[l])
  }

  lemma OnlyWritesTwice(c0: Cells, c1: Cells, c2: Cells, n0: Loc, n1: Loc, s0: Shape, s1: Shape, s2: Shape)
    requires OnlyWrites(c0, c1, n0, s0, s1) && OnlyWrites(c1, c2, n1, s1, s2) && n0 <= n1
    requires forall l <- c0 :: l < n0
    ensures OnlyWrites(c0, c2, n0, s0, s2)
  {
  }

  lemma OtherPart(shape: Shape, j: string, k: string)
    requires shape.Object? && Distinct(shape) && j in shape.parts && k in shape.parts && j != k
    ensures Locs(shape.parts[j]) !! Locs(shape.parts[k]) && shape.loc !in Locs(shape.parts[j])
  {
  }

  /** A new slot under a key, made of new objects only. */
  method PutNew(h: Heap, target: Loc, k: string, slot: Slot, ghost before: Cells, ghost bound: Loc, ghost ts: Shape,
                ghost p: Shape)
      returns (ghost ts': Shape)
    requires h.Ok() && TreeAt(h.cells, target, ts) && Realizes(h.cells, slot, p) && Distinct(p)
    requires (forall l <- before :: l < bound && l in h.cells && h.cells[l] == before[l]) && Locs(ts) <= before.Keys
    requires forall x <- Locs(p) :: bound <= x
    modifies h
    ensures h.Ok() && h.next == old(h.next) && ts' == WithPart(ts, k, p) && TreeAt(h.cells, target, ts')
    ensures OnlyWrites(before, h.cells, bound, ts, ts')
  {
    ghost var cells := h.cells;
    h.cells := h.cells[target := DictCell(h.cells[target].entries[k := slot])];
    ts' := WithPart(ts, k, p);
    assert target in Locs(ts);
    StillRealizes(cells, h.cells, slot, p);
    forall j | j in ts.parts && j != k
      ensures Agree(cells, h.cells, Locs(ts.parts[j])) && Locs(ts.parts[j]) !! Locs(p)
    {
      PartLocs(ts, j);
    }
    PartReplaced(cells, h.cells, ts, k, slot, p);
    PartReplacedDistinct(ts, k, p);
    forall x | x in Locs(ts') ensures x in Locs(ts) || bound <= x { PartReplacedLocs(ts, k, p, x); }
  }

  /**
   The merge has stopped at a key `__proto__` of the source with the value vs; nothing but the target and new objects
   has been written.
   */
  ghost predicate Stopped(start: Cells, cells: Cells, ts: Shape, ss: Shape, at: Slot, vs: Shape) {
    && (forall l <- start :: l !in Locs(ts) ==> l in cells && cells[l] == start[l])
    && Realizes(start, at, vs) && Locs(vs) <= Locs(ss) && ProtoEntry(Meaning(ss), Meaning(vs))
  }

  /** Whether the merge ran to its end is decided by the source alone. */
  ghost predicate Outcome(start: Cells, cells: Cells, bound: Loc, target: Loc, ts: Shape, ts': Shape, ss: Shape,
                          at: Option<Slot>, vs: Shape) {
    && (at.None? <==> Plain(Meaning(ss)))
    && (at.None? ==> TreeAt(cells, target, ts') && OnlyWrites(start, cells, bound, ts, ts')
                     && Meaning(ts') == Merge(Meaning(ts), Meaning(ss)))
    && (at.Some? ==> Stopped(start, cells, ts, ss, at.value, vs))
  }

  /**
   Merges the source into the target up to the first key `__proto__` it meets.  Without one, the target becomes the
   right-biased deep merge; only its own objects and new ones are written, and it shares none with the source.
   */
  method MergeConfigEntries(h: Heap, target: Loc, source: Loc, ghost ts: Shape, ghost ss: Shape)
      returns (at: Option<Slot>, ghost ts': Shape, ghost vs: Shape)
    requires h.Ok() && TreeAt(h.cells, target, ts) && ss.Object? && Realizes(h.cells, ObjectSlot(source), ss)
    requires Locs(ts) !! Locs(ss)
    modifies h
    ensures h.Ok() && old(h.next) <= h.next
    ensures Outcome(old(h.cells), h.cells, old(h.next), target, ts, ts', ss, at, vs)
    decreases ss, 1
  {
    ghost var start, bound := h.cells, h.next;
    MergeBegins(start, bound, target, ts, ss);
    at, ts', vs := MergeEntries(h, target, source, start, bound, ts, ss);
    if at.None? {
      MergeEnds(start, h.cells, bound, target, ts, ts', ss);
    } else {
      ProtoEntryIsNotPlain(Meaning(ss), Meaning(vs));
    }
  }

  /** The given entries are ones the merge can handle. */
  ghost predicate PlainOn(ss: Shape, keys: set<string>)
    requires ss.Object?
  {
    forall k <- keys :: k in ss.parts && k != PROTO && Plain(Meaning(ss.parts[k]))
  }

  /** The loop over the source's entries. */
  method MergeEntries(h: Heap, target: Loc, source: Loc, ghost start: Cells, ghost bound: Loc, ghost ts: Shape,
                      ghost ss: Shape)
      returns (at: Option<Slot>, ghost ts': Shape, ghost vs: Shape)
    requires h.Ok() && start == h.cells && bound == h.next && Merging(start, start, bound, target, ts, ts, ss, {})
    requires Realizes(start, ObjectSlot(source), ss) && Locs(ts) !! Locs(ss)
    modifies h
    ensures h.Ok() && bound <= h.next && ss.Object?
    ensures at.None? ==> PlainOn(ss, ss.parts.Keys) &&
                         Merging(start, h.cells, bound, target, ts, ts', ss, ss.parts.Keys)
    ensures at.Some? ==> Stopped(start, h.cells, ts, ss, at.value, vs)
    decreases ss, 1, 1
  {
    var todo := h.cells[source].entries.Keys;
    ts', vs := ts, ss;
    assert todo == ss.parts.Keys;
    assert ss.parts.Keys - todo == {};
    while todo != {}
      invariant todo <= ss.parts.Keys && h.Ok() && bound <= h.next && PlainOn(ss, ss.parts.Keys - todo)
      invariant Merging(start, h.cells, bound, target, ts, ts', ss, ss.parts.Keys - todo)
      decreases |todo|
    {
      var k :| k in todo;
      at, ts', vs := MergeNextEntry(h, target, source, k, start, bound, ts, ts', ss, ss.parts.Keys - todo);
      if at.Some? {
        return;
      }
      assert ss.parts.Keys - (todo - {k}) == (ss.parts.Keys - todo) + {k};
      todo := todo - {k};
    }
    assert ss.parts.Keys - todo == ss.parts.Keys;
    at := None;
  }

  lemma MergeBegins(cells: Cells, bound: Loc, target: Loc, ts: Shape, ss: Shape)
    requires TreeAt(cells, target, ts) && ss.Object?
    ensures Merging(cells, cells, bound, target, ts, ts, ss, {})
  {
    MergedOnAll(Meaning(ts).entries, Meaning(ss).entries);
  }

  lemma MergeEnds(start: Cells, cells: Cells, bound: Loc, target: Loc, ts0: Shape, ts: Shape, ss: Shape)
    requires ss.Object? && Merging(start, cells, bound, target, ts0, ts, ss, ss.parts.Keys)
    ensures Meaning(ts) == Merge(Meaning(ts0), Meaning(ss))
  {
    assert Meaning(ss).entries.Keys == ss.parts.Keys;
    MergedOnAll(Meaning(ts0).entries, Meaning(ss).entries);
  }

  /** The merge has written nothing but the target and new objects, and has merged the given keys. */
  ghost predicate Merging(start: Cells, cells: Cells, bound: Loc, target: Loc, ts0: Shape, ts: Shape, ss: Shape,
                          done: set<string>) {
    && TreeAt(cells, target, ts) && OnlyWrites(start, cells, bound, ts0, ts)
    && ts0.Object? && ss.Object? && done <= ss.parts.Keys
    && Meaning(ts).entries == MergedOn(Meaning(ts0).entries, Meaning(ss).entries, done)
  }

  /** One entry in the course of a merge that began with the given cells and target. */
  method MergeNextEntry(h: Heap, target: Loc, source: Loc, k: string, ghost start: Cells, ghost bound: Loc,
                        ghost ts0: Shape, ghost ts: Shape, ghost ss: Shape, ghost done: set<string>)
      returns (at: Option<Slot>, ghost ts': Shape, ghost vs: Shape)
    requires h.Ok() && bound <= h.next && Merging(start, h.cells, bound, target, ts0, ts, ss, done)
    requires (forall l <- start :: l < bound) && Locs(ts0) !! Locs(ss)
    requires Realizes(start, ObjectSlot(source), ss) && k in ss.parts && k !in done
    modifies h
    ensures h.Ok() && bound <= h.next
    ensures at.None? ==> k != PROTO && Plain(Meaning(ss.parts[k])) &&
                         Merging(start, h.cells, bound, target, ts0, ts', ss, done + {k})
    ensures at.Some? ==> Stopped(start, h.cells, ts0, ss, at.value, vs)
    decreases ss, 1, 0
  {
    SourceKept(start, h.cells, bound, source, ts0, ts, ss);
    ghost var cells, next := h.cells, h.next;
    at, ts', vs := MergeEntry(h, target, source, k, ts, ss);
    if at.None? {
      OnlyWritesTwice(start, cells, h.cells, bound, next, ts0, ts, ts');
      MergedOnNext(Meaning(ts0).entries, Meaning(ss).entries, done, k);
    } else {
      EntryStops(cells, h.cells, next, target, ts, ts', k, ss, at, vs);
      StoppedLater(start, cells, h.cells, bound, source, ts0, ts, ss, at.value, vs);
    }
  }

  /** Stopping in the course of a merge is stopping the merge. */
  lemma StoppedLater(start: Cells, cells: Cells, cells': Cells, bound: Loc, source: Loc, ts0: Shape, ts: Shape,
                     ss: Shape, at: Slot, vs: Shape)
    requires (forall l <- start :: l < bound) && Locs(ts0) !! Locs(ss) && Realizes(start, ObjectSlot(source), ss)
    requires OnlyWrites(start, cells, bound, ts0, ts) && Stopped(cells, cells', ts, ss, at, vs)
    ensures Stopped(start, cells', ts0, ss, at, vs)
  {
    RealizedIsAllocated(start, ObjectSlot(source), ss);
    StillRealizes(cells, start, at, vs);
  }

  lemma SourceKept(cells: Cells, cells': Cells, next: Loc, source: Loc, ts: Shape, ts': Shape, ss: Shape)
    requires forall l <- cells :: l < next
    requires Realizes(cells, ObjectSlot(source), ss) && Locs(ts) !! Locs(ss) && OnlyWrites(cells, cells', next, ts, ts')
    ensures Realizes(cells', ObjectSlot(source), ss) && Locs(ts') !! Locs(ss)
  {
    RealizedIsAllocated(cells, ObjectSlot(source), ss);
    StillRealizes(cells, cells', ObjectSlot(source), ss);
  }

  /** What merging the entry with key k does. */
  ghost predicate EntryOutcome(start: Cells, cells: Cells, bound: Loc, target: Loc, ts: Shape, ts': Shape, k: string,
                               part: Shape, at: Option<Slot>, vs: Shape)
    requires ts.Object?
  {
    && (at.None? <==> k != PROTO && Plain(Meaning(part)))
    && (at.None? ==> TreeAt(cells, target, ts') && OnlyWrites(start, cells, bound, ts, ts')
                     && Meaning(ts').entries ==
                        Meaning(ts).entries[k := Merge(PriorAt(Meaning(ts).entries, k), Meaning(part))])
    && (at.Some? ==> (forall l <- start :: l !in Locs(ts) ==> l in cells && cells[l] == start[l])
                     && Realizes(start, at.value, vs) && Locs(vs) <= Locs(part)
                     && ((k == PROTO && vs == part) || ProtoEntry(Meaning(part), Meaning(vs))))
  }

  method MergeEntry(h: Heap, target: Loc, source: Loc, k: string, ghost ts: Shape, ghost ss: Shape)
      returns (at: Option<Slot>, ghost ts': Shape, ghost vs: Shape)
    requires h.Ok() && TreeAt(h.cells, target, ts) && ss.Object? && Realizes(h.cells, ObjectSlot(source), ss)
    requires Locs(ts) !! Locs(ss) && k in ss.parts
    modifies h
    ensures h.Ok() && old(h.next) <= h.next
    ensures EntryOutcome(old(h.cells), h.cells, old(h.next), target, ts, ts', k, ss.parts[k], at, vs)
    decreases ss, 0
  {
    var slot := h.cells[source].entries[k];
    PartLocs(ss, k);
    if k == PROTO {
      return Some(slot), ts, ss.parts[k];
    }
    var targetEntries := h.cells[target].entries;
    if !slot.ObjectSlot? {
      ts' := MergeCopy(h, target, slot, k, ts, ss.parts[k]);
      return None, ts', ss;
    }
    if k in targetEntries && targetEntries[k].ObjectSlot? {
      at, ts', vs := MergeInto(h, target, targetEntries[k].node, slot.node, k, ts, ss.parts[k]);
    } else {
      assert k in ts.parts ==> Realizes(h.cells, targetEntries[k], ts.parts[k]);
      at, ts', vs := MergeNew(h, target, slot.node, k, ts, ss.parts[k]);
    }
  }

  lemma EntryStops(start: Cells, cells: Cells, bound: Loc, target: Loc, ts: Shape, ts': Shape, k: string, ss: Shape,
                   at: Option<Slot>, vs: Shape)
    requires ts.Object? && ss.Object? && k in ss.parts && at.Some?
    requires EntryOutcome(start, cells, bound, target, ts, ts', k, ss.parts[k], at, vs)
    ensures Stopped(start, cells, ts, ss, at.value, vs)
  {
    PartLocs(ss, k);
    assert Meaning(ss).entries[k] == Meaning(ss.parts[k]);
  }

  /** Anything but a dictionary is copied deeply and replaces what the target had. */
  method MergeCopy(h: Heap, target: Loc, slot: Slot, k: string, ghost ts: Shape, ghost part: Shape)
      returns (ghost ts': Shape)
    requires h.Ok() && TreeAt(h.cells, target, ts) && !part.Object? && Realizes(h.cells, slot, part)
    modifies h
    ensures h.Ok() && old(h.next) <= h.next && TreeAt(h.cells, target, ts')
    ensures OnlyWrites(old(h.cells), h.cells, old(h.next), ts, ts')
    ensures Meaning(ts').entries == Meaning(ts).entries[k := Merge(PriorAt(Meaning(ts).entries, k), Meaning(part))]
  {
    ghost var start, bound := h.cells, h.next;
    RealizedIsAllocated(start, ObjectSlot(target), ts);
    ghost var p, t;
    var copy;
    copy, p, t := CloneConfigDictionary(h, slot, part);
    StillRealizes(start, h.cells, ObjectSlot(target), ts);
    ts' := PutNew(h, target, k, copy, start, bound, ts, p);
    PartReplacedMeaning(ts, k, p);
    assert !Meaning(part).Dict?;
  }

  /** The source has a dictionary where the target has none: it is merged into a new one. */
  method MergeNew(h: Heap, target: Loc, s: Loc, k: string, ghost ts: Shape, ghost ss: Shape)
      returns (at: Option<Slot>, ghost ts': Shape, ghost vs: Shape)
    requires h.Ok() && TreeAt(h.cells, target, ts) && ss.Object? && Realizes(h.cells, ObjectSlot(s), ss)
    requires (k in ts.parts ==> !ts.parts[k].Object?) && k != PROTO
    modifies h
    ensures h.Ok() && old(h.next) <= h.next
    ensures EntryOutcome(old(h.cells), h.cells, old(h.next), target, ts, ts', k, ss, at, vs)
    decreases ss, 3
  {
    ghost var start, bound := h.cells, h.next;
    RealizedIsAllocated(start, ObjectSlot(target), ts);
    ghost var p;
    var n;
    at, n, p, vs := MergeIntoEmpty(h, s, ss);
    ts' := ts;
    if at.None? {
      StillRealizes(start, h.cells, ObjectSlot(target), ts);
      ts' := PutNew(h, target, k, ObjectSlot(n), start, bound, ts, p);
      PartReplacedMeaning(ts, k, p);
      NonDictOrEmpty(PriorAt(Meaning(ts).entries, k), Meaning(ss));
    }
  }

  method MergeIntoEmpty(h: Heap, s: Loc, ghost ss: Shape)
      returns (at: Option<Slot>, n: Loc, ghost p: Shape, ghost vs: Shape)
    requires h.Ok() && ss.Object? && Realizes(h.cells, ObjectSlot(s), ss)
    modifies h
    ensures h.Ok() && old(h.next) <= h.next && Kept(old(h.cells), h.cells, old(h.next))
    ensures at.None? <==> Plain(Meaning(ss))
    ensures at.None? ==> TreeAt(h.cells, n, p) && Meaning(p) == Merge(EmptyDict, Meaning(ss)) &&
                         forall x <- Locs(p) :: old(h.next) <= x
    ensures at.Some? ==> Realizes(old(h.cells), at.value, vs) && Locs(vs) <= Locs(ss) &&
                         ProtoEntry(Meaning(ss), Meaning(vs))
    decreases ss, 2
  {
    ghost var start := h.cells;
    RealizedIsAllocated(start, ObjectSlot(s), ss);
    n := h.Allocate(DictCell(map[]));
    ghost var empty := Object(n, map[]);
    assert Meaning(empty) == EmptyDict;
    StillRealizes(start, h.cells, ObjectSlot(s), ss);
    ghost var begun := h.cells;
    at, p, vs := MergeConfigEntries(h, n, s, empty, ss);
    if at.Some? { StillRealizes(begun, start, at.value, vs); }
  }

  /** Both sides are dictionaries: the target's own one is merged in place. */
  method MergeInto(h: Heap, target: Loc, child: Loc, s: Loc, k: string, ghost ts: Shape, ghost ss: Shape)
      returns (at: Option<Slot>, ghost ts': Shape, ghost vs: Shape)
    requires h.Ok() && TreeAt(h.cells, target, ts) && ss.Object? && Realizes(h.cells, ObjectSlot(s), ss)
    requires Locs(ts) !! Locs(ss) && k in ts.parts && h.cells[target].entries[k] == ObjectSlot(child) && k != PROTO
    modifies h
    ensures h.Ok() && old(h.next) <= h.next
    ensures EntryOutcome(old(h.cells), h.cells, old(h.next), target, ts, ts', k, ss, at, vs)
    decreases ss, 2
  {
    ghost var start, bound := h.cells, h.next;
    ghost var part := ts.parts[k];
    PartLocs(ts, k);
    RealizedIsAllocated(start, ObjectSlot(target), ts);
    assert Realizes(start, ObjectSlot(child), part);
    ghost var p;
    at, p, vs := MergeConfigEntries(h, child, s, part, ss);
    ts' := WithPart(ts, k, p);
    if at.None? {
      IntoPart(start, h.cells, bound, ts, k, p);
      PartReplacedMeaning(ts, k, p);
    }
  }

  lemma IntoPart(cells: Cells, cells': Cells, next: Loc, ts: Shape, k: string, p: Shape)
    requires ts.Object? && k in ts.parts && Distinct(ts) && Realizes(cells, ObjectSlot(ts.loc), ts)
    requires (forall l <- cells :: l < next) && p.Object? && ts.parts[k].Object? && p.loc == ts.parts[k].loc
    requires Realizes(cells', ObjectSlot(p.loc), p) && Distinct(p) && OnlyWrites(cells, cells', next, ts.parts[k], p)
    ensures Realizes(cells', ObjectSlot(ts.loc), WithPart(ts, k, p)) && Distinct(WithPart(ts, k, p))
    ensures OnlyWrites(cells, cells', next, ts, WithPart(ts, k, p))
  {
    RealizedIsAllocated(cells, ObjectSlot(ts.loc), ts);
    PartLocs(ts, k);
    forall j | j in ts.parts && j != k
      ensures Agree(cells, cells', Locs(ts.parts[j])) && Locs(ts.parts[j]) !! Locs(p)
    {
      PartLocs(ts, j);
      OtherPart(ts, j, k);
    }
    assert cells[ts.loc].entries[k := ObjectSlot(p.loc)] == cells[ts.loc].entries;
    PartReplaced(cells, cells', ts, k, ObjectSlot(p.loc), p);
    PartReplacedDistinct(ts, k, p);
    forall x | x in Locs(WithPart(ts, k, p)) ensures x in Locs(ts) || next <= x { PartReplacedLocs(ts, k, p, x); }
  }

  /** The merge with the given keys of the later dictionary. */
  ghost function MergedOn(prior: map<string, Value>, later: map<string, Value>, keys: set<string>): map<string, Value>
    requires keys <= later.Keys
  {
    map k | k in prior.Keys + keys :: if k in keys then Merge(PriorAt(prior, k), later[k]) else prior[k]
  }

  lemma MergedOnNext(prior: map<string, Value>, later: map<string, Value>, keys: set<string>, k: string)
    requires keys <= later.Keys && k in later && k !in keys
    ensures MergedOn(prior, later, keys + {k})
         == MergedOn(prior, later, keys)[k := Merge(PriorAt(MergedOn(prior, later, keys), k), later[k])]
  {
    assert PriorAt(MergedOn(prior, later, keys), k) == PriorAt(prior, k);
  }

  lemma MergedOnAll(prior: map<string, Value>, later: map<string, Value>)
    ensures Dict(MergedOn(prior, later, later.Keys)) == Merge(Dict(prior), Dict(later))
    ensures MergedOn(prior, later, {}) == prior
  {
    assert MergedOn(prior, later, later.Keys) == Merge(Dict(prior), Dict(later)).entries;
  }

  // ---------- All sources ----------

  /** The meanings of the sources. */
  ghost function Meanings(shapes: seq<Shape>): seq<Value> {
    seq(|shapes|, i requires 0 <= i < |shapes| => Meaning(shapes[i]))
  }

  /** The object that every plain object inherits from, and that `__proto__` names on the objects the merge creates. */
  const PROTOTYPE: Loc := 0

  /** The source is still as it was at the start, since only new objects have been written. */
  method MergeOneSource(h: Heap, merged: Loc, source: Loc, ghost start: Cells, ghost bound: Loc, ghost result: Shape,
                        ghost shape: Shape)
      returns (at: Option<Slot>, ghost result': Shape, ghost vs: Shape)
    requires h.Ok() && bound <= h.next && TreeAt(h.cells, merged, result) && Kept(start, h.cells, bound)
    requires shape.Object? && Realizes(start, ObjectSlot(source), shape)
    requires forall x <- Locs(result) :: bound <= x
    modifies h
    ensures h.Ok() && bound <= h.next && Kept(start, h.cells, bound)
    ensures at.None? <==> Plain(Meaning(shape))
    ensures at.None? ==> TreeAt(h.cells, merged, result') && Meaning(result') == Merge(Meaning(result), Meaning(shape))
                         && forall x <- Locs(result') :: bound <= x
    ensures at.Some? ==> Realizes(start, at.value, vs) && Locs(vs) <= Locs(shape)
                         && ProtoEntry(Meaning(shape), Meaning(vs))
  {
    RealizedIsAllocated(start, ObjectSlot(source), shape);
    StillRealizes(start, h.cells, ObjectSlot(source), shape);
    ghost var begun := h.cells;
    at, result', vs := MergeConfigEntries(h, merged, source, result, shape);
    if at.Some? { StillRealizes(begun, start, at.value, vs); }
  }

  /** The merge of the sources up to the first key `__proto__`. */
  method MergeUntilProto(h: Heap, sources: seq<Loc>, ghost shapes: seq<Shape>)
      returns (at: Option<Slot>, merged: Loc, ghost result: Shape, ghost vs: Shape, ghost from: nat)
    requires h.Ok() && |shapes| == |sources|
    requires forall i | 0 <= i < |sources| :: shapes[i].Object? && Realizes(h.cells, ObjectSlot(sources[i]), shapes[i])
    modifies h
    ensures h.Ok() && Kept(old(h.cells), h.cells, old(h.next))
    ensures at.None? ==> (forall i | 0 <= i < |shapes| :: Plain(Meaning(shapes[i])))
                         && TreeAt(h.cells, merged, result) && Meaning(result) == MergeAll(Meanings(shapes))
                         && forall x <- Locs(result) :: old(h.next) <= x
    ensures at.Some? ==> from < |shapes| && !Plain(Meaning(shapes[from])) && Realizes(old(h.cells), at.value, vs)
                         && Locs(vs) <= Locs(shapes[from]) && ProtoEntry(Meaning(shapes[from]), Meaning(vs))
  {
    ghost var start, bound := h.cells, h.next;
    merged := h.Allocate(DictCell(map[]));
    result, vs, from, at := Object(merged, map[]), Object(merged, map[]), 0, None;
    assert Meaning(result) == EmptyDict;
    for i := 0 to |sources|
      invariant h.Ok() && bound <= h.next && Kept(start, h.cells, bound) && TreeAt(h.cells, merged, result)
      invariant Meaning(result) == MergeAll(Meanings(shapes[..i])) && at.None?
      invariant forall j | 0 <= j < i :: Plain(Meaning(shapes[j]))
      invariant forall x <- Locs(result) :: bound <= x
    {
      from := i;
      at, result, vs := MergeOneSource(h, merged, sources[i], start, bound, result, shapes[i]);
      if at.Some? {
        return;
      }
      assert Meanings(shapes[..i + 1])[..i] == Meanings(shapes[..i]);
    }
    assert shapes[..|shapes|] == shapes;
  }

  /**
   What the code does at a key `__proto__` of the source: on the target the key names the object that all plain objects
   inherit from.  A dictionary is merged into that object; anything else becomes the target's prototype, or nothing.
   */
  method MergeIntoPrototype(h: Heap, value: Slot, ghost ps: Shape, ghost vs: Shape) returns (ghost ps': Shape)
    requires h.Ok() && TreeAt(h.cells, PROTOTYPE, ps) && Realizes(h.cells, value, vs) && Locs(ps) !! Locs(vs)
    modifies h
    ensures vs.Object? && Plain(Meaning(vs)) ==>
              TreeAt(h.cells, PROTOTYPE, ps') && Meaning(ps') == Merge(Meaning(ps), Meaning(vs))
    ensures !vs.Object? ==> Kept(old(h.cells), h.cells, old(h.next))
  {
    ps' := ps;
    if value.ObjectSlot? {
      var at;
      ghost var rest;
      at, ps', rest := MergeConfigEntries(h, PROTOTYPE, value.node, ps, vs);
    } else {
      ghost var p, t;
      var copy;
      copy, p, t := CloneConfigDictionary(h, value, vs);
    }
  }

  ghost predicate AllPlain(shapes: seq<Shape>) {
    forall i | 0 <= i < |shapes| :: Plain(Meaning(shapes[i]))
  }

  /**
   The merge of all sources.  It keeps clear of prototypes exactly if no dictionary it meets in a source has a key
   `__proto__` of its own.  Then the result is the right-biased merge of the sources and consists of new objects, and
   every object that existed before is as it was.  Otherwise, when the value under the first such key is a dictionary,
   it is merged into the object that every plain object inherits from.
   */
  method MergeConfigSources(h: Heap, sources: seq<Loc>, ghost shapes: seq<Shape>, ghost ps: Shape)
      returns (clear: bool, merged: Loc, ghost result: Shape, ghost ps': Shape, ghost vs: Shape)
    requires h.Ok() && |shapes| == |sources| && TreeAt(h.cells, PROTOTYPE, ps)
    requires forall i | 0 <= i < |sources| :: shapes[i].Object? && Realizes(h.cells, ObjectSlot(sources[i]), shapes[i])
    requires forall i | 0 <= i < |sources| :: Locs(ps) !! Locs(shapes[i])
    modifies h
    ensures clear <==> AllPlain(shapes)
    ensures clear ==> TreeAt(h.cells, merged, result) && Meaning(result) == MergeAll(Meanings(shapes))
                      && Locs(result) !! old(h.cells).Keys
                      && forall l <- old(h.cells) :: l in h.cells && h.cells[l] == old(h.cells[l])
    ensures !clear ==> exists i | 0 <= i < |shapes| :: ProtoEntry(Meaning(shapes[i]), Meaning(vs))
    ensures !clear && Meaning(vs).Dict? && Plain(Meaning(vs)) ==>
              TreeAt(h.cells, PROTOTYPE, ps') && Meaning(ps') == Merge(Meaning(ps), Meaning(vs))
  {
    ghost var start, from := h.cells, 0;
    RealizedIsAllocated(start, ObjectSlot(PROTOTYPE), ps);
    var at;
    at, merged, result, vs, from := MergeUntilProto(h, sources, shapes);
    ps', clear := ps, at.None?;
    if at.Some? {
      RealizedIsAllocated(start, at.value, vs);
      StillRealizes(start, h.cells, ObjectSlot(PROTOTYPE), ps);
      StillRealizes(start, h.cells, at.value, vs);
      ps' := MergeIntoPrototype(h, at.value, ps, vs);
    }
  }

  /** The dictionary with the one entry `admin`. */
  function AdminOnly(leaf: Value): Value { Dict(map["admin" := leaf]) }

  ghost function InnerShape(inner: Loc, leaf: Value): Shape { Object(inner, map["admin" := Leaf(leaf)]) }

  ghost function SourceShape(source: Loc, inner: Loc, leaf: Value): Shape {
    Object(source, map[PROTO := InnerShape(inner, leaf)])
  }

  lemma InnerMeans(inner: Loc, leaf: Value)
    requires !leaf.Dict? && !leaf.Items?
    ensures Locs(InnerShape(inner, leaf)) == {inner} && Meaning(InnerShape(inner, leaf)) == AdminOnly(leaf)
    ensures Plain(AdminOnly(leaf)) && Merge(EmptyDict, AdminOnly(leaf)) == AdminOnly(leaf)
  {
    var vs := InnerShape(inner, leaf);
    assert vs.parts["admin"] == Leaf(leaf);
    assert Meaning(vs).entries == map["admin" := leaf];
    assert |"admin"| != |PROTO|;
    assert Merge(EmptyDict, leaf) == leaf;
    assert Merge(EmptyDict, AdminOnly(leaf)).entries == map["admin" := leaf];
  }

  lemma SourceMeans(source: Loc, inner: Loc, leaf: Value)
    requires !leaf.Dict? && !leaf.Items?
    ensures Locs(SourceShape(source, inner, leaf)) == {inner, source}
    ensures var v := Meaning(SourceShape(source, inner, leaf));
            !Plain(v) && forall w :: ProtoEntry(v, w) ==> w == AdminOnly(leaf)
  {
    InnerMeans(inner, leaf);
    var ss := SourceShape(source, inner, leaf);
    assert ss.parts[PROTO] == InnerShape(inner, leaf);
    assert Meaning(ss).entries == map[PROTO := AdminOnly(leaf)];
    forall w ensures !ProtoEntry(AdminOnly(leaf), w) {
      if ProtoEntry(AdminOnly(leaf), w) { ProtoEntryIsNotPlain(AdminOnly(leaf), w); }
    }
  }

  lemma SourceRealized(cells: Cells, source: Loc, inner: Loc, leaf: Value)
    requires !leaf.Dict? && !leaf.Items? && inner in cells && source in cells
    requires cells[inner] == DictCell(map["admin" := LeafSlot(leaf)])
    requires cells[source] == DictCell(map[PROTO := ObjectSlot(inner)])
    ensures Realizes(cells, ObjectSlot(source), SourceShape(source, inner, leaf))
  {
    assert Realizes(cells, LeafSlot(leaf), Leaf(leaf));
    assert Realizes(cells, ObjectSlot(inner), InnerShape(inner, leaf));
  }

  lemma EmptyPrototype(cells: Cells, ps: Shape)
    requires ps == Object(PROTOTYPE, map[]) && PROTOTYPE in cells && cells[PROTOTYPE] == DictCell(map[])
    ensures TreeAt(cells, PROTOTYPE, ps) && Meaning(ps) == EmptyDict && Locs(ps) == {PROTOTYPE}
  {
    assert Meaning(ps).entries == map[];
  }

  lemma PrototypeHolds(cells: Cells, ps: Shape, leaf: Value)
    requires TreeAt(cells, PROTOTYPE, ps) && Meaning(ps) == AdminOnly(leaf) && !leaf.Dict? && !leaf.Items?
    ensures cells[PROTOTYPE] == DictCell(map["admin" := LeafSlot(leaf)])
  {
    assert Meaning(ps).entries.Keys == ps.parts.Keys;
    var part := ps.parts["admin"];
    assert Meaning(part) == Meaning(ps).entries["admin"] == leaf;
    assert Realizes(cells, cells[PROTOTYPE].entries["admin"], part);
    assert cells[PROTOTYPE].entries == map["admin" := LeafSlot(leaf)];
  }

  /** An empty prototype, and a source as a JSON text with a key `__proto__` yields it. */
  method ParsedSource(leaf: Value) returns (h: Heap, inner: Loc, source: Loc)
    ensures fresh(h) && h.Ok() && PROTOTYPE < inner < source
    ensures h.cells == map[PROTOTYPE := DictCell(map[]), inner := DictCell(map["admin" := LeafSlot(leaf)]),
                           source := DictCell(map[PROTO := ObjectSlot(inner)])]
  {
    h := new Heap();
    var prototype := h.Allocate(DictCell(map[]));
    inner := h.Allocate(DictCell(map["admin" := LeafSlot(leaf)]));
    source := h.Allocate(DictCell(map[PROTO := ObjectSlot(inner)]));
  }

  /** A source as a JSON text yields it: it writes into the object that every other object inherits from. */
  method ProtoKeyReachesPrototype(leaf: Value) returns (before: map<string, Slot>, after: map<string, Slot>)
    requires !leaf.Dict? && !leaf.Items?
    ensures before == map[] && after == map["admin" := LeafSlot(leaf)]
  {
    var h, inner, source := ParsedSource(leaf);
    before := h.cells[PROTOTYPE].entries;
    ghost var ps, ss := Object(PROTOTYPE, map[]), SourceShape(source, inner, leaf);
    SourceMeans(source, inner, leaf);
    SourceRealized(h.cells, source, inner, leaf);
    EmptyPrototype(h.cells, ps);
    var clear, merged;
    ghost var result, ps', found;
    clear, merged, result, ps', found := MergeConfigSources(h, [source], [ss], ps);
    assert !AllPlain([ss]) by { assert !Plain(Meaning([ss][0])); }
    InnerMeans(inner, leaf);
    PrototypeHolds(h.cells, ps', leaf);
    after := h.cells[PROTOTYPE].entries;
  }
}
