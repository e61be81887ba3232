/**
 The deep copy of a value that is no dictionary: every object it consists of is copied once, so what is shared within
 the value is shared within the copy, and nothing is shared with the original.
 */
module ConfigClone {
  import opened Options
  import opened ConfigMerge
  import opened ConfigShapes

  /** From the objects copied so far to their copies. */
  type Table = map<Loc, Loc>

  function At(t: Table, l: Loc): Loc { if l in t then t[l] else l }

  function SlotImage(t: Table, slot: Slot): Slot {
    match slot
    case LeafSlot(_) => slot
    case ListSlot(l) => ListSlot(At(t, l))
    case ObjectSlot(l) => ObjectSlot(At(t, l))
  }

  function CellImage(t: Table, cell: Cell): Cell {
    match cell
    case ListCell(items) => ListCell(seq(|items|, i requires 0 <= i < |items| => SlotImage(t, items[i])))
    case DictCell(entries) => DictCell(map k | k in entries :: SlotImage(t, entries[k]))
  }

  ghost function Renamed(t: Table, shape: Shape): Shape {
    match shape
    case Leaf(_) => shape
    case List(l, items) => List(At(t, l), seq(|items|, i requires 0 <= i < |items| => Renamed(t, items[i])))
    case Object(l, parts) => Object(At(t, l), map k | k in parts :: Renamed(t, parts[k]))
  }

  predicate SlotKnown(keys: set<Loc>, slot: Slot) {
    match slot
    case LeafSlot(_) => true
    case ListSlot(l) => l in keys
    case ObjectSlot(l) => l in keys
  }

  predicate CellKnown(keys: set<Loc>, cell: Cell) {
    match cell
    case ListCell(items) => forall i | 0 <= i < |items| :: SlotKnown(keys, items[i])
    case DictCell(entries) => forall k <- entries :: SlotKnown(keys, entries[k])
  }

  ghost predicate Kept(start: Cells, cells: Cells, bound: Loc) {
    forall l <- start :: l < bound && l in cells && cells[l] == start[l]
  }

  /** The copies are new, and each holds the image of its original, whose references have all been copied. */
  ghost predicate Copies(start: Cells, cells: Cells, bound: Loc, t: Table) {
    Injective(t) && forall l <- t ::
      l in start && CellKnown(t.Keys, start[l]) && bound <= t[l] &&
      t[l] in cells && cells[t[l]] == CellImage(t, start[l])
  }

  ghost predicate Injective(t: Table) {
    forall l <- t, m <- t :: t[l] == t[m] ==> l == m
  }

  ghost predicate Extends(t: Table, t': Table) {
    forall l <- t :: l in t' && t'[l] == t[l]
  }

  lemma ImageStable(t: Table, t': Table, cell: Cell)
    requires Extends(t, t') && CellKnown(t.Keys, cell)
    ensures CellKnown(t'.Keys, cell) && CellImage(t', cell) == CellImage(t, cell)
  {
    if cell.ListCell? {
      assert CellImage(t', cell).items == CellImage(t, cell).items;
    } else {
      assert CellImage(t', cell).entries == CellImage(t, cell).entries;
    }
  }

  /** Once an object is in the table, so is everything it consists of. */
  lemma {:induction false} KnownThroughout(start: Cells, cells: Cells, bound: Loc, t: Table, slot: Slot, shape: Shape)
    requires Copies(start, cells, bound, t) && Realizes(start, slot, shape) && SlotKnown(t.Keys, slot)
    ensures Locs(shape) <= t.Keys
    decreases shape
  {
    if shape.Object? {
      forall k | k in shape.parts ensures Locs(shape.parts[k]) <= t.Keys {
        KnownThroughout(start, cells, bound, t, start[shape.loc].entries[k], shape.parts[k]);
      }
    } else if shape.List? {
      forall i | 0 <= i < |shape.items| ensures Locs(shape.items[i]) <= t.Keys {
        KnownThroughout(start, cells, bound, t, start[shape.loc].items[i], shape.items[i]);
      }
    }
  }

  lemma {:induction false} ImageRealized(start: Cells, cells: Cells, bound: Loc, t: Table, slot: Slot, shape: Shape)
    requires Copies(start, cells, bound, t) && Realizes(start, slot, shape) && SlotKnown(t.Keys, slot)
    ensures Realizes(cells, SlotImage(t, slot), Renamed(t, shape))
    decreases shape
  {
    if shape.Object? {
      forall k | k in shape.parts
        ensures Realizes(cells, SlotImage(t, start[shape.loc].entries[k]), Renamed(t, shape.parts[k]))
      {
        ImageRealized(start, cells, bound, t, start[shape.loc].entries[k], shape.parts[k]);
      }
    } else if shape.List? {
      forall i | 0 <= i < |shape.items|
        ensures Realizes(cells, SlotImage(t, start[shape.loc].items[i]), Renamed(t, shape.items[i]))
      {
        ImageRealized(start, cells, bound, t, start[shape.loc].items[i], shape.items[i]);
      }
    }
  }

  lemma {:induction false} RenamedMeaning(t: Table, shape: Shape)
    ensures Meaning(Renamed(t, shape)) == Meaning(shape)
    decreases shape
  {
    var shape' := Renamed(t, shape);
    if shape.Object? {
      forall k | k in shape.parts ensures Meaning(shape'.parts[k]) == Meaning(shape.parts[k]) {
        RenamedMeaning(t, shape.parts[k]);
      }
      assert Meaning(shape').entries == Meaning(shape).entries;
    } else if shape.List? {
      forall i | 0 <= i < |shape.items| ensures Meaning(shape'.items[i]) == Meaning(shape.items[i]) {
        RenamedMeaning(t, shape.items[i]);
      }
      assert Meaning(shape').values == Meaning(shape).values;
    }
  }

  /** The copy consists of copies only. */
  lemma {:induction false} RenamedLocs(t: Table, shape: Shape, bound: Loc)
    requires Locs(shape) <= t.Keys && forall l <- t :: bound <= t[l]
    ensures forall x <- Locs(Renamed(t, shape)) :: bound <= x
    decreases shape
  {
    var shape' := Renamed(t, shape);
    if shape.Object? {
      forall k | k in shape.parts ensures forall x <- Locs(shape'.parts[k]) :: bound <= x {
        PartLocs(shape, k);
        RenamedLocs(t, shape.parts[k], bound);
      }
    } else if shape.List? {
      forall i | 0 <= i < |shape.items| ensures forall x <- Locs(shape'.items[i]) :: bound <= x {
        ItemLocs(shape, i);
        RenamedLocs(t, shape.items[i], bound);
      }
    }
  }

  // ---------- The copy ----------

  lemma AddsCopy(start: Cells, before: Cells, cells: Cells, bound: Loc, t: Table, l: Loc, copy: Loc)
    requires Copies(start, before, bound, t) && l in start && l !in t && CellKnown(t.Keys, start[l]) && bound <= copy
    requires copy !in before && cells == before[copy := CellImage(t, start[l])]
    ensures Copies(start, cells, bound, t[l := copy]) && Extends(t, t[l := copy])
  {
    var t' := t[l := copy];
    forall x | x in t'
      ensures CellKnown(t'.Keys, start[x]) && cells[t'[x]] == CellImage(t', start[x])
    {
      ImageStable(t, t', start[x]);
    }
  }

  method CloneSlot(h: Heap, slot: Slot, t: Table, ghost start: Cells, ghost bound: Loc, ghost shape: Shape)
      returns (copy: Slot, t': Table)
    requires h.Ok() && bound <= h.next && Kept(start, h.cells, bound) && Copies(start, h.cells, bound, t)
    requires Realizes(start, slot, shape)
    modifies h
    ensures h.Ok() && old(h.next) <= h.next && Kept(old(h.cells), h.cells, old(h.next))
    ensures Copies(start, h.cells, bound, t') && Extends(t, t') && t'.Keys <= t.Keys + Locs(shape)
    ensures SlotKnown(t'.Keys, slot) && copy == SlotImage(t', slot)
    decreases shape, 2
  {
    match slot
    case LeafSlot(_) =>
      return slot, t;
    case ListSlot(l) =>
      if l in t {
        return ListSlot(t[l]), t;
      }
      copy, t' := CloneList(h, l, t, start, bound, shape);
    case ObjectSlot(l) =>
      if l in t {
        return ObjectSlot(t[l]), t;
      }
      copy, t' := CloneDict(h, l, t, start, bound, shape);
  }

  /** The first elements have been copied. */
  ghost predicate ItemsCopied(t: Table, items: seq<Slot>, copies: seq<Slot>) {
    |copies| <= |items| &&
    forall j | 0 <= j < |copies| :: SlotKnown(t.Keys, items[j]) && copies[j] == SlotImage(t, items[j])
  }

  lemma OneMoreCopied(t: Table, t': Table, items: seq<Slot>, copies: seq<Slot>, copy: Slot)
    requires ItemsCopied(t, items, copies) && Extends(t, t') && |copies| < |items|
    requires SlotKnown(t'.Keys, items[|copies|]) && copy == SlotImage(t', items[|copies|])
    ensures ItemsCopied(t', items, copies + [copy])
  {
  }

  lemma ItemIsPart(cells: Cells, shape: Shape, i: nat)
    requires shape.List? && Realizes(cells, SlotOf(shape), shape) && i < |shape.items|
    ensures Realizes(cells, cells[shape.loc].items[i], shape.items[i])
    ensures shape.items[i] < shape && Locs(shape.items[i]) <= Locs(shape)
  {
    ItemLocs(shape, i);
  }

  ghost predicate EntriesCopied(t: Table, entries: map<string, Slot>, copies: map<string, Slot>) {
    copies.Keys <= entries.Keys &&
    forall k <- copies :: SlotKnown(t.Keys, entries[k]) && copies[k] == SlotImage(t, entries[k])
  }

  lemma EntriesStayCopied(t: Table, t': Table, entries: map<string, Slot>, copies: map<string, Slot>)
    requires EntriesCopied(t, entries, copies) && Extends(t, t')
    ensures EntriesCopied(t', entries, copies)
  {
  }

  /** What has happened since the copying of an object and its parts began. */
  ghost predicate Copying(start: Cells, first: Cells, cells: Cells, bound: Loc, t0: Table, t: Table, shape: Shape) {
    Copies(start, cells, bound, t) && Extends(t0, t) && t.Keys <= t0.Keys + Locs(shape) &&
    forall x <- first :: x in cells && cells[x] == first[x]
  }

  /** Copies one part of an object that is not in the table itself yet. */
  method ClonePart(h: Heap, slot: Slot, t: Table, ghost start: Cells, ghost first: Cells, ghost bound: Loc,
                   ghost t0: Table, ghost shape: Shape, ghost part: Shape)
      returns (copy: Slot, t': Table)
    requires h.Ok() && bound <= h.next && Kept(start, h.cells, bound)
    requires Copying(start, first, h.cells, bound, t0, t, shape)
    requires !shape.Leaf? && Realizes(start, SlotOf(shape), shape) && shape.loc !in t
    requires Realizes(start, slot, part) && part < shape && Locs(part) <= Locs(shape)
    modifies h
    ensures h.Ok() && old(h.next) <= h.next && Kept(start, h.cells, bound)
    ensures Copying(start, first, h.cells, bound, t0, t', shape) && shape.loc !in t' && Extends(t, t')
    ensures SlotKnown(t'.Keys, slot) && copy == SlotImage(t', slot)
    decreases part, 3
  {
    NotWithinItself(start, shape, slot, part);
    copy, t' := CloneSlot(h, slot, t, start, bound, part);
  }

  /** The copy of an object is entered into the table once its parts are there. */
  method StoreCopy(h: Heap, cell: Cell, t: Table, l: Loc, ghost start: Cells, ghost bound: Loc)
      returns (copy: Loc, t': Table)
    requires h.Ok() && bound <= h.next && Copies(start, h.cells, bound, t)
    requires l in start && l !in t && CellKnown(t.Keys, start[l]) && cell == CellImage(t, start[l])
    modifies h
    ensures h.Ok() && old(h.next) <= h.next && Kept(old(h.cells), h.cells, old(h.next))
    ensures t' == t[l := copy] && Copies(start, h.cells, bound, t') && Extends(t, t')
  {
    ghost var before := h.cells;
    copy := h.Allocate(cell);
    AddsCopy(start, before, h.cells, bound, t, l, copy);
    t' := t[l := copy];
  }

  method CloneNextItem(h: Heap, items: seq<Slot>, copies: seq<Slot>, t: Table, ghost start: Cells, ghost first: Cells,
                       ghost bound: Loc, ghost t0: Table, ghost shape: Shape)
      returns (copies': seq<Slot>, t': Table)
    requires h.Ok() && bound <= h.next && Kept(start, h.cells, bound)
    requires Copying(start, first, h.cells, bound, t0, t, shape) && |copies| < |items| && ItemsCopied(t, items, copies)
    requires shape.List? && Realizes(start, SlotOf(shape), shape) && start[shape.loc] == ListCell(items)
    requires shape.loc !in t
    modifies h
    ensures h.Ok() && old(h.next) <= h.next && Kept(start, h.cells, bound)
    ensures Copying(start, first, h.cells, bound, t0, t', shape) && shape.loc !in t'
    ensures |copies'| == |copies| + 1 && ItemsCopied(t', items, copies')
    decreases shape, 0, 0
  {
    var slot := items[|copies|];
    ghost var part := shape.items[|copies|];
    ItemIsPart(start, shape, |copies|);
    var copy;
    copy, t' := ClonePart(h, slot, t, start, first, bound, t0, shape, part);
    OneMoreCopied(t, t', items, copies, copy);
    copies' := copies + [copy];
  }

  method CloneItems(h: Heap, items: seq<Slot>, t: Table, ghost start: Cells, ghost bound: Loc, ghost shape: Shape)
      returns (copies: seq<Slot>, t': Table)
    requires h.Ok() && bound <= h.next && Kept(start, h.cells, bound) && Copies(start, h.cells, bound, t)
    requires shape.List? && Realizes(start, SlotOf(shape), shape) && start[shape.loc] == ListCell(items)
    requires shape.loc !in t
    modifies h
    ensures h.Ok() && old(h.next) <= h.next && Kept(old(h.cells), h.cells, old(h.next))
    ensures Copying(start, old(h.cells), h.cells, bound, t, t', shape) && shape.loc !in t'
    ensures |copies| == |items| && ItemsCopied(t', items, copies)
    decreases shape, 0, 1
  {
    copies, t' := [], t;
    for i := 0 to |items|
      invariant h.Ok() && old(h.next) <= h.next && Kept(start, h.cells, bound)
      invariant Copying(start, old(h.cells), h.cells, bound, t, t', shape) && shape.loc !in t'
      invariant |copies| == i && ItemsCopied(t', items, copies)
    {
      copies, t' := CloneNextItem(h, items, copies, t', start, old(h.cells), bound, t, shape);
    }
  }

  method CloneEntries(h: Heap, entries: map<string, Slot>, t: Table, ghost start: Cells, ghost bound: Loc,
                      ghost shape: Shape)
      returns (copies: map<string, Slot>, t': Table)
    requires h.Ok() && bound <= h.next && Kept(start, h.cells, bound) && Copies(start, h.cells, bound, t)
    requires shape.Object? && Realizes(start, SlotOf(shape), shape) && start[shape.loc] == DictCell(entries)
    requires shape.loc !in t
    modifies h
    ensures h.Ok() && old(h.next) <= h.next && Kept(old(h.cells), h.cells, old(h.next))
    ensures Copying(start, old(h.cells), h.cells, bound, t, t', shape) && shape.loc !in t'
    ensures copies.Keys == entries.Keys && EntriesCopied(t', entries, copies)
    decreases shape, 0
  {
    copies, t' := map[], t;
    var todo := entries.Keys;
    while todo != {}
      invariant h.Ok() && old(h.next) <= h.next && Kept(start, h.cells, bound)
      invariant Copying(start, old(h.cells), h.cells, bound, t, t', shape) && shape.loc !in t'
      invariant todo <= entries.Keys && copies.Keys == entries.Keys - todo && EntriesCopied(t', entries, copies)
      decreases |todo|
    {
      var k :| k in todo;
      PartLocs(shape, k);
      ghost var t1 := t';
      var copy;
      copy, t' := ClonePart(h, entries[k], t', start, old(h.cells), bound, t, shape, shape.parts[k]);
      EntriesStayCopied(t1, t', entries, copies);
      copies := copies[k := copy];
      todo := todo - {k};
    }
  }

  method CloneList(h: Heap, l: Loc, t: Table, ghost start: Cells, ghost bound: Loc, ghost shape: Shape)
      returns (copy: Slot, t': Table)
    requires h.Ok() && bound <= h.next && Kept(start, h.cells, bound) && Copies(start, h.cells, bound, t)
    requires Realizes(start, ListSlot(l), shape) && l !in t
    modifies h
    ensures h.Ok() && old(h.next) <= h.next && Kept(old(h.cells), h.cells, old(h.next))
    ensures Copies(start, h.cells, bound, t') && Extends(t, t') && t'.Keys <= t.Keys + Locs(shape)
    ensures l in t' && copy == SlotImage(t', ListSlot(l))
    decreases shape, 1
  {
    var items := h.cells[l].items;
    var copies, node;
    copies, t' := CloneItems(h, items, t, start, bound, shape);
    assert copies == CellImage(t', start[l]).items;
    node, t' := StoreCopy(h, ListCell(copies), t', l, start, bound);
    assert l in Locs(shape);
    copy := ListSlot(node);
  }

  method CloneDict(h: Heap, l: Loc, t: Table, ghost start: Cells, ghost bound: Loc, ghost shape: Shape)
      returns (copy: Slot, t': Table)
    requires h.Ok() && bound <= h.next && Kept(start, h.cells, bound) && Copies(start, h.cells, bound, t)
    requires Realizes(start, ObjectSlot(l), shape) && l !in t
    modifies h
    ensures h.Ok() && old(h.next) <= h.next && Kept(old(h.cells), h.cells, old(h.next))
    ensures Copies(start, h.cells, bound, t') && Extends(t, t') && t'.Keys <= t.Keys + Locs(shape)
    ensures l in t' && copy == SlotImage(t', ObjectSlot(l))
    decreases shape, 1
  {
    var entries := h.cells[l].entries;
    var copies, node;
    copies, t' := CloneEntries(h, entries, t, start, bound, shape);
    assert copies == CellImage(t', start[l]).entries;
    node, t' := StoreCopy(h, DictCell(copies), t', l, start, bound);
    assert l in Locs(shape);
    copy := ObjectSlot(node);
  }

  /**
   The copy means the same, consists of new objects, one for each object of the original, and leaves every existing
   object as it was.
   */
  method CloneConfigDictionary(h: Heap, slot: Slot, ghost shape: Shape)
      returns (copy: Slot, ghost p: Shape, ghost t: Table)
    requires h.Ok() && Realizes(h.cells, slot, shape)
    modifies h
    ensures h.Ok() && old(h.next) <= h.next && Kept(old(h.cells), h.cells, old(h.next))
    ensures Realizes(h.cells, copy, p) && Meaning(p) == Meaning(shape) && (p.Object? <==> shape.Object?)
    ensures p == Renamed(t, shape) && Injective(t) && Locs(shape) <= t.Keys
    ensures forall x <- Locs(p) :: old(h.next) <= x
  {
    ghost var start, bound := h.cells, h.next;
    copy, t := CloneSlot(h, slot, map[], start, bound, shape);
    p := Renamed(t, shape);
    KnownThroughout(start, h.cells, bound, t, slot, shape);
    ImageRealized(start, h.cells, bound, t, slot, shape);
    RenamedMeaning(t, shape);
    RenamedLocs(t, shape, bound);
  }
}
