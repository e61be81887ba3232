/**
 The heap of configuration objects.

 The objects are the entries of one table; a shape says which objects a value consists of, down to the elements of
 arrays.  Cyclic values have no shape.
 */
module ConfigShapes {
  import opened Options
  import opened ConfigMerge

  type Loc = nat

  datatype Slot = LeafSlot(leaf: Value) | ListSlot(list: Loc) | ObjectSlot(node: Loc)
  datatype Cell = ListCell(items: seq<Slot>) | DictCell(entries: map<string, Slot>)
  type Cells = map<Loc, Cell>

  /** A value together with the objects it is made of. */
  datatype Shape = Leaf(value: Value) | List(loc: Loc, items: seq<Shape>) | Object(loc: Loc, parts: map<string, Shape>)

  ghost predicate Realizes(cells: Cells, slot: Slot, shape: Shape)
    decreases shape
  {
    match shape
    case Leaf(v) => slot == LeafSlot(v) && !v.Dict? && !v.Items?
    case List(l, items) =>
      slot == ListSlot(l) && l in cells && cells[l].ListCell? && |cells[l].items| == |items| &&
      forall i | 0 <= i < |items| :: Realizes(cells, cells[l].items[i], items[i])
    case Object(l, parts) =>
      slot == ObjectSlot(l) && l in cells && cells[l].DictCell? && cells[l].entries.Keys == parts.Keys &&
      forall k <- parts :: Realizes(cells, cells[l].entries[k], parts[k])
  }

  ghost function Locs(shape: Shape): set<Loc> {
    match shape
    case Leaf(_) => {}
    case List(l, items) => {l} + set i, x | 0 <= i < |items| && x in Locs(items[i]) :: x
    case Object(l, parts) => {l} + set k, x | k in parts && x in Locs(parts[k]) :: x
  }

  ghost function Meaning(shape: Shape): Value {
    match shape
    case Leaf(v) => v
    case List(_, items) => Items(seq(|items|, i requires 0 <= i < |items| => Meaning(items[i])))
    case Object(_, parts) => Dict(map k | k in parts :: Meaning(parts[k]))
  }

  ghost predicate Agree(cells: Cells, cells': Cells, locs: set<Loc>) {
    forall l <- locs :: l in cells ==> l in cells' && cells'[l] == cells[l]
  }

  lemma {:induction false} PartLocs(shape: Shape, k: string)
    requires shape.Object? && k in shape.parts
    ensures Locs(shape.parts[k]) <= Locs(shape) && shape.loc in Locs(shape)
  {
  }

  lemma {:induction false} ItemLocs(shape: Shape, i: nat)
    requires shape.List? && i < |shape.items|
    ensures Locs(shape.items[i]) <= Locs(shape) && shape.loc in Locs(shape)
  {
  }

  lemma {:induction false} StillRealizes(cells: Cells, cells': Cells, slot: Slot, shape: Shape)
    requires Realizes(cells, slot, shape) && Agree(cells, cells', Locs(shape))
    ensures Realizes(cells', slot, shape)
    decreases shape
  {
    if shape.Object? {
      assert shape.loc in Locs(shape);
      forall k | k in shape.parts ensures Realizes(cells', cells[shape.loc].entries[k], shape.parts[k]) {
        PartLocs(shape, k);
        StillRealizes(cells, cells', cells[shape.loc].entries[k], shape.parts[k]);
      }
    } else if shape.List? {
      assert shape.loc in Locs(shape);
      forall i | 0 <= i < |shape.items| ensures Realizes(cells', cells[shape.loc].items[i], shape.items[i]) {
        ItemLocs(shape, i);
        StillRealizes(cells, cells', cells[shape.loc].items[i], shape.items[i]);
      }
    }
  }

  lemma {:induction false} RealizedIsAllocated(cells: Cells, slot: Slot, shape: Shape)
    requires Realizes(cells, slot, shape)
    ensures Locs(shape) <= cells.Keys
    decreases shape
  {
    if shape.Object? {
      forall k | k in shape.parts ensures Locs(shape.parts[k]) <= cells.Keys {
        RealizedIsAllocated(cells, cells[shape.loc].entries[k], shape.parts[k]);
      }
    } else if shape.List? {
      forall i | 0 <= i < |shape.items| ensures Locs(shape.items[i]) <= cells.Keys {
        RealizedIsAllocated(cells, cells[shape.loc].items[i], shape.items[i]);
      }
    }
  }

  // ---------- A value has one shape, and no object occurs within itself ----------

  lemma {:induction false} OneShape(cells: Cells, slot: Slot, a: Shape, b: Shape)
    requires Realizes(cells, slot, a) && Realizes(cells, slot, b)
    ensures a == b
    decreases a
  {
    if a.Object? {
      forall k | k in a.parts ensures a.parts[k] == b.parts[k] {
        OneShape(cells, cells[a.loc].entries[k], a.parts[k], b.parts[k]);
      }
      assert a.parts == b.parts;
    } else if a.List? {
      forall i | 0 <= i < |a.items| ensures a.items[i] == b.items[i] {
        OneShape(cells, cells[a.loc].items[i], a.items[i], b.items[i]);
      }
      assert a.items == b.items;
    }
  }

  /** The slot that refers to the object of a shape. */
  function SlotOf(shape: Shape): Slot {
    match shape
    case Leaf(v) => LeafSlot(v)
    case List(l, _) => ListSlot(l)
    case Object(l, _) => ObjectSlot(l)
  }

  lemma {:induction false} FindObject(cells: Cells, slot: Slot, shape: Shape, x: Loc) returns (s: Shape)
    requires Realizes(cells, slot, shape) && x in Locs(shape)
    ensures !s.Leaf? && s.loc == x && Realizes(cells, SlotOf(s), s) && (s == shape || s < shape)
    decreases shape
  {
    s := shape;
    if x != shape.loc {
      if shape.Object? {
        var k :| k in shape.parts && x in Locs(shape.parts[k]);
        s := FindObject(cells, cells[shape.loc].entries[k], shape.parts[k], x);
      } else {
        var i :| 0 <= i < |shape.items| && x in Locs(shape.items[i]);
        s := FindObject(cells, cells[shape.loc].items[i], shape.items[i], x);
      }
    }
  }

  lemma NotWithinItself(cells: Cells, shape: Shape, slot: Slot, part: Shape)
    requires !shape.Leaf? && Realizes(cells, SlotOf(shape), shape) && Realizes(cells, slot, part) && part < shape
    ensures shape.loc !in Locs(part)
  {
    if shape.loc in Locs(part) {
      var s := FindObject(cells, slot, part, shape.loc);
      assert SlotOf(s) == SlotOf(shape);
      OneShape(cells, SlotOf(shape), s, shape);
    }
  }

  class Heap {
    var cells: Cells
    var next: Loc

    constructor ()
      ensures Ok() && cells == map[] && next == 0
    {
      cells, next := map[], 0;
    }

    predicate Ok()
      reads this
    {
      forall l <- cells :: l < next
    }

    method Allocate(cell: Cell) returns (l: Loc)
      requires Ok()
      modifies this
      ensures Ok() && l == old(next) && next == l + 1 && cells == old(cells)[l := cell]
    {
      l := next;
      cells := cells[l := cell];
      next := next + 1;
    }
  }
}
