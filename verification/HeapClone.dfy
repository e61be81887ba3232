/**
 Deep cloning of a possibly cyclic heap of arrays, maps, sets and plain objects through a table of already seen objects.
 */
module HeapClone {
  import opened Options

  /** A primitive (or function, which is shared), or a reference to a heap object. */
  datatype Value = Prim(id: int) | Ref(node: Obj)

  /** A property descriptor: a data slot with its attributes, or an accessor, which is shared as it is. */
  datatype Slot = Data(value: Value, attributes: nat) | Accessor(id: int)

  datatype Entry = Entry(key: Value, value: Value)
  datatype Property = Property(name: string, slot: Slot)

  datatype Cell =
    | ArrayCell(items: seq<Value>)
    | MapCell(entries: seq<Entry>)
    | SetCell(members: seq<Value>)
    | ObjectCell(prototype: int, properties: seq<Property>)

  class Obj {
    var cell: Cell

    constructor (cell: Cell)
      ensures this.cell == cell
    {
      this.cell := cell;
    }
  }

  /** The table of objects cloned so far. */
  class Seen {
    var table: map<Obj, Obj>

    constructor ()
      ensures table == map[]
    {
      table := map[];
    }
  }

  type Graph = map<Obj, Cell>
  type Table = map<Obj, Obj>

  // ---------- The image of a cell under a table ----------

  ghost function Image(t: Table, v: Value): Value {
    if v.Ref? && v.node in t then Ref(t[v.node]) else v
  }

  ghost function SlotImage(t: Table, s: Slot): Slot {
    match s
    case Data(value, attributes) => Data(Image(t, value), attributes)
    case Accessor(_) => s
  }

  ghost function Images(t: Table, vs: seq<Value>): seq<Value> {
    seq(|vs|, i requires 0 <= i < |vs| => Image(t, vs[i]))
  }

  ghost function EntryImages(t: Table, es: seq<Entry>): seq<Entry> {
    seq(|es|, i requires 0 <= i < |es| => Entry(Image(t, es[i].key), Image(t, es[i].value)))
  }

  ghost function PropertyImages(t: Table, ps: seq<Property>): seq<Property> {
    seq(|ps|, i requires 0 <= i < |ps| => Property(ps[i].name, SlotImage(t, ps[i].slot)))
  }

  ghost function CellImage(t: Table, cell: Cell): Cell {
    match cell
    case ArrayCell(items) => ArrayCell(Images(t, items))
    case MapCell(entries) => MapCell(EntryImages(t, entries))
    case SetCell(members) => SetCell(Images(t, members))
    case ObjectCell(prototype, properties) => ObjectCell(prototype, PropertyImages(t, properties))
  }

  ghost predicate Known(keys: set<Obj>, v: Value) {
    v.Ref? ==> v.node in keys
  }

  ghost predicate SlotKnown(keys: set<Obj>, s: Slot) {
    s.Data? ==> Known(keys, s.value)
  }

  /** Every object the cell refers to is among the given ones. */
  ghost predicate CellKnown(keys: set<Obj>, cell: Cell) {
    match cell
    case ArrayCell(vs) => forall i | 0 <= i < |vs| :: Known(keys, vs[i])
    case MapCell(es) => forall i | 0 <= i < |es| :: Known(keys, es[i].key) && Known(keys, es[i].value)
    case SetCell(vs) => forall i | 0 <= i < |vs| :: Known(keys, vs[i])
    case ObjectCell(_, ps) => forall i | 0 <= i < |ps| :: SlotKnown(keys, ps[i].slot)
  }

  /** Keys of a map, members of a set and names of an object are pairwise distinct, as the language guarantees. */
  ghost predicate CellDistinct(cell: Cell) {
    match cell
    case ArrayCell(_) => true
    case MapCell(es) => forall i, j | 0 <= i < j < |es| :: es[i].key != es[j].key
    case SetCell(ms) => forall i, j | 0 <= i < j < |ms| :: ms[i] != ms[j]
    case ObjectCell(_, ps) => forall i, j | 0 <= i < j < |ps| :: ps[i].name != ps[j].name
  }

  ghost predicate RefersTo(cell: Cell, v: Value) {
    match cell
    case ArrayCell(items) => v in items
    case MapCell(entries) => exists e <- entries :: v == e.key || v == e.value
    case SetCell(members) => v in members
    case ObjectCell(_, properties) => exists p <- properties :: p.slot.Data? && p.slot.value == v
  }

  /** A snapshot of the source heap that is closed under references. */
  ghost predicate Closed(g: Graph) {
    forall o <- g :: CellKnown(g.Keys, g[o]) && CellDistinct(g[o])
  }

  ghost predicate ReachesIn(g: Graph, a: Obj, b: Obj, steps: nat) {
    a in g && if steps == 0 then a == b else exists c <- g :: RefersTo(g[a], Ref(c)) && ReachesIn(g, c, b, steps - 1)
  }

  ghost predicate Reaches(g: Graph, v: Value, o: Obj) {
    v.Ref? && exists steps: nat :: ReachesIn(g, v.node, o, steps)
  }

  ghost predicate Injective(t: Table) {
    forall a, b | a in t && b in t && t[a] == t[b] :: a == b
  }

  ghost predicate Extends(t: Table, t': Table) {
    t.Keys <= t'.Keys && forall o <- t :: t'[o] == t[o]
  }

  lemma ImageStable(t: Table, t': Table, cell: Cell)
    requires Extends(t, t') && CellKnown(t.Keys, cell)
    ensures CellKnown(t'.Keys, cell) && CellImage(t', cell) == CellImage(t, cell)
  {
    match cell
    case ArrayCell(items) => assert Images(t', items) == Images(t, items);
    case MapCell(entries) => assert EntryImages(t', entries) == EntryImages(t, entries);
    case SetCell(members) => assert Images(t', members) == Images(t, members);
    case ObjectCell(_, properties) => assert PropertyImages(t', properties) == PropertyImages(t, properties);
  }

  lemma ImageInjective(t: Table, v: Value, w: Value)
    requires Injective(t) && Known(t.Keys, v) && Known(t.Keys, w) && Image(t, v) == Image(t, w)
    ensures v == w
  {
  }

  lemma ReachesThrough(g: Graph, o: Obj, v: Value, x: Obj)
    requires o in g && RefersTo(g[o], v) && Reaches(g, v, x)
    ensures Reaches(g, Ref(o), x)
  {
    var steps: nat :| ReachesIn(g, v.node, x, steps);
    assert ReachesIn(g, o, x, steps + 1);
  }

  // ---------- Cloning in place ----------

  ghost predicate Snapshot(g: Graph)
    reads g.Keys
  {
    Closed(g) && forall o <- g :: o.cell == g[o]
  }

  /** Copies stand for distinct source objects and are not source objects themselves. */
  ghost predicate TableOk(t: Table, g: Graph) {
    t.Keys <= g.Keys && Injective(t) && forall o <- t :: t[o] !in g
  }

  ghost predicate Copied(t: Table, g: Graph, o: Obj)
    requires o in t && o in g
    reads t[o]
  {
    CellKnown(t.Keys, g[o]) && t[o].cell == CellImage(t, g[o])
  }

  /** Everything cloned since the table was `base` is a finished copy of an object reachable from o. */
  ghost predicate Progress(seen: Seen, g: Graph, base: Table, o: Obj)
    reads seen, seen.table.Values
  {
    && TableOk(seen.table, g) && Extends(base, seen.table)
    && forall x <- seen.table :: x !in base ==> Copied(seen.table, g, x) && Reaches(g, Ref(o), x)
  }

  method CloneValue(v: Value, seen: Seen, ghost g: Graph) returns (r: Value)
    requires Snapshot(g) && TableOk(seen.table, g) && Known(g.Keys, v)
    modifies seen
    ensures TableOk(seen.table, g) && Extends(old(seen.table), seen.table)
    ensures Known(seen.table.Keys, v) && r == Image(seen.table, v)
    ensures forall x <- seen.table :: x !in old(seen.table) ==>
              fresh(seen.table[x]) && Copied(seen.table, g, x) && Reaches(g, v, x)
    decreases g.Keys - seen.table.Keys, 1
  {
    if v.Prim? {
      return v;
    }
    if v.node in seen.table {
      return Ref(seen.table[v.node]);
    }
    match v.node.cell {
      case ArrayCell(items) => r := CloneArray(v.node, items, seen, g);
      case MapCell(entries) => r := CloneMap(v.node, entries, seen, g);
      case SetCell(members) => r := CloneSet(v.node, members, seen, g);
      case ObjectCell(prototype, properties) => r := CloneObject(v.node, prototype, properties, seen, g);
    }
  }

  /** Clones one value that o refers to, keeping track of what has been cloned since o was entered into the table. */
  method CloneChild(o: Obj, v: Value, seen: Seen, ghost g: Graph, ghost base: Table) returns (r: Value)
    requires Snapshot(g) && o in g && o in base && RefersTo(g[o], v) && Known(g.Keys, v)
    requires Progress(seen, g, base, o)
    modifies seen
    ensures Progress(seen, g, base, o) && Extends(old(seen.table), seen.table)
    ensures Known(seen.table.Keys, v) && r == Image(seen.table, v)
    ensures forall x <- seen.table :: x !in old(seen.table) ==> fresh(seen.table[x])
    decreases g.Keys - seen.table.Keys, 2
  {
    ghost var before := seen.table;
    r := CloneValue(v, seen, g);
    forall x | x in seen.table && x !in base
      ensures Copied(seen.table, g, x) && Reaches(g, Ref(o), x)
    {
      if x in before {
        ImageStable(before, seen.table, g[x]);
      } else {
        ReachesThrough(g, o, v, x);
      }
    }
  }

  /** Enters an empty copy for o, so that references back to o find it. */
  method Enter(o: Obj, empty: Cell, seen: Seen, ghost g: Graph) returns (cloned: Obj)
    requires TableOk(seen.table, g) && o in g && o !in seen.table
    modifies seen
    ensures fresh(cloned) && cloned.cell == empty && seen.table == old(seen.table)[o := cloned]
    ensures Progress(seen, g, seen.table, o) && Extends(old(seen.table), seen.table)
  {
    cloned := new Obj(empty);
    seen.table := seen.table[o := cloned];
  }

  /** Writing into the copy of o does not disturb any other copy. */
  method Write(cloned: Obj, cell: Cell, seen: Seen, ghost g: Graph, ghost base: Table, ghost o: Obj)
    requires Progress(seen, g, base, o) && o in base && base[o] == cloned
    modifies cloned
    ensures cloned.cell == cell && Progress(seen, g, base, o)
  {
    cloned.cell := cell;
  }

  lemma ReachesItself(g: Graph, o: Obj)
    requires o in g
    ensures Reaches(g, Ref(o), o)
  {
    assert ReachesIn(g, o, o, 0);
  }

  method MapItem(o: Obj, items: seq<Value>, i: nat, mapped: seq<Value>, seen: Seen, ghost g: Graph, ghost base: Table)
      returns (longer: seq<Value>)
    requires Snapshot(g) && o in g && g[o] == ArrayCell(items) && o in base && i < |items|
    requires Progress(seen, g, base, o)
    requires CellKnown(seen.table.Keys, ArrayCell(items[..i])) && mapped == Images(seen.table, items[..i])
    modifies seen
    ensures Progress(seen, g, base, o) && Extends(old(seen.table), seen.table)
    ensures CellKnown(seen.table.Keys, ArrayCell(items[..i + 1])) && longer == Images(seen.table, items[..i + 1])
    ensures forall x <- seen.table :: x !in old(seen.table) ==> fresh(seen.table[x])
    decreases g.Keys - seen.table.Keys, 3
  {
    ghost var before := seen.table;
    var item := CloneChild(o, items[i], seen, g, base);
    ImageStable(before, seen.table, ArrayCell(items[..i]));
    longer := mapped + [item];
    assert Images(seen.table, items[..i + 1]) == Images(seen.table, items[..i]) + [item];
  }

  /** All elements are cloned first and then pushed at once. */
  method MapItems(o: Obj, items: seq<Value>, seen: Seen, ghost g: Graph, ghost base: Table) returns (mapped: seq<Value>)
    requires Snapshot(g) && o in g && g[o] == ArrayCell(items) && o in base
    requires Progress(seen, g, base, o) && seen.table == base
    modifies seen
    ensures Progress(seen, g, base, o)
    ensures forall x <- seen.table :: x !in base ==> fresh(seen.table[x])
    ensures CellKnown(seen.table.Keys, g[o]) && mapped == Images(seen.table, items)
    decreases g.Keys - seen.table.Keys, 4
  {
    mapped := [];
    for i := 0 to |items|
      invariant Snapshot(g) && Progress(seen, g, base, o)
      invariant CellKnown(seen.table.Keys, ArrayCell(items[..i])) && mapped == Images(seen.table, items[..i])
      invariant forall x <- seen.table :: x !in base ==> fresh(seen.table[x])
    {
      mapped := MapItem(o, items, i, mapped, seen, g, base);
    }
    assert items[..|items|] == items;
  }

  method CloneArray(o: Obj, items: seq<Value>, seen: Seen, ghost g: Graph) returns (r: Value)
    requires Snapshot(g) && TableOk(seen.table, g) && o in g && o !in seen.table && g[o] == ArrayCell(items)
    modifies seen
    ensures TableOk(seen.table, g) && Extends(old(seen.table), seen.table)
    ensures o in seen.table && r == Ref(seen.table[o])
    ensures forall x <- seen.table :: x !in old(seen.table) ==>
              fresh(seen.table[x]) && Copied(seen.table, g, x) && Reaches(g, Ref(o), x)
    decreases g.Keys - seen.table.Keys, 0
  {
    var cloned := Enter(o, ArrayCell([]), seen, g);
    assert o in seen.table;
    ghost var base := seen.table;
    var mapped := MapItems(o, items, seen, g, base);
    Write(cloned, ArrayCell(mapped), seen, g, base, o);
    r := Ref(cloned);
    ReachesItself(g, o);
  }

  /** The copy of o holds the image of a part of o's cell. */
  ghost predicate Filled(seen: Seen, g: Graph, base: Table, o: Obj, cloned: Obj, part: Cell)
    reads seen, seen.table.Values, cloned
  {
    Progress(seen, g, base, o) && o in base && base[o] == cloned &&
    CellKnown(seen.table.Keys, part) && cloned.cell == CellImage(seen.table, part)
  }

  function FindKey(es: seq<Entry>, key: Value): (i: nat)
    ensures i <= |es| && (i < |es| ==> es[i].key == key)
    ensures forall j | 0 <= j < i :: es[j].key != key
  {
    if es == [] then 0 else if es[0].key == key then 0 else 1 + FindKey(es[1..], key)
  }

  /** Storing under a key that is present replaces its value; otherwise the entry goes to the end. */
  function PutEntry(es: seq<Entry>, key: Value, value: Value): seq<Entry> {
    var i := FindKey(es, key);
    if i < |es| then es[i := Entry(key, value)] else es + [Entry(key, value)]
  }

  function AddMember(ms: seq<Value>, member: Value): seq<Value> {
    if member in ms then ms else ms + [member]
  }

  function FindName(ps: seq<Property>, name: string): (i: nat)
    ensures i <= |ps| && (i < |ps| ==> ps[i].name == name)
    ensures forall j | 0 <= j < i :: ps[j].name != name
  {
    if ps == [] then 0 else if ps[0].name == name then 0 else 1 + FindName(ps[1..], name)
  }

  function DefineProperty(ps: seq<Property>, name: string, slot: Slot): seq<Property> {
    var i := FindName(ps, name);
    if i < |ps| then ps[i := Property(name, slot)] else ps + [Property(name, slot)]
  }

  /** Distinct source keys have distinct images, so a copied entry is appended and replaces nothing. */
  lemma PutAppends(t: Table, entries: seq<Entry>, i: nat)
    requires Injective(t) && CellDistinct(MapCell(entries)) && i < |entries|
    requires CellKnown(t.Keys, MapCell(entries[..i]))
    requires Known(t.Keys, entries[i].key) && Known(t.Keys, entries[i].value)
    ensures CellKnown(t.Keys, MapCell(entries[..i + 1]))
    ensures PutEntry(EntryImages(t, entries[..i]), Image(t, entries[i].key), Image(t, entries[i].value))
         == EntryImages(t, entries[..i + 1])
  {
    var done := EntryImages(t, entries[..i]);
    forall j | 0 <= j < i ensures done[j].key != Image(t, entries[i].key) {
      assert Known(t.Keys, entries[..i][j].key);
      if Image(t, entries[j].key) == Image(t, entries[i].key) {
        ImageInjective(t, entries[j].key, entries[i].key);
      }
    }
  }

  lemma AddAppends(t: Table, members: seq<Value>, i: nat)
    requires Injective(t) && CellDistinct(SetCell(members)) && i < |members|
    requires CellKnown(t.Keys, SetCell(members[..i])) && Known(t.Keys, members[i])
    ensures CellKnown(t.Keys, SetCell(members[..i + 1]))
    ensures AddMember(Images(t, members[..i]), Image(t, members[i])) == Images(t, members[..i + 1])
  {
    var done := Images(t, members[..i]);
    forall j | 0 <= j < i ensures done[j] != Image(t, members[i]) {
      assert Known(t.Keys, members[..i][j]);
      if Image(t, members[j]) == Image(t, members[i]) {
        ImageInjective(t, members[j], members[i]);
      }
    }
  }

  lemma DefineAppends(t: Table, prototype: int, ps: seq<Property>, i: nat)
    requires CellDistinct(ObjectCell(prototype, ps)) && i < |ps|
    requires CellKnown(t.Keys, ObjectCell(prototype, ps[..i])) && SlotKnown(t.Keys, ps[i].slot)
    ensures CellKnown(t.Keys, ObjectCell(prototype, ps[..i + 1]))
    ensures DefineProperty(PropertyImages(t, ps[..i]), ps[i].name, SlotImage(t, ps[i].slot))
         == PropertyImages(t, ps[..i + 1])
  {
    var done := PropertyImages(t, ps[..i]);
    forall j | 0 <= j < i ensures done[j].name != ps[i].name {}
  }

  lemma EntryIsReferred(o: Obj, entries: seq<Entry>, i: nat, g: Graph)
    requires Closed(g) && o in g && g[o] == MapCell(entries) && i < |entries|
    ensures RefersTo(g[o], entries[i].key) && RefersTo(g[o], entries[i].value)
    ensures Known(g.Keys, entries[i].key) && Known(g.Keys, entries[i].value)
    ensures CellDistinct(MapCell(entries))
  {
  }

  lemma PropertyIsReferred(o: Obj, prototype: int, ps: seq<Property>, i: nat, g: Graph)
    requires Closed(g) && o in g && g[o] == ObjectCell(prototype, ps) && i < |ps|
    ensures ps[i].slot.Data? ==> RefersTo(g[o], ps[i].slot.value)
    ensures SlotKnown(g.Keys, ps[i].slot)
    ensures CellDistinct(ObjectCell(prototype, ps))
  {
  }

  method CloneEntry(o: Obj, e: Entry, seen: Seen, ghost g: Graph, ghost base: Table) returns (r: Entry)
    requires Snapshot(g) && o in g && o in base && RefersTo(g[o], e.key) && RefersTo(g[o], e.value)
    requires Known(g.Keys, e.key) && Known(g.Keys, e.value) && Progress(seen, g, base, o)
    modifies seen
    ensures Progress(seen, g, base, o) && Extends(old(seen.table), seen.table)
    ensures Known(seen.table.Keys, e.key) && Known(seen.table.Keys, e.value)
    ensures r == Entry(Image(seen.table, e.key), Image(seen.table, e.value))
    ensures forall x <- seen.table :: x !in old(seen.table) ==> fresh(seen.table[x])
    decreases g.Keys - seen.table.Keys, 3
  {
    var key := CloneChild(o, e.key, seen, g, base);
    var value := CloneChild(o, e.value, seen, g, base);
    r := Entry(key, value);
  }

  method PutCopiedEntry(o: Obj, entries: seq<Entry>, i: nat, cloned: Obj, seen: Seen, ghost g: Graph, ghost base: Table)
    requires Snapshot(g) && o in g && g[o] == MapCell(entries) && 0 <= i < |entries| && cloned !in g
    requires Filled(seen, g, base, o, cloned, MapCell(entries[..i]))
    modifies seen, cloned
    ensures Filled(seen, g, base, o, cloned, MapCell(entries[..i + 1])) && Extends(old(seen.table), seen.table)
    ensures forall x <- seen.table :: x !in old(seen.table) ==> fresh(seen.table[x])
    decreases g.Keys - seen.table.Keys, 4
  {
    ghost var before := seen.table;
    EntryIsReferred(o, entries, i, g);
    var copy := CloneEntry(o, entries[i], seen, g, base);
    ImageStable(before, seen.table, MapCell(entries[..i]));
    PutAppends(seen.table, entries, i);
    Write(cloned, MapCell(PutEntry(cloned.cell.entries, copy.key, copy.value)), seen, g, base, o);
  }

  method FillMap(o: Obj, entries: seq<Entry>, cloned: Obj, seen: Seen, ghost g: Graph, ghost base: Table)
    requires Snapshot(g) && o in g && g[o] == MapCell(entries) && cloned !in g
    requires Filled(seen, g, base, o, cloned, MapCell([])) && seen.table == base
    modifies seen, cloned
    ensures Filled(seen, g, base, o, cloned, MapCell(entries)) && Extends(base, seen.table)
    ensures forall x <- seen.table :: x !in base ==> fresh(seen.table[x])
    decreases g.Keys - seen.table.Keys, 5
  {
    assert entries[..0] == [];
    for i := 0 to |entries|
      invariant Snapshot(g) && Filled(seen, g, base, o, cloned, MapCell(entries[..i]))
      invariant forall x <- seen.table :: x !in base ==> fresh(seen.table[x])
    {
      PutCopiedEntry(o, entries, i, cloned, seen, g, base);
    }
    assert entries[..|entries|] == entries;
  }

  method CloneMap(o: Obj, entries: seq<Entry>, seen: Seen, ghost g: Graph) returns (r: Value)
    requires Snapshot(g) && TableOk(seen.table, g) && o in g && o !in seen.table && g[o] == MapCell(entries)
    modifies seen
    ensures TableOk(seen.table, g) && Extends(old(seen.table), seen.table)
    ensures o in seen.table && r == Ref(seen.table[o])
    ensures forall x <- seen.table :: x !in old(seen.table) ==>
              fresh(seen.table[x]) && Copied(seen.table, g, x) && Reaches(g, Ref(o), x)
    decreases g.Keys - seen.table.Keys, 0
  {
    var cloned := Enter(o, MapCell([]), seen, g);
    assert o in seen.table;
    FillMap(o, entries, cloned, seen, g, seen.table);
    r := Ref(cloned);
    ReachesItself(g, o);
  }

  method AddCopiedMember(o: Obj, members: seq<Value>, i: nat, cloned: Obj, seen: Seen, ghost g: Graph,
                         ghost base: Table)
    requires Snapshot(g) && o in g && g[o] == SetCell(members) && 0 <= i < |members| && cloned !in g
    requires Filled(seen, g, base, o, cloned, SetCell(members[..i]))
    modifies seen, cloned
    ensures Filled(seen, g, base, o, cloned, SetCell(members[..i + 1])) && Extends(old(seen.table), seen.table)
    ensures forall x <- seen.table :: x !in old(seen.table) ==> fresh(seen.table[x])
    decreases g.Keys - seen.table.Keys, 3
  {
    ghost var before := seen.table;
    var member := CloneChild(o, members[i], seen, g, base);
    ImageStable(before, seen.table, SetCell(members[..i]));
    AddAppends(seen.table, members, i);
    Write(cloned, SetCell(AddMember(cloned.cell.members, member)), seen, g, base, o);
  }

  method FillSet(o: Obj, members: seq<Value>, cloned: Obj, seen: Seen, ghost g: Graph, ghost base: Table)
    requires Snapshot(g) && o in g && g[o] == SetCell(members) && cloned !in g
    requires Filled(seen, g, base, o, cloned, SetCell([])) && seen.table == base
    modifies seen, cloned
    ensures Filled(seen, g, base, o, cloned, SetCell(members)) && Extends(base, seen.table)
    ensures forall x <- seen.table :: x !in base ==> fresh(seen.table[x])
    decreases g.Keys - seen.table.Keys, 5
  {
    assert members[..0] == [];
    for i := 0 to |members|
      invariant Snapshot(g) && Filled(seen, g, base, o, cloned, SetCell(members[..i]))
      invariant forall x <- seen.table :: x !in base ==> fresh(seen.table[x])
    {
      AddCopiedMember(o, members, i, cloned, seen, g, base);
    }
    assert members[..|members|] == members;
  }

  method CloneSet(o: Obj, members: seq<Value>, seen: Seen, ghost g: Graph) returns (r: Value)
    requires Snapshot(g) && TableOk(seen.table, g) && o in g && o !in seen.table && g[o] == SetCell(members)
    modifies seen
    ensures TableOk(seen.table, g) && Extends(old(seen.table), seen.table)
    ensures o in seen.table && r == Ref(seen.table[o])
    ensures forall x <- seen.table :: x !in old(seen.table) ==>
              fresh(seen.table[x]) && Copied(seen.table, g, x) && Reaches(g, Ref(o), x)
    decreases g.Keys - seen.table.Keys, 0
  {
    var cloned := Enter(o, SetCell([]), seen, g);
    assert o in seen.table;
    FillSet(o, members, cloned, seen, g, seen.table);
    r := Ref(cloned);
    ReachesItself(g, o);
  }

  /** A data slot is cloned with its attributes, an accessor is taken over. */
  method CloneSlot(o: Obj, slot: Slot, seen: Seen, ghost g: Graph, ghost base: Table) returns (r: Slot)
    requires Snapshot(g) && o in g && o in base && (slot.Data? ==> RefersTo(g[o], slot.value))
    requires SlotKnown(g.Keys, slot) && Progress(seen, g, base, o)
    modifies seen
    ensures Progress(seen, g, base, o) && Extends(old(seen.table), seen.table)
    ensures SlotKnown(seen.table.Keys, slot) && r == SlotImage(seen.table, slot)
    ensures forall x <- seen.table :: x !in old(seen.table) ==> fresh(seen.table[x])
    decreases g.Keys - seen.table.Keys, 3
  {
    if slot.Accessor? {
      return slot;
    }
    var value := CloneChild(o, slot.value, seen, g, base);
    r := Data(value, slot.attributes);
  }

  method DefineCopiedProperty(o: Obj, prototype: int, properties: seq<Property>, i: nat, cloned: Obj, seen: Seen,
                              ghost g: Graph, ghost base: Table)
    requires Snapshot(g) && o in g && g[o] == ObjectCell(prototype, properties) && 0 <= i < |properties| && cloned !in g
    requires Filled(seen, g, base, o, cloned, ObjectCell(prototype, properties[..i]))
    modifies seen, cloned
    ensures Filled(seen, g, base, o, cloned, ObjectCell(prototype, properties[..i + 1])) &&
            Extends(old(seen.table), seen.table)
    ensures forall x <- seen.table :: x !in old(seen.table) ==> fresh(seen.table[x])
    decreases g.Keys - seen.table.Keys, 4
  {
    ghost var before := seen.table;
    var name := properties[i].name;
    PropertyIsReferred(o, prototype, properties, i, g);
    var slot := CloneSlot(o, properties[i].slot, seen, g, base);
    ImageStable(before, seen.table, ObjectCell(prototype, properties[..i]));
    DefineAppends(seen.table, prototype, properties, i);
    Write(cloned, ObjectCell(prototype, DefineProperty(cloned.cell.properties, name, slot)), seen, g, base, o);
  }

  method FillObject(o: Obj, prototype: int, properties: seq<Property>, cloned: Obj, seen: Seen, ghost g: Graph,
                    ghost base: Table)
    requires Snapshot(g) && o in g && g[o] == ObjectCell(prototype, properties) && cloned !in g
    requires Filled(seen, g, base, o, cloned, ObjectCell(prototype, [])) && seen.table == base
    modifies seen, cloned
    ensures Filled(seen, g, base, o, cloned, ObjectCell(prototype, properties)) && Extends(base, seen.table)
    ensures forall x <- seen.table :: x !in base ==> fresh(seen.table[x])
    decreases g.Keys - seen.table.Keys, 5
  {
    assert properties[..0] == [];
    for i := 0 to |properties|
      invariant Snapshot(g) && Filled(seen, g, base, o, cloned, ObjectCell(prototype, properties[..i]))
      invariant forall x <- seen.table :: x !in base ==> fresh(seen.table[x])
    {
      DefineCopiedProperty(o, prototype, properties, i, cloned, seen, g, base);
    }
    assert properties[..|properties|] == properties;
  }

  method CloneObject(o: Obj, prototype: int, properties: seq<Property>, seen: Seen, ghost g: Graph) returns (r: Value)
    requires Snapshot(g) && TableOk(seen.table, g) && o in g && o !in seen.table &&
             g[o] == ObjectCell(prototype, properties)
    modifies seen
    ensures TableOk(seen.table, g) && Extends(old(seen.table), seen.table)
    ensures o in seen.table && r == Ref(seen.table[o])
    ensures forall x <- seen.table :: x !in old(seen.table) ==>
              fresh(seen.table[x]) && Copied(seen.table, g, x) && Reaches(g, Ref(o), x)
    decreases g.Keys - seen.table.Keys, 0
  {
    var cloned := Enter(o, ObjectCell(prototype, []), seen, g);
    assert o in seen.table;
    FillObject(o, prototype, properties, cloned, seen, g, seen.table);
    r := Ref(cloned);
    ReachesItself(g, o);
  }

  // ---------- The whole clone ----------

  lemma ReferenceIsKnown(keys: set<Obj>, cell: Cell, o: Obj)
    requires CellKnown(keys, cell) && RefersTo(cell, Ref(o))
    ensures o in keys
  {
  }

  /** A table that is closed under references holds everything that can be reached from its objects. */
  lemma {:induction false} ReachableIsInTable(g: Graph, t: Table, a: Obj, b: Obj, steps: nat)
    requires t.Keys <= g.Keys && a in t && ReachesIn(g, a, b, steps)
    requires forall o <- t :: CellKnown(t.Keys, g[o])
    ensures b in t
    decreases steps
  {
    if steps > 0 {
      var c :| c in g && RefersTo(g[a], Ref(c)) && ReachesIn(g, c, b, steps - 1);
      ReferenceIsKnown(t.Keys, g[a], c);
      ReachableIsInTable(g, t, c, b, steps - 1);
    }
  }

  /** The copies of f, and what they hold. */
  ghost predicate CopyGraph(g: Graph, f: Table, h: Graph) {
    && Injective(f) && f.Keys <= g.Keys && h.Keys == f.Values
    && forall o <- f :: CellKnown(f.Keys, g[o]) && h[f[o]] == CellImage(f, g[o])
  }

  /**
   Clones any finite heap, cyclic or not.  The table f is an isomorphism from exactly the objects reachable from the
   argument onto fresh objects: distinct objects have distinct copies, and every copy holds the image of its original.
   The method modifies nothing, so the source is as it was.  The graph h is a snapshot of the copies.
   */
  method FallbackClone(v: Value, ghost g: Graph) returns (r: Value, ghost f: Table, ghost h: Graph)
    requires Snapshot(g) && Known(g.Keys, v)
    ensures Snapshot(g)
    ensures f.Keys <= g.Keys && forall o <- g :: o in f <==> Reaches(g, v, o)
    ensures Injective(f) && forall o <- f :: fresh(f[o]) && Copied(f, g, o)
    ensures Known(f.Keys, v) && r == Image(f, v)
    ensures CopyGraph(g, f, h) && forall c <- h :: c.cell == h[c]
  {
    var seen := new Seen();
    r := CloneValue(v, seen, g);
    f := seen.table;
    forall o | o in g && Reaches(g, v, o) ensures o in f {
      var steps: nat :| ReachesIn(g, v.node, o, steps);
      ReachableIsInTable(g, f, v.node, o, steps);
    }
    h := map c | c in f.Values :: c.cell;
    assert forall o <- f :: f[o] in f.Values;
  }

  // ---------- What an isomorphic copy means to a program that walks it ----------

  /** One way to get from an object to a value it holds. */
  datatype Selector =
    | Item(index: nat)
    | KeyAt(index: nat)
    | ValueAt(index: nat)
    | Member(index: nat)
    | Named(name: string)

  ghost function Select(cell: Cell, s: Selector): Option<Value> {
    match (cell, s)
    case (ArrayCell(vs), Item(i)) => if i < |vs| then Some(vs[i]) else None
    case (MapCell(es), KeyAt(i)) => if i < |es| then Some(es[i].key) else None
    case (MapCell(es), ValueAt(i)) => if i < |es| then Some(es[i].value) else None
    case (SetCell(vs), Member(i)) => if i < |vs| then Some(vs[i]) else None
    case (ObjectCell(_, ps), Named(name)) =>
      var i := FindName(ps, name);
      if i < |ps| && ps[i].slot.Data? then Some(ps[i].slot.value) else None
    case _ => None
  }

  /** The value at the end of a chain of selections, if every link exists. */
  ghost function Follow(g: Graph, v: Value, path: seq<Selector>): Option<Value>
    decreases |path|
  {
    if path == [] then Some(v)
    else if v.Prim? || v.node !in g then None
    else match Select(g[v.node], path[0])
      case None => None
      case Some(w) => Follow(g, w, path[1..])
  }

  ghost function ImageOption(f: Table, v: Option<Value>): Option<Value> {
    match v
    case None => None
    case Some(w) => Some(Image(f, w))
  }

  lemma FindNameInImage(f: Table, ps: seq<Property>, name: string)
    ensures FindName(PropertyImages(f, ps), name) == FindName(ps, name)
  {
    var qs := PropertyImages(f, ps);
    var i, j := FindName(ps, name), FindName(qs, name);
    assert forall k | 0 <= k < |ps| :: qs[k].name == ps[k].name;
    assert !(i < j) && !(j < i);
  }

  lemma SelectCommutes(f: Table, cell: Cell, s: Selector)
    requires CellKnown(f.Keys, cell)
    ensures Select(CellImage(f, cell), s) == ImageOption(f, Select(cell, s))
    ensures Select(cell, s).Some? ==> Known(f.Keys, Select(cell, s).value)
  {
    if cell.ObjectCell? && s.Named? {
      FindNameInImage(f, cell.properties, s.name);
      var i := FindName(cell.properties, s.name);
      assert i < |cell.properties| ==> SlotKnown(f.Keys, cell.properties[i].slot);
    }
  }

  /** Walking the copy yields the image of what walking the original yields. */
  lemma {:induction false} FollowCommutes(g: Graph, f: Table, h: Graph, v: Value, path: seq<Selector>)
    requires CopyGraph(g, f, h) && Known(f.Keys, v)
    ensures Follow(h, Image(f, v), path) == ImageOption(f, Follow(g, v, path))
    ensures Follow(g, v, path).Some? ==> Known(f.Keys, Follow(g, v, path).value)
    decreases |path|
  {
    if path != [] && v.Ref? {
      assert f[v.node] in f.Values;
      SelectCommutes(f, g[v.node], path[0]);
      var next := Select(g[v.node], path[0]);
      if next.Some? {
        FollowCommutes(g, f, h, next.value, path[1..]);
      }
    }
  }

  /**
   Sharing and cycles survive: two walks from the root end at the same value of the original exactly when they end at
   the same value of the copy, and they end nowhere together.
   */
  lemma SharingIsPreserved(g: Graph, f: Table, h: Graph, v: Value, p: seq<Selector>, q: seq<Selector>)
    requires CopyGraph(g, f, h) && Known(f.Keys, v)
    ensures Follow(g, v, p) == Follow(g, v, q) <==> Follow(h, Image(f, v), p) == Follow(h, Image(f, v), q)
  {
    FollowCommutes(g, f, h, v, p);
    FollowCommutes(g, f, h, v, q);
    var a, b := Follow(g, v, p), Follow(g, v, q);
    if a.Some? && b.Some? && Image(f, a.value) == Image(f, b.value) {
      ImageInjective(f, a.value, b.value);
    }
  }
}
