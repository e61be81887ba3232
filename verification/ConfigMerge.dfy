/**
 Merging configuration sources, on values: what a path yields in the merged configuration.

 Every object that is no array counts as a dictionary.  `Plain` values have no dictionary with a key `__proto__` of its
 own; for the others the code does something else than the merge stated here, which is the subject of ConfigHeap.
 */
module ConfigMerge {
  import opened Options
  import opened Text

  datatype Value = Scalar(id: int) | Number(n: int) | Items(values: seq<Value>) | Dict(entries: map<string, Value>)

  const EmptyDict := Dict(map[])

  /** On an object without such a key of its own it names the object's prototype. */
  const PROTO := "__proto__"

  /** No dictionary that the merge meets has the key of its own; arrays are copied as a whole. */
  predicate Plain(v: Value) {
    v.Dict? ==> PROTO !in v.entries && forall k <- v.entries :: Plain(v.entries[k])
  }

  /** Some dictionary that the merge meets in v has that key, with the value w. */
  ghost predicate ProtoEntry(v: Value, w: Value) {
    v.Dict? &&
    ((PROTO in v.entries && v.entries[PROTO] == w) || exists k <- v.entries :: ProtoEntry(v.entries[k], w))
  }

  lemma {:induction false} ProtoEntryIsNotPlain(v: Value, w: Value)
    requires ProtoEntry(v, w)
    ensures !Plain(v)
    decreases v
  {
    if !(PROTO in v.entries && v.entries[PROTO] == w) {
      var k :| k in v.entries && ProtoEntry(v.entries[k], w);
      ProtoEntryIsNotPlain(v.entries[k], w);
    }
  }

  /** Right-biased deep merge: dictionaries are merged key by key, anything else is replaced by the later value. */
  function Merge(a: Value, b: Value): Value
    decreases b
  {
    if b.Dict? then
      var prior := if a.Dict? then a.entries else map[];
      Dict(map k | k in prior.Keys + b.entries.Keys ::
             if k !in b.entries then prior[k] else Merge(if k in prior then prior[k] else EmptyDict, b.entries[k]))
    else b
  }

  function MergeAll(sources: seq<Value>): Value {
    if sources == [] then EmptyDict else Merge(MergeAll(sources[..|sources| - 1]), sources[|sources| - 1])
  }

  // ---------- Paths through dictionaries ----------

  function Find(v: Value, path: seq<string>): Option<Value> {
    if path == [] then Some(v)
    else if v.Dict? && path[0] in v.entries then Find(v.entries[path[0]], path[1..])
    else None
  }

  /** The source has something to say about the path: it defines it, or puts a non-dictionary at a proper prefix. */
  predicate Touches(v: Value, path: seq<string>) {
    path == [] || !v.Dict? || (path[0] in v.entries && Touches(v.entries[path[0]], path[1..]))
  }

  /** What the later source makes of a path, given what the earlier ones made of it. */
  ghost predicate Outcome(earlier: Option<Value>, later: Option<Value>, touched: bool, merged: Option<Value>) {
    if !touched then merged == earlier
    else if later.Some? && later.value.Dict? then
      merged == Some(Merge(if earlier.Some? then earlier.value else EmptyDict, later.value))
    else merged == later
  }

  lemma NothingInEmpty(path: seq<string>, x: Value)
    requires path != [] && !x.Dict?
    ensures Find(x, path) == None && Find(EmptyDict, path) == None
  {
  }

  /**
   A path that the later source does not touch keeps its value.  One that it touches takes what the later source has
   there, merged into the earlier value if it is a dictionary.
   */
  lemma {:induction false} MergedPath(a: Value, b: Value, path: seq<string>)
    requires b.Dict?
    ensures (a.Dict? || path == []) ==> Outcome(Find(a, path), Find(b, path), Touches(b, path), Find(Merge(a, b), path))
    ensures (!a.Dict? && path != []) ==> Outcome(None, Find(b, path), Touches(b, path), Find(Merge(a, b), path))
    decreases |path|
  {
    if path != [] {
      var k, rest := path[0], path[1..];
      var x := if a.Dict? && k in a.entries then a.entries[k] else EmptyDict;
      if k in b.entries {
        assert Merge(a, b).entries[k] == Merge(x, b.entries[k]);
        if b.entries[k].Dict? {
          MergedPath(x, b.entries[k], rest);
          if rest != [] && !x.Dict? { NothingInEmpty(rest, x); }
          NonDictOrEmpty(x, b.entries[k]);
        } else {
          assert Merge(x, b.entries[k]) == b.entries[k];
          assert Touches(b.entries[k], rest);
        }
      } else if a.Dict? && k in a.entries {
        assert Merge(a, b).entries[k] == a.entries[k];
      }
    }
  }

  lemma NonDictOrEmpty(x: Value, y: Value)
    ensures !x.Dict? ==> Merge(x, y) == Merge(EmptyDict, y)
  {
  }

  // ---------- Any number of sources ----------

  ghost predicate AllDicts(sources: seq<Value>) {
    forall s <- sources :: s.Dict?
  }

  /** Source i is the last to touch the path. */
  ghost predicate LastTouch(sources: seq<Value>, i: nat, path: seq<string>) {
    i < |sources| && Touches(sources[i], path) && forall j | i < j < |sources| :: !Touches(sources[j], path)
  }

  lemma {:induction false} MergeAllIsDict(sources: seq<Value>)
    requires AllDicts(sources)
    ensures MergeAll(sources).Dict?
  {
  }

  /**
   The last source that touches a path decides: if it puts a non-dictionary there, that is the value; if it puts a
   dictionary there, a dictionary; if it blocks the path by a non-dictionary above it, there is none.  A path that no
   source touches is undefined.
   */
  lemma {:induction false} LastTouchDecides(sources: seq<Value>, path: seq<string>)
    requires AllDicts(sources) && path != []
    ensures (forall s <- sources :: !Touches(s, path)) ==> Find(MergeAll(sources), path) == None
    ensures forall i: nat | LastTouch(sources, i, path) ::
              var mine := Find(sources[i], path);
              var merged := Find(MergeAll(sources), path);
              if mine.Some? && mine.value.Dict? then merged.Some? && merged.value.Dict? else merged == mine
    decreases |sources|
  {
    if sources != [] {
      var n := |sources| - 1;
      var earlier, last := sources[..n], sources[n];
      assert sources == earlier + [last];
      LastTouchDecides(earlier, path);
      MergeAllIsDict(earlier);
      MergedPath(MergeAll(earlier), last, path);
      forall i: nat | LastTouch(sources, i, path)
        ensures var mine := Find(sources[i], path);
                var merged := Find(MergeAll(sources), path);
                if mine.Some? && mine.value.Dict? then merged.Some? && merged.value.Dict? else merged == mine
      {
        if i < n {
          assert !Touches(sources[n], path);
          assert LastTouch(earlier, i, path);
        }
      }
      if forall s <- sources :: !Touches(s, path) {
        assert forall s <- earlier :: s in sources;
        assert last in sources;
      }
    }
  }

  /** A leaf of the merged configuration: it is what the last source to touch its path has there, and conversely. */
  lemma LeafIsLastDefinition(sources: seq<Value>, path: seq<string>, leaf: Value)
    requires AllDicts(sources) && path != [] && !leaf.Dict?
    ensures Find(MergeAll(sources), path) == Some(leaf)
        <==> exists i: nat :: LastTouch(sources, i, path) && Find(sources[i], path) == Some(leaf)
  {
    LastTouchDecides(sources, path);
    if Find(MergeAll(sources), path) == Some(leaf) {
      var i := FindLastTouch(sources, path);
      assert LastTouch(sources, i, path);
    }
  }

  lemma {:induction false} FindLastTouch(sources: seq<Value>, path: seq<string>) returns (i: nat)
    requires !(forall s <- sources :: !Touches(s, path))
    ensures LastTouch(sources, i, path)
    decreases |sources|
  {
    var n := |sources| - 1;
    if Touches(sources[n], path) {
      i := n;
    } else {
      assert sources == sources[..n] + [sources[n]];
      i := FindLastTouch(sources[..n], path);
      forall j | i < j < |sources| ensures !Touches(sources[j], path) {
        if j < n { assert sources[j] == sources[..n][j]; }
      }
    }
  }

  // ---------- Lookup by key ----------

  /** An own property: a key of a dictionary, or an index or the length of an array. */
  ghost predicate Owns(v: Value, part: string, w: Value) {
    match v
    case Dict(entries) => part in entries && entries[part] == w
    case Items(values) =>
      (part == "length" && w == Number(|values|)) ||
      exists i | 0 <= i < |values| :: Decimal(i) == part && values[i] == w
    case _ => false
  }

  lemma OwnsOne(v: Value, part: string, w: Value, x: Value)
    requires Owns(v, part, w) && Owns(v, part, x)
    ensures w == x
  {
    if v.Items? && part != "length" {
      var i :| 0 <= i < |v.values| && Decimal(i) == part && v.values[i] == w;
      var j :| 0 <= j < |v.values| && Decimal(j) == part && v.values[j] == x;
      DecimalInjective(i, j);
    } else if v.Items? {
      forall i | 0 <= i < |v.values| ensures Decimal(i) != part { NoIndexIsLength(i); }
    }
  }

  function IndexNamed(values: seq<Value>, part: string, from: nat): Option<Value>
    requires from <= |values|
    decreases |values| - from
  {
    if from == |values| then None
    else if Decimal(from) == part then Some(values[from])
    else IndexNamed(values, part, from + 1)
  }

  /** The own property of that name. */
  function OwnProperty(v: Value, part: string): Option<Value> {
    match v
    case Dict(entries) => if part in entries then Some(entries[part]) else None
    case Items(values) => if part == "length" then Some(Number(|values|)) else IndexNamed(values, part, 0)
    case _ => None
  }

  lemma {:induction false} IndexNamedIsIndex(values: seq<Value>, part: string, from: nat)
    requires from <= |values|
    ensures var r := IndexNamed(values, part, from);
            && (r.Some? ==> exists i | from <= i < |values| :: Decimal(i) == part && values[i] == r.value)
            && (r.None? ==> forall i | from <= i < |values| :: Decimal(i) != part)
    decreases |values| - from
  {
    if from < |values| && Decimal(from) != part { IndexNamedIsIndex(values, part, from + 1); }
  }

  lemma NoIndexIsLength(i: nat)
    ensures Decimal(i) != "length"
  {
    assert Decimal(i)[0] in Decimal(i);
    assert "length"[0] == 'l' && !IsDigit('l');
  }

  lemma OwnPropertyOwns(v: Value, part: string)
    ensures forall w :: Owns(v, part, w) <==> OwnProperty(v, part) == Some(w)
  {
    forall w ensures Owns(v, part, w) <==> OwnProperty(v, part) == Some(w) {
      if v.Items? {
        IndexNamedIsIndex(v.values, part, 0);
        if part == "length" {
          forall i | 0 <= i < |v.values| ensures Decimal(i) != part { NoIndexIsLength(i); }
        } else if OwnProperty(v, part).Some? {
          var x := OwnProperty(v, part).value;
          assert Owns(v, part, x);
          if Owns(v, part, w) { OwnsOne(v, part, w, x); }
        }
      }
    }
  }

  /** Following the parts one own property at a time. */
  ghost predicate Walks(v: Value, parts: seq<string>, w: Value)
    decreases |parts|
  {
    if parts == [] then v == w else exists x :: Owns(v, parts[0], x) && Walks(x, parts[1..], w)
  }

  /** A key resolves as a whole if the configuration has it, and otherwise part by part. */
  ghost predicate Resolves(config: Value, key: string, r: Option<Value>)
    requires config.Dict?
  {
    if key in config.entries then r == Some(config.entries[key])
    else if r.Some? then Walks(config, Split(key, '.'), r.value)
    else forall w :: !Walks(config, Split(key, '.'), w)
  }

  /** Where the parts lead, if every one of them is an own property of what came before. */
  function Follow(v: Value, parts: seq<string>): Option<Value>
    decreases |parts|
  {
    if parts == [] then Some(v)
    else if OwnProperty(v, parts[0]).None? then None
    else Follow(OwnProperty(v, parts[0]).value, parts[1..])
  }

  lemma {:induction false} FollowWalks(v: Value, parts: seq<string>, w: Value)
    ensures Walks(v, parts, w) <==> Follow(v, parts) == Some(w)
    decreases |parts|
  {
    if parts != [] {
      OwnPropertyOwns(v, parts[0]);
      if Walks(v, parts, w) {
        var x :| Owns(v, parts[0], x) && Walks(x, parts[1..], w);
        FollowWalks(x, parts[1..], w);
      } else if OwnProperty(v, parts[0]).Some? {
        FollowWalks(OwnProperty(v, parts[0]).value, parts[1..], w);
      }
    }
  }

  /** The first parts may be followed through dictionaries only. */
  lemma {:induction false} FollowFrom(v: Value, path: seq<string>, k: nat)
    requires k <= |path| && Find(v, path[..k]).Some?
    ensures Follow(v, path) == Follow(Find(v, path[..k]).value, path[k..])
    decreases k
  {
    if k > 0 {
      var rest := path[1..];
      assert path[..k][1..] == rest[..k - 1] && path[k..] == rest[k - 1..];
      FollowFrom(v.entries[path[0]], rest, k - 1);
    } else {
      assert path[0..] == path;
    }
  }

  /** No key of the configuration itself contains a dot. */
  predicate DotFree(config: Value)
    requires config.Dict?
  {
    forall k <- config.entries :: '.' !in k
  }

  lemma {:induction false} JoinHasDot(path: seq<string>)
    requires |path| >= 2
    ensures '.' in Join(path, '.')
  {
    assert Join(path, '.')[|path[0]|] == '.';
  }

  /** The path leads into an array. */
  predicate ThroughArray(v: Value, path: seq<string>) {
    path != [] && (v.Items? || (v.Dict? && path[0] in v.entries && ThroughArray(v.entries[path[0]], path[1..])))
  }

  lemma {:induction false} FollowIsFind(v: Value, path: seq<string>)
    requires !ThroughArray(v, path)
    ensures Follow(v, path) == Find(v, path)
    decreases |path|
  {
    if path != [] && v.Dict? && path[0] in v.entries { FollowIsFind(v.entries[path[0]], path[1..]); }
  }

  lemma DottedKeyIsFollowed(config: Value, path: seq<string>, r: Option<Value>)
    requires config.Dict? && DotFree(config) && path != [] && forall part <- path :: '.' !in part
    requires Resolves(config, Join(path, '.'), r)
    ensures r == Follow(config, path)
  {
    SplitJoin(path, '.');
    if |path| >= 2 { JoinHasDot(path); } else { assert path[1..] == []; }
    if r.Some? { FollowWalks(config, path, r.value); }
    if Follow(config, path).Some? { FollowWalks(config, path, Follow(config, path).value); }
  }

  /**
   With dot-free keys, a dotted key yields what the path of its parts has in the merged configuration.  Where the path
   leads into an array, it is the array of the last source to touch that prefix, followed by index from there.
   */
  lemma DottedKeyIsPath(sources: seq<Value>, path: seq<string>, r: Option<Value>)
    requires AllDicts(sources) && path != [] && forall part <- path :: '.' !in part
    requires MergeAll(sources).Dict? && DotFree(MergeAll(sources))
    requires Resolves(MergeAll(sources), Join(path, '.'), r)
    ensures !ThroughArray(MergeAll(sources), path) ==> r == Find(MergeAll(sources), path)
    ensures forall k, i: nat | 0 < k <= |path| && LastTouch(sources, i, path[..k]) ::
              var mine := Find(sources[i], path[..k]);
              mine.Some? && mine.value.Items? ==> r == Follow(mine.value, path[k..])
  {
    var config := MergeAll(sources);
    DottedKeyIsFollowed(config, path, r);
    if !ThroughArray(config, path) { FollowIsFind(config, path); }
    forall k, i: nat | 0 < k <= |path| && LastTouch(sources, i, path[..k])
      ensures var mine := Find(sources[i], path[..k]);
              mine.Some? && mine.value.Items? ==> r == Follow(mine.value, path[k..])
    {
      ArrayIsFollowed(sources, path, k, i);
    }
  }

  lemma ArrayIsFollowed(sources: seq<Value>, path: seq<string>, k: nat, i: nat)
    requires AllDicts(sources) && 0 < k <= |path| && LastTouch(sources, i, path[..k])
    ensures var mine := Find(sources[i], path[..k]);
            mine.Some? && mine.value.Items? ==> Follow(MergeAll(sources), path) == Follow(mine.value, path[k..])
  {
    LastTouchDecides(sources, path[..k]);
    if Find(MergeAll(sources), path[..k]).Some? { FollowFrom(MergeAll(sources), path, k); }
  }
}
