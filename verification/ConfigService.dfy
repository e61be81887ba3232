/** The configuration service: key lookup in the current snapshot. */
module ConfigService {
  import opened Options
  import opened ConfigMerge
  import opened Text

  class Service {
    var values: Value

    constructor (values: Value)
      requires values.Dict?
      ensures this.values == values
    {
      this.values := values;
    }

    /** The whole key first, then its dotted parts one own property at a time. */
    method Resolve(key: string) returns (r: Option<Value>)
      requires values.Dict?
      ensures Resolves(values, key, r)
    {
      if key in values.entries {
        return Some(values.entries[key]);
      }
      var parts := Split(key, '.');
      var current := values;
      assert parts[0..] == parts;
      for i := 0 to |parts|
        invariant forall w :: Walks(values, parts, w) <==> Walks(current, parts[i..], w)
      {
        OwnPropertyOwns(current, parts[i]);
        assert parts[i..][0] == parts[i] && parts[i..][1..] == parts[i + 1..];
        var next := OwnProperty(current, parts[i]);
        if next.None? {
          return None;
        }
        current := next.value;
      }
      assert parts[|parts|..] == [];
      assert Walks(current, [], current);
      r := Some(current);
    }
  }
}
