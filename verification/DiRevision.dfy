/** Lineage revision strings: the decimal graph revisions of a container's ancestors, root first, joined by slashes. */
module DiRevision {
  import opened Text

  /** The revisions are listed from the container itself up to the root. */
  function RevisionString(revisions: seq<nat>): string
    requires revisions != []
  {
    if |revisions| == 1 then Decimal(revisions[0])
    else RevisionString(revisions[1..]) + "/" + Decimal(revisions[0])
  }

  lemma LastSlashSplits(x: string, d: string, y: string, e: string)
    requires x + "/" + d == y + "/" + e && '/' !in d && '/' !in e
    ensures x == y && d == e
  {
    var s := x + "/" + d;
    assert s[|x|] == '/' && s[|y|] == '/';
    assert forall i | |x| < i < |s| :: s[i] == d[i - |x| - 1];
    assert forall i | |y| < i < |s| :: s[i] == e[i - |y| - 1];
    assert |x| == |y|;
    assert x == s[..|x|] && y == s[..|y|];
    assert d == s[|x| + 1..] && e == s[|y| + 1..];
  }

  /**
   For one container, whose number of ancestors is fixed, the string determines every revision on the way to the root.
   */
  lemma {:induction false} RevisionStringInjective(a: seq<nat>, b: seq<nat>)
    requires a != [] && |a| == |b| && RevisionString(a) == RevisionString(b)
    ensures a == b
  {
    if |a| == 1 {
      DecimalInjective(a[0], b[0]);
    } else {
      LastSlashSplits(RevisionString(a[1..]), Decimal(a[0]), RevisionString(b[1..]), Decimal(b[0]));
      DecimalInjective(a[0], b[0]);
      RevisionStringInjective(a[1..], b[1..]);
      assert a == [a[0]] + a[1..] && b == [b[0]] + b[1..];
    }
  }
}
