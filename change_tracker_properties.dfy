/**
 * Properties of the path scheme and of appending to the change log.
 */
module ChangeTrackerProperties {
  import opened JsonTree
  import opened ChangeTracker

  // ---------------------------------------------------------------- paths

  lemma {:induction false} NatToDecimalInjective(a: nat, b: nat)
    requires NatToDecimal(a) == NatToDecimal(b)
    ensures a == b
    decreases a
  {
    var sa, sb := NatToDecimal(a), NatToDecimal(b);
    assert sa[|sa| - 1] == '0' + (a % 10) as char;
    assert sb[|sb| - 1] == '0' + (b % 10) as char;
    assert a % 10 == b % 10;
    if a >= 10 && b >= 10 {
      assert sa[..|sa| - 1] == NatToDecimal(a / 10);
      assert sb[..|sb| - 1] == NatToDecimal(b / 10);
      NatToDecimalInjective(a / 10, b / 10);
    }
  }

  /** Distinct indices give distinct decimal names. */
  lemma IntToDecimalInjective(i: int, j: int)
    requires IntToDecimal(i) == IntToDecimal(j)
    ensures i == j
  {
    var si, sj := IntToDecimal(i), IntToDecimal(j);
    assert i >= 0 ==> si[0] in NatToDecimal(i);
    assert j >= 0 ==> sj[0] in NatToDecimal(j);
    if i < 0 && j < 0 {
      assert si[1..] == NatToDecimal(-i) && sj[1..] == NatToDecimal(-j);
      NatToDecimalInjective(-i, -j);
    } else if 0 <= i && 0 <= j {
      NatToDecimalInjective(i, j);
    }
  }

  /**
   * Path composition is injective: as long as property names do not contain
   * the delimiter, two (parent, name) pairs that give the same path are equal.
   */
  lemma PushPropertyInjective(p1: string, n1: string, p2: string, n2: string)
    requires Delimiter !in n1 && Delimiter !in n2
    requires PushProperty(p1, n1) == PushProperty(p2, n2)
    ensures p1 == p2 && n1 == n2
  {
    var r := PushProperty(p1, n1);
    if |p1| > 0 {
      LastDelimiter(p1, n1);
    }
    if |p2| > 0 {
      LastDelimiter(p2, n2);
    }
    if |p1| > 0 && |p2| > 0 {
      assert |p1| == |p2|;
      assert p1 == r[..|p1|] == p2;
      assert n1 == r[|p1| + 1..] == n2;
    }
  }

  /** Below a non-root parent, the delimiter after the parent's path is the path's last one. */
  lemma LastDelimiter(p: string, n: string)
    requires |p| > 0 && Delimiter !in n
    ensures PushProperty(p, n)[|p|] == Delimiter
    ensures forall k :: |p| < k < |PushProperty(p, n)| ==> PushProperty(p, n)[k] != Delimiter
  {
    var r := PushProperty(p, n);
    forall k | |p| < k < |r| ensures r[k] != Delimiter {
      assert r[k] == n[k - |p| - 1];
    }
  }

  /** Index composition is injective as well. */
  lemma PushIndexInjective(p1: string, i1: int, p2: string, i2: int)
    requires PushIndex(p1, i1) == PushIndex(p2, i2)
    ensures p1 == p2 && i1 == i2
  {
    PushPropertyInjective(p1, IntToDecimal(i1), p2, IntToDecimal(i2));
    IntToDecimalInjective(i1, i2);
  }

  /**
   * The proper ancestors of a child's path are exactly its parent's path and
   * the parent's own proper ancestors. Excluded: a name containing the
   * delimiter, and the empty name under the root, whose path is the root's.
   */
  lemma PushPropertyAncestors(a: string, p: string, n: string)
    requires Delimiter !in n
    requires |p| == 0 ==> |n| > 0
    ensures IsProperAncestor(a, PushProperty(p, n)) <==> a == p || IsProperAncestor(a, p)
  {
    var c := PushProperty(p, n);
    if |p| == 0 {
      if |a| > 0 && |a| < |c| && c[..|a|] == a {
        assert c[|a|] in n;
      }
    } else {
      assert c[..|p|] == p && c[|p|] == Delimiter;
      if |a| > 0 && |a| < |p| {
        assert c[..|a|] == p[..|a|] && c[|a|] == p[|a|];
      } else if |a| > |p| && |a| < |c| {
        assert c[|a|] == n[|a| - |p| - 1];
      }
    }
  }

  // ---------------------------------------------------------------- appending

  lemma TryGetChangeAppend(log: seq<Change>, c: Change, path: string, mark: int)
    ensures TryGetChange(log + [c], path, mark)
         == if Matches(c, path, mark) then Some(c) else TryGetChange(log, path, mark)
  {
    assert (log + [c])[..|log|] == log;
  }

  lemma AncestorChangedAppend(log: seq<Change>, c: Change, path: string, mark: int)
    ensures AncestorChanged(log + [c], path, mark) == (Invalidates(c, path, mark) || AncestorChanged(log, path, mark))
  {
    assert (log + [c])[..|log|] == log;
  }

  lemma DescendantChangedAppend(log: seq<Change>, c: Change, path: string, mark: int)
    ensures DescendantChanged(log + [c], path, mark) == (TouchesDescendant(c, path, mark) || DescendantChanged(log, path, mark))
  {
    assert (log + [c])[..|log|] == log;
  }

  /**
   * Snapshot isolation: entries at or below a view's high-water mark are
   * already reflected in its element and never influence its lookups.
   */
  lemma {:induction false} EntriesUpToMarkAreIgnored(log: seq<Change>, later: seq<Change>, path: string, mark: int)
    requires WellFormedLog(log + later)
    requires |log| - 1 <= mark
    ensures TryGetChange(log + later, path, mark) == TryGetChange(later, path, mark)
    ensures AncestorChanged(log + later, path, mark) == AncestorChanged(later, path, mark)
    ensures DescendantChanged(log + later, path, mark) == DescendantChanged(later, path, mark)
    decreases |later|
  {
    if later == [] {
      assert log + later == log;
      assert forall i :: 0 <= i < |log| ==> log[i].index == i && (log + later)[i] == log[i];
    } else {
      var front, c := later[..|later| - 1], later[|later| - 1];
      assert log + later == (log + front) + [c];
      assert later == front + [c];
      assert WellFormedLog(log + front) by {
        forall i | 0 <= i < |log + front| ensures (log + front)[i] == (log + later)[i] {}
      }
      EntriesUpToMarkAreIgnored(log, front, path, mark);
      TryGetChangeAppend(log + front, c, path, mark);
      TryGetChangeAppend(front, c, path, mark);
      AncestorChangedAppend(log + front, c, path, mark);
      AncestorChangedAppend(front, c, path, mark);
      DescendantChangedAppend(log + front, c, path, mark);
      DescendantChangedAppend(front, c, path, mark);
    }
  }
}
