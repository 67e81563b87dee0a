/** Ranking order for score items: both the document ranking and the
    sentence ranking sort a slice in place with `sort.Slice` and the
    comparator "score of i greater than score of j". */
module Sorting {
  import opened Ext

  /** Scores never increase from one item to a later one. */
  ghost predicate SortedByScore(s: seq<ScoreItem>) {
    forall i, j :: 0 <= i < j < |s| ==> s[i].score >= s[j].score
  }

  /** Sorts by non-increasing score, in place. Items with equal scores may
      end up in any order, as with `sort.Slice`. */
  method SortByScore(a: array<ScoreItem>)
    modifies a
    ensures SortedByScore(a[..])
    ensures multiset(a[..]) == multiset(old(a[..]))
  {
    var i := 0;
    while i < a.Length
      invariant 0 <= i <= a.Length
      invariant SortedByScore(a[..i])
      invariant multiset(a[..]) == multiset(old(a[..]))
    {
      InsertLast(a, i);
      i := i + 1;
    }
    assert a[..a.Length] == a[..];
  }

  /** Moves `a[i]` left past every item of the sorted prefix `a[..i]` that
      scores lower. */
  method InsertLast(a: array<ScoreItem>, i: nat)
    requires i < a.Length
    requires SortedByScore(a[..i])
    modifies a
    ensures SortedByScore(a[..i + 1])
    ensures multiset(a[..]) == multiset(old(a[..]))
    ensures forall k :: i < k < a.Length ==> a[k] == old(a[k])
  {
    var j := i;
    while j > 0 && a[j - 1].score < a[j].score
      invariant 0 <= j <= i
      invariant forall p, q :: 0 <= p < q <= i && q != j ==> a[p].score >= a[q].score
      invariant multiset(a[..]) == multiset(old(a[..]))
      invariant forall k :: i < k < a.Length ==> a[k] == old(a[k])
    {
      Swap(a, j - 1, j);
      j := j - 1;
    }
  }

  method Swap(a: array<ScoreItem>, i: nat, j: nat)
    requires i < j < a.Length
    modifies a
    ensures a[i] == old(a[j]) && a[j] == old(a[i])
    ensures forall k :: 0 <= k < a.Length && k != i && k != j ==> a[k] == old(a[k])
    ensures multiset(a[..]) == multiset(old(a[..]))
  {
    a[i], a[j] := a[j], a[i];
  }

  /** A slice built by appending, then sorted in place by score. */
  method SortedCopy(items: seq<ScoreItem>) returns (sorted: seq<ScoreItem>)
    ensures SortedByScore(sorted)
    ensures |sorted| == |items| && multiset(sorted) == multiset(items)
  {
    var a := new ScoreItem[|items|](k requires 0 <= k < |items| => items[k]);
    assert a[..] == items;
    SortByScore(a);
    sorted := a[..];
  }
}
