/** Generic facts about sequences that several parts of the engine share:
    occurrence counts, duplicate-freedom, order-preserving deduplication
    and flattening. */
module Seqs {

  /** Number of occurrences of `x` in `s`. */
  function Count<T(==)>(s: seq<T>, x: T): (n: nat)
    ensures n <= |s|
    ensures n > 0 <==> x in s
  {
    if s == [] then 0
    else
      assert s == s[..|s| - 1] + [s[|s| - 1]];
      Count(s[..|s| - 1], x) + (if s[|s| - 1] == x then 1 else 0)
  }

  lemma CountSnoc<T>(s: seq<T>, x: T, w: T)
    ensures Count(s + [x], w) == Count(s, w) + (if x == w then 1 else 0)
  {
    assert (s + [x])[..|s|] == s;
  }

  /** No element occurs twice. */
  ghost predicate NoDup<T>(s: seq<T>) {
    forall i, j :: 0 <= i < j < |s| ==> s[i] != s[j]
  }

  /** The index of the first occurrence of `x` in `s`. */
  function FirstIndex<T(==)>(s: seq<T>, x: T): (i: nat)
    requires x in s
    ensures i < |s| && s[i] == x && x !in s[..i]
  {
    if s[0] == x then 0
    else
      var i := 1 + FirstIndex(s[1..], x);
      assert s[..i] == [s[0]] + s[1..][..i - 1];
      i
  }

  /** The elements of `s` in order of first occurrence, each once. */
  function Unique<T(==)>(s: seq<T>): (u: seq<T>)
    ensures NoDup(u)
    ensures forall i :: 0 <= i < |u| ==> u[i] in s
    ensures forall i :: 0 <= i < |s| ==> s[i] in u
    ensures |u| <= |s|
  {
    if s == [] then []
    else
      var u := Unique(s[..|s| - 1]);
      assert s == s[..|s| - 1] + [s[|s| - 1]];
      if s[|s| - 1] in u then u else u + [s[|s| - 1]]
  }

  lemma FirstIndexOfPrefix<T>(s: seq<T>, n: nat, x: T)
    requires n <= |s| && x in s[..n]
    ensures FirstIndex(s, x) == FirstIndex(s[..n], x)
  {
    var i, j := FirstIndex(s, x), FirstIndex(s[..n], x);
    assert forall k :: 0 <= k < j ==> s[..n][..j][k] == s[k];
    assert forall k :: 0 <= k < i ==> s[..i][k] == s[k];
  }

  /** Unique lists the elements in order of their first occurrence. */
  lemma {:induction false} UniqueFirstSeenOrder<T>(s: seq<T>)
    ensures forall i, j :: 0 <= i < j < |Unique(s)| ==>
      FirstIndex(s, Unique(s)[i]) < FirstIndex(s, Unique(s)[j])
  {
    if s != [] {
      var p := s[..|s| - 1];
      var x := s[|s| - 1];
      UniqueFirstSeenOrder(p);
      var u, up := Unique(s), Unique(p);
      assert s[..|s| - 1] == p;
      forall i, j | 0 <= i < j < |u|
        ensures FirstIndex(s, u[i]) < FirstIndex(s, u[j])
      {
        assert u[i] in up;
        assert u[i] in p;
        FirstIndexOfPrefix(s, |p|, u[i]);
        if j < |up| {
          assert u[j] == up[j];
          FirstIndexOfPrefix(s, |p|, u[j]);
        } else {
          assert u[j] == x && x !in p;
          assert FirstIndex(s, x) == |p|;
        }
      }
    }
  }

  /** Deduplicating a duplicate-free sequence changes nothing. */
  lemma {:induction false} UniqueOfNoDup<T>(s: seq<T>)
    requires NoDup(s)
    ensures Unique(s) == s
  {
    if s != [] {
      var p, x := s[..|s| - 1], s[|s| - 1];
      forall i, j | 0 <= i < j < |p| ensures p[i] != p[j] {
        assert p[i] == s[i] && p[j] == s[j];
      }
      UniqueOfNoDup(p);
      forall i | 0 <= i < |p| ensures p[i] != x {
        assert p[i] == s[i];
      }
      assert x !in Unique(p);
      SplitLast(s);
    }
  }

  /** Deduplication is idempotent. */
  lemma UniqueIdempotent<T>(s: seq<T>)
    ensures Unique(Unique(s)) == Unique(s)
  {
    UniqueOfNoDup(Unique(s));
  }

  /** Deduplication commutes with appending one element. */
  lemma UniqueSnoc<T>(s: seq<T>, x: T)
    ensures Unique(s + [x]) == if x in s then Unique(s) else Unique(s) + [x]
  {
    assert (s + [x])[..|s + [x]| - 1] == s;
  }

  /** Extending a slice by the next element. */
  lemma SliceSnoc<T>(s: seq<T>, lo: nat, i: nat)
    requires lo <= i < |s|
    ensures s[lo..i + 1] == s[lo..i] + [s[i]]
    ensures s[..i + 1] == s[..i] + [s[i]]
  {
  }

  lemma SplitLast<T>(b: seq<T>)
    requires b != []
    ensures b == b[..|b| - 1] + [b[|b| - 1]]
  {
  }

  lemma AppendSplitLast<T>(a: seq<T>, b: seq<T>)
    requires b != []
    ensures (a + b[..|b| - 1]) + [b[|b| - 1]] == a + b
  {
    assert b == b[..|b| - 1] + [b[|b| - 1]];
  }

  lemma AppendAssoc<T>(a: seq<T>, b: seq<T>, c: seq<T>)
    ensures (a + b) + c == a + (b + c)
  {
  }

  /** All the sequences of `ss`, one after the other. */
  function Flatten<T>(ss: seq<seq<T>>): (r: seq<T>)
  {
    if ss == [] then [] else Flatten(ss[..|ss| - 1]) + ss[|ss| - 1]
  }

  /** Every element of every part occurs in the flattened sequence. */
  lemma {:induction false} InFlatten<T>(ss: seq<seq<T>>, i: nat, x: T)
    requires i < |ss| && x in ss[i]
    ensures x in Flatten(ss)
  {
    if i < |ss| - 1 {
      InFlatten(ss[..|ss| - 1], i, x);
    }
  }

  lemma FlattenExtendLast<T>(ss: seq<seq<T>>, x: T)
    requires ss != []
    ensures Flatten(ss[..|ss| - 1] + [ss[|ss| - 1] + [x]]) == Flatten(ss) + [x]
  {
    var p, l := ss[..|ss| - 1], ss[|ss| - 1];
    var ss' := p + [l + [x]];
    assert ss'[..|ss'| - 1] == p && ss'[|ss'| - 1] == l + [x];
    assert Flatten(ss') == Flatten(p) + (l + [x]);
    assert Flatten(ss) == Flatten(p) + l;
    AppendAssoc(Flatten(p), l, [x]);
  }

  lemma FlattenSnocEmpty<T>(ss: seq<seq<T>>)
    ensures Flatten(ss + [[]]) == Flatten(ss)
  {
    assert (ss + [[]])[..|ss|] == ss;
  }
}
