/** Facts about sequences, sets and multisets used by the routing proofs. */
module Seqs {

  /** No element occurs twice. */
  predicate Distinct<T(==)>(s: seq<T>) {
    forall i, j :: 0 <= i < j < |s| ==> s[i] != s[j]
  }

  /** The set of elements of a sequence. */
  function Elems<T>(s: seq<T>): set<T> {
    set x | x in s
  }

  /** A sequence never has more distinct elements than positions, and has
      exactly as many precisely when it repeats nothing. */
  lemma {:induction false} CardOfSet<T>(s: seq<T>)
    ensures |Elems(s)| <= |s|
    ensures |Elems(s)| == |s| <==> Distinct(s)
    decreases |s|
  {
    if s != [] {
      var init, x := s[..|s| - 1], s[|s| - 1];
      assert s == init + [x];
      assert Elems(s) == Elems(init) + {x};
      CardOfSet(init);
      if x in init {
        var k :| 0 <= k < |init| && init[k] == x;
        assert s[k] == s[|s| - 1];
      } else {
        assert Distinct(s) <==> Distinct(init);
      }
    }
  }

  /** In a sequence without repetitions every element occurs exactly once. */
  lemma {:induction false} DistinctMultiplicity<T>(s: seq<T>, x: T)
    requires Distinct(s)
    ensures multiset(s)[x] == if x in s then 1 else 0
    decreases |s|
  {
    if s != [] {
      var init := s[..|s| - 1];
      assert s == init + [s[|s| - 1]];
      assert Distinct(init);
      DistinctMultiplicity(init, x);
    }
  }

  /** Two sequences without repetitions over the same elements are
      permutations of each other. */
  lemma DistinctSameSet<T>(a: seq<T>, b: seq<T>)
    requires Distinct(a) && Distinct(b) && Elems(a) == Elems(b)
    ensures multiset(a) == multiset(b)
  {
    forall x ensures multiset(a)[x] == multiset(b)[x] {
      DistinctMultiplicity(a, x);
      DistinctMultiplicity(b, x);
      assert x in a <==> x in Elems(a);
      assert x in b <==> x in Elems(b);
    }
  }

  /** The elements of a sequence of sequences, in order. */
  function Concat<T>(ss: seq<seq<T>>): (r: seq<T>)
    decreases |ss|
  {
    if ss == [] then [] else Concat(ss[..|ss| - 1]) + ss[|ss| - 1]
  }

  /** Appending one element to one of the inner sequences adds exactly that
      element to the flattened contents. */
  lemma {:induction false} ConcatAppendAt<T>(ss: seq<seq<T>>, i: nat, x: T)
    requires i < |ss|
    ensures multiset(Concat(ss[i := ss[i] + [x]])) == multiset(Concat(ss)) + multiset{x}
    decreases |ss|
  {
    var ss' := ss[i := ss[i] + [x]];
    var n := |ss| - 1;
    assert Concat(ss') == Concat(ss'[..n]) + ss'[n];
    assert Concat(ss) == Concat(ss[..n]) + ss[n];
    if i < n {
      assert ss'[..n] == ss[..n][i := ss[..n][i] + [x]];
      ConcatAppendAt(ss[..n], i, x);
      assert ss'[n] == ss[n];
    } else {
      assert ss'[..n] == ss[..n];
      assert multiset(ss'[n]) == multiset(ss[n]) + multiset{x};
    }
  }

  /** Every entry of `s` is below `n` (a list of valid indices). */
  predicate AllBelow(s: seq<nat>, n: nat) {
    forall k :: 0 <= k < |s| ==> s[k] < n
  }

  /** The position of the first occurrence of `x` in `s`. */
  function FirstIndex<T(==)>(s: seq<T>, x: T): (k: nat)
    requires x in s
    ensures k < |s| && s[k] == x && x !in s[..k]
  {
    if s[0] == x then 0
    else
      var k := FirstIndex(s[1..], x);
      assert s[..k + 1] == [s[0]] + s[1..][..k];
      k + 1
  }

  /** `s` without its first occurrence of `x` (Java's List.remove(Object)). */
  function RemoveFirst<T(==)>(s: seq<T>, x: T): (r: seq<T>)
    ensures x in s ==> |r| == |s| - 1 && multiset(r) == multiset(s) - multiset{x}
    ensures x !in s ==> r == s
  {
    if s == [] then []
    else
      assert s == [s[0]] + s[1..];
      if s[0] == x then s[1..] else [s[0]] + RemoveFirst(s[1..], x)
  }

  /** RemoveFirst drops exactly the first occurrence of `x`; the elements
      before and after it keep their order. */
  lemma {:induction false} RemoveFirstDropsFirst<T>(s: seq<T>, x: T)
    ensures x in s ==> RemoveFirst(s, x) == s[..FirstIndex(s, x)] + s[FirstIndex(s, x) + 1..]
    decreases |s|
  {
    if x in s {
      if s[0] == x {
        assert s[..0] == [];
      } else {
        assert x in s[1..] by { assert s == [s[0]] + s[1..]; }
        RemoveFirstDropsFirst(s[1..], x);
        DropAfterHead(s, FirstIndex(s[1..], x));
      }
    }
  }

  /** Dropping position k of the tail of `s` is dropping position k + 1 of `s`. */
  lemma DropAfterHead<T>(s: seq<T>, k: nat)
    requires k + 1 < |s|
    ensures [s[0]] + (s[1..][..k] + s[1..][k + 1..]) == s[..k + 1] + s[k + 2..]
  {
    assert s[..k + 1] == [s[0]] + s[1..][..k];
    assert s[k + 2..] == s[1..][k + 1..];
  }

  /** Flattening a list of empty lists gives the empty list. */
  lemma {:induction false} EmptyConcat<T>(ss: seq<seq<T>>)
    requires forall i :: 0 <= i < |ss| ==> ss[i] == []
    ensures Concat(ss) == []
    decreases |ss|
  {
    if ss != [] {
      EmptyConcat(ss[..|ss| - 1]);
    }
  }

  /** Removing an element that only occurs at the very end removes that end. */
  lemma {:induction false} RemoveFirstOfLast<T>(s: seq<T>, x: T)
    requires x !in s
    ensures RemoveFirst(s + [x], x) == s
    decreases |s|
  {
    if s != [] {
      assert (s + [x])[1..] == s[1..] + [x];
      RemoveFirstOfLast(s[1..], x);
    }
  }

  /** A subset is no larger than its superset. */
  lemma {:induction false} SubsetCardLe<T>(a: set<T>, b: set<T>)
    requires a <= b
    ensures |a| <= |b|
    decreases a
  {
    if a != {} {
      var x :| x in a;
      SubsetCardLe(a - {x}, b - {x});
    }
  }

  /** A subset at least as large as its superset is the superset. */
  lemma SubsetCardEq<T>(a: set<T>, b: set<T>)
    requires a <= b && |a| >= |b|
    ensures a == b
  {
    if a != b {
      var x :| x in b && x !in a;
      SubsetCardLe(a, b - {x});
    }
  }
}
