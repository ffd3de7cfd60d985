/** Strictly increasing integer sequences: the sorted enumeration of a finite set of ids. */
module SortedSeqs {

  predicate StrictlyIncreasing(s: seq<int>) {
    forall i, j :: 0 <= i < j < |s| ==> s[i] < s[j]
  }

  /** Putting an element below everything in a sorted sequence keeps it sorted. */
  lemma ConsIncreasing(a: int, r: seq<int>)
    requires StrictlyIncreasing(r)
    requires forall x :: x in r ==> a < x
    ensures StrictlyIncreasing([a] + r)
  {
    forall i, j | 0 <= i < j < |[a] + r| ensures ([a] + r)[i] < ([a] + r)[j] {
      assert ([a] + r)[j] == r[j - 1];
      if i == 0 {
        assert r[j - 1] in r;
      } else {
        assert ([a] + r)[i] == r[i - 1];
      }
    }
  }

  /** The integers lo, lo + 1, ..., hi, like Python's `range(lo, hi + 1)`. */
  function Interval(lo: int, hi: int): (r: seq<int>)
    ensures StrictlyIncreasing(r)
    ensures forall x :: x in r <==> lo <= x <= hi
    ensures |r| == if lo <= hi then hi - lo + 1 else 0
  {
    if lo > hi then []
    else
      var r := seq(hi - lo + 1, i requires 0 <= i <= hi - lo => lo + i);
      forall x | lo <= x <= hi ensures x in r {
        assert r[x - lo] == x;
      }
      r
  }

  /** Union of two sorted enumerations, again sorted and free of duplicates: Python's
      `set.update` followed by `sorted`. */
  function Merge(xs: seq<int>, ys: seq<int>): (r: seq<int>)
    requires StrictlyIncreasing(xs) && StrictlyIncreasing(ys)
    ensures StrictlyIncreasing(r)
    ensures forall x :: x in r <==> x in xs || x in ys
    decreases |xs| + |ys|
  {
    if xs == [] then ys
    else if ys == [] then xs
    else
      HeadIsLeast(xs);
      HeadIsLeast(ys);
      if xs[0] < ys[0] then
        var rest := Merge(xs[1..], ys);
        ConsIncreasing(xs[0], rest);
        [xs[0]] + rest
      else if ys[0] < xs[0] then
        var rest := Merge(xs, ys[1..]);
        ConsIncreasing(ys[0], rest);
        [ys[0]] + rest
      else
        var rest := Merge(xs[1..], ys[1..]);
        ConsIncreasing(xs[0], rest);
        [xs[0]] + rest
  }

  /** In a sorted sequence the head is below every later element, and the tail holds
      exactly the elements other than the head. */
  lemma HeadIsLeast(s: seq<int>)
    requires StrictlyIncreasing(s) && s != []
    ensures StrictlyIncreasing(s[1..])
    ensures forall x :: x in s[1..] ==> s[0] < x
    ensures forall x :: x in s <==> x == s[0] || x in s[1..]
  {
    forall x | x in s[1..] ensures s[0] < x {
      var k :| 0 <= k < |s| - 1 && s[1..][k] == x;
      assert s[k + 1] == x;
    }
    assert s == [s[0]] + s[1..];
  }

  lemma HeadMember(s: seq<int>)
    ensures s != [] ==> s[0] in s
  {
  }

  /** Two sorted, duplicate-free sequences with the same elements are equal: the sorted
      enumeration of a set is unique. */
  lemma {:induction false} SortedUnique(xs: seq<int>, ys: seq<int>)
    requires StrictlyIncreasing(xs) && StrictlyIncreasing(ys)
    requires forall x :: x in xs <==> x in ys
    ensures xs == ys
    decreases |xs|
  {
    HeadMember(xs);
    HeadMember(ys);
    if xs != [] && ys != [] {
      HeadIsLeast(xs);
      HeadIsLeast(ys);
      assert xs[0] in ys && ys[0] in xs;
      assert xs[0] == ys[0];
      SortedUnique(xs[1..], ys[1..]);
      assert xs == [xs[0]] + xs[1..] && ys == [ys[0]] + ys[1..];
    }
  }
}
