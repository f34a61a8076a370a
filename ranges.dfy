/**
 * Half-open integer ranges as sets, and the counting facts the window and
 * the drop model rely on.
 */
module Ranges {

  function Min(a: int, b: int): (r: int)
    ensures r <= a && r <= b
    ensures r == a || r == b
  {
    if a <= b then a else b
  }

  /** The integers lo, lo+1, ..., hi-1. */
  function Range(lo: int, hi: int): (s: set<int>)
    ensures forall i :: i in s <==> lo <= i < hi
    decreases hi - lo
  {
    if hi <= lo then {} else Range(lo, hi - 1) + {hi - 1}
  }

  /** A range holds exactly hi - lo integers (none when it is empty). */
  lemma {:induction false} RangeSize(lo: int, hi: int)
    ensures |Range(lo, hi)| == if lo <= hi then hi - lo else 0
    decreases hi - lo
  {
    if lo < hi {
      RangeSize(lo, hi - 1);
      assert hi - 1 !in Range(lo, hi - 1);
    }
  }

  /** Any set of integers drawn from [lo, hi) has at most hi - lo members. */
  lemma SubsetOfRangeSize(s: set<int>, lo: int, hi: int)
    requires lo <= hi
    requires forall i :: i in s ==> lo <= i < hi
    ensures |s| <= hi - lo
  {
    RangeSize(lo, hi);
    assert s <= Range(lo, hi);
    assert Range(lo, hi) == s + (Range(lo, hi) - s);
  }

  /** A set of integers that is not empty has a member to pick. */
  lemma Inhabited(s: set<int>)
    ensures s == {} || exists x :: x in s
  {
    assert (forall x :: x !in s) ==> s == {};
  }
}
