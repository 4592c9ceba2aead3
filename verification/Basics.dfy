/** Types and set facts shared by the models. */
module Basics {
  datatype Option<+T> = None | Some(value: T)

  function Elems<T(==)>(s: seq<T>): set<T> {
    set x | x in s
  }

  /** A subset is no larger than its superset, and equal to it when it is as large. */
  lemma SubsetSize<T>(a: set<T>, b: set<T>)
    requires a <= b
    ensures |a| <= |b|
    ensures |a| == |b| ==> a == b
    decreases b
  {
    if a != b {
      var x :| x in b && x !in a;
      assert a <= b - {x};
      SubsetSize(a, b - {x});
    }
  }

  lemma ElemsSnoc<T>(s: seq<T>, i: nat)
    requires i < |s|
    ensures s[..i + 1] == s[..i] + [s[i]]
    ensures Elems(s[..i + 1]) == Elems(s[..i]) + {s[i]}
  {}

  /** The integers from lo up to, but not including, hi. */
  ghost function Range(lo: int, hi: int): (r: set<int>)
    ensures forall i :: i in r <==> lo <= i < hi
    ensures |r| == if lo < hi then hi - lo else 0
    decreases hi - lo
  {
    if lo >= hi then {} else Range(lo, hi - 1) + {hi - 1}
  }

  lemma Pick<T>(s: set<T>) returns (x: T)
    requires s != {}
    ensures x in s
  {
    x :| x in s;
  }

  lemma {:induction false} Extremes(s: set<int>) returns (lo: int, hi: int)
    requires s != {}
    ensures lo in s && hi in s && forall x :: x in s ==> lo <= x <= hi
    decreases s
  {
    var x := Pick(s);
    assert s == s - {x} + {x};
    if s == {x} {
      lo, hi := x, x;
    } else {
      lo, hi := Extremes(s - {x});
      assert forall y :: y in s ==> y == x || y in s - {x};
      if x < lo { lo := x; }
      if x > hi { hi := x; }
    }
  }

  /** A set of integers no two of which are more than k apart. */
  lemma NarrowSet(s: set<int>, k: int)
    requires k >= -1 && (s != {} ==> k >= 0)
    requires forall i, j :: i in s && j in s ==> j - i <= k
    ensures |s| <= k + 1
  {
    if s != {} {
      var lo, hi := Extremes(s);
      assert forall x :: x in s ==> x in Range(lo, hi + 1);
      SubsetSize(s, Range(lo, hi + 1));
    }
  }
}
