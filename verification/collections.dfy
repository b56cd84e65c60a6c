/** Small things about options, intervals and finite sets that several parts share. */
module Collections {
  datatype Option<T> = None | Some(value: T)

  predicate Within(lo: int, x: int, hi: int) { lo <= x < hi }

  /** The integers from `lo` up to, but not including, `hi`. */
  function Interval(lo: int, hi: int): set<int> { set x | lo <= x < hi && Within(lo, x, hi) }

  lemma IntervalNext(lo: int, hi: int)
    requires lo <= hi
    ensures Interval(lo, hi + 1) == Interval(lo, hi) + {hi}
  {
  }

  lemma {:induction false} IntervalCount(lo: int, hi: int)
    requires lo <= hi
    ensures |Interval(lo, hi)| == hi - lo
    decreases hi - lo
  {
    if lo < hi {
      IntervalCount(lo, hi - 1);
      IntervalNext(lo, hi - 1);
    } else {
      assert Interval(lo, hi) == {};
    }
  }

  lemma {:induction false} SubsetCount<T>(a: set<T>, b: set<T>)
    requires a <= b
    ensures |a| <= |b|
    decreases |a|
  {
    if a != {} {
      var x :| x in a;
      SubsetCount(a - {x}, b - {x});
    }
  }

  // ---- Sequences without repetition ----

  ghost predicate Distinct<T>(s: seq<T>) { forall i, j :: 0 <= i < j < |s| ==> s[i] != s[j] }

  ghost function Elements<T(!new)>(s: seq<T>): set<T> { set x | x in s }

  /** A concatenation repeats nothing if its parts do not and share nothing. */
  lemma DistinctAppend<T>(a: seq<T>, b: seq<T>)
    requires Distinct(b)
    ensures Distinct(a + b) <==> Distinct(a) && forall x :: x in a ==> x !in b
  {
    if Distinct(a + b) {
      DistinctParts(a, b);
    } else if Distinct(a) {
      var i, j :| 0 <= i < j < |a + b| && (a + b)[i] == (a + b)[j];
      assert i < |a| <= j;
      assert a[i] in a && b[j - |a|] in b;
    }
  }

  lemma DistinctParts<T>(a: seq<T>, b: seq<T>)
    requires Distinct(a + b)
    ensures Distinct(a) && forall x :: x in a ==> x !in b
  {
    var all := a + b;
    forall i, j | 0 <= i < j < |a| ensures a[i] != a[j] { assert all[i] != all[j]; }
    forall i, j | 0 <= i < |a| && 0 <= j < |b| ensures a[i] != b[j] { assert all[i] != all[|a| + j]; }
  }

  /** There are as many elements as positions exactly when nothing is repeated. */
  lemma {:induction false} DistinctCount<T(!new)>(s: seq<T>)
    ensures |Elements(s)| <= |s|
    ensures |Elements(s)| == |s| <==> Distinct(s)
  {
    if s != [] {
      var rest, last := s[..|s| - 1], s[|s| - 1];
      DistinctCount(rest);
      assert s == rest + [last];
      LastElement(rest, last);
      DistinctAppend(rest, [last]);
    }
  }

  lemma LastElement<T(!new)>(rest: seq<T>, last: T)
    ensures Elements(rest + [last]) == Elements(rest) + {last}
  {
  }
}
