/**
 * Library operations on lists that the Kotlin source and the SQL engine
 * supply: a stable sort under a comparator (Kotlin's `sortedWith`, also used
 * for `ORDER BY`) and `distinct`.
 */
module Sequences {

  /** `le` is a total preorder: any two values compare, and it is transitive. */
  ghost predicate TotalPreorder<T(!new)>(le: (T, T) -> bool) {
    Total(le) && Transitive(le)
  }

  ghost predicate Total<T(!new)>(le: (T, T) -> bool) {
    forall a, b :: le(a, b) || le(b, a)
  }

  ghost predicate Transitive<T(!new)>(le: (T, T) -> bool) {
    forall a, b, c :: le(a, b) && le(b, c) ==> le(a, c)
  }

  /** Every element is `le` every later element. */
  ghost predicate Sorted<T>(s: seq<T>, le: (T, T) -> bool) {
    forall i, j :: 0 <= i < j < |s| ==> le(s[i], s[j])
  }

  /** `x` placed before the first element it is `le`. */
  function Insert<T>(x: T, s: seq<T>, le: (T, T) -> bool): (r: seq<T>)
    ensures multiset(r) == multiset(s) + multiset{x}
    decreases |s|
  {
    if s == [] then [x]
    else if le(x, s[0]) then [x] + s
    else
      assert s == [s[0]] + s[1..];
      [s[0]] + Insert(x, s[1..], le)
  }

  /** Stable insertion sort: the model of Kotlin's `sortedWith` (and of `ORDER BY`). */
  function SortBy<T>(s: seq<T>, le: (T, T) -> bool): (r: seq<T>)
    ensures multiset(r) == multiset(s)
    decreases |s|
  {
    if s == [] then []
    else
      assert s == [s[0]] + s[1..];
      Insert(s[0], SortBy(s[1..], le), le)
  }

  lemma {:induction false} InsertSorted<T(!new)>(x: T, s: seq<T>, le: (T, T) -> bool)
    requires TotalPreorder(le) && Sorted(s, le)
    ensures Sorted(Insert(x, s, le), le)
    decreases |s|
  {
    if s != [] && !le(x, s[0]) {
      var t := s[1..];
      InsertSorted(x, t, le);
      var r := Insert(x, t, le);
      forall y | y in r ensures le(s[0], y) {
        assert y in multiset(r);
        if y != x {
          var j :| 0 <= j < |t| && t[j] == y;
          assert s[j + 1] == y;
        }
      }
    }
  }

  /** The result of the sort is in order under a total preorder. */
  lemma {:induction false} SortBySorted<T(!new)>(s: seq<T>, le: (T, T) -> bool)
    requires TotalPreorder(le)
    ensures Sorted(SortBy(s, le), le)
    decreases |s|
  {
    if s != [] {
      SortBySorted(s[1..], le);
      InsertSorted(s[0], SortBy(s[1..], le), le);
    }
  }

  /** The elements of `s` that compare equal to `x` both ways, in their order in `s`. */
  function Tied<T>(s: seq<T>, x: T, le: (T, T) -> bool): seq<T>
    decreases |s|
  {
    if s == [] then []
    else (if le(s[0], x) && le(x, s[0]) then [s[0]] else []) + Tied(s[1..], x, le)
  }

  /** `Tied` of a list with a known first element, unfolded one step. */
  lemma TiedCons<T>(a: T, s: seq<T>, x: T, le: (T, T) -> bool)
    ensures Tied([a] + s, x, le) == (if le(a, x) && le(x, a) then [a] else []) + Tied(s, x, le)
  {
    var t := [a] + s;
    assert t[0] == a && t[1..] == s;
  }

  /**
   * Putting `s0` in front of a list that has `y` inserted into `tail`: when
   * `y` and `s0` do not both tie with `x`, the ties come out as if `y` were
   * in front.
   */
  lemma TiedSwap<T>(y: T, s0: T, tail: seq<T>, ins: seq<T>, x: T, le: (T, T) -> bool)
    requires !(le(y, x) && le(x, y) && le(s0, x) && le(x, s0))
    requires Tied(ins, x, le) == (if le(y, x) && le(x, y) then [y] else []) + Tied(tail, x, le)
    ensures Tied([s0] + ins, x, le)
         == (if le(y, x) && le(x, y) then [y] else []) + Tied([s0] + tail, x, le)
  {
    var ty: seq<T> := if le(y, x) && le(x, y) then [y] else [];
    var t0: seq<T> := if le(s0, x) && le(x, s0) then [s0] else [];
    TiedCons(s0, ins, x, le);
    TiedCons(s0, tail, x, le);
    if ty == [] {
      assert Tied(ins, x, le) == Tied(tail, x, le);
    } else {
      assert t0 == [];
      assert Tied([s0] + ins, x, le) == Tied(ins, x, le);
      assert Tied([s0] + tail, x, le) == Tied(tail, x, le);
    }
  }

  lemma {:induction false} InsertTied<T(!new)>(y: T, s: seq<T>, x: T, le: (T, T) -> bool)
    requires Transitive(le)
    ensures Tied(Insert(y, s, le), x, le)
         == (if le(y, x) && le(x, y) then [y] else []) + Tied(s, x, le)
    decreases |s|
  {
    if s == [] {
      assert Insert(y, s, le) == [y] + [];
      TiedCons(y, [], x, le);
    } else if le(y, s[0]) {
      assert Insert(y, s, le) == [y] + s;
      TiedCons(y, s, x, le);
    } else {
      var s0, tail := s[0], s[1..];
      InsertTied(y, tail, x, le);
      assert Insert(y, s, le) == [s0] + Insert(y, tail, le);
      assert s == [s0] + tail;
      // y and s0 cannot both tie with x: that would give le(y, s0) by transitivity.
      assert !(le(y, x) && le(x, s0));
      TiedSwap(y, s0, tail, Insert(y, tail, le), x, le);
    }
  }

  /**
   * The sort is stable: the elements that compare equal to any `x` come out
   * in the order they went in.
   */
  lemma {:induction false} SortByStable<T(!new)>(s: seq<T>, x: T, le: (T, T) -> bool)
    requires TotalPreorder(le)
    ensures Tied(SortBy(s, le), x, le) == Tied(s, x, le)
    decreases |s|
  {
    if s != [] {
      SortByStable(s[1..], x, le);
      InsertTied(s[0], SortBy(s[1..], le), x, le);
    }
  }

  /** `rel` holds between any two elements at different positions, in either order. */
  ghost predicate Pairwise<T>(s: seq<T>, rel: (T, T) -> bool) {
    forall i, j :: 0 <= i < |s| && 0 <= j < |s| && i != j ==> rel(s[i], s[j])
  }

  lemma PairwiseTail<T>(s: seq<T>, rel: (T, T) -> bool)
    requires s != [] && Pairwise(s, rel)
    ensures Pairwise(s[1..], rel)
  {
    var t := s[1..];
    forall i, j | 0 <= i < |t| && 0 <= j < |t| && i != j ensures rel(t[i], t[j]) {
      assert t[i] == s[i + 1] && t[j] == s[j + 1];
    }
  }

  lemma PairwiseCons<T>(a: T, r: seq<T>, rel: (T, T) -> bool)
    requires Pairwise(r, rel)
    requires forall y :: y in r ==> rel(a, y) && rel(y, a)
    ensures Pairwise([a] + r, rel)
  {
    var r' := [a] + r;
    forall i, j | 0 <= i < |r'| && 0 <= j < |r'| && i != j ensures rel(r'[i], r'[j]) {
      if i == 0 {
        assert r'[j] == r[j - 1];
      } else if j == 0 {
        assert r'[i] == r[i - 1];
      } else {
        assert r'[i] == r[i - 1] && r'[j] == r[j - 1];
      }
    }
  }

  lemma {:induction false} InsertPairwise<T>(x: T, s: seq<T>, le: (T, T) -> bool, rel: (T, T) -> bool)
    requires Pairwise(s, rel)
    requires forall k :: 0 <= k < |s| ==> rel(x, s[k]) && rel(s[k], x)
    ensures Pairwise(Insert(x, s, le), rel)
    decreases |s|
  {
    if s == [] {
      assert Insert(x, s, le) == [x] + [];
      PairwiseCons(x, [], rel);
    } else if le(x, s[0]) {
      assert Insert(x, s, le) == [x] + s;
      PairwiseCons(x, s, rel);
    } else {
      var t := s[1..];
      PairwiseTail(s, rel);
      InsertPairwise(x, t, le, rel);
      var r := Insert(x, t, le);
      forall y | y in r ensures rel(s[0], y) && rel(y, s[0]) {
        assert y in multiset(r);
        if y != x {
          var j :| 0 <= j < |t| && t[j] == y;
          assert s[j + 1] == y;
        }
      }
      PairwiseCons(s[0], r, rel);
      assert Insert(x, s, le) == [s[0]] + r;
    }
  }

  /** A relation that holds between all pairs of the input holds between all pairs of the sorted list. */
  lemma {:induction false} SortByPairwise<T>(s: seq<T>, le: (T, T) -> bool, rel: (T, T) -> bool)
    requires Pairwise(s, rel)
    ensures Pairwise(SortBy(s, le), rel)
    decreases |s|
  {
    if s != [] {
      var t := s[1..];
      assert Pairwise(t, rel) by {
        forall i, j | 0 <= i < |t| && 0 <= j < |t| && i != j ensures rel(t[i], t[j]) {
          assert t[i] == s[i + 1] && t[j] == s[j + 1];
        }
      }
      SortByPairwise(t, le, rel);
      var u := SortBy(t, le);
      forall k | 0 <= k < |u| ensures rel(s[0], u[k]) && rel(u[k], s[0]) {
        assert u[k] in multiset(t);
        var j :| 0 <= j < |t| && t[j] == u[k];
        assert s[j + 1] == u[k];
      }
      InsertPairwise(s[0], u, le, rel);
    }
  }

  /** No element occurs twice. */
  predicate NoDuplicates<T(==)>(s: seq<T>) {
    forall i, j :: 0 <= i < j < |s| ==> s[i] != s[j]
  }

  /** Kotlin's `distinct()`: the first occurrence of every element, in order. */
  function Distinct<T(==)>(s: seq<T>): (r: seq<T>)
    ensures NoDuplicates(r)
    ensures forall i :: 0 <= i < |r| ==> r[i] in s
    ensures forall i :: 0 <= i < |s| ==> s[i] in r
    decreases |s|
  {
    if s == [] then []
    else
      var d := Distinct(s[..|s| - 1]);
      var x := s[|s| - 1];
      assert s == s[..|s| - 1] + [x];
      if x in d then d else d + [x]
  }

  /** A list without duplicates is its own `distinct()`. */
  lemma {:induction false} DistinctOfNoDuplicates<T>(s: seq<T>)
    requires NoDuplicates(s)
    ensures Distinct(s) == s
    decreases |s|
  {
    if s != [] {
      var p := s[..|s| - 1];
      assert NoDuplicates(p);
      DistinctOfNoDuplicates(p);
      assert s[|s| - 1] !in p;
      assert s == p + [s[|s| - 1]];
    }
  }
}
