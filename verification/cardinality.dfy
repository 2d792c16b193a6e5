/** Counting facts about finite sets of matrix cells, used for the `nvals`
    laws (transpose keeps the count, Kronecker multiplies counts, the
    complement holds the remaining cells, extraction lists each entry once). */
module Cardinality {

  type Cell = (nat, nat)

  /** A map is injective on `s`. */
  ghost predicate InjectiveOn<X(!new), Y>(s: set<X>, f: X -> Y) {
    forall x, y :: x in s && y in s && f(x) == f(y) ==> x == y
  }

  /** The image of a set under a map. */
  function Image<X, Y>(s: set<X>, f: X -> Y): set<Y> {
    set x | x in s :: f(x)
  }

  /** The image of a finite set under an injective map has the set's size. */
  lemma {:induction false} InjectiveImageCard<X(!new), Y>(s: set<X>, f: X -> Y)
    requires InjectiveOn(s, f)
    ensures |Image(s, f)| == |s|
    decreases |s|
  {
    if s != {} {
      var x :| x in s;
      var rest := s - {x};
      InjectiveImageCard(rest, f);
      assert Image(s, f) == Image(rest, f) + {f(x)};
      assert f(x) !in Image(rest, f);
    }
  }

  /** All pairs of elements drawn from `a` and `b`. */
  function Pairs<X, Y>(a: set<X>, b: set<Y>): set<(X, Y)> {
    set x, y | x in a && y in b :: (x, y)
  }

  /** The cartesian product of finite sets has the product of their sizes. */
  lemma {:induction false} PairsCard<X, Y(!new)>(a: set<X>, b: set<Y>)
    ensures |Pairs(a, b)| == |a| * |b|
    decreases |a|
  {
    if a != {} {
      var x :| x in a;
      var rest := a - {x};
      PairsCard(rest, b);
      var f := (y: Y) => (x, y);
      var row := Image(b, f);
      InjectiveImageCard(b, f);
      assert Pairs(a, b) == Pairs(rest, b) + row;
      assert Pairs(rest, b) !! row;
      assert |Pairs(a, b)| == |rest| * |b| + |b|;
      assert |a| == |rest| + 1;
      assert (|rest| + 1) * |b| == |rest| * |b| + |b|;
    }
  }

  /** Every cell of an `nrows` x `ncols` grid. */
  function Grid(nrows: nat, ncols: nat): (g: set<Cell>)
    ensures forall c :: c in g <==> c.0 < nrows && c.1 < ncols
  {
    set i, j | 0 <= i < nrows && 0 <= j < ncols :: (i, j)
  }

  /** The indices below `n`. */
  function Below(n: nat): (s: set<nat>)
    ensures forall i: nat :: i in s <==> i < n
  {
    if n == 0 then {} else Below(n - 1) + {n - 1}
  }

  /** There are `n` indices below `n`. */
  lemma {:induction false} BelowCard(n: nat)
    ensures |Below(n)| == n
  {
    if n > 0 {
      BelowCard(n - 1);
      assert Below(n) == Below(n - 1) + {n - 1};
    }
  }

  /** An `nrows` x `ncols` grid has `nrows * ncols` cells. */
  lemma GridCard(nrows: nat, ncols: nat)
    ensures |Grid(nrows, ncols)| == nrows * ncols
  {
    assert Grid(nrows, ncols) == Pairs(Below(nrows), Below(ncols));
    PairsCard(Below(nrows), Below(ncols));
    BelowCard(nrows);
    BelowCard(ncols);
  }

  /** The elements of a sequence. */
  function Elems<X>(s: seq<X>): set<X> {
    set x | x in s
  }

  /** A sequence without repetitions has as many elements as entries. */
  lemma {:induction false} DistinctCard<X>(s: seq<X>)
    requires forall i, j :: 0 <= i < j < |s| ==> s[i] != s[j]
    ensures |Elems(s)| == |s|
  {
    if s != [] {
      var t := s[1..];
      DistinctCard(t);
      assert Elems(s) == Elems(t) + {s[0]};
      assert s[0] !in Elems(t) by {
        forall k | 0 <= k < |t|
          ensures t[k] != s[0]
        {
          assert t[k] == s[k + 1];
        }
      }
    }
  }
}
