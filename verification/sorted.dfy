/** Merges of strictly increasing column lists: a reference for what the
    sequential backend computes per row.  Union backs element-wise add and the row-merge
    product, intersection backs element-wise multiply, difference backs the
    masked product `a AND NOT b`. */
module SortedRows {
  import opened BoolMatrix

  /** In an increasing list the head is below every later element. */
  lemma HeadBelow(s: seq<nat>)
    requires Increasing(s) && |s| > 0
    ensures forall x :: x in s[1..] ==> s[0] < x
    ensures forall x :: x in s ==> s[0] <= x
  {
    forall x | x in s[1..]
      ensures s[0] < x
    {
      var k :| 0 <= k < |s[1..]| && s[1..][k] == x;
      assert s[k + 1] == x;
    }
  }

  /** Prepending an element below every element keeps a list increasing. */
  lemma Prepend(h: nat, t: seq<nat>)
    requires Increasing(t)
    requires forall x :: x in t ==> h < x
    ensures Increasing([h] + t)
  {
    var s := [h] + t;
    forall i, j | 0 <= i < j < |s|
      ensures s[i] < s[j]
    {
      if i == 0 {
        assert s[j] == t[j - 1];
        assert t[j - 1] in t;
      } else {
        assert s[i] == t[i - 1] && s[j] == t[j - 1];
      }
    }
  }

  /** The tail of an increasing list is increasing. */
  lemma TailIncreasing(s: seq<nat>)
    requires Increasing(s) && |s| > 0
    ensures Increasing(s[1..])
  {
    forall i, j | 0 <= i < j < |s[1..]|
      ensures s[1..][i] < s[1..][j]
    {
      assert s[1..][i] == s[i + 1] && s[1..][j] == s[j + 1];
    }
  }

  /** Sorted union: the columns present in either list. */
  function Union(a: seq<nat>, b: seq<nat>): (r: seq<nat>)
    requires Increasing(a) && Increasing(b)
    ensures Increasing(r)
    ensures forall x :: x in r <==> x in a || x in b
    decreases |a| + |b|
  {
    if a == [] then b
    else if b == [] then a
    else
      HeadBelow(a);
      HeadBelow(b);
      TailIncreasing(a);
      TailIncreasing(b);
      if a[0] < b[0] then
        var t := Union(a[1..], b);
        Prepend(a[0], t);
        assert a == [a[0]] + a[1..];
        [a[0]] + t
      else if b[0] < a[0] then
        var t := Union(a, b[1..]);
        Prepend(b[0], t);
        assert b == [b[0]] + b[1..];
        [b[0]] + t
      else
        var t := Union(a[1..], b[1..]);
        Prepend(a[0], t);
        assert a == [a[0]] + a[1..];
        assert b == [b[0]] + b[1..];
        [a[0]] + t
  }

  /** Sorted intersection: the columns present in both lists. */
  function Intersect(a: seq<nat>, b: seq<nat>): (r: seq<nat>)
    requires Increasing(a) && Increasing(b)
    ensures Increasing(r)
    ensures forall x :: x in r <==> x in a && x in b
    decreases |a| + |b|
  {
    if a == [] || b == [] then []
    else
      HeadBelow(a);
      HeadBelow(b);
      TailIncreasing(a);
      TailIncreasing(b);
      assert a == [a[0]] + a[1..];
      assert b == [b[0]] + b[1..];
      if a[0] < b[0] then
        Intersect(a[1..], b)
      else if b[0] < a[0] then
        Intersect(a, b[1..])
      else
        var t := Intersect(a[1..], b[1..]);
        Prepend(a[0], t);
        [a[0]] + t
  }

  /** Sorted difference: the columns of `a` absent from `b`. */
  function Diff(a: seq<nat>, b: seq<nat>): (r: seq<nat>)
    requires Increasing(a) && Increasing(b)
    ensures Increasing(r)
    ensures forall x :: x in r <==> x in a && x !in b
    decreases |a| + |b|
  {
    if a == [] then []
    else if b == [] then a
    else
      HeadBelow(a);
      HeadBelow(b);
      TailIncreasing(a);
      TailIncreasing(b);
      assert a == [a[0]] + a[1..];
      assert b == [b[0]] + b[1..];
      if a[0] < b[0] then
        var t := Diff(a[1..], b);
        Prepend(a[0], t);
        [a[0]] + t
      else if b[0] < a[0] then
        Diff(a, b[1..])
      else
        Diff(a[1..], b[1..])
  }

  /** Two increasing lists with the same elements are the same list: the
      sorted layout of a row is unique. */
  lemma {:induction false} SameElementsSame(a: seq<nat>, b: seq<nat>)
    requires Increasing(a) && Increasing(b)
    requires forall x :: x in a <==> x in b
    ensures a == b
    decreases |a|
  {
    if a != [] && b != [] {
      HeadBelow(a);
      HeadBelow(b);
      TailIncreasing(a);
      TailIncreasing(b);
      assert a[0] == b[0] by {
        assert a[0] in b && b[0] in a;
      }
      assert a == [a[0]] + a[1..];
      assert b == [b[0]] + b[1..];
      forall x
        ensures x in a[1..] <==> x in b[1..]
      {
        if x in a[1..] {
          assert x in b && x != b[0];
        }
        if x in b[1..] {
          assert x in a && x != a[0];
        }
      }
      SameElementsSame(a[1..], b[1..]);
    } else if a != [] {
      HeadIn(a);
      assert false;
    } else if b != [] {
      HeadIn(b);
      assert false;
    }
  }

  lemma HeadIn(s: seq<nat>)
    requires |s| > 0
    ensures s[0] in s
  {
  }

  /** One step of the union when `a`'s head comes first. */
  lemma UnionTakeA(a: seq<nat>, b: seq<nat>)
    requires Increasing(a) && Increasing(b) && |a| > 0 && (|b| == 0 || a[0] < b[0])
    ensures Increasing(a[1..])
    ensures Union(a, b) == [a[0]] + Union(a[1..], b)
  {
    TailIncreasing(a);
    if b == [] {
      assert a == [a[0]] + a[1..];
      assert Union(a[1..], b) == a[1..];
    }
  }

  /** One step of the union when `b`'s head comes first. */
  lemma UnionTakeB(a: seq<nat>, b: seq<nat>)
    requires Increasing(a) && Increasing(b) && |b| > 0 && (|a| == 0 || b[0] < a[0])
    ensures Increasing(b[1..])
    ensures Union(a, b) == [b[0]] + Union(a, b[1..])
  {
    TailIncreasing(b);
    if a == [] {
      assert b == [b[0]] + b[1..];
    }
  }

  /** One step of the union when both heads are equal. */
  lemma UnionTakeBoth(a: seq<nat>, b: seq<nat>)
    requires Increasing(a) && Increasing(b) && |a| > 0 && |b| > 0 && a[0] == b[0]
    ensures Increasing(a[1..]) && Increasing(b[1..])
    ensures Union(a, b) == [a[0]] + Union(a[1..], b[1..])
  {
    TailIncreasing(a);
    TailIncreasing(b);
  }

  /** Sequence concatenation regrouped around one element. */
  lemma ConcatAssoc(r: seq<nat>, h: nat, t: seq<nat>)
    ensures (r + [h]) + t == r + ([h] + t)
  {
  }

  /** A reference two-cursor merge: walks both rows once and produces their
      sorted union. */
  method MergeRows(a: seq<nat>, b: seq<nat>) returns (r: seq<nat>)
    requires Increasing(a) && Increasing(b)
    ensures r == Union(a, b)
    ensures |r| <= |a| + |b|
  {
    var x, y := a, b;
    r := [];
    while x != [] || y != []
      invariant Increasing(x) && Increasing(y)
      invariant r + Union(x, y) == Union(a, b)
      invariant |r| + |x| + |y| <= |a| + |b|
      decreases |x| + |y|
    {
      if y == [] || (x != [] && x[0] < y[0]) {
        UnionTakeA(x, y);
        ConcatAssoc(r, x[0], Union(x[1..], y));
        r, x := r + [x[0]], x[1..];
      } else if x == [] || y[0] < x[0] {
        UnionTakeB(x, y);
        ConcatAssoc(r, y[0], Union(x, y[1..]));
        r, y := r + [y[0]], y[1..];
      } else {
        UnionTakeBoth(x, y);
        ConcatAssoc(r, x[0], Union(x[1..], y[1..]));
        r, x, y := r + [x[0]], x[1..], y[1..];
      }
    }
  }
}
