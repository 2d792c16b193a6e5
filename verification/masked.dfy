/** The dense-inversion reference for the masked product: a matrix is
    inverted by walking every cell in row-major order, collecting the cells
    that are false, and rebuilding the matrix from those pairs.  The masked
    product `a AND NOT b` is then the element-wise product of `a` with the
    rebuilt inverse. */
module MaskReference {
  import opened StatusCodes
  import opened BoolMatrix
  import MatrixOps
  import Cardinality

  /** The false cells of `m` that row-major order visits before (i, j). */
  function Holes(m: Matrix, i: nat, j: nat): set<Cell> {
    set c | c in Cardinality.Grid(m.nrows, m.ncols) && c !in m.entries && (c.0 < i || (c.0 == i && c.1 < j))
  }

  /** Appending a pair to the build arrays adds exactly that pair. */
  lemma PairSetAppend(rows: seq<nat>, cols: seq<nat>, x: nat, y: nat)
    requires |rows| == |cols|
    ensures PairSet(rows + [x], cols + [y], |rows| + 1) == PairSet(rows, cols, |rows|) + {(x, y)}
  {
    var n := |rows|;
    var rs, cs := rows + [x], cols + [y];
    assert rs[n] == x && cs[n] == y;
    forall k | 0 <= k < n
      ensures rs[k] == rows[k] && cs[k] == cols[k]
    {
    }
  }

  /** Inverts `m` the way the reference does: every in-bounds cell that is
      false in `m` becomes true and every true cell becomes false.  The
      matrix is rebuilt in place, so its dimensions stay. */
  method InvertByRebuild(m: Matrix) returns (inv: Matrix)
    requires InBounds(m)
    ensures inv == MatrixOps.Complement(m)
    ensures InBounds(inv)
  {
    var rows: seq<nat>, cols: seq<nat> := [], [];
    var i := 0;
    while i < m.nrows
      invariant 0 <= i <= m.nrows
      invariant |rows| == |cols|
      invariant PairSet(rows, cols, |rows|) == Holes(m, i, 0)
    {
      var j := 0;
      while j < m.ncols
        invariant 0 <= j <= m.ncols
        invariant |rows| == |cols|
        invariant PairSet(rows, cols, |rows|) == Holes(m, i, j)
      {
        assert (i, j) in Cardinality.Grid(m.nrows, m.ncols);
        if (i, j) !in m.entries {
          PairSetAppend(rows, cols, i, j);
          rows, cols := rows + [i], cols + [j];
          assert Holes(m, i, j + 1) == Holes(m, i, j) + {(i, j)};
        } else {
          assert Holes(m, i, j + 1) == Holes(m, i, j);
        }
        j := j + 1;
      }
      assert Holes(m, i, m.ncols) == Holes(m, i + 1, 0);
      i := i + 1;
    }
    assert Holes(m, m.nrows, 0) == MatrixOps.Complement(m).entries;
    forall k | 0 <= k < |rows|
      ensures rows[k] < m.nrows && cols[k] < m.ncols
    {
      assert (rows[k], cols[k]) in PairSet(rows, cols, |rows|);
    }
    var built := Build(m, rows, cols, |rows|);
    inv := built.value;
    assert inv.entries == PairSet(rows, cols, |rows|);
  }

  /** Masking as the reference composes it: duplicate the mask, invert the
      copy, and multiply the matrix by it element-wise.  The outcome is
      `a AND NOT b`. */
  method ApplyNotMask(a: Matrix, b: Matrix) returns (r: Result<Matrix>)
    requires InBounds(a) && InBounds(b)
    ensures r.Err? <==> !SameShape(a, b)
    ensures r.Ok? ==> r.value == MatrixOps.AndNot(a, b)
    ensures r.Ok? ==> r.value.entries <= a.entries && r.value.entries !! b.entries
  {
    var inverted := InvertByRebuild(b);
    r := MatrixOps.EWiseMult(a, a, inverted, false);
    if r.Ok? {
      assert r.value.entries == a.entries - b.entries;
    }
  }
}
