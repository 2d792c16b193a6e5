/** The compressed sparse row layout the sequential backend stores: for each
    row a strictly increasing list of the columns that hold `true`.  Each
    kernel below works row by row with sorted merges and is proved to compute
    the set-level operation of `MatrixOps`. */
module Csr {
  import opened BoolMatrix
  import opened SortedRows
  import MatrixOps

  datatype CsrData = CsrData(nrows: nat, ncols: nat, rows: seq<seq<nat>>)

  /** One list per row, each strictly increasing, every column in range. */
  predicate Valid(c: CsrData) {
    && |c.rows| == c.nrows
    && (forall i :: 0 <= i < |c.rows| ==> Increasing(c.rows[i]))
    && (forall i, k :: 0 <= i < |c.rows| && 0 <= k < |c.rows[i]| ==> c.rows[i][k] < c.ncols)
  }

  /** The true cells the layout stores. */
  function Entries(c: CsrData): set<Cell> {
    set i, j | 0 <= i < |c.rows| && j in c.rows[i] :: (i, j)
  }

  /** The matrix value the layout represents. */
  function ToMatrix(c: CsrData): (m: Matrix)
    requires Valid(c)
    ensures InBounds(m)
    ensures m.nrows == c.nrows && m.ncols == c.ncols
    ensures forall i: nat, j: nat :: (i, j) in m.entries <==> i < |c.rows| && j in c.rows[i]
  {
    Matrix(c.nrows, c.ncols, Entries(c))
  }

  /** The layout of a matrix value: row `i` lists its true columns in order. */
  function FromMatrix(m: Matrix): (c: CsrData)
    requires InBounds(m)
    ensures Valid(c)
    ensures ToMatrix(c) == m
  {
    var c := CsrData(m.nrows, m.ncols, seq(m.nrows, i requires 0 <= i < m.nrows => Row(m, i)));
    assert Valid(c) by {
      forall i, k | 0 <= i < |c.rows| && 0 <= k < |c.rows[i]|
        ensures c.rows[i][k] < c.ncols
      {
        assert c.rows[i][k] in Row(m, i);
      }
    }
    assert ToMatrix(c).entries == m.entries;
    c
  }

  /** Every valid layout is the layout of the matrix it represents: the
      sorted row layout is unique. */
  lemma LayoutUnique(c: CsrData)
    requires Valid(c)
    ensures FromMatrix(ToMatrix(c)) == c
  {
    var m := ToMatrix(c);
    var c' := FromMatrix(m);
    forall i | 0 <= i < c.nrows
      ensures c'.rows[i] == c.rows[i]
    {
      SameElementsSame(c'.rows[i], c.rows[i]);
    }
  }

  /** Element-wise add: each row is the sorted union of the operands' rows. */
  function EWiseAdd(a: CsrData, b: CsrData): (r: CsrData)
    requires Valid(a) && Valid(b) && a.nrows == b.nrows && a.ncols == b.ncols
    ensures Valid(r)
    ensures ToMatrix(r) == MatrixOps.Or(ToMatrix(a), ToMatrix(b))
  {
    var r := CsrData(a.nrows, a.ncols, seq(a.nrows, i requires 0 <= i < a.nrows => Union(a.rows[i], b.rows[i])));
    assert Valid(r) by {
      forall i, k | 0 <= i < |r.rows| && 0 <= k < |r.rows[i]|
        ensures r.rows[i][k] < r.ncols
      {
        var x := r.rows[i][k];
        assert x in a.rows[i] || x in b.rows[i];
      }
    }
    assert ToMatrix(r).entries == ToMatrix(a).entries + ToMatrix(b).entries;
    r
  }

  /** Element-wise multiply: each row is the sorted intersection. */
  function EWiseMult(a: CsrData, b: CsrData): (r: CsrData)
    requires Valid(a) && Valid(b) && a.nrows == b.nrows && a.ncols == b.ncols
    ensures Valid(r)
    ensures ToMatrix(r) == MatrixOps.And(ToMatrix(a), ToMatrix(b))
  {
    var r := CsrData(a.nrows, a.ncols, seq(a.nrows, i requires 0 <= i < a.nrows => Intersect(a.rows[i], b.rows[i])));
    assert Valid(r) by {
      forall i, k | 0 <= i < |r.rows| && 0 <= k < |r.rows[i]|
        ensures r.rows[i][k] < r.ncols
      {
        assert r.rows[i][k] in a.rows[i];
      }
    }
    assert ToMatrix(r).entries == ToMatrix(a).entries * ToMatrix(b).entries;
    r
  }

  /** The masked product `out = a AND NOT b` on two layouts of the same
      shape: each row keeps the columns of `a` that `b` lacks.  The result has
      the dimensions of `a`. */
  function EWiseMultInverted(a: CsrData, b: CsrData): (out: CsrData)
    requires Valid(a) && Valid(b) && a.nrows == b.nrows && a.ncols == b.ncols
    ensures Valid(out)
    ensures out.nrows == a.nrows && out.ncols == a.ncols
    ensures forall i, j :: (i, j) in Entries(out) <==> (i, j) in Entries(a) && (i, j) !in Entries(b)
  {
    var out := CsrData(a.nrows, a.ncols, seq(a.nrows, i requires 0 <= i < a.nrows => Diff(a.rows[i], b.rows[i])));
    assert Valid(out) by {
      forall i, k | 0 <= i < |out.rows| && 0 <= k < |out.rows[i]|
        ensures out.rows[i][k] < out.ncols
      {
        assert out.rows[i][k] in a.rows[i];
      }
    }
    assert ToMatrix(out).entries == ToMatrix(a).entries - ToMatrix(b).entries;
    out
  }

  /** The masked product equals the element-wise product of `a` with the
      complement of `b`: the dense-inversion reference. */
  lemma EWiseMultInvertedIsMaskedProduct(a: CsrData, b: CsrData)
    requires Valid(a) && Valid(b) && a.nrows == b.nrows && a.ncols == b.ncols
    ensures ToMatrix(EWiseMultInverted(a, b))
         == MatrixOps.And(ToMatrix(a), MatrixOps.Complement(ToMatrix(b)))
  {
    var out := ToMatrix(EWiseMultInverted(a, b));
    var ma, mb := ToMatrix(a), ToMatrix(b);
    assert out.entries == ma.entries - mb.entries;
    assert ma.entries * MatrixOps.Complement(mb).entries == ma.entries - mb.entries;
  }

  /** Row `i` of the product: the union of the rows of `right` selected by the
      columns `ks` of row `i` of `left` (the row-merge algorithm). */
  function RowProduct(ks: seq<nat>, right: CsrData): (row: seq<nat>)
    requires Valid(right)
    requires forall t :: 0 <= t < |ks| ==> ks[t] < right.nrows
    ensures Increasing(row)
    ensures forall j :: j in row <==> exists k :: k in ks && j in right.rows[k]
  {
    if ks == [] then []
    else
      var rest := RowProduct(ks[1..], right);
      var row := Union(right.rows[ks[0]], rest);
      assert forall k :: k in ks <==> k == ks[0] || k in ks[1..] by {
        assert ks == [ks[0]] + ks[1..];
      }
      row
  }

  /** The boolean product by row merging (OR over AND), left M x T and right
      T x N, equals the set-level product. */
  function MxM(left: CsrData, right: CsrData): (r: CsrData)
    requires Valid(left) && Valid(right) && left.ncols == right.nrows
    ensures Valid(r)
    ensures r.nrows == left.nrows && r.ncols == right.ncols
    ensures ToMatrix(r) == MatrixOps.Product(ToMatrix(left), ToMatrix(right))
  {
    var r := CsrData(left.nrows, right.ncols,
                     seq(left.nrows, i requires 0 <= i < left.nrows => RowProduct(left.rows[i], right)));
    assert Valid(r) by {
      forall i, t | 0 <= i < |r.rows| && 0 <= t < |r.rows[i]|
        ensures r.rows[i][t] < r.ncols
      {
        var j := r.rows[i][t];
        var k :| k in left.rows[i] && j in right.rows[k];
      }
    }
    var p := MatrixOps.Product(ToMatrix(left), ToMatrix(right));
    forall i: nat, j: nat
      ensures (i, j) in ToMatrix(r).entries <==> (i, j) in p.entries
    {
      MatrixOps.ProductCell(ToMatrix(left), ToMatrix(right), i, j);
    }
    assert ToMatrix(r).entries == p.entries;
    r
  }
}
