/** The sparse boolean matrix value: fixed dimensions and the set of cells
    that hold `true`, together with building it from coordinate pairs and
    extracting those pairs back in row-major order. */
module BoolMatrix {
  import opened StatusCodes
  import Cardinality

  type Cell = Cardinality.Cell

  /** A boolean relation over {0..nrows-1} x {0..ncols-1}; `entries` holds the
      true cells. */
  datatype Matrix = Matrix(nrows: nat, ncols: nat, entries: set<Cell>)

  /** The representation invariant: every true cell lies inside the matrix. */
  predicate InBounds(m: Matrix) {
    forall c :: c in m.entries ==> c.0 < m.nrows && c.1 < m.ncols
  }

  /** Number of true cells. */
  function Nvals(m: Matrix): nat {
    |m.entries|
  }

  /** Two matrices with the same number of rows and of columns. */
  predicate SameShape(a: Matrix, b: Matrix) {
    a.nrows == b.nrows && a.ncols == b.ncols
  }

  /** A freshly created matrix: the given dimensions, no true cell. */
  function Empty(nrows: nat, ncols: nat): Matrix {
    Matrix(nrows, ncols, {})
  }

  /** Strictly increasing column lists: the per-row layout of the storage. */
  predicate Increasing(s: seq<nat>) {
    forall i, j :: 0 <= i < j < |s| ==> s[i] < s[j]
  }

  /** Row-major order on cells: by row, then by column. */
  predicate Before(a: Cell, b: Cell) {
    a.0 < b.0 || (a.0 == b.0 && a.1 < b.1)
  }

  /** A cell list in strictly increasing row-major order. */
  predicate RowMajor(s: seq<Cell>) {
    forall i, j :: 0 <= i < j < |s| ==> Before(s[i], s[j])
  }

  /** The columns `c >= lo` of row `r` that hold `true`, ascending. */
  function ColsFrom(m: Matrix, r: nat, lo: nat): (cols: seq<nat>)
    ensures Increasing(cols)
    ensures forall k :: 0 <= k < |cols| ==> lo <= cols[k]
    ensures forall c: nat :: c in cols <==> lo <= c < m.ncols && (r, c) in m.entries
    decreases m.ncols - lo
  {
    if lo >= m.ncols then []
    else (if (r, lo) in m.entries then [lo] else []) + ColsFrom(m, r, lo + 1)
  }

  /** Row `r` as a sorted, duplicate-free column list. */
  function Row(m: Matrix, r: nat): (cols: seq<nat>)
    requires InBounds(m)
    ensures Increasing(cols)
    ensures forall c: nat :: c in cols <==> (r, c) in m.entries
  {
    ColsFrom(m, r, 0)
  }

  /** The cells of row `r` with the given columns. */
  function RowCells(r: nat, cols: seq<nat>): (cells: seq<Cell>)
    ensures |cells| == |cols|
    ensures forall k :: 0 <= k < |cols| ==> cells[k] == (r, cols[k])
  {
    seq(|cols|, k requires 0 <= k < |cols| => (r, cols[k]))
  }

  /** The true cells in rows `r` and below, in row-major order. */
  function PairsFrom(m: Matrix, r: nat): (cells: seq<Cell>)
    requires InBounds(m)
    ensures RowMajor(cells)
    ensures forall c :: c in cells <==> c in m.entries && c.0 >= r
    decreases m.nrows - r
  {
    if r >= m.nrows then []
    else
      var row := RowCells(r, Row(m, r));
      var rest := PairsFrom(m, r + 1);
      assert forall c :: c in row <==> c in m.entries && c.0 == r by {
        forall c | c in m.entries && c.0 == r
          ensures c in row
        {
          assert c.1 in Row(m, r);
          var k :| 0 <= k < |Row(m, r)| && Row(m, r)[k] == c.1;
          assert row[k] == c;
        }
      }
      assert forall i, j :: 0 <= i < |row| <= j < |row + rest| ==> Before((row + rest)[i], (row + rest)[j]) by {
        forall i, j | 0 <= i < |row| <= j < |row + rest|
          ensures Before((row + rest)[i], (row + rest)[j])
        {
          assert (row + rest)[j] == rest[j - |row|];
          assert rest[j - |row|] in rest;
        }
      }
      row + rest
  }

  /** Every true cell, each once, in row-major order: the storage layout read
      row by row. */
  function RowMajorCells(m: Matrix): (cells: seq<Cell>)
    requires InBounds(m)
    ensures RowMajor(cells)
    ensures forall c :: c in cells <==> c in m.entries
    ensures |cells| == Nvals(m)
  {
    var cells := PairsFrom(m, 0);
    assert Cardinality.Elems(cells) == m.entries;
    Cardinality.DistinctCard(cells);
    cells
  }

  /** Builds a matrix of `m`'s dimensions from the pairs `(rows[k], cols[k])`,
      `k < nvals`.  Repeated pairs collapse; the previous content is discarded.
      An index outside the matrix is an invalid argument. */
  function Build(m: Matrix, rows: seq<nat>, cols: seq<nat>, nvals: nat): (r: Result<Matrix>)
    requires nvals <= |rows| && nvals <= |cols|
    ensures r.Err? <==> exists k :: 0 <= k < nvals && (rows[k] >= m.nrows || cols[k] >= m.ncols)
    ensures r.Err? ==> r.status == InvalidArgument
    ensures r.Ok? ==> SameShape(r.value, m) && InBounds(r.value)
    ensures r.Ok? ==> forall i, j :: (i, j) in r.value.entries <==>
                        exists k :: 0 <= k < nvals && rows[k] == i && cols[k] == j
  {
    var pairs := PairSet(rows, cols, nvals);
    if exists c :: c in pairs && (c.0 >= m.nrows || c.1 >= m.ncols) then
      Err(InvalidArgument)
    else
      assert forall k :: 0 <= k < nvals ==> (rows[k], cols[k]) in pairs;
      Ok(Matrix(m.nrows, m.ncols, pairs))
  }

  /** What extraction hands back: the row and column arrays and the count. */
  datatype Extracted = Extracted(rows: seq<nat>, cols: seq<nat>, nvals: nat)

  /** Reads every true cell into caller buffers of `capacity` slots; buffers
      shorter than the number of true cells are an invalid argument. */
  function ExtractPairs(m: Matrix, capacity: nat): (r: Result<Extracted>)
    requires InBounds(m)
    ensures r.Err? <==> capacity < Nvals(m)
    ensures r.Err? ==> r.status == InvalidArgument
    ensures r.Ok? ==> r.value.nvals == Nvals(m) && |r.value.rows| == |r.value.cols| == r.value.nvals
    ensures r.Ok? ==> forall k :: 0 <= k < r.value.nvals ==> (r.value.rows[k], r.value.cols[k]) in m.entries
    ensures r.Ok? ==> forall c :: c in m.entries ==>
                        exists k :: 0 <= k < r.value.nvals && r.value.rows[k] == c.0 && r.value.cols[k] == c.1
    ensures r.Ok? ==> forall i, j :: 0 <= i < j < r.value.nvals ==>
                        Before((r.value.rows[i], r.value.cols[i]), (r.value.rows[j], r.value.cols[j]))
  {
    if capacity < Nvals(m) then Err(InvalidArgument)
    else
      var cells := RowMajorCells(m);
      var rows := seq(|cells|, k requires 0 <= k < |cells| => cells[k].0);
      var cols := seq(|cells|, k requires 0 <= k < |cells| => cells[k].1);
      assert forall k :: 0 <= k < |cells| ==> (rows[k], cols[k]) == cells[k];
      assert forall c :: c in m.entries ==> exists k :: 0 <= k < |cells| && rows[k] == c.0 && cols[k] == c.1 by {
        forall c | c in m.entries
          ensures exists k :: 0 <= k < |cells| && rows[k] == c.0 && cols[k] == c.1
        {
          assert c in cells;
          var k :| 0 <= k < |cells| && cells[k] == c;
          assert rows[k] == c.0 && cols[k] == c.1;
        }
      }
      Ok(Extracted(rows, cols, |cells|))
  }

  /** Extracting the pairs of a matrix and building a matrix of the same
      dimensions from them gives the matrix back. */
  lemma BuildExtractRoundTrip(m: Matrix, capacity: nat)
    requires InBounds(m) && Nvals(m) <= capacity
    ensures ExtractPairs(m, capacity).Ok?
    ensures var e := ExtractPairs(m, capacity).value;
            Build(Empty(m.nrows, m.ncols), e.rows, e.cols, e.nvals) == Ok(m)
  {
    var e := ExtractPairs(m, capacity).value;
    var b := Build(Empty(m.nrows, m.ncols), e.rows, e.cols, e.nvals);
    assert b.Ok?;
    assert b.value.entries == m.entries by {
      forall c | c in m.entries
        ensures c in b.value.entries
      {
        var k :| 0 <= k < e.nvals && e.rows[k] == c.0 && e.cols[k] == c.1;
      }
    }
  }

  /** The set of pairs `(rows[k], cols[k])`, `k < nvals`. */
  function PairSet(rows: seq<nat>, cols: seq<nat>, nvals: nat): set<Cell>
    requires nvals <= |rows| && nvals <= |cols|
  {
    set k | 0 <= k < nvals :: (rows[k], cols[k])
  }

  /** Building depends only on the set of pairs given: order and repetition
      of the input do not matter. */
  lemma BuildCanonical(m: Matrix, rows: seq<nat>, cols: seq<nat>, nvals: nat,
                       rows': seq<nat>, cols': seq<nat>, nvals': nat)
    requires nvals <= |rows| && nvals <= |cols| && nvals' <= |rows'| && nvals' <= |cols'|
    requires PairSet(rows, cols, nvals) == PairSet(rows', cols', nvals')
    ensures Build(m, rows, cols, nvals) == Build(m, rows', cols', nvals')
  {
  }
}
