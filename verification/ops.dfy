/** The boolean-semiring operations on matrices: transpose, element-wise add
    (OR) and multiply (AND), matrix product (OR of ANDs, optionally
    accumulated into the result) and the Kronecker product.  Each entry point
    checks the operands' shapes against the result's and, on success, gives
    the new content of the result matrix (its dimensions never change). */
module MatrixOps {
  import opened StatusCodes
  import opened Hints
  import opened BoolMatrix
  import Cardinality

  // ---------------------------------------------------------------------
  // Set-level meaning of each operation

  /** Rows and columns swapped. */
  function Transposed(m: Matrix): Matrix {
    Matrix(m.ncols, m.nrows, set c | c in m.entries :: (c.1, c.0))
  }

  /** Cell-wise OR. */
  function Or(a: Matrix, b: Matrix): Matrix {
    Matrix(a.nrows, a.ncols, a.entries + b.entries)
  }

  /** Cell-wise AND. */
  function And(a: Matrix, b: Matrix): Matrix {
    Matrix(a.nrows, a.ncols, a.entries * b.entries)
  }

  /** Cell-wise `a AND NOT b`. */
  function AndNot(a: Matrix, b: Matrix): Matrix {
    Matrix(a.nrows, a.ncols, a.entries - b.entries)
  }

  /** Every in-bounds cell that is false in `m`. */
  function Complement(m: Matrix): Matrix {
    Matrix(m.nrows, m.ncols, Cardinality.Grid(m.nrows, m.ncols) - m.entries)
  }

  /** Boolean product: (i, j) holds when some (i, k) of `l` meets (k, j) of `r`. */
  function Product(l: Matrix, r: Matrix): Matrix {
    Matrix(l.nrows, r.ncols, set p, q | p in l.entries && q in r.entries && p.1 == q.0 :: (p.0, q.1))
  }

  /** Kronecker product: block (i, j) of the result is a copy of `r` when
      (i, j) holds in `l`. */
  function Kron(l: Matrix, r: Matrix): Matrix {
    Matrix(l.nrows * r.nrows, l.ncols * r.ncols,
           set p, q | p in l.entries && q in r.entries :: (p.0 * r.nrows + q.0, p.1 * r.ncols + q.1))
  }

  /** The diagonal pattern of an `n` x `n` matrix. */
  function Identity(n: nat): Matrix {
    Matrix(n, n, set i | i in Cardinality.Below(n) :: (i, i))
  }

  /** Membership in a product, stated with the inner index. */
  lemma ProductCell(l: Matrix, r: Matrix, i: nat, j: nat)
    ensures (i, j) in Product(l, r).entries <==> exists k :: (i, k) in l.entries && (k, j) in r.entries
  {
    if exists k :: (i, k) in l.entries && (k, j) in r.entries {
      var k :| (i, k) in l.entries && (k, j) in r.entries;
      var p, q := (i, k), (k, j);
      assert p in l.entries && q in r.entries && p.1 == q.0;
    }
  }

  // ---------------------------------------------------------------------
  // Arithmetic on block offsets, used by the Kronecker product

  lemma MulMono(a: nat, b: nat, k: nat)
    requires a <= b
    ensures a * k <= b * k
  {
  }

  /** `a * k + c` with `c < k` stays below `n * k` when `a < n`. */
  lemma BlockBound(a: nat, c: nat, n: nat, k: nat)
    requires a < n && c < k
    ensures a * k + c < n * k
  {
    MulMono(a + 1, n, k);
  }

  /** The offset `a * k + c` with `c < k` determines `a` and `c`. */
  lemma BlockUnique(a: nat, c: nat, a': nat, c': nat, k: nat)
    requires c < k && c' < k && a * k + c == a' * k + c'
    ensures a == a' && c == c'
  {
    if a < a' {
      MulMono(a + 1, a', k);
    } else if a' < a {
      MulMono(a' + 1, a, k);
    }
  }

  // ---------------------------------------------------------------------
  // Entry points

  /** result = matrix ^ T.  The result must be ncols x nrows of the source. */
  function Transpose(result: Matrix, m: Matrix): (r: Result<Matrix>)
    requires InBounds(m)
    ensures r.Err? <==> !(result.nrows == m.ncols && result.ncols == m.nrows)
    ensures r.Err? ==> r.status == InvalidArgument
    ensures r.Ok? ==> SameShape(r.value, result) && InBounds(r.value)
    ensures r.Ok? ==> forall i, j :: (i, j) in r.value.entries <==> (j, i) in m.entries
  {
    if !(result.nrows == m.ncols && result.ncols == m.nrows) then Err(InvalidArgument)
    else
      var t := Transposed(m);
      assert forall i, j :: (j, i) in m.entries ==> (i, j) in t.entries by {
        forall i, j | (j, i) in m.entries
          ensures (i, j) in t.entries
        {
          var c := (j, i);
          assert (c.1, c.0) in t.entries;
        }
      }
      Ok(t)
  }

  /** result = left OR right, all three M x N. */
  function EWiseAdd(result: Matrix, left: Matrix, right: Matrix): (r: Result<Matrix>)
    requires InBounds(left) && InBounds(right)
    ensures r.Err? <==> !(SameShape(result, left) && SameShape(left, right))
    ensures r.Err? ==> r.status == InvalidArgument
    ensures r.Ok? ==> SameShape(r.value, result) && InBounds(r.value)
    ensures r.Ok? ==> forall c :: c in r.value.entries <==> c in left.entries || c in right.entries
  {
    if !(SameShape(result, left) && SameShape(left, right)) then Err(InvalidArgument)
    else Ok(Or(left, right))
  }

  /** result = left AND right, all three M x N.  Hints other than timing have
      no effect here, so there is no accumulate mode. */
  function EWiseMult(result: Matrix, left: Matrix, right: Matrix, timeCheck: bool): (r: Result<Matrix>)
    requires InBounds(left) && InBounds(right)
    ensures r.Err? <==> !(SameShape(result, left) && SameShape(left, right))
    ensures r.Err? ==> r.status == InvalidArgument
    ensures r.Ok? ==> SameShape(r.value, result) && InBounds(r.value)
    ensures r.Ok? ==> forall c :: c in r.value.entries <==> c in left.entries && c in right.entries
  {
    if !(SameShape(result, left) && SameShape(left, right)) then Err(InvalidArgument)
    else Ok(And(left, right))
  }

  /** result (accum)= left x right with left M x T, right T x N, result M x N.
      With the accumulate hint the product is OR-ed into the result's prior
      content; without it the prior content is discarded. */
  function MxM(result: Matrix, left: Matrix, right: Matrix, hints: HintSet): (r: Result<Matrix>)
    requires InBounds(result) && InBounds(left) && InBounds(right)
    ensures r.Err? <==> !(left.ncols == right.nrows && result.nrows == left.nrows && result.ncols == right.ncols)
    ensures r.Err? ==> r.status == InvalidArgument
    ensures r.Ok? ==> SameShape(r.value, result) && InBounds(r.value)
    ensures r.Ok? ==> forall i, j :: (i, j) in r.value.entries <==>
                        (exists k :: (i, k) in left.entries && (k, j) in right.entries)
                        || (Accumulate in hints && (i, j) in result.entries)
  {
    if !(left.ncols == right.nrows && result.nrows == left.nrows && result.ncols == right.ncols) then
      Err(InvalidArgument)
    else
      var p := Product(left, right);
      assert forall i, j :: (i, j) in p.entries <==> exists k :: (i, k) in left.entries && (k, j) in right.entries by {
        forall i: nat, j: nat
          ensures (i, j) in p.entries <==> exists k :: (i, k) in left.entries && (k, j) in right.entries
        {
          ProductCell(left, right, i, j);
        }
      }
      Ok(if Accumulate in hints then Or(p, result) else p)
  }

  /** result = left kron right with left M x N, right K x T, result MK x NT. */
  function Kronecker(result: Matrix, left: Matrix, right: Matrix): (r: Result<Matrix>)
    requires InBounds(left) && InBounds(right)
    ensures r.Err? <==> !(result.nrows == left.nrows * right.nrows && result.ncols == left.ncols * right.ncols)
    ensures r.Err? ==> r.status == InvalidArgument
    ensures r.Ok? ==> SameShape(r.value, result) && InBounds(r.value)
    ensures r.Ok? ==> forall a, b, c, d :: (a, b) in left.entries && (c, d) in right.entries ==>
                        (a * right.nrows + c, b * right.ncols + d) in r.value.entries
    ensures r.Ok? ==> forall x :: x in r.value.entries ==>
                        exists a, b, c, d :: (a, b) in left.entries && (c, d) in right.entries
                          && x == (a * right.nrows + c, b * right.ncols + d)
  {
    if !(result.nrows == left.nrows * right.nrows && result.ncols == left.ncols * right.ncols) then
      Err(InvalidArgument)
    else
      var kr := Kron(left, right);
      KronInBounds(left, right);
      KronHas(left, right);
      KronOnly(left, right);
      Ok(kr)
  }

  /** The Kronecker product of in-bounds operands is in bounds. */
  lemma KronInBounds(left: Matrix, right: Matrix)
    requires InBounds(left) && InBounds(right)
    ensures InBounds(Kron(left, right))
  {
    var kr := Kron(left, right);
    forall x | x in kr.entries
      ensures x.0 < kr.nrows && x.1 < kr.ncols
    {
      var p, q :| p in left.entries && q in right.entries
                  && x == (p.0 * right.nrows + q.0, p.1 * right.ncols + q.1);
      BlockBound(p.0, q.0, left.nrows, right.nrows);
      BlockBound(p.1, q.1, left.ncols, right.ncols);
    }
  }

  /** Every pair of true cells contributes its block cell. */
  lemma KronHas(left: Matrix, right: Matrix)
    ensures forall a, b, c, d :: (a, b) in left.entries && (c, d) in right.entries ==>
              (a * right.nrows + c, b * right.ncols + d) in Kron(left, right).entries
  {
    var kr := Kron(left, right);
    forall a, b, c, d | (a, b) in left.entries && (c, d) in right.entries
      ensures (a * right.nrows + c, b * right.ncols + d) in kr.entries
    {
      var p, q := (a, b), (c, d);
      assert (p.0 * right.nrows + q.0, p.1 * right.ncols + q.1) in kr.entries;
    }
  }

  /** Every cell of the Kronecker product comes from a pair of true cells. */
  lemma KronOnly(left: Matrix, right: Matrix)
    ensures forall x :: x in Kron(left, right).entries ==>
              exists a, b, c, d :: (a, b) in left.entries && (c, d) in right.entries
                && x == (a * right.nrows + c, b * right.ncols + d)
  {
    forall x | x in Kron(left, right).entries
      ensures exists a, b, c, d :: (a, b) in left.entries && (c, d) in right.entries
                && x == (a * right.nrows + c, b * right.ncols + d)
    {
      var p, q :| p in left.entries && q in right.entries
                  && x == (p.0 * right.nrows + q.0, p.1 * right.ncols + q.1);
      assert (p.0, p.1) in left.entries && (q.0, q.1) in right.entries;
    }
  }
}
