/** Laws the operations obey: transpose is an involution that keeps the
    count, element-wise add and multiply are idempotent and commutative,
    accumulate is an element-wise add of the fresh product into the prior
    result, the Kronecker product multiplies counts, the identity pattern is
    neutral for the product, and `a AND NOT b` is the AND with b's complement. */
module MatrixLaws {
  import opened StatusCodes
  import opened Hints
  import opened BoolMatrix
  import opened MatrixOps
  import Cardinality

  // ---------------------------------------------------------------------
  // Transpose

  /** Transposing twice gives back the original matrix. */
  lemma TransposedInvolution(m: Matrix)
    ensures Transposed(Transposed(m)) == m
  {
    var tt := Transposed(Transposed(m));
    forall c | c in m.entries
      ensures c in tt.entries
    {
      assert (c.1, c.0) in Transposed(m).entries;
    }
  }

  /** Transposing keeps the number of true cells. */
  lemma TransposedNvals(m: Matrix)
    ensures Nvals(Transposed(m)) == Nvals(m)
  {
    var swap := (c: Cell) => (c.1, c.0);
    assert Cardinality.InjectiveOn(m.entries, swap);
    Cardinality.InjectiveImageCard(m.entries, swap);
    assert Transposed(m).entries == Cardinality.Image(m.entries, swap);
  }

  /** Through the entry point: result' = (result = m^T)^T is m again, with
      the same count. */
  lemma TransposeTwice(m: Matrix, r1: Matrix, r2: Matrix)
    requires InBounds(m)
    requires r1.nrows == m.ncols && r1.ncols == m.nrows && SameShape(r2, m)
    ensures Transpose(r1, m).Ok?
    ensures Nvals(Transpose(r1, m).value) == Nvals(m)
    ensures Transpose(r2, Transpose(r1, m).value) == Ok(m)
  {
    TransposedInvolution(m);
    TransposedNvals(m);
  }

  // ---------------------------------------------------------------------
  // Element-wise add and multiply

  /** A + A == A, A + B == B + A, and the sum holds at least as many cells as
      either operand. */
  lemma EWiseAddLaws(result: Matrix, a: Matrix, b: Matrix)
    requires InBounds(a) && InBounds(b) && SameShape(result, a) && SameShape(a, b)
    ensures EWiseAdd(a, a, a) == Ok(a)
    ensures EWiseAdd(result, a, b) == EWiseAdd(result, b, a)
    ensures EWiseAdd(result, a, b).Ok?
    ensures Nvals(EWiseAdd(result, a, b).value) >= Nvals(a)
    ensures Nvals(EWiseAdd(result, a, b).value) >= Nvals(b)
  {
    assert a.entries + a.entries == a.entries;
    var s := EWiseAdd(result, a, b).value;
    assert s.entries == EWiseAdd(result, b, a).value.entries;
    assert s.entries == a.entries + (s.entries - a.entries);
    assert s.entries == b.entries + (s.entries - b.entries);
  }

  /** A * A == A, A * B == B * A, and the product lies inside both operands. */
  lemma EWiseMultLaws(result: Matrix, a: Matrix, b: Matrix, timeCheck: bool)
    requires InBounds(a) && InBounds(b) && SameShape(result, a) && SameShape(a, b)
    ensures EWiseMult(a, a, a, timeCheck) == Ok(a)
    ensures EWiseMult(result, a, b, timeCheck) == EWiseMult(result, b, a, timeCheck)
    ensures EWiseMult(result, a, b, timeCheck).Ok?
    ensures EWiseMult(result, a, b, timeCheck).value.entries <= a.entries
    ensures EWiseMult(result, a, b, timeCheck).value.entries <= b.entries
  {
    assert a.entries * a.entries == a.entries;
    var s := EWiseMult(result, a, b, timeCheck).value;
    assert s.entries == EWiseMult(result, b, a, timeCheck).value.entries;
  }

  // ---------------------------------------------------------------------
  // Matrix product

  /** Accumulating equals element-wise adding the fresh product to the prior
      result. */
  lemma AccumulateIsEWiseAdd(result: Matrix, left: Matrix, right: Matrix, hints: HintSet)
    requires InBounds(result) && InBounds(left) && InBounds(right)
    requires left.ncols == right.nrows && result.nrows == left.nrows && result.ncols == right.ncols
    requires Accumulate in hints
    ensures MxM(result, left, right, hints - {Accumulate}).Ok?
    ensures EWiseAdd(result, MxM(result, left, right, hints - {Accumulate}).value, result)
            == MxM(result, left, right, hints)
  {
    var product := MxM(result, left, right, hints - {Accumulate}).value;
    var acc := MxM(result, left, right, hints).value;
    var sum := EWiseAdd(result, product, result).value;
    forall c | c in acc.entries
      ensures c in sum.entries
    {
      var (i, j) := c;
    }
    forall c | c in sum.entries
      ensures c in acc.entries
    {
      var (i, j) := c;
    }
    assert sum.entries == acc.entries;
  }

  /** Only the accumulate bit of the hints changes the product's result. */
  lemma MxMHintsIrrelevant(result: Matrix, left: Matrix, right: Matrix, h1: HintSet, h2: HintSet)
    requires InBounds(result) && InBounds(left) && InBounds(right)
    requires Accumulate in h1 <==> Accumulate in h2
    ensures MxM(result, left, right, h1) == MxM(result, left, right, h2)
  {
  }

  /** Without accumulate the result's prior content has no influence. */
  lemma MxMReplaces(r1: Matrix, r2: Matrix, left: Matrix, right: Matrix, hints: HintSet)
    requires InBounds(r1) && InBounds(r2) && InBounds(left) && InBounds(right) && SameShape(r1, r2)
    requires Accumulate !in hints
    ensures MxM(r1, left, right, hints) == MxM(r2, left, right, hints)
  {
  }

  /** The identity pattern on the left reproduces the right operand. */
  lemma IdentityProduct(result: Matrix, b: Matrix)
    requires InBounds(result) && InBounds(b) && SameShape(result, b)
    ensures MxM(result, Identity(b.nrows), b, {}) == Ok(b)
  {
    var id := Identity(b.nrows);
    assert InBounds(id);
    var p := MxM(result, id, b, {}).value;
    forall c | c in b.entries
      ensures c in p.entries
    {
      var (i, j) := c;
      assert i in Cardinality.Below(b.nrows);
      assert (i, i) in id.entries;
    }
    forall c | c in p.entries
      ensures c in b.entries
    {
      var (i, j) := c;
      var k :| (i, k) in id.entries && (k, j) in b.entries;
    }
    assert p.entries == b.entries;
  }

  // ---------------------------------------------------------------------
  // Kronecker product

  /** The cell a pair of true cells contributes to the Kronecker product. */
  function KronCell(K: nat, T: nat): ((Cell, Cell)) -> Cell {
    (x: (Cell, Cell)) => (x.0.0 * K + x.1.0, x.0.1 * T + x.1.1)
  }

  /** Distinct pairs of true cells contribute distinct cells. */
  lemma KronCellInjective(left: Matrix, right: Matrix)
    requires InBounds(left) && InBounds(right)
    ensures Cardinality.InjectiveOn(Cardinality.Pairs(left.entries, right.entries),
                                    KronCell(right.nrows, right.ncols))
  {
    var f := KronCell(right.nrows, right.ncols);
    var pairs := Cardinality.Pairs(left.entries, right.entries);
    forall x, y | x in pairs && y in pairs && f(x) == f(y)
      ensures x == y
    {
      BlockUnique(x.0.0, x.1.0, y.0.0, y.1.0, right.nrows);
      BlockUnique(x.0.1, x.1.1, y.0.1, y.1.1, right.ncols);
    }
  }

  /** The Kronecker product is the image of all pairs of true cells. */
  lemma KronIsImage(left: Matrix, right: Matrix)
    ensures Kron(left, right).entries
         == Cardinality.Image(Cardinality.Pairs(left.entries, right.entries), KronCell(right.nrows, right.ncols))
  {
    var f := KronCell(right.nrows, right.ncols);
    var pairs := Cardinality.Pairs(left.entries, right.entries);
    var img := Cardinality.Image(pairs, f);
    forall c | c in Kron(left, right).entries
      ensures c in img
    {
      var p, q :| p in left.entries && q in right.entries
                  && c == (p.0 * right.nrows + q.0, p.1 * right.ncols + q.1);
      assert (p, q) in pairs;
    }
  }

  /** nvals(left kron right) == nvals(left) * nvals(right). */
  lemma KronNvals(left: Matrix, right: Matrix)
    requires InBounds(left) && InBounds(right)
    ensures Nvals(Kron(left, right)) == Nvals(left) * Nvals(right)
  {
    KronCellInjective(left, right);
    KronIsImage(left, right);
    Cardinality.InjectiveImageCard(Cardinality.Pairs(left.entries, right.entries), KronCell(right.nrows, right.ncols));
    Cardinality.PairsCard(left.entries, right.entries);
  }

  /** Through the entry point: the result is MK x NT and holds
      nvals(left) * nvals(right) cells. */
  lemma KroneckerSizeLaw(result: Matrix, left: Matrix, right: Matrix)
    requires InBounds(left) && InBounds(right)
    requires result.nrows == left.nrows * right.nrows && result.ncols == left.ncols * right.ncols
    ensures Kronecker(result, left, right).Ok?
    ensures Kronecker(result, left, right).value.nrows == left.nrows * right.nrows
    ensures Kronecker(result, left, right).value.ncols == left.ncols * right.ncols
    ensures Nvals(Kronecker(result, left, right).value) == Nvals(left) * Nvals(right)
  {
    KronNvals(left, right);
  }

  // ---------------------------------------------------------------------
  // Complement and the masked product

  /** The complement of the complement is the matrix itself. */
  lemma ComplementInvolution(m: Matrix)
    requires InBounds(m)
    ensures InBounds(Complement(m))
    ensures Complement(Complement(m)) == m
  {
  }

  /** The complement holds exactly the cells the matrix lacks. */
  lemma ComplementNvals(m: Matrix)
    requires InBounds(m)
    ensures Nvals(Complement(m)) == m.nrows * m.ncols - Nvals(m)
  {
    var g := Cardinality.Grid(m.nrows, m.ncols);
    Cardinality.GridCard(m.nrows, m.ncols);
    assert m.entries <= g;
    assert g == (g - m.entries) + m.entries;
  }

  /** `a AND NOT b` is the element-wise product of a with b's complement: it
      lies inside a, shares nothing with b, and has a's dimensions. */
  lemma AndNotIsMaskedProduct(a: Matrix, b: Matrix, timeCheck: bool)
    requires InBounds(a) && InBounds(b) && SameShape(a, b)
    ensures EWiseMult(a, a, Complement(b), timeCheck) == Ok(AndNot(a, b))
    ensures AndNot(a, b).entries <= a.entries
    ensures AndNot(a, b).entries !! b.entries
    ensures SameShape(AndNot(a, b), a)
  {
    ComplementInvolution(b);
    assert a.entries * Complement(b).entries == a.entries - b.entries;
  }
}
