/** Concrete cases the library's own tests exercise, stated on the model. */
module Scenarios {
  import opened StatusCodes
  import opened Hints
  import opened BoolMatrix
  import opened MatrixOps
  import LibraryCore
  import EWiseMultEntry
  import MatrixLaws

  /** Building from the single pair (1, 0) gives exactly that cell. */
  lemma SinglePairBuild()
    ensures Build(Empty(3, 3), [1], [0], 1) == Ok(Matrix(3, 3, {(1, 0)}))
  {
    var rows, cols := [1], [0];
    assert forall k :: 0 <= k < 1 ==> rows[k] == 1 && cols[k] == 0;
    var r := Build(Empty(3, 3), rows, cols, 1);
    assert r.Ok?;
    var b := r.value;
    forall c | c in b.entries
      ensures c == (1, 0)
    {
      var k :| 0 <= k < 1 && rows[k] == c.0 && cols[k] == c.1;
    }
    assert (1, 0) in b.entries by {
      assert rows[0] == 1 && cols[0] == 0;
      assert exists k :: 0 <= k < 1 && rows[k] == 1 && cols[k] == 0;
    }
    assert b.entries == {(1, 0)};
  }

  /** A single true cell (1, 0) in a 3 x 3 matrix times a single true cell
      (0, 0) in a 3 x 4 matrix gives exactly (1, 0) in the 3 x 4 result. */
  lemma FrontierProduct()
    ensures MxM(Empty(3, 4), Matrix(3, 3, {(1, 0)}), Matrix(3, 4, {(0, 0)}), {})
            == Ok(Matrix(3, 4, {(1, 0)}))
  {
    var a := Matrix(3, 3, {(1, 0)});
    var b := Matrix(3, 4, {(0, 0)});
    var p := Product(a, b);
    ProductCell(a, b, 1, 0);
    forall c | c in p.entries
      ensures c == (1, 0)
    {
      ProductCell(a, b, c.0, c.1);
    }
    assert p.entries == {(1, 0)};
  }

  /** The diagonal pattern times [[1,1],[0,0]] reproduces [[1,1],[0,0]]. */
  lemma DiagonalProduct()
    ensures MxM(Empty(2, 2), Matrix(2, 2, {(0, 0), (1, 1)}), Matrix(2, 2, {(0, 0), (0, 1)}), {})
            == Ok(Matrix(2, 2, {(0, 0), (0, 1)}))
  {
    var a := Matrix(2, 2, {(0, 0), (1, 1)});
    var b := Matrix(2, 2, {(0, 0), (0, 1)});
    var p := Product(a, b);
    ProductCell(a, b, 0, 0);
    ProductCell(a, b, 0, 1);
    forall c | c in p.entries
      ensures c == (0, 0) || c == (0, 1)
    {
      ProductCell(a, b, c.0, c.1);
    }
    assert p.entries == {(0, 0), (0, 1)};
  }

  /** [[1,0],[0,0]] OR [[0,0],[0,1]] is [[1,0],[0,1]] with two true cells. */
  lemma DisjointSum()
    ensures EWiseAdd(Empty(2, 2), Matrix(2, 2, {(0, 0)}), Matrix(2, 2, {(1, 1)}))
            == Ok(Matrix(2, 2, {(0, 0), (1, 1)}))
    ensures Nvals(Matrix(2, 2, {(0, 0), (1, 1)})) == 2
  {
    var s := EWiseAdd(Empty(2, 2), Matrix(2, 2, {(0, 0)}), Matrix(2, 2, {(1, 1)}));
    assert s.value.entries == {(0, 0), (1, 1)};
  }

  /** The masked-product test: [[1,0,0],[0,0,0],[0,1,0]] masked by the
      negation of [[0,1,1],[1,0,1],[0,1,1]] keeps only (0, 0). */
  lemma MaskedProductCase()
    ensures AndNot(Matrix(3, 3, {(0, 0), (2, 1)}),
                   Matrix(3, 3, {(0, 1), (0, 2), (1, 0), (1, 2), (2, 1), (2, 2)}))
            == Matrix(3, 3, {(0, 0)})
    ensures EWiseMult(Matrix(3, 3, {(0, 0), (2, 1)}), Matrix(3, 3, {(0, 0), (2, 1)}),
                      Complement(Matrix(3, 3, {(0, 1), (0, 2), (1, 0), (1, 2), (2, 1), (2, 2)})), false)
            == Ok(Matrix(3, 3, {(0, 0)}))
  {
    var a := Matrix(3, 3, {(0, 0), (2, 1)});
    var b := Matrix(3, 3, {(0, 1), (0, 2), (1, 0), (1, 2), (2, 1), (2, 2)});
    assert a.entries - b.entries == {(0, 0)};
    MatrixLaws.AndNotIsMaskedProduct(a, b, false);
  }

  /** The inversion test: [[1,0,0],[0,0,0],[0,1,0]] has 2 true cells, so its
      inverse has 7. */
  lemma InvertedCount()
    ensures Nvals(Complement(Matrix(3, 3, {(0, 0), (2, 1)}))) == 7
  {
    var m := Matrix(3, 3, {(0, 0), (2, 1)});
    assert |m.entries| == 2;
    MatrixLaws.ComplementNvals(m);
  }

  /** After a plain (non-relaxed) finalize, element-wise multiply on any
      handles is refused with InvalidState. */
  lemma FinalizeInvalidatesHandles(lib: LibraryCore.Library, r: LibraryCore.Handle,
                                   a: LibraryCore.Handle, b: LibraryCore.Handle, hints: HintSet)
    requires LibraryCore.Valid(lib) && !lib.relaxed
    ensures var done := LibraryCore.Finalize(lib);
            EWiseMultEntry.EWiseMult(done, Some(r), Some(a), Some(b), hints)
            == LibraryCore.Outcome(done, InvalidState)
  {
    LibraryCore.ValidPreserved(lib, {}, LibraryCore.Platform(false, false, false, false), r);
  }

  /** An extraction buffer one slot short of the true cells is refused. */
  lemma ShortBuffer(m: Matrix)
    requires InBounds(m) && Nvals(m) > 0
    ensures ExtractPairs(m, Nvals(m) - 1) == Err(InvalidArgument)
  {
  }
}
