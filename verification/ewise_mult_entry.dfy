/** The element-wise multiply entry point on handles: the library check,
    then the null checks on the three handles, then the AND of the operands
    stored into the result handle.  Of the hints only the time-check flag is
    passed on, and it does not change the result. */
module EWiseMultEntry {
  import opened StatusCodes
  import opened Hints
  import opened BoolMatrix
  import opened LibraryCore
  import MatrixOps

  /** A nullable handle: `None` is the null handle. */
  type MaybeHandle = Option<Handle>

  /** A non-null handle names a live matrix. */
  predicate Registered(lib: Library, h: MaybeHandle) {
    h.Some? ==> h.value in lib.matrices
  }

  /** `result = left AND right` through the public entry point.  Non-null
      handles must name live matrices whenever the library check passes, since
      the source then dereferences them. */
  function EWiseMult(lib: Library, result: MaybeHandle, left: MaybeHandle, right: MaybeHandle,
                     hints: HintSet): (out: Outcome)
    requires Valid(lib)
    requires Validate(lib) == Success ==>
               Registered(lib, result) && Registered(lib, left) && Registered(lib, right)
    ensures Valid(out.lib)
    ensures out.status == Success || out.status == InvalidState || out.status == InvalidArgument
    ensures out.status != Success ==> out.lib == lib
    // The library check comes first, before any argument is looked at.
    ensures out.status == InvalidState <==> Validate(lib) == InvalidState
    ensures Validate(lib) == Success && (result.None? || left.None? || right.None?) ==>
              out.status == InvalidArgument
    // Past the guards the call succeeds exactly when the three shapes agree;
    // a mismatch is an invalid argument.
    ensures Validate(lib) == Success && result.Some? && left.Some? && right.Some? ==>
              (out.status == Success <==>
                 SameShape(lib.matrices[result.value], lib.matrices[left.value])
                 && SameShape(lib.matrices[left.value], lib.matrices[right.value]))
    ensures out.status == Success ==>
              && result.Some? && left.Some? && right.Some?
              && var l, r := lib.matrices[left.value], lib.matrices[right.value];
              && SameShape(lib.matrices[result.value], l) && SameShape(l, r)
              && out.lib.matrices.Keys == lib.matrices.Keys
              && SameShape(out.lib.matrices[result.value], lib.matrices[result.value])
              && (forall c :: c in out.lib.matrices[result.value].entries <==> c in l.entries && c in r.entries)
              && (forall h :: h in lib.matrices && h != result.value ==> out.lib.matrices[h] == lib.matrices[h])
              && out.lib.vectors == lib.vectors && out.lib.backend == lib.backend
              && out.lib.relaxed == lib.relaxed && out.lib.next == lib.next
  {
    if Validate(lib) != Success then Outcome(lib, InvalidState)
    else if result.None? || left.None? || right.None? then Outcome(lib, InvalidArgument)
    else
      var res := lib.matrices[result.value];
      var r := MatrixOps.EWiseMult(res, lib.matrices[left.value], lib.matrices[right.value], TimeCheck in hints);
      if r.Err? then Outcome(lib, r.status)
      else Outcome(lib.(matrices := lib.matrices[result.value := r.value]), Success)
  }

  /** The hints never change the outcome. */
  lemma HintsIrrelevant(lib: Library, result: MaybeHandle, left: MaybeHandle, right: MaybeHandle,
                        h1: HintSet, h2: HintSet)
    requires Valid(lib)
    requires Validate(lib) == Success ==>
               Registered(lib, result) && Registered(lib, left) && Registered(lib, right)
    ensures EWiseMult(lib, result, left, right, h1) == EWiseMult(lib, result, left, right, h2)
  {
  }

  /** An uninitialized, non-relaxed library is refused even when every handle
      is null: the library check precedes the argument checks. */
  lemma StateBeforeArguments(lib: Library, hints: HintSet)
    requires Valid(lib) && lib.backend.None? && !lib.relaxed
    ensures EWiseMult(lib, None, None, None, hints) == Outcome(lib, InvalidState)
  {
  }

  /** A live matrix multiplied by itself into itself is left as it is
      (A AND A == A). */
  lemma SelfProductUnchanged(lib: Library, h: Handle, hints: HintSet)
    requires Valid(lib) && h in lib.matrices && Validate(lib) == Success
    ensures EWiseMult(lib, Some(h), Some(h), Some(h), hints) == Outcome(lib, Success)
  {
    var m := lib.matrices[h];
    assert m.entries * m.entries == m.entries;
    assert lib.matrices[h := m] == lib.matrices;
  }

  /** Multiplying into a handle never leaves more cells than either operand
      has. */
  lemma ProductShrinks(lib: Library, result: Handle, left: Handle, right: Handle, hints: HintSet)
    requires Valid(lib) && Validate(lib) == Success
    requires result in lib.matrices && left in lib.matrices && right in lib.matrices
    ensures var out := EWiseMult(lib, Some(result), Some(left), Some(right), hints);
            out.status == Success ==>
              && out.lib.matrices[result].entries <= lib.matrices[left].entries
              && out.lib.matrices[result].entries <= lib.matrices[right].entries
              && Nvals(out.lib.matrices[result]) <= Nvals(lib.matrices[left])
  {
    var out := EWiseMult(lib, Some(result), Some(left), Some(right), hints);
    if out.status == Success {
      var l := lib.matrices[left].entries;
      var p := out.lib.matrices[result].entries;
      assert p <= l;
      assert l == p + (l - p);
    }
  }
}
