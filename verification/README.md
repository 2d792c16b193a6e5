# cuBool core in Dafny

cuBool is a sparse boolean linear-algebra library. A matrix is a boolean
relation over `{0..nrows-1} x {0..ncols-1}`. The library offers these
operations over the boolean semiring (OR as addition, AND as multiplication):

- build from (row, col) pairs and extract the pairs back;
- duplicate and transpose;
- element-wise add and multiply;
- matrix product, optionally accumulated into the result;
- Kronecker product.

A process-wide library context chooses a backend (CUDA or sequential CPU) at
initialization. It also keeps registries of the live matrix and vector
handles.

This project models that core as pure Dafny and proves its contracts:

- `status.dfy`, `hints.dfy`: the status codes and their numbering; the hint
  flags as a set, with the bit encoding of the four flags the public header
  fixes.
- `matrix.dfy`:
  - the matrix value `(nrows, ncols, entries)` with its in-bounds invariant;
  - build from pairs;
  - extraction of the pairs in row-major order.
- `ops.dfy`: the entry points Transpose, EWiseAdd, EWiseMult, MxM (with the
  accumulate hint) and Kronecker. Each has a shape check that fails with
  InvalidArgument, and a set-level meaning on success.
- `laws.dfy`: algebraic laws of those operations:
  - involutions, idempotence and commutativity;
  - accumulate as an element-wise add;
  - the Kronecker count law;
  - complement, and `a AND NOT b` as a masked product.
- `sorted.dfy`, `csr.dfy`: the compressed-sparse-row layout of the sequential
  backend, in which each row is a strictly increasing column list. On that
  layout:
  - sorted merges compute union, intersection and difference;
  - a row-merge product computes the matrix product;
  - each is proved equal to the set-level operation;
  - the layout of a matrix is unique.
- `library.dfy`: the library context as an immutable record, with these
  operations:
  - initialize, with its backend fallback order;
  - finalize, with or without relaxed release;
  - validate;
  - create, duplicate and release of matrices and vectors.
- `logging.dfy`: the log-level filter a text logger installs.
- `ewise_mult_entry.dfy`: the element-wise multiply entry point on handles.
  It runs the library check, then the null checks, then the AND, and stores
  the result into the result handle.
- `masked.dfy`: the dense-inversion reference for `a AND NOT b`. It rebuilds
  a matrix from the cells it lacks, walking them in row-major order.
- `scenarios.dfy`: concrete cases taken from the library's tests.

Backend availability, which the source probes at run time, is a parameter
(`LibraryCore.Platform`). Handles are drawn from a counter in the context.

## Model

| member | source | states |
|---|---|---|
| StatusCodes.Code | cubool/include/cubool/cubool.h:54-73 | Each status has its numeric value 0..8, and only Success is 0. |
| StatusCodes.FromCode | cubool/include/cubool/cubool.h:54-73 | Reading a number back yields the status with that code, or nothing when the number exceeds 8. |
| StatusCodes.CodeInjective | cubool/include/cubool/cubool.h:54-73 | Distinct statuses have distinct codes. |
| Hints.Encode | cubool/include/cubool/cubool.h:76-90 | A set of header flags packs into a 32-bit mask that uses only the low four bits. |
| Hints.Decode | cubool/include/cubool/cubool.h:76-90 | A header flag is in the decoded set exactly when its bit is set in the mask. |
| Hints.DecodeEncode | cubool/include/cubool/cubool.h:76-90 | Decoding an encoded flag set gives the set back. |
| Hints.EncodeDecode | cubool/include/cubool/cubool.h:76-90 | Encoding a decoded mask keeps exactly its low four bits. |
| Hints.DecodeOr | cubool/include/cubool/cubool.h:76-90 | OR-ing masks unions their flag sets. |
| BoolMatrix.Build | cubool/include/cubool/cubool.h:224-242 | It fails with InvalidArgument iff some pair lies outside the matrix. Otherwise the dimensions are kept and the entries are exactly the given pairs. |
| BoolMatrix.ExtractPairs | cubool/include/cubool/cubool.h:244-262 | A buffer smaller than nvals is an invalid argument. Otherwise nvals is the number of true cells, and every listed pair is a true cell. Every true cell is listed, in strictly row-major order, so there are no duplicates. |
| BoolMatrix.BuildExtractRoundTrip | cubool/include/cubool/cubool.h:224-262 | Building from the extracted pairs gives the original matrix back. |
| BoolMatrix.BuildCanonical | cubool/include/cubool/cubool.h:224-242 | Two builds with the same set of pairs give the same matrix, whatever the order or repetition of the input. |
| MatrixOps.Transpose | cubool/include/cubool/cubool.h:277-289 | It fails iff the result is not ncols x nrows of the source. On success, (i, j) holds iff (j, i) holds in the source. |
| MatrixOps.EWiseAdd | cubool/include/cubool/cubool.h:338-355 | It fails iff the shapes differ. On success, a cell holds iff it holds in left or in right, and the result keeps its dimensions. |
| MatrixOps.EWiseMult | cubool/sources/cuBool_Matrix_EWiseMult.cpp:46 | It fails iff the shapes differ. On success, a cell holds iff it holds in both operands. |
| MatrixOps.MxM | cubool/include/cubool/cubool.h:357-378 | It fails iff the shapes are not M x T, T x N and M x N. On success, (i, j) holds iff some k has (i, k) in left and (k, j) in right, or else accumulate is set and (i, j) was already in the result. |
| MatrixOps.Kronecker | cubool/include/cubool/cubool.h:380-398 | It fails iff the result is not MK x NT. On success, its cells are exactly (i*K+k, j*T+l) for (i, j) in left and (k, l) in right. |
| MatrixOps.KronInBounds | cubool/include/cubool/cubool.h:380-398 | Every Kronecker cell lies inside MK x NT. |
| MatrixOps.KronHas | cubool/include/cubool/cubool.h:380-398 | Every pair of true cells contributes its block cell. |
| MatrixOps.KronOnly | cubool/include/cubool/cubool.h:380-398 | Every Kronecker cell comes from some pair of true cells. |
| MatrixLaws.TransposedInvolution | cubool/include/cubool/cubool.h:277-289 | Transposing twice gives the original entries. |
| MatrixLaws.TransposedNvals | cubool/include/cubool/cubool.h:277-289 | Transposing keeps the number of true cells. |
| MatrixLaws.TransposeTwice | cubool/include/cubool/cubool.h:277-289 | Through the entry point, transposing twice succeeds and returns the original matrix with the same count. |
| MatrixLaws.EWiseAddLaws | cubool/include/cubool/cubool.h:338-355 | A OR A == A. A OR B == B OR A. The sum holds at least as many cells as either operand. |
| MatrixLaws.EWiseMultLaws | cubool/sources/cuBool_Matrix_EWiseMult.cpp:46 | A AND A == A. A AND B == B AND A. The product lies inside both operands. |
| MatrixLaws.AccumulateIsEWiseAdd | cubool/include/cubool/cubool.h:357-378 | The accumulating product equals the element-wise add of the fresh product and the prior result. |
| MatrixLaws.MxMHintsIrrelevant | cubool/include/cubool/cubool.h:357-378 | Only the accumulate flag among the hints changes the product. |
| MatrixLaws.MxMReplaces | cubool/tests/dk6_test.cpp:71-80 | Without accumulate, the result's prior content has no influence. |
| MatrixLaws.IdentityProduct | cubool/include/cubool/cubool.h:357-378 | The diagonal pattern times B is B. |
| MatrixLaws.KronCellInjective | cubool/include/cubool/cubool.h:380-398 | Distinct pairs of true cells land on distinct Kronecker cells. |
| MatrixLaws.KronIsImage | cubool/include/cubool/cubool.h:380-398 | The Kronecker cells are the image of all pairs of true cells. |
| MatrixLaws.KronNvals | cubool/include/cubool/cubool.h:380-398 | nvals(left kron right) == nvals(left) * nvals(right). |
| MatrixLaws.KroneckerSizeLaw | cubool/include/cubool/cubool.h:380-398 | Through the entry point, the result is MK x NT with nvals(left) * nvals(right) cells. |
| MatrixLaws.ComplementInvolution | cubool/tests/inverted_test.cpp:44-61 | The complement of the complement is the matrix. |
| MatrixLaws.ComplementNvals | cubool/tests/inverted_test.cpp:44-61 | The complement holds nrows*ncols - nvals cells. |
| MatrixLaws.AndNotIsMaskedProduct | cubool/sources/sequential/sq_ewisemultinverted.hpp:32-39 | `a AND NOT b` equals the element-wise product of a with b's complement. It lies inside a, is disjoint from b, and has a's dimensions. |
| SortedRows.Union | cubool/include/cubool/cubool.h:338-355 | The merged row is strictly increasing and holds exactly the columns of either row. |
| SortedRows.Intersect | cubool/sources/cuBool_Matrix_EWiseMult.cpp:46 | The merged row is strictly increasing and holds exactly the columns of both rows. |
| SortedRows.Diff | cubool/sources/sequential/sq_ewisemultinverted.hpp:32-39 | The merged row is strictly increasing and holds exactly the columns of a that b lacks. |
| SortedRows.SameElementsSame | cubool/sources/sequential/sq_ewisemultinverted.hpp:28 | Two increasing rows with the same columns are equal. |
| SortedRows.MergeRows | cubool/include/cubool/cubool.h:338-355 | The two-cursor loop returns the sorted union and never outgrows the two inputs together. |
| Csr.ToMatrix | cubool/sources/sequential/sq_ewisemultinverted.hpp:28-39 | A valid layout denotes an in-bounds matrix of its dimensions whose true cells are exactly the listed (row, column) pairs. |
| Csr.FromMatrix | cubool/sources/sequential/sq_ewisemultinverted.hpp:28-39 | Every in-bounds matrix has a valid layout that denotes it. |
| Csr.LayoutUnique | cubool/sources/sequential/sq_ewisemultinverted.hpp:28-39 | A valid layout is the layout of the matrix it denotes. |
| Csr.EWiseAdd | cubool/include/cubool/cubool.h:338-355 | Row-wise sorted union on layouts is element-wise OR on the matrices. |
| Csr.EWiseMult | cubool/sources/cuBool_Matrix_EWiseMult.cpp:46 | Row-wise sorted intersection on layouts is element-wise AND on the matrices. |
| Csr.EWiseMultInverted | cubool/sources/sequential/sq_ewisemultinverted.hpp:32-39 | out has a's dimensions, and (i, j) is in out iff it is in a and not in b. |
| Csr.EWiseMultInvertedIsMaskedProduct | cubool/tests/inverted_test.cpp:33-63 | The inverted product equals AND with the dense complement of b. |
| Csr.RowProduct | cubool/include/cubool/cubool.h:357-378 | A product row is increasing and holds column j iff some selected row of right holds j. |
| Csr.MxM | cubool/include/cubool/cubool.h:357-378 | The row-merge product on layouts is the boolean matrix product. |
| LibraryCore.Initialize | cubool/sources/core/library.cpp:59-96 | See the Initialize breakdown below the table. |
| LibraryCore.Finalize | cubool/sources/core/library.cpp:98-129 | Without a backend it changes nothing. Otherwise the backend is released and the relaxed flag kept. The registries are emptied iff relaxed, and left as they are otherwise. |
| LibraryCore.Validate | cubool/sources/core/library.cpp:131-133 | Success iff a backend is live or the relaxed flag is set, otherwise InvalidState. |
| LibraryCore.CreateMatrix | cubool/sources/core/library.cpp:195-207 | A zero dimension is InvalidArgument, whether or not a backend is live. Otherwise exactly one fresh handle is added, holding an empty nrows x ncols matrix, and every other object is unchanged. |
| LibraryCore.CreateVector | cubool/sources/core/library.cpp:209-220 | A zero size is InvalidArgument, whether or not a backend is live. Otherwise exactly one fresh vector handle is added and nothing else changes. |
| LibraryCore.DuplicateMatrix | cubool/include/cubool/cubool.h:264-275 | A fresh handle is added whose matrix equals the source's, in dimensions and content. Every other object, the backend and the relaxed flag are unchanged. |
| LibraryCore.ReleaseMatrix | cubool/sources/core/library.cpp:222-232 | After a relaxed finalize it silently does nothing. Otherwise an unknown handle is InvalidArgument, and a known one is removed with nothing else changed. |
| LibraryCore.ReleaseVector | cubool/sources/core/library.cpp:234-244 | The same as ReleaseMatrix, on the vector registry. |
| LibraryCore.ValidPreserved | cubool/sources/core/library.cpp:59-133 | The starting context is valid, and initialize, finalize and both releases keep it valid. |
| LibraryCore.InitializeTwice | cubool/sources/core/library.cpp:60 | A second initialize returns InvalidState and leaves the context as it was. |
| LibraryCore.FinalizeThenInitialize | cubool/sources/core/library.cpp:59-129 | After finalize, initialize is never refused as a double initialize. It succeeds when the sequential backend comes up. |
| LibraryCore.FinalizeIdempotent | cubool/sources/core/library.cpp:98-129 | Finalizing twice is finalizing once. |
| LibraryCore.ValidateAfterFinalize | cubool/sources/core/library.cpp:94-133 | After finalize, validate succeeds exactly when the relaxed flag was set. |
| LibraryCore.RelaxedReleaseAfterFinalize | cubool/sources/core/library.cpp:222-244 | After a relaxed finalize the registries are empty, and releasing any handle is an accepted no-op. |
| LibraryCore.ReleaseUndoesCreate | cubool/sources/core/library.cpp:195-232 | Releasing a matrix just created restores the registries it was created in. |
| LibraryCore.ReleaseUndoesCreateVector | cubool/sources/core/library.cpp:209-244 | Releasing a vector just created restores the registries it was created in. |
| LibraryCore.CpuHintSelectsSequential | cubool/sources/core/library.cpp:62-91 | With the CPU hint, a successful initialize tried only the sequential backend and runs on it. |
| LogFilter.Accepts | cubool/sources/core/library.cpp:149-157 | The zero mask or log-all passes every level. Info and Always pass only then. Error passes iff the mask is zero or holds log-all or log-error; Warning passes iff it is zero or holds log-all or log-warning. |
| LogFilter.AcceptsMonotone | cubool/sources/core/library.cpp:149-157 | On non-empty sets, adding flags never filters out more. |
| LogFilter.EmptyIsNotLeast | cubool/sources/core/library.cpp:149-157 | The empty set passes everything, while the set holding only the accumulate flag passes nothing. |
| EWiseMultEntry.EWiseMult | cubool/sources/cuBool_Matrix_EWiseMult.cpp:32-48 | See the EWiseMult breakdown below the table. |
| EWiseMultEntry.HintsIrrelevant | cubool/sources/cuBool_Matrix_EWiseMult.cpp:46 | The hints never change the outcome. |
| EWiseMultEntry.StateBeforeArguments | cubool/sources/cuBool_Matrix_EWiseMult.cpp:39-42 | An uninitialized, non-relaxed library returns InvalidState even when all three handles are null. |
| EWiseMultEntry.SelfProductUnchanged | cubool/sources/cuBool_Matrix_EWiseMult.cpp:46 | A AND A stored into A leaves the context unchanged. |
| EWiseMultEntry.ProductShrinks | cubool/sources/cuBool_Matrix_EWiseMult.cpp:46 | The stored product lies inside both operands and has no more cells than left. |
| MaskReference.InvertByRebuild | cubool/tests/inverted_test.cpp:33-63 | Rebuilding a matrix from the false cells it visits in row-major order yields exactly its complement. |
| MaskReference.ApplyNotMask | cubool/tests/apply_not_mask_test.cpp:66-76 | Inverting a copy of the mask and multiplying element-wise yields `a AND NOT b`, inside a and disjoint from b. It fails iff the shapes differ. |
| Scenarios.SinglePairBuild | cubool/tests/dk6_test.cpp:88-103 | Building from the one pair (1, 0) gives exactly that cell. |
| Scenarios.FrontierProduct | cubool/tests/dk6_test.cpp:91-103 | {(1,0)} (3x3) times {(0,0)} (3x4) is exactly {(1,0)}. |
| Scenarios.DiagonalProduct | cubool/include/cubool/cubool.h:357-378 | [[1,0],[0,1]] times [[1,1],[0,0]] is [[1,1],[0,0]]. |
| Scenarios.DisjointSum | cubool/include/cubool/cubool.h:338-355 | [[1,0],[0,0]] OR [[0,0],[0,1]] is [[1,0],[0,1]], with 2 true cells. |
| Scenarios.MaskedProductCase | cubool/tests/test_matrix_ewisemult_inverted.cpp:85-108 | The test's 3x3 matrix masked by the negated mask keeps only (0, 0), both directly and as AND with the complement. |
| Scenarios.InvertedCount | cubool/tests/inverted_test.cpp:83-95 | The test's 3x3 matrix with 2 true cells has an inverse with 7. |
| Scenarios.FinalizeInvalidatesHandles | cubool/sources/core/library.cpp:98-133 | After a non-relaxed finalize, element-wise multiply on any handles returns InvalidState. |
| Scenarios.ShortBuffer | cubool/include/cubool/cubool.h:244-262 | An extraction buffer one slot short is refused with InvalidArgument. |

`LibraryCore.Initialize` states:

- A live backend gives InvalidState and changes nothing.
- Otherwise CUDA is tried only without the CPU hint and only when it is built.
- The sequential backend is tried only when built and CUDA did not come up.
- CUDA is always tried before the sequential backend.
- The result is BackendError, with nothing changed, iff no tried backend comes up.
- On success the last backend tried is live, and the relaxed flag is the relaxed-finalize hint.

`EWiseMultEntry.EWiseMult` states:

- The library check comes first: InvalidState iff validate fails, even when handles are null.
- Next a null handle is InvalidArgument.
- With three non-null handles the call succeeds iff the three shapes agree; a mismatch is InvalidArgument.
- On success the result handle holds exactly the cells in both operands, with its dimensions unchanged.
- All other objects, the backend, the relaxed flag and the handle counter are unchanged.
- Every failure leaves the context as it was.

## Left out

- The CUDA backend, device memory and capability queries: they need a device. Whether a backend comes up is a parameter of `Initialize`.
- Logging I/O: the log file, message formatting and `logDeviceInfo`. Only the filter predicate is modelled.
- `queryCapabilities`, `cuBool_About_Get`, license and version strings, and user allocation and message callbacks: these are foreign calls or constant text.
- The Python bindings (`pycubool`): FFI plumbing for an older API revision.
- The CUDA kernels and the sequential kernels' sources. These files are not part of this model. The sorted-merge layer in `sorted.dfy` and `csr.dfy` is a reference for what they compute, not a transcription of them.
- The 32-bit index type: indices are unbounded naturals. Overflow of `nrows * ncols` or of Kronecker dimensions is not modelled.
- The VALUES_SORTED and NO_DUPLICATES hints are promises by the caller about the input arrays. Build assumes the caller keeps them and ignores the hints. With a false VALUES_SORTED promise the source's result is unspecified, and that case is not modelled.
- The values of the RELAXED_FINALIZE, LOG_ERROR, LOG_WARNING, LOG_ALL, TIME_CHECK and NO_DUPLICATES flags are not in the public header, which fixes only CPU_BACKEND, GPU_MEM_MANAGED, VALUES_SORTED and ACCUMULATE (0x1 to 0x8). The model assumes all ten flags are distinct bits, so a hint mask is a set of flags. `LibraryCore.Initialize` (the relaxed flag) and `LogFilter.Accepts` (the per-level mask tests) rely on this.
- The time-check hint: it only times the operation. The model passes it on and proves it has no effect on the result.
- Memory-allocation failures (MemOpFailed) and device errors: they depend on the machine.
- Handles are counters, not addresses: a released handle is never reused. The source could hand out a freed pointer again.
- Vector contents: a vector is registered with its size only.
- EWiseMultEntry.EWiseMult: requires live handles whenever the library check passes. The source casts and dereferences them without a registry check, so a dangling handle is undefined behaviour there. In particular, after a relaxed finalize the check still passes while every handle has been released.
- LibraryCore.CreateMatrix: requires a live backend when both dimensions are positive. Past the dimension check the source dereferences the backend pointer, which is null after a relaxed finalize even though the library check passes.
- LibraryCore.CreateVector: requires a live backend when the size is positive, for the same reason as CreateMatrix.
- LibraryCore.DuplicateMatrix: requires a live backend and a registered source handle. The header does not say what happens otherwise.
- Matrix dimension checks inside the matrix class are not part of this model. The header's notes require compatible shapes without naming a status; a mismatch is modelled as InvalidArgument.
- The header's text for element-wise add reads "result += left" although it takes two operands. It is modelled as result = left OR right, with the result's prior content discarded, as the element-wise multiply entry does with AND.
- The header's note on finalize says it invalidates every handle (cubool/include/cubool/cubool.h:202). In the code the relaxed flag survives finalize, so validate still passes afterwards. The model follows the code (`LibraryCore.ValidateAfterFinalize`).
