/** The library context: which backend is live, whether finalize releases
    objects implicitly ("relaxed"), and the registries of live matrix and
    vector handles.  Each entry point is a function from the old context to
    the new one together with the status it reports. */
module LibraryCore {
  import opened StatusCodes
  import opened Hints
  import opened BoolMatrix

  /** The two computation backends, in the order selection tries them. */
  datatype Backend = Cuda | Sequential

  /** A handle names a registered object.  Handles are drawn from a counter,
      so a new one never collides with a live one. */
  type Handle = nat

  /** What the build and the machine provide: whether each backend was
      compiled in, and whether it comes up when asked.  The second bit stands
      for device probing the model cannot see. */
  datatype Platform = Platform(cudaBuilt: bool, cudaStarts: bool,
                               sequentialBuilt: bool, sequentialStarts: bool)

  datatype Library = Library(backend: Option<Backend>, relaxed: bool,
                             matrices: map<Handle, Matrix>, vectors: map<Handle, nat>,
                             next: Handle)

  /** The context before the first initialize. */
  const Unloaded: Library := Library(None, false, map[], map[], 0)

  /** Every handle was issued by the counter, matrix and vector handles never
      coincide, and every live object has positive dimensions. */
  predicate Valid(lib: Library) {
    && (forall h :: h in lib.matrices ==> h < lib.next)
    && (forall h :: h in lib.vectors ==> h < lib.next)
    && (forall h :: h in lib.matrices ==> h !in lib.vectors)
    && (forall h :: h in lib.matrices ==> InBounds(lib.matrices[h])
                                          && lib.matrices[h].nrows > 0 && lib.matrices[h].ncols > 0)
    && (forall h :: h in lib.vectors ==> lib.vectors[h] > 0)
  }

  /** Whether a backend comes up once it is tried. */
  predicate Starts(p: Platform, b: Backend) {
    match b
    case Cuda => p.cudaStarts
    case Sequential => p.sequentialStarts
  }

  /** The new context, the status, and the backends tried, in order. */
  datatype InitOutcome = InitOutcome(lib: Library, status: Status, tried: seq<Backend>)

  /** Initialization: refuses a second initialize; otherwise tries CUDA
      unless the CPU hint is given, falls back to the sequential backend, and
      fails when neither comes up.  On success the relaxed flag is the
      relaxed-finalize hint. */
  function Initialize(lib: Library, hints: HintSet, p: Platform): (out: InitOutcome)
    ensures out.status == Success || out.status == InvalidState || out.status == BackendError
    ensures out.status == InvalidState <==> lib.backend.Some?
    ensures out.status != Success ==> out.lib == lib
    ensures lib.backend.Some? ==> out.tried == []
    // Fallback order: CUDA (if at all) before the sequential backend, each at most once.
    ensures forall i, j :: 0 <= i < j < |out.tried| ==> out.tried[i] == Cuda && out.tried[j] == Sequential
    ensures Cuda in out.tried <==> lib.backend.None? && CpuBackend !in hints && p.cudaBuilt
    ensures Sequential in out.tried <==>
              lib.backend.None? && p.sequentialBuilt && !(Cuda in out.tried && p.cudaStarts)
    ensures out.status == BackendError <==>
              lib.backend.None? && forall b :: b in out.tried ==> !Starts(p, b)
    ensures out.status == Success ==>
              && out.lib.backend.Some?
              && out.lib.backend.value in out.tried
              && Starts(p, out.lib.backend.value)
              && out.tried[|out.tried| - 1] == out.lib.backend.value
    ensures out.status == Success ==>
              out.lib == lib.(backend := out.lib.backend, relaxed := RelaxedFinalize in hints)
  {
    if lib.backend.Some? then InitOutcome(lib, InvalidState, [])
    else
      var cudaTried := CpuBackend !in hints && p.cudaBuilt;
      var cudaUp := cudaTried && p.cudaStarts;
      var seqTried := !cudaUp && p.sequentialBuilt;
      var seqUp := seqTried && p.sequentialStarts;
      var tried := (if cudaTried then [Cuda] else []) + (if seqTried then [Sequential] else []);
      if cudaUp then
        InitOutcome(lib.(backend := Some(Cuda), relaxed := RelaxedFinalize in hints), Success, tried)
      else if seqUp then
        InitOutcome(lib.(backend := Some(Sequential), relaxed := RelaxedFinalize in hints), Success, tried)
      else
        InitOutcome(lib, BackendError, tried)
  }

  /** Finalization: nothing happens without a backend.  Otherwise the backend
      is released; with the relaxed flag every live object is released too,
      without it the registries keep their (now leaked) entries.  The relaxed
      flag itself survives. */
  function Finalize(lib: Library): (out: Library)
    ensures out.backend.None?
    ensures out.relaxed == lib.relaxed && out.next == lib.next
    ensures lib.backend.None? ==> out == lib
    ensures lib.backend.Some? && lib.relaxed ==> out.matrices == map[] && out.vectors == map[]
    ensures !lib.relaxed ==> out.matrices == lib.matrices && out.vectors == lib.vectors
  {
    if lib.backend.None? then lib
    else if lib.relaxed then lib.(backend := None, matrices := map[], vectors := map[])
    else lib.(backend := None)
  }

  /** The library check every entry point runs first. */
  function Validate(lib: Library): (s: Status)
    ensures s == Success || s == InvalidState
    ensures s == Success <==> lib.backend.Some? || lib.relaxed
  {
    if lib.backend.Some? || lib.relaxed then Success else InvalidState
  }

  /** A new object's context and its handle. */
  datatype Created = Created(lib: Library, handle: Handle)

  /** A new empty nrows x ncols matrix, registered under a fresh handle.  A
      zero dimension is an invalid argument, reported before the backend is
      touched.  Past that check the live backend is required: the source
      dereferences it. */
  function CreateMatrix(lib: Library, nrows: nat, ncols: nat): (r: Result<Created>)
    requires Valid(lib)
    requires nrows > 0 && ncols > 0 ==> lib.backend.Some?
    ensures r.Err? <==> nrows == 0 || ncols == 0
    ensures r.Err? ==> r.status == InvalidArgument
    ensures r.Ok? ==> Valid(r.value.lib)
    ensures r.Ok? ==> r.value.handle !in lib.matrices && r.value.handle !in lib.vectors
    ensures r.Ok? ==> r.value.lib.matrices.Keys == lib.matrices.Keys + {r.value.handle}
    ensures r.Ok? ==> r.value.lib.matrices[r.value.handle] == Empty(nrows, ncols)
    ensures r.Ok? ==> forall h :: h in lib.matrices ==> r.value.lib.matrices[h] == lib.matrices[h]
    ensures r.Ok? ==> r.value.lib.vectors == lib.vectors
    ensures r.Ok? ==> r.value.lib.backend == lib.backend && r.value.lib.relaxed == lib.relaxed
  {
    if nrows == 0 || ncols == 0 then Err(InvalidArgument)
    else
      var h := lib.next;
      Ok(Created(lib.(matrices := lib.matrices[h := Empty(nrows, ncols)], next := h + 1), h))
  }

  /** A new vector of `nrows` entries, registered under a fresh handle.  A
      zero dimension is an invalid argument, reported before the backend is
      touched; past that check the live backend is required. */
  function CreateVector(lib: Library, nrows: nat): (r: Result<Created>)
    requires Valid(lib)
    requires nrows > 0 ==> lib.backend.Some?
    ensures r.Err? <==> nrows == 0
    ensures r.Err? ==> r.status == InvalidArgument
    ensures r.Ok? ==> Valid(r.value.lib)
    ensures r.Ok? ==> r.value.handle !in lib.matrices && r.value.handle !in lib.vectors
    ensures r.Ok? ==> r.value.lib.vectors.Keys == lib.vectors.Keys + {r.value.handle}
    ensures r.Ok? ==> r.value.lib.vectors[r.value.handle] == nrows
    ensures r.Ok? ==> forall h :: h in lib.vectors ==> r.value.lib.vectors[h] == lib.vectors[h]
    ensures r.Ok? ==> r.value.lib.matrices == lib.matrices
    ensures r.Ok? ==> r.value.lib.backend == lib.backend && r.value.lib.relaxed == lib.relaxed
  {
    if nrows == 0 then Err(InvalidArgument)
    else
      var h := lib.next;
      Ok(Created(lib.(vectors := lib.vectors[h := nrows], next := h + 1), h))
  }

  /** A new matrix with the dimensions and content of a registered one. */
  function DuplicateMatrix(lib: Library, h: Handle): (c: Created)
    requires Valid(lib) && lib.backend.Some? && h in lib.matrices
    ensures Valid(c.lib)
    ensures c.handle !in lib.matrices && c.handle !in lib.vectors
    ensures c.lib.matrices.Keys == lib.matrices.Keys + {c.handle}
    ensures c.lib.matrices[c.handle] == lib.matrices[h]
    ensures forall k :: k in lib.matrices ==> c.lib.matrices[k] == lib.matrices[k]
    ensures c.lib.vectors == lib.vectors
    ensures c.lib.backend == lib.backend && c.lib.relaxed == lib.relaxed
  {
    var m := lib.matrices[h];
    var made := CreateMatrix(lib, m.nrows, m.ncols).value;
    Created(made.lib.(matrices := made.lib.matrices[made.handle := m]), made.handle)
  }

  /** A new context and the status reported. */
  datatype Outcome = Outcome(lib: Library, status: Status)

  /** Releases a registered matrix.  After a relaxed finalize every release
      is silently accepted (the object is already gone); otherwise an
      unknown handle is an invalid argument. */
  function ReleaseMatrix(lib: Library, h: Handle): (out: Outcome)
    ensures out.status == Success || out.status == InvalidArgument
    ensures out.status == InvalidArgument <==> !(lib.relaxed && lib.backend.None?) && h !in lib.matrices
    ensures out.status == InvalidArgument || (lib.relaxed && lib.backend.None?) ==> out.lib == lib
    ensures forall k :: k in out.lib.matrices <==> k in lib.matrices && (k != h || (lib.relaxed && lib.backend.None?))
    ensures forall k :: k in out.lib.matrices ==> out.lib.matrices[k] == lib.matrices[k]
    ensures out.lib.vectors == lib.vectors
    ensures out.lib.backend == lib.backend && out.lib.relaxed == lib.relaxed && out.lib.next == lib.next
  {
    if lib.relaxed && lib.backend.None? then Outcome(lib, Success)
    else if h !in lib.matrices then Outcome(lib, InvalidArgument)
    else Outcome(lib.(matrices := lib.matrices - {h}), Success)
  }

  /** Releases a registered vector; mirrors `ReleaseMatrix`. */
  function ReleaseVector(lib: Library, h: Handle): (out: Outcome)
    ensures out.status == Success || out.status == InvalidArgument
    ensures out.status == InvalidArgument <==> !(lib.relaxed && lib.backend.None?) && h !in lib.vectors
    ensures out.status == InvalidArgument || (lib.relaxed && lib.backend.None?) ==> out.lib == lib
    ensures forall k :: k in out.lib.vectors <==> k in lib.vectors && (k != h || (lib.relaxed && lib.backend.None?))
    ensures forall k :: k in out.lib.vectors ==> out.lib.vectors[k] == lib.vectors[k]
    ensures out.lib.matrices == lib.matrices
    ensures out.lib.backend == lib.backend && out.lib.relaxed == lib.relaxed && out.lib.next == lib.next
  {
    if lib.relaxed && lib.backend.None? then Outcome(lib, Success)
    else if h !in lib.vectors then Outcome(lib, InvalidArgument)
    else Outcome(lib.(vectors := lib.vectors - {h}), Success)
  }

  // ---------------------------------------------------------------------
  // Laws of the context

  /** The starting context is valid, and every entry point keeps it valid. */
  lemma ValidPreserved(lib: Library, hints: HintSet, p: Platform, h: Handle)
    requires Valid(lib)
    ensures Valid(Unloaded)
    ensures Valid(Initialize(lib, hints, p).lib)
    ensures Valid(Finalize(lib))
    ensures Valid(ReleaseMatrix(lib, h).lib)
    ensures Valid(ReleaseVector(lib, h).lib)
  {
  }

  /** A second initialize is refused and changes nothing. */
  lemma InitializeTwice(lib: Library, h1: HintSet, h2: HintSet, p: Platform, q: Platform)
    requires Initialize(lib, h1, p).status == Success
    ensures var again := Initialize(Initialize(lib, h1, p).lib, h2, q);
            again.status == InvalidState && again.lib == Initialize(lib, h1, p).lib
  {
  }

  /** After finalize the library can be initialized again: the call is never
      refused as a double initialize, and it succeeds whenever the sequential
      backend is available. */
  lemma FinalizeThenInitialize(lib: Library, hints: HintSet, p: Platform)
    ensures Initialize(Finalize(lib), hints, p).status != InvalidState
    ensures p.sequentialBuilt && p.sequentialStarts ==> Initialize(Finalize(lib), hints, p).status == Success
  {
  }

  /** Finalizing twice is finalizing once. */
  lemma FinalizeIdempotent(lib: Library)
    ensures Finalize(Finalize(lib)) == Finalize(lib)
  {
  }

  /** After finalize, the library check passes exactly when the relaxed flag
      was set: the flag outlives the backend. */
  lemma ValidateAfterFinalize(lib: Library)
    ensures Validate(Finalize(lib)) == Success <==> lib.relaxed
  {
  }

  /** Initializing with relaxed finalize, finalizing, and releasing any
      handle afterwards is accepted without effect. */
  lemma RelaxedReleaseAfterFinalize(lib: Library, hints: HintSet, p: Platform, h: Handle)
    requires RelaxedFinalize in hints
    requires Initialize(lib, hints, p).status == Success
    ensures var done := Finalize(Initialize(lib, hints, p).lib);
            && ReleaseMatrix(done, h) == Outcome(done, Success)
            && ReleaseVector(done, h) == Outcome(done, Success)
            && done.matrices == map[] && done.vectors == map[]
  {
  }

  /** Releasing a matrix just created restores the registry it was created
      in: release undoes create. */
  lemma ReleaseUndoesCreate(lib: Library, nrows: nat, ncols: nat)
    requires Valid(lib) && lib.backend.Some? && nrows > 0 && ncols > 0
    ensures CreateMatrix(lib, nrows, ncols).Ok?
    ensures var c := CreateMatrix(lib, nrows, ncols).value;
            ReleaseMatrix(c.lib, c.handle) == Outcome(lib.(next := c.lib.next), Success)
  {
    var c := CreateMatrix(lib, nrows, ncols).value;
    assert c.lib.matrices - {c.handle} == lib.matrices;
  }

  /** Releasing a vector just created restores the registry it was created
      in. */
  lemma ReleaseUndoesCreateVector(lib: Library, nrows: nat)
    requires Valid(lib) && lib.backend.Some? && nrows > 0
    ensures CreateVector(lib, nrows).Ok?
    ensures var c := CreateVector(lib, nrows).value;
            ReleaseVector(c.lib, c.handle) == Outcome(lib.(next := c.lib.next), Success)
  {
    var c := CreateVector(lib, nrows).value;
    assert c.lib.vectors - {c.handle} == lib.vectors;
  }

  /** With the CPU hint a successful initialize always runs on the sequential
      backend. */
  lemma CpuHintSelectsSequential(lib: Library, hints: HintSet, p: Platform)
    requires CpuBackend in hints
    requires Initialize(lib, hints, p).status == Success
    ensures Initialize(lib, hints, p).lib.backend == Some(Sequential)
    ensures Initialize(lib, hints, p).tried == [Sequential]
  {
  }
}
