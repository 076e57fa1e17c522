# numba-cuda-mlir: proofs about its dispatcher, lowering and launcher

A Dafny model of the parts of numba-cuda-mlir whose correctness rests on interleavings, ownership
and index arithmetic, with proofs of what they promise. `dafny verify dfyconfig.toml` checks it.

- **Dispatcher** (`lru`, `dispatcher_state`, `dispatcher_invariant`, `dispatcher_protocol`,
  `configure_events`, `dispatcher_theorems`, `configure_outcomes`, `compile_literals`,
  `dispatcher_publication`, `dispatcher_sections`, `dispatcher_object`). Every section that
  `MLIRDispatcher` runs under its launch-config lock is a function on the lock-protected state.
  Any number of threads interleave these sections with work outside the lock: `configure()` with
  its in-flight events, the fetch of launch-keyed native dispatchers, rebinding, `recompile()`,
  cache clearing, literal recording and compilation. `Dispatcher` is the object whose fields the
  sections update; each of its methods is proved to have the effect of its function.
- **Reference counting** (`refcount`, `refcount_conservation`, `refcount_cells`, `refcount_counting`,
  `refcount_theorems`, `refcount_ledger`, `refcount_exact`, `refcount_values`, `refcount_meaning`,
  `lowering_object`, `nrt_context`, `nrt_walk`). A compiler from Numba IR statements to loads, stores,
  increfs and decrefs, a machine that runs them and faults on a freed object, and an evaluator of the
  statements' values. `MlirLower` is the lowering object with its varmap; `nrt_context` is the walk that
  finds the MemInfos of a value.
- **ABI flattening** (`abi`, `abi_calls`, `abi_call_sites`). Flattening of nested tuple types and
  values, rebuilding from slots, start indices, argument recovery in the callee, recursive calls and
  result recovery in the caller.
- **Launcher** (`marshalling`, `launch_paths`, `kernel_keys`, `kernel_sharing`, `kernel_collisions`,
  `array_addressing`, `parameter_values`, `launch_helper`, `helper_pool`, `kernel_cache`, `strides`).
  Argument extraction into the flat vector, metadata, key and pointer list; the fast path; what a kernel
  reads from the vector; what launches of one kernel family may share; the pooled helpers and the device
  memory their records own; the kernel map under races.
- **Debug layout** (`debug_layout`), **overload selection** (`ratings`, `typeconv`,
  `overload_selection`, `overload_resolution`, `number_loss`) and **buffer extents** (`extents`, `strides`).

`numba_types` holds the Numba types that the code branches on, `arithmetic` the divisibility facts.

## Properties that fail, and when they hold

- *Refcount conservation.* `incref` ignores Python tuples, so a tuple with NRT content that is an
  argument, a cast or an element of another tuple is not counted. `StepExact` says by how much every
  statement leaves counts and owners apart and that they stay equal if and only if nothing is held
  where the code does not count; `PathExact` lifts this to control paths. `StepLedger` and `PathLedger`
  go on from states in which counts are wrong already: they say exactly when the code faults and keep
  account of the difference otherwise, and `ShortfallsPass` says which paths make it good again.
  `AlwaysCountedByElementIff` and `AlwaysCountedAsOneIff` say for which types nothing is ever missed.
  `TupleArgumentUnbalanced` and `NestedTupleFreedWhileHeld` are the smallest inputs. `Conservation`
  covers all paths on which these tuples carry no NRT content.
- *Fast path against standard path.* A Python int in [2^63, 2^64) raises on the fast path and is
  passed as its unsigned bit pattern on the standard path; `FastAgreesIff` gives the exact condition.
- *Calls against signatures.* `_call_operands_from_vars` flattens without types. A call to another
  dispatcher filters omitted and None arguments first, so it fails exactly when a tuple argument has
  a None leaf (`CallMatchesCalleeIffNoneFree`, `NoneLeafShiftsOperands`). A recursive call filters
  nothing and takes keywords as written, so it also fails for an explicit None and for keywords out of
  parameter order (`RecursiveCountIffNoneFree`, `RecursiveCallIff`, `RecursiveNoneArgument`,
  `RecursiveKeywordsExchanged`).
- *Results.* A returned tuple with at most one leaf is not recovered by the caller: `ResultRecoveredIff`.
- *Uninitialised slots.* A first store releases whatever the slot's cells hold; `FirstStoreIff` says what
  that costs and that it is harmless exactly if they hold no object.
- *Conversions that lose numbers.* `unsafe` does not cover every loss: `LosesIffUnsafeOrUnrated` gives
  the rest exactly, over the finite values of the types. `SignLostAsPromotion` and `DigitsLostAsSafe` are
  the smallest inputs, and by `UnsignedBeatsFloat` and `PreferredYetLossy` resolution passes an int32 as
  uint32, which loses it if negative, rather than as float64, which would keep it.
- *Strided arrays.* The launcher divides the byte strides of `__cuda_array_interface__` by the width of
  an element, which for complex numbers is the width of one component (`kernel.cpp:806-809`), and drops
  the remainder. `ReadsElementsIff` says for which arrays a kernel still reads every element where it is;
  `StridedComplexMisread` (every other element of complex128 data) and `PackedFieldMisread` (a field of
  packed records) are the smallest inputs. Arrays of records keep their byte strides, which kernels ignore:
  `RecordsReadIff`. `_can_reuse_overload` lets any integer stand for any other:
  `ReusedInteger` says for which values that is harmless.
- *Retries of `configure()`.* A launch-enabled key whose build finds launch configs switched off gets a
  marshaller without a generation, which counts as stale, and is retried (`RetryNeedsDisturbance`).
- *One key, two kernels.* All argument profiles with the same parameter kinds share one kernel map, and
  its keys hold neither scalar types, record dtypes nor datetime units. `SharedKeyIff` says for any two
  launches with one key when they ask for the same kernel, `SharedSafelyIff` which argument types can
  share a map at all: those whose keys cannot collide, and those that are interchangeable. The smallest
  inputs are `FloatWidthsShare` (`f(1.0)`, then `f(numpy.float32(1))`), `ComplexWidthsShare`,
  `BoolSharesWithInt`, `RecordsShare`, `DatetimesShare`, `LiteralsExchanged` (`(5, numpy.int64(7))`, then
  `(numpy.int64(7), 5)`), `ArraysExchanged` and `ComplexArraysShare`. The repository marks a launch of the
  first shape as giving an incorrect result (`tests/numba_cuda_tests/cudapy/test_dispatcher.py:299-316`).
- *Pointers into the vector.* The code comment says that all pointers are into the flat vector; for a
  TMA descriptor the code passes the descriptor's own storage address. `PointersIntoVectorIff` gives
  the exact condition, `TmaPointsElsewhere` the smallest input, `PointersExact` what each pointer is.

## Modelling choices

- History fields (`tableUses`, `cacheUses`, `retired`, `registered`, `freed`, `peak`, `log`, `callbacks`,
  `dropped`) are read by no operation; they let a contract speak of a whole run.
- Compiling, constructing a native dispatcher, allocating and launching are steps that may fail; their
  results are parameters. Whether launch configs are still enabled when a build begins is any value.
- Compile attempts hold the global compiler lock, as `_compile` does.
- The retain limit may be any integer, as the environment variable may.
- A control path is lowered as straight-line code, and the placement of `del` is given: a
  singly-assigned variable is read only between its assignment and its `del`.
- Numbers carry their value, Python constants stay constants until they are stored to a stack cell, and the
  placeholder of a None leaf is the constant 0.
- Stack cells start as null where a path begins at function entry. This is an assumption that the code
  does not establish: slots are allocated uninitialised (`mlir_lowering.py:663-666`, `742-790`), and a
  first store reads them for its decref. Each cell is an allocation of its own.
- Two launches ask for the same kernel if the types that one is compiled for may be reused for the other
  (`_can_reuse_overload`) and its constants are equal. DLPack counts the bits of a whole complex number in
  a dtype; an enumeration class fixes the type of its members' values.
- Python and C integers are mathematical except where the code narrows them to 64 bits, which is
  written out. Floats are reals; rounding is not modelled. Where conversions are judged, the finite
  values of binary16, binary32 and binary64 are those of IEEE 754, section 3.4.
- `hash` of a type pair is any function.

## Model

| member | source | states |
|---|---|---|
| DispatcherTheorems.Invariants | src/numba_cuda_mlir/descriptor.py:1948-2068 | every state of every run keeps the freshness and the event invariant |
| DispatcherTheorems.NoStrandedWaiter | src/numba_cuda_mlir/descriptor.py:2011-2034 | an event a thread waits on is set, or another live thread owns it under its registered key |
| DispatcherTheorems.OwnerSignalsOnEveryExit | src/numba_cuda_mlir/descriptor.py:2025-2061 | whatever step is taken, an owner still owns its event afterwards or the event is set: return, stale retry, exhausted retries and exceptions alike; set events stay set |
| DispatcherTheorems.OnlyTheOwnerDeregisters | src/numba_cuda_mlir/descriptor.py:2028-2061 | a registration vanishes only by its owner, or when all are cleared and every registered event is set; it is never rebound to another event |
| DispatcherTheorems.OneRegisteredOwner | src/numba_cuda_mlir/descriptor.py:2011-2023 | two threads building for one key with unset events are the same thread |
| DispatcherTheorems.BuildsBounded | src/numba_cuda_mlir/descriptor.py:2009-2063 | one call of configure() builds at most 8 marshallers |
| ConfigureOutcomes.ConfigureFinishExact | src/numba_cuda_mlir/descriptor.py:2037-2068 | the last section of configure(), exactly: a marshaller cached meanwhile is returned; one built against the current generation (launch-enabled key) or default dispatcher (plain key) is cached and returned; any other leads to a retry, or to the error at the eighth |
| ConfigureOutcomes.UndisturbedRun | src/numba_cuda_mlir/descriptor.py:2009-2063 | over any run in which the generation rests, a call whose own build neither raises nor finds launch configs switched off never retries or fails: it waits, or what it has captured is current, or it holds a current marshaller; an owner comes closer to holding one with each own step |
| ConfigureOutcomes.UndisturbedReturns | src/numba_cuda_mlir/descriptor.py:2035-2063 | such an owner is never blocked and holds a current marshaller after at most 5 steps of its own |
| ConfigureOutcomes.RetryNeedsDisturbance | src/numba_cuda_mlir/descriptor.py:2042-2063 | a finished build that is not returned means that the generation has changed since the owner began, or that its own build was disturbed |
| ConfigureOutcomes.RaiseAfterEight | src/numba_cuda_mlir/descriptor.py:2044-2049 | other than on an exception of its build, a call gives up only after building 8 marshallers |
| ConfigureOutcomes.CurrentKept | src/numba_cuda_mlir/descriptor.py:1815-1823 | no step of any thread replaces the default dispatcher without advancing the generation |
| DispatcherTheorems.OwnerProgress | src/numba_cuda_mlir/descriptor.py:2025-2063 | an owner is never blocked, and each of its steps sets its event or comes closer to it unless the generation moved on |
| DispatcherTheorems.OwnerRun | src/numba_cuda_mlir/descriptor.py:1840-1870 | over any run in which an owner's event stays unset, rank less three times the captured generation falls by one with each of its own steps and never rises |
| DispatcherTheorems.OwnerSignalsWithin | src/numba_cuda_mlir/descriptor.py:2025-2063 | over any run an owner sets its event within 5 steps of its own plus 3 for each change of the generation since the one it captured |
| DispatcherTheorems.WaiterWakesWithin | src/numba_cuda_mlir/descriptor.py:2024-2034 | whoever waits on an unset event waits on another thread that owns it, and on no more than that many of its steps |
| DispatcherTheorems.NoStalePublication | src/numba_cuda_mlir/descriptor.py:3180-3210 | every published launch-config overload was compiled for the current generation and the current literal positions |
| DispatcherTheorems.GenerationGrows | src/numba_cuda_mlir/descriptor.py:1810-1823 | over a run the generation and the literal positions only grow, and new positions mean a new generation |
| DispatcherTheorems.NeverVisibleAgain | src/numba_cuda_mlir/descriptor.py:3608-3622 | after recompile() or literal recording nothing compiled by an earlier attempt is visible, ever |
| DispatcherTheorems.CachedMarshallersFresh | src/numba_cuda_mlir/descriptor.py:2037-2068 | every cached marshaller was built against the generation (launch-enabled keys) or default native dispatcher (plain keys) that is current |
| DispatcherTheorems.RegisteredNativesFresh | src/numba_cuda_mlir/descriptor.py:1851-1870 | every registered native dispatcher was constructed for the current literal positions, although outside the lock |
| DispatcherTheorems.FetchedIsRegistered | src/numba_cuda_mlir/descriptor.py:1842-1870 | the returned pair is registered under the launch key and of the current generation at the locked return point |
| DispatcherTheorems.TablesAreLru | src/numba_cuda_mlir/descriptor.py:1966-1986 | both tables hold exactly the most recently used keys of the use history and never exceed 256 and 128 entries |
| DispatcherTheorems.DispatchersConserved | src/numba_cuda_mlir/descriptor.py:1957-1964 | registrations equal the table, the default dispatcher and the retirements, as multisets; the retained list holds exactly the latest retirements, up to its limit |
| DispatcherTheorems.RecursionDepth | src/numba_cuda_mlir/descriptor.py:2953-2979 | an activation of _compile_impl lies at most parameters + 8 below the first |
| DispatcherTheorems.OwnCompileStep | src/numba_cuda_mlir/descriptor.py:3141-3160 | each step of a compile attempt lowers the rank 6 * (missing positions + retry budget) + phase, whose phase part is below 6 |
| DispatcherTheorems.CompilationTerminates | src/numba_cuda_mlir/descriptor.py:3211-3217 | the rank 6 * (missing positions + retry budget) + phase is positive, no other thread raises it, and every own step lowers it |
| DispatcherSections.OvertakenRetries | src/numba_cuda_mlir/descriptor.py:3211-3217 | in every run a compilation overtaken by an invalidation starts over unless it was started over eight times already |
| CompileLiterals.LiteralizeExact | src/numba_cuda_mlir/descriptor.py:2677-2703 | fails exactly for recorded positions without top-level runtime values; otherwise a recorded position with an int or bool value becomes that literal, and every other type, literals included, stays |
| CompileLiterals.AttemptsLiteralized | src/numba_cuda_mlir/descriptor.py:2974-2979 | in every state of every run an attempt past its snapshot compiles the types it was asked for with exactly the recorded positions as literals, which are those that every registered native dispatcher was built for |
| CompileLiterals.KeyMatchesCompiler | cext/launcher/kernel.cpp:659-676 | the launcher's kernel-map key is built for exactly the types that the compiler compiles: an argument's value is in the key if and only if it is in the compiled type |
| DispatcherPublication.FindOverloadFacts | src/numba_cuda_mlir/descriptor.py:2885-2901 | the look-up finds an overload exactly when one serves the arguments under the launch key, an exact one first |
| DispatcherPublication.PublicationFacts | src/numba_cuda_mlir/descriptor.py:3180-3210 | publication happens exactly for the captured generation with nothing serving the request; both signatures then find the result and no other entry changes |
| DispatcherSections.ActiveLooksFirst | src/numba_cuda_mlir/descriptor.py:3007-3035 | an attempt under an active launch config captures the generation and looks for an overload before compiling |
| DispatcherSections.FindingDecides | src/numba_cuda_mlir/descriptor.py:3020-3030 | it returns without compiling exactly when some overload serves its arguments, and otherwise compiles for exactly these |
| DispatcherSections.SuccessPublishes | src/numba_cuda_mlir/descriptor.py:3180-3217 | a successful compilation of the current generation leaves an overload that serves its arguments; any other publishes nothing and starts over while the budget lasts |
| DispatcherSections.RequestRestarts | src/numba_cuda_mlir/descriptor.py:3141-3160 | a valid literal request is recorded, and the attempt starts over exactly if it named a new position |
| DispatcherSections.ValidRequestIff | src/numba_cuda_mlir/descriptor.py:1792-1809 | a request is valid exactly if it names parameters, every parameter has a top-level runtime value, and those named are ints or bools |
| DispatcherInvariant.EvictFacts | src/numba_cuda_mlir/descriptor.py:1980-1985 | overflow by one evicts exactly the least recently used key with all its overloads and retires its dispatcher |
| DispatcherInvariant.RememberOk | src/numba_cuda_mlir/descriptor.py:1966-1986 | remembering a dispatcher keeps the invariant |
| DispatcherInvariant.RememberExact | src/numba_cuda_mlir/descriptor.py:1966-1986 | registers the dispatcher and retires the one it replaces, unless another one is registered that it may not replace; then nothing changes |
| DispatcherSections.ReregisterExact | src/numba_cuda_mlir/descriptor.py:1872-1893 | a held marshaller is registered again exactly if the generation is still its own and no other dispatcher is registered under its launch key |
| DispatcherInvariant.LookupOk | src/numba_cuda_mlir/descriptor.py:1851-1857 | a table hit keeps the invariant and makes the key most recently used |
| DispatcherSections.LookupExact | src/numba_cuda_mlir/descriptor.py:1851-1857 | answers what is registered, moves its key to the end, and changes nothing else |
| DispatcherInvariant.InsertOk | src/numba_cuda_mlir/descriptor.py:1859-1870 | the re-validated insertion keeps the invariant; what it returns is registered |
| DispatcherSections.InsertExact | src/numba_cuda_mlir/descriptor.py:1859-1870 | answers None exactly if the generation moved on, else what is registered, which is the given dispatcher only where none was |
| DispatcherSections.FetchExact | src/numba_cuda_mlir/descriptor.py:1842-1870 | a registered dispatcher is the answer at once; otherwise one is constructed, and it or the one registered meanwhile is the answer, unless the generation moved on |
| DispatcherInvariant.ConfigureEnterOk | src/numba_cuda_mlir/descriptor.py:2011-2023 | the first locked section of configure() keeps the invariant |
| DispatcherSections.ConfigureEnterExact | src/numba_cuda_mlir/descriptor.py:2011-2023 | a cached marshaller is the answer and becomes the most recently used; otherwise the registered event is waited for, or a new one is registered and owned |
| DispatcherSections.EnteredExact | src/numba_cuda_mlir/descriptor.py:2011-2025 | a call that finds a cached marshaller is done; any other waits, or builds one |
| DispatcherSections.WakesIff | src/numba_cuda_mlir/descriptor.py:2025-2027 | a waiter goes on exactly when its event is set, and then looks into the cache again |
| DispatcherInvariant.ConfigureFinishOk | src/numba_cuda_mlir/descriptor.py:2037-2061 | the second locked section keeps the invariant: only fresh marshallers are cached; which are is ConfigureOutcomes.ConfigureFinishExact |
| DispatcherInvariant.InvalidateOk | src/numba_cuda_mlir/descriptor.py:3608-3622 | invalidation keeps the invariant and advances the generation |
| DispatcherSections.RecompileStep | src/numba_cuda_mlir/descriptor.py:3608-3622 | whatever the other threads are doing, recompile() leaves nothing that was built before, keeps the literal positions and touches no other thread |
| DispatcherSections.ClearStep | src/numba_cuda_mlir/descriptor.py:1948-1955 | clearing the configure cache forgets every marshaller and build in flight, lets everybody who waits for one go on, and keeps overloads and dispatchers |
| DispatcherInvariant.RecordLiteralsOk | src/numba_cuda_mlir/descriptor.py:1810-1830 | literal recording keeps the invariant; positions grow or nothing changes |
| DispatcherInvariant.PublishOk | src/numba_cuda_mlir/descriptor.py:3180-3210 | guarded publication keeps the invariant |
| DispatcherProtocol.StepFresh | src/numba_cuda_mlir/descriptor.py:1988-2063 | one step of any thread keeps the freshness invariant and moves shared fields only as other threads may rely on |
| DispatcherProtocol.AdvanceFetchOk | src/numba_cuda_mlir/descriptor.py:1842-1870 | each step of fetching a dispatcher keeps the invariant; a finished fetch holds a fresh pair |
| DispatcherProtocol.RecordingOk | src/numba_cuda_mlir/descriptor.py:3141-3160 | a literal retry happens only after the recorded positions strictly grew |
| DispatcherProtocol.StepAttemptOk | src/numba_cuda_mlir/descriptor.py:2953-3217 | each phase of a compile attempt keeps the invariant, with depth + budget bounded by positions + 8; what it compiles is CompileLiterals.AttemptsLiteralized |
| ConfigureEvents.StepEvents | src/numba_cuda_mlir/descriptor.py:1948-2061 | one step of any thread keeps the event invariant |
| Lru.TouchKeys | src/numba_cuda_mlir/descriptor.py:2012-2015 | moving a used key to the end keeps the sequence in least-recently-used order |
| Lru.InsertKeys | src/numba_cuda_mlir/descriptor.py:2053-2056 | appending a new key and dropping the first on overflow keeps exactly the most recent keys |
| DispatcherObject.Dispatcher.RetainOldDispatcher | src/numba_cuda_mlir/descriptor.py:1957-1964 | appends and cuts the retained list to its limit |
| DispatcherObject.Dispatcher.EvictDispatchers | src/numba_cuda_mlir/descriptor.py:1980-1985 | the eviction loop reaches the state of EvictOverflow |
| DispatcherObject.Dispatcher.RememberKernelDispatcher | src/numba_cuda_mlir/descriptor.py:1966-1986 | new state and answer as in Remember |
| DispatcherObject.Dispatcher.LookupDispatcher | src/numba_cuda_mlir/descriptor.py:1851-1857 | new state and result as in Lookup |
| DispatcherObject.Dispatcher.InsertDispatcher | src/numba_cuda_mlir/descriptor.py:1859-1870 | new state and result as in Insert |
| DispatcherObject.Dispatcher.ClearConfigureCache | src/numba_cuda_mlir/descriptor.py:1948-1955 | empties cache and registrations and sets every registered event |
| DispatcherObject.Dispatcher.EnterConfigure | src/numba_cuda_mlir/descriptor.py:2011-2023 | returns the cached marshaller, or registers or joins an event |
| DispatcherObject.Dispatcher.CloseInflight | src/numba_cuda_mlir/descriptor.py:2028-2031 | deregisters the event only if it is still this owner's, and sets it |
| DispatcherObject.Dispatcher.FinishConfigure | src/numba_cuda_mlir/descriptor.py:2037-2061 | new state and outcome as in ConfigureFinish, of which ConfigureOutcomes.ConfigureFinishExact says when it returns |
| DispatcherObject.Dispatcher.RecordLiteralPositions | src/numba_cuda_mlir/descriptor.py:1810-1830 | invalidates exactly when the positions grow |
| DispatcherObject.Dispatcher.RecompileLocked | src/numba_cuda_mlir/descriptor.py:3608-3622 | the in-place order of recompile() reaches the state of Invalidate |
| DispatcherObject.Dispatcher.FindLaunchConfigOverload | src/numba_cuda_mlir/descriptor.py:2885-2901 | the exact overload, else the first reusable one |
| DispatcherObject.Dispatcher.PublishOverload | src/numba_cuda_mlir/descriptor.py:3180-3210 | publishes only for the captured generation, never over an existing overload |
| DispatcherObject.RetiresSame | src/numba_cuda_mlir/descriptor.py:3608-3622 | retiring first and rebuilding last gives the same state as literal recording's order |
| RefcountTheorems.Conservation | src/numba_cuda_mlir/mlir_lowering.py:1245-1286 | along every legal control path the emitted code runs without touching a freed object, and every count equals the variable slots holding the object plus its outside owners |
| RefcountTheorems.NothingLeaks | src/numba_cuda_mlir/nrt_context.py:11-36 | from function entry, when no singly-assigned variable is live at the end and the last statement on every multiply-assigned one is its del, exactly the callers' references remain |
| RefcountMeaning.LegalPathMeans | src/numba_cuda_mlir/mlir_lowering.py:1245-1286 | from function entry the code of every legal path runs, leaves every variable with the value that the path means, statement by statement, and counts every reference |
| RefcountMeaning.LoweringMeans | src/numba_cuda_mlir/mlir_lowering.py:1245-1286 | the same for the values on every control path whose code does not fault, counts right or not |
| RefcountMeaning.StatementMeans | src/numba_cuda_mlir/mlir_lowering.py:3580-3630 | the code of a statement gives its target the value the statement means (of a tuple build the values of its items in order, of an item that element, of a tuple argument the one value of its type with those leaves) and changes no other variable |
| RefcountMeaning.FlattenRebuilds | src/numba_cuda_mlir/mlir_lowering.py:3713-3727 | whoever rebuilds a value of the type from the flattened operands gets the value, None leaves and constants included |
| RefcountMeaning.ReturnMeans | src/numba_cuda_mlir/mlir_lowering.py:3183-3204 | a return hands over operands from which the variable's value is rebuilt |
| RefcountValues.StoreSlotMeans | src/numba_cuda_mlir/mlir_lowering.py:3552-3578 | after a slot store the slot holds the stored value, part by part |
| RefcountValues.LoadSlotMeans | src/numba_cuda_mlir/mlir_lowering.py:3448-3466 | a slot load yields the value the slot holds |
| RefcountTheorems.DelTwice | src/numba_cuda_mlir/mlir_lowering.py:3081-3105 | a second del of a multiply-assigned variable changes neither counts nor slots |
| RefcountTheorems.CopyBalancedIffFlat | src/numba_cuda_mlir/mlir_lowering.py:3646-3652 | a copy emits as many increfs as its type has MemInfo leaves exactly when no tuple nests a tuple with NRT content, and never more; what running them does is RefcountExact.StepExact |
| RefcountTheorems.TupleIncrefBalancedIffPlain | src/numba_cuda_mlir/mlir_lowering.py:3634-3638 | an incref of a Python tuple (tuple arguments, tuple casts) emits nothing, as many increfs as the type has MemInfo leaves exactly when it has none |
| RefcountExact.StepExact | src/numba_cuda_mlir/mlir_lowering.py:3634-3652 | every statement allowed by del placement, whatever its types, runs without fault from a state in which counts equal owners; it leaves counts short by exactly the references its code misses (a del, too high), so they stay equal if and only if no object is held where the code does not count |
| RefcountLedger.StepLedger | src/numba_cuda_mlir/mlir_lowering.py:3634-3652 | from every well-shaped state, counts right or not: a statement's code faults exactly when an incref reaches an object without references or its decrefs take more than there are; otherwise it moves owners past counts by exactly the references it misses, and a del moves them back |
| RefcountLedger.PathLedger | src/numba_cuda_mlir/mlir_lowering.py:1245-1286 | a control path faults exactly at the first such statement; otherwise owners end up past counts by the sum of what its statements miss |
| RefcountLedger.ShortfallsPass | src/numba_cuda_mlir/mlir_lowering.py:3107-3133 | from function entry, nested tuples that are only built, copied and deleted element by element leave counts short by what live variables hold uncounted, so that counts equal owners once none is live |
| RefcountLedger.FirstStoreIff | src/numba_cuda_mlir/mlir_lowering.py:3552-3578 | a first store of a counted value into an uninitialised slot faults, or takes from every object the references that the cells hold to it; counts equal owners afterwards exactly when the cells hold no object |
| RefcountCounting.StoreSlotIff | src/numba_cuda_mlir/mlir_lowering.py:3552-3578 | a slot store faults exactly when its cells hold an object more often than it has references |
| RefcountCounting.DecrefSlotIff | src/numba_cuda_mlir/mlir_lowering.py:3087-3105 | the same for a slot del |
| RefcountExact.PathExact | src/numba_cuda_mlir/mlir_lowering.py:1245-1286 | along every control path counts equal owners after every statement if and only if every statement counts all references of the value it moves |
| RefcountExact.CopyStep | src/numba_cuda_mlir/mlir_lowering.py:3646-3652 | a copy or forward: counts fall short of owners by the references held below tuple-typed elements |
| RefcountExact.BuildStep | src/numba_cuda_mlir/mlir_lowering.py:2516-2530 | a tuple build: the same |
| RefcountExact.SingleStep | src/numba_cuda_mlir/mlir_lowering.py:1613-1622 | a cast or item: counts fall short by all the references of a tuple |
| RefcountExact.TupleArgStep | src/numba_cuda_mlir/mlir_lowering.py:1101-1108 | a tuple argument: counts fall short by all its references |
| RefcountExact.DelStep | src/numba_cuda_mlir/mlir_lowering.py:3107-3133 | a del of a singly-assigned variable leaves the references below its tuple-typed elements counted |
| RefcountCounting.StoreSlotExact | src/numba_cuda_mlir/mlir_lowering.py:3552-3578 | a slot store, of a counted value or not, releases exactly what the slot's cells held |
| RefcountExact.AlwaysCountedByElementIff | src/numba_cuda_mlir/mlir_lowering.py:3646-3652 | counting element by element reaches every reference of every value of a type exactly when no tuple-typed element has NRT content |
| RefcountExact.AlwaysCountedAsOneIff | src/numba_cuda_mlir/mlir_lowering.py:3634-3638 | counting as one value reaches every reference of every value of a type exactly when it is no tuple with NRT content |
| RefcountCells.LowerWrites | src/numba_cuda_mlir/mlir_lowering.py:3552-3578 | a statement writes no stack cell but those of its target's slot |
| RefcountTheorems.TupleArgumentUnbalanced | src/numba_cuda_mlir/mlir_lowering.py:1101-1108 | a tuple argument with NRT content: its del drops the caller's own reference |
| RefcountTheorems.NestedTupleFreedWhileHeld | src/numba_cuda_mlir/mlir_lowering.py:2516-2530 | wrapping a tuple in a tuple and deleting the inner one frees an object still held |
| RefcountTheorems.MeminfoIffLeaves | src/numba_cuda_mlir/nrt_context.py:93-110 | type_has_nrt_meminfo holds exactly when a leaf carries a MemInfo |
| NrtContext.NoMeminfoNoCalls | src/numba_cuda_mlir/nrt_context.py:93-134 | where a type reports no MemInfo the walk finds none, so the guard of del drops nothing |
| NrtContext.GuardIsExact | src/numba_cuda_mlir/nrt_context.py:93-134 | outside tuples a type reports a MemInfo exactly when the walk over a complete value finds one |
| NrtWalk.WalkIsExact | src/numba_cuda_mlir/nrt_context.py:112-134 | the walk yields the MemInfos of exactly the positions inside a value that hold one, each position once |
| NrtContext.TupleWalkFindsNothing | src/numba_cuda_mlir/nrt_context.py:93-134 | a tuple reports its elements' MemInfos, but walking it as one value finds none |
| NrtContext.ContentsOutOfReach | src/numba_cuda_mlir/nrt_context.py:93-134 | a type whose model only says that it contains MemInfos reports one, and the walk finds none |
| NrtContext.MLIRNRTContext.IncrefValue | src/numba_cuda_mlir/nrt_context.py:83-86 | the emitted calls add one reference for every reachable MemInfo |
| NrtContext.MLIRNRTContext.DecrefValue | src/numba_cuda_mlir/nrt_context.py:88-91 | the emitted calls take one reference from every reachable MemInfo |
| RefcountConservation.AssignOk | src/numba_cuda_mlir/mlir_lowering.py:1245-1286 | variable copies and exhaust_iter forwards keep conservation |
| RefcountConservation.BuildOk | src/numba_cuda_mlir/mlir_lowering.py:2516-2530 | tuple builds keep conservation |
| RefcountConservation.CastOk | src/numba_cuda_mlir/mlir_lowering.py:1613-1622 | casts between equal types keep conservation |
| RefcountConservation.ElementOk | src/numba_cuda_mlir/mlir_lowering.py:1645-1649 | items of named tuples keep conservation |
| RefcountConservation.NewOk | src/numba_cuda_mlir/nrt_context.py:19-27 | births, constants and arguments keep conservation |
| RefcountConservation.TupleArgOk | src/numba_cuda_mlir/mlir_lowering.py:1101-1108 | tuple arguments without NRT content, nested ones included, keep conservation |
| RefcountConservation.DelStepOk | src/numba_cuda_mlir/mlir_lowering.py:3117-3133 | del keeps conservation |
| RefcountConservation.ReturnOk | src/numba_cuda_mlir/mlir_lowering.py:3183-3204 | a return moves exactly the variable's references to the caller; in which operands is RefcountMeaning.ReturnMeans |
| RefcountConservation.StoreSlotOk | src/numba_cuda_mlir/mlir_lowering.py:3552-3578 | a slot store releases what the cells held and keeps what they now hold |
| RefcountConservation.LoadSlotOk | src/numba_cuda_mlir/mlir_lowering.py:3448-3466 | a slot load changes no count and yields what the cells hold |
| RefcountConservation.DecrefSlotOk | src/numba_cuda_mlir/mlir_lowering.py:3087-3105 | a slot del releases what the cells held |
| LoweringObject.MlirLower.IncrefAll | src/numba_cuda_mlir/mlir_lowering.py:3646-3652 | the element loop emits the increfs of IncrefEach |
| LoweringObject.MlirLower.StoreStackSlot | src/numba_cuda_mlir/mlir_lowering.py:3552-3578 | emits StoreSlot |
| LoweringObject.MlirLower.DecrefStackSlot | src/numba_cuda_mlir/mlir_lowering.py:3087-3105 | emits DecrefSlot |
| LoweringObject.MlirLower.LoadStackSlot | src/numba_cuda_mlir/mlir_lowering.py:3448-3466 | emits LoadSlot and yields its value |
| LoweringObject.MlirLower.StoreOne | src/numba_cuda_mlir/mlir_lowering.py:3580-3630 | stores to the slot or to the varmap, as StoreVar |
| LoweringObject.MlirLower.LowerVarAssign | src/numba_cuda_mlir/mlir_lowering.py:1245-1286 | code and varmap as in Lower for an assignment |
| LoweringObject.MlirLower.LowerExhaustIter | src/numba_cuda_mlir/mlir_lowering.py:1420-1436 | code and varmap as in Lower for a forward |
| LoweringObject.MlirLower.LowerBuildTuple | src/numba_cuda_mlir/mlir_lowering.py:2516-2530 | code and varmap as in BuildTuple |
| LoweringObject.MlirLower.LowerCast | src/numba_cuda_mlir/mlir_lowering.py:1613-1622 | code and varmap as in Lower for a cast |
| LoweringObject.MlirLower.LowerArgAssign | src/numba_cuda_mlir/mlir_lowering.py:1109-1116 | code and varmap as in Lower for an argument |
| LoweringObject.MlirLower.LowerTupleArgAssign | src/numba_cuda_mlir/mlir_lowering.py:1101-1108 | code and varmap as in Lower for a tuple argument |
| LoweringObject.MlirLower.ReassembleTuple | src/numba_cuda_mlir/mlir_lowering.py:3852-3871 | the loop over block arguments builds the nested tuple of ArgValue and emits its parameters in order |
| LoweringObject.MlirLower.LowerGetitem | src/numba_cuda_mlir/mlir_lowering.py:1645-1649 | code and varmap as in Lower for an item |
| LoweringObject.MlirLower.LowerDel | src/numba_cuda_mlir/mlir_lowering.py:3117-3133 | code as in Lower for a del |
| LoweringObject.MlirLower.LowerReturn | src/numba_cuda_mlir/mlir_lowering.py:3183-3204 | code as in Lower for a return, which RefcountMeaning.ReturnMeans is about |
| LoweringObject.MlirLower.LowerPath | src/numba_cuda_mlir/mlir_lowering.py:1245-1286 | a whole path emits LowerAll, to which Conservation applies |
| Abi.TypeLength | src/numba_cuda_mlir/mlir_lowering.py:3816-3842 | _flatten_type yields _count_flat_elements entries |
| Abi.RoundTrip | src/numba_cuda_mlir/mlir_lowering.py:3713-3747 | unflattening a value's operands followed by r gives the value, None leaves as placeholders, and leaves r; there are _count_flat_elements operands |
| Abi.Converse | src/numba_cuda_mlir/mlir_lowering.py:3737-3747 | any operand list of sufficient length is the flattening of what is rebuilt from it, then the rest; a shorter one exhausts the iterator |
| Abi.TypeFreeIffNoneFree | src/numba_cuda_mlir/mlir_lowering.py:3729-3735 | the type-free flattening agrees with the typed one exactly on types without None leaves |
| Abi.OperandsLineUp | src/numba_cuda_mlir/mlir_lowering.py:3713-3727 | the operands of a well-typed value match the flattened type slot by slot |
| Abi.FlattenInOrder | src/numba_cuda_mlir/mlir_lowering.py:3713-3842 | the operands of a tuple are those of its elements, in order |
| Abi.TupleFlattensElements | src/numba_cuda_mlir/mlir_lowering.py:3828-3842 | the UniTuple branch agrees with flattening its repeated elements |
| AbiCalls.FlatArgStartIndex | src/numba_cuda_mlir/mlir_lowering.py:3844-3850 | the start index is the number of block arguments of the arguments before it |
| AbiCalls.ReassembleTuple | src/numba_cuda_mlir/mlir_lowering.py:3852-3871 | the loop with its running index computes Reassemble |
| AbiCalls.ReassembleIsUnflatten | src/numba_cuda_mlir/mlir_lowering.py:3852-3871 | reading block arguments by index is unflattening them from the start index |
| AbiCalls.ArgumentWindow | src/numba_cuda_mlir/mlir_lowering.py:540-546 | argument i owns the block arguments from its start index to the next, with its flattened types |
| AbiCalls.WindowsPartition | src/numba_cuda_mlir/mlir_lowering.py:540-546 | every block argument lies in the window of exactly one argument |
| AbiCalls.ArgumentRecovered | src/numba_cuda_mlir/mlir_lowering.py:1101-1116 | the callee reassembles exactly argument i, whatever omitted, None, scalar and tuple arguments surround it |
| AbiCalls.CallMatchesCalleeIffNoneFree | src/numba_cuda_mlir/mlir_lowering.py:1665-1711 | a folded call, with omitted and None arguments filtered, supplies as many operands as the callee has block arguments exactly when no tuple among its arguments has a None leaf; then every argument arrives |
| AbiCalls.NoneLeafShiftsOperands | src/numba_cuda_mlir/mlir_lowering.py:3729-3735 | the argument (x, None) gives two operands for one block argument |
| AbiCallSites.RecursiveCountIffNoneFree | src/numba_cuda_mlir/mlir_lowering.py:1804-1831 | a recursive call, which filters nothing, supplies as many operands as the function has block arguments exactly when no argument given is None or has a None leaf |
| AbiCallSites.RecursiveCallIff | src/numba_cuda_mlir/mlir_lowering.py:3760-3777 | the operands of a recursive call are the block arguments the function expects exactly when moreover arguments with operands are given in parameter order (no two arguments sharing an operand) |
| AbiCallSites.RecursiveNoneArgument | src/numba_cuda_mlir/mlir_lowering.py:1816-1831 | f(n - 1, None) supplies one operand too many, although no passed tuple has a None leaf |
| AbiCallSites.RecursiveKeywordsExchanged | src/numba_cuda_mlir/mlir_lowering.py:3769-3776 | f(b=y, a=x) supplies the right number of operands, exchanged |
| AbiCallSites.ResultRecoveredIff | src/numba_cuda_mlir/mlir_lowering.py:1791-1802 | the caller, from_return included, gets a returned value back exactly when it is not a tuple or has more than one leaf; a tuple with one leaf is not rebuilt at all, one with none arrives as None |
| AbiCalls.ValueIterator.UnflattenValue | src/numba_cuda_mlir/mlir_lowering.py:3737-3747 | consuming the iterator in place computes Unflatten |
| Marshalling.LayoutPartitions | cext/launcher/kernel.cpp:1454-1535 | after extraction the metadata windows partition the argument vector in order, each holding its argument's words |
| Marshalling.ErrorIsFirstFailure | cext/launcher/kernel.cpp:1475-1535 | extraction stops at the first argument that cannot be extracted, with its error |
| Marshalling.PointersMeanArguments | cext/launcher/kernel.cpp:2032-2059 | the values read through the pointer list are, in order, exactly the words of the arguments (the first of a complex128); what they mean is ArrayAddressing.ReadsElementsIff and ParameterValues.ScalarRead |
| Marshalling.PointersExact | cext/launcher/kernel.cpp:2032-2059 | the pointer list is, entry by entry, the address of each argument's words in the final vector, one after another, or a descriptor's storage |
| Marshalling.PointersIntoVectorIff | cext/launcher/kernel.cpp:2048-2051 | every pointer is to a word of the final vector exactly when no argument is a TMA descriptor |
| Marshalling.TmaPointsElsewhere | cext/launcher/kernel.cpp:2048-2051 | one descriptor: the only pointer is the descriptor's own storage |
| Marshalling.MarshalledLaunch | cext/launcher/kernel.cpp:1994-2059 | the whole standard path: no error, tiled windows, each pointer to the words of its own argument (or to a descriptor's storage), and the values read through them |
| Marshalling.WholeStridesExact | cext/launcher/kernel.cpp:949-955 | a byte stride of whole elements, of either sign, becomes that number of elements |
| ArrayAddressing.ReadsElementsIff | cext/launcher/kernel.cpp:919-973 | at every index inside the extents it was given a kernel reads the element where the array's producer put it, exactly if the array comes by DLPack or has no strides or no elements, or if along every extent of at least two the byte stride is a whole number of elements, and zero where elements are complex |
| ArrayAddressing.UnkeptMisreads | cext/launcher/kernel.cpp:949-954 | the element next to the first along an axis whose stride is not kept is read from another address |
| ArrayAddressing.StridedComplexMisread | cext/launcher/kernel.cpp:806-809 | every other element of complex128 data: the second is read 64 bytes on instead of 32 |
| ArrayAddressing.PackedFieldMisread | cext/launcher/kernel.cpp:949-954 | a float64 field of packed 12-byte records: the second is read 8 bytes on |
| ArrayAddressing.RecordsReadIff | src/numba_cuda_mlir/lowering/numpy.py:963-972 | a kernel, which indexes an array of records by the record size, reads every record where it is exactly if the array has no strides or fewer than two records, or if they are one record apart |
| ArrayAddressing.ArrayWords | cext/launcher/kernel.cpp:961-969 | an array's words are its data pointer twice, offset 0, its extents in order, then its strides in elements in order |
| ArrayAddressing.RefusedIff | cext/launcher/kernel.cpp:928-947 | an array is refused exactly if it has too many dimensions for the key (TypeError) or one of its words would not fit 64 bits (OverflowError) |
| ParameterValues.ScalarRead | cext/launcher/kernel.cpp:1077-1412 | a kernel compiled for the type of a scalar, complex number, record, datetime, enumeration member or descriptor reads exactly what the caller passed |
| ParameterValues.ScalarRefused | cext/launcher/kernel.cpp:1077-1412 | refused are exactly integers beyond 64 bits (OverflowError), host records without bytes (ValueError) or without a device copy (RuntimeError), and descriptors without storage (MemoryError) |
| ParameterValues.ConstantIsPassed | cext/launcher/kernel.cpp:1096-1175 | a constant argument puts the value it is passed as into the key, an enumeration member after its type, which is there even if the value is then refused |
| ParameterValues.KindIsPassed | cext/launcher/kernel.cpp:505-622 | the parameter kind tells arrays, whole numbers with descriptors, reals, complex numbers and records apart, and nothing else |
| ParameterValues.ElementRoundTrip | cext/launcher/kernel.cpp:713-809 | an array of numbers is compiled for the element type that its packed dtype was made of |
| ParameterValues.RecordRead | cext/launcher/kernel.cpp:1336-1412 | the word of a host record is the device address that the launch copies it to |
| ParameterValues.ReusedInteger | src/numba_cuda_mlir/descriptor.py:2579-2600 | a kernel reused for an integer of another width reads the passed number exactly if its own type has it |
| Marshalling.AsInt64 | cext/launcher/py.h:28-45 | defined exactly on [-2^63, 2^64); the value, or its unsigned bit pattern |
| Marshalling.WordsWidth | cext/launcher/kernel.cpp:961-973 | a window is 3 + 2 * ndim words for arrays, 2 for complex128, 1 otherwise |
| LaunchPaths.FastAgreesIff | cext/launcher/kernel.cpp:1937-1963 | the fast path equals the standard path exactly when some integer exceeds 64 bits or every Python int fits a signed 64-bit value |
| LaunchPaths.MarshalDiffersIff | cext/launcher/kernel.cpp:1930-1968 | every launch is marshalled as the standard path would, except one of nothing but non-constant floats (Python's or float32), Python ints and NumPy integers, all within 64 bits and a Python int above the signed range among them, which raises |
| LaunchPaths.UnsignedIntDisagrees | cext/launcher/kernel.cpp:635-637 | 2^63 raises on the fast path and passes as its bit pattern on the standard path |
| LaunchPaths.PathsAgree | cext/launcher/kernel.cpp:635-647 | as long as Python ints fit, the paths agree step by step, errors included |
| LaunchPaths.PackedDtypesDistinct | cext/launcher/kernel.cpp:341-344 | packed dtype and rank constants are equal only for equal dtypes and ranks, and have the dtype in their low half |
| KernelKeys.KeysEqualIff | cext/launcher/kernel.cpp:2006-2016 | under equal flags, arguments of the same Python kinds have equal keys exactly when every array agrees in dtype, rank and dtype identity and every constant in value and kind: variable-length contributions never run into one another; what that means for the kernel is KernelSharing.SharedKeyIff |
| KernelKeys.MarshalledKey | cext/launcher/kernel.cpp:1937-1968 | on either path the key looked up is the concatenation of the arguments' constants |
| KernelKeys.ConstantsEqualIff | cext/launcher/kernel.cpp:960-980 | one argument's constants are equal exactly when the dtype, rank and identity of the array, or the value of the constant, are; of other arguments the key keeps nothing |
| LaunchPaths.IntConstantsDistinct | cext/launcher/kernel.cpp:1096-1127 | constant ints and bools share a key entry only when equal and of the same kind |
| KernelSharing.SharedKeyIff | cext/launcher/kernel.cpp:1897-1968 | two launches of one family, found by parameter kinds alone, that look up one key under their own flags ask for the same kernel (reusable types, equal constants) exactly when at every position both are arrays (complex ones described by one interface), both literals, or neither and of types that may be reused |
| KernelSharing.TypesDecide | src/numba_cuda_mlir/descriptor.py:2679-2703 | for two arguments of one parameter kind that contribute the same constants, the types they are compiled for may be reused exactly when the arguments are interchangeable |
| KernelSharing.ConstantsDecide | cext/launcher/kernel.cpp:1096-1127 | interchangeable constant arguments that contribute the same reach the kernel as the same word |
| KernelSharing.OneOverloadServesIff | src/numba_cuda_mlir/descriptor.py:2579-2600 | some overload serves both of two launch arguments exactly when the type of the second may reuse that of the first, so no kernel that was reused for the one helps the other |
| KernelCollisions.SharedSafelyIff | cext/launcher/kernel.cpp:1575-1577 | for any two lists of argument types of one family: all launches of these types that share a key ask for one kernel exactly when their keys cannot collide (place by place) or the types are interchangeable |
| KernelCollisions.EqualKeysCollide | cext/launcher/kernel.cpp:659-676 | equal keys, each under its own flags, meet at every place: the types alone tell which keys can never be equal |
| KernelCollisions.CollidingArguments | cext/launcher/kernel.cpp:1107-1127 | where the types do not rule it out, there are arguments of exactly these types whose keys are equal |
| KernelCollisions.ScalarLaunchesIff | cext/launcher/kernel.cpp:1958-1968 | launches of scalars without literal requests all look up the empty key; one runs the kernel of another wrongly exactly when some type may not be reused |
| KernelCollisions.FloatWidthsShare | src/numba_cuda_mlir/descriptor.py:474-482 | f(1.0), then f(numpy.float32(1)) or f(numpy.float16(1)): one key, a kernel for float64, a narrower word |
| KernelCollisions.ComplexWidthsShare | cext/launcher/kernel.cpp:1287-1330 | complex128, then complex64: one key, two words against one |
| KernelCollisions.RecordsShare | cext/launcher/kernel.cpp:1336-1412 | two numpy.void records of different dtypes share one key within one profile |
| KernelCollisions.DatetimesShare | cext/launcher/kernel.cpp:1077-1094 | two datetimes of different units share one key within one profile |
| KernelCollisions.BoolSharesWithInt | cext/launcher/kernel.cpp:514-516 | a bool and an int share one key |
| KernelCollisions.LiteralsExchanged | cext/launcher/kernel.cpp:669-674 | with both positions literal, (n, numpy.int64) and (numpy.int64, n) share the key [n] and not the kernel |
| KernelCollisions.ArraysExchanged | cext/launcher/kernel.cpp:971-978 | literal ints around an array: any two arrays, of whatever dtypes and ranks, can share one key and not the kernel |
| KernelCollisions.ComplexArraysShare | cext/launcher/kernel.cpp:806-809 | a DLPack array of complex64 and an interface array of complex128 have one packed dtype, hence one key and not one kernel |
| LaunchPaths.EffectiveFlags | cext/launcher/kernel.cpp:659-676 | one flag per native argument: set where the constant flag is, where the literal flag is exactly for built-in ints and bools, and nowhere beyond the flags |
| LaunchHelpers.LaunchHelper.FreeRecords | cext/launcher/kernel.cpp:1469-1473 | frees each of the helper's record allocations once |
| LaunchHelpers.LaunchHelper.ExtractCudaArgs | cext/launcher/kernel.cpp:1454-1535 | buffers and error as in ExtractFrom; whatever happens the helper owns exactly what it allocated |
| LaunchHelpers.LaunchHelper.ExtractNumpyVoid | cext/launcher/kernel.cpp:1336-1412 | allocates and records, or frees at once when the copy fails |
| LaunchHelpers.LaunchHelper.ExtractCudaArray | cext/launcher/kernel.cpp:885-980 | pushes pointer, pointer, offset, shape and element strides, and its constants |
| LaunchHelpers.LaunchHelper.ExtractDlpack | cext/launcher/kernel.cpp:982-1045 | as for CUDA arrays, with strides already in elements |
| LaunchHelpers.LaunchHelper.ExtractPyLong | cext/launcher/kernel.cpp:1096-1127 | signed value or unsigned bit pattern, and the matching kind of constant |
| LaunchHelpers.LaunchHelper.ExtractInteger | cext/launcher/kernel.cpp:1129-1146 | the 64-bit pattern, or an overflow |
| LaunchHelpers.LaunchHelper.ExtractPyEnum | cext/launcher/kernel.cpp:1148-1175 | the member's value; the type enters the key even when the value then fails |
| LaunchHelpers.LaunchHelper.ExtractFloat | cext/launcher/kernel.cpp:1226-1285 | one word, with ndim 3 for float32 |
| LaunchHelpers.LaunchHelper.ExtractComplex | cext/launcher/kernel.cpp:1287-1334 | two words under one entry for complex128, one packed word for complex64 |
| LaunchHelpers.LaunchHelper.ExtractTma | cext/launcher/kernel.cpp:1177-1224 | the aligned storage address, kept for freeing |
| LaunchHelpers.LaunchHelper.BuildPointers | cext/launcher/kernel.cpp:2041-2059 | the loop builds Pointers |
| LaunchHelpers.LaunchHelper.ExtractFast | cext/launcher/kernel.cpp:1937-1963 | the fast loop computes Fast and frees the previous launch's records |
| LaunchHelpers.LaunchHelper.Marshal | cext/launcher/kernel.cpp:1930-2059 | a launch up to the driver call computes Marshal and keeps device memory balanced |
| LaunchHelpers.HelperFreelist.Get | cext/launcher/kernel.cpp:459-470 | takes the head of an acyclic list disjoint from the helpers in use, or makes a helper |
| LaunchHelpers.HelperFreelist.Put | cext/launcher/kernel.cpp:446-454 | relinks a helper at the head |
| HelperPool.StepOk | cext/launcher/kernel.cpp:446-470 | each step of any launch keeps the freelist acyclic and disjoint and every allocation in one place |
| HelperPool.AllocationsConserved | cext/launcher/kernel.cpp:1381-1404 | over every run each allocation is in exactly one helper until freed, and freed at most once |
| HelperPool.CreatedIsPeak | cext/launcher/kernel.cpp:459-470 | the helpers ever created number the most launches running at any moment |
| HelperPool.ClearReleases | cext/launcher/kernel.cpp:1942-1949 | clearing frees all and only this helper's allocations |
| HelperPool.RecordExact | cext/launcher/kernel.cpp:1381-1404 | recording a copy gives the allocation to the helper; if the copy fails it is freed at once |
| HelperPool.LastPutFirstGot | cext/launcher/kernel.cpp:446-470 | the helper put back last is the next one taken |
| KernelCache.FirstHandleForever | cext/launcher/kernel.cpp:2006-2016 | a stored handle is never replaced |
| KernelCache.RacesAreHarmless | cext/launcher/kernel.cpp:1968-1987 | in every interleaving launches use stored handles, handles of different keys differ, and callbacks fire at most once per key, after storage |
| KernelCache.CallbacksCalled | cext/launcher/kernel.cpp:1996-2026 | in every interleaving, once no launch is between storing a handle and its callback, the callback was called, or its launch failed before, for exactly the stored handles that came with one |
| KernelCache.LaunchUsesStored | cext/launcher/kernel.cpp:2006-2026 | a launch that finds its key stored runs that handle without compiling; one that compiled runs the stored handle too, which is its own only where none was stored |
| KernelCache.FailuresStop | cext/launcher/kernel.cpp:1996-2026 | a launch whose compilation or callback fails stores nothing and never runs its kernel |
| KernelCache.SameKeySameHandle | cext/launcher/kernel.cpp:2006-2026 | all launches of one key run the same handle |
| KernelCache.HandlesStep | cext/launcher/kernel.cpp:2010-2016 | one step keeps handles distinct |
| KernelCache.CallbacksStep | cext/launcher/kernel.cpp:2014-2026 | one step keeps callbacks single and after storage |
| KernelCache.KernelFamily.Emplace | cext/launcher/kernel.cpp:2014-2017 | keeps an existing entry and says whether it inserted |
| Strides.ComputeCompactRowMajorStrides | cext/launcher/kernel.cpp:850-866 | each stride is the product of the later extents; an error exactly when one does not fit |
| Strides.CompactStridesInjective | cext/launcher/kernel.cpp:850-866 | index vectors of positive extents map one to one below the product |
| Strides.CompactStridesSurjective | cext/launcher/kernel.cpp:850-866 | every position below the product is some index vector's |
| Strides.RowMajorOrder | cext/launcher/kernel.cpp:850-866 | positions are ordered as index vectors are, first index first: the last dimension varies fastest |
| Strides.ArrayLayout | src/numba_cuda_mlir/descriptor.py:251-288 | "C" exactly for rank 0, absent strides or row-major strides, else "F" exactly for the mirrored ones, else "A" |
| Strides.Mirrored | src/numba_cuda_mlir/descriptor.py:278-286 | the column-major strides are the row-major ones of the reversed shape, reversed |
| Strides.RowMajorOffsets | src/numba_cuda_mlir/descriptor.py:269-276 | under the row-major strides an element's byte offset is its position times the item size |
| Strides.ColumnMajorOffsets | src/numba_cuda_mlir/descriptor.py:280-284 | under the column-major ones it is that of the reversed index in the reversed shape |
| Strides.RowMajorStrides | src/numba_cuda_mlir/descriptor.py:269-276 | the accumulation over the reversed shape gives itemsize times the compact strides |
| Strides.ColumnMajorStrides | src/numba_cuda_mlir/descriptor.py:280-284 | the accumulation gives itemsize times the products of the earlier extents |
| Extents.GetExtents | cext/mviewbuf/mviewbuf.cpp:78-137 | the error cases; the empty range when any extent is zero; else the exact hull |
| Extents.HullExact | cext/mviewbuf/mviewbuf.cpp:107-136 | every element's bytes lie in the range and both ends are attained |
| DebugLayout.AlignTo | src/numba_cuda_mlir/mlir_debuginfo.py:166-171 | the least multiple of the alignment not below the offset |
| DebugLayout.LlvmStructLayoutBits | src/numba_cuda_mlir/mlir_debuginfo.py:190-205 | the loop computes StructLayout |
| DebugLayout.PaddingBelowAlignment | src/numba_cuda_mlir/mlir_debuginfo.py:190-205 | members sit at the least aligned offsets, padding is below the alignment it serves, size is a multiple of alignment |
| DebugLayout.LayoutIsLeast | src/numba_cuda_mlir/mlir_debuginfo.py:190-205 | the alignment is the largest of the members', or a byte; the size is its least multiple that holds the members |
| DebugLayout.RecordsNotLaidOut | src/numba_cuda_mlir/mlir_debuginfo.py:174-205 | a record of n bytes has 8n bits, but no tuple with a record in it has a layout |
| DebugLayout.LiteralAsBase | src/numba_cuda_mlir/mlir_debuginfo.py:150-224 | a literal is laid out as the type it is a value of |
| DebugLayout.SizeAligned | src/numba_cuda_mlir/mlir_debuginfo.py:174-224 | a type with an alignment has a size, a multiple of it; the alignment is a power of two of at least 8 |
| DebugLayout.LeavesPacked | src/numba_cuda_mlir/mlir_debuginfo.py:166-224 | at an aligned base the leaves are in order, disjoint, aligned to their widths and inside the size |
| DebugLayout.LeavesComplete | src/numba_cuda_mlir/mlir_debuginfo.py:174-224 | the leaves have the widths of the type's scalars in order, none missing |
| DebugLayout.TupleLayout | src/numba_cuda_mlir/mlir_debuginfo.py:166-224 | the same for a whole type at offset 0 |
| TypeConv.TCCMap.Insert | cext/typeconv/typeconv.cpp:23-34 | bins, keys and counter agree with the history of writes |
| TypeConv.TCCMap.Find | cext/typeconv/typeconv.cpp:36-46 | the last value written, TCC_FALSE for a key never written |
| TypeConv.LastWriteWins | cext/typeconv/typeconv.cpp:23-34 | the value is that of the last write to the key |
| TypeConv.ReplaceBin | cext/typeconv/typeconv.cpp:23-34 | overwriting or appending in the hash bin keeps every bin correct |
| TypeConv.WrittenCount | cext/typeconv/typeconv.cpp:31-33 | the number of distinct keys grows exactly when the bin lacks the key |
| OverloadSelection.TypeManager.AddCompatibility | cext/typeconv/typeconv.cpp:102-105 | records one more write for the pair |
| OverloadSelection.TypeManager.IsCompatible | cext/typeconv/typeconv.cpp:112-117 | exact for equal types, else the table |
| OverloadSelection.TypeManager.FillCandidates | cext/typeconv/typeconv.cpp:150-183 | the buffers hold the viable overloads and their ratings, never beyond ovct entries |
| OverloadSelection.FindLowest | cext/typeconv/typeconv.cpp:189-206 | the first least rating and the number of its occurrences |
| OverloadSelection.RateCounts | cext/typeconv/typeconv.cpp:150-183 | an overload is rated exactly if each argument is acceptable by itself, and its rating is the numbers of arguments that need an unsafe conversion, a safe one and a promotion |
| OverloadSelection.BestNeedsFewest | cext/typeconv/typeconv.cpp:164-206 | the first best overload needs the fewest unsafe conversions, among those the fewest safe ones, among those the fewest promotions |
| OverloadSelection.TypeManager.SelectOverload | cext/typeconv/typeconv.cpp:146-207 | the first overload of least rating and the number of overloads with it; it needs no more unsafe conversions than any acceptable one, then no more safe ones, then no more promotions; nothing selected when none is acceptable |
| OverloadSelection.SelectionIgnoresOrder | cext/typeconv/typeconv.cpp:185-206 | reordering the overloads changes neither the count nor a unique winner |
| OverloadResolution.ResolveOverload | src/numba_cuda_mlir/descriptor.py:2657-2675 | exactly the minimal candidates in order, and whether any matched |
| OverloadResolution.RateOverloadLoop | src/numba_cuda_mlir/descriptor.py:2644-2655 | the loop computes the summed cost, None when some argument cannot convert |
| OverloadResolution.RateIsTupleCost | src/numba_cuda_mlir/descriptor.py:2629-2655 | a signature costs what the tuple of its types costs |
| NumberLoss.LosesIffUnsafeOrUnrated | src/numba_cuda_mlir/descriptor.py:2603-2642 | some value of a possible conversion, at any tuple depth, is lost exactly when the conversion is rated unsafe or some integer in it changes signedness (to unsigned, or to signed of equal width) or goes to a float of fewer digits |
| NumberLoss.SafeCandidateLosesIff | src/numba_cuda_mlir/descriptor.py:2657-2675 | a candidate that resolution returns without unsafe conversions loses some argument value exactly for those unrated reasons |
| NumberLoss.LosslessBeatsUnsafe | src/numba_cuda_mlir/descriptor.py:2644-2675 | a candidate that loses no value beats every candidate rated unsafe |
| NumberLoss.SignLostAsPromotion | src/numba_cuda_mlir/descriptor.py:2610-2613 | int32 to uint32, and any signed to unsigned type not narrower, is rated a promotion, yet -1 is lost |
| NumberLoss.DigitsLostAsSafe | src/numba_cuda_mlir/descriptor.py:2618-2619 | int64 to float16 is rated safe, yet values are lost |
| NumberLoss.DigitsKept | src/numba_cuda_mlir/descriptor.py:2618-2619 | a float type keeps every value of an integer type exactly if the integer has at most 11 (float16), 24 (float32) or 53 (float64) binary digits |
| NumberLoss.UnsignedBeatsFloat | src/numba_cuda_mlir/descriptor.py:2657-2675 | for a signed argument an unsigned type not narrower is chosen over any float type |
| NumberLoss.PreferredYetLossy | src/numba_cuda_mlir/descriptor.py:2610-2619 | the unsigned type loses negative arguments; the float type loses none exactly if it has as many digits as the argument |
| OverloadResolution.NumberCostsRank | src/numba_cuda_mlir/descriptor.py:2606-2629 | for one number argument possible candidates compare exactly by rank: equal, same kind and not narrower, float or address for an integer, all others; only the last are rated unsafe |
| OverloadResolution.FreeIsReusable | src/numba_cuda_mlir/descriptor.py:2579-2600 | free conversions are reusable, and reusable types convert |
| OverloadResolution.ArrayAndPointerCosts | src/numba_cuda_mlir/descriptor.py:2603-2628 | arrays convert, at no cost, exactly to arrays of their element type and rank; an address for a pointer costs one safe conversion |
| OverloadResolution.ConvertsIff | src/numba_cuda_mlir/descriptor.py:2603-2642 | equal types convert and, where neither is a literal, exactly numbers to numbers, integers to pointers, arrays to arrays of their element type and rank, and tuples element by element |
| OverloadResolution.ReusableIff | src/numba_cuda_mlir/descriptor.py:2579-2600 | outside tuples a type may be reused exactly if it converts for free, or for an integer as an integer of whatever width or an address |
| OverloadResolution.SortKeepsTies | src/numba_cuda_mlir/descriptor.py:2673-2674 | sorting keeps equally rated candidates in order |

## Left out

- Generic `self.overloads` publication: it has no generation guard, so the no-stale result is about launch-config overloads only.
- `_compile_launch_config_signature` during unpickling, which compiles without the global compiler lock.
- Asynchronous exceptions, and a `configure()` on the same key from inside its own build.
- Launch keys that normalise to None, for which the default dispatcher is returned without a generation.
- RefcountTheorems.Conservation: covers single NRT values and tuples of them; multiply-assigned UniTuples (packed memref slots), extension types that contain several MemInfos (their walk is in `nrt_context`), and casts between different types are not in the fragment.
- RefcountExact.StepExact: the same fragment of statements and slots; nested NRT tuples are in it.
- RefcountMeaning.LoweringMeans: the same fragment; a cast or copy between different types is not in it.
- ArrayAddressing.ReadsElementsIff: arrays of numbers; arrays of records have a lemma of their own, arrays of strings and datetimes none. That a kernel multiplies index and stride is part of the model.
- ParameterValues.ScalarRead: NumPy integers, datetimes and enumeration members within the range of their type.
- AbiCallSites.RecursiveCallIff: recursive calls without star-arguments.
- AbiCalls.CallMatchesCalleeIffNoneFree: folded calls without star-arguments, for which folding puts a Python tuple among the variables that are then loaded by name.
- NumberLoss.LosesIffUnsafeOrUnrated: finite numbers; infinities and NaNs, which no integer type has, only add to losses already rated unsafe. An address passed for a pointer counts as kept.
- AbiCallSites.ResultRecoveredIff: result types whose leaves all have a runtime representation; opaque leaves are dropped from a function's results.
- Calls to declared device functions.
- RefcountConservation.ReturnOk: returns of singly-assigned variables only; Numba returns the temporary of a cast.
- Strides.ComputeCompactRowMajorStrides: on mathematical integers; the source tests for overflow after a 64-bit multiplication, where the test cannot fail.
- Extents.GetExtents: on mathematical integers; `Py_ssize_t` wrap-around is not modelled.
- `double_to_f16_bits` and the narrowing of floats.
- LaunchHelpers.LaunchHelper.ExtractTma: the host storage of descriptors is kept and cleared, but its freeing is not tracked.
- Parsing of array interfaces, choice of the CUDA context and stream, shared-memory limits, error clarification and the copy-back of records.
- How the class of an argument is recognised, and the argument-profile map.
- KernelCollisions.SharedSafelyIff: without constant flags, which Python never sets (`descriptor.py:950-954`); KernelSharing.SharedKeyIff has them.
- The marshaller's cache of types per tuple of Python classes, which may hand the compiler the types of an earlier launch; types here are those of `typeof`.
- DebugLayout.SizeAligned: an alignment of zero bits, at which the source divides by zero, yields no layout in the model.
- The DWARF strings built from the layout.
- `RefPtr` counts in the launcher.
- Type manager locking: insertions and look-ups are taken one at a time.
- MLIR operations, pass pipelines and the libnvvm compatibility layers.
- Option schemas, decorators, disk caches, inspection, build scripts and CI tools.
