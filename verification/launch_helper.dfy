/** The pooled LaunchHelper: its vectors are filled, cleared and freed in place, and helpers move
    between launches over a linked freelist. */
module LaunchHelpers {
  import opened Lru
  import opened Strides
  import opened Marshalling
  import opened LaunchPaths

  /** Device memory; freeing what is not live would be a double free. */
  class Driver {
    ghost var live: set<nat>

    constructor ()
      ensures live == {}
    {
      live := {};
    }

    /** cuMemAlloc returning p. */
    method MemAlloc(p: nat)
      requires p !in live
      modifies this
      ensures live == old(live) + {p}
    {
      live := live + {p};
    }

    method MemFree(p: nat)
      requires p in live
      modifies this
      ensures live == old(live) - {p}
    {
      live := live - {p};
    }
  }

  function Devices(records: seq<RecordCopy>): set<nat> {
    set r | r in records :: r.device
  }

  ghost predicate DistinctDevices(records: seq<RecordCopy>) {
    forall i, j :: 0 <= i < j < |records| ==> records[i].device != records[j].device
  }

  /** The allocations extraction will make, should it get that far: none is live, none repeats. */
  ghost predicate NewDevices(args: seq<Arg>, live: set<nat>) {
    && (forall i :: 0 <= i < |args| && args[i].NumpyVoid? && args[i].device != 0 ==> args[i].device !in live)
    && forall i, j :: 0 <= i < j < |args| && args[i].NumpyVoid? && args[j].NumpyVoid? && args[i].device != 0 ==>
         args[i].device != args[j].device
  }

  /** What extracting one argument does to the buffers. */
  predicate Extracted(b: Buffers, r: Buffers, a: Arg, isConstant: bool, error: Option<Error>)
    requires WellFormed(a)
  {
    error == Failure(a) && r == if error.None? then Append(b, a, isConstant) else AfterFailure(b, a, isConstant)
  }

  lemma DevicesAppend(records: seq<RecordCopy>, r: RecordCopy)
    ensures Devices(records + [r]) == Devices(records) + {r.device}
  {
    forall d | d in Devices(records) + {r.device} ensures d in Devices(records + [r]) {
      if d in Devices(records) {
        var q :| q in records && q.device == d;
        assert q in records + [r];
      } else {
        assert r in records + [r];
      }
    }
  }

  /** The devices of the first n record arguments. */
  function DevicesOf(args: seq<Arg>, n: nat): set<nat>
    requires n <= |args|
  {
    set i | 0 <= i < n && args[i].NumpyVoid? :: args[i].device
  }

  lemma NotYetUsed(args: seq<Arg>, i: nat, live: set<nat>)
    requires i < |args| && args[i].NumpyVoid? && NewDevices(args, live)
    ensures args[i].device != 0 ==> args[i].device !in live && args[i].device !in DevicesOf(args, i)
    ensures DevicesOf(args, i) + {args[i].device} <= DevicesOf(args, i + 1)
  {
  }

  class LaunchHelper {
    var argMetadata: seq<Meta>
    var cuargs: seq<Word>
    var cuargPointers: seq<Param>
    var constants: seq<Constant>
    var alignedTmaDescriptors: seq<nat>
    var recordCopies: seq<RecordCopy>
    var nextFree: LaunchHelper?

    constructor ()
      ensures Contents() == EMPTY && cuargPointers == [] && nextFree == null
    {
      argMetadata, cuargs, cuargPointers, constants := [], [], [], [];
      alignedTmaDescriptors, recordCopies := [], [];
      nextFree := null;
    }

    function Contents(): Buffers reads this {
      Buffers(cuargs, argMetadata, constants, alignedTmaDescriptors, recordCopies)
    }

    /** The helper owns its record allocations. */
    ghost predicate Owns(driver: Driver) reads this, driver {
      DistinctDevices(recordCopies) && Devices(recordCopies) <= driver.live
    }

    /** Free the allocations of the helper's previous launch. */
    method FreeRecords(driver: Driver)
      requires Owns(driver)
      modifies this`recordCopies, driver
      ensures recordCopies == [] && driver.live == old(driver.live) - Devices(old(recordCopies))
    {
      ghost var records := recordCopies;
      for i := 0 to |recordCopies|
        invariant recordCopies == records
        invariant driver.live == old(driver.live) - Devices(records[..i])
      {
        assert records[i].device !in Devices(records[..i]);
        assert records[i].device in Devices(records) by { assert records[i] in records; }
        DevicesAppend(records[..i], records[i]);
        assert records[..i + 1] == records[..i] + [records[i]];
        driver.MemFree(recordCopies[i].device);
      }
      assert records[..|records|] == records;
      recordCopies := [];
    }

    /** A scalar of one word. */
    method PushScalar(w: Word, ndim: nat)
      modifies this`cuargs, this`argMetadata
      ensures cuargs == old(cuargs) + [w] && argMetadata == old(argMetadata) + [Meta(Scalar, |old(cuargs)|, ndim)]
    {
      var startIdx := |cuargs|;
      cuargs := cuargs + [w];
      argMetadata := argMetadata + [Meta(Scalar, startIdx, ndim)];
    }

    method PushConstant(c: Constant)
      modifies this`constants
      ensures constants == old(constants) + [c]
    {
      constants := constants + [c];
    }

    method PushI64s(vs: seq<int>)
      modifies this`cuargs
      ensures cuargs == old(cuargs) + I64s(vs)
    {
      for i := 0 to |vs|
        invariant cuargs == old(cuargs) + I64s(vs[..i])
      {
        cuargs := cuargs + [I64(vs[i])];
        assert I64s(vs[..i + 1]) == I64s(vs[..i]) + [I64(vs[i])];
      }
      assert vs[..|vs|] == vs;
    }

    /** Pointer, aligned pointer, offset, shape, strides. */
    method PushArray(data: int, shape: seq<int>, strides: seq<int>)
      modifies this`cuargs, this`argMetadata
      ensures cuargs == old(cuargs) + ([Pointer(data), Pointer(data), I64(0)] + I64s(shape) + I64s(strides))
      ensures argMetadata == old(argMetadata) + [Meta(Array, |old(cuargs)|, |shape|)]
    {
      var startIdx := |cuargs|;
      cuargs := cuargs + [Pointer(data)];
      cuargs := cuargs + [Pointer(data)];
      cuargs := cuargs + [I64(0)];
      PushI64s(shape);
      PushI64s(strides);
      argMetadata := argMetadata + [Meta(Array, startIdx, |shape|)];
    }

    method CompactOrError(shape: seq<int>) returns (strides: Option<seq<int>>)
      ensures strides == if AllFit(CompactStrides(shape)) then Some(CompactStrides(shape)) else None
    {
      var buffer := new int[|shape|];
      var ok := ComputeCompactRowMajorStrides(shape, buffer);
      if |shape| > 0 {
        assert shape[|shape|..] == [];
        assert FitsInt64(CompactStride(shape, |shape| - 1));
      }
      ghost var compact := CompactStrides(shape);
      if ok {
        assert buffer[..] == compact;
      } else {
        ghost var k :| 0 <= k < |shape| - 1 && !FitsInt64(CompactStride(shape, k));
        assert compact[k] == CompactStride(shape, k);
      }
      if !ok { return None; }
      strides := Some(buffer[..]);
    }

    method ExtractDlpack(a: Arg, isConstant: bool) returns (error: Option<Error>)
      requires a.Dlpack? && WellFormed(a)
      modifies this`cuargs, this`argMetadata, this`constants
      ensures Extracted(old(Contents()), Contents(), a, isConstant, error)
    {
      if |a.shape| >= TWO_32 { return Some(TypeError); }
      var strides: seq<int>;
      if a.strides.None? {
        var compact := CompactOrError(a.shape);
        if compact.None? { return Some(OverflowError); }
        strides := compact.value;
      } else {
        strides := a.strides.value;
      }
      PushArray(a.data, a.shape, strides);
      PushConstant(IntConst(PackDtype(a.dtype, |a.shape|)));
      error := None;
    }

    /** The loop that turns byte strides into element strides. */
    method DivideStrides(byteStrides: seq<int>, width: nat) returns (strides: seq<int>)
      requires width > 0
      ensures |strides| == |byteStrides|
      ensures forall k :: 0 <= k < |strides| ==> strides[k] == Truncate(byteStrides[k], width)
    {
      strides := [];
      for i := 0 to |byteStrides|
        invariant |strides| == i && forall k :: 0 <= k < i ==> strides[k] == Truncate(byteStrides[k], width)
      {
        strides := strides + [Truncate(byteStrides[i], width)];
      }
    }

    method ExtractCudaArray(a: Arg, isConstant: bool) returns (error: Option<Error>)
      requires a.CudaArray? && WellFormed(a)
      modifies this`cuargs, this`argMetadata, this`constants
      ensures Extracted(old(Contents()), Contents(), a, isConstant, error)
    {
      if |a.shape| >= TWO_32 { return Some(TypeError); }
      var strides: seq<int>;
      if a.byteStrides.None? {
        var compact := CompactOrError(a.shape);
        if compact.None? { return Some(OverflowError); }
        strides := compact.value;
      } else {
        strides := DivideStrides(a.byteStrides.value, if a.opaqueType then 1 else a.bits / 8);
        assert strides == ElementStrides(a);
      }
      PushArray(a.data, a.shape, strides);
      PushConstant(IntConst(PackDtype(a.dtype, |a.shape|)));
      if a.identity != "" { PushConstant(StringConst(a.identity)); }
      error := None;
    }

    /** The signed value, or the bit pattern of an unsigned one. */
    method ExtractPyLong(a: Arg, isConstant: bool) returns (error: Option<Error>)
      requires a.PyLong?
      modifies this`cuargs, this`argMetadata, this`constants
      ensures Extracted(old(Contents()), Contents(), a, isConstant, error)
    {
      var value := a.v;
      var unsignedValue := 0;
      var isUnsigned := false;
      if !FitsInt64(a.v) {
        if !(0 <= a.v <= UINT64_MAX) { return Some(OverflowError); }
        unsignedValue := a.v;
        value := unsignedValue - TWO_64;
        isUnsigned := true;
      }
      PushScalar(I64(value), 0);
      if isConstant {
        if a.cls.Bool? {
          PushConstant(BoolConst(value != 0));
        } else if isUnsigned {
          PushConstant(UnsignedConst(unsignedValue));
        } else {
          PushConstant(IntConst(value));
        }
      }
      error := None;
    }

    /** NumPy integers, datetimes and timedeltas. */
    method ExtractInteger(a: Arg, isConstant: bool) returns (error: Option<Error>)
      requires a.NpInteger? || a.NpDatetime?
      modifies this`cuargs, this`argMetadata, this`constants
      ensures Extracted(old(Contents()), Contents(), a, isConstant, error)
    {
      var value := AsInt64(a.v);
      if value.None? { return Some(OverflowError); }
      PushScalar(I64(value.value), 0);
      if isConstant { PushConstant(IntConst(value.value)); }
      error := None;
    }

    /** The enumeration's type enters the key before the member's value is read. */
    method ExtractPyEnum(a: Arg, isConstant: bool) returns (error: Option<Error>)
      requires a.PyEnum?
      modifies this`cuargs, this`argMetadata, this`constants
      ensures Extracted(old(Contents()), Contents(), a, isConstant, error)
    {
      if isConstant { PushConstant(IntConst(a.enumType)); }
      if a.value.IntValue? {
        var value := AsInt64(a.value.v);
        if value.None? { return Some(OverflowError); }
        PushScalar(I64(value.value), 0);
        if isConstant { PushConstant(IntConst(value.value)); }
      } else {
        PushScalar(F64(a.value.x), 0);
        if isConstant { PushConstant(FloatConst(a.value.x)); }
      }
      error := None;
    }

    /** Floats: the ndim field of a float32 is 3. */
    method ExtractFloat(a: Arg, isConstant: bool) returns (error: Option<Error>)
      requires a.PyFloat? || a.NpFloat16? || a.NpFloat32?
      modifies this`cuargs, this`argMetadata, this`constants
      ensures Extracted(old(Contents()), Contents(), a, isConstant, error)
    {
      match a {
        case PyFloat(x) => PushScalar(F64(x), 0);
        case NpFloat16(x) => PushScalar(Half(x), 0);
        case NpFloat32(x) => PushScalar(F32(x), 3);
      }
      if isConstant { PushConstant(FloatConst(a.x)); }
      error := None;
    }

    /** complex128 takes two words under one metadata entry; complex64 one packed word. */
    method ExtractComplex(a: Arg, isConstant: bool) returns (error: Option<Error>)
      requires a.PyComplex? || a.NpComplex64?
      modifies this`cuargs, this`argMetadata
      ensures Extracted(old(Contents()), Contents(), a, isConstant, error)
    {
      if a.PyComplex? {
        var startIdx := |cuargs|;
        cuargs := cuargs + [F64(a.re)];
        cuargs := cuargs + [F64(a.im)];
        argMetadata := argMetadata + [Meta(Scalar, startIdx, 2)];
      } else {
        PushScalar(PackedComplex(a.re, a.im), 1);
      }
      error := None;
    }

    method ExtractTma(a: Arg, isConstant: bool) returns (error: Option<Error>)
      requires a.Tma?
      modifies this`cuargs, this`argMetadata, this`alignedTmaDescriptors
      ensures Extracted(old(Contents()), Contents(), a, isConstant, error)
    {
      if a.storage == 0 { return Some(MemoryError); }
      alignedTmaDescriptors := alignedTmaDescriptors + [a.storage];
      cuargs := cuargs + [Pointer(a.storage)];
      argMetadata := argMetadata + [Meta(TmaDescriptor, |cuargs| - 1, 0)];
      error := None;
    }

    /** The switch over argument kinds, for arguments that allocate no device memory. */
    method ExtractValue(a: Arg, isConstant: bool) returns (error: Option<Error>)
      requires WellFormed(a) && !a.NumpyVoid?
      modifies this`cuargs, this`argMetadata, this`constants, this`alignedTmaDescriptors
      ensures Extracted(old(Contents()), Contents(), a, isConstant, error)
    {
      match a
      case Dlpack(_, _, _, _) => error := ExtractDlpack(a, isConstant);
      case CudaArray(_, _, _, _, _, _, _) => error := ExtractCudaArray(a, isConstant);
      case Tma(_, _) => error := ExtractTma(a, isConstant);
      case PyLong(_, _) => error := ExtractPyLong(a, isConstant);
      case NpInteger(_, _, _) => error := ExtractInteger(a, isConstant);
      case NpDatetime(_, _) => error := ExtractInteger(a, isConstant);
      case PyEnum(_, _) => error := ExtractPyEnum(a, isConstant);
      case PyFloat(_) => error := ExtractFloat(a, isConstant);
      case NpFloat16(_) => error := ExtractFloat(a, isConstant);
      case NpFloat32(_) => error := ExtractFloat(a, isConstant);
      case PyComplex(_, _) => error := ExtractComplex(a, isConstant);
      case NpComplex64(_, _) => error := ExtractComplex(a, isConstant);
      case DeviceRecord(address, _) =>
        PushScalar(Pointer(address), 0);
        error := None;
    }

    /** extract_numpy_void: allocate, copy, and record the allocation; a failed copy frees it at once. */
    method ExtractNumpyVoid(a: Arg, isConstant: bool, driver: Driver) returns (error: Option<Error>)
      requires a.NumpyVoid? && Owns(driver) && (a.device != 0 ==> a.device !in driver.live)
      modifies this`cuargs, this`argMetadata, this`recordCopies, driver
      ensures Owns(driver) && Extracted(old(Contents()), Contents(), a, isConstant, error)
      ensures driver.live - Devices(recordCopies) == old(driver.live) - Devices(old(recordCopies))
    {
      if a.size <= 0 { return Some(ValueError); }
      if a.device == 0 { return Some(RuntimeError); }
      driver.MemAlloc(a.device);
      if !a.copied {
        driver.MemFree(a.device);
        return Some(RuntimeError);
      }
      DevicesAppend(recordCopies, RecordCopy(a.host, a.device, a.size));
      assert forall i :: 0 <= i < |recordCopies| ==> recordCopies[i] in recordCopies;
      recordCopies := recordCopies + [RecordCopy(a.host, a.device, a.size)];
      PushScalar(Pointer(a.device), 0);
      error := None;
    }

    /** extract_cuda_args: clear everything, free the previous launch's allocations, extract every
        argument in turn.  Whatever happens, the helper owns exactly what it allocated. */
    method ExtractCudaArgs(args: seq<Arg>, flags: seq<bool>, driver: Driver) returns (error: Option<Error>)
      requires Owns(driver) && (forall k :: 0 <= k < |args| ==> WellFormed(args[k]))
      requires NewDevices(args, driver.live - Devices(recordCopies))
      modifies this, driver
      ensures (Contents(), error) == ExtractFrom(EMPTY, args, flags, 0)
      ensures Owns(driver) && nextFree == old(nextFree)
      ensures driver.live - Devices(recordCopies) == old(driver.live) - Devices(old(recordCopies))
    {
      cuargs, argMetadata, constants := [], [], [];
      alignedTmaDescriptors := [];
      FreeRecords(driver);
      ghost var others := driver.live;
      for i := 0 to |args|
        invariant nextFree == old(nextFree)
        invariant Owns(driver) && driver.live - Devices(recordCopies) == others
        invariant Devices(recordCopies) <= DevicesOf(args, i)
        invariant ExtractFrom(Contents(), args, flags, i) == ExtractFrom(EMPTY, args, flags, 0)
      {
        if args[i].NumpyVoid? {
          NotYetUsed(args, i, others);
          error := ExtractNumpyVoid(args[i], IsConstant(flags, i), driver);
        } else {
          error := ExtractValue(args[i], IsConstant(flags, i));
        }
        if error.Some? { return; }
      }
      error := None;
    }

    /** The loop that builds the pointer list just before the launch. */
    method BuildPointers()
      modifies this`cuargPointers
      ensures cuargPointers == Pointers(argMetadata, cuargs)
    {
      cuargPointers := [];
      for i := 0 to |argMetadata|
        invariant cuargPointers == Pointers(argMetadata[..i], cuargs)
      {
        var meta := argMetadata[i];
        ghost var before := cuargPointers;
        match meta.kind {
          case Array =>
            var numValues := 3 + 2 * meta.ndim;
            for j := 0 to numValues
              invariant cuargPointers == before + Run(meta.start, j)
            {
              cuargPointers := cuargPointers + [Into(meta.start + j)];
              assert Run(meta.start, j + 1) == Run(meta.start, j) + [Into(meta.start + j)];
            }
          case TmaDescriptor =>
            if meta.start < |cuargs| && cuargs[meta.start].Pointer? {
              cuargPointers := cuargPointers + [Address(cuargs[meta.start].address)];
            }
          case Scalar =>
            cuargPointers := cuargPointers + [Into(meta.start)];
        }
        PointersStep(argMetadata, cuargs, i + 1);
      }
      assert argMetadata[..|argMetadata|] == argMetadata;
    }

    /** The single loop of the fast path: extract and point at the same time. */
    method ExtractFast(args: seq<Arg>, driver: Driver) returns (error: Option<Error>)
      requires Owns(driver) && forall k :: 0 <= k < |args| ==> FastScalar(args[k])
      modifies this, driver
      ensures error.Some? ==> Fast(args) == Raised(error.value)
      ensures error.None? ==> Fast(args) == Launch(cuargs, cuargPointers, constants)
      ensures recordCopies == [] && driver.live == old(driver.live) - Devices(old(recordCopies))
    {
      alignedTmaDescriptors := [];
      FreeRecords(driver);
      cuargs, cuargPointers := [], [];
      for i := 0 to |args|
        invariant recordCopies == [] && driver.live == old(driver.live) - Devices(old(recordCopies))
        invariant FastFrom(cuargs, args, i) == Fast(args)
        invariant |cuargs| == i && cuargPointers == Run(0, i)
      {
        var word := FastWord(args[i]);
        if word.None? { return Some(OverflowError); }
        cuargs := cuargs + [word.value];
        cuargPointers := cuargPointers + [Into(i)];
        assert Run(0, i + 1) == Run(0, i) + [Into(i)];
      }
      constants := [];
      error := None;
    }

    /** The part of launch between taking a helper and calling the driver: choose a path, extract, and
        point into the final vector. */
    method Marshal(args: seq<Arg>, flags: seq<bool>, driver: Driver) returns (error: Option<Error>)
      requires Owns(driver) && (forall k :: 0 <= k < |args| ==> WellFormed(args[k]))
      requires NewDevices(args, driver.live - Devices(recordCopies))
      modifies this, driver
      ensures LaunchPaths.Marshal(args, flags) ==
              if error.Some? then Raised(error.value) else Launch(cuargs, cuargPointers, constants)
      ensures Owns(driver)
      ensures driver.live - Devices(recordCopies) == old(driver.live) - Devices(old(recordCopies))
    {
      if UsesFastPath(args, flags) {
        error := ExtractFast(args, driver);
        assert Devices(recordCopies) == {};
      } else {
        error := ExtractCudaArgs(args, flags, driver);
        if error.None? { BuildPointers(); }
      }
    }
  }

  /** Helper i of a list, or null past its end. */
  ghost function Link(list: seq<LaunchHelper>, i: nat): LaunchHelper? {
    if i < |list| then list[i] else null
  }

  /** g_helper_freelist: a list linked through nextFree.  free is its contents, inUse the helpers that
      launches hold, created how many were ever made. */
  class HelperFreelist {
    var head: LaunchHelper?
    ghost var free: seq<LaunchHelper>
    ghost var inUse: set<LaunchHelper>
    ghost var created: nat

    /** The links follow free, which is acyclic and disjoint from the helpers in use. */
    ghost predicate Valid()
      reads this, free
    {
      && head == Link(free, 0)
      && (forall i :: 0 <= i < |free| ==> free[i].nextFree == Link(free, i + 1))
      && (forall i, j :: 0 <= i < j < |free| ==> free[i] != free[j])
      && (forall i :: 0 <= i < |free| ==> free[i] !in inUse)
      && created == |free| + |inUse|
    }

    constructor ()
      ensures Valid() && free == [] && inUse == {} && created == 0
    {
      head := null;
      free, inUse, created := [], {}, 0;
    }

    /** launch_helper_get */
    method Get() returns (helper: LaunchHelper)
      requires Valid()
      modifies this
      ensures Valid() && helper !in old(inUse) && inUse == old(inUse) + {helper}
      ensures old(free) != [] ==> helper == old(free)[0] && free == old(free)[1..] && created == old(created)
      ensures old(free) == [] ==> fresh(helper) && free == [] && created == old(created) + 1 && created == |inUse|
    {
      if head != null {
        helper := head;
        ghost var before := free;
        assert before[0].nextFree == Link(before, 1);
        head := helper.nextFree;
        free := free[1..];
        forall i | 0 <= i < |free| ensures free[i].nextFree == Link(free, i + 1) {
          assert free[i] == before[i + 1];
        }
      } else {
        helper := new LaunchHelper();
        created := created + 1;
      }
      inUse := inUse + {helper};
    }

    /** LaunchHelperDeleter */
    method Put(helper: LaunchHelper)
      requires Valid() && helper in inUse
      modifies this, helper`nextFree
      ensures Valid() && free == [helper] + old(free) && inUse == old(inUse) - {helper} && created == old(created)
    {
      ghost var before := free;
      helper.nextFree := head;
      head := helper;
      free := [helper] + free;
      inUse := inUse - {helper};
      forall i | 1 <= i < |free| ensures free[i].nextFree == Link(free, i + 1) {
        assert free[i] == before[i - 1];
      }
    }
  }
}
