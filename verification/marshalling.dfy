/** Marshalling of launch arguments: the flat argument vector, its metadata, the kernel-map key, the
    pointer list handed to the driver, and the fast path for plain scalars. */
module Marshalling {
  import opened Arithmetic
  import opened Lru
  import opened Strides

  const UINT64_MAX := 0xffff_ffff_ffff_ffff
  const TWO_64 := 0x1_0000_0000_0000_0000
  const TWO_32 := 0x1_0000_0000

  // ---- arguments ----

  datatype EnumValue = IntValue(v: int) | FloatValue(x: real)

  /** The class of a Python int: int or bool itself, an IntEnum class, or any other subclass. */
  datatype IntClass = Int | Bool | IntEnum(enumType: int) | IntSubclass

  /** A classified argument with what Python and the driver report about it, and what the type it is
      compiled for depends on.  A storage or device address of 0 stands for a failed allocation. */
  datatype Arg =
    | Dlpack(data: int, shape: seq<int>, strides: Option<seq<int>>, dtype: nat)
    | CudaArray(data: int, shape: seq<int>, byteStrides: Option<seq<int>>, bits: nat, opaqueType: bool, dtype: nat,
                identity: string)
    | Tma(storage: nat, typeId: nat)
    | PyLong(v: int, cls: IntClass)
    | NpInteger(v: int, bits: nat, signed: bool)
    | PyEnum(enumType: int, value: EnumValue)
    | PyFloat(x: real)
    | NpFloat16(x: real)
    | NpFloat32(x: real)
    | PyComplex(re: real, im: real)
    | NpComplex64(re: real, im: real)
    | NumpyVoid(host: int, size: int, device: nat, copied: bool, identity: string)
    | DeviceRecord(address: int, identity: string)
    | NpDatetime(v: int, identity: string)

  /** What the interface objects guarantee: as many strides as dimensions, widths of numbers of whole
      bytes that fit the source's 8-bit width, a 32-bit packed dtype. */
  predicate WellFormed(a: Arg) {
    match a
    case Dlpack(_, shape, strides, dtype) => dtype < TWO_32 && (strides.Some? ==> |strides.value| == |shape|)
    case CudaArray(_, shape, strides, bits, opaqueType, dtype, _) =>
      dtype < TWO_32 && (opaqueType || 8 <= bits < 256) && (strides.Some? ==> |strides.value| == |shape|)
    case _ => true
  }

  // ---- what the launcher builds ----

  datatype Word =
    | Pointer(address: int)
    | Half(x: real)
    | I64(v: int)
    | F32(x: real)
    | F64(x: real)
    | PackedComplex(re: real, im: real)

  datatype Kind = Scalar | Array | TmaDescriptor

  datatype Meta = Meta(kind: Kind, start: nat, ndim: nat)

  datatype Constant =
    | IntConst(v: int)
    | UnsignedConst(v: int)
    | BoolConst(b: bool)
    | FloatConst(x: real)
    | StringConst(s: string)

  datatype RecordCopy = RecordCopy(host: int, device: nat, size: int)

  datatype Error = OverflowError | TypeError | ValueError | MemoryError | RuntimeError

  datatype Buffers = Buffers(
    cuargs: seq<Word>,
    metas: seq<Meta>,
    constants: seq<Constant>,
    tma: seq<nat>,
    records: seq<RecordCopy>)

  const EMPTY := Buffers([], [], [], [], [])

  // ---- integers ----

  /** pylong_as<int64_t>: a value above the signed range is kept as its unsigned bit pattern. */
  function AsInt64(v: int): (r: Option<int>)
    ensures r.Some? <==> INT64_MIN <= v <= UINT64_MAX
    ensures r.Some? ==> FitsInt64(r.value) && (r.value == v || r.value == v - TWO_64)
  {
    if FitsInt64(v) then Some(v)
    else if 0 <= v <= UINT64_MAX then Some(v - TWO_64)
    else None
  }

  /** C division. */
  function Truncate(a: int, b: int): int
    requires b > 0
  {
    if a >= 0 then a / b else -((-a) / b)
  }

  /** pack_dtype_and_ndim */
  function PackDtype(dtype: nat, ndim: nat): int {
    var u := dtype + ndim * TWO_32;
    if u > INT64_MAX then u - TWO_64 else u
  }

  // ---- one argument ----

  function I64s(vs: seq<int>): seq<Word> {
    seq(|vs|, i requires 0 <= i < |vs| => I64(vs[i]))
  }

  function AllFit(vs: seq<int>): bool {
    forall i :: 0 <= i < |vs| ==> FitsInt64(vs[i])
  }

  function CompactStrides(shape: seq<int>): seq<int> {
    seq(|shape|, k requires 0 <= k < |shape| => CompactStride(shape, k))
  }

  /** Strides in elements; opaque types keep bytes. */
  function ElementStrides(a: Arg): seq<int>
    requires WellFormed(a) && (a.Dlpack? || a.CudaArray?)
  {
    match a
    case Dlpack(_, shape, strides, _) => if strides.Some? then strides.value else CompactStrides(shape)
    case CudaArray(_, shape, strides, bits, opaqueType, _, _) =>
      if strides.None? then CompactStrides(shape)
      else
        var width := if opaqueType then 1 else bits / 8;
        seq(|shape|, k requires 0 <= k < |shape| => Truncate(strides.value[k], width))
  }

  /** A byte stride of a whole number of elements, of either sign, becomes that number. */
  lemma WholeStridesExact(a: Arg, k: nat, elements: int)
    requires a.CudaArray? && WellFormed(a) && a.byteStrides.Some? && k < |a.shape|
    requires a.byteStrides.value[k] == elements * (if a.opaqueType then 1 else a.bits / 8)
    ensures ElementStrides(a)[k] == elements
  {
    var width := if a.opaqueType then 1 else a.bits / 8;
    MultipleModulo(elements, width);
    MultipleModulo(-elements, width);
    Negated(elements, width);
  }

  lemma Negated(x: int, w: int)
    ensures (-x) * w == -(x * w)
    ensures w > 0 && x * w >= 0 ==> x >= 0
  {
    if w > 0 && x < 0 { ProductAtLeast(-x, w); }
  }

  /** Why an argument cannot be extracted. */
  function Failure(a: Arg): Option<Error> {
    match a
    case Dlpack(_, shape, strides, _) =>
      if |shape| >= TWO_32 then Some(TypeError)
      else if strides.None? && !AllFit(CompactStrides(shape)) then Some(OverflowError)
      else None
    case CudaArray(_, shape, strides, _, _, _, _) =>
      if |shape| >= TWO_32 then Some(TypeError)
      else if strides.None? && !AllFit(CompactStrides(shape)) then Some(OverflowError)
      else None
    case Tma(storage, _) => if storage == 0 then Some(MemoryError) else None
    case PyLong(v, _) => if AsInt64(v).None? then Some(OverflowError) else None
    case NpInteger(v, _, _) => if AsInt64(v).None? then Some(OverflowError) else None
    case NpDatetime(v, _) => if AsInt64(v).None? then Some(OverflowError) else None
    case PyEnum(_, value) => if value.IntValue? && AsInt64(value.v).None? then Some(OverflowError) else None
    case NumpyVoid(_, size, device, copied, _) =>
      if size <= 0 then Some(ValueError)
      else if device == 0 || !copied then Some(RuntimeError)
      else None
    case _ => None
  }

  function Signed(v: int): int {
    match AsInt64(v) case Some(n) => n case None => -1
  }

  /** The words an argument contributes. */
  function Words(a: Arg): (ws: seq<Word>)
    requires WellFormed(a)
    ensures |ws| > 0
  {
    match a
    case Dlpack(data, shape, _, _) => [Pointer(data), Pointer(data), I64(0)] + I64s(shape) + I64s(ElementStrides(a))
    case CudaArray(data, shape, _, _, _, _, _) =>
      [Pointer(data), Pointer(data), I64(0)] + I64s(shape) + I64s(ElementStrides(a))
    case Tma(storage, _) => [Pointer(storage)]
    case PyLong(v, _) => [I64(Signed(v))]
    case NpInteger(v, _, _) => [I64(Signed(v))]
    case NpDatetime(v, _) => [I64(Signed(v))]
    case PyEnum(_, IntValue(v)) => [I64(Signed(v))]
    case PyEnum(_, FloatValue(x)) => [F64(x)]
    case PyFloat(x) => [F64(x)]
    case NpFloat16(x) => [Half(x)]
    case NpFloat32(x) => [F32(x)]
    case PyComplex(re, im) => [F64(re), F64(im)]
    case NpComplex64(re, im) => [PackedComplex(re, im)]
    case NumpyVoid(_, _, device, _, _) => [Pointer(device)]
    case DeviceRecord(address, _) => [Pointer(address)]
  }

  /** The kind and the ndim field of its metadata; for scalars ndim encodes the width. */
  function KindOf(a: Arg): Kind {
    if a.Dlpack? || a.CudaArray? then Array else if a.Tma? then TmaDescriptor else Scalar
  }

  function NdimOf(a: Arg): nat {
    match a
    case Dlpack(_, shape, _, _) => |shape|
    case CudaArray(_, shape, _, _, _, _, _) => |shape|
    case NpFloat32(_) => 3
    case PyComplex(_, _) => 2
    case NpComplex64(_, _) => 1
    case _ => 0
  }

  /** What an argument adds to the kernel-map key. */
  function ConstantsOf(a: Arg, isConstant: bool): seq<Constant> {
    match a
    case Dlpack(_, shape, _, dtype) => [IntConst(PackDtype(dtype, |shape|))]
    case CudaArray(_, shape, _, _, _, dtype, identity) =>
      [IntConst(PackDtype(dtype, |shape|))] + if identity == "" then [] else [StringConst(identity)]
    case _ => if isConstant then ScalarConstants(a) else []
  }

  function ScalarConstants(a: Arg): seq<Constant> {
    match a
    case PyLong(v, cls) =>
      [if cls.Bool? then BoolConst(v != 0) else if v > INT64_MAX then UnsignedConst(v) else IntConst(v)]
    case NpInteger(v, _, _) => [IntConst(Signed(v))]
    case NpDatetime(v, _) => [IntConst(Signed(v))]
    case PyEnum(enumType, IntValue(v)) => [IntConst(enumType), IntConst(Signed(v))]
    case PyEnum(enumType, FloatValue(x)) => [IntConst(enumType), FloatConst(x)]
    case PyFloat(x) => [FloatConst(x)]
    case NpFloat16(x) => [FloatConst(x)]
    case NpFloat32(x) => [FloatConst(x)]
    case _ => []
  }

  // ---- all arguments ----

  /** A failing enumeration member has already pushed its type. */
  function AfterFailure(b: Buffers, a: Arg, isConstant: bool): Buffers {
    if a.PyEnum? && isConstant then b.(constants := b.constants + [IntConst(a.enumType)]) else b
  }

  function Append(b: Buffers, a: Arg, isConstant: bool): Buffers
    requires WellFormed(a)
  {
    Buffers(
      b.cuargs + Words(a),
      b.metas + [Meta(KindOf(a), |b.cuargs|, NdimOf(a))],
      b.constants + ConstantsOf(a, isConstant),
      if a.Tma? then b.tma + [a.storage] else b.tma,
      if a.NumpyVoid? then b.records + [RecordCopy(a.host, a.device, a.size)] else b.records)
  }

  predicate IsConstant(flags: seq<bool>, i: nat) {
    i < |flags| && flags[i]
  }

  /** extract_cuda_args from argument i on: the buffers, and the error that stopped it. */
  function ExtractFrom(b: Buffers, args: seq<Arg>, flags: seq<bool>, i: nat): (Buffers, Option<Error>)
    requires i <= |args| && forall k :: 0 <= k < |args| ==> WellFormed(args[k])
    decreases |args| - i
  {
    if i == |args| then (b, None)
    else if Failure(args[i]).Some? then (AfterFailure(b, args[i], IsConstant(flags, i)), Failure(args[i]))
    else ExtractFrom(Append(b, args[i], IsConstant(flags, i)), args, flags, i + 1)
  }

  // ---- the pointer list ----

  /** A kernel parameter: the address of a word of the final vector, or a raw address. */
  datatype Param = Into(i: nat) | Address(address: int)

  function Run(start: nat, n: nat): seq<Param> {
    seq(n, i requires 0 <= i => Into(start + i))
  }

  /** The parameters one metadata entry expands to. */
  function Expand(m: Meta, cuargs: seq<Word>): seq<Param> {
    match m.kind
    case Array => Run(m.start, 3 + 2 * m.ndim)
    case TmaDescriptor =>
      if m.start < |cuargs| && cuargs[m.start].Pointer? then [Address(cuargs[m.start].address)] else []
    case Scalar => [Into(m.start)]
  }

  function Pointers(metas: seq<Meta>, cuargs: seq<Word>): seq<Param> {
    if metas == [] then []
    else Pointers(metas[..|metas| - 1], cuargs) + Expand(metas[|metas| - 1], cuargs)
  }

  // ---- the layout ----

  /** Words a metadata entry covers: 3 + 2 * ndim for arrays, 2 for complex128, 1 otherwise. */
  function Width(m: Meta): nat {
    match m.kind
    case Array => 3 + 2 * m.ndim
    case TmaDescriptor => 1
    case Scalar => if m.ndim == 2 then 2 else 1
  }

  lemma WordsWidth(a: Arg, start: nat)
    requires WellFormed(a)
    ensures |Words(a)| == Width(Meta(KindOf(a), start, NdimOf(a)))
  {
  }

  /** Windows in order, without gaps or overlaps, covering n words. */
  ghost predicate Tiles(metas: seq<Meta>, n: nat) {
    && (metas == [] ==> n == 0)
    && (metas != [] ==> metas[0].start == 0 && metas[|metas| - 1].start + Width(metas[|metas| - 1]) == n)
    && forall i :: 0 <= i < |metas| - 1 ==> metas[i].start + Width(metas[i]) == metas[i + 1].start
  }

  lemma TilesAppend(metas: seq<Meta>, n: nat, m: Meta)
    requires Tiles(metas, n) && m.start == n
    ensures Tiles(metas + [m], n + Width(m))
  {
    var r := metas + [m];
    forall i | 0 <= i < |r| - 1 ensures r[i].start + Width(r[i]) == r[i + 1].start {
      if i < |metas| - 1 { assert r[i] == metas[i] && r[i + 1] == metas[i + 1]; }
    }
  }

  /** The window of a metadata entry holds an argument's words. */
  ghost predicate PlacedAt(m: Meta, cuargs: seq<Word>, a: Arg)
    requires WellFormed(a)
  {
    && m.kind == KindOf(a) && m.ndim == NdimOf(a)
    && m.start + |Words(a)| <= |cuargs|
    && cuargs[m.start..m.start + |Words(a)|] == Words(a)
  }

  /** The buffers hold the first n arguments: one window each, with the argument's words. */
  ghost predicate Holds(b: Buffers, args: seq<Arg>, n: nat)
    requires n <= |args| && forall k :: 0 <= k < |args| ==> WellFormed(args[k])
  {
    && |b.metas| == n && Tiles(b.metas, |b.cuargs|)
    && forall i :: 0 <= i < n ==> PlacedAt(b.metas[i], b.cuargs, args[i])
  }

  lemma Window<T>(s: seq<T>, more: seq<T>, i: nat, j: nat)
    requires i <= j <= |s|
    ensures (s + more)[i..j] == s[i..j]
  {
  }

  lemma PlacedStays(m: Meta, cuargs: seq<Word>, more: seq<Word>, a: Arg)
    requires WellFormed(a) && PlacedAt(m, cuargs, a)
    ensures PlacedAt(m, cuargs + more, a)
  {
    Window(cuargs, more, m.start, m.start + |Words(a)|);
  }

  lemma NewPlaced(cuargs: seq<Word>, a: Arg)
    requires WellFormed(a)
    ensures PlacedAt(Meta(KindOf(a), |cuargs|, NdimOf(a)), cuargs + Words(a), a)
  {
    var ws := Words(a);
    assert (cuargs + ws)[|cuargs|..|cuargs| + |ws|] == ws;
  }

  lemma AppendHolds(b: Buffers, args: seq<Arg>, n: nat, isConstant: bool)
    requires n < |args| && (forall k :: 0 <= k < |args| ==> WellFormed(args[k])) && Holds(b, args, n)
    ensures Holds(Append(b, args[n], isConstant), args, n + 1)
  {
    var r := Append(b, args[n], isConstant);
    var m := Meta(KindOf(args[n]), |b.cuargs|, NdimOf(args[n]));
    WordsWidth(args[n], |b.cuargs|);
    TilesAppend(b.metas, |b.cuargs|, m);
    NewPlaced(b.cuargs, args[n]);
    forall i | 0 <= i < n ensures PlacedAt(r.metas[i], r.cuargs, args[i]) {
      PlacedStays(b.metas[i], b.cuargs, Words(args[n]), args[i]);
    }
  }

  /** After extraction the metadata windows partition the argument vector in order, each holding
      exactly its argument's words. */
  lemma {:induction false} LayoutPartitions(b: Buffers, args: seq<Arg>, flags: seq<bool>, n: nat)
    requires n <= |args| && forall k :: 0 <= k < |args| ==> WellFormed(args[k])
    ensures var (r, e) := ExtractFrom(b, args, flags, n); Holds(b, args, n) && e.None? ==> Holds(r, args, |args|)
    decreases |args| - n
  {
    if n < |args| && Failure(args[n]).None? && Holds(b, args, n) {
      AppendHolds(b, args, n, IsConstant(flags, n));
      LayoutPartitions(Append(b, args[n], IsConstant(flags, n)), args, flags, n + 1);
    }
  }

  function Failures(args: seq<Arg>): (fs: seq<Option<Error>>)
    ensures |fs| == |args|
  {
    seq(|args|, i requires 0 <= i < |args| => Failure(args[i]))
  }

  /** The first error at or after position n. */
  function FirstFailure(fs: seq<Option<Error>>, n: nat): Option<Error>
    requires n <= |fs|
    decreases |fs| - n
  {
    if n == |fs| then None else if fs[n].Some? then fs[n] else FirstFailure(fs, n + 1)
  }

  lemma {:induction false} FirstFailureFacts(fs: seq<Option<Error>>, n: nat) returns (k: nat)
    requires n <= |fs|
    ensures FirstFailure(fs, n).None? ==> forall j :: n <= j < |fs| ==> fs[j].None?
    ensures FirstFailure(fs, n).Some? ==>
              n <= k < |fs| && fs[k] == FirstFailure(fs, n) && forall j :: n <= j < k ==> fs[j].None?
    decreases |fs| - n
  {
    k := n;
    if n < |fs| && fs[n].None? { k := FirstFailureFacts(fs, n + 1); }
  }

  lemma FailureStep(fs: seq<Option<Error>>, n: nat)
    requires n < |fs|
    ensures FirstFailure(fs, n) == if fs[n].Some? then fs[n] else FirstFailure(fs, n + 1)
  {
  }

  lemma ExtractStep(b: Buffers, args: seq<Arg>, flags: seq<bool>, n: nat)
    requires n < |args| && forall k :: 0 <= k < |args| ==> WellFormed(args[k])
    ensures ExtractFrom(b, args, flags, n).1 ==
            if Failure(args[n]).Some? then Failure(args[n])
            else ExtractFrom(Append(b, args[n], IsConstant(flags, n)), args, flags, n + 1).1
  {
  }

  ghost predicate ErrorFrom(b: Buffers, args: seq<Arg>, flags: seq<bool>, n: nat, e: Option<Error>)
    requires n <= |args| && forall k :: 0 <= k < |args| ==> WellFormed(args[k])
  {
    ExtractFrom(b, args, flags, n).1 == e
  }

  lemma ErrorAtEnd(b: Buffers, args: seq<Arg>, flags: seq<bool>)
    requires forall k :: 0 <= k < |args| ==> WellFormed(args[k])
    ensures ErrorFrom(b, args, flags, |args|, FirstFailure(Failures(args), |args|))
  {
  }

  lemma ErrorHere(b: Buffers, args: seq<Arg>, flags: seq<bool>, n: nat)
    requires n < |args| && forall k :: 0 <= k < |args| ==> WellFormed(args[k])
    requires Failure(args[n]).Some?
    ensures ErrorFrom(b, args, flags, n, FirstFailure(Failures(args), n))
  {
    FailureStep(Failures(args), n);
    ExtractStep(b, args, flags, n);
  }

  lemma ErrorLater(b: Buffers, args: seq<Arg>, flags: seq<bool>, n: nat, e: Option<Error>)
    requires n < |args| && forall k :: 0 <= k < |args| ==> WellFormed(args[k])
    requires Failure(args[n]).None? && ErrorFrom(Append(b, args[n], IsConstant(flags, n)), args, flags, n + 1, e)
    ensures ErrorFrom(b, args, flags, n, e)
  {
    ExtractStep(b, args, flags, n);
  }

  /** Extraction succeeds exactly when every argument can be extracted; the error is the first one's. */
  lemma {:induction false} ErrorIsFirstFailure(b: Buffers, args: seq<Arg>, flags: seq<bool>, n: nat)
    requires n <= |args| && forall k :: 0 <= k < |args| ==> WellFormed(args[k])
    ensures ExtractFrom(b, args, flags, n).1 == FirstFailure(Failures(args), n)
    decreases |args| - n
  {
    if n == |args| {
      ErrorAtEnd(b, args, flags);
    } else if Failure(args[n]).Some? {
      ErrorHere(b, args, flags, n);
    } else {
      ErrorIsFirstFailure(Append(b, args[n], IsConstant(flags, n)), args, flags, n + 1);
      FailureStep(Failures(args), n);
      ErrorLater(b, args, flags, n, FirstFailure(Failures(args), n + 1));
    }
  }

  // ---- the pointers ----

  /** What the kernel reads through a parameter. */
  function Value(p: Param, cuargs: seq<Word>): Option<Word> {
    match p
    case Into(i) => if i < |cuargs| then Some(cuargs[i]) else None
    case Address(a) => Some(Pointer(a))
  }

  function Values(ps: seq<Param>, cuargs: seq<Word>): seq<Option<Word>> {
    seq(|ps|, i requires 0 <= i < |ps| => Value(ps[i], cuargs))
  }

  /** The parameters an argument means: all words of an array, the first of a complex128 (the second
      follows it in memory), the one word of anything else. */
  function ParamWords(a: Arg): seq<Word>
    requires WellFormed(a)
  {
    if a.PyComplex? then [Words(a)[0]] else Words(a)
  }

  function Somes(ws: seq<Word>): seq<Option<Word>> {
    seq(|ws|, i requires 0 <= i < |ws| => Some(ws[i]))
  }

  function AllParamWords(args: seq<Arg>, n: nat): seq<Option<Word>>
    requires n <= |args| && forall k :: 0 <= k < |args| ==> WellFormed(args[k])
  {
    if n == 0 then [] else AllParamWords(args, n - 1) + Somes(ParamWords(args[n - 1]))
  }

  lemma RunValues(start: nat, n: nat, cuargs: seq<Word>)
    requires start + n <= |cuargs|
    ensures Values(Run(start, n), cuargs) == Somes(cuargs[start..start + n])
  {
  }

  lemma ExpandValues(m: Meta, cuargs: seq<Word>, a: Arg)
    requires WellFormed(a) && PlacedAt(m, cuargs, a)
    ensures Values(Expand(m, cuargs), cuargs) == Somes(ParamWords(a))
  {
    WordsWidth(a, m.start);
    var ws := Words(a);
    assert cuargs[m.start] == ws[0] by { assert cuargs[m.start..m.start + |ws|][0] == ws[0]; }
    match m.kind
    case Array => RunValues(m.start, |ws|, cuargs);
    case TmaDescriptor => FirstWord(a);
    case Scalar => FirstWord(a);
  }

  lemma FirstWord(a: Arg)
    requires WellFormed(a) && KindOf(a) != Array
    ensures ParamWords(a) == [Words(a)[0]]
    ensures KindOf(a) == TmaDescriptor ==> Words(a)[0].Pointer?
  {
  }

  lemma ValuesAppend(a: seq<Param>, b: seq<Param>, cuargs: seq<Word>)
    ensures Values(a + b, cuargs) == Values(a, cuargs) + Values(b, cuargs)
  {
  }

  /** The kernel receives, in order, exactly the parameters its arguments mean. */
  lemma {:induction false} PointersMeanArguments(b: Buffers, args: seq<Arg>, n: nat)
    requires n <= |args| && forall k :: 0 <= k < |args| ==> WellFormed(args[k])
    ensures Holds(b, args, |args|) ==> Values(Pointers(b.metas[..n], b.cuargs), b.cuargs) == AllParamWords(args, n)
    decreases n
  {
    if n > 0 && Holds(b, args, |args|) {
      PointersMeanArguments(b, args, n - 1);
      PointersStep(b.metas, b.cuargs, n);
      assert PlacedAt(b.metas[n - 1], b.cuargs, args[n - 1]);
      ExpandValues(b.metas[n - 1], b.cuargs, args[n - 1]);
      ValuesAppend(Pointers(b.metas[..n - 1], b.cuargs), Expand(b.metas[n - 1], b.cuargs), b.cuargs);
    }
  }

  lemma PointersStep(metas: seq<Meta>, cuargs: seq<Word>, n: nat)
    requires 0 < n <= |metas|
    ensures Pointers(metas[..n], cuargs) == Pointers(metas[..n - 1], cuargs) + Expand(metas[n - 1], cuargs)
  {
    assert metas[..n][..n - 1] == metas[..n - 1];
  }

  // ---- pointers into the vector ----

  /** How many words each argument has. */
  function Sizes(args: seq<Arg>): (sizes: seq<nat>)
    requires forall k :: 0 <= k < |args| ==> WellFormed(args[k])
    ensures |sizes| == |args| && forall k :: 0 <= k < |args| ==> sizes[k] == |Words(args[k])|
  {
    seq(|args|, k requires 0 <= k < |args| => |Words(args[k])|)
  }

  function SumFirst(sizes: seq<nat>, n: nat): nat
    requires n <= |sizes|
  {
    if n == 0 then 0 else SumFirst(sizes, n - 1) + sizes[n - 1]
  }

  /** Part k ends where the first m parts end, or before. */
  lemma {:induction false} PartsEnd(sizes: seq<nat>, k: nat, m: nat)
    requires k < m <= |sizes|
    ensures SumFirst(sizes, k) + sizes[k] <= SumFirst(sizes, m)
    decreases m
  {
    if k + 1 < m { PartsEnd(sizes, k, m - 1); }
  }

  /** Where argument n's words begin. */
  function ArgStart(args: seq<Arg>, n: nat): nat
    requires n <= |args| && forall k :: 0 <= k < |args| ==> WellFormed(args[k])
  {
    SumFirst(Sizes(args), n)
  }

  /** The parameters of one argument whose words begin at start. */
  function ArgParams(a: Arg, start: nat): seq<Param>
    requires WellFormed(a)
  {
    if a.Tma? then [Address(a.storage)] else Run(start, |ParamWords(a)|)
  }

  /** The parameters of every argument, from the arguments alone. */
  function ParamLists(args: seq<Arg>): (lists: seq<seq<Param>>)
    requires forall k :: 0 <= k < |args| ==> WellFormed(args[k])
    ensures |lists| == |args| && forall k :: 0 <= k < |args| ==> lists[k] == ArgParams(args[k], ArgStart(args, k))
  {
    seq(|args|, k requires 0 <= k < |args| => ArgParams(args[k], ArgStart(args, k)))
  }

  function Concat<T>(lists: seq<seq<T>>, n: nat): seq<T>
    requires n <= |lists|
  {
    if n == 0 then [] else Concat(lists, n - 1) + lists[n - 1]
  }

  function AllParams(args: seq<Arg>, n: nat): seq<Param>
    requires n <= |args| && forall k :: 0 <= k < |args| ==> WellFormed(args[k])
  {
    Concat(ParamLists(args), n)
  }

  lemma {:induction false} StartsChain(b: Buffers, args: seq<Arg>, n: nat)
    requires n <= |args| && forall k :: 0 <= k < |args| ==> WellFormed(args[k])
    ensures Holds(b, args, |args|) && n < |args| ==> b.metas[n].start == ArgStart(args, n)
    ensures Holds(b, args, |args|) && n == |args| ==> |b.cuargs| == ArgStart(args, n)
    decreases n
  {
    if n > 0 && Holds(b, args, |args|) {
      StartsChain(b, args, n - 1);
      NextStart(b.metas, |b.cuargs|, n, b.cuargs, args[n - 1]);
    }
  }

  lemma NextStart(metas: seq<Meta>, size: nat, n: nat, cuargs: seq<Word>, a: Arg)
    requires Tiles(metas, size) && 0 < n <= |metas| && WellFormed(a) && PlacedAt(metas[n - 1], cuargs, a)
    ensures metas[n - 1].start + |Words(a)| == if n < |metas| then metas[n].start else size
  {
    WordsWidth(a, metas[n - 1].start);
    if n < |metas| { assert metas[n - 1].start + Width(metas[n - 1]) == metas[n].start; }
  }

  lemma ExpandParams(m: Meta, cuargs: seq<Word>, a: Arg)
    requires WellFormed(a) && PlacedAt(m, cuargs, a)
    ensures Expand(m, cuargs) == ArgParams(a, m.start)
  {
    WordsWidth(a, m.start);
    var ws := Words(a);
    assert cuargs[m.start] == ws[0] by { assert cuargs[m.start..m.start + |ws|][0] == ws[0]; }
    if m.kind != Array { FirstWord(a); }
  }

  ghost predicate PointersAre(b: Buffers, n: nat, ps: seq<Param>)
    requires n <= |b.metas|
  {
    Pointers(b.metas[..n], b.cuargs) == ps
  }

  lemma NoPointers(b: Buffers)
    ensures PointersAre(b, 0, [])
  {
    assert b.metas[..0] == [];
  }

  lemma MorePointers(b: Buffers, n: nat, ps: seq<Param>)
    requires 0 < n <= |b.metas| && PointersAre(b, n - 1, ps)
    ensures PointersAre(b, n, ps + Expand(b.metas[n - 1], b.cuargs))
  {
    PointersStep(b.metas, b.cuargs, n);
  }

  lemma {:induction false} HeldExact(b: Buffers, args: seq<Arg>, n: nat)
    requires n <= |args| && (forall k :: 0 <= k < |args| ==> WellFormed(args[k])) && Holds(b, args, |args|)
    ensures PointersAre(b, n, AllParams(args, n))
    decreases n
  {
    if n == 0 {
      NoPointers(b);
    } else {
      HeldExact(b, args, n - 1);
      MorePointers(b, n, AllParams(args, n - 1));
      ExpandExact(b, args, n - 1);
      AllParamsStep(args, n);
    }
  }

  /** The pointer list is, parameter by parameter, the address of each argument's words in the final
      vector, one after another; a TMA descriptor's parameter is its own storage. */
  lemma PointersExact(b: Buffers, args: seq<Arg>, n: nat)
    requires n <= |args| && forall k :: 0 <= k < |args| ==> WellFormed(args[k])
    ensures Holds(b, args, |args|) ==> Pointers(b.metas[..n], b.cuargs) == AllParams(args, n)
  {
    if Holds(b, args, |args|) { HeldExact(b, args, n); }
  }

  lemma ExpandExact(b: Buffers, args: seq<Arg>, k: nat)
    requires k < |args| && (forall j :: 0 <= j < |args| ==> WellFormed(args[j])) && Holds(b, args, |args|)
    ensures Expand(b.metas[k], b.cuargs) == ArgParams(args[k], ArgStart(args, k))
  {
    StartsChain(b, args, k);
    assert PlacedAt(b.metas[k], b.cuargs, args[k]);
    ExpandParams(b.metas[k], b.cuargs, args[k]);
  }

  lemma AllParamsStep(args: seq<Arg>, n: nat)
    requires 0 < n <= |args| && forall k :: 0 <= k < |args| ==> WellFormed(args[k])
    ensures AllParams(args, n) == AllParams(args, n - 1) + ArgParams(args[n - 1], ArgStart(args, n - 1))
  {
  }

  /** Every parameter is a pointer to one of the first size words. */
  predicate AllInto(ps: seq<Param>, size: nat) {
    forall k :: 0 <= k < |ps| ==> ps[k].Into? && ps[k].i < size
  }

  lemma AllIntoAppend(a: seq<Param>, b: seq<Param>, size: nat)
    ensures AllInto(a + b, size) <==> AllInto(a, size) && AllInto(b, size)
  {
    if AllInto(a + b, size) {
      assert forall k :: 0 <= k < |a| ==> a[k] == (a + b)[k];
      assert forall k :: 0 <= k < |b| ==> b[k] == (a + b)[|a| + k];
    }
  }

  lemma ArgParamsInto(a: Arg, start: nat, size: nat)
    requires WellFormed(a) && start + |Words(a)| <= size
    ensures AllInto(ArgParams(a, start), size) <==> !a.Tma?
  {
    if a.Tma? { assert !ArgParams(a, start)[0].Into?; }
  }

  lemma {:induction false} ConcatInto(lists: seq<seq<Param>>, n: nat, size: nat)
    requires n <= |lists|
    ensures AllInto(Concat(lists, n), size) <==> forall k :: 0 <= k < n ==> AllInto(lists[k], size)
    decreases n
  {
    if n > 0 {
      ConcatInto(lists, n - 1, size);
      AllIntoAppend(Concat(lists, n - 1), lists[n - 1], size);
    }
  }

  /** Every kernel parameter points into the final argument vector exactly when no argument is a TMA
      descriptor. */
  lemma PointersIntoVectorIff(args: seq<Arg>, flags: seq<bool>)
    requires forall k :: 0 <= k < |args| ==> WellFormed(args[k]) && Failure(args[k]).None?
    ensures var b := ExtractFrom(EMPTY, args, flags, 0).0;
            AllInto(Pointers(b.metas, b.cuargs), |b.cuargs|) <==> forall k :: 0 <= k < |args| ==> !args[k].Tma?
  {
    MarshalledLaunch(args, flags);
    var b := ExtractFrom(EMPTY, args, flags, 0).0;
    StartsChain(b, args, |args|);
    ConcatInto(ParamLists(args), |args|, |b.cuargs|);
    forall k | 0 <= k < |args| ensures AllInto(ParamLists(args)[k], |b.cuargs|) <==> !args[k].Tma? {
      PartsEnd(Sizes(args), k, |args|);
      ArgParamsInto(args[k], ArgStart(args, k), |b.cuargs|);
    }
  }

  /** The smallest launch with a pointer outside the vector: one descriptor. */
  lemma TmaPointsElsewhere(storage: nat, typeId: nat)
    requires storage != 0
    ensures var args := [Tma(storage, typeId)];
            var b := ExtractFrom(EMPTY, args, [], 0).0;
            WellFormed(args[0]) && Failure(args[0]).None? && Pointers(b.metas, b.cuargs) == [Address(storage)]
  {
    var args := [Tma(storage, typeId)];
    MarshalledLaunch(args, []);
    OneDescriptor(args);
  }

  lemma OneDescriptor(args: seq<Arg>)
    requires |args| == 1 && args[0].Tma?
    ensures AllParams(args, |args|) == [Address(args[0].storage)]
  {
    var lists := ParamLists(args);
    assert Concat(lists, 0) == [];
    assert Concat(lists, 1) == Concat(lists, 0) + lists[0];
  }

  /** The whole standard path. */
  lemma MarshalledLaunch(args: seq<Arg>, flags: seq<bool>)
    requires forall k :: 0 <= k < |args| ==> WellFormed(args[k]) && Failure(args[k]).None?
    ensures var (b, e) := ExtractFrom(EMPTY, args, flags, 0);
            && e.None? && Holds(b, args, |args|)
            && Pointers(b.metas, b.cuargs) == AllParams(args, |args|)
            && Values(Pointers(b.metas, b.cuargs), b.cuargs) == AllParamWords(args, |args|)
  {
    NoError(EMPTY, args, flags);
    LayoutPartitions(EMPTY, args, flags, 0);
    HeldPointers(ExtractFrom(EMPTY, args, flags, 0).0, args);
  }

  lemma HeldPointers(b: Buffers, args: seq<Arg>)
    requires (forall k :: 0 <= k < |args| ==> WellFormed(args[k])) && Holds(b, args, |args|)
    ensures Pointers(b.metas, b.cuargs) == AllParams(args, |args|)
    ensures Values(Pointers(b.metas, b.cuargs), b.cuargs) == AllParamWords(args, |args|)
  {
    AllMetas(b.metas);
    PointersMeanArguments(b, args, |b.metas|);
    PointersExact(b, args, |b.metas|);
  }

  lemma AllMetas(metas: seq<Meta>)
    ensures metas[..|metas|] == metas
  {
  }

  lemma NoError(b: Buffers, args: seq<Arg>, flags: seq<bool>)
    requires forall k :: 0 <= k < |args| ==> WellFormed(args[k]) && Failure(args[k]).None?
    ensures ExtractFrom(b, args, flags, 0).1.None?
  {
    ErrorIsFirstFailure(b, args, flags, 0);
    var k := FirstFailureFacts(Failures(args), 0);
  }
}
