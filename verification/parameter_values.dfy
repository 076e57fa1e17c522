/** What a kernel compiled for an argument's type makes of the words that the argument is passed as. */
module ParameterValues {
  import opened Lru
  import opened Strides
  import opened Marshalling
  import opened KernelKeys
  import opened KernelSharing
  import Types = NumbaTypes

  /** A parameter's value: a whole or real or complex number, or what lies at an address. */
  datatype Reading = Whole(v: int) | Real(x: real) | Cplx(re: real, im: real) | At(address: int)

  /** Two to the bits, for the widths of integer types. */
  function Modulus(bits: nat): int {
    if bits == 8 then 0x100 else if bits == 16 then 0x1_0000 else if bits == 32 then TWO_32 else TWO_64
  }

  /** The low bits of a 64-bit word, as a signed or unsigned number. */
  function Low(word: int, bits: nat, signed: bool): int {
    var m := Modulus(bits);
    var u := word % m;
    if signed && u >= m / 2 then u - m else u
  }

  /** A kernel reads a parameter of type t from its words, low bytes first. */
  function KernelReads(t: Types.Ty, ws: seq<Word>): Option<Reading>
    requires |ws| > 0
  {
    match (t, ws[0])
    case (Integer(bits, signed), I64(v)) => Some(Whole(Low(v, bits, signed)))
    case (Boolean, I64(v)) => Some(Whole(if Low(v, 8, false) == 0 then 0 else 1))
    case (EnumMember(_, _), I64(v)) => Some(Whole(Low(v, 64, true)))
    case (EnumMember(_, _), F64(x)) => Some(Real(x))
    case (NumpyDtype(_), I64(v)) => Some(Whole(Low(v, 64, true)))
    case (NumpyDtype(_), Pointer(address)) => Some(At(address))
    case (Opaque(_), Pointer(address)) => Some(At(address))
    case (Float(64), F64(x)) => Some(Real(x))
    case (Float(32), F32(x)) => Some(Real(x))
    case (Float(16), Half(x)) => Some(Real(x))
    case (Complex(64), PackedComplex(re, im)) => Some(Cplx(re, im))
    case (Complex(128), F64(re)) => if |ws| == 2 && ws[1].F64? then Some(Cplx(re, ws[1].x)) else None
    case _ => None
  }

  /** What the caller passed. */
  function Passed(a: Arg): Reading
    requires !a.Dlpack? && !a.CudaArray?
  {
    match a
    case PyLong(v, _) => Whole(v)
    case NpInteger(v, _, _) => Whole(v)
    case NpDatetime(v, _) => Whole(v)
    case PyEnum(_, IntValue(v)) => Whole(v)
    case PyEnum(_, FloatValue(x)) => Real(x)
    case PyFloat(x) => Real(x)
    case NpFloat16(x) => Real(x)
    case NpFloat32(x) => Real(x)
    case PyComplex(re, im) => Cplx(re, im)
    case NpComplex64(re, im) => Cplx(re, im)
    case NumpyVoid(_, _, device, _, _) => At(device)
    case DeviceRecord(address, _) => At(address)
    case Tma(storage, _) => At(storage)
  }

  /** A value of the argument's own type: NumPy integers have their width's range; datetimes and the
      members of enumerations of signed integers are signed 64-bit numbers. */
  predicate InType(a: Arg) {
    match a
    case NpInteger(v, bits, signed) =>
      && (bits == 8 || bits == 16 || bits == 32 || bits == 64)
      && if signed then -Modulus(bits) / 2 <= v < Modulus(bits) / 2 else 0 <= v < Modulus(bits)
    case NpDatetime(v, _) => FitsInt64(v)
    case PyEnum(_, IntValue(v)) => FitsInt64(v)
    case PyLong(v, IntEnum(_)) => FitsInt64(v)
    case _ => true
  }

  /** The parameter kind, by which kernel families are found, tells only what is passed: a descriptor
      counts as an integer. */
  lemma KindIsPassed(a: Arg)
    ensures KindOfParameter(a).ArrayKind? <==> a.Dlpack? || a.CudaArray?
    ensures !a.Dlpack? && !a.CudaArray? ==>
              && (KindOfParameter(a).IntegerKind? <==> Passed(a).Whole? || a.Tma?)
              && (KindOfParameter(a).FloatKind? <==> Passed(a).Real?)
              && (KindOfParameter(a).ComplexKind? <==> Passed(a).Cplx?)
              && (KindOfParameter(a).RecordKind? <==> a.NumpyVoid? || a.DeviceRecord?)
  {
  }

  /** The packed dtype of a number type: DLPack's code, the bits of an element or of one component of a
      complex one, and one lane. */
  function DtypeOf(t: Types.Ty, bitsPerComponent: bool): nat
    requires t.Integer? || t.Float? || t.Complex? || t.Boolean?
  {
    match t
    case Integer(bits, signed) => 0x1_0000 + 256 * bits + if signed then 0 else 1
    case Float(bits) => 0x1_0000 + 256 * bits + 2
    case Complex(bits) => 0x1_0000 + 256 * (if bitsPerComponent then bits / 2 else bits) + 5
    case Boolean => 0x1_0000 + 256 * 8 + 6
  }

  /** An array is compiled for the element type that its dtype was made of. */
  lemma ElementRoundTrip(t: Types.Ty, bitsPerComponent: bool)
    requires t.Boolean? || (t.Integer? && 0 < t.bits < 256) || (t.Float? && 0 < t.bits < 256)
             || (t.Complex? && 0 < t.bits < 256 && t.bits % 2 == 0)
    ensures ElementType(DtypeOf(t, bitsPerComponent), bitsPerComponent) == t
  {
  }

  lemma LowOf(v: int, word: int, bits: nat, signed: bool)
    requires bits == 8 || bits == 16 || bits == 32 || bits == 64
    requires word == v || word == v - TWO_64
    requires if signed then -Modulus(bits) / 2 <= v < Modulus(bits) / 2 else 0 <= v < Modulus(bits)
    ensures Low(word, bits, signed) == v
  {
  }

  lemma IntegerRead(a: Arg)
    requires (a.PyLong? || a.NpInteger? || a.NpDatetime?) && Extractable(a) && InType(a)
    ensures KernelReads(ArgType(a), Words(a)) == Some(Passed(a))
  {
    match a
    case PyLong(v, cls) =>
      if !cls.Bool? { LowOf(v, Signed(v), 64, cls.IntEnum? || v <= INT64_MAX); }
    case NpInteger(v, bits, signed) => LowOf(v, Signed(v), bits, signed);
    case NpDatetime(v, _) => LowOf(v, Signed(v), 64, true);
  }

  /** A kernel compiled for a scalar's type reads what the caller passed. */
  lemma ScalarRead(a: Arg)
    requires !a.Dlpack? && !a.CudaArray? && Extractable(a) && InType(a)
    ensures KernelReads(ArgType(a), Words(a)) == Some(Passed(a))
  {
    if a.PyLong? || a.NpInteger? || a.NpDatetime? {
      IntegerRead(a);
    } else if a.PyEnum? && a.value.IntValue? {
      LowOf(a.value.v, Signed(a.value.v), 64, true);
    }
  }

  /** What is refused: exactly integers beyond 64 bits, host records without bytes or without a copy on
      the device, and descriptors without storage. */
  lemma ScalarRefused(a: Arg)
    requires !a.Dlpack? && !a.CudaArray?
    ensures Failure(a) ==
            if Passed(a).Whole? && !(-0x8000_0000_0000_0000 <= Passed(a).v < 0x1_0000_0000_0000_0000) then
              Some(OverflowError)
            else if a.NumpyVoid? && a.size <= 0 then Some(ValueError)
            else if a.NumpyVoid? && !(a.device != 0 && a.copied) then Some(RuntimeError)
            else if a.Tma? && a.storage == 0 then Some(MemoryError)
            else None
  {
  }

  /** Constant c stands for the word w that a kernel is launched with. */
  predicate StandsFor(c: Constant, w: Word) {
    match c
    case IntConst(v) => w == I64(v)
    case UnsignedConst(v) => v > INT64_MAX && w == I64(v - TWO_64)
    case BoolConst(b) => w == I64(if b then 1 else 0)
    case FloatConst(x) => w == F64(x) || w == F32(x) || w == Half(x)
    case StringConst(_) => false
  }

  /** A constant argument puts the value it is passed as into the key, an enumeration member after its
      type, which is there even if the value is then refused. */
  lemma ConstantIsPassed(b: Buffers, a: Arg)
    requires !a.Dlpack? && !a.CudaArray? && (a.PyLong? && a.cls.Bool? ==> a.v == 0 || a.v == 1)
    ensures var cs := ConstantsOf(a, true);
            && |cs| == (if a.PyEnum? then 2 else if Passed(a).Whole? || Passed(a).Real? then 1 else 0)
            && (Failure(a).None? && cs != [] ==> StandsFor(cs[|cs| - 1], Words(a)[0]))
            && (a.PyEnum? ==> cs[0] == IntConst(a.enumType))
    ensures AfterFailure(b, a, true).constants == b.constants + if a.PyEnum? then [IntConst(a.enumType)] else []
  {
  }

  /** A kernel reads a host record where the launch has copied it: the word is the address of the copy. */
  lemma RecordRead(b: Buffers, a: Arg, isConstant: bool)
    requires a.NumpyVoid? && Extractable(a)
    ensures var r := Append(b, a, isConstant);
            && r.records == b.records + [RecordCopy(a.host, a.device, a.size)]
            && KernelReads(ArgType(a), Words(a)) == Some(At(r.records[|r.records| - 1].device))
  {
    ScalarRead(a);
  }

  /** Reuse among integer types keeps the value exactly if the compiled type has it: the kernel reads the
      passed number modulo its own width. */
  lemma ReusedInteger(v: int, bits: nat, signed: bool, w: nat, s: bool)
    requires InType(NpInteger(v, bits, signed)) && (w == 8 || w == 16 || w == 32 || w == 64)
    ensures Types.CanReuse(Types.Integer(w, s), ArgType(NpInteger(v, bits, signed)))
    ensures KernelReads(Types.Integer(w, s), Words(NpInteger(v, bits, signed))) == Some(Whole(v)) <==>
            if s then -Modulus(w) / 2 <= v < Modulus(w) / 2 else 0 <= v < Modulus(w)
  {
    if if s then -Modulus(w) / 2 <= v < Modulus(w) / 2 else 0 <= v < Modulus(w) {
      LowOf(v, Signed(v), w, s);
    }
  }
}
