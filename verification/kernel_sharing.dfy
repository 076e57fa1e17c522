/** When launches that look up one kernel ask for one kernel.  A kernel family is found by the
    parameter kinds alone, so every argument profile of those kinds shares its kernel map. */
module KernelSharing {
  import opened Lru
  import opened Strides
  import opened Marshalling
  import opened LaunchPaths
  import opened KernelKeys
  import Types = NumbaTypes

  // ---- families ----

  datatype ParameterKind = ArrayKind | IntegerKind | FloatKind | ComplexKind | RecordKind

  /** classify_arg */
  function KindOfParameter(a: Arg): ParameterKind {
    match a
    case Dlpack(_, _, _, _) => ArrayKind
    case CudaArray(_, _, _, _, _, _, _) => ArrayKind
    case Tma(_, _) => IntegerKind
    case PyLong(_, _) => IntegerKind
    case NpInteger(_, _, _) => IntegerKind
    case NpDatetime(_, _) => IntegerKind
    case PyEnum(_, value) => if value.IntValue? then IntegerKind else FloatKind
    case PyFloat(_) => FloatKind
    case NpFloat16(_) => FloatKind
    case NpFloat32(_) => FloatKind
    case PyComplex(_, _) => ComplexKind
    case NpComplex64(_, _) => ComplexKind
    case NumpyVoid(_, _, _, _, _) => RecordKind
    case DeviceRecord(_, _) => RecordKind
  }

  /** Launches that find one kernel family. */
  predicate SameFamily(args: seq<Arg>, brgs: seq<Arg>) {
    |args| == |brgs| && forall k :: 0 <= k < |args| ==> KindOfParameter(args[k]) == KindOfParameter(brgs[k])
  }

  // ---- what a launch asks for ----

  /** The element type of a packed DLPack dtype: code, bits and lanes.  DLPack counts the bits of a
      whole complex number, the launcher's own parser those of one component. */
  function ElementType(dtype: nat, bitsPerComponent: bool): Types.Ty {
    var code, bits, lanes := dtype % 256, dtype / 256 % 256, dtype / 65536;
    if lanes != 1 || bits == 0 then Types.Opaque(dtype)
    else match code
      case 0 => Types.Integer(bits, true)
      case 1 => Types.Integer(bits, false)
      case 2 => Types.Float(bits)
      case 5 => Types.Complex(if bitsPerComponent then 2 * bits else bits)
      case 6 => Types.Boolean
      case _ => Types.Opaque(dtype)
  }

  /** typeof; an array's layout, which reuse ignores, is left at 'A'. */
  function ArgType(a: Arg): Types.Ty {
    match a
    case Dlpack(_, shape, _, dtype) => Types.Array(ElementType(dtype, false), |shape|, 'A')
    case CudaArray(_, shape, _, _, _, dtype, identity) =>
      Types.Array(if identity == "" then ElementType(dtype, true) else Types.NumpyDtype(identity), |shape|, 'A')
    case Tma(_, typeId) => Types.Opaque(typeId)
    case PyLong(_, Bool) => Types.Boolean
    case PyLong(_, IntEnum(enumType)) => Types.EnumMember(enumType, true)
    case PyLong(v, _) => Types.Integer(64, v <= INT64_MAX)
    case NpInteger(_, bits, signed) => Types.Integer(bits, signed)
    case NpDatetime(_, identity) => Types.NumpyDtype(identity)
    case PyEnum(enumType, _) => Types.EnumMember(enumType, false)
    case PyFloat(_) => Types.Float(64)
    case NpFloat16(_) => Types.Float(16)
    case NpFloat32(_) => Types.Float(32)
    case PyComplex(_, _) => Types.Complex(128)
    case NpComplex64(_, _) => Types.Complex(64)
    case NumpyVoid(_, _, _, _, identity) => Types.NumpyDtype(identity)
    case DeviceRecord(_, identity) => Types.NumpyDtype(identity)
  }

  /** The type an argument is compiled for; at a literal position an int or bool is its own type. */
  function CompiledType(a: Arg, literal: bool): Types.Ty {
    if literal && IsLiteralValue(a) then Types.Literal(ArgType(a), a.v) else ArgType(a)
  }

  function CompiledTypes(args: seq<Arg>, literals: seq<bool>): (ts: Types.Signature)
    ensures |ts| == |args| && forall k :: 0 <= k < |args| ==> ts[k] == CompiledType(args[k], IsConstant(literals, k))
  {
    seq(|args|, k requires 0 <= k < |args| => CompiledType(args[k], IsConstant(literals, k)))
  }

  /** The value of a constant as the kernel sees it; arrays, complex numbers, records and descriptors
      have none. */
  function ConstantWord(a: Arg): Option<Word>
    requires WellFormed(a)
  {
    if !a.Tma? && (KindOfParameter(a).IntegerKind? || KindOfParameter(a).FloatKind?) then Some(Words(a)[0]) else None
  }

  /** The kernel compiled for args serves brgs: the types may be reused, and constants are equal. */
  predicate SameKernel(constants: seq<bool>, literals: seq<bool>, args: seq<Arg>, brgs: seq<Arg>)
    requires |args| == |brgs|
    requires forall k :: 0 <= k < |args| ==> WellFormed(args[k]) && WellFormed(brgs[k])
  {
    && Types.CanReuseAll(CompiledTypes(args, literals), CompiledTypes(brgs, literals))
    && forall k :: 0 <= k < |args| && IsConstant(constants, k) ==> ConstantWord(args[k]) == ConstantWord(brgs[k])
  }

  /** The key a launch looks up, under its own profile's flags. */
  function LaunchKey(constants: seq<bool>, literals: seq<bool>, args: seq<Arg>): seq<Constant>
    requires |constants| == |literals|
  {
    Key(args, EffectiveFlags(constants, literals, args))
  }

  // ---- the condition ----

  predicate IsArray(a: Arg) {
    a.Dlpack? || a.CudaArray?
  }

  /** What the key does not tell apart is told by the argument types: arrays, unless their complex
      elements are described by different interfaces; literals; and other types that may be reused. */
  predicate Interchangeable(a: Arg, b: Arg, literal: bool) {
    if IsArray(a) && IsArray(b) then (a.Dlpack? <==> b.Dlpack?) || !ArgType(a).dtype.Complex?
    else if literal && (IsLiteralValue(a) || IsLiteralValue(b)) then IsLiteralValue(a) && IsLiteralValue(b)
    else Types.CanReuse(ArgType(a), ArgType(b))
  }

  predicate AllInterchangeable(literals: seq<bool>, args: seq<Arg>, brgs: seq<Arg>)
    requires |args| == |brgs|
  {
    forall k :: 0 <= k < |args| ==> Interchangeable(args[k], brgs[k], IsConstant(literals, k))
  }

  predicate AllExtractable(args: seq<Arg>) {
    forall k :: 0 <= k < |args| ==> Extractable(args[k])
  }

  // ---- one argument ----

  /** The flag of one argument. */
  predicate Flag(a: Arg, constant: bool, literal: bool) {
    constant || (literal && IsLiteralValue(a))
  }

  /** Argument types that may be reused are equal, or both integers, or arrays of one element type and rank. */
  lemma ReuseCases(a: Arg, b: Arg)
    ensures Types.CanReuse(ArgType(a), ArgType(b)) <==>
            || ArgType(a) == ArgType(b)
            || (ArgType(a).Integer? && ArgType(b).Integer?)
            || (IsArray(a) && IsArray(b) && ArgType(a).dtype == ArgType(b).dtype && |a.shape| == |b.shape|)
  {
  }

  ghost predicate OneOverloadServes(t: Types.Ty, u: Types.Ty) {
    exists s :: Types.CanReuse(s, t) && Types.CanReuse(s, u)
  }

  /** Whatever overload the first argument's compilation may have found, it serves the second one
      exactly when the second type may reuse the first. */
  lemma OneOverloadServesIff(a: Arg, b: Arg, literal: bool)
    ensures OneOverloadServes(CompiledType(a, literal), CompiledType(b, literal)) <==>
            Types.CanReuse(CompiledType(a, literal), CompiledType(b, literal))
  {
    var t, u := CompiledType(a, literal), CompiledType(b, literal);
    assert Types.CanReuse(t, t);
    if s :| Types.CanReuse(s, t) && Types.CanReuse(s, u) { ServedTypes(s, t, u); }
  }

  /** No argument of a launch is compiled for a C pointer or a tuple. */
  lemma ServedTypes(s: Types.Ty, t: Types.Ty, u: Types.Ty)
    requires Types.CanReuse(s, t) && Types.CanReuse(s, u)
    requires !t.CPointer? && !t.IsTuple() && !u.CPointer? && !u.IsTuple()
    ensures Types.CanReuse(t, u)
  {
  }

  /** Either way the two contributions can be told apart from what follows them. */
  lemma ReusableComparable(a: Arg, b: Arg, constant: bool, literal: bool)
    requires KindOfParameter(a) == KindOfParameter(b)
    requires Types.CanReuse(CompiledType(a, literal), CompiledType(b, literal)) || Interchangeable(a, b, literal)
    ensures Comparable(ConstantsOf(a, Flag(a, constant, literal)), ConstantsOf(b, Flag(b, constant, literal)))
  {
    ReuseCases(a, b);
    NoConstantsStartWithString(a, Flag(a, constant, literal));
    NoConstantsStartWithString(b, Flag(b, constant, literal));
  }

  lemma ArraysDecide(a: Arg, b: Arg)
    requires IsArray(a) && IsArray(b) && Extractable(a) && Extractable(b)
    requires ConstantsOf(a, false) == ConstantsOf(b, false)
    ensures Types.CanReuse(ArgType(a), ArgType(b)) <==> Interchangeable(a, b, false)
  {
    PackedDtypesDistinct(a.dtype, |a.shape|, b.dtype, |b.shape|);
    var c, d := ConstantsOf(a, false), ConstantsOf(b, false);
    assert c[0] == d[0];
    if a.CudaArray? && a.identity != "" { assert c[1] == d[1]; }
    if b.CudaArray? && b.identity != "" { assert c[1] == d[1]; }
  }

  lemma LiteralsDecide(a: Arg, b: Arg)
    requires IsLiteralValue(a) && IsLiteralValue(b) && Extractable(a) && Extractable(b)
    requires ConstantsOf(a, true) == ConstantsOf(b, true)
    ensures CompiledType(a, true) == CompiledType(b, true) && ConstantWord(a) == ConstantWord(b)
  {
    IntConstantsDistinct(a.v, a.cls, b.v, b.cls);
  }

  lemma EqualWords(a: Arg, b: Arg)
    requires KindOfParameter(a) == KindOfParameter(b) && Extractable(a) && Extractable(b)
    requires ConstantsOf(a, true) == ConstantsOf(b, true)
    requires ArgType(a) == ArgType(b) || KindOfParameter(a).IntegerKind?
    ensures ConstantWord(a) == ConstantWord(b)
  {
    if ConstantWord(a).Some? || ConstantWord(b).Some? {
      var c, d := ConstantsOf(a, true), ConstantsOf(b, true);
      if c != [] { assert c[0] == d[0] && c[|c| - 1] == d[|d| - 1]; }
    }
  }

  lemma ReusableKinds(a: Arg, b: Arg)
    requires KindOfParameter(a) == KindOfParameter(b) && !IsArray(a)
    requires Types.CanReuse(ArgType(a), ArgType(b))
    ensures ArgType(a) == ArgType(b) || KindOfParameter(a).IntegerKind?
  {
    ReuseCases(a, b);
  }

  /** Interchangeable arguments that contribute the same are the same constant. */
  lemma ConstantsDecide(a: Arg, b: Arg, literal: bool)
    requires KindOfParameter(a) == KindOfParameter(b) && Extractable(a) && Extractable(b)
    requires ConstantsOf(a, true) == ConstantsOf(b, true) && Interchangeable(a, b, literal)
    ensures ConstantWord(a) == ConstantWord(b)
  {
    if IsArray(a) {
    } else if literal && IsLiteralValue(a) {
      LiteralsDecide(a, b);
    } else {
      ReusableKinds(a, b);
      EqualWords(a, b);
    }
  }

  /** Where the contributions are equal, the types may be reused exactly when they are interchangeable. */
  lemma TypesDecide(a: Arg, b: Arg, constant: bool, literal: bool)
    requires KindOfParameter(a) == KindOfParameter(b) && Extractable(a) && Extractable(b)
    requires ConstantsOf(a, Flag(a, constant, literal)) == ConstantsOf(b, Flag(b, constant, literal))
    ensures Types.CanReuse(CompiledType(a, literal), CompiledType(b, literal)) <==> Interchangeable(a, b, literal)
  {
    if IsArray(a) {
      ArraysDecide(a, b);
    } else if literal && IsLiteralValue(a) && IsLiteralValue(b) {
      LiteralsDecide(a, b);
    }
  }

  // ---- whole launches ----

  lemma FlagAt(constants: seq<bool>, literals: seq<bool>, args: seq<Arg>, k: nat)
    requires |constants| == |literals| && k < |args|
    ensures IsConstant(EffectiveFlags(constants, literals, args), k) <==>
            Flag(args[k], IsConstant(constants, k), IsConstant(literals, k))
  {
  }

  /** The contributions of a launch under its own profile's flags. */
  function LaunchParts(constants: seq<bool>, literals: seq<bool>, args: seq<Arg>): (ps: seq<seq<Constant>>)
    requires |constants| == |literals|
    ensures |ps| == |args| && LaunchKey(constants, literals, args) == Join(ps)
    ensures forall k :: 0 <= k < |args| ==>
              ps[k] == ConstantsOf(args[k], Flag(args[k], IsConstant(constants, k), IsConstant(literals, k)))
  {
    Parts(args, EffectiveFlags(constants, literals, args))
  }

  lemma ReusedAt(constants: seq<bool>, literals: seq<bool>, args: seq<Arg>, brgs: seq<Arg>, k: nat)
    requires |args| == |brgs| && k < |args|
    requires forall j :: 0 <= j < |args| ==> WellFormed(args[j]) && WellFormed(brgs[j])
    requires SameKernel(constants, literals, args, brgs)
    ensures var literal := IsConstant(literals, k);
            Types.CanReuse(CompiledType(args[k], literal), CompiledType(brgs[k], literal))
  {
    assert Types.CanReuse(CompiledTypes(args, literals)[k], CompiledTypes(brgs, literals)[k]);
  }

  lemma EqualParts(constants: seq<bool>, literals: seq<bool>, args: seq<Arg>, brgs: seq<Arg>)
    requires |constants| == |literals| && SameFamily(args, brgs) && AllExtractable(args) && AllExtractable(brgs)
    requires SameKernel(constants, literals, args, brgs) || AllInterchangeable(literals, args, brgs)
    requires LaunchKey(constants, literals, args) == LaunchKey(constants, literals, brgs)
    ensures LaunchParts(constants, literals, args) == LaunchParts(constants, literals, brgs)
  {
    var ps, qs := LaunchParts(constants, literals, args), LaunchParts(constants, literals, brgs);
    forall k | 0 <= k < |args| ensures Comparable(ps[k], qs[k]) {
      if SameKernel(constants, literals, args, brgs) { ReusedAt(constants, literals, args, brgs, k); }
      ReusableComparable(args[k], brgs[k], IsConstant(constants, k), IsConstant(literals, k));
    }
    JoinEqualIff(ps, qs);
  }

  /** Two launches of one family that look up one key, each under its own profile's flags, ask for the
      same kernel exactly when their argument types are interchangeable: between literals, and between
      arrays but for complex ones of two interfaces, the key decides; elsewhere the types alone do. */
  lemma SharedKeyIff(constants: seq<bool>, literals: seq<bool>, args: seq<Arg>, brgs: seq<Arg>)
    requires |constants| == |literals| && SameFamily(args, brgs) && AllExtractable(args) && AllExtractable(brgs)
    requires LaunchKey(constants, literals, args) == LaunchKey(constants, literals, brgs)
    ensures SameKernel(constants, literals, args, brgs) <==> AllInterchangeable(literals, args, brgs)
  {
    if SameKernel(constants, literals, args, brgs) || AllInterchangeable(literals, args, brgs) {
      EqualParts(constants, literals, args, brgs);
      SharedParts(constants, literals, args, brgs);
    }
  }

  lemma SharedParts(constants: seq<bool>, literals: seq<bool>, args: seq<Arg>, brgs: seq<Arg>)
    requires |constants| == |literals| && SameFamily(args, brgs) && AllExtractable(args) && AllExtractable(brgs)
    requires LaunchParts(constants, literals, args) == LaunchParts(constants, literals, brgs)
    ensures SameKernel(constants, literals, args, brgs) <==> AllInterchangeable(literals, args, brgs)
  {
    var ts, us := CompiledTypes(args, literals), CompiledTypes(brgs, literals);
    forall k | 0 <= k < |args|
      ensures Types.CanReuse(ts[k], us[k]) <==> Interchangeable(args[k], brgs[k], IsConstant(literals, k))
      ensures IsConstant(constants, k) && Interchangeable(args[k], brgs[k], IsConstant(literals, k)) ==>
                ConstantWord(args[k]) == ConstantWord(brgs[k])
    {
      SharedPart(constants, literals, args, brgs, k);
    }
  }

  lemma SharedPart(constants: seq<bool>, literals: seq<bool>, args: seq<Arg>, brgs: seq<Arg>, k: nat)
    requires |constants| == |literals| && SameFamily(args, brgs) && AllExtractable(args) && AllExtractable(brgs)
    requires LaunchParts(constants, literals, args) == LaunchParts(constants, literals, brgs) && k < |args|
    ensures var c, l := IsConstant(constants, k), IsConstant(literals, k);
            && (Types.CanReuse(CompiledType(args[k], l), CompiledType(brgs[k], l)) <==>
                Interchangeable(args[k], brgs[k], l))
            && (c && Interchangeable(args[k], brgs[k], l) ==> ConstantWord(args[k]) == ConstantWord(brgs[k]))
  {
    var c, l := IsConstant(constants, k), IsConstant(literals, k);
    assert LaunchParts(constants, literals, args)[k] == LaunchParts(constants, literals, brgs)[k];
    TypesDecide(args[k], brgs[k], c, l);
    if c && Interchangeable(args[k], brgs[k], l) { ConstantsDecide(args[k], brgs[k], l); }
  }
}
