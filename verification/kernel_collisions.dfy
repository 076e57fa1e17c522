/** Which argument types share a kernel map safely: their keys cannot collide, or it does not matter. */
module KernelCollisions {
  import opened Lru
  import opened Strides
  import opened Marshalling
  import opened LaunchPaths
  import opened KernelKeys
  import opened KernelSharing
  import Types = NumbaTypes

  // ---- which argument types may look up one key ----

  /** What one place of a key can hold, given the argument types. */
  datatype Slot = Fixed(c: Constant) | AnySigned | AnyUnsigned | AnyBool

  predicate Fits(s: Slot, c: Constant) {
    match s
    case Fixed(d) => c == d
    case AnySigned => c.IntConst? && FitsInt64(c.v)
    case AnyUnsigned => c.UnsignedConst? && INT64_MAX < c.v <= UINT64_MAX
    case AnyBool => c.BoolConst?
  }

  predicate AllFits(ss: seq<Slot>, cs: seq<Constant>) {
    |ss| == |cs| && forall i :: 0 <= i < |ss| ==> Fits(ss[i], cs[i])
  }

  /** What an argument contributes, whatever the value of a literal; kernels have no other constants. */
  function SlotsOf(a: Arg, literal: bool): seq<Slot> {
    match a
    case Dlpack(_, shape, _, dtype) => [Fixed(IntConst(PackDtype(dtype, |shape|)))]
    case CudaArray(_, shape, _, _, _, dtype, identity) =>
      [Fixed(IntConst(PackDtype(dtype, |shape|)))] + if identity == "" then [] else [Fixed(StringConst(identity))]
    case _ =>
      if !literal || !IsLiteralValue(a) then []
      else if a.cls.Bool? then [AnyBool]
      else if a.v <= INT64_MAX then [AnySigned]
      else [AnyUnsigned]
  }

  function SlotLists(literals: seq<bool>, args: seq<Arg>): (ss: seq<seq<Slot>>)
    ensures |ss| == |args| && forall k :: 0 <= k < |args| ==> ss[k] == SlotsOf(args[k], IsConstant(literals, k))
  {
    seq(|args|, k requires 0 <= k < |args| => SlotsOf(args[k], IsConstant(literals, k)))
  }

  /** Some constant fits both. */
  predicate Meet(s: Slot, t: Slot) {
    if s.Fixed? then Fits(t, s.c) else if t.Fixed? then Fits(s, t.c) else s == t
  }

  function Common(s: Slot, t: Slot): (c: Constant)
    requires Meet(s, t)
    ensures Fits(s, c) && Fits(t, c)
  {
    if s.Fixed? then s.c
    else if t.Fixed? then t.c
    else if s.AnySigned? then IntConst(0)
    else if s.AnyUnsigned? then UnsignedConst(UINT64_MAX)
    else BoolConst(false)
  }

  /** The keys of these argument types can be equal: they are equally long and meet at every place. */
  predicate MayCollide(literals: seq<bool>, args: seq<Arg>, brgs: seq<Arg>) {
    var ss, ts := Join(SlotLists(literals, args)), Join(SlotLists(literals, brgs));
    |ss| == |ts| && forall i :: 0 <= i < |ss| ==> Meet(ss[i], ts[i])
  }

  /** Python passes no constant flags: get_constant_args answers false for every parameter. */
  function NoConstants(literals: seq<bool>): (flags: seq<bool>)
    ensures |flags| == |literals| && forall k :: !IsConstant(flags, k)
  {
    seq(|literals|, k => false)
  }

  function TypedKey(literals: seq<bool>, args: seq<Arg>): seq<Constant> {
    LaunchKey(NoConstants(literals), literals, args)
  }

  lemma PartFits(a: Arg, literal: bool)
    requires Extractable(a)
    ensures AllFits(SlotsOf(a, literal), ConstantsOf(a, Flag(a, false, literal)))
  {
  }

  lemma {:induction false} JoinFits(ss: seq<seq<Slot>>, ps: seq<seq<Constant>>)
    requires |ss| == |ps| && forall k :: 0 <= k < |ss| ==> AllFits(ss[k], ps[k])
    ensures AllFits(Join(ss), Join(ps))
    decreases |ss|
  {
    if ss != [] { JoinFits(ss[1..], ps[1..]); }
  }

  lemma SplitStep(ss: seq<seq<Slot>>, cs: seq<Constant>)
    requires ss != [] && AllFits(Join(ss), cs)
    ensures |ss[0]| <= |cs| && AllFits(ss[0], cs[..|ss[0]|]) && AllFits(Join(ss[1..]), cs[|ss[0]|..])
  {
    var n, rest := |ss[0]|, Join(ss[1..]);
    assert forall i :: 0 <= i < n ==> Join(ss)[i] == ss[0][i];
    assert forall i :: 0 <= i < |rest| ==> Join(ss)[n + i] == rest[i];
  }

  /** A key that fits the joined slots, cut where they are joined. */
  function Split(ss: seq<seq<Slot>>, cs: seq<Constant>): (ps: seq<seq<Constant>>)
    requires AllFits(Join(ss), cs)
    ensures |ps| == |ss| && Join(ps) == cs && forall k :: 0 <= k < |ss| ==> AllFits(ss[k], ps[k])
    decreases |ss|
  {
    if ss == [] then []
    else
      SplitStep(ss, cs);
      var n := |ss[0]|;
      var rest := Split(ss[1..], cs[n..]);
      assert ([cs[..n]] + rest)[1..] == rest;
      [cs[..n]] + rest
  }

  /** The same Numba type, through the same interface, with whatever value. */
  predicate SameArgType(a: Arg, x: Arg) {
    && KindOfParameter(a) == KindOfParameter(x) && ArgType(a) == ArgType(x)
    && (IsLiteralValue(a) <==> IsLiteralValue(x))
    && (a.Dlpack? <==> x.Dlpack?) && (a.CudaArray? <==> x.CudaArray?)
    && (IsArray(a) ==> a.dtype == x.dtype && |a.shape| == |x.shape|)
    && (a.CudaArray? ==> a.identity == x.identity)
  }

  /** Arguments of the same types, with other values. */
  predicate Retyped(args: seq<Arg>, xs: seq<Arg>) {
    |args| == |xs| && AllExtractable(xs) && forall k :: 0 <= k < |args| ==> SameArgType(args[k], xs[k])
  }

  /** The argument with the value that contributes the given part. */
  function Filled(a: Arg, part: seq<Constant>): Arg {
    if a.PyLong? && |part| == 1 then
      match part[0]
      case IntConst(v) => PyLong(v, a.cls)
      case UnsignedConst(v) => PyLong(v, a.cls)
      case BoolConst(b) => PyLong(if b then 1 else 0, a.cls)
      case _ => a
    else a
  }

  lemma FilledFits(a: Arg, literal: bool, part: seq<Constant>)
    requires Extractable(a) && AllFits(SlotsOf(a, literal), part)
    ensures var x := Filled(a, part);
            Extractable(x) && SameArgType(a, x) && ConstantsOf(x, Flag(x, false, literal)) == part
  {
    var ss := SlotsOf(a, literal);
    if ss != [] { assert Fits(ss[0], part[0]); }
    if |ss| == 2 { assert Fits(ss[1], part[1]); }
  }

  function Fill(literals: seq<bool>, args: seq<Arg>, cs: seq<Constant>): (xs: seq<Arg>)
    requires AllFits(Join(SlotLists(literals, args)), cs)
    ensures |xs| == |args|
  {
    var ps := Split(SlotLists(literals, args), cs);
    seq(|args|, k requires 0 <= k < |args| => Filled(args[k], ps[k]))
  }

  /** Every key that fits the argument types is the key of some arguments of these types. */
  lemma FillFits(literals: seq<bool>, args: seq<Arg>, cs: seq<Constant>)
    requires AllExtractable(args) && AllFits(Join(SlotLists(literals, args)), cs)
    ensures Retyped(args, Fill(literals, args, cs)) && TypedKey(literals, Fill(literals, args, cs)) == cs
  {
    var xs, ps := Fill(literals, args, cs), Split(SlotLists(literals, args), cs);
    var qs := LaunchParts(NoConstants(literals), literals, xs);
    forall k | 0 <= k < |args| ensures Extractable(xs[k]) && SameArgType(args[k], xs[k]) && qs[k] == ps[k] {
      FilledFits(args[k], IsConstant(literals, k), ps[k]);
    }
    assert qs == ps;
  }

  lemma KeyFits(literals: seq<bool>, args: seq<Arg>)
    requires AllExtractable(args)
    ensures AllFits(Join(SlotLists(literals, args)), TypedKey(literals, args))
  {
    var ss, ps := SlotLists(literals, args), LaunchParts(NoConstants(literals), literals, args);
    forall k | 0 <= k < |args| ensures AllFits(ss[k], ps[k]) {
      PartFits(args[k], IsConstant(literals, k));
    }
    JoinFits(ss, ps);
  }

  lemma RetypedSlots(literals: seq<bool>, args: seq<Arg>, xs: seq<Arg>)
    requires Retyped(args, xs)
    ensures SlotLists(literals, args) == SlotLists(literals, xs)
  {
    var ss, ts := SlotLists(literals, args), SlotLists(literals, xs);
    forall k | 0 <= k < |args| ensures ss[k] == ts[k] {
      assert SameArgType(args[k], xs[k]);
      SameSlots(args[k], xs[k], IsConstant(literals, k));
    }
  }

  lemma SameSlots(a: Arg, x: Arg, literal: bool)
    requires SameArgType(a, x)
    ensures SlotsOf(a, literal) == SlotsOf(x, literal)
  {
  }

  lemma RetypedInterchangeable(literals: seq<bool>, args: seq<Arg>, brgs: seq<Arg>, xs: seq<Arg>, ys: seq<Arg>)
    requires |args| == |brgs| && Retyped(args, xs) && Retyped(brgs, ys)
    ensures AllInterchangeable(literals, args, brgs) <==> AllInterchangeable(literals, xs, ys)
  {
    forall k | 0 <= k < |args|
      ensures Interchangeable(args[k], brgs[k], IsConstant(literals, k)) <==>
              Interchangeable(xs[k], ys[k], IsConstant(literals, k))
    {
      assert SameArgType(args[k], xs[k]) && SameArgType(brgs[k], ys[k]);
    }
  }

  lemma RetypedFamily(args: seq<Arg>, brgs: seq<Arg>, xs: seq<Arg>, ys: seq<Arg>)
    requires SameFamily(args, brgs) && Retyped(args, xs) && Retyped(brgs, ys)
    ensures SameFamily(xs, ys)
  {
    forall k | 0 <= k < |args| ensures KindOfParameter(xs[k]) == KindOfParameter(ys[k]) {
      assert SameArgType(args[k], xs[k]) && SameArgType(brgs[k], ys[k]);
    }
  }

  /** Arguments of these types that look up one key exist exactly when the keys may collide. */
  lemma CollidingArguments(literals: seq<bool>, args: seq<Arg>, brgs: seq<Arg>) returns (xs: seq<Arg>, ys: seq<Arg>)
    requires AllExtractable(args) && AllExtractable(brgs) && MayCollide(literals, args, brgs)
    ensures Retyped(args, xs) && Retyped(brgs, ys) && TypedKey(literals, xs) == TypedKey(literals, ys)
  {
    var ss, ts := Join(SlotLists(literals, args)), Join(SlotLists(literals, brgs));
    var cs := seq(|ss|, i requires 0 <= i < |ss| => Common(ss[i], ts[i]));
    xs, ys := Fill(literals, args, cs), Fill(literals, brgs, cs);
    FillFits(literals, args, cs);
    FillFits(literals, brgs, cs);
  }

  lemma EqualKeysCollide(literals: seq<bool>, args: seq<Arg>, brgs: seq<Arg>)
    requires AllExtractable(args) && AllExtractable(brgs)
    requires TypedKey(literals, args) == TypedKey(literals, brgs)
    ensures MayCollide(literals, args, brgs)
  {
    KeyFits(literals, args);
    KeyFits(literals, brgs);
    var ss, ts, cs := Join(SlotLists(literals, args)), Join(SlotLists(literals, brgs)), TypedKey(literals, args);
    forall i | 0 <= i < |ss| ensures Meet(ss[i], ts[i]) {
      assert Fits(ss[i], cs[i]) && Fits(ts[i], cs[i]);
    }
  }

  /** Every two launches of these argument types that look up one key ask for the same kernel. */
  ghost predicate SharedSafely(literals: seq<bool>, args: seq<Arg>, brgs: seq<Arg>)
    requires |args| == |brgs|
  {
    forall xs, ys :: Retyped(args, xs) && Retyped(brgs, ys) && TypedKey(literals, xs) == TypedKey(literals, ys) ==>
      SameKernel(NoConstants(literals), literals, xs, ys)
  }

  lemma RetypedShare(literals: seq<bool>, args: seq<Arg>, brgs: seq<Arg>, xs: seq<Arg>, ys: seq<Arg>)
    requires SameFamily(args, brgs) && Retyped(args, xs) && Retyped(brgs, ys)
    requires TypedKey(literals, xs) == TypedKey(literals, ys)
    ensures MayCollide(literals, args, brgs)
    ensures SameKernel(NoConstants(literals), literals, xs, ys) <==> AllInterchangeable(literals, args, brgs)
  {
    RetypedSlots(literals, args, xs);
    RetypedSlots(literals, brgs, ys);
    EqualKeysCollide(literals, xs, ys);
    RetypedFamily(args, brgs, xs, ys);
    RetypedInterchangeable(literals, args, brgs, xs, ys);
    SharedKeyIff(NoConstants(literals), literals, xs, ys);
  }

  /** No launch of one list of argument types runs a kernel compiled for another exactly when their
      keys cannot collide or the types are interchangeable. */
  lemma SharedSafelyIff(literals: seq<bool>, args: seq<Arg>, brgs: seq<Arg>)
    requires SameFamily(args, brgs) && AllExtractable(args) && AllExtractable(brgs)
    ensures SharedSafely(literals, args, brgs) <==>
            !MayCollide(literals, args, brgs) || AllInterchangeable(literals, args, brgs)
  {
    if !MayCollide(literals, args, brgs) || AllInterchangeable(literals, args, brgs) {
      forall xs, ys | Retyped(args, xs) && Retyped(brgs, ys) && TypedKey(literals, xs) == TypedKey(literals, ys)
        ensures SameKernel(NoConstants(literals), literals, xs, ys)
      {
        RetypedShare(literals, args, brgs, xs, ys);
      }
    } else {
      var xs, ys := CollidingArguments(literals, args, brgs);
      RetypedShare(literals, args, brgs, xs, ys);
    }
  }

  // ---- launches that run a kernel compiled for another ----

  /** The keys are equal and the kernels are not: the second launch runs what was compiled for the first. */
  predicate WronglyShared(literals: seq<bool>, args: seq<Arg>, brgs: seq<Arg>)
    requires SameFamily(args, brgs) && AllExtractable(args) && AllExtractable(brgs)
  {
    && TypedKey(literals, args) == TypedKey(literals, brgs)
    && !SameKernel(NoConstants(literals), literals, args, brgs)
  }

  /** Launches of scalars with no literal requests all look up the empty key, and one runs another's
      kernel exactly when some type may not be reused. */
  lemma ScalarLaunchesIff(literals: seq<bool>, args: seq<Arg>, brgs: seq<Arg>)
    requires SameFamily(args, brgs) && AllExtractable(args) && AllExtractable(brgs)
    requires forall k :: 0 <= k < |args| ==> !IsArray(args[k]) && !IsArray(brgs[k]) && !IsConstant(literals, k)
    ensures TypedKey(literals, args) == [] && TypedKey(literals, brgs) == []
    ensures WronglyShared(literals, args, brgs) <==>
            exists k :: 0 <= k < |args| && !Types.CanReuse(ArgType(args[k]), ArgType(brgs[k]))
  {
    EmptyParts(LaunchParts(NoConstants(literals), literals, args));
    EmptyParts(LaunchParts(NoConstants(literals), literals, brgs));
    SharedKeyIff(NoConstants(literals), literals, args, brgs);
    forall k | 0 <= k < |args|
      ensures Interchangeable(args[k], brgs[k], IsConstant(literals, k)) <==>
              Types.CanReuse(ArgType(args[k]), ArgType(brgs[k]))
    {
    }
  }

  lemma OneScalarShares(a: Arg, b: Arg)
    requires KindOfParameter(a) == KindOfParameter(b) && !IsArray(a) && Extractable(a) && Extractable(b)
    requires !Types.CanReuse(ArgType(a), ArgType(b))
    ensures SameFamily([a], [b]) && AllExtractable([a]) && AllExtractable([b])
    ensures WronglyShared([false], [a], [b])
  {
    ScalarLaunchesIff([false], [a], [b]);
    assert !Types.CanReuse(ArgType([a][0]), ArgType([b][0]));
  }

  /** After f(1.0), f(numpy.float32(1)) runs the kernel for float64 on a 32-bit word; float16 likewise. */
  lemma FloatWidthsShare(x: real, y: real)
    ensures WronglyShared([false], [PyFloat(x)], [NpFloat32(y)]) && Words(PyFloat(x)) != Words(NpFloat32(y))
    ensures WronglyShared([false], [PyFloat(x)], [NpFloat16(y)]) && Words(PyFloat(x)) != Words(NpFloat16(y))
  {
    OneScalarShares(PyFloat(x), NpFloat32(y));
    OneScalarShares(PyFloat(x), NpFloat16(y));
    assert Words(PyFloat(x))[0].F64? && Words(NpFloat32(y))[0].F32? && Words(NpFloat16(y))[0].Half?;
  }

  /** After complex128, complex64 runs a kernel that takes two words on its one. */
  lemma ComplexWidthsShare(re: real, im: real)
    ensures WronglyShared([false], [PyComplex(re, im)], [NpComplex64(re, im)])
    ensures |Words(PyComplex(re, im))| != |Words(NpComplex64(re, im))|
  {
    OneScalarShares(PyComplex(re, im), NpComplex64(re, im));
  }

  /** Two records of different dtypes run one kernel, within one argument profile. */
  lemma RecordsShare(a: Arg, b: Arg)
    requires a.NumpyVoid? && b.NumpyVoid? && Extractable(a) && Extractable(b) && a.identity != b.identity
    ensures WronglyShared([false], [a], [b])
  {
    OneScalarShares(a, b);
  }

  /** Two datetimes of different units likewise. */
  lemma DatetimesShare(v: int, unit: string, w: int, other: string)
    requires AsInt64(v).Some? && AsInt64(w).Some? && unit != other
    ensures WronglyShared([false], [NpDatetime(v, unit)], [NpDatetime(w, other)])
  {
    OneScalarShares(NpDatetime(v, unit), NpDatetime(w, other));
  }

  /** An int runs the kernel compiled for a bool. */
  lemma BoolSharesWithInt(v: int)
    requires AsInt64(v).Some?
    ensures WronglyShared([false], [PyLong(1, Bool)], [PyLong(v, Int)])
  {
    OneScalarShares(PyLong(1, Bool), PyLong(v, Int));
  }

  lemma JoinTwo<T>(ps: seq<seq<T>>)
    requires |ps| == 2
    ensures Join(ps) == ps[0] + ps[1]
  {
    assert Join(ps[1..][1..]) == [];
    assert ps[1] + [] == ps[1];
  }

  lemma JoinThree<T>(ps: seq<seq<T>>)
    requires |ps| == 3
    ensures Join(ps) == ps[0] + ps[1] + ps[2]
  {
    JoinTwo(ps[1..]);
    assert ps[0] + (ps[1] + ps[2]) == ps[0] + ps[1] + ps[2];
  }

  /** Only one launch has a literal at position k. */
  lemma LiteralTellsApart(literals: seq<bool>, args: seq<Arg>, brgs: seq<Arg>, k: nat)
    requires SameFamily(args, brgs) && AllExtractable(args) && AllExtractable(brgs)
    requires k < |args| && IsConstant(literals, k) && IsLiteralValue(args[k]) != IsLiteralValue(brgs[k])
    requires TypedKey(literals, args) == TypedKey(literals, brgs)
    ensures WronglyShared(literals, args, brgs)
  {
    SharedKeyIff(NoConstants(literals), literals, args, brgs);
    assert !Interchangeable(args[k], brgs[k], IsConstant(literals, k));
  }

  /** With both positions literal, (5, numpy.int64(7)) and (numpy.int64(7), 5) look up [5]: the second
      launch runs the kernel that has 5 for its first parameter. */
  lemma LiteralsExchanged(n: int, m: int)
    requires FitsInt64(n) && FitsInt64(m)
    ensures var args, brgs := [PyLong(n, Int), NpInteger(m, 64, true)], [NpInteger(m, 64, true), PyLong(n, Int)];
            && SameFamily(args, brgs) && AllExtractable(args) && AllExtractable(brgs)
            && TypedKey([true, true], args) == [IntConst(n)] && WronglyShared([true, true], args, brgs)
  {
    var a, b, literals := PyLong(n, Int), NpInteger(m, 64, true), [true, true];
    var args, brgs := [a, b], [b, a];
    JoinTwo(LaunchParts(NoConstants(literals), literals, args));
    JoinTwo(LaunchParts(NoConstants(literals), literals, brgs));
    LiteralTellsApart(literals, args, brgs, 0);
  }

  lemma LiteralArrayKeys(v: int, a: Arg, n: int)
    requires a.Dlpack? && FitsInt64(v)
    ensures var p, literals := PackDtype(a.dtype, |a.shape|), [true, false, true];
            && TypedKey(literals, [PyLong(v, Int), a, NpInteger(n, 64, true)]) == [IntConst(v), IntConst(p)]
            && TypedKey(literals, [NpInteger(n, 64, true), a, PyLong(v, Int)]) == [IntConst(p), IntConst(v)]
  {
    var literals := [true, false, true];
    JoinThree(LaunchParts(NoConstants(literals), literals, [PyLong(v, Int), a, NpInteger(n, 64, true)]));
    JoinThree(LaunchParts(NoConstants(literals), literals, [NpInteger(n, 64, true), a, PyLong(v, Int)]));
  }

  /** A literal int can stand for an array's dtype and rank: any two arrays run one kernel. */
  lemma ArraysExchanged(a: Arg, b: Arg, n: int)
    requires a.Dlpack? && b.Dlpack? && Extractable(a) && Extractable(b) && FitsInt64(n)
    ensures var p, q := PackDtype(a.dtype, |a.shape|), PackDtype(b.dtype, |b.shape|);
            var args := [PyLong(q, Int), a, NpInteger(n, 64, true)];
            var brgs := [NpInteger(n, 64, true), b, PyLong(p, Int)];
            && SameFamily(args, brgs) && AllExtractable(args) && AllExtractable(brgs)
            && WronglyShared([true, false, true], args, brgs)
  {
    PackedDtypesDistinct(a.dtype, |a.shape|, b.dtype, |b.shape|);
    PackedDtypesDistinct(b.dtype, |b.shape|, a.dtype, |a.shape|);
    var p, q := PackDtype(a.dtype, |a.shape|), PackDtype(b.dtype, |b.shape|);
    var args, brgs := [PyLong(q, Int), a, NpInteger(n, 64, true)], [NpInteger(n, 64, true), b, PyLong(p, Int)];
    var literals := [true, false, true];
    LiteralArrayKeys(q, a, n);
    LiteralArrayKeys(p, b, n);
    LiteralTellsApart(literals, args, brgs, 0);
  }

  /** kDLComplex with 64 bits and one lane. */
  const COMPLEX_64_BITS := 0x1_4005

  lemma SamePacked(a: Arg, b: Arg)
    requires a.Dlpack? && b.CudaArray? && a.dtype == b.dtype && |a.shape| == |b.shape| && b.identity == ""
    ensures ConstantsOf(a, false) == ConstantsOf(b, false)
  {
    var c := [IntConst(PackDtype(b.dtype, |b.shape|))];
    assert c + [] == c;
  }

  /** A DLPack array of complex64 and a __cuda_array_interface__ array of complex128 have one packed
      dtype: the launcher halves only the width it parses itself. */
  lemma ComplexArraysShare(a: Arg, b: Arg)
    requires a.Dlpack? && b.CudaArray? && Extractable(a) && Extractable(b) && |a.shape| == |b.shape|
    requires a.dtype == COMPLEX_64_BITS && b.dtype == COMPLEX_64_BITS && b.identity == ""
    ensures ArgType(a).dtype == Types.Complex(64) && ArgType(b).dtype == Types.Complex(128)
    ensures SameFamily([a], [b]) && AllExtractable([a]) && AllExtractable([b]) && WronglyShared([false], [a], [b])
  {
    SamePacked(a, b);
    var ps, qs := LaunchParts(NoConstants([false]), [false], [a]), LaunchParts(NoConstants([false]), [false], [b]);
    assert ps == [ConstantsOf(a, false)] && qs == [ConstantsOf(b, false)];
    SharedKeyIff(NoConstants([false]), [false], [a], [b]);
    assert !Interchangeable([a][0], [b][0], IsConstant([false], 0));
  }
}
