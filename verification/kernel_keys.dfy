/** What the kernel-map key of a whole launch distinguishes. */
module KernelKeys {
  import opened Lru
  import opened Strides
  import opened Marshalling
  import opened LaunchPaths

  /** What each argument contributes. */
  function Parts(args: seq<Arg>, flags: seq<bool>): (ps: seq<seq<Constant>>)
    ensures |ps| == |args| && forall k :: 0 <= k < |args| ==> ps[k] == ConstantsOf(args[k], IsConstant(flags, k))
  {
    seq(|args|, k requires 0 <= k < |args| => ConstantsOf(args[k], IsConstant(flags, k)))
  }

  function Join<T>(ps: seq<seq<T>>): seq<T> {
    if ps == [] then [] else ps[0] + Join(ps[1..])
  }

  /** The key: every argument's constants, one after another. */
  function Key(args: seq<Arg>, flags: seq<bool>): seq<Constant> {
    Join(Parts(args, flags))
  }

  // ---- the key is what a launch looks up ----

  lemma JoinStep(ps: seq<seq<Constant>>, i: nat)
    requires i < |ps|
    ensures Join(ps[i..]) == ps[i] + Join(ps[i + 1..])
  {
    assert ps[i..][1..] == ps[i + 1..];
  }

  lemma {:induction false} ExtractedKey(b: Buffers, args: seq<Arg>, flags: seq<bool>, i: nat)
    requires i <= |args| && forall k :: 0 <= k < |args| ==> WellFormed(args[k])
    ensures var (r, e) := ExtractFrom(b, args, flags, i);
            e.None? ==> r.constants == b.constants + Join(Parts(args, flags)[i..])
    decreases |args| - i
  {
    var ps := Parts(args, flags);
    if i == |args| {
      assert b.constants + [] == b.constants;
    } else if Failure(args[i]).None? {
      ExtractedKey(Append(b, args[i], IsConstant(flags, i)), args, flags, i + 1);
      JoinStep(ps, i);
      Regroup(b.constants, ps[i], Join(ps[i + 1..]));
    }
  }

  lemma Regroup<T>(a: seq<T>, b: seq<T>, c: seq<T>)
    ensures a + (b + c) == (a + b) + c
  {
  }

  lemma {:induction false} EmptyParts(ps: seq<seq<Constant>>)
    requires forall k :: 0 <= k < |ps| ==> ps[k] == []
    ensures Join(ps) == []
    decreases |ps|
  {
    if ps != [] { EmptyParts(ps[1..]); }
  }

  lemma {:induction false} FastKeyEmpty(words: seq<Word>, args: seq<Arg>, i: nat)
    requires i <= |args|
    ensures FastFrom(words, args, i).Launch? ==> FastFrom(words, args, i).key == []
    decreases |args| - i
  {
    if i < |args| && FastWord(args[i]).Some? { FastKeyEmpty(words + [FastWord(args[i]).value], args, i + 1); }
  }

  lemma StandardKey(b: Buffers, args: seq<Arg>, flags: seq<bool>, i: nat)
    requires i <= |args| && forall k :: 0 <= k < |args| ==> WellFormed(args[k])
    ensures var r := StandardFrom(b, args, flags, i);
            r.Launch? ==> r.key == b.constants + Join(Parts(args, flags)[i..])
  {
    ExtractedKey(b, args, flags, i);
    var (r, e) := ExtractFrom(b, args, flags, i);
    assert StandardFrom(b, args, flags, i) ==
           if e.Some? then Raised(e.value) else Launch(r.cuargs, Pointers(r.metas, r.cuargs), r.constants);
  }

  lemma NothingBefore(cs: seq<Constant>)
    ensures [] + cs == cs
  {
  }

  /** On either path, a launch that reaches the kernel map looks up its arguments' key. */
  lemma MarshalledKey(args: seq<Arg>, flags: seq<bool>)
    requires forall k :: 0 <= k < |args| ==> WellFormed(args[k])
    ensures Marshal(args, flags).Launch? ==> Marshal(args, flags).key == Key(args, flags)
  {
    var ps := Parts(args, flags);
    if UsesFastPath(args, flags) {
      EmptyParts(ps);
      FastKeyEmpty([], args, 0);
    } else {
      StandardKey(EMPTY, args, flags, 0);
      assert ps[0..] == ps;
      NothingBefore(Join(ps));
    }
  }

  // ---- what equal keys mean ----

  /** Arguments of the same Python kind. */
  predicate SameKind(a: Arg, b: Arg) {
    match a
    case Dlpack(_, _, _, _) => b.Dlpack?
    case CudaArray(_, _, _, _, _, _, _) => b.CudaArray?
    case Tma(_, _) => b.Tma?
    case PyLong(_, _) => b.PyLong?
    case NpInteger(_, _, _) => b.NpInteger?
    case PyEnum(_, _) => b.PyEnum?
    case PyFloat(_) => b.PyFloat?
    case NpFloat16(_) => b.NpFloat16?
    case NpFloat32(_) => b.NpFloat32?
    case PyComplex(_, _) => b.PyComplex?
    case NpComplex64(_, _) => b.NpComplex64?
    case NumpyVoid(_, _, _, _, _) => b.NumpyVoid?
    case DeviceRecord(_, _) => b.DeviceRecord?
    case NpDatetime(_, _) => b.NpDatetime?
  }

  /** Equal as 64-bit patterns. */
  predicate SamePattern(v: int, w: int) {
    v == w || v == w + TWO_64 || w == v + TWO_64
  }

  predicate SameEnumValue(a: EnumValue, b: EnumValue) {
    match a
    case IntValue(v) => b.IntValue? && SamePattern(v, b.v)
    case FloatValue(x) => b.FloatValue? && x == b.x
  }

  /** The key keeps of an array its dtype, rank and dtype identity, of a constant its value, and of
      complex numbers, records and descriptors nothing. */
  predicate SameContribution(a: Arg, b: Arg, isConstant: bool)
    requires SameKind(a, b)
  {
    match a
    case Dlpack(_, shape, _, dtype) => dtype == b.dtype && |shape| == |b.shape|
    case CudaArray(_, shape, _, _, _, dtype, identity) =>
      dtype == b.dtype && |shape| == |b.shape| && identity == b.identity
    case PyLong(v, cls) => isConstant ==> v == b.v && (cls.Bool? <==> b.cls.Bool?)
    case NpInteger(v, _, _) => isConstant ==> SamePattern(v, b.v)
    case NpDatetime(v, _) => isConstant ==> SamePattern(v, b.v)
    case PyEnum(enumType, value) =>
      isConstant ==> enumType == b.enumType && SameEnumValue(value, b.value)
    case PyFloat(x) => isConstant ==> x == b.x
    case NpFloat16(x) => isConstant ==> x == b.x
    case NpFloat32(x) => isConstant ==> x == b.x
    case _ => true
  }

  /** An argument that can be extracted; a Python bool is 0 or 1. */
  predicate Extractable(a: Arg) {
    WellFormed(a) && Failure(a).None? && (a.PyLong? && a.cls.Bool? ==> a.v == 0 || a.v == 1)
  }

  lemma SamePatternIff(v: int, w: int)
    requires AsInt64(v).Some? && AsInt64(w).Some?
    ensures Signed(v) == Signed(w) <==> SamePattern(v, w)
  {
  }

  lemma SingleEqual<T>(x: T, y: T)
    ensures [x] == [y] <==> x == y
  {
    if [x] == [y] { assert [x][0] == [y][0]; }
  }

  lemma PairEqual<T>(x: T, xs: seq<T>, y: T, ys: seq<T>)
    ensures [x] + xs == [y] + ys <==> x == y && xs == ys
  {
    if [x] + xs == [y] + ys {
      assert ([x] + xs)[0] == ([y] + ys)[0];
      assert ([x] + xs)[1..] == xs && ([y] + ys)[1..] == ys;
    }
  }

  lemma ArraysEqualIff(a: Arg, b: Arg, isConstant: bool)
    requires (a.Dlpack? && b.Dlpack?) || (a.CudaArray? && b.CudaArray?)
    requires Extractable(a) && Extractable(b)
    ensures ConstantsOf(a, isConstant) == ConstantsOf(b, isConstant) <==> SameContribution(a, b, isConstant)
  {
    PackedDtypesDistinct(a.dtype, |a.shape|, b.dtype, |b.shape|);
    var x, y := IntConst(PackDtype(a.dtype, |a.shape|)), IntConst(PackDtype(b.dtype, |b.shape|));
    if a.Dlpack? {
      SingleEqual(x, y);
    } else {
      SingleEqual(StringConst(a.identity), StringConst(b.identity));
      PairEqual(x, ConstantsOf(a, isConstant)[1..], y, ConstantsOf(b, isConstant)[1..]);
    }
  }

  lemma EnumsEqualIff(a: Arg, b: Arg)
    requires a.PyEnum? && b.PyEnum? && Extractable(a) && Extractable(b)
    ensures ConstantsOf(a, true) == ConstantsOf(b, true) <==> SameContribution(a, b, true)
  {
    var c, d := ConstantsOf(a, true), ConstantsOf(b, true);
    assert |c| == 2 && |d| == 2;
    if c == d { assert c[0] == d[0] && c[1] == d[1]; }
    if a.value.IntValue? && b.value.IntValue? { SamePatternIff(a.value.v, b.value.v); }
  }

  lemma IntegersEqualIff(a: Arg, b: Arg)
    requires (a.NpInteger? && b.NpInteger?) || (a.NpDatetime? && b.NpDatetime?)
    requires Extractable(a) && Extractable(b)
    ensures ConstantsOf(a, true) == ConstantsOf(b, true) <==> SameContribution(a, b, true)
  {
    SingleEqual(IntConst(Signed(a.v)), IntConst(Signed(b.v)));
    SamePatternIff(a.v, b.v);
  }

  lemma FloatsEqualIff(a: Arg, b: Arg)
    requires (a.PyFloat? && b.PyFloat?) || (a.NpFloat16? && b.NpFloat16?) || (a.NpFloat32? && b.NpFloat32?)
    ensures ConstantsOf(a, true) == ConstantsOf(b, true) <==> SameContribution(a, b, true)
  {
    SingleEqual(FloatConst(a.x), FloatConst(b.x));
  }

  /** One argument's constants are equal exactly when what the key keeps of it is. */
  lemma ConstantsEqualIff(a: Arg, b: Arg, isConstant: bool)
    requires SameKind(a, b) && Extractable(a) && Extractable(b)
    ensures ConstantsOf(a, isConstant) == ConstantsOf(b, isConstant) <==> SameContribution(a, b, isConstant)
  {
    if a.Dlpack? || a.CudaArray? {
      ArraysEqualIff(a, b, isConstant);
    } else if isConstant {
      match a
      case PyLong(v, c) => IntConstantsDistinct(v, c, b.v, b.cls);
      case NpInteger(_, _, _) => IntegersEqualIff(a, b);
      case NpDatetime(_, _) => IntegersEqualIff(a, b);
      case PyEnum(_, _) => EnumsEqualIff(a, b);
      case PyFloat(_) => FloatsEqualIff(a, b);
      case NpFloat16(_) => FloatsEqualIff(a, b);
      case NpFloat32(_) => FloatsEqualIff(a, b);
      case _ =>
    }
  }

  // ---- whole argument lists ----

  predicate StartsWithString(cs: seq<Constant>) {
    cs != [] && cs[0].StringConst?
  }

  lemma NoConstantsStartWithString(a: Arg, isConstant: bool)
    ensures !StartsWithString(ConstantsOf(a, isConstant))
  {
  }

  /** d is one string longer than c. */
  predicate OneString(c: seq<Constant>, d: seq<Constant>) {
    |c| == 1 && |d| == 2 && d[1].StringConst?
  }

  /** An array contributes one or two constants, any other argument a number its kind fixes. */
  lemma ConstantCount(a: Arg, b: Arg, isConstant: bool)
    requires SameKind(a, b)
    ensures var c, d := ConstantsOf(a, isConstant), ConstantsOf(b, isConstant);
            |c| == |d| || OneString(c, d) || OneString(d, c)
  {
  }

  lemma StringSplits(c: seq<Constant>, x: seq<Constant>, d: seq<Constant>, y: seq<Constant>)
    requires OneString(c, d) && !StartsWithString(x)
    ensures c + x != d + y
  {
    assert (d + y)[1] == d[1];
    if x != [] { assert (c + x)[1] == x[0]; }
  }

  /** Where one argument's constants end and the next one's begin is no matter of choice. */
  lemma SameSplit(c: seq<Constant>, x: seq<Constant>, d: seq<Constant>, y: seq<Constant>)
    requires !StartsWithString(x) && !StartsWithString(y)
    requires |c| == |d| || OneString(c, d) || OneString(d, c)
    ensures c + x == d + y <==> c == d && x == y
  {
    if |c| == |d| {
      assert (c + x)[..|c|] == c && (c + x)[|c|..] == x;
      assert (d + y)[..|d|] == d && (d + y)[|d|..] == y;
    } else if OneString(c, d) {
      StringSplits(c, x, d, y);
    } else {
      StringSplits(d, y, c, x);
    }
  }

  /** Contributions at one position that can be told apart from what follows them. */
  predicate Comparable(c: seq<Constant>, d: seq<Constant>) {
    && !StartsWithString(c) && !StartsWithString(d)
    && (|c| == |d| || OneString(c, d) || OneString(d, c))
  }

  lemma {:induction false} JoinedStart(ps: seq<seq<Constant>>)
    requires forall k :: 0 <= k < |ps| ==> !StartsWithString(ps[k])
    ensures !StartsWithString(Join(ps))
    decreases |ps|
  {
    if ps != [] {
      JoinedStart(ps[1..]);
      if ps[0] == [] { assert Join(ps) == Join(ps[1..]); }
    }
  }

  /** Comparable parts can be read off their concatenation. */
  lemma {:induction false} JoinEqualIff(ps: seq<seq<Constant>>, qs: seq<seq<Constant>>)
    requires |ps| == |qs| && forall k :: 0 <= k < |ps| ==> Comparable(ps[k], qs[k])
    ensures Join(ps) == Join(qs) <==> ps == qs
    decreases |ps|
  {
    if ps != [] {
      JoinEqualIff(ps[1..], qs[1..]);
      JoinedStart(ps[1..]);
      JoinedStart(qs[1..]);
      SameSplit(ps[0], Join(ps[1..]), qs[0], Join(qs[1..]));
      assert ps == [ps[0]] + ps[1..] && qs == [qs[0]] + qs[1..];
    }
  }

  predicate SameKinds(args: seq<Arg>, brgs: seq<Arg>) {
    |args| == |brgs| && forall k :: 0 <= k < |args| ==> SameKind(args[k], brgs[k])
  }

  predicate SameAt(args: seq<Arg>, brgs: seq<Arg>, flags: seq<bool>, k: nat)
    requires SameKinds(args, brgs) && k < |args|
  {
    SameContribution(args[k], brgs[k], IsConstant(flags, k))
  }

  lemma ComparableArguments(a: Arg, b: Arg, isConstant: bool)
    requires SameKind(a, b)
    ensures Comparable(ConstantsOf(a, isConstant), ConstantsOf(b, isConstant))
  {
    ConstantCount(a, b, isConstant);
    NoConstantsStartWithString(a, isConstant);
    NoConstantsStartWithString(b, isConstant);
  }

  /** Under equal flags, arguments of the same Python kinds look up one key exactly when the key keeps
      the same of each: nothing it keeps of one argument is mistaken for what it keeps of another. */
  lemma KeysEqualIff(args: seq<Arg>, brgs: seq<Arg>, flags: seq<bool>)
    requires SameKinds(args, brgs)
    requires forall k :: 0 <= k < |args| ==> Extractable(args[k]) && Extractable(brgs[k])
    ensures Key(args, flags) == Key(brgs, flags) <==> forall k :: 0 <= k < |args| ==> SameAt(args, brgs, flags, k)
  {
    var ps, qs := Parts(args, flags), Parts(brgs, flags);
    forall k | 0 <= k < |args| ensures Comparable(ps[k], qs[k]) && (ps[k] == qs[k] <==> SameAt(args, brgs, flags, k)) {
      ComparableArguments(args[k], brgs[k], IsConstant(flags, k));
      ConstantsEqualIff(args[k], brgs[k], IsConstant(flags, k));
    }
    JoinEqualIff(ps, qs);
    PartsEqualIff(ps, qs);
  }

  lemma PartsEqualIff(ps: seq<seq<Constant>>, qs: seq<seq<Constant>>)
    requires |ps| == |qs|
    ensures ps == qs <==> forall k :: 0 <= k < |ps| ==> ps[k] == qs[k]
  {
  }
}
