/** Which numbers a conversion loses, by the values of its types, against how it is rated. */
module NumberLoss {
  import opened Lru
  import opened NumbaTypes
  import opened OverloadResolution
  import opened Ratings

  // ---- the values of a type ----

  function Pow2(n: nat): (r: int)
    ensures r >= 1
  {
    if n == 0 then 1 else 2 * Pow2(n - 1)
  }

  /** Two to the power e. */
  function Scale(e: int): (r: real)
    ensures r > 0.0
    decreases if e >= 0 then e else -e
  {
    if e == 0 then 1.0 else if e > 0 then 2.0 * Scale(e - 1) else Scale(e + 1) / 2.0
  }

  /** A binary floating-point format: significant digits, and the exponents of the last one. */
  datatype Format = Format(precision: nat, low: int, high: int)

  /** binary16, binary32 and binary64 of IEEE 754. */
  function FormatOf(bits: nat): Format {
    if bits == 16 then Format(11, -24, 5) else if bits == 32 then Format(24, -149, 104) else Format(53, -1074, 971)
  }

  predicate Represents(f: Format, m: int, e: int, x: real) {
    -Pow2(f.precision) < m < Pow2(f.precision) && f.low <= e <= f.high && x == m as real * Scale(e)
  }

  /** x is a finite number of format f. */
  ghost predicate IsFloat(f: Format, x: real) {
    exists m, e :: Represents(f, m, e, x)
  }

  function Least(t: Ty): int
    requires t.Integer? && t.bits > 0
  {
    if t.signed then -Pow2(t.bits - 1) else 0
  }

  function Greatest(t: Ty): int
    requires t.Integer? && t.bits > 0
  {
    if t.signed then Pow2(t.bits - 1) - 1 else Pow2(t.bits) - 1
  }

  predicate IsInteger(t: Ty, x: real)
    requires t.Integer? && t.bits > 0
  {
    x == x.Floor as real && Least(t) <= x.Floor <= Greatest(t)
  }

  /** A finite number, a tuple, or a value without numbers. */
  datatype Datum = Number(x: real) | Group(elems: seq<Datum>) | Other

  /** Number types have the widths that Numba's have. */
  predicate MachineType(t: Ty)
    decreases t
  {
    if t.IsTuple() then forall i :: 0 <= i < |t.Elements()| ==> MachineType(t.Elements()[i])
    else (t.Integer? ==> t.bits > 0) && (t.Float? ==> t.bits == 16 || t.bits == 32 || t.bits == 64)
  }

  /** d is a value of type t.  Any number passed as a pointer is an address. */
  ghost predicate IsValue(t: Ty, d: Datum)
    decreases d
  {
    if t.IsTuple() then
      && d.Group? && |d.elems| == |t.Elements()|
      && forall i :: 0 <= i < |d.elems| ==> IsValue(t.Elements()[i], d.elems[i])
    else if t.Integer? then d.Number? && t.bits > 0 && IsInteger(t, d.x)
    else if t.Float? then d.Number? && IsFloat(FormatOf(t.bits), d.x)
    else if t.CPointer? then d.Number?
    else d.Other?
  }

  /** Some value of type runtime is no value of type sig, so that converting it loses a number. */
  ghost predicate Loses(sig: Ty, runtime: Ty) {
    exists d :: IsValue(runtime, d) && !IsValue(sig, d)
  }

  // ---- losses that are not rated unsafe ----

  /** Binary digits of an integer type's magnitudes. */
  function Digits(t: Ty): nat
    requires t.Integer? && t.bits > 0
  {
    if t.signed then t.bits - 1 else t.bits
  }

  /** A change of signedness, or an integer type with more digits than the float type it goes to. */
  predicate UnratedNumber(sig: Ty, runtime: Ty) {
    || (sig.Integer? && runtime.Integer? && runtime.signed && !sig.signed)
    || (sig.Integer? && runtime.Integer? && !runtime.signed && sig.signed && runtime.bits == sig.bits)
    || (sig.Float? && runtime.Integer? && runtime.bits > 0 && Digits(runtime) > FormatOf(sig.bits).precision)
  }

  ghost predicate Unrated(sig: Ty, runtime: Ty)
    decreases sig
  {
    if sig.IsTuple() && runtime.IsTuple() then
      exists i ::
        0 <= i < |sig.Elements()| && i < |runtime.Elements()| && Unrated(sig.Elements()[i], runtime.Elements()[i])
    else UnratedNumber(sig, runtime)
  }

  // ---- powers ----

  lemma {:induction false} Pow2Monotone(m: nat, n: nat)
    requires m <= n
    ensures Pow2(m) <= Pow2(n) && (m < n ==> Pow2(m) < Pow2(n))
    decreases n
  {
    if m < n { Pow2Monotone(m, n - 1); }
  }

  lemma {:induction false} ScaleBelowOne(e: int)
    requires e <= 0
    ensures Scale(e) <= 1.0
    decreases -e
  {
    if e < 0 { ScaleBelowOne(e + 1); }
  }

  /** An integer times a power of two is an integer. */
  lemma {:induction false} ScaledInteger(m: int, e: nat) returns (k: int)
    ensures m as real * Scale(e) == k as real
    decreases e
  {
    if e == 0 {
      k := m;
    } else {
      var half := ScaledDouble(m, e);
      k := 2 * half;
    }
  }

  /** From the first power on it is twice an integer. */
  lemma {:induction false} ScaledDouble(m: int, e: nat) returns (half: int)
    requires e > 0
    ensures m as real * Scale(e) == (2 * half) as real
    decreases e, 0
  {
    half := ScaledInteger(m, e - 1);
    assert Scale(e) == 2.0 * Scale(e - 1);
    Reassociate(m as real, Scale(e - 1));
  }

  lemma Reassociate(x: real, y: real)
    ensures x * (2.0 * y) == 2.0 * (x * y)
  {
  }

  lemma Shrinks(m: int, y: real, bound: int)
    requires -bound < m < bound && 0.0 < y <= 1.0
    ensures -(bound as real) < m as real * y < bound as real
  {
    var x := m as real;
    if m >= 0 { ShrinksTo(x, y); } else { ShrinksTo(-x, y); }
  }

  lemma ShrinksTo(x: real, y: real)
    requires x >= 0.0 && 0.0 < y <= 1.0
    ensures 0.0 <= x * y <= x && (-x) * y == -(x * y)
  {
    NotNegative(x, y);
    NotNegative(x, 1.0 - y);
    assert x * (1.0 - y) == x - x * y;
  }

  lemma NotNegative(x: real, y: real)
    requires x >= 0.0 && y >= 0.0
    ensures x * y >= 0.0
  {
  }

  // ---- numbers ----

  /** Every integer of at most as many digits as the format has is one of its numbers. */
  lemma SmallIsFloat(f: Format, v: int)
    requires f.precision > 0 && f.low <= 0 && f.high >= 1 && -Pow2(f.precision) <= v <= Pow2(f.precision)
    ensures IsFloat(f, v as real)
  {
    var half := Pow2(f.precision - 1);
    if v == Pow2(f.precision) {
      assert Scale(1) == 2.0 * Scale(0);
      assert Represents(f, half, 1, v as real);
    } else if v == -Pow2(f.precision) {
      assert Scale(1) == 2.0 * Scale(0);
      assert Represents(f, -half, 1, v as real);
    } else {
      assert Represents(f, v, 0, v as real);
    }
  }

  lemma NotRepresented(f: Format, m: int, e: int)
    requires f.precision > 0
    ensures !Represents(f, m, e, (Pow2(f.precision) + 1) as real)
  {
    if -Pow2(f.precision) < m < Pow2(f.precision) {
      if e <= 0 {
        ScaleBelowOne(e);
        Shrinks(m, Scale(e), Pow2(f.precision));
      } else {
        var half := ScaledDouble(m, e);
        assert Pow2(f.precision) == 2 * Pow2(f.precision - 1);
        assert 2 * half != 2 * Pow2(f.precision - 1) + 1;
      }
    }
  }

  /** The least positive integer that is none. */
  lemma OddIsNotFloat(f: Format)
    requires f.precision > 0
    ensures !IsFloat(f, (Pow2(f.precision) + 1) as real)
  {
    var x := (Pow2(f.precision) + 1) as real;
    if IsFloat(f, x) {
      var m, e :| Represents(f, m, e, x);
      NotRepresented(f, m, e);
    }
  }

  lemma WiderFloat(f: Format, g: Format, x: real)
    requires f.precision <= g.precision && g.low <= f.low && f.high <= g.high && IsFloat(f, x)
    ensures IsFloat(g, x)
  {
    var m, e :| Represents(f, m, e, x);
    Pow2Monotone(f.precision, g.precision);
    assert Represents(g, m, e, x);
  }

  lemma IntegersLose(sig: Ty, runtime: Ty)
    requires sig.Integer? && runtime.Integer? && sig.bits > 0 && runtime.bits > 0
    ensures Loses(sig, runtime) <==> runtime.bits > sig.bits || UnratedNumber(sig, runtime)
  {
    if runtime.signed && !sig.signed {
      var d := Number(-1.0);
      assert IsValue(runtime, d) && !IsValue(sig, d);
    } else if runtime.bits > sig.bits || UnratedNumber(sig, runtime) {
      Pow2Monotone(Digits(sig), Digits(runtime));
      var d := Number(Greatest(runtime) as real);
      assert IsValue(runtime, d) && !IsValue(sig, d);
    } else {
      Pow2Monotone(Digits(runtime), Digits(sig));
      assert Least(sig) <= Least(runtime) && Greatest(runtime) <= Greatest(sig);
    }
  }

  /** What holds of every format. */
  predicate Usual(f: Format) {
    f.precision > 1 && f.low < 0 && f.high > 0
  }

  lemma FormatsUsual(bits: nat)
    ensures Usual(FormatOf(bits))
  {
  }

  /** A wider format has a number that a narrower one has not. */
  lemma FormatLoses(f: Format, g: Format) returns (x: real)
    requires Usual(f) && Usual(g) && f.precision > g.precision
    ensures IsFloat(f, x) && !IsFloat(g, x)
  {
    x := (Pow2(g.precision) + 1) as real;
    Pow2Monotone(g.precision, f.precision);
    SmallIsFloat(f, Pow2(g.precision) + 1);
    OddIsNotFloat(g);
  }

  lemma FloatsLose(sig: Ty, runtime: Ty)
    requires sig.Float? && runtime.Float? && MachineType(sig) && MachineType(runtime)
    ensures Loses(sig, runtime) <==> runtime.bits > sig.bits
  {
    var f, g := FormatOf(runtime.bits), FormatOf(sig.bits);
    if runtime.bits > sig.bits {
      FormatsUsual(runtime.bits);
      FormatsUsual(sig.bits);
      var x := FormatLoses(f, g);
      assert IsValue(runtime, Number(x)) && !IsValue(sig, Number(x));
    } else {
      forall d | IsValue(runtime, d) ensures IsValue(sig, d) { WiderFloat(f, g, d.x); }
    }
  }

  lemma HalfIsFloat(f: Format)
    requires Usual(f)
    ensures IsFloat(f, 0.5)
  {
    assert Scale(-1) == Scale(0) / 2.0;
    assert Pow2(f.precision) == 2 * Pow2(f.precision - 1);
    assert Represents(f, 1, -1, 0.5);
  }

  /** One half is a number of every float type and of no integer type. */
  lemma FractionLost(sig: Ty, runtime: Ty)
    requires sig.Integer? && runtime.Float? && MachineType(sig) && MachineType(runtime)
    ensures Loses(sig, runtime)
  {
    FormatsUsual(runtime.bits);
    HalfIsFloat(FormatOf(runtime.bits));
    assert IsValue(runtime, Number(0.5)) && !IsValue(sig, Number(0.5));
  }

  /** An integer type of more digits than the format has a value that is none of its numbers. */
  lemma FormatLosesInteger(f: Format, runtime: Ty) returns (v: int)
    requires Usual(f) && runtime.Integer? && runtime.bits > 0 && Digits(runtime) > f.precision
    ensures Least(runtime) <= v <= Greatest(runtime) && !IsFloat(f, v as real)
  {
    v := Pow2(f.precision) + 1;
    Pow2Monotone(f.precision + 1, Digits(runtime));
    Pow2Monotone(1, f.precision);
    OddIsNotFloat(f);
  }

  lemma FormatKeepsInteger(f: Format, runtime: Ty, v: int)
    requires Usual(f) && runtime.Integer? && runtime.bits > 0 && Digits(runtime) <= f.precision
    requires Least(runtime) <= v <= Greatest(runtime)
    ensures IsFloat(f, v as real)
  {
    Pow2Monotone(Digits(runtime), f.precision);
    SmallIsFloat(f, v);
  }

  lemma IntegerToFloatLoses(sig: Ty, runtime: Ty)
    requires sig.Float? && runtime.Integer? && MachineType(sig) && MachineType(runtime)
    ensures Loses(sig, runtime) <==> UnratedNumber(sig, runtime)
  {
    var f := FormatOf(sig.bits);
    FormatsUsual(sig.bits);
    if Digits(runtime) > f.precision {
      var v := FormatLosesInteger(f, runtime);
      assert IsValue(runtime, Number(v as real)) && !IsValue(sig, Number(v as real));
    } else {
      forall d | IsValue(runtime, d) ensures IsValue(sig, d) { FormatKeepsInteger(f, runtime, d.x.Floor); }
    }
  }

  /** Integers of 11, 24 and 53 binary digits are the widest that float16, float32 and float64 keep. */
  lemma DigitsKept(bits: nat, n: nat, signed: bool)
    requires n > 0 && (bits == 16 || bits == 32 || bits == 64)
    ensures Loses(Float(bits), Integer(n, signed)) <==>
            (if signed then n - 1 else n) > (if bits == 16 then 11 else if bits == 32 then 24 else 53)
  {
    IntegerToFloatLoses(Float(bits), Integer(n, signed));
  }

  /** Types that are no numbers and no tuples convert only to a type with the same values. */
  lemma NumberLoses(sig: Ty, runtime: Ty)
    requires (!sig.IsTuple() || !runtime.IsTuple()) && sig != runtime
    requires ConversionCost(sig, runtime).Some? && MachineType(sig) && MachineType(runtime)
    ensures Loses(sig, runtime) <==> ConversionCost(sig, runtime).value.unsafe > 0 || Unrated(sig, runtime)
  {
    if sig.Integer? && runtime.Integer? { IntegersLose(sig, runtime); }
    else if sig.Float? && runtime.Float? { FloatsLose(sig, runtime); }
    else if sig.Integer? && runtime.Float? { FractionLost(sig, runtime); }
    else if sig.Float? && runtime.Integer? { IntegerToFloatLoses(sig, runtime); }
  }

  // ---- tuples ----

  /** Every type has a value: zero in every number. */
  function Zero(t: Ty): Datum
    decreases t, 1
  {
    if t.IsTuple() then Group(Zeros(t.Elements(), t))
    else if t.Integer? || t.Float? || t.CPointer? then Number(0.0)
    else Other
  }

  function Zeros(ts: seq<Ty>, ghost whole: Ty): (ds: seq<Datum>)
    requires forall i :: 0 <= i < |ts| ==> ts[i] < whole
    ensures |ds| == |ts| && forall i :: 0 <= i < |ts| ==> ds[i] == Zero(ts[i])
    decreases whole, 0, |ts|
  {
    if ts == [] then [] else [Zero(ts[0])] + Zeros(ts[1..], whole)
  }

  lemma {:induction false} ZeroIsValue(t: Ty)
    requires MachineType(t)
    ensures IsValue(t, Zero(t))
    decreases t
  {
    if t.IsTuple() {
      forall i | 0 <= i < |t.Elements()| ensures IsValue(t.Elements()[i], Zero(t.Elements()[i])) {
        ZeroIsValue(t.Elements()[i]);
      }
    } else if t.Float? {
      SmallIsFloat(FormatOf(t.bits), 0);
    }
  }

  ghost predicate LosesAny(ss: seq<Ty>, rs: seq<Ty>)
    requires |ss| == |rs|
  {
    exists i :: 0 <= i < |ss| && Loses(ss[i], rs[i])
  }

  lemma ElementLost(sig: Ty, runtime: Ty, i: nat)
    requires sig.IsTuple() && runtime.IsTuple() && |sig.Elements()| == |runtime.Elements()|
    requires MachineType(runtime) && i < |sig.Elements()| && Loses(sig.Elements()[i], runtime.Elements()[i])
    ensures Loses(sig, runtime)
  {
    var ss, rs := sig.Elements(), runtime.Elements();
    var e :| IsValue(rs[i], e) && !IsValue(ss[i], e);
    var ds := Zeros(rs, runtime)[i := e];
    forall j | 0 <= j < |rs| ensures IsValue(rs[j], ds[j]) { ZeroIsValue(rs[j]); }
    var d := Group(ds);
    assert IsValue(runtime, d);
    assert d.elems[i] == e && !IsValue(sig, d);
  }

  /** A tuple loses a number exactly when an element does. */
  lemma TupleLoses(sig: Ty, runtime: Ty)
    requires sig.IsTuple() && runtime.IsTuple() && |sig.Elements()| == |runtime.Elements()|
    requires MachineType(runtime)
    ensures Loses(sig, runtime) <==> LosesAny(sig.Elements(), runtime.Elements())
  {
    var ss, rs := sig.Elements(), runtime.Elements();
    if LosesAny(ss, rs) {
      var i :| 0 <= i < |ss| && Loses(ss[i], rs[i]);
      ElementLost(sig, runtime, i);
    } else {
      forall d | IsValue(runtime, d) ensures IsValue(sig, d) {
        forall i | 0 <= i < |ss| ensures IsValue(ss[i], d.elems[i]) { assert !Loses(ss[i], rs[i]); }
      }
    }
  }

  predicate RatedUnsafe(sig: Ty, runtime: Ty) {
    ConversionCost(sig, runtime).Some? && ConversionCost(sig, runtime).value.unsafe > 0
  }

  ghost predicate UnsafeOrUnrated(sig: Ty, runtime: Ty) {
    RatedUnsafe(sig, runtime) || Unrated(sig, runtime)
  }

  ghost predicate AnyRatedUnsafe(ss: seq<Ty>, rs: seq<Ty>)
    requires |ss| == |rs|
  {
    exists i :: 0 <= i < |ss| && RatedUnsafe(ss[i], rs[i])
  }

  ghost predicate AllPossible(ss: seq<Ty>, rs: seq<Ty>)
    requires |ss| == |rs|
  {
    forall i :: 0 <= i < |ss| ==> ConversionCost(ss[i], rs[i]).Some?
  }

  lemma UnsafeCons(ss: seq<Ty>, rs: seq<Ty>)
    requires |ss| == |rs| && ss != []
    ensures AnyRatedUnsafe(ss, rs) <==> RatedUnsafe(ss[0], rs[0]) || AnyRatedUnsafe(ss[1..], rs[1..])
    ensures AllPossible(ss, rs) <==> ConversionCost(ss[0], rs[0]).Some? && AllPossible(ss[1..], rs[1..])
  {
    var st, rt := ss[1..], rs[1..];
    assert forall i :: 1 <= i < |ss| ==> ss[i] == st[i - 1] && rs[i] == rt[i - 1];
    assert forall i :: 0 <= i < |st| ==> st[i] == ss[i + 1] && rt[i] == rs[i + 1];
  }

  /** A sum of costs is unsafe exactly when a summand is. */
  lemma {:induction false} UnsafeSum(ss: seq<Ty>, rs: seq<Ty>, whole: Ty)
    requires |ss| == |rs| && forall i :: 0 <= i < |ss| ==> ss[i] < whole
    requires SumCosts(ss, rs, whole).Some?
    ensures AllPossible(ss, rs)
    ensures SumCosts(ss, rs, whole).value.unsafe > 0 <==> AnyRatedUnsafe(ss, rs)
    decreases |ss|
  {
    if ss != [] {
      UnsafeSum(ss[1..], rs[1..], whole);
      UnsafeCons(ss, rs);
    }
  }

  lemma {:induction false} SelfRated(t: Ty)
    ensures !Unrated(t, t)
    decreases t
  {
    if t.IsTuple() {
      forall i | 0 <= i < |t.Elements()| ensures !Unrated(t.Elements()[i], t.Elements()[i]) {
        SelfRated(t.Elements()[i]);
      }
    }
  }

  ghost predicate AnyUnrated(ss: seq<Ty>, rs: seq<Ty>)
    requires |ss| == |rs|
  {
    exists i :: 0 <= i < |ss| && Unrated(ss[i], rs[i])
  }

  lemma TupleUnrated(sig: Ty, runtime: Ty)
    requires sig.IsTuple() && runtime.IsTuple() && |sig.Elements()| == |runtime.Elements()|
    ensures Unrated(sig, runtime) <==> AnyUnrated(sig.Elements(), runtime.Elements())
  {
  }

  lemma ElementsCombined(ss: seq<Ty>, rs: seq<Ty>)
    requires |ss| == |rs|
    requires forall i :: 0 <= i < |ss| ==> (Loses(ss[i], rs[i]) <==> UnsafeOrUnrated(ss[i], rs[i]))
    ensures LosesAny(ss, rs) <==> AnyRatedUnsafe(ss, rs) || AnyUnrated(ss, rs)
  {
  }

  /** A possible conversion loses some number, at any depth of tuples, exactly when it is rated
      unsafe or some number in it changes signedness or goes to a float of fewer digits. */
  lemma {:induction false} LosesIffUnsafeOrUnrated(sig: Ty, runtime: Ty)
    requires ConversionCost(sig, runtime).Some? && MachineType(sig) && MachineType(runtime)
    ensures Loses(sig, runtime) <==> ConversionCost(sig, runtime).value.unsafe > 0 || Unrated(sig, runtime)
    decreases sig
  {
    if sig == runtime {
      SelfRated(sig);
    } else if sig.IsTuple() && runtime.IsTuple() {
      var ss, rs := sig.Elements(), runtime.Elements();
      TupleByElements(sig, runtime);
      UnsafeSum(ss, rs, sig);
      TupleLoses(sig, runtime);
      forall i | 0 <= i < |ss| ensures Loses(ss[i], rs[i]) <==> UnsafeOrUnrated(ss[i], rs[i]) {
        LosesIffUnsafeOrUnrated(ss[i], rs[i]);
      }
      ElementsCombined(ss, rs);
      TupleUnrated(sig, runtime);
    } else {
      NumberLoses(sig, runtime);
    }
  }

  // ---- what resolution makes of it ----

  lemma {:induction false} SignatureMachine(sig: Signature)
    requires forall t :: t in sig ==> MachineType(t)
    ensures MachineType(Tuple(sig))
  {
    assert Tuple(sig).Elements() == sig;
  }

  /** What resolution without unsafe conversions returns loses some number of the arguments exactly
      when a number changes signedness or goes to a float of fewer digits. */
  lemma SafeCandidateLosesIff(sig: Signature, sigs: seq<Signature>, argtypes: Signature)
    requires Minimal(sig, sigs, argtypes, false)
    requires forall t :: t in sig || t in argtypes ==> MachineType(t)
    ensures Loses(Tuple(sig), Tuple(argtypes)) <==> Unrated(Tuple(sig), Tuple(argtypes))
  {
    SignatureMachine(sig);
    SignatureMachine(argtypes);
    RateIsTupleCost(sig, argtypes);
    LosesIffUnsafeOrUnrated(Tuple(sig), Tuple(argtypes));
  }

  /** A candidate that loses nothing beats every candidate that is rated unsafe. */
  lemma LosslessBeatsUnsafe(lossless: Signature, unsafe: Signature, argtypes: Signature)
    requires RateOverload(lossless, argtypes).Some? && RateOverload(unsafe, argtypes).Some?
    requires RateOverload(unsafe, argtypes).value.unsafe > 0
    requires forall t :: t in lossless || t in argtypes ==> MachineType(t)
    requires !Loses(Tuple(lossless), Tuple(argtypes))
    ensures Less(RateOverload(lossless, argtypes).value, RateOverload(unsafe, argtypes).value)
  {
    SignatureMachine(lossless);
    SignatureMachine(argtypes);
    RateIsTupleCost(lossless, argtypes);
    LosesIffUnsafeOrUnrated(Tuple(lossless), Tuple(argtypes));
  }

  /** Rated a promotion, yet lossy: a signed type to an unsigned one (int32 to uint32) loses -1. */
  lemma SignLostAsPromotion(n: nat, m: nat)
    requires 0 < n <= m
    ensures ConversionCost(Integer(m, false), Integer(n, true)) == Some(Rating(0, 0, 1))
    ensures IsValue(Integer(n, true), Number(-1.0)) && !IsValue(Integer(m, false), Number(-1.0))
  {
  }

  /** Rated safe, yet lossy: a signed type of more than 12 bits (int64) to float16. */
  lemma DigitsLostAsSafe(n: nat)
    requires n > 12
    ensures ConversionCost(Float(16), Integer(n, true)) == Some(Rating(0, 1, 0))
    ensures Loses(Float(16), Integer(n, true))
  {
    IntegerToFloatLoses(Float(16), Integer(n, true));
  }

  lemma OneCost(t: Ty, arg: Ty)
    ensures RateOverload([t], [arg]) == ConversionCost(t, arg)
  {
    var whole := Tuple([t]);
    assert [t][1..] == [] && [arg][1..] == [];
    assert SumCosts([], [], whole) == Some(ZERO);
    assert SumCosts([t], [arg], whole) == Plus(ConversionCost(t, arg), SumCosts([], [], whole));
    PlusNothing(ConversionCost(t, arg));
  }

  lemma PlusNothing(x: Option<Rating>)
    ensures Plus(x, Some(ZERO)) == x
  {
  }

  lemma PreferredOfTwo(worse: Signature, better: Signature, argtypes: Signature, allowUnsafe: bool)
    requires RateOverload(worse, argtypes) == Some(Rating(0, 1, 0))
    requires RateOverload(better, argtypes) == Some(Rating(0, 0, 1))
    ensures Minimal(better, [worse, better], argtypes, allowUnsafe)
    ensures !Minimal(worse, [worse, better], argtypes, allowUnsafe)
  {
    assert [worse, better][1] in [worse, better];
  }

  /** For a signed argument (int32) resolution prefers an unsigned type (uint32) to any float type. */
  lemma UnsignedBeatsFloat(argument: Ty, unsigned: Ty, float: Ty, allowUnsafe: bool)
    requires argument.Integer? && argument.signed && unsigned.Integer? && !unsigned.signed
    requires argument.bits <= unsigned.bits && float.Float?
    ensures var sigs := [[float], [unsigned]];
            && Minimal([unsigned], sigs, [argument], allowUnsafe)
            && !Minimal([float], sigs, [argument], allowUnsafe)
  {
    OneCost(unsigned, argument);
    OneCost(float, argument);
    PreferredOfTwo([float], [unsigned], [argument], allowUnsafe);
  }

  lemma UnratedFloat(argument: Ty, float: Ty)
    requires argument.Integer? && argument.signed && argument.bits > 0 && float.Float?
    ensures UnratedNumber(float, argument) <==> argument.bits > FormatOf(float.bits).precision + 1
  {
  }

  /** The type it prefers loses negative arguments, while the float type (float64) loses none unless
      the argument has more digits. */
  lemma PreferredYetLossy(argument: Ty, unsigned: Ty, float: Ty)
    requires argument.Integer? && argument.signed && unsigned.Integer? && !unsigned.signed
    requires 0 < argument.bits <= unsigned.bits && float.Float? && MachineType(float)
    ensures Loses(unsigned, argument)
    ensures Loses(float, argument) <==> argument.bits > FormatOf(float.bits).precision + 1
  {
    IntegersLose(unsigned, argument);
    IntegerToFloatLoses(float, argument);
    UnratedFloat(argument, float);
  }
}
