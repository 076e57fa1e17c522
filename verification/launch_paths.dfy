/** The two paths of a launch: full extraction, and the fast path for plain scalars; and what the
    kernel-map key distinguishes. */
module LaunchPaths {
  import opened Lru
  import opened Strides
  import opened Marshalling

  /** What reaches the kernel map and the driver. */
  datatype Outcome = Launch(cuargs: seq<Word>, params: seq<Param>, key: seq<Constant>) | Raised(error: Error)

  /** Exactly an int or a bool: what may be compiled as a literal. */
  predicate IsLiteralValue(a: Arg) {
    a.PyLong? && (a.cls.Int? || a.cls.Bool?)
  }

  /** effective_constant_arg_flags: literal requests count only for exact int and bool arguments, and
      flattened arguments beyond the declared parameters are not constant. */
  function EffectiveFlags(constantFlags: seq<bool>, literalFlags: seq<bool>, args: seq<Arg>): (flags: seq<bool>)
    requires |constantFlags| == |literalFlags|
    ensures |flags| == |args|
    ensures forall i :: 0 <= i < |args| ==> flags[i] ==> i < |constantFlags| && (constantFlags[i] || literalFlags[i])
    ensures forall i :: 0 <= i < |args| && i < |constantFlags| && constantFlags[i] ==> flags[i]
    ensures forall i :: 0 <= i < |args| && i < |constantFlags| && !constantFlags[i] && literalFlags[i] ==>
              (flags[i] <==> IsLiteralValue(args[i]))
  {
    seq(|args|, i requires 0 <= i < |args| =>
      i < |constantFlags| && (constantFlags[i] || (literalFlags[i] && IsLiteralValue(args[i]))))
  }

  /** get_scalar_extractor */
  predicate FastScalar(a: Arg) {
    a.NpFloat32? || a.PyFloat? || a.PyLong? || a.NpInteger?
  }

  /** maybe_init_fast_path; with no arguments the extractor list is empty and the standard path runs. */
  predicate UsesFastPath(args: seq<Arg>, flags: seq<bool>) {
    args != [] && forall i :: 0 <= i < |args| ==> FastScalar(args[i]) && !IsConstant(flags, i)
  }

  /** The standard path. */
  function Standard(args: seq<Arg>, flags: seq<bool>): Outcome
    requires forall k :: 0 <= k < |args| ==> WellFormed(args[k])
  {
    StandardFrom(EMPTY, args, flags, 0)
  }

  function StandardFrom(b: Buffers, args: seq<Arg>, flags: seq<bool>, i: nat): Outcome
    requires i <= |args| && forall k :: 0 <= k < |args| ==> WellFormed(args[k])
  {
    var (r, e) := ExtractFrom(b, args, flags, i);
    if e.Some? then Raised(e.value) else Launch(r.cuargs, Pointers(r.metas, r.cuargs), r.constants)
  }

  /** A fast extractor: None when it raises. */
  function FastWord(a: Arg): Option<Word> {
    match a
    case NpFloat32(x) => Some(F32(x))
    case PyFloat(x) => Some(F64(x))
    case PyLong(v, _) => if FitsInt64(v) then Some(I64(v)) else None
    case NpInteger(v, _, _) => (match AsInt64(v) case Some(n) => Some(I64(n)) case None => None)
    case _ => None
  }

  /** The fast loop from argument i on, after the words of the first i. */
  function FastFrom(words: seq<Word>, args: seq<Arg>, i: nat): Outcome
    requires i <= |args|
    decreases |args| - i
  {
    if i == |args| then Launch(words, Run(0, |args|), [])
    else match FastWord(args[i])
      case None => Raised(OverflowError)
      case Some(w) => FastFrom(words + [w], args, i + 1)
  }

  function Fast(args: seq<Arg>): Outcome {
    FastFrom([], args, 0)
  }

  /** launch, up to the kernel map. */
  function Marshal(args: seq<Arg>, flags: seq<bool>): Outcome
    requires forall k :: 0 <= k < |args| ==> WellFormed(args[k])
  {
    if UsesFastPath(args, flags) then Fast(args) else Standard(args, flags)
  }

  // ---- the fast path against the standard path ----

  /** The buffers after i plain scalars: a word and a pointer each, and no constants. */
  ghost predicate Plain(b: Buffers, i: nat) {
    |b.cuargs| == i && b.constants == [] && (forall cuargs: seq<Word> :: Pointers(b.metas, cuargs) == Run(0, i))
  }

  lemma AppendPlain(b: Buffers, i: nat, a: Arg)
    requires Plain(b, i) && FastScalar(a) && Failure(a).None?
    ensures Plain(Append(b, a, false), i + 1)
  {
    var r := Append(b, a, false);
    forall cuargs: seq<Word> ensures Pointers(r.metas, cuargs) == Run(0, i + 1) {
      assert r.metas[..|r.metas| - 1] == b.metas;
      assert Run(0, i) + [Into(i)] == Run(0, i + 1);
    }
    assert b.constants + [] == b.constants;
  }

  /** As long as every Python int fits a signed 64-bit value, the paths agree step by step, errors
      included. */
  lemma {:induction false} PathsAgree(b: Buffers, args: seq<Arg>, flags: seq<bool>, i: nat)
    requires i <= |args| && Plain(b, i)
    requires forall k :: 0 <= k < |args| ==> WellFormed(args[k]) && FastScalar(args[k])
    requires forall k :: 0 <= k < |args| ==> !IsConstant(flags, k)
    requires forall k :: i <= k < |args| && args[k].PyLong? && Failure(args[k]).None? ==> FitsInt64(args[k].v)
    ensures FastFrom(b.cuargs, args, i) == StandardFrom(b, args, flags, i)
    decreases |args| - i
  {
    if i < |args| && Failure(args[i]).None? {
      AppendPlain(b, i, args[i]);
      var r := Append(b, args[i], false);
      assert r.cuargs == b.cuargs + [FastWord(args[i]).value];
      PathsAgree(r, args, flags, i + 1);
    }
  }

  /** An argument without a fast word stops the fast path. */
  lemma {:induction false} FastRaises(words: seq<Word>, args: seq<Arg>, i: nat, k: nat)
    requires i <= k < |args| && FastWord(args[k]).None?
    ensures FastFrom(words, args, i) == Raised(OverflowError)
    decreases |args| - i
  {
    if FastWord(args[i]).Some? { FastRaises(words + [FastWord(args[i]).value], args, i + 1, k); }
  }

  /** The fast path yields the standard path's vector, pointers, key or error exactly when some
      integer is beyond 64 bits, so that both raise, or every Python int fits a signed 64-bit value. */
  lemma FastAgreesIff(args: seq<Arg>, flags: seq<bool>)
    requires UsesFastPath(args, flags)
    ensures forall k :: 0 <= k < |args| ==> WellFormed(args[k])
    ensures Fast(args) == Standard(args, flags) <==>
            (exists k :: 0 <= k < |args| && Failure(args[k]).Some?) ||
            (forall k :: 0 <= k < |args| && args[k].PyLong? ==> FitsInt64(args[k].v))
  {
    ErrorIsFirstFailure(EMPTY, args, flags, 0);
    var j := FirstFailureFacts(Failures(args), 0);
    if k :| 0 <= k < |args| && Failure(args[k]).Some? {
      OverflowOnly(args[k]);
      assert Failures(args)[k].Some?;
      OverflowOnly(args[j]);
      FastRaises([], args, 0, k);
    } else if k :| 0 <= k < |args| && args[k].PyLong? && !FitsInt64(args[k].v) {
      FastRaises([], args, 0, k);
    } else {
      PathsAgree(EMPTY, args, flags, 0);
    }
  }

  lemma OverflowOnly(a: Arg)
    requires FastScalar(a) && Failure(a).Some?
    ensures Failure(a) == Some(OverflowError) && FastWord(a).None?
  {
  }

  /** Every launch is marshalled as the standard path would, except one of nothing but non-constant floats
      (Python's or float32), Python ints and NumPy integers, all within 64 bits and a Python int above the
      signed range among them: it raises. */
  lemma MarshalDiffersIff(args: seq<Arg>, flags: seq<bool>)
    requires forall k :: 0 <= k < |args| ==> WellFormed(args[k])
    ensures Marshal(args, flags) != Standard(args, flags) <==>
            && (forall k :: 0 <= k < |args| ==> !IsConstant(flags, k) && Failure(args[k]).None?)
            && (forall k :: 0 <= k < |args| ==>
                  args[k].PyFloat? || args[k].NpFloat32? || args[k].PyLong? || args[k].NpInteger?)
            && exists k :: 0 <= k < |args| && args[k].PyLong? && args[k].v > INT64_MAX
    ensures Marshal(args, flags) != Standard(args, flags) ==> Marshal(args, flags) == Raised(OverflowError)
  {
    if UsesFastPath(args, flags) {
      FastAgreesIff(args, flags);
      if k :| 0 <= k < |args| && args[k].PyLong? && args[k].v > INT64_MAX { FastRaises([], args, 0, k); }
    }
  }

  /** The smallest disagreement: a Python int just above the signed range raises on the fast path,
      while the standard path passes its unsigned bit pattern. */
  lemma UnsignedIntDisagrees()
    ensures var args := [PyLong(INT64_MAX + 1, Int)];
            && UsesFastPath(args, [false])
            && Fast(args) == Raised(OverflowError)
            && Standard(args, [false]).Launch? && Standard(args, [false]).cuargs == [I64(INT64_MIN)]
  {
    var args := [PyLong(INT64_MAX + 1, Int)];
    FastRaises([], args, 0, 0);
    var b := Append(EMPTY, args[0], false);
    assert ExtractFrom(b, args, [false], 1) == (b, None);
    assert ExtractFrom(EMPTY, args, [false], 0) == (b, None);
  }

  // ---- what the key distinguishes ----

  /** Packed dtype and rank constants are equal only for equal dtypes and ranks; the dtype is the low half. */
  lemma PackedDtypesDistinct(d: nat, m: nat, e: nat, n: nat)
    requires d < TWO_32 && e < TWO_32 && m < TWO_32 && n < TWO_32
    ensures PackDtype(d, m) == PackDtype(e, n) <==> d == e && m == n
    ensures FitsInt64(PackDtype(d, m)) && PackDtype(d, m) % TWO_32 == d
  {
  }

  /** Constant Python ints and bools get equal key entries only when they are the same value of the
      same kind: True is not 1, and no unsigned value collides with a negative one. */
  lemma IntConstantsDistinct(v: int, c: IntClass, w: int, d: IntClass)
    requires AsInt64(v).Some? && AsInt64(w).Some?
    requires (c.Bool? ==> v == 0 || v == 1) && (d.Bool? ==> w == 0 || w == 1)
    ensures ConstantsOf(PyLong(v, c), true) == ConstantsOf(PyLong(w, d), true) <==> v == w && (c.Bool? <==> d.Bool?)
  {
    var a, b := ConstantsOf(PyLong(v, c), true), ConstantsOf(PyLong(w, d), true);
    assert |a| == 1 && |b| == 1;
    if a == b { assert a[0] == b[0]; }
  }
}
