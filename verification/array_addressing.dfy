/** Which element of an array a kernel reads at an index, from the words it is launched with. */
module ArrayAddressing {
  import opened Arithmetic
  import opened Lru
  import opened Strides
  import opened Marshalling

  // ---- what a kernel makes of the words ----

  /** The words of a memref of rank n: two pointers, an offset, extents and strides. */
  ghost predicate IsMemref(ws: seq<Word>, n: nat) {
    |ws| == 3 + 2 * n && ws[0].Pointer? && ws[1].Pointer? && forall k :: 2 <= k < |ws| ==> ws[k].I64?
  }

  function ExtentsIn(ws: seq<Word>, n: nat): (s: seq<int>)
    requires IsMemref(ws, n)
    ensures |s| == n
  {
    seq(n, k requires 0 <= k < n => ws[3 + k].v)
  }

  function StridesIn(ws: seq<Word>, n: nat): (s: seq<int>)
    requires IsMemref(ws, n)
    ensures |s| == n
  {
    seq(n, k requires 0 <= k < n => ws[3 + n + k].v)
  }

  /** The address of the element at an index, for elements of the given number of bytes. */
  function KernelAddress(ws: seq<Word>, n: nat, bytes: nat, idx: seq<int>): int
    requires IsMemref(ws, n) && |idx| == n
  {
    ws[1].address + bytes * (ws[2].v + Dot(StridesIn(ws, n), idx))
  }

  predicate IsArray(a: Arg) {
    a.Dlpack? || a.CudaArray?
  }

  lemma MemrefWords(p: Word, x: seq<int>, y: seq<int>)
    requires p.Pointer? && |x| == |y|
    ensures var ws, n := [p, p, I64(0)] + I64s(x) + I64s(y), |x|;
            && IsMemref(ws, n) && ws[0] == ws[1] == p && ws[2] == I64(0)
            && ExtentsIn(ws, n) == x && StridesIn(ws, n) == y
  {
    var front, n := [p, p, I64(0)] + I64s(x), |x|;
    var ws := front + I64s(y);
    assert forall k :: 0 <= k < 3 + n ==> ws[k] == front[k];
    assert forall k :: 0 <= k < n ==> front[3 + k] == I64(x[k]);
    assert forall k :: 0 <= k < n ==> ws[3 + n + k] == I64(y[k]);
    forall k | 2 <= k < |ws| ensures ws[k].I64? {
      if k >= 3 + n { assert ws[k] == I64(y[k - 3 - n]); } else if k >= 3 { assert ws[k] == I64(x[k - 3]); }
    }
  }

  /** The words of an array: its data pointer twice, no offset, its extents, then its strides in elements. */
  lemma ArrayWords(a: Arg)
    requires IsArray(a) && WellFormed(a)
    ensures var ws, n := Words(a), |a.shape|;
            && IsMemref(ws, n) && ws[0] == ws[1] == Pointer(a.data) && ws[2] == I64(0)
            && ExtentsIn(ws, n) == a.shape && StridesIn(ws, n) == ElementStrides(a)
  {
    MemrefWords(Pointer(a.data), a.shape, ElementStrides(a));
  }

  // ---- where the elements are ----

  /** kDLComplex */
  predicate IsComplex(a: Arg)
    requires IsArray(a)
  {
    a.dtype % 256 == 5
  }

  /** Bytes of an element.  The launcher keeps the width of one component for complex elements of
      __cuda_array_interface__; DLPack counts the whole element. */
  function ElementBytes(a: Arg): nat
    requires IsArray(a)
  {
    if a.Dlpack? then a.dtype / 256 % 256 / 8 else if IsComplex(a) then 2 * (a.bits / 8) else a.bits / 8
  }

  /** The address of an element, as the array's producer says. */
  function ElementAddress(a: Arg, idx: seq<int>): int
    requires IsArray(a) && WellFormed(a) && |idx| == |a.shape|
  {
    match a
    case Dlpack(data, shape, strides, _) =>
      data + ElementBytes(a) * (if strides.Some? then Dot(strides.value, idx) else Position(shape, idx))
    case CudaArray(data, shape, byteStrides, _, _, _, _) =>
      data + if byteStrides.Some? then Dot(byteStrides.value, idx) else ElementBytes(a) * Position(shape, idx)
  }

  /** At every index inside the extents that it was given, a kernel reads the array's element. */
  ghost predicate ReadsElements(a: Arg)
    requires IsArray(a) && WellFormed(a)
  {
    var n := |a.shape|;
    IsMemref(Words(a), n) &&
    forall idx :: IsIndex(ExtentsIn(Words(a), n), idx) ==>
      |idx| == n && KernelAddress(Words(a), n, ElementBytes(a), idx) == ElementAddress(a, idx)
  }

  /** A byte stride that the conversion to elements keeps: a whole number of elements, and for complex
      elements none but zero; along an extent below two it does not matter. */
  predicate StrideKept(a: Arg, k: nat)
    requires a.CudaArray? && WellFormed(a) && !a.opaqueType && a.byteStrides.Some? && k < |a.shape|
  {
    var b := a.byteStrides.value[k];
    a.shape[k] < 2 || if IsComplex(a) then b == 0 else b % (a.bits / 8) == 0
  }

  // ---- strides ----

  function Unit(n: nat, k: nat): (idx: seq<int>)
    ensures |idx| == n
  {
    seq(n, j requires 0 <= j < n => if j == k then 1 else 0)
  }

  lemma {:induction false} DotZero(s: seq<int>, idx: seq<int>)
    requires |s| == |idx| && forall k :: 0 <= k < |s| ==> idx[k] == 0
    ensures Dot(s, idx) == 0
    decreases |s|
  {
    if s != [] {
      DotZero(s[1..], idx[1..]);
      assert idx[0] * s[0] == 0;
    }
  }

  lemma {:induction false} DotUnit(s: seq<int>, idx: seq<int>, k: nat)
    requires |s| == |idx| && k < |s| && forall j :: 0 <= j < |s| ==> idx[j] == if j == k then 1 else 0
    ensures Dot(s, idx) == s[k]
    decreases |s|
  {
    if k == 0 {
      DotZero(s[1..], idx[1..]);
      assert idx[0] * s[0] == s[0];
    } else {
      DotUnit(s[1..], idx[1..], k - 1);
      assert idx[0] * s[0] == 0;
    }
  }

  /** A quotient cut towards zero is exact only for multiples. */
  lemma TruncatedExact(b: int, w: int)
    requires w > 0
    ensures w * Truncate(b, w) == b <==> b % w == 0
  {
    if b % w == 0 {
      var q := b / w;
      assert b == q * w;
      MultipleModulo(q, w);
      MultipleModulo(-q, w);
      Negated(q, w);
    } else {
      var t := Truncate(b, w);
      if w * t == b {
        assert b == t * w;
        MultipleModulo(t, w);
        assert false;
      }
    }
  }

  lemma TruncatedRest(b: int, w: int)
    requires w > 0
    ensures -w < b - Truncate(b, w) * w < w
  {
    if b < 0 { Negated((-b) / w, w); }
  }

  lemma TwiceOnlyZero(b: int, q: int, w: int)
    requires w > 0 && -w < b - q * w < w
    ensures 2 * (q * w) == b ==> b == 0
  {
    if 2 * (q * w) == b { OnlyZeroFits(q, w); }
  }

  lemma TwiceProduct(w: int, q: int)
    ensures 2 * w * q == 2 * (q * w)
  {
  }

  /** Twice the quotient is exact only for zero. */
  lemma TwiceTruncated(b: int, w: int)
    requires w > 0
    ensures 2 * w * Truncate(b, w) == b <==> b == 0
  {
    var q := Truncate(b, w);
    TruncatedRest(b, w);
    TwiceOnlyZero(b, q, w);
    TwiceProduct(w, q);
    if b == 0 { assert q == 0; }
  }

  lemma StrideKeptIff(a: Arg, k: nat)
    requires a.CudaArray? && WellFormed(a) && a.byteStrides.Some? && !a.opaqueType && k < |a.shape| && a.shape[k] >= 2
    ensures ElementBytes(a) * ElementStrides(a)[k] == a.byteStrides.value[k] <==> StrideKept(a, k)
  {
    var b, w := a.byteStrides.value[k], a.bits / 8;
    TruncatedExact(b, w);
    TwiceTruncated(b, w);
  }

  // ---- the addressing law ----

  lemma CompactReads(a: Arg, idx: seq<int>)
    requires IsArray(a) && WellFormed(a) && |idx| == |a.shape|
    requires a.Dlpack? || a.byteStrides.None?
    ensures Dot(ElementStrides(a), idx) == if a.Dlpack? && a.strides.Some? then Dot(a.strides.value, idx)
                                           else Position(a.shape, idx)
  {
    if !(a.Dlpack? && a.strides.Some?) { PositionIsDot(a.shape, ElementStrides(a), idx); }
  }

  lemma StridedReads(a: Arg, idx: seq<int>)
    requires a.CudaArray? && WellFormed(a) && a.byteStrides.Some? && !a.opaqueType && IsIndex(a.shape, idx)
    requires forall k :: 0 <= k < |a.shape| ==> StrideKept(a, k)
    ensures ElementBytes(a) * Dot(ElementStrides(a), idx) == Dot(a.byteStrides.value, idx)
  {
    forall k | 0 <= k < |a.shape| && idx[k] != 0
      ensures ElementBytes(a) * ElementStrides(a)[k] == a.byteStrides.value[k]
    {
      StrideKeptIff(a, k);
    }
    DotScaled(ElementBytes(a), ElementStrides(a), a.byteStrides.value, idx);
  }

  /** The element next to the first along an axis whose stride is not kept is misread. */
  lemma UnkeptMisreads(a: Arg, k: nat)
    requires a.CudaArray? && WellFormed(a) && a.byteStrides.Some? && !a.opaqueType
    requires Positive(a.shape) && k < |a.shape| && !StrideKept(a, k)
    ensures var idx := Unit(|a.shape|, k);
            && IsMemref(Words(a), |a.shape|) && IsIndex(a.shape, idx)
            && KernelAddress(Words(a), |a.shape|, ElementBytes(a), idx) != ElementAddress(a, idx)
  {
    ArrayWords(a);
    var idx := Unit(|a.shape|, k);
    DotUnit(ElementStrides(a), idx, k);
    DotUnit(a.byteStrides.value, idx, k);
    StrideKeptIff(a, k);
  }

  /** A kernel reads every element of an array where its producer put it, exactly if the array is
      described by DLPack or has no strides or no elements, or if every stride is kept. */
  lemma ReadsElementsIff(a: Arg)
    requires IsArray(a) && WellFormed(a) && (a.CudaArray? ==> !a.opaqueType)
    ensures ReadsElements(a) <==>
            || a.Dlpack? || a.byteStrides.None? || !Positive(a.shape)
            || forall k :: 0 <= k < |a.shape| ==> StrideKept(a, k)
  {
    ArrayWords(a);
    if a.Dlpack? || a.byteStrides.None? {
      forall idx | IsIndex(a.shape, idx)
        ensures KernelAddress(Words(a), |a.shape|, ElementBytes(a), idx) == ElementAddress(a, idx)
      {
        CompactReads(a, idx);
      }
    } else if Positive(a.shape) {
      if k :| 0 <= k < |a.shape| && !StrideKept(a, k) {
        UnkeptMisreads(a, k);
      } else {
        forall idx | IsIndex(a.shape, idx)
          ensures KernelAddress(Words(a), |a.shape|, ElementBytes(a), idx) == ElementAddress(a, idx)
        {
          StridedReads(a, idx);
        }
      }
    }
  }

  /** Every other element of complex128 data: the second one is read 64 bytes on, not 32. */
  lemma StridedComplexMisread(a: Arg)
    requires a.CudaArray? && WellFormed(a) && !a.opaqueType && IsComplex(a) && a.bits == 64
    requires a.shape == [2] && a.byteStrides == Some([32])
    ensures IsMemref(Words(a), 1)
    ensures KernelAddress(Words(a), 1, ElementBytes(a), [1]) == a.data + 64 && ElementAddress(a, [1]) == a.data + 32
  {
    ArrayWords(a);
    DotUnit(ElementStrides(a), [1], 0);
    DotUnit(a.byteStrides.value, [1], 0);
  }

  /** A float64 field of packed records of 12 bytes: the second one is read 8 bytes on. */
  lemma PackedFieldMisread(a: Arg)
    requires a.CudaArray? && WellFormed(a) && !a.opaqueType && !IsComplex(a) && a.bits == 64
    requires a.shape == [2] && a.byteStrides == Some([12])
    ensures IsMemref(Words(a), 1)
    ensures KernelAddress(Words(a), 1, ElementBytes(a), [1]) == a.data + 8 && ElementAddress(a, [1]) == a.data + 12
  {
    ArrayWords(a);
    DotUnit(ElementStrides(a), [1], 0);
    DotUnit(a.byteStrides.value, [1], 0);
  }

  // ---- arrays of records ----

  /** The address of record i: kernels index such an array by the size of a record, whatever its strides. */
  function RecordAddress(ws: seq<Word>, size: nat, i: int): int
    requires IsMemref(ws, 1)
  {
    ws[1].address + i * size
  }

  /** A kernel reads every record where it is exactly if the array has no strides or fewer than two
      records, or if they are one record apart. */
  lemma RecordsReadIff(a: Arg, size: nat)
    requires a.CudaArray? && WellFormed(a) && a.opaqueType && |a.shape| == 1
    ensures IsMemref(Words(a), 1)
    ensures (forall i :: 0 <= i < a.shape[0] ==>
               RecordAddress(Words(a), size, i) ==
               a.data + i * if a.byteStrides.Some? then a.byteStrides.value[0] else size) <==>
            a.byteStrides.None? || a.shape[0] < 2 || a.byteStrides.value[0] == size
  {
    ArrayWords(a);
    if a.shape[0] >= 2 { assert RecordAddress(Words(a), size, 1) == a.data + size; }
    if a.shape[0] < 2 {
      forall i | 0 <= i < a.shape[0] ensures RecordAddress(Words(a), size, i) == a.data {
        assert i == 0;
      }
    }
  }

  // ---- what does not fit ----

  lemma QuotientSmaller(n: nat, w: int)
    requires w > 0
    ensures 0 <= n / w <= n
  {
    assert n == w * (n / w) + n % w;
    if n / w >= 1 { ProductAtLeast(w, n / w); }
  }

  lemma TruncatedFits(b: int, w: int)
    requires w > 0 && FitsInt64(b)
    ensures FitsInt64(Truncate(b, w))
  {
    QuotientSmaller(if b >= 0 then b else -b, w);
  }

  /** The extents and strides that an array comes with are 64-bit numbers. */
  ghost predicate Fits64(a: Arg)
    requires IsArray(a) && WellFormed(a)
  {
    && AllFit(a.shape)
    && (a.Dlpack? && a.strides.Some? ==> AllFit(a.strides.value))
    && (a.CudaArray? && a.byteStrides.Some? ==> AllFit(a.byteStrides.value))
  }

  /** Every number among the words is a 64-bit one. */
  predicate NumbersFit(ws: seq<Word>) {
    forall k :: 0 <= k < |ws| && ws[k].I64? ==> FitsInt64(ws[k].v)
  }

  lemma NumbersFitIff(ws: seq<Word>, n: nat)
    requires IsMemref(ws, n) && ws[2] == I64(0) && AllFit(ExtentsIn(ws, n))
    ensures NumbersFit(ws) <==> AllFit(StridesIn(ws, n))
  {
    var x, y := ExtentsIn(ws, n), StridesIn(ws, n);
    if AllFit(y) {
      forall k | 0 <= k < |ws| && ws[k].I64? ensures FitsInt64(ws[k].v) {
        if k >= 3 + n { assert ws[k].v == y[k - 3 - n]; } else if k >= 3 { assert ws[k].v == x[k - 3]; }
      }
    } else {
      var k :| 0 <= k < n && !FitsInt64(y[k]);
      assert ws[3 + n + k].v == y[k];
    }
  }

  /** An array is refused exactly if it has too many dimensions for the key, which is a TypeError, or one
      of its words would not fit 64 bits, which is an OverflowError. */
  lemma RefusedIff(a: Arg)
    requires IsArray(a) && WellFormed(a) && Fits64(a)
    ensures Failure(a) == if |a.shape| >= TWO_32 then Some(TypeError)
                          else if NumbersFit(Words(a)) then None else Some(OverflowError)
  {
    ArrayWords(a);
    NumbersFitIff(Words(a), |a.shape|);
    if a.CudaArray? && a.byteStrides.Some? {
      forall k | 0 <= k < |a.shape| ensures FitsInt64(ElementStrides(a)[k]) {
        TruncatedFits(a.byteStrides.value[k], if a.opaqueType then 1 else a.bits / 8);
      }
    }
  }
}
