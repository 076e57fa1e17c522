/** Compact row-major strides, and the layout letter of an array. */
module Strides {
  import opened Arithmetic
  import opened Lru

  const INT64_MIN := -0x8000_0000_0000_0000
  const INT64_MAX := 0x7fff_ffff_ffff_ffff

  function Product(s: seq<int>): int {
    if s == [] then 1 else s[0] * Product(s[1..])
  }

  ghost predicate Positive(s: seq<int>) {
    forall k :: 0 <= k < |s| ==> s[k] > 0
  }

  predicate FitsInt64(x: int) {
    INT64_MIN <= x <= INT64_MAX
  }

  lemma {:induction false} ProductAppend(s: seq<int>, t: seq<int>)
    ensures Product(s + t) == Product(s) * Product(t)
    decreases |s|
  {
    if s == [] {
      assert s + t == t;
    } else {
      assert (s + t)[1..] == s[1..] + t;
      ProductAppend(s[1..], t);
      Reassociate(s[0], Product(s[1..]), Product(t));
    }
  }

  lemma Reassociate(x: int, y: int, z: int)
    ensures x * (y * z) == (x * y) * z
  {
  }

  lemma Scale(itemsize: int, p: int, extent: int)
    ensures itemsize * p * extent == itemsize * (extent * p)
  {
  }

  lemma {:induction false} ProductPositive(s: seq<int>)
    requires Positive(s)
    ensures Product(s) > 0
  {
    if s != [] {
      ProductPositive(s[1..]);
      ProductAtLeast(s[0], Product(s[1..]));
    }
  }

  // ---- compute_compact_row_major_strides ----

  /** The stride of dimension k is the number of elements of one step along it. */
  function CompactStride(shapes: seq<int>, k: nat): int
    requires k < |shapes|
  {
    Product(shapes[k + 1..])
  }

  method ComputeCompactRowMajorStrides(shapes: seq<int>, strides: array<int>) returns (ok: bool)
    requires strides.Length == |shapes|
    modifies strides
    ensures ok <==> forall k :: 0 <= k < |shapes| - 1 ==> FitsInt64(CompactStride(shapes, k))
    ensures ok ==> forall k :: 0 <= k < |shapes| ==> strides[k] == CompactStride(shapes, k)
  {
    var ndim := |shapes|;
    if ndim == 0 { return true; }
    strides[ndim - 1] := 1;
    assert shapes[ndim..] == [];
    for i := 0 to ndim - 1
      invariant forall k :: ndim - 1 - i <= k < ndim ==> strides[k] == CompactStride(shapes, k)
      invariant forall k :: ndim - 1 - i <= k < ndim - 1 ==> FitsInt64(CompactStride(shapes, k))
    {
      var idx := ndim - 2 - i;
      strides[idx] := strides[idx + 1] * shapes[idx + 1];
      assert shapes[idx + 1..][1..] == shapes[idx + 2..];
      assert strides[idx] == CompactStride(shapes, idx);
      if !FitsInt64(strides[idx]) { return false; }
    }
    ok := true;
  }

  // ---- row-major indexing ----

  ghost predicate IsIndex(shapes: seq<int>, idx: seq<int>) {
    |idx| == |shapes| && forall k :: 0 <= k < |idx| ==> 0 <= idx[k] < shapes[k]
  }

  /** Position of an index vector under the compact strides. */
  function Position(shapes: seq<int>, idx: seq<int>): int
    requires |idx| == |shapes|
  {
    if shapes == [] then 0 else idx[0] * CompactStride(shapes, 0) + Position(shapes[1..], idx[1..])
  }

  /** The same as the sum of idx[k] * strides[k]. */
  function Dot(strides: seq<int>, idx: seq<int>): int
    requires |strides| == |idx|
  {
    if idx == [] then 0 else idx[0] * strides[0] + Dot(strides[1..], idx[1..])
  }

  lemma {:induction false} PositionIsDot(shapes: seq<int>, strides: seq<int>, idx: seq<int>)
    requires |shapes| == |strides| == |idx|
    requires forall k :: 0 <= k < |shapes| ==> strides[k] == CompactStride(shapes, k)
    ensures Dot(strides, idx) == Position(shapes, idx)
  {
    if shapes != [] {
      forall k | 0 <= k < |shapes| - 1 ensures strides[1..][k] == CompactStride(shapes[1..], k) {
        assert shapes[1..][k + 1..] == shapes[k + 2..];
        assert strides[1..][k] == strides[k + 1];
      }
      PositionIsDot(shapes[1..], strides[1..], idx[1..]);
    }
  }

  /** The index vector at a position. */
  function IndexAt(shapes: seq<int>, p: int): (idx: seq<int>)
    requires Positive(shapes)
    ensures |idx| == |shapes|
  {
    if shapes == [] then []
    else
      ProductPositive(shapes[1..]);
      var stride := CompactStride(shapes, 0);
      [p / stride] + IndexAt(shapes[1..], p % stride)
  }

  lemma QuotientBounds(p: int, extent: int, stride: int)
    requires stride > 0 && 0 <= p < extent * stride
    ensures 0 <= p / stride < extent
  {
    var q := p / stride;
    assert p == q * stride + p % stride;
    if q >= extent {
      Distribute(q - extent, extent, stride);
      if q > extent { ProductAtLeast(q - extent, stride); }
    } else if q < 0 {
      ProductAtLeast(-q, stride);
    }
  }

  lemma IndexCons(shapes: seq<int>, first: int, rest: seq<int>)
    requires shapes != [] && 0 <= first < shapes[0] && IsIndex(shapes[1..], rest)
    ensures IsIndex(shapes, [first] + rest)
    ensures Position(shapes, [first] + rest) == first * CompactStride(shapes, 0) + Position(shapes[1..], rest)
  {
    var idx := [first] + rest;
    assert idx[1..] == rest;
    forall k | 0 <= k < |idx| ensures 0 <= idx[k] < shapes[k] {
      if k > 0 { assert 0 <= rest[k - 1] < shapes[1..][k - 1]; }
    }
  }

  lemma QuotientSplit(p: int, stride: int)
    requires stride > 0
    ensures (p / stride) * stride + p % stride == p
  {
  }

  /** Every position below the product is the position of its index vector. */
  lemma {:induction false} PositionOfIndexAt(shapes: seq<int>, p: int)
    requires Positive(shapes) && 0 <= p < Product(shapes)
    ensures IsIndex(shapes, IndexAt(shapes, p)) && Position(shapes, IndexAt(shapes, p)) == p
    decreases |shapes|
  {
    if shapes != [] {
      ProductPositive(shapes[1..]);
      var stride := CompactStride(shapes, 0);
      QuotientBounds(p, shapes[0], stride);
      PositionOfIndexAt(shapes[1..], p % stride);
      IndexCons(shapes, p / stride, IndexAt(shapes[1..], p % stride));
      QuotientSplit(p, stride);
    }
  }

  /** Every index vector has a position below the product, and is the index vector at it. */
  lemma {:induction false} IndexAtPosition(shapes: seq<int>, idx: seq<int>)
    requires Positive(shapes) && IsIndex(shapes, idx)
    ensures 0 <= Position(shapes, idx) < Product(shapes) && IndexAt(shapes, Position(shapes, idx)) == idx
    decreases |shapes|
  {
    if shapes != [] {
      var stride := CompactStride(shapes, 0);
      ProductPositive(shapes[1..]);
      IndexAtPosition(shapes[1..], idx[1..]);
      var p, r := Position(shapes, idx), Position(shapes[1..], idx[1..]);
      QuotientUnique(p, stride, idx[0], r);
      Distribute(shapes[0] - idx[0], idx[0], stride);
      ProductAtLeast(shapes[0] - idx[0], stride);
      if idx[0] > 0 { ProductAtLeast(idx[0], stride); }
      assert idx == [idx[0]] + idx[1..];
    }
  }

  /** Under the compact strides the index vectors of positive extents map one to one ... */
  lemma CompactStridesInjective(shapes: seq<int>, strides: seq<int>, a: seq<int>, b: seq<int>)
    requires Positive(shapes) && |strides| == |shapes| && IsIndex(shapes, a) && IsIndex(shapes, b)
    requires forall k :: 0 <= k < |shapes| ==> strides[k] == CompactStride(shapes, k)
    ensures 0 <= Dot(strides, a) < Product(shapes)
    ensures Dot(strides, a) == Dot(strides, b) <==> a == b
  {
    PositionIsDot(shapes, strides, a);
    PositionIsDot(shapes, strides, b);
    IndexAtPosition(shapes, a);
    IndexAtPosition(shapes, b);
  }

  /** ... onto 0 .. product - 1. */
  lemma CompactStridesSurjective(shapes: seq<int>, strides: seq<int>, p: int) returns (idx: seq<int>)
    requires Positive(shapes) && |strides| == |shapes| && 0 <= p < Product(shapes)
    requires forall k :: 0 <= k < |shapes| ==> strides[k] == CompactStride(shapes, k)
    ensures IsIndex(shapes, idx) && Dot(strides, idx) == p
  {
    idx := IndexAt(shapes, p);
    PositionOfIndexAt(shapes, p);
    PositionIsDot(shapes, strides, idx);
  }

  lemma EarlierFirst(i: int, j: int, stride: int, r: int, q: int)
    requires i < j && 0 <= r < stride && 0 <= q
    ensures i * stride + r < j * stride + q
  {
    ProductAtLeast(j - i, stride);
    Distribute(j - i, i, stride);
  }

  /** The last dimension varies fastest: positions are ordered as index vectors are, first index first. */
  lemma {:induction false} RowMajorOrder(shapes: seq<int>, a: seq<int>, b: seq<int>, k: nat)
    requires Positive(shapes) && IsIndex(shapes, a) && IsIndex(shapes, b) && k < |shapes|
    requires a[..k] == b[..k] && a[k] < b[k]
    ensures Position(shapes, a) < Position(shapes, b)
    decreases |shapes|
  {
    var stride := CompactStride(shapes, 0);
    IndexAtPosition(shapes[1..], a[1..]);
    IndexAtPosition(shapes[1..], b[1..]);
    if k == 0 {
      EarlierFirst(a[0], b[0], stride, Position(shapes[1..], a[1..]), Position(shapes[1..], b[1..]));
    } else {
      assert a[0] == a[..k][0] && b[..k][0] == b[0];
      assert a[1..][..k - 1] == a[..k][1..] && b[1..][..k - 1] == b[..k][1..];
      RowMajorOrder(shapes[1..], a[1..], b[1..], k - 1);
    }
  }

  // ---- _array_layout ----

  /** itemsize times the compact strides. */
  function RowMajor(shape: seq<int>, itemsize: int): seq<int> {
    seq(|shape|, k requires 0 <= k < |shape| => itemsize * CompactStride(shape, k))
  }

  /** The mirrored strides: the first dimension varies fastest. */
  function ColumnMajor(shape: seq<int>, itemsize: int): seq<int> {
    seq(|shape|, k requires 0 <= k < |shape| => itemsize * Product(shape[..k]))
  }

  function Reverse<T>(s: seq<T>): (r: seq<T>)
    ensures |r| == |s|
  {
    seq(|s|, k requires 0 <= k < |s| => s[|s| - 1 - k])
  }

  lemma {:induction false} ReverseProduct(s: seq<int>)
    ensures Product(Reverse(s)) == Product(s)
    decreases |s|
  {
    if s != [] {
      ReverseProduct(s[1..]);
      assert Reverse(s) == Reverse(s[1..]) + [s[0]];
      ProductAppend(Reverse(s[1..]), [s[0]]);
      assert [s[0]][1..] == [];
    }
  }

  /** ColumnMajor is RowMajor seen in a mirror. */
  lemma Mirrored(shape: seq<int>, itemsize: int)
    ensures ColumnMajor(shape, itemsize) == Reverse(RowMajor(Reverse(shape), itemsize))
  {
    var n := |shape|;
    forall k | 0 <= k < n
      ensures ColumnMajor(shape, itemsize)[k] == Reverse(RowMajor(Reverse(shape), itemsize))[k]
    {
      assert Reverse(shape)[n - k..] == Reverse(shape[..k]);
      ReverseProduct(shape[..k]);
    }
  }

  lemma {:induction false} DotScaled(bytes: int, s: seq<int>, t: seq<int>, idx: seq<int>)
    requires |s| == |t| == |idx| && forall k :: 0 <= k < |s| && idx[k] != 0 ==> bytes * s[k] == t[k]
    ensures bytes * Dot(s, idx) == Dot(t, idx)
    decreases |s|
  {
    if s != [] {
      DotScaled(bytes, s[1..], t[1..], idx[1..]);
      ScaleSum(bytes, idx[0], s[0], Dot(s[1..], idx[1..]));
      if idx[0] == 0 { assert idx[0] * t[0] == 0; }
    }
  }

  lemma ScaleSum(bytes: int, i: int, s: int, rest: int)
    ensures bytes * (i * s + rest) == i * (bytes * s) + bytes * rest
  {
    assert bytes * (i * s + rest) == bytes * (i * s) + bytes * rest;
    assert bytes * (i * s) == i * (bytes * s);
  }

  lemma {:induction false} DotAppend(a: seq<int>, x: int, i: seq<int>, j: int)
    requires |a| == |i|
    ensures Dot(a + [x], i + [j]) == Dot(a, i) + j * x
    decreases |a|
  {
    if a == [] {
      assert [x][1..] == [] && [j][1..] == [] && a + [x] == [x] && i + [j] == [j];
    } else {
      assert (a + [x])[1..] == a[1..] + [x] && (i + [j])[1..] == i[1..] + [j];
      DotAppend(a[1..], x, i[1..], j);
    }
  }

  lemma {:induction false} DotReversed(a: seq<int>, i: seq<int>)
    requires |a| == |i|
    ensures Dot(Reverse(a), Reverse(i)) == Dot(a, i)
    decreases |a|
  {
    if a != [] {
      DotReversed(a[1..], i[1..]);
      assert Reverse(a) == Reverse(a[1..]) + [a[0]] && Reverse(i) == Reverse(i[1..]) + [i[0]];
      DotAppend(Reverse(a[1..]), a[0], Reverse(i[1..]), i[0]);
    } else {
      assert Reverse(a) == [] && Reverse(i) == [];
    }
  }

  /** Under the row-major strides an element's byte offset is its position times the item size, ... */
  lemma RowMajorOffsets(shape: seq<int>, itemsize: int, idx: seq<int>)
    requires |shape| == |idx|
    ensures Dot(RowMajor(shape, itemsize), idx) == itemsize * Position(shape, idx)
  {
    var strides := seq(|shape|, k requires 0 <= k < |shape| => CompactStride(shape, k));
    PositionIsDot(shape, strides, idx);
    DotScaled(itemsize, strides, RowMajor(shape, itemsize), idx);
  }

  /** ... and under the column-major ones that of the reversed index in the reversed shape. */
  lemma ColumnMajorOffsets(shape: seq<int>, itemsize: int, idx: seq<int>)
    requires |shape| == |idx|
    ensures Dot(ColumnMajor(shape, itemsize), idx) == itemsize * Position(Reverse(shape), Reverse(idx))
  {
    RowMajorOffsets(Reverse(shape), itemsize, Reverse(idx));
    Mirrored(shape, itemsize);
    DotReversed(RowMajor(Reverse(shape), itemsize), Reverse(idx));
    assert Reverse(Reverse(idx)) == idx;
  }

  /** _array_layout: ndim and shape as the attributes give them, the Numba type's layout when it is
      an array type; None when the shape is missing and cannot be reversed. */
  method ArrayLayout(ndim: Option<nat>, shape: Option<seq<int>>, tyLayout: Option<char>, strides: Option<seq<int>>,
        itemsize: int)
      returns (layout: Option<char>)
    ensures ndim.None? && shape.None? && tyLayout.Some? ==> layout == tyLayout
    ensures ndim.None? && shape.None? && tyLayout.None? ==> layout == Some('C')
    ensures ndim.Some? || shape.Some? ==>
              var rank := if ndim.Some? then ndim.value else |shape.value|;
              if rank == 0 || strides.None? then layout == Some('C')
              else if shape.None? then layout == None
              else
                && (layout == Some('C') <==> strides.value == RowMajor(shape.value, itemsize))
                && (layout == Some('F') <==>
                      && strides.value != RowMajor(shape.value, itemsize)
                      && strides.value == ColumnMajor(shape.value, itemsize))
                && (layout == Some('A') <==>
                      && strides.value != RowMajor(shape.value, itemsize)
                      && strides.value != ColumnMajor(shape.value, itemsize))
  {
    var rank: nat;
    if ndim.None? {
      if shape.None? {
        if tyLayout.Some? { return tyLayout; }
        rank := 0;
      } else {
        rank := |shape.value|;
      }
    } else {
      rank := ndim.value;
    }
    if rank == 0 { return Some('C'); }
    if strides.None? { return Some('C'); }
    if shape.None? { return None; }
    var extents := shape.value;
    var cStrides := RowMajorStrides(extents, itemsize);
    if strides.value == cStrides { return Some('C'); }
    var fStrides := ColumnMajorStrides(extents, itemsize);
    if strides.value == fStrides { return Some('F'); }
    layout := Some('A');
  }

  /** Accumulate over the reversed shape, then reverse. */
  method RowMajorStrides(shape: seq<int>, itemsize: int) returns (cStrides: seq<int>)
    ensures cStrides == RowMajor(shape, itemsize)
  {
    var cStride := itemsize;
    cStrides := [];
    var n := |shape|;
    assert shape[n..] == [];
    for i := 0 to n
      invariant |cStrides| == i && cStride == itemsize * Product(shape[n - i..])
      invariant forall k :: 0 <= k < i ==> cStrides[k] == itemsize * Product(shape[n - k..])
    {
      cStrides := cStrides + [cStride];
      var extent := shape[n - 1 - i];
      assert shape[n - 1 - i..][1..] == shape[n - i..];
      Scale(itemsize, Product(shape[n - i..]), extent);
      cStride := cStride * extent;
    }
    cStrides := Reverse(cStrides);
  }

  method ColumnMajorStrides(shape: seq<int>, itemsize: int) returns (fStrides: seq<int>)
    ensures fStrides == ColumnMajor(shape, itemsize)
  {
    var fStride := itemsize;
    fStrides := [];
    for i := 0 to |shape|
      invariant |fStrides| == i && fStride == itemsize * Product(shape[..i])
      invariant forall k :: 0 <= k < i ==> fStrides[k] == itemsize * Product(shape[..k])
    {
      fStrides := fStrides + [fStride];
      assert shape[..i + 1] == shape[..i] + [shape[i]] && [shape[i]][1..] == [];
      ProductAppend(shape[..i], [shape[i]]);
      Reassociate(itemsize, Product(shape[..i]), shape[i]);
      fStride := fStride * shape[i];
    }
  }
}
