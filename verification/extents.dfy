/** Byte extents of a strided buffer. */
module Extents {

  datatype Extent = Range(start: int, end: int) | ValueError(message: string)

  /** What the negative strides of the first n dimensions subtract. */
  function LowReach(shape: seq<int>, strides: seq<int>, n: nat): int
    requires n <= |shape| && n <= |strides|
  {
    if n == 0 then 0
    else LowReach(shape, strides, n - 1) + if strides[n - 1] < 0 then strides[n - 1] * (shape[n - 1] - 1) else 0
  }

  /** What the positive strides of the first n dimensions add. */
  function HighReach(shape: seq<int>, strides: seq<int>, n: nat): int
    requires n <= |shape| && n <= |strides|
  {
    if n == 0 then 0
    else HighReach(shape, strides, n - 1) + if strides[n - 1] > 0 then strides[n - 1] * (shape[n - 1] - 1) else 0
  }

  /** Byte offset of the element at an index vector. */
  function Offset(strides: seq<int>, idx: seq<int>): int
    requires |idx| <= |strides|
    decreases |idx|
  {
    if idx == [] then 0
    else Offset(strides, idx[..|idx| - 1]) + idx[|idx| - 1] * strides[|idx| - 1]
  }

  ghost predicate IsIndex(shape: seq<int>, idx: seq<int>) {
    |idx| == |shape| && forall k :: 0 <= k < |idx| ==> 0 <= idx[k] < shape[k]
  }

  /** [start, end) is the exact hull of the bytes of all elements at ptr. */
  ghost predicate IsHull(shape: seq<int>, strides: seq<int>, itemsize: int, ptr: int, start: int, end: int)
    requires |shape| == |strides|
  {
    && (forall idx :: IsIndex(shape, idx) ==>
          start <= ptr + Offset(strides, idx) && ptr + Offset(strides, idx) + itemsize <= end)
    && (exists idx :: IsIndex(shape, idx) && ptr + Offset(strides, idx) == start)
    && (exists idx :: IsIndex(shape, idx) && ptr + Offset(strides, idx) + itemsize == end)
  }

  ghost predicate Positive(shape: seq<int>) {
    forall k :: 0 <= k < |shape| ==> shape[k] > 0
  }

  /** get_extents */
  method GetExtents(shape: array?<int>, strides: array?<int>, ndim: int, itemsize: int, ptr: int) returns (r: Extent)
    requires ndim >= 0 && shape != null ==> shape.Length >= ndim
    requires ndim >= 0 && strides != null ==> strides.Length >= ndim
    ensures ndim < 0 ==> r == ValueError("buffer ndim < 0")
    ensures ndim >= 0 && shape == null ==>
              r == if ndim == 0 then Range(ptr, ptr + itemsize) else ValueError("buffer shape is not defined")
    ensures ndim >= 0 && shape != null && strides == null ==> r == ValueError("buffer strides is not defined")
    ensures ndim >= 0 && shape != null && strides != null && 0 in shape[..ndim] ==> r == Range(ptr, ptr)
    ensures ndim >= 0 && shape != null && strides != null && 0 !in shape[..ndim] ==>
              r == Range(ptr + LowReach(shape[..ndim], strides[..ndim], ndim),
                         ptr + HighReach(shape[..ndim], strides[..ndim], ndim) + itemsize)
    ensures ndim >= 0 && shape != null && strides != null && Positive(shape[..ndim]) ==>
              r.Range? && IsHull(shape[..ndim], strides[..ndim], itemsize, ptr, r.start, r.end)
  {
    if ndim < 0 { return ValueError("buffer ndim < 0"); }
    if shape == null {
      if ndim == 0 { return Range(ptr, ptr + itemsize); }
      return ValueError("buffer shape is not defined");
    }
    if strides == null { return ValueError("buffer strides is not defined"); }
    var start, end := ptr, ptr;
    var idim := 0;
    while idim < ndim
      invariant 0 <= idim <= ndim
      invariant start == ptr + LowReach(shape[..], strides[..], idim)
      invariant end == ptr + HighReach(shape[..], strides[..], idim)
      invariant 0 !in shape[..idim]
    {
      var stride, dim := strides[idim], shape[idim];
      if dim == 0 { return Range(ptr, ptr); }
      if stride > 0 {
        end := end + stride * (dim - 1);
      } else if stride < 0 {
        start := start + stride * (dim - 1);
      }
      idim := idim + 1;
      assert shape[..idim] == shape[..idim - 1] + [dim];
    }
    r := Range(start, end + itemsize);
    ReachPrefix(shape[..], strides[..], ndim, ndim);
    assert shape[..][..ndim] == shape[..ndim] && strides[..][..ndim] == strides[..ndim];
    if Positive(shape[..ndim]) {
      HullExact(shape[..ndim], strides[..ndim], itemsize, ptr);
    }
  }

  lemma {:induction false} ReachPrefix(shape: seq<int>, strides: seq<int>, n: nat, k: nat)
    requires k <= n <= |shape| && n <= |strides|
    ensures LowReach(shape[..n], strides[..n], k) == LowReach(shape, strides, k)
    ensures HighReach(shape[..n], strides[..n], k) == HighReach(shape, strides, k)
    decreases k
  {
    if k > 0 { ReachPrefix(shape, strides, n, k - 1); }
  }

  /** One dimension: an index between the ends contributes between their contributions. */
  lemma Between(i: int, dim: int, stride: int)
    requires 0 <= i < dim
    ensures stride > 0 ==> 0 <= i * stride <= stride * (dim - 1)
    ensures stride < 0 ==> stride * (dim - 1) <= i * stride <= 0
    ensures stride == 0 ==> i * stride == 0
  {
    Products(i, dim - 1, if stride >= 0 then stride else -stride);
  }

  lemma {:induction false} Products(i: nat, n: nat, s: nat)
    requires i <= n
    ensures 0 <= i * s <= s * n
    decreases s
  {
    if s > 0 {
      Products(i, n, s - 1);
      assert i * s == i * (s - 1) + i && s * n == (s - 1) * n + n;
    }
  }

  lemma {:induction false} Bounds(shape: seq<int>, strides: seq<int>, idx: seq<int>, n: nat)
    requires n == |idx| <= |shape| && |shape| == |strides|
    requires forall k :: 0 <= k < n ==> 0 <= idx[k] < shape[k]
    ensures LowReach(shape, strides, n) <= Offset(strides, idx) <= HighReach(shape, strides, n)
    decreases n
  {
    if n > 0 {
      Bounds(shape, strides, idx[..n - 1], n - 1);
      Between(idx[n - 1], shape[n - 1], strides[n - 1]);
    }
  }

  lemma Ends(dim: int, stride: int) returns (i: int, j: int)
    requires dim > 0
    ensures 0 <= i < dim && i * stride == if stride < 0 then stride * (dim - 1) else 0
    ensures 0 <= j < dim && j * stride == if stride > 0 then stride * (dim - 1) else 0
  {
    i, j := if stride < 0 then dim - 1 else 0, if stride > 0 then dim - 1 else 0;
  }

  /** The indices at which the reaches are attained. */
  lemma {:induction false} Attained(shape: seq<int>, strides: seq<int>, n: nat) returns (lo: seq<int>, hi: seq<int>)
    requires n <= |shape| && |shape| == |strides| && Positive(shape)
    ensures |lo| == n && |hi| == n
    ensures forall k :: 0 <= k < n ==> 0 <= lo[k] < shape[k] && 0 <= hi[k] < shape[k]
    ensures Offset(strides, lo) == LowReach(shape, strides, n)
    ensures Offset(strides, hi) == HighReach(shape, strides, n)
    decreases n
  {
    if n == 0 {
      lo, hi := [], [];
    } else {
      var a, b := Attained(shape, strides, n - 1);
      var dim, stride := shape[n - 1], strides[n - 1];
      var i, j := Ends(dim, stride);
      lo, hi := a + [i], b + [j];
      assert lo[..n - 1] == a && hi[..n - 1] == b;
    }
  }

  lemma HullExact(shape: seq<int>, strides: seq<int>, itemsize: int, ptr: int)
    requires |shape| == |strides| && Positive(shape)
    ensures IsHull(shape, strides, itemsize, ptr, ptr + LowReach(shape, strides, |shape|),
                   ptr + HighReach(shape, strides, |shape|) + itemsize)
  {
    var lo, hi := Attained(shape, strides, |shape|);
    assert IsIndex(shape, lo) && IsIndex(shape, hi);
    forall idx | IsIndex(shape, idx)
      ensures LowReach(shape, strides, |shape|) <= Offset(strides, idx) <= HighReach(shape, strides, |shape|)
    {
      Bounds(shape, strides, idx, |shape|);
    }
  }
}
