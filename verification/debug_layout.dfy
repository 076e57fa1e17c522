/** Debug-information layout of tuples: sizes, alignments and member offsets in bits. */
module DebugLayout {
  import opened Arithmetic
  import opened Lru
  import opened NumbaTypes

  const BYTE_SIZE_BITS := 8

  /** offsets of the members, total size, alignment. */
  datatype Layout = Layout(offsets: seq<nat>, size: nat, alignment: nat)

  // ---- the layout functions ----

  /** _strip_literal_type */
  function Strip(t: Ty): (r: Ty)
    ensures r == t || r < t
  {
    if t.Literal? then t.base else t
  }

  /** _align_to_bits */
  function AlignTo(offset: nat, alignment: nat): (r: nat)
    requires alignment > 0
    ensures offset <= r < offset + alignment && r % alignment == 0
    ensures forall m :: offset <= m && m % alignment == 0 ==> r <= m
  {
    var r := if offset % alignment == 0 then offset else offset + alignment - offset % alignment;
    AlignedIsLeast(offset, alignment, r);
    r
  }

  lemma AlignedIsLeast(offset: nat, alignment: nat, r: nat)
    requires alignment > 0
    requires r == if offset % alignment == 0 then offset else offset + alignment - offset % alignment
    ensures r % alignment == 0
    ensures forall m :: offset <= m && m % alignment == 0 ==> r <= m
  {
    var q := offset / alignment;
    assert offset == q * alignment + offset % alignment;
    if offset % alignment != 0 {
      Distribute(q, 1, alignment);
      MultipleModulo(q + 1, alignment);
      forall m | offset <= m && m % alignment == 0 ensures r <= m {
        assert m == (m / alignment) * alignment;
        NextMultiple(m / alignment, q, alignment);
      }
    }
  }

  lemma NextMultiple(k: int, q: int, a: nat)
    requires a > 0 && k * a > q * a
    ensures k * a >= (q + 1) * a
  {
    Distribute(k, -q, a);
    assert (k - q) * a > 0;
    if k - q >= 1 {
      ProductAtLeast(k - q, a);
      Distribute(q, 1, a);
    } else {
      Distribute(q, -k, a);
      if q > k { ProductAtLeast(q - k, a); }
    }
  }

  /** _type_size_bits */
  function SizeBits(t: Ty): Option<nat>
    decreases t, 1
  {
    match Strip(t)
    case Boolean => Some(BYTE_SIZE_BITS)
    case Integer(bits, _) => Some(bits)
    case Float(bits) => Some(bits)
    case UniTuple(dtype, count) =>
      (match SizeBits(dtype)
       case None => None
       case Some(n) => Some(n * count))
    case Tuple(types) =>
      (match StructLayout(types, Strip(t))
       case None => None
       case Some(l) => Some(l.size))
    case Record(size) => Some(size * BYTE_SIZE_BITS)
    case _ => None
  }

  /** _type_alignment_bits; a record has a size but no alignment. */
  function AlignmentBits(t: Ty): Option<nat>
    decreases t, 1
  {
    match Strip(t)
    case Boolean => Some(BYTE_SIZE_BITS)
    case Integer(bits, _) => Some(bits)
    case Float(bits) => Some(bits)
    case UniTuple(dtype, _) => AlignmentBits(dtype)
    case Tuple(types) =>
      (match StructLayout(types, Strip(t))
       case None => None
       case Some(l) => Some(l.alignment))
    case _ => None
  }

  /** _llvm_struct_layout_bits */
  function StructLayout(types: seq<Ty>, ghost whole: Ty): Option<Layout>
    requires forall i :: 0 <= i < |types| ==> types[i] < whole
    decreases whole, 0, |types| + 1
  {
    match Place(types, 0, BYTE_SIZE_BITS, whole)
    case None => None
    case Some((offsets, end, alignment)) =>
      if alignment == 0 then None else Some(Layout(offsets, AlignTo(end, alignment), alignment))
  }

  function Max(a: nat, b: nat): nat {
    if a > b then a else b
  }

  function Prefix(front: seq<nat>, o: Option<(seq<nat>, nat, nat)>): Option<(seq<nat>, nat, nat)> {
    if o.None? then None else Some((front + o.value.0, o.value.1, o.value.2))
  }

  /** The member loop from a given offset and running maximum alignment on. */
  function Place(types: seq<Ty>, offset: nat, alignment: nat, ghost whole: Ty): Option<(seq<nat>, nat, nat)>
    requires forall i :: 0 <= i < |types| ==> types[i] < whole
    decreases whole, 0, |types|
  {
    if types == [] then Some(([], offset, alignment))
    else
      var size := SizeBits(types[0]);
      var align := AlignmentBits(types[0]);
      if size.None? || align.None? || align.value == 0 then None
      else
        var at := AlignTo(offset, align.value);
        Prefix([at], Place(types[1..], at + size.value, Max(align.value, alignment), whole))
  }

  // ---- the member loop ----

  /** _llvm_struct_layout_bits as a loop over offset, offsets and maximum alignment. */
  method LlvmStructLayoutBits(types: seq<Ty>, ghost whole: Ty) returns (r: Option<Layout>)
    requires forall i :: 0 <= i < |types| ==> types[i] < whole
    ensures r == StructLayout(types, whole)
  {
    var offsets: seq<nat> := [];
    var offset: nat := 0;
    var maxAlignment: nat := BYTE_SIZE_BITS;
    ghost var all := Place(types, 0, BYTE_SIZE_BITS, whole);
    assert types[0..] == types;
    PrefixNothing(all);
    for i := 0 to |types|
      invariant Prefix(offsets, Place(types[i..], offset, maxAlignment, whole)) == all
      invariant maxAlignment > 0
    {
      assert types[i..][0] == types[i] && types[i..][1..] == types[i + 1..];
      var size := SizeBits(types[i]);
      var alignment := AlignmentBits(types[i]);
      if size.None? || alignment.None? || alignment.value == 0 { return None; }
      var at := AlignTo(offset, alignment.value);
      offset := at + size.value;
      maxAlignment := Max(alignment.value, maxAlignment);
      PrefixOne(offsets, at, Place(types[i + 1..], offset, maxAlignment, whole));
      offsets := offsets + [at];
    }
    assert offsets + [] == offsets;
    r := Some(Layout(offsets, AlignTo(offset, maxAlignment), maxAlignment));
  }

  lemma PrefixOne(front: seq<nat>, x: nat, o: Option<(seq<nat>, nat, nat)>)
    ensures Prefix(front + [x], o) == Prefix(front, Prefix([x], o))
  {
    if o.Some? { assert front + [x] + o.value.0 == front + ([x] + o.value.0); }
  }

  lemma PrefixNothing(o: Option<(seq<nat>, nat, nat)>)
    ensures Prefix([], o) == o
  {
    if o.Some? { assert [] + o.value.0 == o.value.0; }
  }

  // ---- members ----

  /** Each member sits at the least aligned offset after its predecessor's end: start is where the
      padding before the first member begins, end where the last member ends. */
  ghost predicate MembersPlaced(types: seq<Ty>, offsets: seq<nat>, start: nat, end: nat)
    decreases |types|
  {
    if types == [] || offsets == [] then types == [] && offsets == [] && start == end
    else
      var size, alignment := SizeBits(types[0]), AlignmentBits(types[0]);
      && size.Some? && alignment.Some? && alignment.value > 0
      && offsets[0] % alignment.value == 0
      && start <= offsets[0] < start + alignment.value
      && MembersPlaced(types[1..], offsets[1..], offsets[0] + size.value, end)
  }

  lemma {:induction false} PlaceMembers(types: seq<Ty>, offset: nat, alignment: nat, whole: Ty)
    requires forall i :: 0 <= i < |types| ==> types[i] < whole
    requires Place(types, offset, alignment, whole).Some?
    ensures var (offsets, end, a) := Place(types, offset, alignment, whole).value;
            MembersPlaced(types, offsets, offset, end) && offset <= end && alignment <= a
    decreases |types|
  {
    if types != [] {
      var m := AlignmentBits(types[0]).value;
      var at := AlignTo(offset, m);
      var next := at + SizeBits(types[0]).value;
      PlaceMembers(types[1..], next, Max(m, alignment), whole);
      var tail := Place(types[1..], next, Max(m, alignment), whole).value.0;
      assert ([at] + tail)[1..] == tail;
    }
  }

  lemma {:induction false} AlignmentsBounded(types: seq<Ty>, offset: nat, alignment: nat, whole: Ty)
    requires forall i :: 0 <= i < |types| ==> types[i] < whole
    requires Place(types, offset, alignment, whole).Some?
    ensures var a := Place(types, offset, alignment, whole).value.2;
            && alignment <= a
            && forall i :: 0 <= i < |types| ==> AlignmentBits(types[i]).Some? && AlignmentBits(types[i]).value <= a
    decreases |types|
  {
    if types != [] {
      var m := AlignmentBits(types[0]).value;
      AlignmentsBounded(types[1..], AlignTo(offset, m) + SizeBits(types[0]).value, Max(m, alignment), whole);
      assert forall i :: 1 <= i < |types| ==> types[i] == types[1..][i - 1];
    }
  }

  /** Padding before each member, and after the last, is smaller than the alignment it serves. */
  lemma PaddingBelowAlignment(types: seq<Ty>, whole: Ty) returns (end: nat)
    requires forall i :: 0 <= i < |types| ==> types[i] < whole
    requires StructLayout(types, whole).Some?
    ensures var l := StructLayout(types, whole).value;
            && l.alignment >= BYTE_SIZE_BITS && l.size % l.alignment == 0
            && MembersPlaced(types, l.offsets, 0, end) && end <= l.size < end + l.alignment
  {
    PlaceMembers(types, 0, BYTE_SIZE_BITS, whole);
    end := Place(types, 0, BYTE_SIZE_BITS, whole).value.1;
  }

  lemma {:induction false} AlignmentAttained(types: seq<Ty>, offset: nat, alignment: nat, whole: Ty)
    requires forall i :: 0 <= i < |types| ==> types[i] < whole
    requires Place(types, offset, alignment, whole).Some?
    ensures var a := Place(types, offset, alignment, whole).value.2;
            a == alignment || exists i :: 0 <= i < |types| && AlignmentBits(types[i]) == Some(a)
    decreases |types|
  {
    if types != [] {
      var m := AlignmentBits(types[0]).value;
      var next, most := AlignTo(offset, m) + SizeBits(types[0]).value, Max(m, alignment);
      AlignmentAttained(types[1..], next, most, whole);
      var a := Place(types[1..], next, most, whole).value.2;
      if i :| 0 <= i < |types| - 1 && AlignmentBits(types[1..][i]) == Some(a) {
        assert types[i + 1] == types[1..][i];
      }
    }
  }

  /** The alignment is the largest of the members', and at least a byte; the size is the least multiple
      of it that holds the members. */
  lemma LayoutIsLeast(types: seq<Ty>, whole: Ty) returns (end: nat)
    requires forall i :: 0 <= i < |types| ==> types[i] < whole
    requires StructLayout(types, whole).Some?
    ensures var l := StructLayout(types, whole).value;
            && MembersPlaced(types, l.offsets, 0, end)
            && l.alignment >= BYTE_SIZE_BITS
            && (forall i :: 0 <= i < |types| ==>
                  AlignmentBits(types[i]).Some? && AlignmentBits(types[i]).value <= l.alignment)
            && (l.alignment == BYTE_SIZE_BITS ||
                exists i :: 0 <= i < |types| && AlignmentBits(types[i]) == Some(l.alignment))
            && l.size % l.alignment == 0 && end <= l.size
            && forall n: nat :: end <= n && n % l.alignment == 0 ==> l.size <= n
  {
    end := PaddingBelowAlignment(types, whole);
    AlignmentsBounded(types, 0, BYTE_SIZE_BITS, whole);
    AlignmentAttained(types, 0, BYTE_SIZE_BITS, whole);
    PlacedEnd(types, StructLayout(types, whole).value.offsets, 0, end, Place(types, 0, BYTE_SIZE_BITS, whole).value.1);
    PlaceMembers(types, 0, BYTE_SIZE_BITS, whole);
  }

  /** Where the members end is determined by where they are. */
  lemma {:induction false} PlacedEnd(types: seq<Ty>, offsets: seq<nat>, start: nat, end: nat, other: nat)
    requires MembersPlaced(types, offsets, start, end)
    ensures MembersPlaced(types, offsets, start, other) ==> end == other
    decreases |types|
  {
    if types != [] { PlacedEnd(types[1..], offsets[1..], offsets[0] + SizeBits(types[0]).value, end, other); }
  }

  /** A literal is laid out as the type it is a value of. */
  lemma LiteralAsBase(base: Ty, value: int)
    requires !base.Literal?
    ensures SizeBits(Literal(base, value)) == SizeBits(base)
    ensures AlignmentBits(Literal(base, value)) == AlignmentBits(base)
  {
  }

  /** A record of n bytes has 8 * n bits, but no tuple with a record in it has a layout. */
  lemma {:induction false} RecordsNotLaidOut(types: seq<Ty>, i: nat, offset: nat, alignment: nat, whole: Ty)
    requires i < |types| && types[i].Record? && forall k :: 0 <= k < |types| ==> types[k] < whole
    ensures SizeBits(types[i]) == Some(8 * types[i].size)
    ensures Place(types, offset, alignment, whole).None?
    decreases |types|
  {
    if i > 0 && SizeBits(types[0]).Some? && AlignmentBits(types[0]).Some? && AlignmentBits(types[0]).value > 0 {
      var at := AlignTo(offset, AlignmentBits(types[0]).value);
      RecordsNotLaidOut(types[1..], i - 1, at + SizeBits(types[0]).value, Max(AlignmentBits(types[0]).value, alignment),
                        whole);
    }
  }

  // ---- leaves ----

  datatype Leaf = Leaf(offset: nat, width: nat)

  /** The bit intervals of the scalars of t, placed at base. */
  function Leaves(t: Ty, base: nat): seq<Leaf>
    decreases t, 1
  {
    match Strip(t)
    case Boolean => [Leaf(base, BYTE_SIZE_BITS)]
    case Integer(bits, _) => [Leaf(base, bits)]
    case Float(bits) => [Leaf(base, bits)]
    case UniTuple(dtype, count) =>
      (match SizeBits(dtype)
       case Some(n) => ArrayLeaves(dtype, count, base, n, Strip(t))
       case None => [])
    case Tuple(types) =>
      (match StructLayout(types, Strip(t))
       case Some(l) => MemberLeaves(types, l.offsets, base, Strip(t))
       case None => [])
    case _ => []
  }

  function ArrayLeaves(dtype: Ty, count: nat, base: nat, size: nat, ghost whole: Ty): seq<Leaf>
    requires dtype < whole
    decreases whole, 0, count
  {
    if count == 0 then []
    else ArrayLeaves(dtype, count - 1, base, size, whole) + Leaves(dtype, base + size * (count - 1))
  }

  function MemberLeaves(types: seq<Ty>, offsets: seq<nat>, base: nat, ghost whole: Ty): seq<Leaf>
    requires forall i :: 0 <= i < |types| ==> types[i] < whole
    decreases whole, 0, |types|
  {
    if types == [] || offsets == [] then []
    else Leaves(types[0], base + offsets[0]) + MemberLeaves(types[1..], offsets[1..], base, whole)
  }

  /** The widths of a type's scalars, in order. */
  function ScalarWidths(t: Ty): seq<nat>
    decreases t, 1
  {
    match Strip(t)
    case Boolean => [BYTE_SIZE_BITS]
    case Integer(bits, _) => [bits]
    case Float(bits) => [bits]
    case UniTuple(dtype, count) => Repeated(ScalarWidths(dtype), count)
    case Tuple(types) => ScalarsWidths(types, Strip(t))
    case _ => []
  }

  function ScalarsWidths(types: seq<Ty>, ghost whole: Ty): seq<nat>
    requires forall i :: 0 <= i < |types| ==> types[i] < whole
    decreases whole, 0, |types|
  {
    if types == [] then [] else ScalarWidths(types[0]) + ScalarsWidths(types[1..], whole)
  }

  function Repeated(ws: seq<nat>, n: nat): seq<nat> {
    if n == 0 then [] else Repeated(ws, n - 1) + ws
  }

  function Widths(ls: seq<Leaf>): (ws: seq<nat>)
    ensures |ws| == |ls| && forall i :: 0 <= i < |ls| ==> ws[i] == ls[i].width
  {
    seq(|ls|, i requires 0 <= i < |ls| => ls[i].width)
  }

  lemma WidthsAppend(a: seq<Leaf>, b: seq<Leaf>)
    ensures Widths(a + b) == Widths(a) + Widths(b)
  {
  }

  /** No scalar is left out: the leaves are the type's scalars, in order and in their widths. */
  lemma {:induction false} LeavesComplete(t: Ty, base: nat)
    requires SizeBits(t).Some?
    ensures Widths(Leaves(t, base)) == ScalarWidths(t)
    decreases t, 1
  {
    match Strip(t)
    case UniTuple(dtype, count) => ArrayComplete(dtype, count, base, SizeBits(dtype).value, Strip(t));
    case Tuple(types) =>
      PlaceMembers(types, 0, BYTE_SIZE_BITS, Strip(t));
      var end := Place(types, 0, BYTE_SIZE_BITS, Strip(t)).value.1;
      var offsets := StructLayout(types, Strip(t)).value.offsets;
      PlacedSizes(types, offsets, 0, end);
      MembersComplete(types, offsets, base, Strip(t));
    case _ =>
  }

  lemma {:induction false} ArrayComplete(dtype: Ty, count: nat, base: nat, size: nat, whole: Ty)
    requires dtype < whole && SizeBits(dtype).Some?
    ensures Widths(ArrayLeaves(dtype, count, base, size, whole)) == Repeated(ScalarWidths(dtype), count)
    decreases whole, 0, count
  {
    if count > 0 {
      var at := base + size * (count - 1);
      ArrayComplete(dtype, count - 1, base, size, whole);
      LeavesComplete(dtype, at);
      WidthsAppend(ArrayLeaves(dtype, count - 1, base, size, whole), Leaves(dtype, at));
    }
  }

  lemma MembersJoin(types: seq<Ty>, offsets: seq<nat>, base: nat, whole: Ty)
    requires types != [] && offsets != [] && forall i :: 0 <= i < |types| ==> types[i] < whole
    ensures Widths(MemberLeaves(types, offsets, base, whole)) ==
            Widths(Leaves(types[0], base + offsets[0])) + Widths(MemberLeaves(types[1..], offsets[1..], base, whole))
  {
    WidthsAppend(Leaves(types[0], base + offsets[0]), MemberLeaves(types[1..], offsets[1..], base, whole));
  }

  lemma {:induction false} MembersComplete(types: seq<Ty>, offsets: seq<nat>, base: nat, whole: Ty)
    requires |types| == |offsets| && forall i :: 0 <= i < |types| ==> types[i] < whole && SizeBits(types[i]).Some?
    ensures Widths(MemberLeaves(types, offsets, base, whole)) == ScalarsWidths(types, whole)
    decreases whole, 0, |types|
  {
    if types != [] {
      LeavesComplete(types[0], base + offsets[0]);
      MembersComplete(types[1..], offsets[1..], base, whole);
      MembersJoin(types, offsets, base, whole);
    }
  }

  lemma {:induction false} PlacedSizes(types: seq<Ty>, offsets: seq<nat>, start: nat, end: nat)
    requires MembersPlaced(types, offsets, start, end)
    ensures |types| == |offsets| && forall i :: 0 <= i < |types| ==> SizeBits(types[i]).Some?
    decreases |types|
  {
    if types != [] {
      PlacedSizes(types[1..], offsets[1..], offsets[0] + SizeBits(types[0]).value, end);
      assert forall i :: 1 <= i < |types| ==> types[i] == types[1..][i - 1];
    }
  }

  /** Scalar widths are powers of two of at least a byte. */
  ghost predicate WellSized(t: Ty)
    decreases t
  {
    match Strip(t)
    case Integer(bits, _) => bits >= BYTE_SIZE_BITS && PowerOfTwo(bits)
    case Float(bits) => bits >= BYTE_SIZE_BITS && PowerOfTwo(bits)
    case UniTuple(dtype, _) => WellSized(dtype)
    case Tuple(types) => forall i :: 0 <= i < |types| ==> WellSized(types[i])
    case _ => true
  }

  /** Intervals in [lo, hi), in order, disjoint, each aligned to its own width. */
  ghost predicate Packed(ls: seq<Leaf>, lo: nat, hi: nat) {
    && lo <= hi
    && (forall i :: 0 <= i < |ls| ==>
          ls[i].width > 0 && ls[i].offset % ls[i].width == 0 && lo <= ls[i].offset && ls[i].offset + ls[i].width <= hi)
    && forall i, j :: 0 <= i < j < |ls| ==> ls[i].offset + ls[i].width <= ls[j].offset
  }

  lemma PackedAppend(a: seq<Leaf>, b: seq<Leaf>, lo: nat, mid: nat, next: nat, hi: nat)
    requires Packed(a, lo, mid) && mid <= next && Packed(b, next, hi)
    ensures Packed(a + b, lo, hi)
  {
  }

  lemma PackedWiden(a: seq<Leaf>, lo: nat, hi: nat, wide: nat)
    requires Packed(a, lo, hi) && hi <= wide
    ensures Packed(a, lo, wide)
  {
  }

  /** A type with an alignment has a size, a multiple of the alignment, and the alignment is a power
      of two of at least a byte. */
  lemma {:induction false} SizeAligned(t: Ty)
    requires WellSized(t) && AlignmentBits(t).Some?
    ensures SizeBits(t).Some?
    ensures PowerOfTwo(AlignmentBits(t).value) && AlignmentBits(t).value >= BYTE_SIZE_BITS
    ensures SizeBits(t).value % AlignmentBits(t).value == 0
    decreases t
  {
    match Strip(t)
    case Boolean => assert PowerOfTwo(4) && PowerOfTwo(8);
    case Integer(bits, _) => MultipleModulo(1, bits);
    case Float(bits) => MultipleModulo(1, bits);
    case UniTuple(dtype, count) =>
      SizeAligned(dtype);
      ScaleModulo(SizeBits(dtype).value, count, AlignmentBits(dtype).value);
    case Tuple(types) =>
      forall i | 0 <= i < |types| && AlignmentBits(types[i]).Some?
        ensures SizeBits(types[i]).Some? && PowerOfTwo(AlignmentBits(types[i]).value)
      {
        SizeAligned(types[i]);
      }
      assert PowerOfTwo(4) && PowerOfTwo(8);
      PlacePower(types, 0, BYTE_SIZE_BITS, Strip(t));
    case _ =>
  }

  lemma {:induction false} PlacePower(types: seq<Ty>, offset: nat, alignment: nat, whole: Ty)
    requires forall i :: 0 <= i < |types| ==> types[i] < whole
    requires Place(types, offset, alignment, whole).Some?
    requires PowerOfTwo(alignment) && alignment >= BYTE_SIZE_BITS
    requires forall i :: 0 <= i < |types| && AlignmentBits(types[i]).Some? ==> PowerOfTwo(AlignmentBits(types[i]).value)
    ensures PowerOfTwo(Place(types, offset, alignment, whole).value.2)
    ensures Place(types, offset, alignment, whole).value.2 >= alignment
    decreases |types|
  {
    if types != [] {
      var m := AlignmentBits(types[0]).value;
      PlacePower(types[1..], AlignTo(offset, m) + SizeBits(types[0]).value, Max(m, alignment), whole);
    }
  }

  /** The leaves of a nested tuple placed at an aligned base are disjoint, aligned to their own
      widths, and inside the base's interval of the type's size. */
  lemma {:induction false} LeavesPacked(t: Ty, base: nat)
    requires WellSized(t) && AlignmentBits(t).Some? && AlignmentBits(t).value > 0 && base % AlignmentBits(t).value == 0
    ensures SizeBits(t).Some? && Packed(Leaves(t, base), base, base + SizeBits(t).value)
    decreases t, 1
  {
    SizeAligned(t);
    match Strip(t)
    case UniTuple(dtype, count) =>
      SizeAligned(dtype);
      ArrayPacked(dtype, count, base, Strip(t));
    case Tuple(types) =>
      StructPacked(types, base, Strip(t));
    case _ =>
  }

  lemma {:induction false} StructPacked(types: seq<Ty>, base: nat, whole: Ty)
    requires forall i :: 0 <= i < |types| ==> types[i] < whole && WellSized(types[i])
    requires StructLayout(types, whole).Some? && PowerOfTwo(StructLayout(types, whole).value.alignment)
    requires base % StructLayout(types, whole).value.alignment == 0
    ensures var l := StructLayout(types, whole).value;
            Packed(MemberLeaves(types, l.offsets, base, whole), base, base + l.size)
    decreases whole, 0, |types| + 2
  {
    var l := StructLayout(types, whole).value;
    var end := PaddingBelowAlignment(types, whole);
    AlignmentsBounded(types, 0, BYTE_SIZE_BITS, whole);
    MembersPacked(types, l.offsets, 0, end, base, l.alignment, whole);
    PackedWiden(MemberLeaves(types, l.offsets, base, whole), base, base + end, base + l.size);
  }

  /** Where the element after k elements of n bits begins. */
  function ElementAt(base: nat, k: nat, n: nat): nat {
    base + n * k
  }

  lemma {:induction false} ArrayPacked(dtype: Ty, count: nat, base: nat, whole: Ty)
    requires dtype < whole && WellSized(dtype) && AlignmentBits(dtype).Some? && AlignmentBits(dtype).value > 0
    requires SizeBits(dtype).Some? && SizeBits(dtype).value % AlignmentBits(dtype).value == 0
    requires base % AlignmentBits(dtype).value == 0
    ensures var n := SizeBits(dtype).value;
            Packed(ArrayLeaves(dtype, count, base, n, whole), base, ElementAt(base, count, n))
    decreases whole, 0, count
  {
    if count > 0 {
      var n := SizeBits(dtype).value;
      ArrayPacked(dtype, count - 1, base, whole);
      var at := ElementAligned(base, count - 1, n, AlignmentBits(dtype).value);
      LeavesPacked(dtype, at);
      JoinElement(dtype, count, base, n, at, whole);
    }
  }

  /** Where the next element begins, if k elements of n bits precede it. */
  lemma ElementAligned(base: nat, k: nat, n: nat, a: nat) returns (at: nat)
    requires a > 0 && n % a == 0 && base % a == 0
    ensures at == base + n * k && at % a == 0 && at + n == base + n * (k + 1)
  {
    ScaleModulo(n, k, a);
    SumModulo(base, n * k, a);
    Distribute(k, 1, n);
    at := base + n * k;
  }

  lemma JoinElement(dtype: Ty, count: nat, base: nat, n: nat, at: nat, whole: Ty)
    requires dtype < whole && count > 0 && at == base + n * (count - 1)
    requires Packed(ArrayLeaves(dtype, count - 1, base, n, whole), base, at) && Packed(Leaves(dtype, at), at, at + n)
    ensures Packed(ArrayLeaves(dtype, count, base, n, whole), base, at + n)
  {
    PackedAppend(ArrayLeaves(dtype, count - 1, base, n, whole), Leaves(dtype, at), base, at, at, at + n);
  }

  lemma FirstPlaced(types: seq<Ty>, offsets: seq<nat>, start: nat, end: nat) returns (next: nat)
    requires types != [] && MembersPlaced(types, offsets, start, end)
    ensures offsets != [] && SizeBits(types[0]).Some? && next == offsets[0] + SizeBits(types[0]).value
    ensures AlignmentBits(types[0]).Some? && AlignmentBits(types[0]).value > 0
    ensures offsets[0] % AlignmentBits(types[0]).value == 0 && start <= offsets[0]
    ensures MembersPlaced(types[1..], offsets[1..], next, end)
  {
    next := offsets[0] + SizeBits(types[0]).value;
  }

  lemma {:induction false} MembersPacked(types: seq<Ty>, offsets: seq<nat>, start: nat, end: nat, base: nat,
        alignment: nat, whole: Ty)
    requires forall i :: 0 <= i < |types| ==> types[i] < whole && WellSized(types[i])
    requires MembersPlaced(types, offsets, start, end) && PowerOfTwo(alignment) && base % alignment == 0
    requires forall i :: 0 <= i < |types| ==>
               AlignmentBits(types[i]).Some? && AlignmentBits(types[i]).value <= alignment
    ensures Packed(MemberLeaves(types, offsets, base, whole), base + start, base + end)
    decreases whole, 0, |types|
  {
    if types != [] {
      var t := types[0];
      var next := FirstPlaced(types, offsets, start, end);
      MemberPacked(t, offsets[0], base, alignment, whole);
      assert forall i :: 0 <= i < |types| - 1 ==> types[1..][i] == types[i + 1];
      MembersPacked(types[1..], offsets[1..], next, end, base, alignment, whole);
      JoinMembers(types, offsets, base, base + start, base + next, base + end, whole);
    }
  }

  lemma JoinMembers(types: seq<Ty>, offsets: seq<nat>, base: nat, lo: nat, next: nat, hi: nat, whole: Ty)
    requires types != [] && offsets != [] && forall i :: 0 <= i < |types| ==> types[i] < whole
    requires lo <= base + offsets[0] && Packed(Leaves(types[0], base + offsets[0]), base + offsets[0], next)
    requires Packed(MemberLeaves(types[1..], offsets[1..], base, whole), next, hi)
    ensures Packed(MemberLeaves(types, offsets, base, whole), lo, hi)
  {
    PackedAppend(Leaves(types[0], base + offsets[0]), MemberLeaves(types[1..], offsets[1..], base, whole),
                 base + offsets[0], next, next, hi);
  }

  lemma MemberPacked(t: Ty, at: nat, base: nat, alignment: nat, whole: Ty)
    requires t < whole
    requires WellSized(t) && SizeBits(t).Some? && AlignmentBits(t).Some? && 0 < AlignmentBits(t).value <= alignment
    requires PowerOfTwo(alignment) && base % alignment == 0 && at % AlignmentBits(t).value == 0
    ensures Packed(Leaves(t, base + at), base + at, base + at + SizeBits(t).value)
    decreases whole, 0, 0
  {
    SizeAligned(t);
    PowerDivides(AlignmentBits(t).value, alignment);
    ModuloTransitive(base, alignment, AlignmentBits(t).value);
    SumModulo(base, at, AlignmentBits(t).value);
    LeavesPacked(t, base + at);
  }

  /** The layout of a whole debug type. */
  lemma TupleLayout(t: Ty)
    requires WellSized(t) && AlignmentBits(t).Some?
    ensures SizeBits(t).Some? && PowerOfTwo(AlignmentBits(t).value)
    ensures SizeBits(t).value % AlignmentBits(t).value == 0
    ensures Packed(Leaves(t, 0), 0, SizeBits(t).value)
  {
    SizeAligned(t);
    MultipleModulo(0, AlignmentBits(t).value);
    LeavesPacked(t, 0);
  }
}
