/** The ABI of device functions: nested tuple types and values flatten to slots, and are rebuilt
    from slots by the callee and by the caller of a returning function. */
module Abi {
  import opened Lru
  import opened NumbaTypes

  /** An SSA value, the None placeholder, or a Python tuple of values. */
  datatype Value = Operand(id: nat) | Placeholder | Group(elems: seq<Value>)

  // ---- flattening ----

  function Repeat<T>(s: seq<T>, n: nat): seq<T> {
    if n == 0 then [] else s + Repeat(s, n - 1)
  }

  /** _flatten_type */
  function FlattenType(t: Ty): seq<Ty>
    decreases t, 0
  {
    match t
    case NoneTy => []
    case UniTuple(dtype, count) => Repeat(FlattenType(dtype), count)
    case Tuple(types) => FlattenTypes(types, t)
    case _ => [t]
  }

  function FlattenTypes(ts: seq<Ty>, ghost whole: Ty): seq<Ty>
    requires forall i :: 0 <= i < |ts| ==> ts[i] < whole
    decreases whole, 0, |ts|
  {
    if ts == [] then [] else FlattenType(ts[0]) + FlattenTypes(ts[1..], whole)
  }

  /** _count_flat_elements */
  function CountFlat(t: Ty): nat
    decreases t, 0
  {
    match t
    case NoneTy => 0
    case UniTuple(dtype, count) => count * CountFlat(dtype)
    case Tuple(types) => SumFlat(types, t)
    case _ => 1
  }

  function SumFlat(ts: seq<Ty>, ghost whole: Ty): nat
    requires forall i :: 0 <= i < |ts| ==> ts[i] < whole
    decreases whole, 0, |ts|
  {
    if ts == [] then 0 else CountFlat(ts[0]) + SumFlat(ts[1..], whole)
  }

  /** _flatten_abi_operands */
  function FlattenOperands(t: Ty, v: Value): seq<Value>
    decreases v, 1
  {
    if t.NoneTy? then []
    else if t.IsTuple() then (if v.Group? then FlattenEach(t.Elements(), v.elems) else [])
    else [v]
  }

  function FlattenEach(ts: seq<Ty>, vs: seq<Value>): seq<Value>
    decreases vs, 0
  {
    if ts == [] || vs == [] then [] else FlattenOperands(ts[0], vs[0]) + FlattenEach(ts[1..], vs[1..])
  }

  /** _flatten_abi_value: no type to consult, so a None leaf keeps a slot. */
  function FlattenValue(v: Value): seq<Value>
    decreases v, 1
  {
    if v.Group? then FlattenValues(v.elems) else [v]
  }

  function FlattenValues(vs: seq<Value>): seq<Value>
    decreases vs, 0
  {
    if vs == [] then [] else FlattenValue(vs[0]) + FlattenValues(vs[1..])
  }

  /** _unflatten_abi_value on the values left in the iterator; None when it runs out. */
  function Unflatten(t: Ty, ops: seq<Value>): Option<(Value, seq<Value>)>
    decreases t, 0
  {
    if t.NoneTy? then Some((Placeholder, ops))
    else if t.IsTuple() then
      match UnflattenEach(t.Elements(), ops, t)
      case Some((vs, rest)) => Some((Group(vs), rest))
      case None => None
    else if ops == [] then None
    else Some((ops[0], ops[1..]))
  }

  function UnflattenEach(ts: seq<Ty>, ops: seq<Value>, ghost whole: Ty): Option<(seq<Value>, seq<Value>)>
    requires forall i :: 0 <= i < |ts| ==> ts[i] < whole
    decreases whole, 0, |ts|
  {
    if ts == [] then Some(([], ops))
    else
      match Unflatten(ts[0], ops)
      case None => None
      case Some((v, rest)) =>
        match UnflattenEach(ts[1..], rest, whole)
        case None => None
        case Some((vs, last)) => Some(([v] + vs, last))
  }

  // ---- values of a type ----

  /** v has the tuple structure of t. */
  ghost predicate Shaped(t: Ty, v: Value)
    decreases v
  {
    if t.IsTuple() then
      && v.Group? && |v.elems| == |t.Elements()|
      && forall i :: 0 <= i < |v.elems| ==> Shaped(t.Elements()[i], v.elems[i])
    else !v.Group?
  }

  ghost predicate ShapedEach(ts: seq<Ty>, vs: seq<Value>) {
    |ts| == |vs| && forall i :: 0 <= i < |vs| ==> Shaped(ts[i], vs[i])
  }

  /** v with its None leaves replaced by the placeholder. */
  function Placed(t: Ty, v: Value): Value
    decreases v, 1
  {
    if t.NoneTy? then Placeholder
    else if t.IsTuple() && v.Group? then Group(PlacedEach(t.Elements(), v.elems))
    else v
  }

  function PlacedEach(ts: seq<Ty>, vs: seq<Value>): seq<Value>
    decreases vs, 0
  {
    if ts == [] || vs == [] then [] else [Placed(ts[0], vs[0])] + PlacedEach(ts[1..], vs[1..])
  }

  /** None leaves of a type. */
  function NoneLeaves(t: Ty): nat
    decreases t, 0
  {
    if t.NoneTy? then 1 else if t.IsTuple() then NoneLeavesEach(t.Elements(), t) else 0
  }

  function NoneLeavesEach(ts: seq<Ty>, ghost whole: Ty): nat
    requires forall i :: 0 <= i < |ts| ==> ts[i] < whole
    decreases whole, 0, |ts|
  {
    if ts == [] then 0 else NoneLeaves(ts[0]) + NoneLeavesEach(ts[1..], whole)
  }

  // ---- lengths ----

  lemma {:induction false} RepeatLength<T>(s: seq<T>, n: nat)
    ensures |Repeat(s, n)| == n * |s|
    decreases n
  {
    if n > 0 {
      RepeatLength(s, n - 1);
      assert n * |s| == |s| + (n - 1) * |s|;
    }
  }

  lemma {:induction false} TypeLength(t: Ty)
    ensures |FlattenType(t)| == CountFlat(t)
    decreases t, 0
  {
    match t
    case UniTuple(dtype, count) =>
      TypeLength(dtype);
      RepeatLength(FlattenType(dtype), count);
    case Tuple(types) => TypesLength(types, t);
    case _ =>
  }

  lemma {:induction false} TypesLength(ts: seq<Ty>, whole: Ty)
    requires forall i :: 0 <= i < |ts| ==> ts[i] < whole
    ensures |FlattenTypes(ts, whole)| == SumFlat(ts, whole)
    decreases whole, 0, |ts|
  {
    if ts != [] {
      TypeLength(ts[0]);
      TypesLength(ts[1..], whole);
    }
  }

  /** A UniTuple is the tuple of its repeated element type. */
  lemma {:induction false} RepeatedTypes(dtype: Ty, n: nat, whole: Ty)
    requires dtype < whole
    ensures FlattenTypes(seq(n, _ => dtype), whole) == Repeat(FlattenType(dtype), n)
    ensures SumFlat(seq(n, _ => dtype), whole) == n * CountFlat(dtype)
    decreases n
  {
    if n > 0 {
      RepeatedTypes(dtype, n - 1, whole);
      assert seq(n, _ => dtype)[1..] == seq(n - 1, _ => dtype);
      assert n * CountFlat(dtype) == CountFlat(dtype) + (n - 1) * CountFlat(dtype);
    }
  }

  lemma TupleFlattensElements(t: Ty)
    requires t.IsTuple()
    ensures FlattenType(t) == FlattenTypes(t.Elements(), t) && CountFlat(t) == SumFlat(t.Elements(), t)
  {
    if t.UniTuple? { RepeatedTypes(t.dtype, t.count, t); }
  }

  // ---- round trips ----

  lemma Regroup(a: seq<Value>, b: seq<Value>, c: seq<Value>)
    ensures a + b + c == a + (b + c)
  {
  }

  /** Rebuilding from a value's operands gives the value and leaves the tail. */
  lemma {:induction false} RoundTrip(t: Ty, v: Value, r: seq<Value>)
    requires Shaped(t, v)
    ensures Unflatten(t, FlattenOperands(t, v) + r) == Some((Placed(t, v), r))
    ensures |FlattenOperands(t, v)| == CountFlat(t)
    decreases t, 0
  {
    if t.NoneTy? {
      assert [] + r == r;
    } else if t.IsTuple() {
      RoundTripEach(t.Elements(), v.elems, r, t);
      TupleFlattensElements(t);
    } else {
      assert ([v] + r)[1..] == r;
    }
  }

  lemma {:induction false} RoundTripEach(ts: seq<Ty>, vs: seq<Value>, r: seq<Value>, whole: Ty)
    requires ShapedEach(ts, vs) && forall i :: 0 <= i < |ts| ==> ts[i] < whole
    ensures UnflattenEach(ts, FlattenEach(ts, vs) + r, whole) == Some((PlacedEach(ts, vs), r))
    ensures |FlattenEach(ts, vs)| == SumFlat(ts, whole)
    decreases whole, 0, |ts|
  {
    if ts == [] {
      assert [] + r == r;
    } else {
      var rest := FlattenEach(ts[1..], vs[1..]) + r;
      RoundTrip(ts[0], vs[0], rest);
      RoundTripEach(ts[1..], vs[1..], r, whole);
      assert FlattenEach(ts, vs) == FlattenOperands(ts[0], vs[0]) + FlattenEach(ts[1..], vs[1..]);
      Regroup(FlattenOperands(ts[0], vs[0]), FlattenEach(ts[1..], vs[1..]), r);
    }
  }

  lemma Regrouped(a: seq<Value>, b: seq<Value>, c: seq<Value>, d: seq<Value>)
    requires d == b + c
    ensures a + b + c == a + d
  {
  }

  /** The operands of a tuple are those of its elements from left to right. */
  lemma {:induction false} FlattenInOrder(ts: seq<Ty>, vs: seq<Value>, us: seq<Ty>, ws: seq<Value>)
    requires |ts| == |vs|
    ensures FlattenEach(ts + us, vs + ws) == FlattenEach(ts, vs) + FlattenEach(us, ws)
    decreases |ts|
  {
    if ts == [] {
      assert ts + us == us && vs + ws == ws;
      assert [] + FlattenEach(us, ws) == FlattenEach(us, ws);
    } else {
      FlattenInOrder(ts[1..], vs[1..], us, ws);
      assert (ts + us)[1..] == ts[1..] + us && (vs + ws)[1..] == vs[1..] + ws;
      Regrouped(FlattenOperands(ts[0], vs[0]), FlattenEach(ts[1..], vs[1..]), FlattenEach(us, ws),
                FlattenEach(ts[1..] + us, vs[1..] + ws));
    }
  }

  /** Every operand list of sufficient length is the flattening of the value rebuilt from it, then
      the tail; a shorter one runs the iterator out. */
  lemma {:induction false} Converse(t: Ty, ops: seq<Value>)
    requires forall i :: 0 <= i < |ops| ==> !ops[i].Group?
    ensures Unflatten(t, ops).Some? <==> |ops| >= CountFlat(t)
    ensures Unflatten(t, ops).Some? ==>
              var (v, r) := Unflatten(t, ops).value;
              && Shaped(t, v) && FlattenOperands(t, v) + r == ops && |r| == |ops| - CountFlat(t)
              && Placed(t, v) == v
    decreases t, 0
  {
    if t.IsTuple() {
      ConverseEach(t.Elements(), ops, t);
      TupleFlattensElements(t);
    }
  }

  lemma ConverseJoin(ts: seq<Ty>, v: Value, vs: seq<Value>, ops: seq<Value>, rest: seq<Value>, last: seq<Value>)
    requires ts != [] && Shaped(ts[0], v) && ShapedEach(ts[1..], vs)
    requires FlattenOperands(ts[0], v) + rest == ops && FlattenEach(ts[1..], vs) + last == rest
    requires Placed(ts[0], v) == v && PlacedEach(ts[1..], vs) == vs
    ensures ShapedEach(ts, [v] + vs) && FlattenEach(ts, [v] + vs) + last == ops && PlacedEach(ts, [v] + vs) == [v] + vs
  {
    var all := [v] + vs;
    assert all[1..] == vs;
    assert FlattenEach(ts, all) == FlattenOperands(ts[0], v) + FlattenEach(ts[1..], vs);
    Regroup(FlattenOperands(ts[0], v), FlattenEach(ts[1..], vs), last);
    forall i | 0 <= i < |all| ensures Shaped(ts[i], all[i]) {
      if i > 0 { assert Shaped(ts[1..][i - 1], vs[i - 1]); }
    }
  }

  lemma NoGroupsLeft(used: seq<Value>, rest: seq<Value>, ops: seq<Value>)
    requires used + rest == ops && forall i :: 0 <= i < |ops| ==> !ops[i].Group?
    ensures forall i :: 0 <= i < |rest| ==> !rest[i].Group?
  {
    assert forall i :: 0 <= i < |rest| ==> rest[i] == ops[|used| + i];
  }

  lemma {:induction false} ConverseEach(ts: seq<Ty>, ops: seq<Value>, whole: Ty)
    requires forall i :: 0 <= i < |ts| ==> ts[i] < whole
    requires forall i :: 0 <= i < |ops| ==> !ops[i].Group?
    ensures UnflattenEach(ts, ops, whole).Some? <==> |ops| >= SumFlat(ts, whole)
    ensures UnflattenEach(ts, ops, whole).Some? ==>
              var (vs, r) := UnflattenEach(ts, ops, whole).value;
              && ShapedEach(ts, vs) && FlattenEach(ts, vs) + r == ops && |r| == |ops| - SumFlat(ts, whole)
              && PlacedEach(ts, vs) == vs
    decreases whole, 0, |ts|
  {
    if ts != [] {
      Converse(ts[0], ops);
      match Unflatten(ts[0], ops)
      case None =>
      case Some((v, rest)) =>
        NoGroupsLeft(FlattenOperands(ts[0], v), rest, ops);
        ConverseEach(ts[1..], rest, whole);
        match UnflattenEach(ts[1..], rest, whole)
        case None =>
        case Some((vs, last)) =>
          ConverseJoin(ts, v, vs, ops, rest, last);
    }
  }

  // ---- the type-free flattening ----

  lemma {:induction false} ValueLength(t: Ty, v: Value)
    requires Shaped(t, v)
    ensures |FlattenValue(v)| == |FlattenOperands(t, v)| + NoneLeaves(t)
    ensures NoneLeaves(t) == 0 ==> FlattenValue(v) == FlattenOperands(t, v)
    decreases t, 0
  {
    if t.IsTuple() { ValuesLength(t.Elements(), v.elems, t); }
  }

  lemma {:induction false} ValuesLength(ts: seq<Ty>, vs: seq<Value>, whole: Ty)
    requires ShapedEach(ts, vs) && forall i :: 0 <= i < |ts| ==> ts[i] < whole
    ensures |FlattenValues(vs)| == |FlattenEach(ts, vs)| + NoneLeavesEach(ts, whole)
    ensures NoneLeavesEach(ts, whole) == 0 ==> FlattenValues(vs) == FlattenEach(ts, vs)
    decreases whole, 0, |ts|
  {
    if ts != [] {
      ValueLength(ts[0], vs[0]);
      ValuesLength(ts[1..], vs[1..], whole);
    }
  }

  /** The type-free flattening agrees with the typed one exactly on types without None leaves. */
  lemma TypeFreeIffNoneFree(t: Ty, v: Value)
    requires Shaped(t, v)
    ensures FlattenValue(v) == FlattenOperands(t, v) <==> NoneLeaves(t) == 0
  {
    ValueLength(t, v);
  }

  // ---- operands and their types ----

  /** Every operand of v has the type of its slot. */
  ghost predicate SlotsTyped(t: Ty, v: Value, typeOf: map<nat, Ty>)
    decreases v
  {
    if t.NoneTy? then !v.Group?
    else if t.IsTuple() then
      && v.Group? && |v.elems| == |t.Elements()|
      && forall i :: 0 <= i < |v.elems| ==> SlotsTyped(t.Elements()[i], v.elems[i], typeOf)
    else v.Operand? && v.id in typeOf && typeOf[v.id] == t
  }

  ghost predicate TypedSlots(ts: seq<Ty>, ops: seq<Value>, typeOf: map<nat, Ty>) {
    && |ts| == |ops|
    && forall i :: 0 <= i < |ts| ==> ops[i].Operand? && ops[i].id in typeOf && typeOf[ops[i].id] == ts[i]
  }

  /** The operands of a well-typed value line up one by one with the flattened type. */
  lemma {:induction false} OperandsLineUp(t: Ty, v: Value, typeOf: map<nat, Ty>)
    requires SlotsTyped(t, v, typeOf)
    ensures TypedSlots(FlattenType(t), FlattenOperands(t, v), typeOf)
    decreases t, 0
  {
    if t.IsTuple() {
      OperandsLineUpEach(t.Elements(), v.elems, typeOf, t);
      TupleFlattensElements(t);
    }
  }

  lemma {:induction false} OperandsLineUpEach(ts: seq<Ty>, vs: seq<Value>, typeOf: map<nat, Ty>, whole: Ty)
    requires |ts| == |vs| && (forall i :: 0 <= i < |vs| ==> SlotsTyped(ts[i], vs[i], typeOf))
    requires forall i :: 0 <= i < |ts| ==> ts[i] < whole
    ensures TypedSlots(FlattenTypes(ts, whole), FlattenEach(ts, vs), typeOf)
    decreases whole, 0, |ts|
  {
    if ts != [] {
      OperandsLineUp(ts[0], vs[0], typeOf);
      OperandsLineUpEach(ts[1..], vs[1..], typeOf, whole);
    }
  }
}
