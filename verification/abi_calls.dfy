/** Calls between device functions: the callee's block arguments, the start index of an argument,
    and the recovery of each argument from its window of block arguments. */
module AbiCalls {
  import opened Lru
  import opened NumbaTypes
  import opened Abi

  /** _is_omitted_arg */
  predicate IsOmitted(t: Ty) {
    t.Omitted? || t.NoneTy?
  }

  /** The slots an argument takes among the block arguments. */
  function Width(t: Ty): nat {
    if IsOmitted(t) then 0 else CountFlat(t)
  }

  /** Types of the block arguments: the flattened non-omitted argument types. */
  function BlockTypes(sig: seq<Ty>): seq<Ty> {
    if sig == [] then []
    else (if IsOmitted(sig[0]) then [] else FlattenType(sig[0])) + BlockTypes(sig[1..])
  }

  /** The operands of a call, flattened by type. */
  function BlockArguments(sig: seq<Ty>, args: seq<Value>): seq<Value>
    requires |sig| == |args|
  {
    if sig == [] then []
    else (if IsOmitted(sig[0]) then [] else FlattenOperands(sig[0], args[0])) + BlockArguments(sig[1..], args[1..])
  }

  /** The operands of a call to another dispatcher: _fold_dispatcher_call_args puts the arguments in
      parameter order and filters the omitted ones, _call_operands_from_vars flattens the others
      without their type. */
  function CallOperands(sig: seq<Ty>, args: seq<Value>): seq<Value>
    requires |sig| == |args|
  {
    if sig == [] then []
    else (if IsOmitted(sig[0]) then [] else FlattenValue(args[0])) + CallOperands(sig[1..], args[1..])
  }

  function StartIndex(sig: seq<Ty>, i: nat): nat
    requires i <= |sig|
  {
    if i == 0 then 0 else StartIndex(sig, i - 1) + Width(sig[i - 1])
  }

  /** _reassemble_tuple_from_block_args; None when a block argument does not exist. */
  function Reassemble(t: Ty, block: seq<Value>, start: nat): Option<Value>
    decreases t, 1
  {
    if !t.IsTuple() then (if start < |block| then Some(block[start]) else None)
    else
      match ReassembleEach(t.Elements(), block, start, t)
      case Some(vs) => Some(Group(vs))
      case None => None
  }

  /** An element of a tuple; a None leaf has no block argument. */
  function Element(t: Ty, block: seq<Value>, idx: nat): Option<Value>
    decreases t, 2
  {
    if t.NoneTy? then Some(Placeholder) else Reassemble(t, block, idx)
  }

  /** How far an element advances the running index. */
  function Consumed(t: Ty): nat {
    if t.NoneTy? then 0 else if t.IsTuple() then CountFlat(t) else 1
  }

  function ReassembleEach(ts: seq<Ty>, block: seq<Value>, idx: nat, ghost whole: Ty): Option<seq<Value>>
    requires forall i :: 0 <= i < |ts| ==> ts[i] < whole
    decreases whole, 0, |ts|
  {
    if ts == [] then Some([])
    else
      var element := Element(ts[0], block, idx);
      if element.None? then None
      else Prepend([element.value], ReassembleEach(ts[1..], block, idx + Consumed(ts[0]), whole))
  }

  function Prepend(front: seq<Value>, o: Option<seq<Value>>): Option<seq<Value>> {
    if o.None? then None else Some(front + o.value)
  }

  lemma PrependNothing(o: Option<seq<Value>>)
    ensures Prepend([], o) == o
  {
    if o.Some? { assert [] + o.value == o.value; }
  }

  lemma PrependOne(front: seq<Value>, v: Value, o: Option<seq<Value>>)
    ensures Prepend(front + [v], o) == Prepend(front, Prepend([v], o))
  {
    if o.Some? { assert front + [v] + o.value == front + ([v] + o.value); }
  }

  // ---- the loops ----

  /** _get_flat_arg_start_index */
  method FlatArgStartIndex(argtypes: seq<Ty>, argIndex: nat) returns (flatIdx: nat)
    requires argIndex <= |argtypes|
    ensures flatIdx == StartIndex(argtypes, argIndex)
    ensures flatIdx == |BlockTypes(argtypes[..argIndex])|
  {
    flatIdx := 0;
    for i := 0 to argIndex
      invariant flatIdx == StartIndex(argtypes, i)
    {
      if !IsOmitted(argtypes[i]) {
        flatIdx := flatIdx + CountFlat(argtypes[i]);
      }
    }
    WindowTypes(argtypes, argIndex);
  }

  /** The element loop of _reassemble_tuple_from_block_args, with its running index. */
  method ReassembleTuple(t: Ty, block: seq<Value>, start: nat) returns (r: Option<Value>)
    ensures r == Reassemble(t, block, start)
    decreases t, 0
  {
    if !t.IsTuple() {
      return if start < |block| then Some(block[start]) else None;
    }
    var ts := t.Elements();
    var elements: seq<Value> := [];
    var idx: nat := start;
    ghost var all := ReassembleEach(ts, block, start, t);
    assert ts[0..] == ts;
    PrependNothing(all);
    for i := 0 to |ts|
      invariant Prepend(elements, ReassembleEach(ts[i..], block, idx, t)) == all
    {
      assert ts[i..][1..] == ts[i + 1..];
      var elem := ReassembleElement(ts[i], block, idx);
      if elem.None? { return None; }
      idx := idx + Consumed(ts[i]);
      PrependOne(elements, elem.value, ReassembleEach(ts[i + 1..], block, idx, t));
      elements := elements + [elem.value];
    }
    assert ReassembleEach(ts[|ts|..], block, idx, t) == Some([]);
    assert elements + [] == elements;
    r := Some(Group(elements));
  }

  method ReassembleElement(t: Ty, block: seq<Value>, idx: nat) returns (r: Option<Value>)
    ensures r == Element(t, block, idx)
    decreases t, 1
  {
    if t.NoneTy? {
      r := Some(Placeholder);
    } else if t.IsTuple() {
      r := ReassembleTuple(t, block, idx);
    } else {
      r := if idx < |block| then Some(block[idx]) else None;
    }
  }

  // ---- windows ----

  lemma {:induction false} BlockTypesAppend(a: seq<Ty>, b: seq<Ty>)
    ensures BlockTypes(a + b) == BlockTypes(a) + BlockTypes(b)
    decreases |a|
  {
    if a == [] {
      assert a + b == b;
    } else {
      assert (a + b)[1..] == a[1..] + b;
      BlockTypesAppend(a[1..], b);
    }
  }

  lemma {:induction false} WindowTypes(sig: seq<Ty>, i: nat)
    requires i <= |sig|
    ensures StartIndex(sig, i) == |BlockTypes(sig[..i])|
    decreases i
  {
    if i > 0 {
      WindowTypes(sig, i - 1);
      assert sig[..i] == sig[..i - 1] + [sig[i - 1]];
      BlockTypesAppend(sig[..i - 1], [sig[i - 1]]);
      var one := [sig[i - 1]];
      assert one[1..] == [] && BlockTypes([]) == [];
      TypeLength(sig[i - 1]);
    }
  }

  /** Argument i occupies exactly the block arguments from its start index to the next one, and
      they have its flattened types. */
  lemma ArgumentWindow(sig: seq<Ty>, i: nat)
    requires i < |sig|
    ensures StartIndex(sig, i + 1) == StartIndex(sig, i) + Width(sig[i]) <= |BlockTypes(sig)|
    ensures BlockTypes(sig)[StartIndex(sig, i)..StartIndex(sig, i + 1)] ==
            if IsOmitted(sig[i]) then [] else FlattenType(sig[i])
  {
    WindowTypes(sig, i);
    WindowTypes(sig, i + 1);
    assert sig == sig[..i] + sig[i..];
    BlockTypesAppend(sig[..i], sig[i..]);
    TypeLength(sig[i]);
  }

  /** The windows partition the block arguments: every one lies in the window of one argument. */
  lemma {:induction false} WindowsPartition(sig: seq<Ty>, p: nat) returns (i: nat)
    requires p < |BlockTypes(sig)|
    ensures i < |sig| && StartIndex(sig, i) <= p < StartIndex(sig, i + 1)
    ensures forall j :: 0 <= j < |sig| && StartIndex(sig, j) <= p < StartIndex(sig, j + 1) ==> j == i
  {
    WindowTypes(sig, |sig|);
    assert sig[..|sig|] == sig;
    i := |sig| - 1;
    while StartIndex(sig, i) > p
      invariant 0 <= i < |sig| && p < StartIndex(sig, i + 1)
      decreases i
    {
      i := i - 1;
    }
    forall j | 0 <= j < |sig| && StartIndex(sig, j) <= p < StartIndex(sig, j + 1) ensures j == i {
      if j < i { StartsGrow(sig, j + 1, i); }
      if i < j { StartsGrow(sig, i + 1, j); }
    }
  }

  lemma {:induction false} StartsGrow(sig: seq<Ty>, i: nat, j: nat)
    requires i <= j <= |sig|
    ensures StartIndex(sig, i) <= StartIndex(sig, j)
    decreases j - i
  {
    if i < j { StartsGrow(sig, i, j - 1); }
  }

  // ---- recovery ----

  lemma Suffix<T>(block: seq<T>, idx: nat, front: seq<T>, rest: seq<T>)
    requires idx <= |block| && front + rest == block[idx..]
    ensures rest == block[|block| - |rest|..]
  {
    assert forall i :: 0 <= i < |rest| ==> rest[i] == (front + rest)[|front| + i];
  }

  /** Reading block arguments by index is unflattening them from the start index on. */
  lemma {:induction false} ReassembleIsUnflatten(t: Ty, block: seq<Value>, start: nat)
    requires !t.NoneTy? && start <= |block|
    requires forall i :: 0 <= i < |block| ==> !block[i].Group?
    ensures Reassemble(t, block, start) ==
              match Unflatten(t, block[start..]) case None => None case Some((v, _)) => Some(v)
    decreases t, 1
  {
    if t.IsTuple() { ReassembleEachIsUnflatten(t.Elements(), block, start, t); }
  }

  lemma {:induction false} ReassembleEachIsUnflatten(ts: seq<Ty>, block: seq<Value>, idx: nat, whole: Ty)
    requires idx <= |block| && forall i :: 0 <= i < |ts| ==> ts[i] < whole
    requires forall i :: 0 <= i < |block| ==> !block[i].Group?
    ensures ReassembleEach(ts, block, idx, whole) ==
              match UnflattenEach(ts, block[idx..], whole) case None => None case Some((vs, _)) => Some(vs)
    decreases whole, 0, |ts|
  {
    if ts != [] {
      if !ts[0].NoneTy? { ReassembleIsUnflatten(ts[0], block, idx); }
      Converse(ts[0], block[idx..]);
      match Unflatten(ts[0], block[idx..])
      case None =>
      case Some((v, rest)) =>
        var next := idx + CountFlat(ts[0]);
        Suffix(block, idx, FlattenOperands(ts[0], v), rest);
        ReassembleEachIsUnflatten(ts[1..], block, next, whole);
    }
  }

  lemma {:induction false} BlockArgumentsAppend(a: seq<Ty>, x: seq<Value>, b: seq<Ty>, y: seq<Value>)
    requires |a| == |x| && |b| == |y|
    ensures BlockArguments(a + b, x + y) == BlockArguments(a, x) + BlockArguments(b, y)
    decreases |a|
  {
    if a == [] {
      assert a + b == b && x + y == y;
    } else {
      assert (a + b)[1..] == a[1..] + b && (x + y)[1..] == x[1..] + y;
      BlockArgumentsAppend(a[1..], x[1..], b, y);
    }
  }

  lemma {:induction false} BlockArgumentsLength(sig: seq<Ty>, args: seq<Value>)
    requires ShapedEach(sig, args)
    ensures |BlockArguments(sig, args)| == |BlockTypes(sig)|
    ensures forall i :: 0 <= i < |BlockArguments(sig, args)| ==> !BlockArguments(sig, args)[i].Group?
  {
    if sig != [] {
      RoundTrip(sig[0], args[0], []);
      LeavesOnly(sig[0], args[0]);
      TypeLength(sig[0]);
      BlockArgumentsLength(sig[1..], args[1..]);
    }
  }

  lemma {:induction false} LeavesOnly(t: Ty, v: Value)
    requires Shaped(t, v)
    ensures forall i :: 0 <= i < |FlattenOperands(t, v)| ==> !FlattenOperands(t, v)[i].Group?
    decreases v
  {
    if t.IsTuple() { LeavesOnlyEach(t.Elements(), v.elems); }
  }

  lemma {:induction false} LeavesOnlyEach(ts: seq<Ty>, vs: seq<Value>)
    requires ShapedEach(ts, vs)
    ensures forall i :: 0 <= i < |FlattenEach(ts, vs)| ==> !FlattenEach(ts, vs)[i].Group?
    decreases vs
  {
    if ts != [] {
      LeavesOnly(ts[0], vs[0]);
      LeavesOnlyEach(ts[1..], vs[1..]);
    }
  }

  lemma ArgumentSuffix(sig: seq<Ty>, args: seq<Value>, i: nat) returns (rest: seq<Value>)
    requires ShapedEach(sig, args) && i < |sig| && !IsOmitted(sig[i])
    ensures StartIndex(sig, i) <= |BlockArguments(sig, args)|
    ensures BlockArguments(sig, args)[StartIndex(sig, i)..] == FlattenOperands(sig[i], args[i]) + rest
  {
    assert sig == sig[..i] + sig[i..] && args == args[..i] + args[i..];
    BlockArgumentsAppend(sig[..i], args[..i], sig[i..], args[i..]);
    BlockArgumentsLength(sig[..i], args[..i]);
    WindowTypes(sig, i);
    rest := BlockArguments(sig[i..][1..], args[i..][1..]);
  }

  /** The callee gets back exactly argument i from the block arguments at its start index,
      whatever mix of omitted, None, scalar and nested tuple arguments surrounds it. */
  lemma ArgumentRecovered(sig: seq<Ty>, args: seq<Value>, i: nat)
    requires ShapedEach(sig, args) && i < |sig| && !IsOmitted(sig[i])
    ensures Reassemble(sig[i], BlockArguments(sig, args), StartIndex(sig, i)) == Some(Placed(sig[i], args[i]))
  {
    BlockArgumentsLength(sig, args);
    var rest := ArgumentSuffix(sig, args, i);
    RoundTrip(sig[i], args[i], rest);
    ReassembleIsUnflatten(sig[i], BlockArguments(sig, args), StartIndex(sig, i));
  }

  // ---- caller against callee ----

  /** None leaves inside the arguments that are passed. */
  function PassedNoneLeaves(sig: seq<Ty>): nat {
    if sig == [] then 0
    else (if IsOmitted(sig[0]) then 0 else NoneLeaves(sig[0])) + PassedNoneLeaves(sig[1..])
  }

  lemma {:induction false} CallOperandsLength(sig: seq<Ty>, args: seq<Value>)
    requires ShapedEach(sig, args)
    ensures |CallOperands(sig, args)| == |BlockArguments(sig, args)| + PassedNoneLeaves(sig)
    ensures PassedNoneLeaves(sig) == 0 ==> CallOperands(sig, args) == BlockArguments(sig, args)
  {
    if sig != [] {
      ValueLength(sig[0], args[0]);
      CallOperandsLength(sig[1..], args[1..]);
    }
  }

  ghost predicate TuplesNoneFree(sig: seq<Ty>) {
    forall i :: 0 <= i < |sig| && sig[i].IsTuple() ==> NoneLeaves(sig[i]) == 0
  }

  /** Arguments that are None themselves are not passed, so only tuples matter. */
  lemma {:induction false} PassedIffInTuples(sig: seq<Ty>)
    ensures PassedNoneLeaves(sig) == 0 <==> TuplesNoneFree(sig)
    decreases |sig|
  {
    if sig != [] {
      PassedIffInTuples(sig[1..]);
      assert forall i :: 0 <= i < |sig[1..]| ==> sig[1..][i] == sig[i + 1];
      assert forall i :: 1 <= i < |sig| ==> sig[i] == sig[1..][i - 1];
    }
  }

  /** A folded call supplies as many operands as its callee has block arguments exactly when no tuple
      among its arguments has a None leaf, and then every argument that is not None or omitted arrives
      unchanged. */
  lemma CallMatchesCalleeIffNoneFree(sig: seq<Ty>, args: seq<Value>)
    requires ShapedEach(sig, args)
    ensures |CallOperands(sig, args)| == |BlockTypes(sig)| <==> TuplesNoneFree(sig)
    ensures TuplesNoneFree(sig) ==>
              forall i :: 0 <= i < |sig| && !sig[i].Omitted? && !sig[i].NoneTy? ==>
                Reassemble(sig[i], CallOperands(sig, args), StartIndex(sig, i)) == Some(Placed(sig[i], args[i]))
  {
    CallOperandsLength(sig, args);
    BlockArgumentsLength(sig, args);
    PassedIffInTuples(sig);
    if PassedNoneLeaves(sig) == 0 {
      forall i | 0 <= i < |sig| && !IsOmitted(sig[i])
        ensures Reassemble(sig[i], CallOperands(sig, args), StartIndex(sig, i)) == Some(Placed(sig[i], args[i]))
      {
        ArgumentRecovered(sig, args, i);
      }
    }
  }

  /** The smallest such call: one argument (x, None) gives two operands for one block argument. */
  lemma NoneLeafShiftsOperands(x: nat, bits: nat)
    ensures var t := Tuple([Integer(bits, true), NoneTy]);
            var v := Group([Operand(x), Placeholder]);
            Shaped(t, v) && |CallOperands([t], [v])| == 2 && |BlockTypes([t])| == 1
  {
    var t := Tuple([Integer(bits, true), NoneTy]);
    var v := Group([Operand(x), Placeholder]);
    NoneLeafSlots(t, v);
    assert [t][1..] == [] && [v][1..] == [];
    assert CallOperands([], []) == [] && BlockTypes([]) == [];
  }

  lemma NoneLeafSlots(t: Ty, v: Value)
    requires t.Tuple? && |t.types| == 2 && t.types[0].Integer? && t.types[1].NoneTy?
    requires v.Group? && |v.elems| == 2 && !v.elems[0].Group? && !v.elems[1].Group?
    ensures |FlattenType(t)| == 1 && |FlattenValue(v)| == 2
  {
    TypeLength(t);
    var rest := t.types[1..];
    assert rest[1..] == [] && SumFlat(rest, t) == CountFlat(rest[0]) + SumFlat(rest[1..], t);
    assert SumFlat(t.types, t) == CountFlat(t.types[0]) + SumFlat(rest, t);
    var tail := v.elems[1..];
    assert tail[1..] == [] && FlattenValues(tail) == FlattenValue(tail[0]) + FlattenValues(tail[1..]);
    assert FlattenValues(v.elems) == FlattenValue(v.elems[0]) + FlattenValues(tail);
  }

  // ---- the consumed iterator of _unflatten_abi_value ----

  function Join(front: seq<Value>, o: Option<(seq<Value>, seq<Value>)>): Option<(seq<Value>, seq<Value>)> {
    if o.None? then None else Some((front + o.value.0, o.value.1))
  }

  lemma JoinOne(front: seq<Value>, v: Value, o: Option<(seq<Value>, seq<Value>)>)
    ensures Join(front + [v], o) == Join(front, Join([v], o))
    ensures Join([], o) == o
  {
    if o.Some? {
      assert front + [v] + o.value.0 == front + ([v] + o.value.0);
      assert [] + o.value.0 == o.value.0;
    }
  }

  lemma UnflattenStep(ts: seq<Ty>, ops: seq<Value>, whole: Ty)
    requires ts != [] && forall i :: 0 <= i < |ts| ==> ts[i] < whole
    ensures UnflattenEach(ts, ops, whole) ==
              var u := Unflatten(ts[0], ops);
              if u.None? then None else Join([u.value.0], UnflattenEach(ts[1..], u.value.1, whole))
  {
  }

  class ValueIterator {
    var rest: seq<Value>

    constructor (values: seq<Value>)
      ensures rest == values
    {
      rest := values;
    }

    /** next(); None stands for StopIteration. */
    method Next() returns (v: Option<Value>)
      modifies this
      ensures old(rest) == [] ==> v.None? && rest == []
      ensures old(rest) != [] ==> v == Some(old(rest)[0]) && rest == old(rest)[1..]
    {
      if rest == [] { return None; }
      v := Some(rest[0]);
      rest := rest[1..];
    }

    method UnflattenValue(t: Ty) returns (v: Option<Value>)
      modifies this
      ensures var u := Unflatten(t, old(rest));
              if u.Some? then v == Some(u.value.0) && rest == u.value.1 else v == None
      decreases t, 1
    {
      if t.NoneTy? {
        v := Some(Placeholder);
      } else if t.IsTuple() {
        var vs := UnflattenElements(t.Elements(), t);
        v := if vs.Some? then Some(Group(vs.value)) else None;
      } else {
        v := Next();
      }
    }

    method UnflattenElements(ts: seq<Ty>, ghost whole: Ty) returns (vs: Option<seq<Value>>)
      requires forall i :: 0 <= i < |ts| ==> ts[i] < whole
      modifies this
      ensures var u := UnflattenEach(ts, old(rest), whole);
              if u.Some? then vs == Some(u.value.0) && rest == u.value.1 else vs == None
      decreases whole, 0
    {
      var elements: seq<Value> := [];
      ghost var all := UnflattenEach(ts, rest, whole);
      assert ts[0..] == ts;
      JoinOne([], Placeholder, all);
      for i := 0 to |ts|
        invariant Join(elements, UnflattenEach(ts[i..], rest, whole)) == all
      {
        assert ts[i..][0] == ts[i] && ts[i..][1..] == ts[i + 1..];
        UnflattenStep(ts[i..], rest, whole);
        var elem := UnflattenValue(ts[i]);
        if elem.None? { return None; }
        JoinOne(elements, elem.value, UnflattenEach(ts[i + 1..], rest, whole));
        elements := elements + [elem.value];
      }
      assert UnflattenEach(ts[|ts|..], rest, whole) == Some(([], rest));
      assert elements + [] == elements;
      vs := Some(elements);
    }
  }
}
