/** The walk that finds the NRT MemInfos of a value: type_has_nrt_meminfo, _get_meminfos, and the
    calls that incref and decref emit. */
module NrtContext {
  import opened Lru

  /** A type as the data model manager sees it.  own: the model's has_nrt_meminfo; contains: its
      contains_nrt_meminfo; members: what traverse_mlir yields, nothing for a model without it. */
  datatype Type =
    | NoModel
    | Plain(own: bool, contains: bool, members: seq<Type>)
    | TupleType(own: bool, contains: bool, members: seq<Type>, elements: seq<Type>)

  /** A value: its own MemInfo pointer, if get_nrt_meminfo yields one, and what the getters yield. */
  datatype Value = Value(meminfo: Option<nat>, fields: seq<Value>)

  datatype Call = Incref(meminfo: nat) | Decref(meminfo: nat)

  /** type_has_nrt_meminfo */
  predicate HasMeminfo(t: Type) {
    match t
    case NoModel => false
    case Plain(own, contains, members) =>
      own || contains || exists i :: 0 <= i < |members| && HasMeminfo(members[i])
    case TupleType(own, _, _, elements) =>
      own || exists i :: 0 <= i < |elements| && HasMeminfo(elements[i])
  }

  /** _get_meminfos */
  function Meminfos(t: Type, v: Value): seq<nat>
    decreases t, 1
  {
    match t
    case NoModel => []
    case Plain(own, _, members) => Own(own, v) + MemberMeminfos(members, v.fields)
    case TupleType(own, _, members, _) => Own(own, v) + MemberMeminfos(members, v.fields)
  }

  function Own(own: bool, v: Value): seq<nat> {
    if own && v.meminfo.Some? then [v.meminfo.value] else []
  }

  function MemberMeminfos(ts: seq<Type>, vs: seq<Value>): seq<nat>
    decreases ts, 0
  {
    if ts == [] || vs == [] then [] else Meminfos(ts[0], vs[0]) + MemberMeminfos(ts[1..], vs[1..])
  }

  /** Tuples are walked by their element types only, and are not SSA values: their models do not
      traverse. */
  ghost predicate TuplesOpaque(t: Type)
    decreases t
  {
    match t
    case NoModel => true
    case Plain(_, _, members) => forall i :: 0 <= i < |members| ==> TuplesOpaque(members[i])
    case TupleType(_, _, members, _) => members == []
  }

  /** contains_nrt_meminfo reports nothing that the walk cannot reach, and no tuple is inside. */
  ghost predicate Walkable(t: Type)
    decreases t
  {
    match t
    case NoModel => true
    case Plain(own, contains, members) =>
      && (forall i :: 0 <= i < |members| ==> Walkable(members[i]))
      && (contains ==> own || exists i :: 0 <= i < |members| && HasMeminfo(members[i]))
    case TupleType(_, _, _, _) => false
  }

  /** Every MemInfo the type announces is there. */
  ghost predicate Complete(t: Type, v: Value)
    decreases t
  {
    match t
    case NoModel => true
    case Plain(own, _, members) =>
      && (own ==> v.meminfo.Some?)
      && |v.fields| == |members| && forall i :: 0 <= i < |members| ==> Complete(members[i], v.fields[i])
    case TupleType(own, _, _, _) => own ==> v.meminfo.Some?
  }

  /** The guard of del is sound: where the type has no MemInfo, nothing would be emitted. */
  lemma {:induction false} NoMeminfoNoCalls(t: Type, v: Value)
    requires TuplesOpaque(t) && !HasMeminfo(t)
    ensures Meminfos(t, v) == []
    decreases t, 1
  {
    if t.Plain? { NoMembersNoCalls(t.members, v.fields); }
  }

  lemma {:induction false} NoMembersNoCalls(ts: seq<Type>, vs: seq<Value>)
    requires forall i :: 0 <= i < |ts| ==> TuplesOpaque(ts[i]) && !HasMeminfo(ts[i])
    ensures MemberMeminfos(ts, vs) == []
    decreases ts, 0
  {
    if ts != [] && vs != [] {
      NoMeminfoNoCalls(ts[0], vs[0]);
      NoMembersNoCalls(ts[1..], vs[1..]);
    }
  }

  /** The guard is exact outside tuples: a type has a MemInfo exactly when its complete values have
      one to count. */
  lemma {:induction false} GuardIsExact(t: Type, v: Value)
    requires Walkable(t) && Complete(t, v)
    ensures HasMeminfo(t) <==> Meminfos(t, v) != []
    decreases t, 1
  {
    if t.Plain? { MembersExact(t.members, v.fields); }
  }

  lemma {:induction false} MembersExact(ts: seq<Type>, vs: seq<Value>)
    requires |ts| == |vs| && forall i :: 0 <= i < |ts| ==> Walkable(ts[i]) && Complete(ts[i], vs[i])
    ensures (exists i :: 0 <= i < |ts| && HasMeminfo(ts[i])) <==> MemberMeminfos(ts, vs) != []
    decreases ts, 0
  {
    if ts != [] {
      GuardIsExact(ts[0], vs[0]);
      MembersExact(ts[1..], vs[1..]);
      assert ts == [ts[0]] + ts[1..];
      assert forall i :: 1 <= i < |ts| ==> ts[i] == ts[1..][i - 1];
      assert forall i :: 0 <= i < |ts[1..]| ==> ts[1..][i] == ts[i + 1];
    }
  }

  /** A tuple passes the guard by its elements, but the walk over it as one value finds nothing: the
      lowering has to count element by element. */
  lemma TupleWalkFindsNothing(t: Type, v: Value, i: nat)
    requires t.TupleType? && TuplesOpaque(t) && !t.own && i < |t.elements| && HasMeminfo(t.elements[i])
    ensures HasMeminfo(t) && Meminfos(t, v) == []
  {
  }

  /** A type whose model only says that it contains MemInfos reports one that the walk cannot reach. */
  lemma ContentsOutOfReach(t: Type, v: Value)
    requires t.Plain? && t.contains && !t.own && forall i :: 0 <= i < |t.members| ==>
               TuplesOpaque(t.members[i]) && !HasMeminfo(t.members[i])
    ensures HasMeminfo(t) && Meminfos(t, v) == []
  {
    NoMembersNoCalls(t.members, v.fields);
  }

  // ---- counts ----

  /** The effect of emitted calls on the counts; Decref of an object without references does nothing
      here, and is excluded by the lemmas. */
  function Apply(rc: multiset<nat>, calls: seq<Call>): multiset<nat>
    decreases |calls|
  {
    if calls == [] then rc
    else
      var n := |calls| - 1;
      var r := Apply(rc, calls[..n]);
      match calls[n]
      case Incref(m) => r + multiset{m}
      case Decref(m) => r - multiset{m}
  }

  lemma ApplyOne(rc: multiset<nat>, calls: seq<Call>, c: Call)
    ensures Apply(rc, calls + [c]) ==
            if c.Incref? then Apply(rc, calls) + multiset{c.meminfo} else Apply(rc, calls) - multiset{c.meminfo}
  {
    assert (calls + [c])[..|calls|] == calls;
  }

  /** From before to calls, the counts of ms were raised. */
  ghost predicate Raised(before: seq<Call>, calls: seq<Call>, ms: seq<nat>) {
    before <= calls && forall rc :: Apply(rc, calls) == Apply(rc, before) + multiset(ms)
  }

  /** From before to calls, the counts of ms were lowered. */
  ghost predicate Lowered(before: seq<Call>, calls: seq<Call>, ms: seq<nat>) {
    before <= calls && forall rc :: Apply(rc, calls) == Apply(rc, before) - multiset(ms)
  }

  lemma RaisedOne(before: seq<Call>, calls: seq<Call>, ms: seq<nat>, m: nat)
    requires Raised(before, calls, ms)
    ensures Raised(before, calls + [Incref(m)], ms + [m])
  {
    forall rc ensures Apply(rc, calls + [Incref(m)]) == Apply(rc, before) + multiset(ms + [m]) {
      ApplyOne(rc, calls, Incref(m));
    }
  }

  lemma LoweredOne(before: seq<Call>, calls: seq<Call>, ms: seq<nat>, m: nat)
    requires Lowered(before, calls, ms)
    ensures Lowered(before, calls + [Decref(m)], ms + [m])
  {
    forall rc ensures Apply(rc, calls + [Decref(m)]) == Apply(rc, before) - multiset(ms + [m]) {
      ApplyOne(rc, calls, Decref(m));
      MinusMore(Apply(rc, before), multiset(ms), m);
      assert multiset(ms + [m]) == multiset(ms) + multiset{m};
    }
  }

  lemma MinusMore(a: multiset<nat>, b: multiset<nat>, x: nat)
    ensures a - (b + multiset{x}) == a - b - multiset{x}
  {
  }

  class MLIRNRTContext {
    var calls: seq<Call>

    constructor ()
      ensures calls == []
    {
      calls := [];
    }

    /** incref: one NRT_incref for every MemInfo reachable from the value. */
    method IncrefValue(t: Type, v: Value)
      modifies this
      ensures old(calls) <= calls
      ensures forall rc :: Apply(rc, calls) == Apply(rc, old(calls)) + multiset(Meminfos(t, v))
    {
      var ms := Meminfos(t, v);
      for i := 0 to |ms|
        invariant Raised(old(calls), calls, ms[..i])
      {
        RaisedOne(old(calls), calls, ms[..i], ms[i]);
        assert ms[..i + 1] == ms[..i] + [ms[i]];
        calls := calls + [Incref(ms[i])];
      }
      assert ms[..|ms|] == ms;
    }

    /** decref: one NRT_decref for every MemInfo reachable from the value. */
    method DecrefValue(t: Type, v: Value)
      modifies this
      ensures old(calls) <= calls
      ensures forall rc :: Apply(rc, calls) == Apply(rc, old(calls)) - multiset(Meminfos(t, v))
    {
      var ms := Meminfos(t, v);
      for i := 0 to |ms|
        invariant Lowered(old(calls), calls, ms[..i])
      {
        LoweredOne(old(calls), calls, ms[..i], ms[i]);
        assert ms[..i + 1] == ms[..i] + [ms[i]];
        calls := calls + [Decref(ms[i])];
      }
      assert ms[..|ms|] == ms;
    }
  }
}
