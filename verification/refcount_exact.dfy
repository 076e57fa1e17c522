/** What the counting code of every statement does on all inputs, nested tuples with NRT content
    included: by how much counts and owners part, and exactly when they do not. */
module RefcountExact {
  import opened NumbaTypes
  import opened Refcount
  import opened RefcountConservation
  import opened RefcountCells
  import opened RefcountCounting
  import opened RefcountLedger
  import opened RefcountTheorems

  // ---- from states in which counts equal owners ----

  ghost predicate Balanced(ctx: Context, l: Lowering, i: Instr, regs: seq<Ptr>)
    requires |l.vals| == |ctx.types| && InRange(ctx, i)
  {
    Counted(Elementwise(i), ctx.types[i.x], Moved(ctx, l, i), regs)
  }

  lemma GapIff(ctx: Context, l: Lowering, i: Instr, regs: seq<Ptr>)
    requires |l.vals| == |ctx.types| && InRange(ctx, i)
    requires HasValue(ctx, i) ==> Typed(ctx.types[i.x], Moved(ctx, l, i), regs)
    ensures Balanced(ctx, l, i, regs) <==> forall o :: Gap(ctx, l, i, regs, o) == 0
  {
    var t, v := ctx.types[i.x], Moved(ctx, l, i);
    if HasValue(ctx, i) { MissedZero(Elementwise(i), t, v, regs); }
    assert forall o :: Gap(ctx, l, i, regs, o) == Missed(Elementwise(i), t, v, regs, o);
  }

  lemma NothingAdded(ctx: Context, l: Lowering, m: Machine, i: Instr, p: Machine)
    requires |l.vals| == |ctx.types| && InRange(ctx, i) && Moves(i) && Exec(m, ReadOps(ctx, l, i)) == Ok(p)
    requires forall o :: Reached(Elementwise(i), ctx.types[i.x], Moved(ctx, l, i), p.regs, o) > 0 ==> o in m.rc
    ensures forall o :: Added(ctx, l, m, i, o) > 0 ==> o in m.rc
  {
    ReadTo(ctx, l, m, i, p);
  }

  /** What a statement moves is owned already, or not reached. */
  lemma AddedOwned(ctx: Context, l: Lowering, live: set<nat>, m: Machine, i: Instr, callers: set<nat>)
    requires SlotsTyped(ctx) && Inv(ctx, l, live, m) && Allowed(ctx, callers, live, i) && Moves(i)
    requires i.Arg? ==> CallersOwn(callers, m)
    ensures forall o :: Added(ctx, l, m, i, o) > 0 ==> o in m.rc
  {
    var t, v := ctx.types[i.x], Moved(ctx, l, i);
    if i.TupleArg? {
      var p := TupleArgRead(ctx, l, live, m, t, i.ps);
      NothingAdded(ctx, l, m, i, p);
    } else if i.Arg? {
      OneOp(m, Param(i.p));
      if i.p.Obj? { assert m.outside[i.p.o] > 0; }
      NothingAdded(ctx, l, m, i, m.(regs := m.regs + [i.p]));
    } else if i.Build? {
      var p := LoadVarsOk(ctx, l, live, m, i.items);
      ReachedHeld(true, t, v, p.regs);
      NothingAdded(ctx, l, m, i, p);
    } else {
      var p := LoadVarOk(ctx, l, live, m, i.y);
      if i.Element? { ElementHeld(LoadVar(ctx, l, i.y).1.elems, p.regs, i.k); }
      ReachedHeld(Elementwise(i), t, v, p.regs);
      NothingAdded(ctx, l, m, i, p);
    }
  }

  /** No statement drops more references than are owned. */
  lemma DroppedOwned(ctx: Context, l: Lowering, live: set<nat>, m: Machine, i: Instr, callers: set<nat>)
    requires SlotsApart(ctx) && Shape(ctx, l, live, m) && Allowed(ctx, callers, live, i)
    ensures forall o :: Dropped(ctx, l, m, i, o) <= Owned(l, live, m, o)
  {
    if i.Del? && i.x !in ctx.slots {
      VarsKill(l.vals, live, m.regs, i.x, |l.vals|);
      ReachedHeld(true, ctx.types[i.x], l.vals[i.x], m.regs);
    } else if i.x in ctx.slots {
      SlotCellsInRange(ctx, ctx.types[i.x], ctx.slots[i.x]);
      CellsHeldBound(VarCells(ctx, i.x), m.cells);
    }
  }

  lemma AddedNonNegative(ctx: Context, l: Lowering, m: Machine, i: Instr)
    requires |l.vals| == |ctx.types| && InRange(ctx, i)
    ensures forall o :: Added(ctx, l, m, i, o) >= 0
  {
    if Moves(i) { ReachedHeld(Elementwise(i), ctx.types[i.x], Moved(ctx, l, i), AfterReading(ctx, l, m, i).regs); }
  }

  lemma ConservedFaultless(ctx: Context, l: Lowering, live: set<nat>, m: Machine, i: Instr, callers: set<nat>)
    requires SlotsApart(ctx) && Inv(ctx, l, live, m) && Allowed(ctx, callers, live, i)
    requires i.Arg? ==> CallersOwn(callers, m)
    ensures Faultless(ctx, l, m, i)
  {
    if Moves(i) { AddedOwned(ctx, l, live, m, i, callers); }
    AddedNonNegative(ctx, l, m, i);
    DroppedOwned(ctx, l, live, m, i, callers);
    forall o ensures SafeFor(ctx, l, m, i, o) {
      assert Added(ctx, l, m, i, o) >= 0 && Dropped(ctx, l, m, i, o) <= Owned(l, live, m, o);
      assert m.rc[o] == Owned(l, live, m, o);
    }
  }

  predicate PartsFor(ctx: Context, l: Lowering, live: set<nat>, i: Instr, r: Machine, o: nat)
    requires |l.vals| == |ctx.types| && InRange(ctx, i)
  {
    var k, after := Lower(ctx, l, i).1, After(ctx, live, i);
    if i.Del? then r.rc[o] == Owned(k, after, r, o) + Gap(ctx, l, i, r.regs, o)
    else r.rc[o] + Gap(ctx, l, i, r.regs, o) == Owned(k, after, r, o)
  }

  /** After statement i, counts are short of owners by exactly what its code misses; a del leaves
      them too high. */
  ghost predicate Parts(ctx: Context, l: Lowering, live: set<nat>, i: Instr, r: Machine)
    requires |l.vals| == |ctx.types| && InRange(ctx, i)
  {
    forall o :: PartsFor(ctx, l, live, i, r, o)
  }

  /** Every statement, from any state in which counts equal owners, runs without fault.  It leaves
      counts short of owners by exactly the references its code misses (a del leaves them too high),
      so they stay equal if and only if it misses none. */
  lemma StepExact(ctx: Context, l: Lowering, live: set<nat>, m: Machine, i: Instr, callers: set<nat>)
      returns (r: Machine)
    requires SlotsApart(ctx) && Inv(ctx, l, live, m) && Allowed(ctx, callers, live, i)
    requires i.Arg? ==> CallersOwn(callers, m)
    ensures Exec(m, Lower(ctx, l, i).0) == Ok(r) && m.outside <= r.outside
    ensures Shape(ctx, Lower(ctx, l, i).1, After(ctx, live, i), r)
    ensures HasValue(ctx, i) ==> Typed(ctx.types[i.x], Moved(ctx, l, i), r.regs)
    ensures Parts(ctx, l, live, i, r)
    ensures Conserved(Lower(ctx, l, i).1, After(ctx, live, i), r) <==> Balanced(ctx, l, i, r.regs)
  {
    ConservedFaultless(ctx, l, live, m, i, callers);
    r := StepLedger(ctx, l, live, m, i, callers);
    LedgerParts(ctx, l, live, m, i, r);
    GapIff(ctx, l, i, r.regs);
    PartsIff(ctx, l, live, i, r);
  }

  lemma LedgerParts(ctx: Context, l: Lowering, live: set<nat>, m: Machine, i: Instr, r: Machine)
    requires Inv(ctx, l, live, m) && InRange(ctx, i) && Keeps(ctx, l, live, m, i, r)
    requires Exec(m, Lower(ctx, l, i).0).Ok?
    ensures Parts(ctx, l, live, i, r)
  {
    var k, after := Lower(ctx, l, i).1, After(ctx, live, i);
    forall o ensures PartsFor(ctx, l, live, i, r, o) {
      assert Deficit(k, after, r, o) == Deficit(l, live, m, o) + Shift(ctx, l, i, r.regs, o);
      assert m.rc[o] == Owned(l, live, m, o);
    }
  }

  lemma PartsIff(ctx: Context, l: Lowering, live: set<nat>, i: Instr, r: Machine)
    requires |l.vals| == |ctx.types| && InRange(ctx, i) && Parts(ctx, l, live, i, r)
    ensures Conserved(Lower(ctx, l, i).1, After(ctx, live, i), r) <==> forall o :: Gap(ctx, l, i, r.regs, o) == 0
  {
    var k, after := Lower(ctx, l, i).1, After(ctx, live, i);
    forall o ensures r.rc[o] == Owned(k, after, r, o) <==> Gap(ctx, l, i, r.regs, o) == 0 {
      assert PartsFor(ctx, l, live, i, r, o);
    }
  }

  // ---- statement by statement ----

  /** In r, counts fall short of owners by what v misses. */
  ghost predicate Short(ctx: Context, l: Lowering, live: set<nat>, elementwise: bool, x: nat, v: Val, r: Machine)
    requires x < |ctx.types|
  {
    && Shape(ctx, l, live, r) && Typed(ctx.types[x], v, r.regs)
    && forall o :: r.rc[o] + Missed(elementwise, ctx.types[x], v, r.regs, o) == Owned(l, live, r, o)
  }

  lemma PartsShort(ctx: Context, l: Lowering, live: set<nat>, i: Instr, r: Machine)
    requires |l.vals| == |ctx.types| && InRange(ctx, i) && Moves(i) && Parts(ctx, l, live, i, r)
    requires Shape(ctx, Lower(ctx, l, i).1, After(ctx, live, i), r)
    requires Typed(ctx.types[i.x], Moved(ctx, l, i), r.regs)
    ensures Short(ctx, Lower(ctx, l, i).1, After(ctx, live, i), Elementwise(i), i.x, Moved(ctx, l, i), r)
  {
    var k, after := Lower(ctx, l, i).1, After(ctx, live, i);
    forall o ensures r.rc[o] + Missed(Elementwise(i), ctx.types[i.x], Moved(ctx, l, i), r.regs, o) ==
                     Owned(k, after, r, o) {
      assert PartsFor(ctx, l, live, i, r, o);
    }
  }

  lemma CopyStep(ctx: Context, l: Lowering, live: set<nat>, m: Machine, i: Instr, callers: set<nat>)
      returns (r: Machine)
    requires SlotsApart(ctx) && Inv(ctx, l, live, m) && Allowed(ctx, callers, live, i) && (i.Assign? || i.Forward?)
    ensures Exec(m, Lower(ctx, l, i).0) == Ok(r)
    ensures Short(ctx, Lower(ctx, l, i).1, After(ctx, live, i), true, i.x, LoadVar(ctx, l, i.y).1, r)
  {
    r := StepExact(ctx, l, live, m, i, callers);
    PartsShort(ctx, l, live, i, r);
  }

  lemma BuildStep(ctx: Context, l: Lowering, live: set<nat>, m: Machine, i: Instr, callers: set<nat>)
      returns (r: Machine)
    requires SlotsApart(ctx) && Inv(ctx, l, live, m) && Allowed(ctx, callers, live, i) && i.Build?
    ensures Exec(m, Lower(ctx, l, i).0) == Ok(r)
    ensures Short(ctx, Lower(ctx, l, i).1, After(ctx, live, i), true, i.x, Tup(LoadVars(ctx, l, i.items).1), r)
  {
    r := StepExact(ctx, l, live, m, i, callers);
    PartsShort(ctx, l, live, i, r);
  }

  lemma SingleStep(ctx: Context, l: Lowering, live: set<nat>, m: Machine, i: Instr, callers: set<nat>)
      returns (r: Machine)
    requires SlotsApart(ctx) && Inv(ctx, l, live, m) && Allowed(ctx, callers, live, i) && (i.Cast? || i.Element?)
    ensures Exec(m, Lower(ctx, l, i).0) == Ok(r)
    ensures Short(ctx, Lower(ctx, l, i).1, After(ctx, live, i), false, i.x, Moved(ctx, l, i), r)
  {
    r := StepExact(ctx, l, live, m, i, callers);
    PartsShort(ctx, l, live, i, r);
  }

  lemma TupleArgStep(ctx: Context, l: Lowering, live: set<nat>, m: Machine, i: Instr, callers: set<nat>)
      returns (r: Machine)
    requires SlotsApart(ctx) && Inv(ctx, l, live, m) && Allowed(ctx, callers, live, i) && i.TupleArg?
    ensures Exec(m, Lower(ctx, l, i).0) == Ok(r)
    ensures Short(ctx, Lower(ctx, l, i).1, After(ctx, live, i), false, i.x, ArgValue(ctx.types[i.x], l.next).0, r)
  {
    r := StepExact(ctx, l, live, m, i, callers);
    PartsShort(ctx, l, live, i, r);
  }

  /** A del of a singly-assigned variable keeps the references it misses. */
  lemma DelStep(ctx: Context, l: Lowering, live: set<nat>, m: Machine, x: nat) returns (r: Machine)
    requires SlotsApart(ctx) && Inv(ctx, l, live, m) && x in live
    ensures Exec(m, Lower(ctx, l, Del(x)).0) == Ok(r) && Lower(ctx, l, Del(x)).1 == l && Shape(ctx, l, live - {x}, r)
    ensures forall o :: r.rc[o] == Owned(l, live - {x}, r, o) + Missed(true, ctx.types[x], l.vals[x], r.regs, o)
  {
    r := StepExact(ctx, l, live, m, Del(x), {});
    forall o ensures r.rc[o] == Owned(l, live - {x}, r, o) + Missed(true, ctx.types[x], l.vals[x], r.regs, o) {
      assert PartsFor(ctx, l, live, Del(x), r, o);
    }
  }

  // ---- whole paths ----

  /** The code of path runs without fault from m and counts equal owners after every statement. */
  ghost predicate ConservedThroughout(ctx: Context, l: Lowering, live: set<nat>, m: Machine, path: seq<Instr>)
    requires |l.vals| == |ctx.types| && forall i :: i in path ==> InRange(ctx, i)
    decreases |path|
  {
    path == [] ||
    (var (ops, k) := Lower(ctx, l, path[0]);
     var after := After(ctx, live, path[0]);
     var r := Exec(m, ops);
     r.Ok? && Conserved(k, after, r.m) && ConservedThroughout(ctx, k, after, r.m, path[1..]))
  }

  /** No statement of path misses a reference. */
  ghost predicate BalancedThroughout(ctx: Context, l: Lowering, m: Machine, path: seq<Instr>)
    requires |l.vals| == |ctx.types| && forall i :: i in path ==> InRange(ctx, i)
    decreases |path|
  {
    path == [] ||
    (var (ops, k) := Lower(ctx, l, path[0]);
     var r := Exec(m, ops);
     r.Ok? && Balanced(ctx, l, path[0], r.m.regs) && BalancedThroughout(ctx, k, r.m, path[1..]))
  }

  /** Along every path that follows the discipline, whatever its types, counts equal owners after
      every statement if and only if no statement misses a reference. */
  lemma {:induction false} PathExact(ctx: Context, callers: set<nat>, l: Lowering, live: set<nat>, m: Machine,
        path: seq<Instr>)
    requires SlotsApart(ctx) && Inv(ctx, l, live, m) && CallersOwn(callers, m) && AllowedPath(ctx, callers, live, path)
    requires forall i :: i in path ==> InRange(ctx, i)
    ensures ConservedThroughout(ctx, l, live, m, path) <==> BalancedThroughout(ctx, l, m, path)
    decreases |path|
  {
    if path != [] {
      var k := Lower(ctx, l, path[0]).1;
      var r := StepExact(ctx, l, live, m, path[0], callers);
      if Balanced(ctx, l, path[0], r.regs) {
        forall o | o in callers ensures o in r.outside { assert m.outside[o] <= r.outside[o]; }
        PathExact(ctx, callers, k, After(ctx, live, path[0]), r, path[1..]);
      }
    }
  }

  // ---- which types are always counted ----

  /** A value of type t whose every MemInfo is that of object 0. */
  function Sample(t: Ty): Val
    decreases t, 1
  {
    if t.IsTuple() then Tup(Samples(t.Elements(), t)) else if t.Managed? then Reg(0) else NONE
  }

  function Samples(ts: seq<Ty>, ghost whole: Ty): (vs: seq<Val>)
    requires forall i :: 0 <= i < |ts| ==> ts[i] < whole
    ensures |vs| == |ts|
    decreases whole, 0, |ts|
  {
    if ts == [] then [] else [Sample(ts[0])] + Samples(ts[1..], whole)
  }

  lemma {:induction false} SampleHolds(t: Ty)
    ensures Typed(t, Sample(t), [Obj(0)])
    ensures Held(Sample(t), [Obj(0)], 0) == LeafCount(t)
    decreases t, 1
  {
    if t.IsTuple() { SamplesHold(t.Elements(), t); }
  }

  lemma {:induction false} SamplesHold(ts: seq<Ty>, whole: Ty)
    requires forall i :: 0 <= i < |ts| ==> ts[i] < whole
    ensures TypedAll(ts, Samples(ts, whole), [Obj(0)])
    ensures HeldAll(Samples(ts, whole), [Obj(0)], 0) == LeafCounts(ts, whole)
    ensures forall i :: 0 <= i < |ts| ==> Samples(ts, whole)[i] == Sample(ts[i])
    decreases whole, 0, |ts|
  {
    if ts != [] {
      var vs := Samples(ts[1..], whole);
      SampleHolds(ts[0]);
      SamplesHold(ts[1..], whole);
      TypedCons(ts, Sample(ts[0]), vs, [Obj(0)]);
      HeldCons(Sample(ts[0]), vs, [Obj(0)]);
    }
  }

  lemma PlainHoldsNothing(t: Ty, v: Val, regs: seq<Ptr>)
    requires Typed(t, v, regs)
    ensures !HasMeminfo(t) ==> HoldsNothing(v, regs)
  {
    if !HasMeminfo(t) && !HoldsNothing(v, regs) {
      NoMeminfoHoldsNothing(t, v, regs);
      var o := HoldsSome(v, regs);
      assert false;
    }
  }

  lemma SampleCounted(t: Ty)
    ensures HoldsNothing(Sample(t), [Obj(0)]) <==> !HasMeminfo(t)
  {
    SampleHolds(t);
    MeminfoIffLeaves(t);
    if HoldsNothing(Sample(t), [Obj(0)]) { HoldsNone(Sample(t), [Obj(0)]); }
    PlainHoldsNothing(t, Sample(t), [Obj(0)]);
  }

  ghost predicate AlwaysCounted(elementwise: bool, t: Ty) {
    forall v, regs :: Typed(t, v, regs) ==> Counted(elementwise, t, v, regs)
  }

  lemma SampleUncounted(t: Ty)
    ensures t.IsTuple() && HasMeminfo(t) ==> !AlwaysCounted(false, t)
  {
    if t.IsTuple() && HasMeminfo(t) {
      SampleHolds(t);
      SampleCounted(t);
      assert !Counted(false, t, Sample(t), [Obj(0)]);
    }
  }

  /** Counted as a single value, every value of a type is counted in full exactly when the type is
      no tuple with NRT content. */
  lemma AlwaysCountedAsOneIff(t: Ty)
    ensures AlwaysCounted(false, t) <==> (t.IsTuple() ==> !HasMeminfo(t))
  {
    SampleUncounted(t);
    if t.IsTuple() ==> !HasMeminfo(t) {
      forall v, regs | Typed(t, v, regs) ensures Counted(false, t, v, regs) {
        PlainHoldsNothing(t, v, regs);
      }
    }
  }

  lemma NestedSampleUncounted(t: Ty, k: nat)
    requires t.IsTuple() && k < |t.Elements()| && t.Elements()[k].IsTuple() && HasMeminfo(t.Elements()[k])
    ensures !AlwaysCounted(true, t)
  {
    var ts := t.Elements();
    SampleHolds(t);
    SamplesHold(ts, t);
    SampleCounted(ts[k]);
    assert !NestedHoldNothing(ts, Samples(ts, t), [Obj(0)]);
    assert !Counted(true, t, Sample(t), [Obj(0)]);
  }

  /** Counted element by element, exactly when no tuple-typed element has NRT content. */
  lemma AlwaysCountedByElementIff(t: Ty)
    ensures AlwaysCounted(true, t) <==> Flat(t)
  {
    if Flat(t) {
      forall v, regs | Typed(t, v, regs) ensures Counted(true, t, v, regs) {
        if t.IsTuple() { FlatHoldNothing(t.Elements(), v.elems, regs); }
      }
    } else {
      var k :| 0 <= k < |t.Elements()| && t.Elements()[k].IsTuple() && HasMeminfo(t.Elements()[k]);
      NestedSampleUncounted(t, k);
    }
  }

  lemma FlatHoldNothing(ts: seq<Ty>, vs: seq<Val>, regs: seq<Ptr>)
    requires TypedAll(ts, vs, regs) && FlatElements(ts)
    ensures NestedHoldNothing(ts, vs, regs)
  {
    forall k | 0 <= k < |ts| && ts[k].IsTuple() ensures HoldsNothing(vs[k], regs) {
      PlainHoldsNothing(ts[k], vs[k], regs);
    }
  }
}
