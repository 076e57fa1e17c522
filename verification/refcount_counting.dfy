/** Counting code and stores on all inputs, nested tuples with NRT content included: which references
    they reach and which they miss, exactly when they fault, and what they leave otherwise. */
module RefcountCounting {
  import opened NumbaTypes
  import opened Refcount
  import opened RefcountConservation
  import opened RefcountCells

  // ---- references that counting code misses ----

  /** References in a value that incref and decref ignore, for it is a Python tuple. */
  function Ignored(t: Ty, v: Val, regs: seq<Ptr>, o: nat): nat {
    if t.IsTuple() then Held(v, regs, o) else 0
  }

  function IgnoredEach(ts: seq<Ty>, vs: seq<Val>, regs: seq<Ptr>, o: nat): nat {
    if ts == [] || vs == [] then 0 else Ignored(ts[0], vs[0], regs, o) + IgnoredEach(ts[1..], vs[1..], regs, o)
  }

  /** References that counting a value misses: those below its tuple-typed elements when elements
      are counted one by one, all those of a tuple when it is counted as a single value. */
  function Missed(elementwise: bool, t: Ty, v: Val, regs: seq<Ptr>, o: nat): nat {
    if !elementwise then Ignored(t, v, regs, o)
    else if t.IsTuple() && v.Tup? then IgnoredEach(t.Elements(), v.elems, regs, o)
    else 0
  }

  ghost predicate HoldsNothing(v: Val, regs: seq<Ptr>)
    decreases v
  {
    match v
    case Reg(r) => r < |regs| ==> !regs[r].Obj?
    case Tup(vs) => forall i :: 0 <= i < |vs| ==> HoldsNothing(vs[i], regs)
    case Const(_) => true
  }

  ghost predicate NestedHoldNothing(ts: seq<Ty>, vs: seq<Val>, regs: seq<Ptr>) {
    forall k :: 0 <= k < |ts| && k < |vs| && ts[k].IsTuple() ==> HoldsNothing(vs[k], regs)
  }

  /** No reference is missed: nothing is held below the tuple-typed elements, or in a tuple counted
      as a single value. */
  ghost predicate Counted(elementwise: bool, t: Ty, v: Val, regs: seq<Ptr>) {
    t.IsTuple() && v.Tup? ==>
      if elementwise then NestedHoldNothing(t.Elements(), v.elems, regs) else HoldsNothing(v, regs)
  }

  lemma {:induction false} HoldsNone(v: Val, regs: seq<Ptr>)
    requires HoldsNothing(v, regs)
    ensures forall o :: Held(v, regs, o) == 0
    decreases v
  {
    if v.Tup? { HoldNone(v.elems, regs); }
  }

  lemma {:induction false} HoldNone(vs: seq<Val>, regs: seq<Ptr>)
    requires forall i :: 0 <= i < |vs| ==> HoldsNothing(vs[i], regs)
    ensures forall o :: HeldAll(vs, regs, o) == 0
    decreases vs
  {
    if vs != [] {
      HoldsNone(vs[0], regs);
      HoldNone(vs[1..], regs);
    }
  }

  lemma {:induction false} HoldsSome(v: Val, regs: seq<Ptr>) returns (o: nat)
    requires !HoldsNothing(v, regs)
    ensures Held(v, regs, o) > 0
    decreases v
  {
    match v
    case Reg(r) => o := regs[r].o;
    case Tup(vs) =>
      var i :| 0 <= i < |vs| && !HoldsNothing(vs[i], regs);
      o := HoldsSome(vs[i], regs);
      ElementHeld(vs, regs, i);
  }

  lemma {:induction false} NestedHoldNone(ts: seq<Ty>, vs: seq<Val>, regs: seq<Ptr>)
    requires NestedHoldNothing(ts, vs, regs)
    ensures forall o :: IgnoredEach(ts, vs, regs, o) == 0
    decreases |ts|
  {
    if ts != [] && vs != [] {
      if ts[0].IsTuple() { HoldsNone(vs[0], regs); }
      NestedHoldNone(ts[1..], vs[1..], regs);
    }
  }

  lemma {:induction false} ElementIgnored(ts: seq<Ty>, vs: seq<Val>, regs: seq<Ptr>, k: nat, o: nat)
    requires k < |ts| && k < |vs|
    ensures Ignored(ts[k], vs[k], regs, o) <= IgnoredEach(ts, vs, regs, o)
    decreases k
  {
    if k > 0 { ElementIgnored(ts[1..], vs[1..], regs, k - 1, o); }
  }

  /** Exactly the values that hold nothing where the counting code does not look miss nothing. */
  lemma MissedZero(elementwise: bool, t: Ty, v: Val, regs: seq<Ptr>)
    requires Typed(t, v, regs)
    ensures Counted(elementwise, t, v, regs) <==> forall o :: Missed(elementwise, t, v, regs, o) == 0
  {
    if t.IsTuple() {
      var ts, vs := t.Elements(), v.elems;
      if elementwise {
        if NestedHoldNothing(ts, vs, regs) {
          NestedHoldNone(ts, vs, regs);
        } else {
          var k :| 0 <= k < |ts| && k < |vs| && ts[k].IsTuple() && !HoldsNothing(vs[k], regs);
          var o := HoldsSome(vs[k], regs);
          ElementIgnored(ts, vs, regs, k, o);
          assert Missed(elementwise, t, v, regs, o) > 0;
        }
      } else if HoldsNothing(v, regs) {
        HoldsNone(v, regs);
      } else {
        var o := HoldsSome(v, regs);
        assert Missed(elementwise, t, v, regs, o) > 0;
      }
    }
  }

  lemma {:induction false} IgnoredEachExtends(ts: seq<Ty>, vs: seq<Val>, regs: seq<Ptr>, more: seq<Ptr>)
    requires TypedAll(ts, vs, regs) && regs <= more
    ensures forall o :: IgnoredEach(ts, vs, more, o) == IgnoredEach(ts, vs, regs, o)
    decreases |ts|
  {
    if ts != [] {
      TypedExtends(ts[0], vs[0], regs, more);
      IgnoredEachExtends(ts[1..], vs[1..], regs, more);
    }
  }

  /** Registers are defined once, so what a value misses does not change. */
  lemma MissedExtends(elementwise: bool, t: Ty, v: Val, regs: seq<Ptr>, more: seq<Ptr>)
    requires Typed(t, v, regs) && regs <= more
    ensures Typed(t, v, more) && forall o :: Missed(elementwise, t, v, more, o) == Missed(elementwise, t, v, regs, o)
  {
    TypedExtends(t, v, regs, more);
    if t.IsTuple() { IgnoredEachExtends(t.Elements(), v.elems, regs, more); }
  }

  lemma {:induction false} IgnoredEachBound(ts: seq<Ty>, vs: seq<Val>, regs: seq<Ptr>)
    ensures forall o :: IgnoredEach(ts, vs, regs, o) <= HeldAll(vs, regs, o)
    decreases |ts|
  {
    if ts != [] && vs != [] {
      IgnoredEachBound(ts[1..], vs[1..], regs);
      assert forall o :: HeldAll(vs, regs, o) == Held(vs[0], regs, o) + HeldAll(vs[1..], regs, o);
    }
  }

  lemma MissedBelow(elementwise: bool, t: Ty, v: Val, regs: seq<Ptr>)
    ensures forall o :: Missed(elementwise, t, v, regs, o) <= Held(v, regs, o)
  {
    if t.IsTuple() && v.Tup? {
      IgnoredEachBound(t.Elements(), v.elems, regs);
      assert forall o :: Held(v, regs, o) == HeldAll(v.elems, regs, o);
    }
  }

  // ---- running the counting code ----

  /** References that counting a value reaches. */
  function Reached(elementwise: bool, t: Ty, v: Val, regs: seq<Ptr>, o: nat): int {
    Held(v, regs, o) - Missed(elementwise, t, v, regs, o)
  }

  /** ops, run from m, fault or change counts only. */
  ghost predicate CountsOrFaults(m: Machine, ops: seq<Op>, r: Machine) {
    Exec(m, ops).Ok? ==> Exec(m, ops) == Ok(r) && OnlyCounts(m, r)
  }

  lemma OneOp(m: Machine, op: Op)
    ensures Exec(m, [op]) == Exec1(m, op)
  {
    assert [op][1..] == [];
  }

  lemma IncrefIff(m: Machine, t: Ty, v: Val) returns (r: Machine)
    requires Typed(t, v, m.regs)
    ensures CountsOrFaults(m, IncrefOps(t, v), r)
    ensures Exec(m, IncrefOps(t, v)).Ok? <==> forall o :: Reached(false, t, v, m.regs, o) > 0 ==> o in m.rc
    ensures Exec(m, IncrefOps(t, v)).Ok? ==> forall o :: r.rc[o] == m.rc[o] + Reached(false, t, v, m.regs, o)
  {
    r := m;
    if t.Managed? {
      OneOp(m, Incref(v.r));
      if m.regs[v.r].Obj? { assert Reached(false, t, v, m.regs, m.regs[v.r].o) == 1; }
      if Exec1(m, Incref(v.r)).Ok? { r := Exec1(m, Incref(v.r)).m; }
    } else if !t.IsTuple() {
      NoMeminfoHoldsNothing(t, v, m.regs);
    }
  }

  lemma DecrefIff(m: Machine, t: Ty, v: Val) returns (r: Machine)
    requires Typed(t, v, m.regs)
    ensures CountsOrFaults(m, DecrefOps(t, v), r)
    ensures Exec(m, DecrefOps(t, v)).Ok? <==> forall o :: Reached(false, t, v, m.regs, o) <= m.rc[o]
    ensures Exec(m, DecrefOps(t, v)).Ok? ==> forall o :: r.rc[o] == m.rc[o] - Reached(false, t, v, m.regs, o)
  {
    r := m;
    if t.Managed? {
      OneOp(m, Decref(v.r));
      if m.regs[v.r].Obj? { assert Reached(false, t, v, m.regs, m.regs[v.r].o) == 1; }
      if Exec1(m, Decref(v.r)).Ok? { r := Exec1(m, Decref(v.r)).m; }
    } else if !t.IsTuple() {
      NoMeminfoHoldsNothing(t, v, m.regs);
    }
  }

  function ReachedEach(ts: seq<Ty>, vs: seq<Val>, regs: seq<Ptr>, o: nat): int {
    HeldAll(vs, regs, o) - IgnoredEach(ts, vs, regs, o)
  }

  lemma ReachedCons(ts: seq<Ty>, vs: seq<Val>, regs: seq<Ptr>)
    requires ts != [] && vs != []
    ensures forall o :: ReachedEach(ts, vs, regs, o) ==
                        Reached(false, ts[0], vs[0], regs, o) + ReachedEach(ts[1..], vs[1..], regs, o)
    ensures forall o :: Reached(false, ts[0], vs[0], regs, o) >= 0 && ReachedEach(ts[1..], vs[1..], regs, o) >= 0
  {
    IgnoredEachBound(ts[1..], vs[1..], regs);
    assert forall o :: HeldAll(vs, regs, o) == Held(vs[0], regs, o) + HeldAll(vs[1..], regs, o);
  }

  /** The increfs of a tuple's elements fault exactly when they reach an object without references. */
  lemma {:induction false} IncrefEachIff(m: Machine, ts: seq<Ty>, vs: seq<Val>) returns (r: Machine)
    requires TypedAll(ts, vs, m.regs)
    ensures CountsOrFaults(m, IncrefEach(ts, vs), r)
    ensures Exec(m, IncrefEach(ts, vs)).Ok? <==> forall o :: ReachedEach(ts, vs, m.regs, o) > 0 ==> o in m.rc
    ensures Exec(m, IncrefEach(ts, vs)).Ok? ==> forall o :: r.rc[o] == m.rc[o] + ReachedEach(ts, vs, m.regs, o)
    decreases |vs|
  {
    r := m;
    if vs != [] {
      ReachedCons(ts, vs, m.regs);
      ExecAppend(m, IncrefOps(ts[0], vs[0]), IncrefEach(ts[1..], vs[1..]));
      var n := IncrefIff(m, ts[0], vs[0]);
      if Exec(m, IncrefOps(ts[0], vs[0])).Ok? {
        r := IncrefEachIff(n, ts[1..], vs[1..]);
      } else {
        var o :| Reached(false, ts[0], vs[0], m.regs, o) > 0 && o !in m.rc;
        assert ReachedEach(ts, vs, m.regs, o) > 0;
      }
    }
  }

  /** The decrefs fault exactly when they reach an object more often than it has references. */
  lemma {:induction false} DecrefEachIff(m: Machine, ts: seq<Ty>, vs: seq<Val>) returns (r: Machine)
    requires TypedAll(ts, vs, m.regs)
    ensures CountsOrFaults(m, DecrefEach(ts, vs), r)
    ensures Exec(m, DecrefEach(ts, vs)).Ok? <==> forall o :: ReachedEach(ts, vs, m.regs, o) <= m.rc[o]
    ensures Exec(m, DecrefEach(ts, vs)).Ok? ==> forall o :: r.rc[o] == m.rc[o] - ReachedEach(ts, vs, m.regs, o)
    decreases |vs|
  {
    r := m;
    if vs != [] {
      ReachedCons(ts, vs, m.regs);
      ExecAppend(m, DecrefOps(ts[0], vs[0]), DecrefEach(ts[1..], vs[1..]));
      var n := DecrefIff(m, ts[0], vs[0]);
      if Exec(m, DecrefOps(ts[0], vs[0])).Ok? {
        r := DecrefEachIff(n, ts[1..], vs[1..]);
      } else {
        var o :| Reached(false, ts[0], vs[0], m.regs, o) > m.rc[o];
        assert ReachedEach(ts, vs, m.regs, o) > m.rc[o];
      }
    }
  }

  /** The increfs of a copy. */
  lemma CopyIff(m: Machine, t: Ty, v: Val) returns (r: Machine)
    requires Typed(t, v, m.regs)
    ensures CountsOrFaults(m, CopyOps(t, v), r)
    ensures Exec(m, CopyOps(t, v)).Ok? <==> forall o :: Reached(true, t, v, m.regs, o) > 0 ==> o in m.rc
    ensures Exec(m, CopyOps(t, v)).Ok? ==> forall o :: r.rc[o] == m.rc[o] + Reached(true, t, v, m.regs, o)
  {
    if v.Tup? {
      r := IncrefEachIff(m, t.Elements(), v.elems);
      assert forall o :: Reached(true, t, v, m.regs, o) == ReachedEach(t.Elements(), v.elems, m.regs, o);
    } else {
      r := IncrefIff(m, t, v);
      assert forall o :: Reached(true, t, v, m.regs, o) == Reached(false, t, v, m.regs, o);
    }
  }

  /** The decrefs of a del of a singly-assigned variable. */
  lemma DelIff(m: Machine, t: Ty, v: Val) returns (r: Machine)
    requires Typed(t, v, m.regs)
    ensures CountsOrFaults(m, DelOps(t, v), r)
    ensures Exec(m, DelOps(t, v)).Ok? <==> forall o :: Reached(true, t, v, m.regs, o) <= m.rc[o]
    ensures Exec(m, DelOps(t, v)).Ok? ==> forall o :: r.rc[o] == m.rc[o] - Reached(true, t, v, m.regs, o)
  {
    if v.Tup? {
      r := DecrefEachIff(m, t.Elements(), v.elems);
      assert forall o :: Reached(true, t, v, m.regs, o) == ReachedEach(t.Elements(), v.elems, m.regs, o);
    } else {
      r := DecrefIff(m, t, v);
      assert forall o :: Reached(true, t, v, m.regs, o) == Reached(false, t, v, m.regs, o);
    }
  }

  lemma ReachedHeld(elementwise: bool, t: Ty, v: Val, regs: seq<Ptr>)
    ensures forall o :: 0 <= Reached(elementwise, t, v, regs, o) <= Held(v, regs, o)
  {
    MissedBelow(elementwise, t, v, regs);
  }

  /** A value whose references all have counts is counted without fault. */
  lemma IncrefExact(m: Machine, t: Ty, v: Val) returns (r: Machine)
    requires Typed(t, v, m.regs) && forall o :: Held(v, m.regs, o) > 0 ==> o in m.rc
    ensures Exec(m, IncrefOps(t, v)) == Ok(r) && OnlyCounts(m, r)
    ensures forall o :: r.rc[o] + Ignored(t, v, m.regs, o) == m.rc[o] + Held(v, m.regs, o)
  {
    r := IncrefIff(m, t, v);
    ReachedHeld(false, t, v, m.regs);
  }

  /** A copy's increfs add what the value holds less what they miss. */
  lemma CopyExact(m: Machine, t: Ty, v: Val) returns (r: Machine)
    requires Typed(t, v, m.regs) && forall o :: Held(v, m.regs, o) > 0 ==> o in m.rc
    ensures Exec(m, CopyOps(t, v)) == Ok(r) && OnlyCounts(m, r)
    ensures forall o :: r.rc[o] + Missed(true, t, v, m.regs, o) == m.rc[o] + Held(v, m.regs, o)
  {
    r := CopyIff(m, t, v);
    ReachedHeld(true, t, v, m.regs);
  }

  lemma DelExact(m: Machine, t: Ty, v: Val) returns (r: Machine)
    requires Typed(t, v, m.regs) && forall o :: Held(v, m.regs, o) <= m.rc[o]
    ensures Exec(m, DelOps(t, v)) == Ok(r) && OnlyCounts(m, r)
    ensures forall o :: r.rc[o] + Held(v, m.regs, o) == m.rc[o] + Missed(true, t, v, m.regs, o)
  {
    r := DelIff(m, t, v);
    ReachedHeld(true, t, v, m.regs);
  }

  // ---- slots ----

  /** Slots match their variables' types, and each of a slot's cells is an allocation of its own. */
  ghost predicate SlotsApart(ctx: Context) {
    SlotsTyped(ctx) && forall x :: x in ctx.slots ==> Distinct(SlotCells(ctx.slots[x]))
  }

  lemma Exec3Fault(m: Machine, a: Op, b: Op, c: Op, n: Machine)
    requires Exec1(m, a) == Ok(n) && Exec1(n, b) == Fault
    ensures Exec(m, [a, b, c]) == Fault
  {
    assert [a, b, c][1..] == [b, c];
    assert Exec(n, [b, c]) == Fault;
  }

  /** Load a cell, release what it holds and overwrite it: a fault exactly if it holds an object
      without references. */
  lemma ReplaceIff(m: Machine, c: nat, op: Op, p: Ptr) returns (r: Machine)
    requires c < |m.cells| && !m.cells[c].Number?
    requires (op == Zero(c) && p == Null) || (op.Store? && op.c == c && op.r < |m.regs| && p == m.regs[op.r])
    ensures var e := Exec(m, [Load(c), Decref(|m.regs|), op]);
            && (e.Ok? <==> forall o :: Refers(m.cells[c], o) <= m.rc[o])
            && (e.Ok? ==> e == Ok(r) && r == m.(regs := m.regs + [m.cells[c]], cells := m.cells[c := p], rc := r.rc))
            && (e.Ok? ==> forall o :: r.rc[o] == m.rc[o] - Refers(m.cells[c], o))
  {
    if m.cells[c].Obj? && m.cells[c].o !in m.rc {
      assert Refers(m.cells[c], m.cells[c].o) == 1;
      Exec3Fault(m, Load(c), Decref(|m.regs|), op, m.(regs := m.regs + [m.cells[c]]));
      r := m;
    } else {
      r := ReplaceCell(m, c, op, p);
    }
  }

  /** From m to r exactly the references that the listed cells held are released. */
  ghost predicate Replaced(ctx: Context, m: Machine, cs: seq<nat>, r: Machine) {
    && CellsOk(ctx, r)
    && forall o :: r.rc[o] == m.rc[o] - CellsHeld(cs, m.cells, o)
  }

  ghost predicate Releasable(m: Machine, cs: seq<nat>) {
    forall o :: CellsHeld(cs, m.cells, o) <= m.rc[o]
  }

  lemma OneCell(c: nat, cells: seq<Ptr>)
    requires c < |cells|
    ensures forall o :: CellsHeld([c], cells, o) == Refers(cells[c], o)
  {
    assert [c][1..] == [];
  }

  /** A store faults exactly when the slot's cells hold an object more often than it has references.
      Otherwise it releases what they held, and they hold the new value. */
  lemma {:induction false} StoreSlotIff(ctx: Context, m: Machine, t: Ty, slot: Slot, v: Val) returns (r: Machine)
    requires SlotOk(ctx, t, slot) && CellsOk(ctx, m) && Typed(t, v, m.regs) && Distinct(SlotCells(slot))
    ensures var (ops, n) := StoreSlot(t, slot, v, |m.regs|);
            && (Exec(m, ops).Ok? <==> Releasable(m, SlotCells(slot)))
            && (Exec(m, ops).Ok? ==> Runs(m, ops, r) && n == |r.regs| && Replaced(ctx, m, SlotCells(slot), r))
            && (Exec(m, ops).Ok? ==> forall o ::
                  InCells(r.cells, o) + CellsHeld(SlotCells(slot), m.cells, o) ==
                  InCells(m.cells, o) + Held(v, m.regs, o))
    decreases slot
  {
    match slot
    case Cells(ss) =>
      r := StoreSlotsIff(ctx, m, t.Elements(), ss, v.elems);
      assert forall o :: Held(v, m.regs, o) == HeldAll(v.elems, m.regs, o);
    case Cell(c) =>
      var p := if v.Reg? then m.regs[v.r] else Number(v.n);
      CellUpdate(m.cells, c, p);
      OneCell(c, m.cells);
      if t.Managed? {
        r := ReplaceIff(m, c, Store(c, v.r), p);
      } else {
        var op := if v.Reg? then Store(c, v.r) else StoreConst(c, v.n);
        OneOp(m, op);
        r := m.(cells := m.cells[c := p]);
      }
  }

  lemma {:induction false} StoreSlotsIff(ctx: Context, m: Machine, ts: seq<Ty>, ss: seq<Slot>, vs: seq<Val>)
      returns (r: Machine)
    requires SlotsOk(ctx, ts, ss) && CellsOk(ctx, m) && TypedAll(ts, vs, m.regs) && Distinct(SlotsCells(ss))
    ensures var (ops, n) := StoreSlots(ts, ss, vs, |m.regs|);
            && (Exec(m, ops).Ok? <==> Releasable(m, SlotsCells(ss)))
            && (Exec(m, ops).Ok? ==> Runs(m, ops, r) && n == |r.regs| && Replaced(ctx, m, SlotsCells(ss), r))
            && (Exec(m, ops).Ok? ==> forall o ::
                  InCells(r.cells, o) + CellsHeld(SlotsCells(ss), m.cells, o) ==
                  InCells(m.cells, o) + HeldAll(vs, m.regs, o))
    decreases ss
  {
    r := m;
    if ss != [] {
      var first, rest := SlotCells(ss[0]), SlotsCells(ss[1..]);
      var (a, k) := StoreSlot(ts[0], ss[0], vs[0], |m.regs|);
      DistinctParts(first, rest);
      CellsHeldAppend(first, rest, m.cells);
      ExecAppend(m, a, StoreSlots(ts[1..], ss[1..], vs[1..], k).0);
      var p := StoreSlotIff(ctx, m, ts[0], ss[0], vs[0]);
      if Exec(m, a).Ok? {
        StoreSlotWrites(ts[0], ss[0], vs[0], |m.regs|);
        CellsKept(m, a, first);
        CellsHeldKept(rest, m.cells, p.cells);
        TypedAllExtends(ts[1..], vs[1..], m.regs, p.regs);
        r := StoreSlotsIff(ctx, p, ts[1..], ss[1..], vs[1..]);
        assert forall o :: HeldAll(vs, m.regs, o) == Held(vs[0], m.regs, o) + HeldAll(vs[1..], m.regs, o);
      } else {
        var o :| CellsHeld(first, m.cells, o) > m.rc[o];
        assert CellsHeld(first + rest, m.cells, o) > m.rc[o];
      }
    }
  }

  /** A store releases exactly what the slot's cells held; the cells then hold the new value. */
  lemma StoreSlotExact(ctx: Context, m: Machine, t: Ty, slot: Slot, v: Val) returns (r: Machine)
    requires SlotOk(ctx, t, slot) && CellsOk(ctx, m) && Typed(t, v, m.regs) && Distinct(SlotCells(slot))
    requires forall o :: CellsHeld(SlotCells(slot), m.cells, o) <= m.rc[o]
    ensures var (ops, n) := StoreSlot(t, slot, v, |m.regs|); Runs(m, ops, r) && n == |r.regs| && CellsOk(ctx, r)
    ensures forall o :: r.rc[o] == m.rc[o] - CellsHeld(SlotCells(slot), m.cells, o)
    ensures forall o :: r.rc[o] - InCells(r.cells, o) == m.rc[o] - InCells(m.cells, o) - Held(v, m.regs, o)
  {
    r := StoreSlotIff(ctx, m, t, slot, v);
  }

  /** A slot of a type without NRT content holds no object. */
  lemma {:induction false} UnmanagedHoldNothing(ctx: Context, m: Machine, t: Ty, slot: Slot)
    requires SlotOk(ctx, t, slot) && CellsOk(ctx, m) && !HasMeminfo(t)
    ensures forall o :: CellsHeld(SlotCells(slot), m.cells, o) == 0
    decreases slot
  {
    match slot
    case Cell(c) => OneCell(c, m.cells);
    case Cells(ss) => AllUnmanagedHoldNothing(ctx, m, t.Elements(), ss);
  }

  lemma {:induction false} AllUnmanagedHoldNothing(ctx: Context, m: Machine, ts: seq<Ty>, ss: seq<Slot>)
    requires SlotsOk(ctx, ts, ss) && CellsOk(ctx, m) && forall i :: 0 <= i < |ts| ==> !HasMeminfo(ts[i])
    ensures forall o :: CellsHeld(SlotsCells(ss), m.cells, o) == 0
    decreases ss
  {
    if ss != [] {
      UnmanagedHoldNothing(ctx, m, ts[0], ss[0]);
      AllUnmanagedHoldNothing(ctx, m, ts[1..], ss[1..]);
      CellsHeldAppend(SlotCells(ss[0]), SlotsCells(ss[1..]), m.cells);
    }
  }

  /** A del of a slot faults exactly when its cells hold an object more often than it has references. */
  lemma {:induction false} DecrefSlotIff(ctx: Context, m: Machine, t: Ty, slot: Slot) returns (r: Machine)
    requires SlotOk(ctx, t, slot) && CellsOk(ctx, m) && HasMeminfo(t) && Distinct(SlotCells(slot))
    ensures var (ops, n) := DecrefSlot(t, slot, |m.regs|);
            && (Exec(m, ops).Ok? <==> Releasable(m, SlotCells(slot)))
            && (Exec(m, ops).Ok? ==> Runs(m, ops, r) && n == |r.regs| && Replaced(ctx, m, SlotCells(slot), r))
            && (Exec(m, ops).Ok? ==>
                  forall o :: InCells(r.cells, o) + CellsHeld(SlotCells(slot), m.cells, o) == InCells(m.cells, o))
    decreases slot
  {
    match slot
    case Cells(ss) => r := DecrefSlotsIff(ctx, m, t.Elements(), ss);
    case Cell(c) =>
      CellUpdate(m.cells, c, Null);
      OneCell(c, m.cells);
      r := ReplaceIff(m, c, Zero(c), Null);
  }

  lemma {:induction false} DecrefSlotsIff(ctx: Context, m: Machine, ts: seq<Ty>, ss: seq<Slot>) returns (r: Machine)
    requires SlotsOk(ctx, ts, ss) && CellsOk(ctx, m) && Distinct(SlotsCells(ss))
    ensures var (ops, n) := DecrefSlots(ts, ss, |m.regs|);
            && (Exec(m, ops).Ok? <==> Releasable(m, SlotsCells(ss)))
            && (Exec(m, ops).Ok? ==> Runs(m, ops, r) && n == |r.regs| && Replaced(ctx, m, SlotsCells(ss), r))
            && (Exec(m, ops).Ok? ==>
                  forall o :: InCells(r.cells, o) + CellsHeld(SlotsCells(ss), m.cells, o) == InCells(m.cells, o))
    decreases ss
  {
    r := m;
    if ss != [] {
      var first, rest := SlotCells(ss[0]), SlotsCells(ss[1..]);
      DistinctParts(first, rest);
      CellsHeldAppend(first, rest, m.cells);
      if HasMeminfo(ts[0]) {
        var (a, k) := DecrefSlot(ts[0], ss[0], |m.regs|);
        ExecAppend(m, a, DecrefSlots(ts[1..], ss[1..], k).0);
        var p := DecrefSlotIff(ctx, m, ts[0], ss[0]);
        if Exec(m, a).Ok? {
          DecrefSlotWrites(ts[0], ss[0], |m.regs|);
          CellsKept(m, a, first);
          CellsHeldKept(rest, m.cells, p.cells);
          r := DecrefSlotsIff(ctx, p, ts[1..], ss[1..]);
        } else {
          var o :| CellsHeld(first, m.cells, o) > m.rc[o];
          assert CellsHeld(first + rest, m.cells, o) > m.rc[o];
        }
      } else {
        UnmanagedHoldNothing(ctx, m, ts[0], ss[0]);
        r := DecrefSlotsIff(ctx, m, ts[1..], ss[1..]);
        NoCode(DecrefSlots(ts[1..], ss[1..], |m.regs|).0);
      }
    }
  }

  lemma NoCode(ops: seq<Op>)
    ensures [] + ops == ops
  {
  }

  // ---- variables ----

  /** Owners of o less its count. */
  function Deficit(l: Lowering, live: set<nat>, m: Machine, o: nat): int {
    Owned(l, live, m, o) - m.rc[o]
  }

  /** A store to a variable faults exactly when its slot cannot be released; otherwise the variable
      owns what the value holds, and no other balance moves. */
  lemma StoreVarIff(ctx: Context, l: Lowering, live: set<nat>, m: Machine, x: nat, v: Val) returns (r: Machine)
    requires SlotsApart(ctx) && Shape(ctx, l, live, m) && x < |ctx.types| && x !in live
    requires Typed(ctx.types[x], v, m.regs)
    ensures var (ops, k) := StoreVar(ctx, l, x, v);
            var after := if x in ctx.slots then live else live + {x};
            && (Exec(m, ops).Ok? <==> Releasable(m, VarCells(ctx, x)))
            && (Exec(m, ops).Ok? ==>
                  && Exec(m, ops) == Ok(r) && r.outside == m.outside && m.regs <= r.regs && Shape(ctx, k, after, r)
                  && forall o :: Deficit(k, after, r, o) == Deficit(l, live, m, o) + Held(v, m.regs, o))
  {
    if x in ctx.slots {
      r := StoreSlotIff(ctx, m, ctx.types[x], ctx.slots[x], v);
      if Releasable(m, VarCells(ctx, x)) { ShapeExtends(ctx, l, live, m, r); }
    } else {
      r := m;
      VarsDefine(l.vals, live, m.regs, x, v, |l.vals|);
    }
  }

  /** Storing into a variable makes it own what the value holds, and moves no other balance. */
  lemma StoreVarExact(ctx: Context, l: Lowering, live: set<nat>, m: Machine, x: nat, v: Val) returns (r: Machine)
    requires SlotsApart(ctx) && Shape(ctx, l, live, m) && x < |ctx.types| && x !in live
    requires Typed(ctx.types[x], v, m.regs) && forall o :: InCells(m.cells, o) <= m.rc[o]
    ensures var (ops, k) := StoreVar(ctx, l, x, v);
            var after := if x in ctx.slots then live else live + {x};
            && Exec(m, ops) == Ok(r) && r.outside == m.outside && m.regs <= r.regs && Shape(ctx, k, after, r)
            && forall o :: Deficit(k, after, r, o) == Deficit(l, live, m, o) + Held(v, m.regs, o)
  {
    if x in ctx.slots {
      SlotCellsInRange(ctx, ctx.types[x], ctx.slots[x]);
      CellsHeldBound(VarCells(ctx, x), m.cells);
    }
    r := StoreVarIff(ctx, l, live, m, x, v);
  }
}
