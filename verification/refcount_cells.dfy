/** The stack cells of a slot, what they hold, and which cells emitted code writes. */
module RefcountCells {
  import opened NumbaTypes
  import opened Refcount
  import opened RefcountConservation

  function SlotCells(slot: Slot): seq<nat>
    decreases slot
  {
    match slot
    case Cell(c) => [c]
    case Cells(ss) => SlotsCells(ss)
  }

  function SlotsCells(ss: seq<Slot>): seq<nat>
    decreases ss
  {
    if ss == [] then [] else SlotCells(ss[0]) + SlotsCells(ss[1..])
  }

  // ---- writes ----

  predicate Stores(op: Op) {
    op.Store? || op.StoreConst? || op.Zero?
  }

  predicate WritesOnly(ops: seq<Op>, cs: seq<nat>) {
    forall op :: op in ops && Stores(op) ==> op.c in cs
  }

  /** Cells that the code does not write keep their contents. */
  lemma {:induction false} CellsKept(m: Machine, ops: seq<Op>, cs: seq<nat>)
    requires WritesOnly(ops, cs) && Exec(m, ops).Ok?
    ensures var r := Exec(m, ops).m;
            && |r.cells| == |m.cells|
            && forall c: nat :: c < |m.cells| && c !in cs ==> r.cells[c] == m.cells[c]
    decreases |ops|
  {
    if ops != [] {
      assert ops[0] in ops;
      CellsKept(Exec1(m, ops[0]).m, ops[1..], cs);
    }
  }

  lemma {:induction false} LoadSlotWrites(slot: Slot, next: nat, cs: seq<nat>)
    ensures WritesOnly(LoadSlot(slot, next).0, cs)
    decreases slot
  {
    if slot.Cells? { LoadSlotsWrite(slot.elems, next, cs); }
  }

  lemma {:induction false} LoadSlotsWrite(ss: seq<Slot>, next: nat, cs: seq<nat>)
    ensures WritesOnly(LoadSlots(ss, next).0, cs)
    decreases ss
  {
    if ss != [] {
      LoadSlotWrites(ss[0], next, cs);
      LoadSlotsWrite(ss[1..], LoadSlot(ss[0], next).2, cs);
    }
  }

  lemma {:induction false} StoreSlotWrites(t: Ty, slot: Slot, v: Val, next: nat)
    ensures WritesOnly(StoreSlot(t, slot, v, next).0, SlotCells(slot))
    decreases slot
  {
    if slot.Cells? && t.IsTuple() && v.Tup? { StoreSlotsWrite(t.Elements(), slot.elems, v.elems, next); }
  }

  lemma {:induction false} StoreSlotsWrite(ts: seq<Ty>, ss: seq<Slot>, vs: seq<Val>, next: nat)
    ensures WritesOnly(StoreSlots(ts, ss, vs, next).0, SlotsCells(ss))
    decreases ss
  {
    if ts != [] && ss != [] && vs != [] {
      StoreSlotWrites(ts[0], ss[0], vs[0], next);
      StoreSlotsWrite(ts[1..], ss[1..], vs[1..], StoreSlot(ts[0], ss[0], vs[0], next).1);
    }
  }

  lemma {:induction false} DecrefSlotWrites(t: Ty, slot: Slot, next: nat)
    ensures WritesOnly(DecrefSlot(t, slot, next).0, SlotCells(slot))
    decreases slot
  {
    if slot.Cells? && t.IsTuple() { DecrefSlotsWrite(t.Elements(), slot.elems, next); }
  }

  lemma {:induction false} DecrefSlotsWrite(ts: seq<Ty>, ss: seq<Slot>, next: nat)
    ensures WritesOnly(DecrefSlots(ts, ss, next).0, SlotsCells(ss))
    decreases ss
  {
    if ts != [] && ss != [] {
      DecrefSlotWrites(ts[0], ss[0], next);
      DecrefSlotsWrite(ts[1..], ss[1..], if HasMeminfo(ts[0]) then DecrefSlot(ts[0], ss[0], next).1 else next);
    }
  }

  lemma {:induction false} CountsWriteNothing(ts: seq<Ty>, vs: seq<Val>, cs: seq<nat>)
    ensures WritesOnly(IncrefEach(ts, vs), cs) && WritesOnly(DecrefEach(ts, vs), cs)
    decreases |ts|
  {
    if ts != [] && vs != [] { CountsWriteNothing(ts[1..], vs[1..], cs); }
  }

  lemma {:induction false} ParamsWriteNothing(ps: seq<Ptr>, cs: seq<nat>)
    ensures WritesOnly(Params(ps), cs)
    decreases |ps|
  {
    if ps != [] { ParamsWriteNothing(ps[1..], cs); }
  }

  lemma {:induction false} LoadVarsWrite(ctx: Context, l: Lowering, xs: seq<nat>, cs: seq<nat>)
    requires forall i :: 0 <= i < |xs| ==> xs[i] < |l.vals|
    ensures WritesOnly(LoadVars(ctx, l, xs).0, cs)
    decreases |xs|
  {
    if xs != [] {
      LoadVarWrites(ctx, l, xs[0], cs);
      LoadVarsWrite(ctx, l.(next := LoadVar(ctx, l, xs[0]).2), xs[1..], cs);
    }
  }

  lemma LoadVarWrites(ctx: Context, l: Lowering, x: nat, cs: seq<nat>)
    requires x < |l.vals|
    ensures WritesOnly(LoadVar(ctx, l, x).0, cs)
  {
    if x in ctx.slots { LoadSlotWrites(ctx.slots[x], l.next, cs); }
  }

  /** The cells of a variable: none unless it is multiply assigned. */
  function VarCells(ctx: Context, x: nat): seq<nat> {
    if x in ctx.slots then SlotCells(ctx.slots[x]) else []
  }

  lemma StoreVarWrites(ctx: Context, l: Lowering, x: nat, v: Val)
    requires x < |l.vals| && x < |ctx.types|
    ensures WritesOnly(StoreVar(ctx, l, x, v).0, VarCells(ctx, x))
  {
    if x in ctx.slots { StoreSlotWrites(ctx.types[x], ctx.slots[x], v, l.next); }
  }

  lemma CopyWrites(ctx: Context, l: Lowering, i: Instr)
    requires |l.vals| == |ctx.types| && InRange(ctx, i) && (i.Assign? || i.Forward? || i.Cast?)
    ensures WritesOnly(Lower(ctx, l, i).0, VarCells(ctx, i.x))
  {
    var cs := VarCells(ctx, i.x);
    var (_, v, n) := LoadVar(ctx, l, i.y);
    LoadVarWrites(ctx, l, i.y, cs);
    if v.Tup? && ctx.types[i.x].IsTuple() { CountsWriteNothing(ctx.types[i.x].Elements(), v.elems, cs); }
    StoreVarWrites(ctx, l.(next := n), i.x, v);
  }

  /** Tuple builds and items. */
  lemma TupleWrites(ctx: Context, l: Lowering, i: Instr)
    requires |l.vals| == |ctx.types| && InRange(ctx, i) && (i.Build? || i.Element?)
    ensures WritesOnly(Lower(ctx, l, i).0, VarCells(ctx, i.x))
  {
    var cs := VarCells(ctx, i.x);
    if i.Element? {
      var (_, v, n) := LoadVar(ctx, l, i.y);
      LoadVarWrites(ctx, l, i.y, cs);
      StoreVarWrites(ctx, l.(next := n), i.x, if v.Tup? && i.k < |v.elems| then v.elems[i.k] else NONE);
    } else {
      var (_, vs, n) := LoadVars(ctx, l, i.items);
      LoadVarsWrite(ctx, l, i.items, cs);
      if ctx.types[i.x].IsTuple() { CountsWriteNothing(ctx.types[i.x].Elements(), vs, cs); }
      StoreVarWrites(ctx, l.(next := n), i.x, Tup(vs));
    }
  }

  lemma DelWrites(ctx: Context, l: Lowering, x: nat)
    requires |l.vals| == |ctx.types| && x < |ctx.types|
    ensures WritesOnly(Lower(ctx, l, Del(x)).0, VarCells(ctx, x))
  {
    if x in ctx.slots {
      DecrefSlotWrites(ctx.types[x], ctx.slots[x], l.next);
    } else if l.vals[x].Tup? && ctx.types[x].IsTuple() {
      CountsWriteNothing(ctx.types[x].Elements(), l.vals[x].elems, []);
    }
  }

  lemma DefineWrites(ctx: Context, l: Lowering, x: nat, def: Op, more: seq<Op>)
    requires |l.vals| == |ctx.types| && x < |ctx.types| && WritesOnly([def] + more, [])
    ensures WritesOnly(Define(ctx, l, x, [def], more).0, VarCells(ctx, x))
  {
    StoreVarWrites(ctx, l.(next := l.next + 1), x, Reg(l.next));
  }

  lemma NewWrites(ctx: Context, l: Lowering, i: Instr)
    requires |l.vals| == |ctx.types| && InRange(ctx, i)
    requires i.Fresh? || i.Plain? || i.Arg? || i.Constant? || i.TupleArg?
    ensures WritesOnly(Lower(ctx, l, i).0, VarCells(ctx, i.x))
  {
    match i
    case Fresh(x) => DefineWrites(ctx, l, x, New, []);
    case Plain(x, n) => DefineWrites(ctx, l, x, Op.Scalar(n), []);
    case Arg(x, p) => DefineWrites(ctx, l, x, Param(p), IncrefOps(ctx.types[x], Reg(l.next)));
    case Constant(x, n) => StoreVarWrites(ctx, l, x, Const(n));
    case TupleArg(x, ps) =>
      ParamsWriteNothing(ps, VarCells(ctx, x));
      StoreVarWrites(ctx, l.(next := l.next + |ps|), x, ArgValue(ctx.types[x], l.next).0);
  }

  /** A statement writes no cell but those of its target. */
  lemma LowerWrites(ctx: Context, l: Lowering, i: Instr)
    requires |l.vals| == |ctx.types| && InRange(ctx, i)
    ensures WritesOnly(Lower(ctx, l, i).0, VarCells(ctx, i.x))
  {
    if i.Assign? || i.Forward? || i.Cast? { CopyWrites(ctx, l, i); }
    else if i.Build? || i.Element? { TupleWrites(ctx, l, i); }
    else if i.Del? { DelWrites(ctx, l, i.x); }
    else if i.Return? { LoadVarWrites(ctx, l, i.x, VarCells(ctx, i.x)); }
    else { NewWrites(ctx, l, i); }
  }

  // ---- what cells hold ----

  predicate Distinct(cs: seq<nat>) {
    forall i, j :: 0 <= i < j < |cs| ==> cs[i] != cs[j]
  }

  /** References to o in the listed cells. */
  function CellsHeld(cs: seq<nat>, cells: seq<Ptr>, o: nat): nat {
    if cs == [] then 0
    else (if cs[0] < |cells| then Refers(cells[cs[0]], o) else 0) + CellsHeld(cs[1..], cells, o)
  }

  lemma {:induction false} CellsHeldAppend(a: seq<nat>, b: seq<nat>, cells: seq<Ptr>)
    ensures forall o :: CellsHeld(a + b, cells, o) == CellsHeld(a, cells, o) + CellsHeld(b, cells, o)
    decreases |a|
  {
    if a == [] {
      assert a + b == b;
    } else {
      var ab := a + b;
      assert ab[1..] == a[1..] + b && ab[0] == a[0];
      CellsHeldAppend(a[1..], b, cells);
    }
  }

  lemma {:induction false} CellsHeldKept(cs: seq<nat>, cells: seq<Ptr>, later: seq<Ptr>)
    requires |cells| == |later| && forall c :: c in cs && c < |cells| ==> cells[c] == later[c]
    ensures forall o :: CellsHeld(cs, later, o) == CellsHeld(cs, cells, o)
    decreases |cs|
  {
    if cs != [] {
      assert cs[0] in cs;
      CellsHeldKept(cs[1..], cells, later);
    }
  }

  /** Distinct cells hold no more than all cells do. */
  lemma {:induction false} CellsHeldBound(cs: seq<nat>, cells: seq<Ptr>)
    requires Distinct(cs) && forall c :: c in cs ==> c < |cells|
    ensures forall o :: CellsHeld(cs, cells, o) <= InCells(cells, o)
    decreases |cs|
  {
    if cs != [] {
      assert cs[0] in cs && forall k :: 0 <= k < |cs| - 1 ==> cs[1..][k] == cs[k + 1];
      var rest := cells[cs[0] := Number(0)];
      assert cs[0] !in cs[1..] && forall c :: c in cs[1..] ==> c in cs;
      CellUpdate(cells, cs[0], Number(0));
      CellsHeldBound(cs[1..], rest);
      CellsHeldKept(cs[1..], cells, rest);
    }
  }

  lemma DistinctParts(a: seq<nat>, b: seq<nat>)
    requires Distinct(a + b)
    ensures Distinct(a) && Distinct(b) && forall c :: c in a ==> c !in b
  {
    var ab := a + b;
    forall i, j | 0 <= i < j < |a| ensures a[i] != a[j] { assert ab[i] == a[i] && ab[j] == a[j]; }
    forall i, j | 0 <= i < j < |b| ensures b[i] != b[j] { assert ab[|a| + i] == b[i] && ab[|a| + j] == b[j]; }
    forall i, j | 0 <= i < |a| && 0 <= j < |b| ensures a[i] != b[j] {
      assert ab[i] == a[i] && ab[|a| + j] == b[j];
    }
  }

  lemma {:induction false} SlotCellsInRange(ctx: Context, t: Ty, slot: Slot)
    requires SlotOk(ctx, t, slot)
    ensures forall c :: c in SlotCells(slot) ==> c < |ctx.nrtCells|
    decreases slot
  {
    if slot.Cells? { SlotsCellsInRange(ctx, t.Elements(), slot.elems); }
  }

  lemma {:induction false} SlotsCellsInRange(ctx: Context, ts: seq<Ty>, ss: seq<Slot>)
    requires SlotsOk(ctx, ts, ss)
    ensures forall c :: c in SlotsCells(ss) ==> c < |ctx.nrtCells|
    decreases ss
  {
    if ss != [] {
      SlotCellsInRange(ctx, ts[0], ss[0]);
      SlotsCellsInRange(ctx, ts[1..], ss[1..]);
    }
  }
}
