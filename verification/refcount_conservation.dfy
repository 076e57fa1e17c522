/** Running the emitted code keeps every object's reference count equal to the number of variable
    slots that hold it plus the references owned outside the function. */
module RefcountConservation {
  import opened NumbaTypes
  import opened Refcount

  // ---- what variables hold ----

  function Refers(p: Ptr, o: nat): nat {
    if p == Obj(o) then 1 else 0
  }

  /** How many references to o a value holds. */
  function Held(v: Val, regs: seq<Ptr>, o: nat): nat
    decreases v
  {
    match v
    case Reg(r) => if r < |regs| then Refers(regs[r], o) else 0
    case Tup(vs) => HeldAll(vs, regs, o)
    case Const(_) => 0
  }

  function HeldAll(vs: seq<Val>, regs: seq<Ptr>, o: nat): nat
    decreases vs
  {
    if vs == [] then 0 else Held(vs[0], regs, o) + HeldAll(vs[1..], regs, o)
  }

  function InCells(cells: seq<Ptr>, o: nat): nat {
    if cells == [] then 0 else Refers(cells[0], o) + InCells(cells[1..], o)
  }

  /** A value of type t: NRT pointers sit exactly where the type says. */
  ghost predicate Typed(t: Ty, v: Val, regs: seq<Ptr>)
    decreases v
  {
    if t.IsTuple() then
      && v.Tup? && |v.elems| == |t.Elements()|
      && forall i :: 0 <= i < |v.elems| ==> Typed(t.Elements()[i], v.elems[i], regs)
    else if t.Managed? then v.Reg? && v.r < |regs| && !regs[v.r].Number?
    else v.Const? || (v.Reg? && v.r < |regs| && !regs[v.r].Obj?)
  }

  ghost predicate TypedAll(ts: seq<Ty>, vs: seq<Val>, regs: seq<Ptr>) {
    |ts| == |vs| && forall i :: 0 <= i < |vs| ==> Typed(ts[i], vs[i], regs)
  }

  ghost predicate SlotOk(ctx: Context, t: Ty, slot: Slot)
    decreases slot
  {
    if t.IsTuple() then
      && slot.Cells? && |slot.elems| == |t.Elements()|
      && forall i :: 0 <= i < |slot.elems| ==> SlotOk(ctx, t.Elements()[i], slot.elems[i])
    else slot.Cell? && slot.c < |ctx.nrtCells| && ctx.nrtCells[slot.c] == t.Managed?
  }

  ghost predicate SlotsOk(ctx: Context, ts: seq<Ty>, ss: seq<Slot>) {
    |ts| == |ss| && forall i :: 0 <= i < |ss| ==> SlotOk(ctx, ts[i], ss[i])
  }

  /** Cells of NRT type hold a pointer or null, other cells no object. */
  ghost predicate CellsOk(ctx: Context, m: Machine) {
    && |m.cells| == |ctx.nrtCells|
    && forall c :: 0 <= c < |m.cells| ==> if ctx.nrtCells[c] then !m.cells[c].Number? else !m.cells[c].Obj?
  }

  /** Tuples whose tuple-typed elements carry no NRT content. */
  ghost predicate Flat(t: Ty) {
    t.IsTuple() ==> FlatElements(t.Elements())
  }

  ghost predicate FlatElements(ts: seq<Ty>) {
    forall i :: 0 <= i < |ts| ==> ts[i].IsTuple() ==> !HasMeminfo(ts[i])
  }

  // ---- values ----

  lemma {:induction false} TypedExtends(t: Ty, v: Val, regs: seq<Ptr>, more: seq<Ptr>)
    requires Typed(t, v, regs) && regs <= more
    ensures Typed(t, v, more) && forall o :: Held(v, more, o) == Held(v, regs, o)
    decreases v
  {
    if v.Tup? {
      TypedAllExtends(t.Elements(), v.elems, regs, more);
    }
  }

  lemma {:induction false} TypedAllExtends(ts: seq<Ty>, vs: seq<Val>, regs: seq<Ptr>, more: seq<Ptr>)
    requires TypedAll(ts, vs, regs) && regs <= more
    ensures TypedAll(ts, vs, more) && forall o :: HeldAll(vs, more, o) == HeldAll(vs, regs, o)
    decreases vs
  {
    if vs != [] {
      TypedExtends(ts[0], vs[0], regs, more);
      TypedAllExtends(ts[1..], vs[1..], regs, more);
      assert forall i :: 1 <= i < |vs| ==> ts[i] == ts[1..][i - 1] && vs[i] == vs[1..][i - 1];
    }
  }

  lemma {:induction false} NoMeminfoHoldsNothing(t: Ty, v: Val, regs: seq<Ptr>)
    requires Typed(t, v, regs) && !HasMeminfo(t)
    ensures forall o :: Held(v, regs, o) == 0
    decreases v
  {
    if v.Tup? {
      NoMeminfosHoldNothing(t.Elements(), v.elems, regs);
    }
  }

  lemma {:induction false} NoMeminfosHoldNothing(ts: seq<Ty>, vs: seq<Val>, regs: seq<Ptr>)
    requires TypedAll(ts, vs, regs) && forall i :: 0 <= i < |ts| ==> !HasMeminfo(ts[i])
    ensures forall o :: HeldAll(vs, regs, o) == 0
    decreases vs
  {
    if vs != [] {
      NoMeminfoHoldsNothing(ts[0], vs[0], regs);
      NoMeminfosHoldNothing(ts[1..], vs[1..], regs);
    }
  }

  // ---- reference counting code ----

  /** ops run without fault from m and change nothing but registers, cells and counts. */
  ghost predicate Runs(m: Machine, ops: seq<Op>, r: Machine) {
    && Exec(m, ops) == Ok(r)
    && r == m.(regs := r.regs, cells := r.cells, rc := r.rc)
    && m.regs <= r.regs
  }

  ghost predicate OnlyCounts(m: Machine, r: Machine) {
    r == m.(rc := r.rc)
  }

  lemma Exec3(m: Machine, a: Op, b: Op, c: Op, m1: Machine, m2: Machine, m3: Machine)
    requires Exec1(m, a) == Ok(m1) && Exec1(m1, b) == Ok(m2) && Exec1(m2, c) == Ok(m3)
    ensures Exec(m, [a, b, c]) == Ok(m3)
  {
    assert [a, b, c][1..] == [b, c];
    assert [b, c][1..] == [c];
    assert [c][1..] == [];
    assert Exec(m2, [c]) == Ok(m3);
    assert Exec(m1, [b, c]) == Ok(m3);
  }

  /** The increfs of one tuple element. */
  lemma IncrefElementOk(m: Machine, t: Ty, v: Val) returns (r: Machine)
    requires Typed(t, v, m.regs) && (t.IsTuple() ==> !HasMeminfo(t))
    requires forall o :: Held(v, m.regs, o) > 0 ==> o in m.rc
    ensures Exec(m, IncrefOps(t, v)) == Ok(r) && OnlyCounts(m, r)
    ensures forall o :: r.rc[o] == m.rc[o] + Held(v, m.regs, o)
  {
    if t.IsTuple() || !t.Managed? {
      NoMeminfoHoldsNothing(t, v, m.regs);
      r := m;
    } else {
      assert [Incref(v.r)][1..] == [];
      if m.regs[v.r].Obj? { assert Held(v, m.regs, m.regs[v.r].o) > 0; }
      r := Exec1(m, Incref(v.r)).m;
    }
  }

  lemma DecrefElementOk(m: Machine, t: Ty, v: Val) returns (r: Machine)
    requires Typed(t, v, m.regs) && (t.IsTuple() ==> !HasMeminfo(t))
    requires forall o :: Held(v, m.regs, o) <= m.rc[o]
    ensures Exec(m, DecrefOps(t, v)) == Ok(r) && OnlyCounts(m, r)
    ensures forall o :: r.rc[o] == m.rc[o] - Held(v, m.regs, o)
  {
    if t.IsTuple() || !t.Managed? {
      NoMeminfoHoldsNothing(t, v, m.regs);
      r := m;
    } else {
      assert [Decref(v.r)][1..] == [];
      if m.regs[v.r].Obj? { assert Held(v, m.regs, m.regs[v.r].o) == 1; }
      r := Exec1(m, Decref(v.r)).m;
    }
  }

  /** Increfs of the elements of a flat tuple add exactly what the elements hold. */
  lemma {:induction false} IncrefEachOk(m: Machine, ts: seq<Ty>, vs: seq<Val>) returns (r: Machine)
    requires TypedAll(ts, vs, m.regs) && FlatElements(ts)
    requires forall o :: HeldAll(vs, m.regs, o) > 0 ==> o in m.rc
    ensures Exec(m, IncrefEach(ts, vs)) == Ok(r) && OnlyCounts(m, r)
    ensures forall o :: r.rc[o] == m.rc[o] + HeldAll(vs, m.regs, o)
    decreases |vs|
  {
    if vs == [] {
      r := m;
    } else {
      assert forall o :: HeldAll(vs, m.regs, o) == Held(vs[0], m.regs, o) + HeldAll(vs[1..], m.regs, o);
      var n := IncrefElementOk(m, ts[0], vs[0]);
      ExecAppend(m, IncrefOps(ts[0], vs[0]), IncrefEach(ts[1..], vs[1..]));
      r := IncrefEachOk(n, ts[1..], vs[1..]);
    }
  }

  lemma {:induction false} DecrefEachOk(m: Machine, ts: seq<Ty>, vs: seq<Val>) returns (r: Machine)
    requires TypedAll(ts, vs, m.regs) && FlatElements(ts)
    requires forall o :: HeldAll(vs, m.regs, o) <= m.rc[o]
    ensures Exec(m, DecrefEach(ts, vs)) == Ok(r) && OnlyCounts(m, r)
    ensures forall o :: r.rc[o] == m.rc[o] - HeldAll(vs, m.regs, o)
    decreases |vs|
  {
    if vs == [] {
      r := m;
    } else {
      assert forall o :: HeldAll(vs, m.regs, o) == Held(vs[0], m.regs, o) + HeldAll(vs[1..], m.regs, o);
      var n := DecrefElementOk(m, ts[0], vs[0]);
      ExecAppend(m, DecrefOps(ts[0], vs[0]), DecrefEach(ts[1..], vs[1..]));
      r := DecrefEachOk(n, ts[1..], vs[1..]);
    }
  }

  lemma CopyOk(m: Machine, t: Ty, v: Val) returns (r: Machine)
    requires Typed(t, v, m.regs) && Flat(t)
    requires forall o :: Held(v, m.regs, o) > 0 ==> o in m.rc
    ensures Exec(m, CopyOps(t, v)) == Ok(r) && OnlyCounts(m, r)
    ensures forall o :: r.rc[o] == m.rc[o] + Held(v, m.regs, o)
  {
    if v.Tup? { r := IncrefEachOk(m, t.Elements(), v.elems); } else { r := IncrefElementOk(m, t, v); }
  }

  lemma DelOk(m: Machine, t: Ty, v: Val) returns (r: Machine)
    requires Typed(t, v, m.regs) && Flat(t) && forall o :: Held(v, m.regs, o) <= m.rc[o]
    ensures Exec(m, DelOps(t, v)) == Ok(r) && OnlyCounts(m, r)
    ensures forall o :: r.rc[o] == m.rc[o] - Held(v, m.regs, o)
  {
    if v.Tup? { r := DecrefEachOk(m, t.Elements(), v.elems); } else { r := DecrefElementOk(m, t, v); }
  }

  // ---- slots ----

  lemma {:induction false} CellUpdate(ps: seq<Ptr>, i: nat, p: Ptr)
    requires i < |ps|
    ensures forall o :: InCells(ps[i := p], o) + Refers(ps[i], o) == InCells(ps, o) + Refers(p, o)
    ensures forall o :: Refers(ps[i], o) <= InCells(ps, o)
    ensures ps[i].Obj? ==> InCells(ps, ps[i].o) > 0
    decreases |ps|
  {
    var q := ps[i := p];
    assert forall o :: InCells(q, o) == Refers(q[0], o) + InCells(q[1..], o);
    assert forall o :: InCells(ps, o) == Refers(ps[0], o) + InCells(ps[1..], o);
    if i > 0 {
      CellUpdate(ps[1..], i - 1, p);
      assert q[1..] == ps[1..][i - 1 := p];
    } else {
      assert q[1..] == ps[1..];
    }
  }

  /** Loading a slot changes registers only, and yields what the slot holds. */
  lemma {:induction false} LoadSlotOk(ctx: Context, m: Machine, t: Ty, slot: Slot) returns (r: Machine)
    requires SlotOk(ctx, t, slot) && CellsOk(ctx, m)
    ensures var (ops, v, n) := LoadSlot(slot, |m.regs|);
            && Exec(m, ops) == Ok(r) && r == m.(regs := r.regs) && m.regs <= r.regs && n == |r.regs|
            && Typed(t, v, r.regs)
            && forall o :: Held(v, r.regs, o) > 0 ==> InCells(m.cells, o) > 0
    decreases slot
  {
    match slot
    case Cell(c) =>
      CellUpdate(m.cells, c, Null);
      assert [Load(c)][1..] == [];
      r := m.(regs := m.regs + [m.cells[c]]);
    case Cells(ss) => r := LoadSlotsOk(ctx, m, t.Elements(), ss);
  }

  lemma {:induction false} LoadSlotsOk(ctx: Context, m: Machine, ts: seq<Ty>, ss: seq<Slot>) returns (r: Machine)
    requires SlotsOk(ctx, ts, ss) && CellsOk(ctx, m)
    ensures var (ops, vs, n) := LoadSlots(ss, |m.regs|);
            && Exec(m, ops) == Ok(r) && r == m.(regs := r.regs) && m.regs <= r.regs && n == |r.regs|
            && TypedAll(ts, vs, r.regs)
            && forall o :: HeldAll(vs, r.regs, o) > 0 ==> InCells(m.cells, o) > 0
    decreases ss
  {
    if ss == [] {
      r := m;
    } else {
      var (a, v, k) := LoadSlot(ss[0], |m.regs|);
      var (b, vs, n) := LoadSlots(ss[1..], k);
      var p := LoadSlotOk(ctx, m, ts[0], ss[0]);
      r := LoadSlotsOk(ctx, p, ts[1..], ss[1..]);
      ExecAppend(m, a, b);
      TypedExtends(ts[0], v, p.regs, r.regs);
      var all := [v] + vs;
      assert all[1..] == vs;
      assert forall o :: HeldAll(all, r.regs, o) == Held(v, r.regs, o) + HeldAll(vs, r.regs, o);
      assert forall i :: 1 <= i < |ss| ==> ts[i] == ts[1..][i - 1] && all[i] == vs[i - 1];
    }
  }

  /** Load a cell, release what it holds, overwrite it with p. */
  lemma ReplaceCell(m: Machine, c: nat, op: Op, p: Ptr) returns (r: Machine)
    requires c < |m.cells| && !m.cells[c].Number? && (m.cells[c].Obj? ==> m.cells[c].o in m.rc)
    requires (op == Zero(c) && p == Null) || (op.Store? && op.c == c && op.r < |m.regs| && p == m.regs[op.r])
    ensures Exec(m, [Load(c), Decref(|m.regs|), op]) == Ok(r)
    ensures r == m.(regs := m.regs + [m.cells[c]], cells := m.cells[c := p], rc := r.rc)
    ensures forall o :: r.rc[o] == m.rc[o] - Refers(m.cells[c], o)
  {
    var a := m.(regs := m.regs + [m.cells[c]]);
    var b := a.(rc := if m.cells[c].Obj? then a.rc - multiset{m.cells[c].o} else a.rc);
    r := b.(cells := b.cells[c := p]);
    Exec3(m, Load(c), Decref(|m.regs|), op, a, b, r);
  }

  /** Storing a value whose references are already counted releases what the slot held: counts
      drop by what the cells gave up, and the value's references are now held by the cells. */
  lemma {:induction false} StoreSlotOk(ctx: Context, m: Machine, t: Ty, slot: Slot, v: Val) returns (r: Machine)
    requires SlotOk(ctx, t, slot) && CellsOk(ctx, m) && Typed(t, v, m.regs)
    requires forall o :: m.rc[o] >= Held(v, m.regs, o) + InCells(m.cells, o)
    ensures var (ops, n) := StoreSlot(t, slot, v, |m.regs|); Runs(m, ops, r) && n == |r.regs| && CellsOk(ctx, r)
    ensures forall o :: r.rc[o] - InCells(r.cells, o) == m.rc[o] - InCells(m.cells, o) - Held(v, m.regs, o)
    decreases slot
  {
    match slot
    case Cells(ss) => r := StoreSlotsOk(ctx, m, t.Elements(), ss, v.elems);
    case Cell(c) =>
      var p := if v.Reg? then m.regs[v.r] else Number(v.n);
      CellUpdate(m.cells, c, p);
      if t.Managed? {
        r := ReplaceCell(m, c, Store(c, v.r), p);
      } else {
        var op := if v.Reg? then Store(c, v.r) else StoreConst(c, v.n);
        assert [op][1..] == [];
        r := m.(cells := m.cells[c := p]);
      }
  }

  lemma {:induction false} StoreSlotsOk(ctx: Context, m: Machine, ts: seq<Ty>, ss: seq<Slot>, vs: seq<Val>)
      returns (r: Machine)
    requires SlotsOk(ctx, ts, ss) && CellsOk(ctx, m) && TypedAll(ts, vs, m.regs)
    requires forall o :: m.rc[o] >= HeldAll(vs, m.regs, o) + InCells(m.cells, o)
    ensures var (ops, n) := StoreSlots(ts, ss, vs, |m.regs|); Runs(m, ops, r) && n == |r.regs| && CellsOk(ctx, r)
    ensures forall o :: r.rc[o] - InCells(r.cells, o) == m.rc[o] - InCells(m.cells, o) - HeldAll(vs, m.regs, o)
    decreases ss
  {
    if ss == [] {
      r := m;
    } else {
      assert forall o :: HeldAll(vs, m.regs, o) == Held(vs[0], m.regs, o) + HeldAll(vs[1..], m.regs, o);
      var p := StoreSlotOk(ctx, m, ts[0], ss[0], vs[0]);
      TypedAllExtends(ts[1..], vs[1..], m.regs, p.regs);
      r := StoreSlotsOk(ctx, p, ts[1..], ss[1..], vs[1..]);
      var (a, k) := StoreSlot(ts[0], ss[0], vs[0], |m.regs|);
      ExecAppend(m, a, StoreSlots(ts[1..], ss[1..], vs[1..], k).0);
    }
  }

  /** del of a slot releases what it holds and leaves null: a second del finds nothing. */
  lemma {:induction false} DecrefSlotOk(ctx: Context, m: Machine, t: Ty, slot: Slot) returns (r: Machine)
    requires SlotOk(ctx, t, slot) && CellsOk(ctx, m) && HasMeminfo(t)
    requires forall o :: m.rc[o] >= InCells(m.cells, o)
    ensures var (ops, n) := DecrefSlot(t, slot, |m.regs|); Runs(m, ops, r) && n == |r.regs| && CellsOk(ctx, r)
    ensures forall o :: r.rc[o] - InCells(r.cells, o) == m.rc[o] - InCells(m.cells, o)
    decreases slot
  {
    match slot
    case Cells(ss) => r := DecrefSlotsOk(ctx, m, t.Elements(), ss);
    case Cell(c) =>
      CellUpdate(m.cells, c, Null);
      r := ReplaceCell(m, c, Zero(c), Null);
  }

  lemma {:induction false} DecrefSlotsOk(ctx: Context, m: Machine, ts: seq<Ty>, ss: seq<Slot>) returns (r: Machine)
    requires SlotsOk(ctx, ts, ss) && CellsOk(ctx, m)
    requires forall o :: m.rc[o] >= InCells(m.cells, o)
    ensures var (ops, n) := DecrefSlots(ts, ss, |m.regs|); Runs(m, ops, r) && n == |r.regs| && CellsOk(ctx, r)
    ensures forall o :: r.rc[o] - InCells(r.cells, o) == m.rc[o] - InCells(m.cells, o)
    decreases ss
  {
    if ss == [] {
      r := m;
    } else {
      var p := m;
      if HasMeminfo(ts[0]) { p := DecrefSlotOk(ctx, m, ts[0], ss[0]); }
      r := DecrefSlotsOk(ctx, p, ts[1..], ss[1..]);
      var (a, k) := if HasMeminfo(ts[0]) then DecrefSlot(ts[0], ss[0], |m.regs|) else ([], |m.regs|);
      ExecAppend(m, a, DecrefSlots(ts[1..], ss[1..], k).0);
    }
  }

  // ---- the invariant ----

  /** References to o held by the live singly-assigned variables below k. */
  function HeldByVars(vals: seq<Val>, live: set<nat>, regs: seq<Ptr>, k: nat, o: nat): nat
    requires k <= |vals|
  {
    if k == 0 then 0
    else HeldByVars(vals, live, regs, k - 1, o) + (if k - 1 in live then Held(vals[k - 1], regs, o) else 0)
  }

  /** Slots match their variables' types, and a multiply-assigned variable is not a UniTuple. */
  ghost predicate SlotsTyped(ctx: Context) {
    forall x :: x in ctx.slots ==>
      x < |ctx.types| && SlotOk(ctx, ctx.types[x], ctx.slots[x]) && !ctx.types[x].UniTuple?
  }

  /** What conservation supports: moreover no tuple nests a tuple with NRT content. */
  ghost predicate Supported(ctx: Context) {
    SlotsTyped(ctx) && forall x :: 0 <= x < |ctx.types| ==> Flat(ctx.types[x])
  }

  ghost predicate Shape(ctx: Context, l: Lowering, live: set<nat>, m: Machine) {
    && |l.vals| == |ctx.types| && l.next == |m.regs| && CellsOk(ctx, m)
    && forall x :: x in live ==> x < |ctx.types| && x !in ctx.slots && Typed(ctx.types[x], l.vals[x], m.regs)
  }

  /** References to o outside, in live variables and in stack cells. */
  function Owned(l: Lowering, live: set<nat>, m: Machine, o: nat): nat {
    m.outside[o] + HeldByVars(l.vals, live, m.regs, |l.vals|, o) + InCells(m.cells, o)
  }

  /** Every object's count is the number of its owners: nothing held is uncounted, and nothing
      counted is lost. */
  ghost predicate Conserved(l: Lowering, live: set<nat>, m: Machine) {
    forall o :: m.rc[o] == Owned(l, live, m, o)
  }

  ghost predicate Inv(ctx: Context, l: Lowering, live: set<nat>, m: Machine) {
    Shape(ctx, l, live, m) && Conserved(l, live, m)
  }

  lemma {:induction false} VarsExtend(ctx: Context, l: Lowering, live: set<nat>, m: Machine, more: seq<Ptr>, k: nat)
    requires Shape(ctx, l, live, m) && m.regs <= more && k <= |l.vals|
    ensures forall o :: HeldByVars(l.vals, live, more, k, o) == HeldByVars(l.vals, live, m.regs, k, o)
    decreases k
  {
    if k > 0 {
      VarsExtend(ctx, l, live, m, more, k - 1);
      if k - 1 in live { TypedExtends(ctx.types[k - 1], l.vals[k - 1], m.regs, more); }
    }
  }

  lemma ShapeExtends(ctx: Context, l: Lowering, live: set<nat>, m: Machine, r: Machine)
    requires Shape(ctx, l, live, m) && m.regs <= r.regs && CellsOk(ctx, r)
    ensures Shape(ctx, l.(next := |r.regs|), live, r)
    ensures forall o :: HeldByVars(l.vals, live, r.regs, |l.vals|, o) == HeldByVars(l.vals, live, m.regs, |l.vals|, o)
  {
    VarsExtend(ctx, l, live, m, r.regs, |l.vals|);
    forall x | x in live ensures Typed(ctx.types[x], l.vals[x], r.regs) {
      TypedExtends(ctx.types[x], l.vals[x], m.regs, r.regs);
    }
  }

  /** A dead variable becomes live with a new value. */
  lemma {:induction false} VarsDefine(vals: seq<Val>, live: set<nat>, regs: seq<Ptr>, x: nat, v: Val, k: nat)
    requires x < |vals| && x !in live && k <= |vals|
    ensures forall o :: HeldByVars(vals[x := v], live + {x}, regs, k, o) ==
                        HeldByVars(vals, live, regs, k, o) + (if x < k then Held(v, regs, o) else 0)
    decreases k
  {
    if k > 0 { VarsDefine(vals, live, regs, x, v, k - 1); }
  }

  /** A live variable dies. */
  lemma {:induction false} VarsKill(vals: seq<Val>, live: set<nat>, regs: seq<Ptr>, x: nat, k: nat)
    requires x < |vals| && x in live && k <= |vals|
    ensures forall o :: HeldByVars(vals, live, regs, k, o) ==
                        HeldByVars(vals, live - {x}, regs, k, o) + (if x < k then Held(vals[x], regs, o) else 0)
    decreases k
  {
    if k > 0 { VarsKill(vals, live, regs, x, k - 1); }
  }

  // ---- reading and writing variables ----

  predicate Readable(ctx: Context, live: set<nat>, y: nat) {
    y < |ctx.types| && (y in ctx.slots || y in live)
  }

  /** Reading a variable changes registers only, and yields a value whose references are owned. */
  lemma LoadVarReads(ctx: Context, l: Lowering, live: set<nat>, m: Machine, y: nat) returns (r: Machine)
    requires SlotsTyped(ctx) && Shape(ctx, l, live, m) && Readable(ctx, live, y)
    ensures var (ops, v, n) := LoadVar(ctx, l, y);
            && Exec(m, ops) == Ok(r) && r == m.(regs := r.regs) && m.regs <= r.regs && n == |r.regs|
            && Shape(ctx, l.(next := n), live, r)
            && (forall o :: Owned(l.(next := n), live, r, o) == Owned(l, live, m, o))
            && Typed(ctx.types[y], v, r.regs)
            && forall o :: Held(v, r.regs, o) > 0 ==> Owned(l, live, m, o) > 0
  {
    if y in ctx.slots {
      r := LoadSlotOk(ctx, m, ctx.types[y], ctx.slots[y]);
      ShapeExtends(ctx, l, live, m, r);
    } else {
      r := m;
      VarsKill(l.vals, live, m.regs, y, |l.vals|);
    }
  }

  lemma LoadVarOk(ctx: Context, l: Lowering, live: set<nat>, m: Machine, y: nat) returns (r: Machine)
    requires SlotsTyped(ctx) && Inv(ctx, l, live, m) && Readable(ctx, live, y)
    ensures var (ops, v, n) := LoadVar(ctx, l, y);
            && Exec(m, ops) == Ok(r) && r == m.(regs := r.regs) && m.regs <= r.regs && n == |r.regs|
            && Inv(ctx, l.(next := n), live, r)
            && Typed(ctx.types[y], v, r.regs)
            && forall o :: Held(v, r.regs, o) > 0 ==> o in r.rc
  {
    r := LoadVarReads(ctx, l, live, m, y);
  }

  /** Storing into a variable a value whose references are counted but not yet held. */
  lemma StoreVarOk(ctx: Context, l: Lowering, live: set<nat>, m: Machine, x: nat, v: Val) returns (r: Machine)
    requires SlotsTyped(ctx) && Shape(ctx, l, live, m) && x < |ctx.types| && x !in live
    requires Typed(ctx.types[x], v, m.regs)
    requires forall o :: m.rc[o] == Owned(l, live, m, o) + Held(v, m.regs, o)
    ensures var (ops, k) := StoreVar(ctx, l, x, v);
            && Exec(m, ops) == Ok(r) && r.outside == m.outside && r.created == m.created
            && Inv(ctx, k, if x in ctx.slots then live else live + {x}, r)
  {
    if x in ctx.slots {
      r := StoreSlotOk(ctx, m, ctx.types[x], ctx.slots[x], v);
      ShapeExtends(ctx, l, live, m, r);
    } else {
      r := m;
      VarsDefine(l.vals, live, m.regs, x, v, |l.vals|);
    }
  }

  lemma LoadVarsRead(ctx: Context, l: Lowering, live: set<nat>, m: Machine, xs: seq<nat>) returns (r: Machine)
    requires SlotsTyped(ctx) && Shape(ctx, l, live, m)
    requires forall i :: 0 <= i < |xs| ==> xs[i] < |l.vals| && Readable(ctx, live, xs[i])
    ensures var (ops, vs, n) := LoadVars(ctx, l, xs);
            && Exec(m, ops) == Ok(r) && r == m.(regs := r.regs) && m.regs <= r.regs && n == |r.regs|
            && Shape(ctx, l.(next := n), live, r)
            && (forall o :: Owned(l.(next := n), live, r, o) == Owned(l, live, m, o))
            && |vs| == |xs| && (forall i :: 0 <= i < |xs| ==> Typed(ctx.types[xs[i]], vs[i], r.regs))
            && forall o :: HeldAll(vs, r.regs, o) > 0 ==> Owned(l, live, m, o) > 0
    decreases |xs|
  {
    if xs == [] {
      r := m;
    } else {
      var (a, v, n) := LoadVar(ctx, l, xs[0]);
      var (b, vs, k) := LoadVars(ctx, l.(next := n), xs[1..]);
      var p := LoadVarReads(ctx, l, live, m, xs[0]);
      r := LoadVarsRead(ctx, l.(next := n), live, p, xs[1..]);
      ExecAppend(m, a, b);
      TypedExtends(ctx.types[xs[0]], v, p.regs, r.regs);
      var all := [v] + vs;
      assert all[1..] == vs;
      assert forall o :: HeldAll(all, r.regs, o) == Held(v, r.regs, o) + HeldAll(vs, r.regs, o);
      assert forall i :: 1 <= i < |xs| ==> xs[i] == xs[1..][i - 1] && all[i] == vs[i - 1];
    }
  }

  lemma LoadVarsOk(ctx: Context, l: Lowering, live: set<nat>, m: Machine, xs: seq<nat>) returns (r: Machine)
    requires SlotsTyped(ctx) && Inv(ctx, l, live, m)
    requires forall i :: 0 <= i < |xs| ==> xs[i] < |l.vals| && Readable(ctx, live, xs[i])
    ensures var (ops, vs, n) := LoadVars(ctx, l, xs);
            && Exec(m, ops) == Ok(r) && r == m.(regs := r.regs) && m.regs <= r.regs && n == |r.regs|
            && Inv(ctx, l.(next := n), live, r)
            && |vs| == |xs| && (forall i :: 0 <= i < |xs| ==> Typed(ctx.types[xs[i]], vs[i], r.regs))
            && forall o :: HeldAll(vs, r.regs, o) > 0 ==> o in r.rc
  {
    r := LoadVarsRead(ctx, l, live, m, xs);
  }

  // ---- statements ----

  predicate Writable(ctx: Context, live: set<nat>, x: nat) {
    x < |ctx.types| && x !in live
  }

  predicate Scalar(t: Ty) {
    !t.IsTuple() && !t.Managed?
  }

  /** ps are the leaves of an argument of type t, in order. */
  ghost predicate IsArgument(t: Ty, ps: seq<Ptr>) {
    ArgValue(t, 0).1 == |ps| && Typed(t, ArgValue(t, 0).0, ps)
  }

  /** The discipline Numba's del placement guarantees: a singly-assigned variable is read only
      between its assignment and its del, and not assigned again before it.  Callers own their
      arguments; a returned variable is singly assigned. */
  ghost predicate Allowed(ctx: Context, callers: set<nat>, live: set<nat>, i: Instr) {
    InRange(ctx, i) &&
    match i
    case Fresh(x) => Writable(ctx, live, x) && ctx.types[x].Managed?
    case Plain(x, _) => Writable(ctx, live, x) && Scalar(ctx.types[x])
    case Constant(x, _) => Writable(ctx, live, x) && Scalar(ctx.types[x])
    case Arg(x, p) => Writable(ctx, live, x) && ctx.types[x].Managed? && (p.Null? || (p.Obj? && p.o in callers))
    case TupleArg(x, ps) =>
      Writable(ctx, live, x) && ctx.types[x].IsTuple() && IsArgument(ctx.types[x], ps)
    case Assign(x, y) => Writable(ctx, live, x) && Readable(ctx, live, y) && ctx.types[x] == ctx.types[y]
    case Forward(x, y) =>
      Writable(ctx, live, x) && Readable(ctx, live, y) && ctx.types[x] == ctx.types[y] && ctx.types[x].IsTuple()
    case Cast(x, y) => Writable(ctx, live, x) && Readable(ctx, live, y) && ctx.types[x] == ctx.types[y]
    case Element(x, y, k) =>
      && Writable(ctx, live, x) && Readable(ctx, live, y) && ctx.types[y].IsTuple()
      && k < |ctx.types[y].Elements()| && ctx.types[x] == ctx.types[y].Elements()[k]
    case Build(x, items) =>
      && Writable(ctx, live, x) && ctx.types[x].IsTuple() && |items| == |ctx.types[x].Elements()|
      && forall k :: 0 <= k < |items| ==>
           Readable(ctx, live, items[k]) && ctx.types[items[k]] == ctx.types[x].Elements()[k]
    case Del(x) => x in ctx.slots || x in live
    case Return(x) => x in live
  }

  /** Moreover tuple arguments and casts of tuples carry no NRT content. */
  ghost predicate Legal(ctx: Context, callers: set<nat>, live: set<nat>, i: Instr) {
    && Allowed(ctx, callers, live, i)
    && (i.TupleArg? || i.Cast? ==> ctx.types[i.x].IsTuple() ==> !HasMeminfo(ctx.types[i.x]))
  }

  function After(ctx: Context, live: set<nat>, i: Instr): set<nat> {
    if i.x in ctx.slots then live
    else if i.Del? || i.Return? then live - {i.x}
    else live + {i.x}
  }

  lemma DefineOk(ctx: Context, l: Lowering, live: set<nat>, m: Machine, x: nat, def: Op, more: seq<Op>, p: Machine,
        q: Machine)
      returns (r: Machine)
    requires SlotsTyped(ctx) && Inv(ctx, l, live, m) && x < |ctx.types| && x !in live
    requires Exec1(m, def) == Ok(p) && p == m.(regs := p.regs, rc := p.rc, created := p.created)
    requires m.regs <= p.regs && |p.regs| == |m.regs| + 1 && Typed(ctx.types[x], Reg(|m.regs|), p.regs)
    requires Exec(p, more) == Ok(q) && OnlyCounts(p, q)
    requires forall o :: q.rc[o] == m.rc[o] + Held(Reg(|m.regs|), p.regs, o)
    ensures var (ops, k) := Define(ctx, l, x, [def], more);
            && Exec(m, ops) == Ok(r) && r.outside == m.outside
            && Inv(ctx, k, if x in ctx.slots then live else live + {x}, r)
  {
    ShapeExtends(ctx, l, live, m, q);
    r := StoreVarOk(ctx, l.(next := l.next + 1), live, q, x, Reg(|m.regs|));
    var ops := StoreVar(ctx, l.(next := l.next + 1), x, Reg(l.next)).0;
    assert [def][1..] == [];
    assert Exec(m, [def]) == Ok(p);
    ExecAppend(m, [def], more);
    ExecAppend(m, [def] + more, ops);
  }

  lemma NewOk(ctx: Context, l: Lowering, live: set<nat>, m: Machine, i: Instr, callers: set<nat>) returns (r: Machine)
    requires SlotsTyped(ctx) && Inv(ctx, l, live, m) && Legal(ctx, callers, live, i)
    requires i.Fresh? || i.Plain? || i.Arg? || i.Constant?
    requires forall o :: o in callers ==> o in m.outside
    ensures Exec(m, Lower(ctx, l, i).0) == Ok(r) && r.outside == m.outside
    ensures Inv(ctx, Lower(ctx, l, i).1, After(ctx, live, i), r)
  {
    match i
    case Fresh(x) =>
      var p := Exec1(m, New).m;
      r := DefineOk(ctx, l, live, m, x, New, [], p, p);
    case Plain(x, n) =>
      var p := Exec1(m, Op.Scalar(n)).m;
      r := DefineOk(ctx, l, live, m, x, Op.Scalar(n), [], p, p);
    case Constant(x, n) => r := StoreVarOk(ctx, l, live, m, x, Const(n));
    case Arg(x, ptr) =>
      var p := Exec1(m, Param(ptr)).m;
      if ptr.Obj? { assert m.outside[ptr.o] > 0; }
      var q := IncrefElementOk(p, ctx.types[x], Reg(l.next));
      r := DefineOk(ctx, l, live, m, x, Param(ptr), IncrefOps(ctx.types[x], Reg(l.next)), p, q);
  }

  /** Assignments, forwards and tuple builds: load, count the new references, store. */
  lemma CopyStoreOk(ctx: Context, l: Lowering, live: set<nat>, m: Machine, x: nat, v: Val, q: Machine)
      returns (r: Machine)
    requires SlotsTyped(ctx) && Inv(ctx, l, live, m) && x < |ctx.types| && x !in live && Typed(ctx.types[x], v, m.regs)
    requires OnlyCounts(m, q) && forall o :: q.rc[o] == m.rc[o] + Held(v, m.regs, o)
    ensures var (ops, k) := StoreVar(ctx, l, x, v);
            && Exec(q, ops) == Ok(r) && r.outside == m.outside
            && Inv(ctx, k, if x in ctx.slots then live else live + {x}, r)
  {
    r := StoreVarOk(ctx, l, live, q, x, v);
  }

  lemma AssignOk(ctx: Context, l: Lowering, live: set<nat>, m: Machine, i: Instr, callers: set<nat>)
      returns (r: Machine)
    requires Supported(ctx) && Inv(ctx, l, live, m) && Legal(ctx, callers, live, i) && (i.Assign? || i.Forward?)
    ensures Exec(m, Lower(ctx, l, i).0) == Ok(r) && r.outside == m.outside
    ensures Inv(ctx, Lower(ctx, l, i).1, After(ctx, live, i), r)
  {
    var (a, v, n) := LoadVar(ctx, l, i.y);
    var p := LoadVarOk(ctx, l, live, m, i.y);
    var q := CopyOk(p, ctx.types[i.x], v);
    r := CopyStoreOk(ctx, l.(next := n), live, p, i.x, v, q);
    var c := CopyOps(ctx.types[i.x], v);
    ExecAppend(m, a, c);
    ExecAppend(m, a + c, StoreVar(ctx, l.(next := n), i.x, v).0);
  }

  lemma BuildOk(ctx: Context, l: Lowering, live: set<nat>, m: Machine, i: Instr, callers: set<nat>) returns (r: Machine)
    requires Supported(ctx) && Inv(ctx, l, live, m) && Legal(ctx, callers, live, i) && i.Build?
    ensures Exec(m, Lower(ctx, l, i).0) == Ok(r) && r.outside == m.outside
    ensures Inv(ctx, Lower(ctx, l, i).1, After(ctx, live, i), r)
  {
    var ts := ctx.types[i.x].Elements();
    var (a, vs, n) := LoadVars(ctx, l, i.items);
    var p := LoadVarsOk(ctx, l, live, m, i.items);
    assert TypedAll(ts, vs, p.regs);
    var q := IncrefEachOk(p, ts, vs);
    r := CopyStoreOk(ctx, l.(next := n), live, p, i.x, Tup(vs), q);
    ExecAppend(m, a, IncrefEach(ts, vs));
    ExecAppend(m, a + IncrefEach(ts, vs), StoreVar(ctx, l.(next := n), i.x, Tup(vs)).0);
  }

  lemma DelSlotOk(ctx: Context, l: Lowering, live: set<nat>, m: Machine, x: nat) returns (r: Machine)
    requires SlotsTyped(ctx) && Inv(ctx, l, live, m) && x < |ctx.types| && x in ctx.slots
    ensures Exec(m, Lower(ctx, l, Del(x)).0) == Ok(r) && r.outside == m.outside && m.regs <= r.regs
    ensures Inv(ctx, Lower(ctx, l, Del(x)).1, live, r)
  {
    if HasMeminfo(ctx.types[x]) {
      r := DecrefSlotOk(ctx, m, ctx.types[x], ctx.slots[x]);
      ShapeExtends(ctx, l, live, m, r);
    } else {
      r := m;
    }
  }

  lemma DelStepOk(ctx: Context, l: Lowering, live: set<nat>, m: Machine, x: nat) returns (r: Machine)
    requires Supported(ctx) && Inv(ctx, l, live, m) && x < |ctx.types| && (x in ctx.slots || x in live)
    ensures Exec(m, Lower(ctx, l, Del(x)).0) == Ok(r) && r.outside == m.outside
    ensures Inv(ctx, Lower(ctx, l, Del(x)).1, After(ctx, live, Del(x)), r)
  {
    var t := ctx.types[x];
    if x in ctx.slots {
      r := DelSlotOk(ctx, l, live, m, x);
    } else {
      VarsKill(l.vals, live, m.regs, x, |l.vals|);
      if HasMeminfo(t) {
        r := DelOk(m, t, l.vals[x]);
      } else {
        NoMeminfoHoldsNothing(t, l.vals[x], m.regs);
        r := m;
      }
    }
  }

  lemma {:induction false} ElementHeld(vs: seq<Val>, regs: seq<Ptr>, k: nat)
    requires k < |vs|
    ensures forall o :: Held(vs[k], regs, o) <= HeldAll(vs, regs, o)
    decreases k
  {
    assert forall o :: HeldAll(vs, regs, o) == Held(vs[0], regs, o) + HeldAll(vs[1..], regs, o);
    if k > 0 { ElementHeld(vs[1..], regs, k - 1); }
  }

  /** Load, incref an extracted value, store it. */
  lemma ExtractOk(ctx: Context, l: Lowering, live: set<nat>, m: Machine, x: nat, y: nat, e: Val, p: Machine)
      returns (r: Machine)
    requires SlotsTyped(ctx) && y < |ctx.types| && |l.vals| == |ctx.types|
    requires var (a, v, n) := LoadVar(ctx, l, y); Exec(m, a) == Ok(p) && Inv(ctx, l.(next := n), live, p)
    requires Writable(ctx, live, x) && Typed(ctx.types[x], e, p.regs)
    requires ctx.types[x].IsTuple() ==> !HasMeminfo(ctx.types[x])
    requires forall o :: Held(e, p.regs, o) > 0 ==> o in p.rc
    ensures var (a, v, n) := LoadVar(ctx, l, y);
            var (b, k) := StoreVar(ctx, l.(next := n), x, e);
            && Exec(m, a + IncrefOps(ctx.types[x], e) + b) == Ok(r) && r.outside == p.outside
            && Inv(ctx, k, if x in ctx.slots then live else live + {x}, r)
  {
    var (a, v, n) := LoadVar(ctx, l, y);
    var q := IncrefElementOk(p, ctx.types[x], e);
    r := CopyStoreOk(ctx, l.(next := n), live, p, x, e, q);
    var c := IncrefOps(ctx.types[x], e);
    ExecAppend(m, a, c);
    ExecAppend(m, a + c, StoreVar(ctx, l.(next := n), x, e).0);
  }

  lemma CastOk(ctx: Context, l: Lowering, live: set<nat>, m: Machine, i: Instr, callers: set<nat>) returns (r: Machine)
    requires Supported(ctx) && Inv(ctx, l, live, m) && Legal(ctx, callers, live, i) && i.Cast?
    ensures Exec(m, Lower(ctx, l, i).0) == Ok(r) && r.outside == m.outside
    ensures Inv(ctx, Lower(ctx, l, i).1, After(ctx, live, i), r)
  {
    var p := LoadVarOk(ctx, l, live, m, i.y);
    r := ExtractOk(ctx, l, live, m, i.x, i.y, LoadVar(ctx, l, i.y).1, p);
  }

  lemma ElementOk(ctx: Context, l: Lowering, live: set<nat>, m: Machine, i: Instr, callers: set<nat>)
      returns (r: Machine)
    requires Supported(ctx) && Inv(ctx, l, live, m) && Legal(ctx, callers, live, i) && i.Element?
    ensures Exec(m, Lower(ctx, l, i).0) == Ok(r) && r.outside == m.outside
    ensures Inv(ctx, Lower(ctx, l, i).1, After(ctx, live, i), r)
  {
    var p := LoadVarOk(ctx, l, live, m, i.y);
    var v := LoadVar(ctx, l, i.y).1;
    ElementHeld(v.elems, p.regs, i.k);
    r := ExtractOk(ctx, l, live, m, i.x, i.y, v.elems[i.k], p);
  }

  lemma {:induction false} ParamsOk(m: Machine, ps: seq<Ptr>)
    ensures Exec(m, Params(ps)) == Ok(m.(regs := m.regs + ps))
    decreases |ps|
  {
    if ps == [] {
      assert m.regs + ps == m.regs;
    } else {
      var p := m.(regs := m.regs + [ps[0]]);
      ParamsOk(p, ps[1..]);
      assert p.regs + ps[1..] == m.regs + ps;
      assert [Param(ps[0])][1..] == [];
      ExecAppend(m, [Param(ps[0])], Params(ps[1..]));
    }
  }

  /** An argument's value does not depend on where its registers begin. */
  lemma {:induction false} ArgValueShift(t: Ty, a: nat, regs: seq<Ptr>, ps: seq<Ptr>)
    requires Typed(t, ArgValue(t, a).0, ps)
    ensures ArgValue(t, |regs| + a).1 == |regs| + ArgValue(t, a).1
    ensures Typed(t, ArgValue(t, |regs| + a).0, regs + ps)
    ensures forall o :: Held(ArgValue(t, |regs| + a).0, regs + ps, o) == Held(ArgValue(t, a).0, ps, o)
    decreases t, 1
  {
    if t.IsTuple() { ArgValuesShift(t.Elements(), a, regs, ps, t); }
  }

  lemma {:induction false} ArgValuesShift(ts: seq<Ty>, a: nat, regs: seq<Ptr>, ps: seq<Ptr>, whole: Ty)
    requires forall i :: 0 <= i < |ts| ==> ts[i] < whole
    requires TypedAll(ts, ArgValues(ts, a, whole).0, ps)
    ensures ArgValues(ts, |regs| + a, whole).1 == |regs| + ArgValues(ts, a, whole).1
    ensures TypedAll(ts, ArgValues(ts, |regs| + a, whole).0, regs + ps)
    ensures forall o ::
              HeldAll(ArgValues(ts, |regs| + a, whole).0, regs + ps, o) == HeldAll(ArgValues(ts, a, whole).0, ps, o)
    decreases whole, 0, |ts|
  {
    if ts != [] {
      var (v, n) := ArgValue(ts[0], a);
      var (vs, k) := ArgValues(ts[1..], n, whole);
      TypedCons(ts, v, vs, ps);
      ArgValueShift(ts[0], a, regs, ps);
      ArgValuesShift(ts[1..], n, regs, ps, whole);
      var w := ArgValue(ts[0], |regs| + a).0;
      var ws := ArgValues(ts[1..], |regs| + n, whole).0;
      TypedCons(ts, w, ws, regs + ps);
      HeldCons(v, vs, ps);
      HeldCons(w, ws, regs + ps);
    }
  }

  lemma TypedCons(ts: seq<Ty>, v: Val, vs: seq<Val>, regs: seq<Ptr>)
    requires ts != []
    ensures TypedAll(ts, [v] + vs, regs) <==> Typed(ts[0], v, regs) && TypedAll(ts[1..], vs, regs)
  {
    var all := [v] + vs;
    if TypedAll(ts, all, regs) {
      forall i | 0 <= i < |vs| ensures Typed(ts[1..][i], vs[i], regs) { assert Typed(ts[i + 1], all[i + 1], regs); }
    }
    if Typed(ts[0], v, regs) && TypedAll(ts[1..], vs, regs) {
      forall i | 0 <= i < |all| ensures Typed(ts[i], all[i], regs) {
        if i > 0 { assert Typed(ts[1..][i - 1], vs[i - 1], regs); }
      }
    }
  }

  lemma HeldCons(v: Val, vs: seq<Val>, regs: seq<Ptr>)
    ensures forall o :: HeldAll([v] + vs, regs, o) == Held(v, regs, o) + HeldAll(vs, regs, o)
  {
    assert ([v] + vs)[1..] == vs;
  }

  /** incref ignores the Python tuple of a tuple argument. */
  lemma TupleArgCode(t: Ty, ps: seq<Op>, v: Val, ops: seq<Op>)
    requires v.Tup?
    ensures ps + IncrefOps(t, v) + ops == ps + ops
  {
    assert ps + [] == ps;
  }

  /** A tuple argument's leaves enter registers; its value is read off them. */
  lemma TupleArgRead(ctx: Context, l: Lowering, live: set<nat>, m: Machine, t: Ty, ps: seq<Ptr>) returns (p: Machine)
    requires Shape(ctx, l, live, m) && IsArgument(t, ps)
    ensures Exec(m, Params(ps)) == Ok(p) && p == m.(regs := p.regs) && m.regs <= p.regs
    ensures Shape(ctx, l.(next := l.next + |ps|), live, p) && Typed(t, ArgValue(t, l.next).0, p.regs)
    ensures forall o :: Owned(l.(next := l.next + |ps|), live, p, o) == Owned(l, live, m, o)
  {
    p := m.(regs := m.regs + ps);
    ParamsOk(m, ps);
    ShapeExtends(ctx, l, live, m, p);
    ArgValueShift(t, 0, m.regs, ps);
  }

  lemma TupleArgOk(ctx: Context, l: Lowering, live: set<nat>, m: Machine, i: Instr, callers: set<nat>)
      returns (r: Machine)
    requires SlotsTyped(ctx) && Inv(ctx, l, live, m) && Legal(ctx, callers, live, i) && i.TupleArg?
    ensures Exec(m, Lower(ctx, l, i).0) == Ok(r) && r.outside == m.outside
    ensures Inv(ctx, Lower(ctx, l, i).1, After(ctx, live, i), r)
  {
    var t := ctx.types[i.x];
    var v := ArgValue(t, l.next).0;
    var p := TupleArgRead(ctx, l, live, m, t, i.ps);
    NoMeminfoHoldsNothing(t, v, p.regs);
    var k := l.(next := l.next + |i.ps|);
    r := StoreVarOk(ctx, k, live, p, i.x, v);
    var (ops, n) := StoreVar(ctx, k, i.x, v);
    TupleArgCode(t, Params(i.ps), v, ops);
    assert Lower(ctx, l, i) == (Params(i.ps) + ops, n);
    ExecAppend(m, Params(i.ps), ops);
  }

  // ---- returning ----

  lemma {:induction false} ReturnedAppend(a: seq<Val>, b: seq<Val>, regs: seq<Ptr>)
    ensures Returned(a + b, regs) == Returned(a, regs) + Returned(b, regs)
    decreases |a|
  {
    if a == [] {
      assert a + b == b;
    } else {
      assert (a + b)[1..] == a[1..] + b;
      ReturnedAppend(a[1..], b, regs);
    }
  }

  /** Flattening a value for the ABI keeps every reference it holds. */
  lemma {:induction false} FlattenHeld(t: Ty, v: Val, regs: seq<Ptr>)
    requires Typed(t, v, regs)
    ensures forall o :: Returned(Flatten(t, v), regs)[o] == Held(v, regs, o)
    ensures OperandsOk(Flatten(t, v), regs)
    decreases v
  {
    if v.Tup? {
      FlattenAllHeld(t.Elements(), v.elems, regs);
    } else {
      assert [v][1..] == [];
    }
  }

  ghost predicate OperandsOk(vs: seq<Val>, regs: seq<Ptr>) {
    forall i :: 0 <= i < |vs| && vs[i].Reg? ==> vs[i].r < |regs|
  }

  lemma {:induction false} FlattenAllHeld(ts: seq<Ty>, vs: seq<Val>, regs: seq<Ptr>)
    requires TypedAll(ts, vs, regs)
    ensures forall o :: Returned(FlattenAll(ts, vs), regs)[o] == HeldAll(vs, regs, o)
    ensures OperandsOk(FlattenAll(ts, vs), regs)
    decreases vs
  {
    if vs != [] {
      FlattenHeld(ts[0], vs[0], regs);
      FlattenAllHeld(ts[1..], vs[1..], regs);
      ReturnedAppend(Flatten(ts[0], vs[0]), FlattenAll(ts[1..], vs[1..]), regs);
    }
  }

  /** A return moves the variable's references to the caller, and no count. */
  lemma ReturnMoves(ctx: Context, l: Lowering, live: set<nat>, m: Machine, x: nat) returns (r: Machine)
    requires SlotsTyped(ctx) && Shape(ctx, l, live, m) && x in live
    ensures Exec(m, Lower(ctx, l, Return(x)).0) == Ok(r) && r == m.(outside := r.outside) && m.outside <= r.outside
    ensures Shape(ctx, Lower(ctx, l, Return(x)).1, After(ctx, live, Return(x)), r)
    ensures forall o :: Owned(Lower(ctx, l, Return(x)).1, After(ctx, live, Return(x)), r, o) == Owned(l, live, m, o)
  {
    var v := l.vals[x];
    FlattenHeld(ctx.types[x], v, m.regs);
    VarsKill(l.vals, live, m.regs, x, |l.vals|);
    var ret := Ret(Flatten(ctx.types[x], v));
    r := m.(outside := m.outside + Returned(ret.vs, m.regs));
    assert [ret][1..] == [];
    assert [] + [ret] == [ret];
  }

  lemma ReturnOk(ctx: Context, l: Lowering, live: set<nat>, m: Machine, x: nat) returns (r: Machine)
    requires SlotsTyped(ctx) && Inv(ctx, l, live, m) && x in live
    ensures Exec(m, Lower(ctx, l, Return(x)).0) == Ok(r) && m.outside <= r.outside
    ensures Inv(ctx, Lower(ctx, l, Return(x)).1, After(ctx, live, Return(x)), r)
  {
    r := ReturnMoves(ctx, l, live, m, x);
  }
}
