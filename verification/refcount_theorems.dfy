/** Whole control paths: conservation, repeated del, absence of leaks, and the exact limits of
    the incref code. */
module RefcountTheorems {
  import opened NumbaTypes
  import opened Refcount
  import opened RefcountCells
  import opened RefcountConservation

  /** A control path whose every statement is legal where it stands. */
  ghost predicate LegalPath(ctx: Context, callers: set<nat>, live: set<nat>, path: seq<Instr>)
    decreases |path|
  {
    path == [] || (Legal(ctx, callers, live, path[0]) && LegalPath(ctx, callers, After(ctx, live, path[0]), path[1..]))
  }

  function LiveAfter(ctx: Context, live: set<nat>, path: seq<Instr>): set<nat>
    decreases |path|
  {
    if path == [] then live else LiveAfter(ctx, After(ctx, live, path[0]), path[1..])
  }

  lemma {:induction false} LegalInRange(ctx: Context, callers: set<nat>, live: set<nat>, path: seq<Instr>)
    requires LegalPath(ctx, callers, live, path)
    ensures forall i :: i in path ==> InRange(ctx, i)
    decreases |path|
  {
    if path != [] {
      LegalInRange(ctx, callers, After(ctx, live, path[0]), path[1..]);
      assert path == [path[0]] + path[1..];
    }
  }

  ghost predicate CallersOwn(callers: set<nat>, m: Machine) {
    forall o :: o in callers ==> o in m.outside
  }

  lemma StepOk(ctx: Context, l: Lowering, live: set<nat>, m: Machine, i: Instr, callers: set<nat>) returns (r: Machine)
    requires Supported(ctx) && Inv(ctx, l, live, m) && Legal(ctx, callers, live, i) && CallersOwn(callers, m)
    ensures Exec(m, Lower(ctx, l, i).0) == Ok(r) && CallersOwn(callers, r)
    ensures Inv(ctx, Lower(ctx, l, i).1, After(ctx, live, i), r)
  {
    match i
    case Fresh(_) => r := NewOk(ctx, l, live, m, i, callers);
    case Plain(_, _) => r := NewOk(ctx, l, live, m, i, callers);
    case Constant(_, _) => r := NewOk(ctx, l, live, m, i, callers);
    case Arg(_, _) => r := NewOk(ctx, l, live, m, i, callers);
    case TupleArg(_, _) => r := TupleArgOk(ctx, l, live, m, i, callers);
    case Assign(_, _) => r := AssignOk(ctx, l, live, m, i, callers);
    case Forward(_, _) => r := AssignOk(ctx, l, live, m, i, callers);
    case Cast(_, _) => r := CastOk(ctx, l, live, m, i, callers);
    case Element(_, _, _) => r := ElementOk(ctx, l, live, m, i, callers);
    case Build(_, _) => r := BuildOk(ctx, l, live, m, i, callers);
    case Del(x) => r := DelStepOk(ctx, l, live, m, x);
    case Return(x) =>
      r := ReturnOk(ctx, l, live, m, x);
      forall o | o in callers ensures o in r.outside { assert m.outside[o] <= r.outside[o]; }
  }

  /** Refcount conservation over every control path: the emitted code never touches a freed
      object, and at the end every count is the number of variable slots holding the object plus
      its owners outside. */
  lemma {:induction false} Conservation(ctx: Context, callers: set<nat>, l: Lowering, live: set<nat>, m: Machine,
        path: seq<Instr>)
      returns (r: Machine)
    requires Supported(ctx) && Inv(ctx, l, live, m) && CallersOwn(callers, m) && LegalPath(ctx, callers, live, path)
    requires forall i :: i in path ==> InRange(ctx, i)
    ensures Exec(m, LowerAll(ctx, l, path).0) == Ok(r)
    ensures Inv(ctx, LowerAll(ctx, l, path).1, LiveAfter(ctx, live, path), r)
    decreases |path|
  {
    if path == [] {
      r := m;
    } else {
      var (a, n) := Lower(ctx, l, path[0]);
      var p := StepOk(ctx, l, live, m, path[0], callers);
      r := Conservation(ctx, callers, n, After(ctx, live, path[0]), p, path[1..]);
      ExecAppend(m, a, LowerAll(ctx, n, path[1..]).0);
    }
  }

  /** Function entry: nothing in the varmap, null cells, every count owned by callers. */
  ghost predicate Entry(ctx: Context, l: Lowering, m: Machine) {
    && |l.vals| == |ctx.types| && l.next == 0 && m.regs == []
    && |m.cells| == |ctx.nrtCells| && (forall c :: 0 <= c < |m.cells| ==> m.cells[c] == Null)
    && m.rc == m.outside
  }

  lemma {:induction false} NoVars(vals: seq<Val>, regs: seq<Ptr>, k: nat)
    requires k <= |vals|
    ensures forall o :: HeldByVars(vals, {}, regs, k, o) == 0
  {
    if k > 0 { NoVars(vals, regs, k - 1); }
  }

  lemma {:induction false} NoCells(cells: seq<Ptr>)
    requires forall c :: 0 <= c < |cells| ==> !cells[c].Obj?
    ensures forall o :: InCells(cells, o) == 0
  {
    if cells != [] { NoCells(cells[1..]); }
  }

  lemma EntryInv(ctx: Context, l: Lowering, m: Machine)
    requires Entry(ctx, l, m)
    ensures Inv(ctx, l, {}, m)
  {
    NoVars(l.vals, m.regs, |l.vals|);
    NoCells(m.cells);
  }

  // ---- a repeated del ----

  ghost predicate Nulled(t: Ty, slot: Slot, cells: seq<Ptr>)
    decreases slot
  {
    match slot
    case Cell(c) => c < |cells| && cells[c] == Null
    case Cells(ss) => t.IsTuple() ==> NulledAll(t.Elements(), ss, cells)
  }

  ghost predicate NulledAll(ts: seq<Ty>, ss: seq<Slot>, cells: seq<Ptr>)
    decreases ss
  {
    ts == [] || ss == [] ||
    ((HasMeminfo(ts[0]) ==> Nulled(ts[0], ss[0], cells)) && NulledAll(ts[1..], ss[1..], cells))
  }

  ghost predicate NullsKept(cells: seq<Ptr>, later: seq<Ptr>) {
    |cells| == |later| && forall c :: 0 <= c < |cells| && cells[c] == Null ==> later[c] == Null
  }

  lemma {:induction false} NulledKept(t: Ty, slot: Slot, cells: seq<Ptr>, later: seq<Ptr>)
    requires Nulled(t, slot, cells) && NullsKept(cells, later)
    ensures Nulled(t, slot, later)
    decreases slot
  {
    if slot.Cells? && t.IsTuple() { NulledAllKept(t.Elements(), slot.elems, cells, later); }
  }

  lemma {:induction false} NulledAllKept(ts: seq<Ty>, ss: seq<Slot>, cells: seq<Ptr>, later: seq<Ptr>)
    requires NulledAll(ts, ss, cells) && NullsKept(cells, later)
    ensures NulledAll(ts, ss, later)
    decreases ss
  {
    if ts != [] && ss != [] {
      if HasMeminfo(ts[0]) { NulledKept(ts[0], ss[0], cells, later); }
      NulledAllKept(ts[1..], ss[1..], cells, later);
    }
  }

  lemma Exec3Inv(m: Machine, a: Op, b: Op, c: Op)
    requires Exec(m, [a, b, c]).Ok?
    ensures Exec1(m, a).Ok? && Exec1(Exec1(m, a).m, b).Ok? && Exec1(Exec1(Exec1(m, a).m, b).m, c) == Exec(m, [a, b, c])
  {
    assert [a, b, c][1..] == [b, c] && [b, c][1..] == [c] && [c][1..] == [];
    var p := Exec1(m, a).m;
    assert Exec(p, [b, c]) == Exec(m, [a, b, c]);
    var q := Exec1(p, b).m;
    assert Exec(q, [c]) == Exec(p, [b, c]);
    assert Exec(Exec1(q, c).m, []) == Exec(q, [c]);
  }

  /** After a del of a slot all its pointers are null. */
  lemma {:induction false} DecrefNulls(m: Machine, t: Ty, slot: Slot)
    requires Exec(m, DecrefSlot(t, slot, |m.regs|).0).Ok?
    ensures var r := Exec(m, DecrefSlot(t, slot, |m.regs|).0).m;
            && |r.regs| == DecrefSlot(t, slot, |m.regs|).1
            && NullsKept(m.cells, r.cells) && Nulled(t, slot, r.cells)
    decreases slot
  {
    match slot
    case Cell(c) => Exec3Inv(m, Load(c), Decref(|m.regs|), Zero(c));
    case Cells(ss) => if t.IsTuple() { DecrefAllNulls(m, t.Elements(), ss); }
  }

  lemma {:induction false} DecrefAllNulls(m: Machine, ts: seq<Ty>, ss: seq<Slot>)
    requires Exec(m, DecrefSlots(ts, ss, |m.regs|).0).Ok?
    ensures var r := Exec(m, DecrefSlots(ts, ss, |m.regs|).0).m;
            && |r.regs| == DecrefSlots(ts, ss, |m.regs|).1
            && NullsKept(m.cells, r.cells) && NulledAll(ts, ss, r.cells)
    decreases ss
  {
    if ts != [] && ss != [] {
      var (a, k) := if HasMeminfo(ts[0]) then DecrefSlot(ts[0], ss[0], |m.regs|) else ([], |m.regs|);
      ExecAppend(m, a, DecrefSlots(ts[1..], ss[1..], k).0);
      var p := Exec(m, a).m;
      if HasMeminfo(ts[0]) { DecrefNulls(m, ts[0], ss[0]); }
      DecrefAllNulls(p, ts[1..], ss[1..]);
      if HasMeminfo(ts[0]) {
        NulledKept(ts[0], ss[0], p.cells, Exec(p, DecrefSlots(ts[1..], ss[1..], k).0).m.cells);
      }
    }
  }

  /** A del of a null slot changes neither counts nor cells. */
  lemma {:induction false} DecrefNulledOk(m: Machine, t: Ty, slot: Slot) returns (r: Machine)
    requires Nulled(t, slot, m.cells)
    ensures Exec(m, DecrefSlot(t, slot, |m.regs|).0) == Ok(r) && r == m.(regs := r.regs)
    ensures |r.regs| == DecrefSlot(t, slot, |m.regs|).1
    decreases slot
  {
    match slot
    case Cell(c) =>
      var a := m.(regs := m.regs + [Null]);
      r := a.(cells := a.cells[c := Null]);
      assert r.cells == m.cells;
      Exec3(m, Load(c), Decref(|m.regs|), Zero(c), a, a, r);
    case Cells(ss) => if t.IsTuple() { r := DecrefAllNulledOk(m, t.Elements(), ss); } else { r := m; }
  }

  lemma {:induction false} DecrefAllNulledOk(m: Machine, ts: seq<Ty>, ss: seq<Slot>) returns (r: Machine)
    requires NulledAll(ts, ss, m.cells)
    ensures Exec(m, DecrefSlots(ts, ss, |m.regs|).0) == Ok(r) && r == m.(regs := r.regs)
    ensures |r.regs| == DecrefSlots(ts, ss, |m.regs|).1
    decreases ss
  {
    r := m;
    if ts != [] && ss != [] {
      var p := m;
      if HasMeminfo(ts[0]) { p := DecrefNulledOk(m, ts[0], ss[0]); }
      r := DecrefAllNulledOk(p, ts[1..], ss[1..]);
      var (a, k) := if HasMeminfo(ts[0]) then DecrefSlot(ts[0], ss[0], |m.regs|) else ([], |m.regs|);
      ExecAppend(m, a, DecrefSlots(ts[1..], ss[1..], k).0);
    }
  }

  /** A second del of a multiply-assigned variable releases nothing. */
  lemma DelTwice(ctx: Context, l: Lowering, live: set<nat>, m: Machine, x: nat) returns (p: Machine, r: Machine)
    requires Supported(ctx) && Inv(ctx, l, live, m) && x in ctx.slots
    ensures x < |ctx.types|
    ensures Exec(m, Lower(ctx, l, Del(x)).0) == Ok(p)
    ensures Exec(p, Lower(ctx, Lower(ctx, l, Del(x)).1, Del(x)).0) == Ok(r)
    ensures r.rc == p.rc && r.cells == p.cells
  {
    p := DelStepOk(ctx, l, live, m, x);
    if HasMeminfo(ctx.types[x]) {
      DecrefNulls(m, ctx.types[x], ctx.slots[x]);
      r := DecrefNulledOk(p, ctx.types[x], ctx.slots[x]);
    } else {
      r := p;
    }
  }

  // ---- nothing leaks ----

  /** The multiply-assigned variables whose last statement so far is not a del. */
  function UndeletedAfter(ctx: Context, undeleted: set<nat>, path: seq<Instr>): set<nat>
    decreases |path|
  {
    if path == [] then undeleted
    else UndeletedAfter(ctx, Touched(ctx, undeleted, path[0]), path[1..])
  }

  function Touched(ctx: Context, undeleted: set<nat>, i: Instr): set<nat> {
    if i.x !in ctx.slots then undeleted
    else if i.Del? then undeleted - {i.x}
    else undeleted + {i.x}
  }

  /** Every object in a cell is in the slot of one of the given variables. */
  ghost predicate ObjectsOnlyIn(ctx: Context, xs: set<nat>, m: Machine) {
    forall c: nat :: c < |m.cells| && m.cells[c].Obj? ==> exists x :: x in xs && c in VarCells(ctx, x)
  }

  ghost predicate Emptied(cs: seq<nat>, cells: seq<Ptr>) {
    forall c :: c in cs ==> c < |cells| && !cells[c].Obj?
  }

  /** A slot whose pointers are null holds no object. */
  lemma {:induction false} NulledEmpty(ctx: Context, m: Machine, t: Ty, slot: Slot)
    requires SlotOk(ctx, t, slot) && CellsOk(ctx, m) && (HasMeminfo(t) ==> Nulled(t, slot, m.cells))
    ensures Emptied(SlotCells(slot), m.cells)
    decreases slot
  {
    if slot.Cells? { NulledAllEmpty(ctx, m, t.Elements(), slot.elems, HasMeminfo(t)); }
  }

  lemma {:induction false} NulledAllEmpty(ctx: Context, m: Machine, ts: seq<Ty>, ss: seq<Slot>, some: bool)
    requires SlotsOk(ctx, ts, ss) && CellsOk(ctx, m)
    requires if some then NulledAll(ts, ss, m.cells) else forall i :: 0 <= i < |ts| ==> !HasMeminfo(ts[i])
    ensures Emptied(SlotsCells(ss), m.cells)
    decreases ss
  {
    if ss != [] {
      NulledEmpty(ctx, m, ts[0], ss[0]);
      NulledAllEmpty(ctx, m, ts[1..], ss[1..], some);
    }
  }

  /** A del leaves no object in the slot. */
  lemma DelEmpties(ctx: Context, l: Lowering, live: set<nat>, m: Machine, x: nat)
    requires SlotsTyped(ctx) && Inv(ctx, l, live, m) && x in ctx.slots
    requires x < |ctx.types| && Exec(m, Lower(ctx, l, Del(x)).0).Ok?
    requires CellsOk(ctx, Exec(m, Lower(ctx, l, Del(x)).0).m)
    ensures Emptied(VarCells(ctx, x), Exec(m, Lower(ctx, l, Del(x)).0).m.cells)
  {
    var t := ctx.types[x];
    if HasMeminfo(t) { DecrefNulls(m, t, ctx.slots[x]); }
    NulledEmpty(ctx, Exec(m, Lower(ctx, l, Del(x)).0).m, t, ctx.slots[x]);
  }

  lemma StepTouches(ctx: Context, l: Lowering, live: set<nat>, m: Machine, i: Instr, r: Machine, xs: set<nat>)
    requires SlotsTyped(ctx) && Inv(ctx, l, live, m) && InRange(ctx, i) && ObjectsOnlyIn(ctx, xs, m)
    requires Exec(m, Lower(ctx, l, i).0) == Ok(r) && CellsOk(ctx, r)
    ensures ObjectsOnlyIn(ctx, Touched(ctx, xs, i), r)
  {
    LowerWrites(ctx, l, i);
    CellsKept(m, Lower(ctx, l, i).0, VarCells(ctx, i.x));
    if i.Del? && i.x in ctx.slots { DelEmpties(ctx, l, live, m, i.x); }
    forall c: nat | c < |r.cells| && r.cells[c].Obj?
      ensures exists x :: x in Touched(ctx, xs, i) && c in VarCells(ctx, x)
    {
      if c in VarCells(ctx, i.x) {
        assert i.x in Touched(ctx, xs, i);
      } else {
        assert m.cells[c].Obj?;
        var x :| x in xs && c in VarCells(ctx, x);
        assert x in Touched(ctx, xs, i);
      }
    }
  }

  lemma {:induction false} PathTouches(ctx: Context, callers: set<nat>, l: Lowering, live: set<nat>, m: Machine,
        path: seq<Instr>, xs: set<nat>)
    requires Supported(ctx) && Inv(ctx, l, live, m) && CallersOwn(callers, m) && LegalPath(ctx, callers, live, path)
    requires (forall i :: i in path ==> InRange(ctx, i)) && ObjectsOnlyIn(ctx, xs, m)
    ensures var r := Exec(m, LowerAll(ctx, l, path).0); r.Ok? && ObjectsOnlyIn(ctx, UndeletedAfter(ctx, xs, path), r.m)
    decreases |path|
  {
    if path != [] {
      var (a, n) := Lower(ctx, l, path[0]);
      var p := StepOk(ctx, l, live, m, path[0], callers);
      StepTouches(ctx, l, live, m, path[0], p, xs);
      PathTouches(ctx, callers, n, After(ctx, live, path[0]), p, path[1..], Touched(ctx, xs, path[0]));
      ExecAppend(m, a, LowerAll(ctx, n, path[1..]).0);
    }
  }

  /** From function entry, a path that ends with no singly-assigned variable live and a del as the
      last statement on every multiply-assigned one leaves exactly the references the callers own:
      nothing leaks and nothing is freed early. */
  lemma NothingLeaks(ctx: Context, callers: set<nat>, l: Lowering, m: Machine, path: seq<Instr>) returns (r: Machine)
    requires Supported(ctx) && Entry(ctx, l, m) && CallersOwn(callers, m) && LegalPath(ctx, callers, {}, path)
    requires forall i :: i in path ==> InRange(ctx, i)
    ensures Exec(m, LowerAll(ctx, l, path).0) == Ok(r)
    ensures LiveAfter(ctx, {}, path) == {} && UndeletedAfter(ctx, {}, path) == {} ==> r.rc == r.outside
  {
    EntryInv(ctx, l, m);
    r := Conservation(ctx, callers, l, {}, m, path);
    PathTouches(ctx, callers, l, {}, m, path, {});
    if LiveAfter(ctx, {}, path) == {} && UndeletedAfter(ctx, {}, path) == {} {
      var k := LowerAll(ctx, l, path).1;
      NoVars(k.vals, r.regs, |k.vals|);
      forall c | 0 <= c < |r.cells| ensures !r.cells[c].Obj? {}
      NoCells(r.cells);
      assert forall o :: r.rc[o] == r.outside[o];
    }
  }

  // ---- how far the incref code reaches ----

  /** MemInfos a value of type t carries. */
  function LeafCount(t: Ty): nat
    decreases t, 0
  {
    if t.IsTuple() then LeafCounts(t.Elements(), t) else if t.Managed? then 1 else 0
  }

  function LeafCounts(ts: seq<Ty>, ghost whole: Ty): nat
    requires forall i :: 0 <= i < |ts| ==> ts[i] < whole
    decreases whole, 0, |ts|
  {
    if ts == [] then 0 else LeafCount(ts[0]) + LeafCounts(ts[1..], whole)
  }

  lemma {:induction false} MeminfoIffLeaves(t: Ty)
    ensures HasMeminfo(t) <==> LeafCount(t) > 0
    decreases t, 0
  {
    if t.IsTuple() { MeminfosIffLeaves(t.Elements(), t); }
  }

  lemma {:induction false} MeminfosIffLeaves(ts: seq<Ty>, whole: Ty)
    requires forall i :: 0 <= i < |ts| ==> ts[i] < whole
    ensures (exists i :: 0 <= i < |ts| && HasMeminfo(ts[i])) <==> LeafCounts(ts, whole) > 0
    decreases whole, 0, |ts|
  {
    if ts != [] {
      MeminfoIffLeaves(ts[0]);
      MeminfosIffLeaves(ts[1..], whole);
      assert ts == [ts[0]] + ts[1..];
      assert forall i :: 1 <= i < |ts| ==> ts[i] == ts[1..][i - 1];
    }
  }

  /** One element: counted exactly unless it is a tuple with NRT content. */
  lemma IncrefsOfElement(t: Ty, v: Val, regs: seq<Ptr>)
    requires Typed(t, v, regs)
    ensures |IncrefOps(t, v)| <= LeafCount(t)
    ensures |IncrefOps(t, v)| == LeafCount(t) <==> (t.IsTuple() ==> !HasMeminfo(t))
  {
    MeminfoIffLeaves(t);
  }

  lemma {:induction false} IncrefsOfElements(ts: seq<Ty>, vs: seq<Val>, regs: seq<Ptr>, whole: Ty)
    requires TypedAll(ts, vs, regs) && forall i :: 0 <= i < |ts| ==> ts[i] < whole
    ensures |IncrefEach(ts, vs)| <= LeafCounts(ts, whole)
    ensures |IncrefEach(ts, vs)| == LeafCounts(ts, whole) <==> FlatElements(ts)
    decreases |ts|
  {
    if ts != [] {
      IncrefsOfElement(ts[0], vs[0], regs);
      IncrefsOfElements(ts[1..], vs[1..], regs, whole);
      assert FlatElements(ts) <==> (ts[0].IsTuple() ==> !HasMeminfo(ts[0])) && FlatElements(ts[1..]) by {
        assert ts == [ts[0]] + ts[1..];
        assert forall i :: 1 <= i < |ts| ==> ts[i] == ts[1..][i - 1];
      }
    }
  }

  /** A copy emits one incref per MemInfo its value carries exactly when no tuple in it nests a
      tuple with NRT content; otherwise it emits fewer. */
  lemma CopyBalancedIffFlat(t: Ty, v: Val, regs: seq<Ptr>)
    requires Typed(t, v, regs)
    ensures |CopyOps(t, v)| <= LeafCount(t)
    ensures |CopyOps(t, v)| == LeafCount(t) <==> Flat(t)
  {
    if t.IsTuple() { IncrefsOfElements(t.Elements(), v.elems, regs, t); } else { IncrefsOfElement(t, v, regs); }
  }

  /** A tuple argument, or a cast of a tuple, gets one incref per MemInfo exactly when it has none. */
  lemma TupleIncrefBalancedIffPlain(t: Ty, v: Val, regs: seq<Ptr>)
    requires t.IsTuple() && Typed(t, v, regs)
    ensures |IncrefOps(t, v)| == LeafCount(t) <==> !HasMeminfo(t)
  {
    MeminfoIffLeaves(t);
  }

  // ---- inputs on which the counts go wrong ----

  const STRING := Managed(0)

  /** A tuple-typed argument with NRT content: its del drops the caller's own reference. */
  lemma TupleArgumentUnbalanced(l: Lowering, m: Machine, o: nat)
    requires l == Lowering([NONE], 0)
    requires m == Machine([], [], multiset{o}, multiset{o}, o + 1)
    ensures var ctx := Context([Tuple([STRING])], map[], []);
            var path := [TupleArg(0, [Obj(o)]), Del(0)];
            var r := Exec(m, LowerAll(ctx, l, path).0);
            r.Ok? && o in r.m.outside && r.m.rc[o] == 0
  {
    var ctx := Context([Tuple([STRING])], map[], []);
    TupleArgumentCode(ctx, l, o);
    var ops := [Param(Obj(o)), Decref(0)];
    assert ops[1..] == [Decref(0)];
    var p := m.(regs := [Obj(o)]);
    assert Exec1(m, ops[0]) == Ok(p);
    LastDecref(p, o);
  }

  lemma TupleArgumentCode(ctx: Context, l: Lowering, o: nat)
    requires ctx == Context([Tuple([STRING])], map[], []) && l == Lowering([NONE], 0)
    ensures LowerAll(ctx, l, [TupleArg(0, [Obj(o)]), Del(0)]).0 == [Param(Obj(o)), Decref(0)]
  {
    assert HasMeminfo(ctx.types[0]) by { assert HasMeminfo(ctx.types[0].Elements()[0]); }
    var k := Lowering([Tup([Reg(0)])], 1);
    var a := TupleArg(0, [Obj(o)]);
    assert Lower(ctx, l, a) == ([Param(Obj(o))], k) by {
      OneElementArg(STRING, 0);
      assert [Obj(o)][1..] == [] && Params([]) == [];
      assert Params([Obj(o)]) == [Param(Obj(o))];
      assert l.vals[0 := Tup([Reg(0)])] == [Tup([Reg(0)])];
    }
    assert Lower(ctx, k, Del(0)) == ([Decref(0)], k) by { OneElementEach(STRING, Reg(0)); }
    var path := [a, Del(0)];
    assert path[1..] == [Del(0)] && [Del(0)][1..] == [];
    assert LowerAll(ctx, k, []) == ([], k);
    assert LowerAll(ctx, k, [Del(0)]) == ([Decref(0)], k);
  }

  /** Wrapping a live tuple in another tuple counts nothing, so deleting the inner variable frees
      the object while the outer one still holds it. */
  lemma NestedTupleFreedWhileHeld(l: Lowering, m: Machine, o: nat)
    requires l == Lowering([Tup([Reg(0)]), NONE], 1)
    requires m == Machine([Obj(o)], [], multiset{o}, multiset{}, o + 1)
    ensures var ctx := Context([Tuple([STRING]), Tuple([Tuple([STRING])])], map[], []);
            var path := [Build(1, [0]), Del(0)];
            var (ops, k) := LowerAll(ctx, l, path);
            var r := Exec(m, ops);
            && Inv(ctx, l, {0}, m) && LegalPath(ctx, {}, {0}, path) && LiveAfter(ctx, {0}, path) == {1}
            && r.Ok? && r.m.rc[o] == 0 && Held(k.vals[1], r.m.regs, o) == 1
  {
    var ctx := Context([Tuple([STRING]), Tuple([Tuple([STRING])])], map[], []);
    var path := [Build(1, [0]), Del(0)];
    var k := Lowering([Tup([Reg(0)]), Tup([Tup([Reg(0)])])], 1);
    NestedCode(ctx, l, k);
    NestedLegal(ctx);
    LastDecref(m, o);
    NestedBefore(ctx, l, m, o);
    HeldInside(m.regs, o);
  }

  lemma LastDecref(m: Machine, o: nat)
    requires m.regs == [Obj(o)] && m.rc == multiset{o}
    ensures Exec(m, [Decref(0)]) == Ok(m.(rc := multiset{}))
  {
    assert m.rc - multiset{o} == multiset{};
    assert [Decref(0)][1..] == [];
    var r := m.(rc := multiset{});
    assert Exec(r, []) == Ok(r);
  }

  lemma HeldInside(regs: seq<Ptr>, o: nat)
    requires regs == [Obj(o)]
    ensures forall p :: Held(Tup([Reg(0)]), regs, p) == Refers(Obj(o), p)
    ensures forall p :: Held(Tup([Tup([Reg(0)])]), regs, p) == Refers(Obj(o), p)
  {
    assert [Reg(0)][1..] == [] && [Tup([Reg(0)])][1..] == [];
    forall p ensures Held(Tup([Reg(0)]), regs, p) == Refers(Obj(o), p) {
      assert HeldAll([], regs, p) == 0;
      assert HeldAll([Reg(0)], regs, p) == Refers(Obj(o), p);
    }
    forall p ensures Held(Tup([Tup([Reg(0)])]), regs, p) == Refers(Obj(o), p) {
      assert HeldAll([], regs, p) == 0;
      assert HeldAll([Tup([Reg(0)])], regs, p) == Held(Tup([Reg(0)]), regs, p);
    }
  }

  lemma NestedBefore(ctx: Context, l: Lowering, m: Machine, o: nat)
    requires ctx == Context([Tuple([STRING]), Tuple([Tuple([STRING])])], map[], [])
    requires l == Lowering([Tup([Reg(0)]), NONE], 1)
    requires m == Machine([Obj(o)], [], multiset{o}, multiset{}, o + 1)
    ensures Inv(ctx, l, {0}, m)
  {
    HeldInside(m.regs, o);
    assert Typed(STRING, Reg(0), m.regs);
    assert Typed(ctx.types[0], l.vals[0], m.regs);
    forall p ensures m.rc[p] == Owned(l, {0}, m, p) {
      assert HeldByVars(l.vals, {0}, m.regs, 0, p) == 0;
      assert HeldByVars(l.vals, {0}, m.regs, 1, p) == Held(l.vals[0], m.regs, p);
      assert HeldByVars(l.vals, {0}, m.regs, 2, p) == Held(l.vals[0], m.regs, p);
    }
  }

  lemma NestedLegal(ctx: Context)
    requires ctx == Context([Tuple([STRING]), Tuple([Tuple([STRING])])], map[], [])
    ensures var path := [Build(1, [0]), Del(0)];
            LegalPath(ctx, {}, {0}, path) && LiveAfter(ctx, {0}, path) == {1}
  {
    var path := [Build(1, [0]), Del(0)];
    assert path[1..] == [Del(0)] && [Del(0)][1..] == [];
    assert {0} + {1} - {0} == {1};
    assert LegalPath(ctx, {}, {1}, []);
  }

  lemma NestedCode(ctx: Context, l: Lowering, k: Lowering)
    requires ctx == Context([Tuple([STRING]), Tuple([Tuple([STRING])])], map[], [])
    requires l == Lowering([Tup([Reg(0)]), NONE], 1)
    requires k == Lowering([Tup([Reg(0)]), Tup([Tup([Reg(0)])])], 1)
    ensures LowerAll(ctx, l, [Build(1, [0]), Del(0)]) == ([Decref(0)], k)
  {
    var path := [Build(1, [0]), Del(0)];
    assert path[1..] == [Del(0)] && [Del(0)][1..] == [];
    NestedBuildCountsNothing(ctx, l, k);
    InnerDelReleases(ctx, k);
    assert LowerAll(ctx, k, []) == ([], k);
    assert LowerAll(ctx, k, [Del(0)]) == ([Decref(0)], k);
    assert [] + [Decref(0)] == [Decref(0)];
  }

  lemma NestedBuildCountsNothing(ctx: Context, l: Lowering, k: Lowering)
    requires ctx == Context([Tuple([STRING]), Tuple([Tuple([STRING])])], map[], [])
    requires l == Lowering([Tup([Reg(0)]), NONE], 1)
    requires k == Lowering([Tup([Reg(0)]), Tup([Tup([Reg(0)])])], 1)
    ensures Lower(ctx, l, Build(1, [0])) == ([], k)
  {
    assert [0][1..] == [] && l.(next := 1) == l;
    assert LoadVar(ctx, l, 0) == ([], Tup([Reg(0)]), 1);
    assert LoadVars(ctx, l, []) == ([], [], 1);
    assert [Tup([Reg(0)])] + [] == [Tup([Reg(0)])];
    assert LoadVars(ctx, l, [0]).1 == [Tup([Reg(0)])];
    assert LoadVars(ctx, l, [0]).0 == [];
    assert l.vals[1 := Tup([Tup([Reg(0)])])] == k.vals;
    OneElementEach(Tuple([STRING]), Tup([Reg(0)]));
  }

  lemma InnerDelReleases(ctx: Context, k: Lowering)
    requires ctx == Context([Tuple([STRING]), Tuple([Tuple([STRING])])], map[], [])
    requires k == Lowering([Tup([Reg(0)]), Tup([Tup([Reg(0)])])], 1)
    ensures Lower(ctx, k, Del(0)) == ([Decref(0)], k)
  {
    assert HasMeminfo(ctx.types[0]) by { assert HasMeminfo(ctx.types[0].Elements()[0]); }
    OneElementEach(STRING, Reg(0));
  }

  lemma OneElementArg(t: Ty, next: nat)
    requires t.Managed?
    ensures ArgValue(Tuple([t]), next) == (Tup([Reg(next)]), next + 1)
  {
    var whole := Tuple([t]);
    var ts := whole.Elements();
    assert ts[1..] == [] && ArgValues([], next + 1, whole) == ([], next + 1);
    assert ArgValues(ts, next, whole).0 == [Reg(next)];
  }

  lemma OneElementEach(t: Ty, v: Val)
    ensures IncrefEach([t], [v]) == IncrefOps(t, v) && DecrefEach([t], [v]) == DecrefOps(t, v)
  {
    assert [t][1..] == [] && [v][1..] == [];
    assert IncrefEach([], []) == [] && DecrefEach([], []) == [];
  }
}
