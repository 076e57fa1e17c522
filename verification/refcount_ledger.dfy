/** Every statement from every state, whether counts equal owners or not: exactly when its code
    faults, and by how much it moves the difference between owners and counts. */
module RefcountLedger {
  import opened NumbaTypes
  import opened Refcount
  import opened RefcountConservation
  import opened RefcountCells
  import opened RefcountCounting
  import opened RefcountTheorems

  // ---- what a statement moves ----

  /** Statements that hand the value of other variables, or of an argument, to their target. */
  predicate Moves(i: Instr) {
    i.Assign? || i.Forward? || i.Build? || i.Cast? || i.Element? || i.TupleArg? || i.Arg?
  }

  /** Statements that count the elements of a tuple one by one. */
  predicate Elementwise(i: Instr) {
    i.Assign? || i.Forward? || i.Build? || i.Del?
  }

  /** The value whose references a statement hands to its target or, if it is a del of a
      singly-assigned variable, gives up. */
  function Moved(ctx: Context, l: Lowering, i: Instr): Val
    requires |l.vals| == |ctx.types| && InRange(ctx, i)
  {
    match i
    case Assign(_, y) => LoadVar(ctx, l, y).1
    case Forward(_, y) => LoadVar(ctx, l, y).1
    case Cast(_, y) => LoadVar(ctx, l, y).1
    case Element(_, y, k) =>
      var v := LoadVar(ctx, l, y).1;
      if v.Tup? && k < |v.elems| then v.elems[k] else NONE
    case Build(_, items) => Tup(LoadVars(ctx, l, items).1)
    case TupleArg(x, _) => ArgValue(ctx.types[x], l.next).0
    case Arg(_, _) => Reg(l.next)
    case Del(x) => if x in ctx.slots then NONE else l.vals[x]
    case _ => NONE
  }

  /** The code that reads it. */
  function ReadOps(ctx: Context, l: Lowering, i: Instr): seq<Op>
    requires |l.vals| == |ctx.types| && InRange(ctx, i)
  {
    match i
    case Assign(_, y) => LoadVar(ctx, l, y).0
    case Forward(_, y) => LoadVar(ctx, l, y).0
    case Cast(_, y) => LoadVar(ctx, l, y).0
    case Element(_, y, _) => LoadVar(ctx, l, y).0
    case Build(_, items) => LoadVars(ctx, l, items).0
    case TupleArg(_, ps) => Params(ps)
    case Arg(_, p) => [Param(p)]
    case _ => []
  }

  /** The number of registers after that. */
  function ReadEnd(ctx: Context, l: Lowering, i: Instr): nat
    requires |l.vals| == |ctx.types| && InRange(ctx, i)
  {
    match i
    case Assign(_, y) => LoadVar(ctx, l, y).2
    case Forward(_, y) => LoadVar(ctx, l, y).2
    case Cast(_, y) => LoadVar(ctx, l, y).2
    case Element(_, y, _) => LoadVar(ctx, l, y).2
    case Build(_, items) => LoadVars(ctx, l, items).2
    case TupleArg(_, ps) => l.next + |ps|
    case Arg(_, _) => l.next + 1
    case _ => l.next
  }

  /** The code that counts it. */
  function CountOps(ctx: Context, l: Lowering, i: Instr): seq<Op>
    requires |l.vals| == |ctx.types| && InRange(ctx, i)
  {
    if Elementwise(i) then CopyOps(ctx.types[i.x], Moved(ctx, l, i)) else IncrefOps(ctx.types[i.x], Moved(ctx, l, i))
  }

  /** Read, count, store. */
  lemma MoveCode(ctx: Context, l: Lowering, i: Instr)
    requires |l.vals| == |ctx.types| && InRange(ctx, i) && Moves(i) && (i.Forward? ==> Moved(ctx, l, i).Tup?)
    ensures var (ops, k) := StoreVar(ctx, l.(next := ReadEnd(ctx, l, i)), i.x, Moved(ctx, l, i));
            Lower(ctx, l, i) == (ReadOps(ctx, l, i) + CountOps(ctx, l, i) + ops, k)
  {
  }

  function AfterReading(ctx: Context, l: Lowering, m: Machine, i: Instr): Machine
    requires |l.vals| == |ctx.types| && InRange(ctx, i)
  {
    match Exec(m, ReadOps(ctx, l, i)) case Ok(p) => p case Fault => m
  }

  /** References to o that a statement's code misses. */
  function Gap(ctx: Context, l: Lowering, i: Instr, regs: seq<Ptr>, o: nat): nat
    requires |l.vals| == |ctx.types| && InRange(ctx, i)
  {
    Missed(Elementwise(i), ctx.types[i.x], Moved(ctx, l, i), regs, o)
  }

  /** By how much a statement moves owners past counts. */
  function Shift(ctx: Context, l: Lowering, i: Instr, regs: seq<Ptr>, o: nat): int
    requires |l.vals| == |ctx.types| && InRange(ctx, i)
  {
    var gap: int := Gap(ctx, l, i, regs, o);
    if i.Del? then -gap else gap
  }

  // ---- when a statement faults ----

  /** References to o that the increfs add. */
  function Added(ctx: Context, l: Lowering, m: Machine, i: Instr, o: nat): int
    requires |l.vals| == |ctx.types| && InRange(ctx, i)
  {
    if Moves(i) then
      Reached(Elementwise(i), ctx.types[i.x], Moved(ctx, l, i), AfterReading(ctx, l, m, i).regs, o)
    else 0
  }

  /** References a new object is born with. */
  function Born(m: Machine, i: Instr, o: nat): int {
    if i.Fresh? && o == m.created then 1 else 0
  }

  /** References to o that the decrefs take. */
  function Dropped(ctx: Context, l: Lowering, m: Machine, i: Instr, o: nat): int
    requires |l.vals| == |ctx.types| && InRange(ctx, i)
  {
    if i.Return? then 0
    else if i.Del? && i.x !in ctx.slots then Reached(true, ctx.types[i.x], l.vals[i.x], m.regs, o)
    else CellsHeld(VarCells(ctx, i.x), m.cells, o)
  }

  /** The increfs find o alive, and it does not lose more references than it has. */
  predicate SafeFor(ctx: Context, l: Lowering, m: Machine, i: Instr, o: nat)
    requires |l.vals| == |ctx.types| && InRange(ctx, i)
  {
    && (Added(ctx, l, m, i, o) > 0 ==> o in m.rc)
    && Dropped(ctx, l, m, i, o) <= m.rc[o] + Added(ctx, l, m, i, o) + Born(m, i, o)
  }

  ghost predicate Faultless(ctx: Context, l: Lowering, m: Machine, i: Instr)
    requires |l.vals| == |ctx.types| && InRange(ctx, i)
  {
    forall o :: SafeFor(ctx, l, m, i, o)
  }

  predicate HasValue(ctx: Context, i: Instr) {
    Moves(i) || (i.Del? && i.x !in ctx.slots)
  }

  /** The code of i faults exactly if it is not faultless, and otherwise leads from m to r with
      owners moved past counts by the shift. */
  ghost predicate Keeps(ctx: Context, l: Lowering, live: set<nat>, m: Machine, i: Instr, r: Machine)
    requires |l.vals| == |ctx.types| && InRange(ctx, i)
  {
    KeepsRun(ctx, l, live, m, i, Exec(m, Lower(ctx, l, i).0), Lower(ctx, l, i).1, r)
  }

  ghost predicate KeepsRun(ctx: Context, l: Lowering, live: set<nat>, m: Machine, i: Instr, e: Result, k: Lowering,
        r: Machine)
    requires |l.vals| == |ctx.types| && InRange(ctx, i)
  {
    var after := After(ctx, live, i);
    && (e.Ok? <==> Faultless(ctx, l, m, i))
    && (e.Ok? ==>
          && e == Ok(r) && Shape(ctx, k, after, r) && m.regs <= r.regs && m.outside <= r.outside
          && (HasValue(ctx, i) ==> Typed(ctx.types[i.x], Moved(ctx, l, i), r.regs))
          && forall o :: Deficit(k, after, r, o) == Deficit(l, live, m, o) + Shift(ctx, l, i, r.regs, o))
  }

  // ---- moving a value ----

  predicate SafeMove(p: Machine, elementwise: bool, t: Ty, v: Val, cs: seq<nat>, o: nat) {
    && (Reached(elementwise, t, v, p.regs, o) > 0 ==> o in p.rc)
    && CellsHeld(cs, p.cells, o) <= p.rc[o] + Reached(elementwise, t, v, p.regs, o)
  }

  ghost predicate CanMove(p: Machine, elementwise: bool, t: Ty, v: Val, cs: seq<nat>) {
    forall o :: SafeMove(p, elementwise, t, v, cs, o)
  }

  /** Counting code c for v: it faults exactly if it reaches an object without references. */
  ghost predicate CountsValue(p: Machine, c: seq<Op>, q: Machine, elementwise: bool, t: Ty, v: Val) {
    && CountsOrFaults(p, c, q)
    && (Exec(p, c).Ok? <==> forall o :: Reached(elementwise, t, v, p.regs, o) > 0 ==> o in p.rc)
    && (Exec(p, c).Ok? ==> forall o :: q.rc[o] == p.rc[o] + Reached(elementwise, t, v, p.regs, o))
  }

  lemma CountedMove(p: Machine, q: Machine, elementwise: bool, t: Ty, v: Val, cs: seq<nat>)
    requires OnlyCounts(p, q) && forall o :: q.rc[o] == p.rc[o] + Reached(elementwise, t, v, p.regs, o)
    requires forall o :: Reached(elementwise, t, v, p.regs, o) > 0 ==> o in p.rc
    ensures CanMove(p, elementwise, t, v, cs) <==> Releasable(q, cs)
  {
    forall o ensures SafeMove(p, elementwise, t, v, cs, o) <==> CellsHeld(cs, q.cells, o) <= q.rc[o] {}
  }

  lemma CanMoveIff(p: Machine, c: seq<Op>, q: Machine, elementwise: bool, t: Ty, v: Val, cs: seq<nat>)
    requires CountsValue(p, c, q, elementwise, t, v)
    ensures CanMove(p, elementwise, t, v, cs) <==> Exec(p, c).Ok? && Releasable(q, cs)
  {
    if Exec(p, c).Ok? {
      CountedMove(p, q, elementwise, t, v, cs);
    } else {
      var o :| Reached(elementwise, t, v, p.regs, o) > 0 && o !in p.rc;
      assert !SafeMove(p, elementwise, t, v, cs, o);
    }
  }

  lemma DeficitAfter(l: Lowering, live: set<nat>, p: Machine, q: Machine, elementwise: bool, t: Ty, v: Val)
    requires OnlyCounts(p, q)
    requires forall o :: q.rc[o] == p.rc[o] + Reached(elementwise, t, v, p.regs, o)
    ensures forall o :: Deficit(l, live, q, o) + Held(v, p.regs, o) ==
                        Deficit(l, live, p, o) + Missed(elementwise, t, v, p.regs, o)
  {
    assert forall o :: Owned(l, live, q, o) == Owned(l, live, p, o);
  }

  /** x has come to own v, which counts miss in part. */
  ghost predicate Stored(ctx: Context, l: Lowering, live: set<nat>, p: Machine, elementwise: bool, x: nat, v: Val,
        k: Lowering, r: Machine)
    requires x < |ctx.types|
  {
    var after := if x in ctx.slots then live else live + {x};
    && Shape(ctx, k, after, r) && p.regs <= r.regs && r.outside == p.outside && Typed(ctx.types[x], v, r.regs)
    && forall o :: Deficit(k, after, r, o) ==
                   Deficit(l, live, p, o) + Missed(elementwise, ctx.types[x], v, r.regs, o)
  }

  /** Count, then store. */
  lemma CountThenStore(ctx: Context, l: Lowering, live: set<nat>, p: Machine, q: Machine, elementwise: bool, x: nat,
        v: Val, c: seq<Op>)
      returns (r: Machine)
    requires SlotsApart(ctx) && Shape(ctx, l, live, p) && x < |ctx.types| && x !in live
    requires Typed(ctx.types[x], v, p.regs) && CountsValue(p, c, q, elementwise, ctx.types[x], v)
    ensures var (ops, k) := StoreVar(ctx, l, x, v);
            && (Exec(p, c + ops).Ok? <==> CanMove(p, elementwise, ctx.types[x], v, VarCells(ctx, x)))
            && (Exec(p, c + ops).Ok? ==> Exec(p, c + ops) == Ok(r) && Stored(ctx, l, live, p, elementwise, x, v, k, r))
  {
    r := p;
    ExecAppend(p, c, StoreVar(ctx, l, x, v).0);
    CanMoveIff(p, c, q, elementwise, ctx.types[x], v, VarCells(ctx, x));
    if Exec(p, c).Ok? {
      r := StoreVarIff(ctx, l, live, q, x, v);
      if Releasable(q, VarCells(ctx, x)) {
        MissedExtends(elementwise, ctx.types[x], v, p.regs, r.regs);
        DeficitAfter(l, live, p, q, elementwise, ctx.types[x], v);
      }
    }
  }

  lemma Regroup(a: seq<Op>, b: seq<Op>, c: seq<Op>)
    ensures (a + b) + c == a + (b + c)
  {
  }

  /** Count and store after reading has led from m to p. */
  lemma MoveRun(ctx: Context, l: Lowering, live: set<nat>, m: Machine, i: Instr, p: Machine, q: Machine)
      returns (r: Machine)
    requires SlotsApart(ctx) && |l.vals| == |ctx.types| && InRange(ctx, i) && Moves(i) && i.x !in live
    requires AfterReading(ctx, l, m, i) == p && p == m.(regs := p.regs) && m.regs <= p.regs
    requires Shape(ctx, l.(next := ReadEnd(ctx, l, i)), live, p)
    requires forall o :: Owned(l.(next := ReadEnd(ctx, l, i)), live, p, o) == Owned(l, live, m, o)
    requires Typed(ctx.types[i.x], Moved(ctx, l, i), p.regs)
    requires CountsValue(p, CountOps(ctx, l, i), q, Elementwise(i), ctx.types[i.x], Moved(ctx, l, i))
    ensures var (ops, k) := StoreVar(ctx, l.(next := ReadEnd(ctx, l, i)), i.x, Moved(ctx, l, i));
            KeepsRun(ctx, l, live, m, i, Exec(p, CountOps(ctx, l, i) + ops), k, r)
  {
    var n := ReadEnd(ctx, l, i);
    r := CountThenStore(ctx, l.(next := n), live, p, q, Elementwise(i), i.x, Moved(ctx, l, i), CountOps(ctx, l, i));
    FaultlessMove(ctx, l, m, i, p);
    var (ops, k) := StoreVar(ctx, l.(next := n), i.x, Moved(ctx, l, i));
    if Exec(p, CountOps(ctx, l, i) + ops).Ok? { StoredShifts(ctx, l, n, live, m, i, p, k, r); }
  }

  lemma StoredShifts(ctx: Context, l: Lowering, n: nat, live: set<nat>, m: Machine, i: Instr, p: Machine, k: Lowering,
        r: Machine)
    requires |l.vals| == |ctx.types| && InRange(ctx, i) && Moves(i) && p == m.(regs := p.regs)
    requires forall o :: Owned(l.(next := n), live, p, o) == Owned(l, live, m, o)
    requires Stored(ctx, l.(next := n), live, p, Elementwise(i), i.x, Moved(ctx, l, i), k, r)
    ensures forall o :: Deficit(k, After(ctx, live, i), r, o) == Deficit(l, live, m, o) + Shift(ctx, l, i, r.regs, o)
  {
  }

  /** Read, count, store. */
  lemma ReadCountStore(ctx: Context, l: Lowering, live: set<nat>, m: Machine, i: Instr, p: Machine, q: Machine)
      returns (r: Machine)
    requires SlotsApart(ctx) && |l.vals| == |ctx.types| && InRange(ctx, i) && Moves(i) && i.x !in live
    requires Exec(m, ReadOps(ctx, l, i)) == Ok(p) && p == m.(regs := p.regs) && m.regs <= p.regs
    requires Shape(ctx, l.(next := ReadEnd(ctx, l, i)), live, p)
    requires forall o :: Owned(l.(next := ReadEnd(ctx, l, i)), live, p, o) == Owned(l, live, m, o)
    requires Typed(ctx.types[i.x], Moved(ctx, l, i), p.regs) && (i.Forward? ==> Moved(ctx, l, i).Tup?)
    requires CountsValue(p, CountOps(ctx, l, i), q, Elementwise(i), ctx.types[i.x], Moved(ctx, l, i))
    ensures Keeps(ctx, l, live, m, i, r)
  {
    ReadTo(ctx, l, m, i, p);
    r := MoveRun(ctx, l, live, m, i, p, q);
    MoveCode(ctx, l, i);
    var a, c := ReadOps(ctx, l, i), CountOps(ctx, l, i);
    var ops := StoreVar(ctx, l.(next := ReadEnd(ctx, l, i)), i.x, Moved(ctx, l, i)).0;
    Regroup(a, c, ops);
    ExecAppend(m, a, c + ops);
  }

  lemma SafeMoveFor(ctx: Context, l: Lowering, m: Machine, i: Instr, p: Machine, o: nat)
    requires |l.vals| == |ctx.types| && InRange(ctx, i) && Moves(i)
    requires AfterReading(ctx, l, m, i) == p && p.rc == m.rc && p.cells == m.cells
    ensures SafeFor(ctx, l, m, i, o) <==>
            SafeMove(p, Elementwise(i), ctx.types[i.x], Moved(ctx, l, i), VarCells(ctx, i.x), o)
  {
  }

  lemma ReadTo(ctx: Context, l: Lowering, m: Machine, i: Instr, p: Machine)
    requires |l.vals| == |ctx.types| && InRange(ctx, i) && Exec(m, ReadOps(ctx, l, i)) == Ok(p)
    ensures AfterReading(ctx, l, m, i) == p
  {
  }

  lemma FaultlessMove(ctx: Context, l: Lowering, m: Machine, i: Instr, p: Machine)
    requires |l.vals| == |ctx.types| && InRange(ctx, i) && Moves(i)
    requires AfterReading(ctx, l, m, i) == p && p.rc == m.rc && p.cells == m.cells
    ensures Faultless(ctx, l, m, i) <==>
            CanMove(p, Elementwise(i), ctx.types[i.x], Moved(ctx, l, i), VarCells(ctx, i.x))
  {
    forall o ensures SafeFor(ctx, l, m, i, o) <==>
                     SafeMove(p, Elementwise(i), ctx.types[i.x], Moved(ctx, l, i), VarCells(ctx, i.x), o) {
      SafeMoveFor(ctx, l, m, i, p, o);
    }
  }

  lemma CopyKeeps(ctx: Context, l: Lowering, live: set<nat>, m: Machine, i: Instr, callers: set<nat>)
      returns (r: Machine)
    requires SlotsApart(ctx) && Shape(ctx, l, live, m) && Allowed(ctx, callers, live, i) && (i.Assign? || i.Forward?)
    ensures Keeps(ctx, l, live, m, i, r)
  {
    var p := LoadVarReads(ctx, l, live, m, i.y);
    var q := CopyIff(p, ctx.types[i.x], Moved(ctx, l, i));
    r := ReadCountStore(ctx, l, live, m, i, p, q);
  }

  lemma BuildKeeps(ctx: Context, l: Lowering, live: set<nat>, m: Machine, i: Instr, callers: set<nat>)
      returns (r: Machine)
    requires SlotsApart(ctx) && Shape(ctx, l, live, m) && Allowed(ctx, callers, live, i) && i.Build?
    ensures Keeps(ctx, l, live, m, i, r)
  {
    var p := LoadVarsRead(ctx, l, live, m, i.items);
    assert TypedAll(ctx.types[i.x].Elements(), LoadVars(ctx, l, i.items).1, p.regs);
    var q := CopyIff(p, ctx.types[i.x], Moved(ctx, l, i));
    r := ReadCountStore(ctx, l, live, m, i, p, q);
  }

  lemma SingleKeeps(ctx: Context, l: Lowering, live: set<nat>, m: Machine, i: Instr, callers: set<nat>)
      returns (r: Machine)
    requires SlotsApart(ctx) && Shape(ctx, l, live, m) && Allowed(ctx, callers, live, i) && (i.Cast? || i.Element?)
    ensures Keeps(ctx, l, live, m, i, r)
  {
    var p := LoadVarReads(ctx, l, live, m, i.y);
    var q := IncrefIff(p, ctx.types[i.x], Moved(ctx, l, i));
    r := ReadCountStore(ctx, l, live, m, i, p, q);
  }

  lemma TupleArgKeeps(ctx: Context, l: Lowering, live: set<nat>, m: Machine, i: Instr, callers: set<nat>)
      returns (r: Machine)
    requires SlotsApart(ctx) && Shape(ctx, l, live, m) && Allowed(ctx, callers, live, i) && i.TupleArg?
    ensures Keeps(ctx, l, live, m, i, r)
  {
    var p := TupleArgRead(ctx, l, live, m, ctx.types[i.x], i.ps);
    var q := IncrefIff(p, ctx.types[i.x], Moved(ctx, l, i));
    r := ReadCountStore(ctx, l, live, m, i, p, q);
  }

  lemma ArgKeeps(ctx: Context, l: Lowering, live: set<nat>, m: Machine, i: Instr, callers: set<nat>)
      returns (r: Machine)
    requires SlotsApart(ctx) && Shape(ctx, l, live, m) && Allowed(ctx, callers, live, i) && i.Arg?
    ensures Keeps(ctx, l, live, m, i, r)
  {
    var p := m.(regs := m.regs + [i.p]);
    OneOp(m, Param(i.p));
    ShapeExtends(ctx, l, live, m, p);
    var q := IncrefIff(p, ctx.types[i.x], Moved(ctx, l, i));
    r := ReadCountStore(ctx, l, live, m, i, p, q);
  }

  // ---- the other statements ----

  /** What Faultless says of a statement without increfs. */
  lemma FaultlessDrop(ctx: Context, l: Lowering, m: Machine, i: Instr, p: Machine)
    requires |l.vals| == |ctx.types| && InRange(ctx, i) && !Moves(i)
    requires p.cells == m.cells && forall o :: p.rc[o] == m.rc[o] + Born(m, i, o)
    ensures Faultless(ctx, l, m, i) <==> forall o :: Dropped(ctx, l, m, i, o) <= p.rc[o]
  {
    forall o ensures SafeFor(ctx, l, m, i, o) <==> Dropped(ctx, l, m, i, o) <= p.rc[o] {}
  }

  /** A del of a singly-assigned variable. */
  lemma DelKeeps(ctx: Context, l: Lowering, live: set<nat>, m: Machine, x: nat) returns (r: Machine)
    requires SlotsTyped(ctx) && Shape(ctx, l, live, m) && x in live
    ensures Keeps(ctx, l, live, m, Del(x), r)
  {
    var t, v := ctx.types[x], l.vals[x];
    VarsKill(l.vals, live, m.regs, x, |l.vals|);
    FaultlessDrop(ctx, l, m, Del(x), m);
    assert forall o :: Dropped(ctx, l, m, Del(x), o) == Reached(true, t, v, m.regs, o);
    if HasMeminfo(t) {
      r := DelIff(m, t, v);
    } else {
      r := m;
      NoMeminfoHoldsNothing(t, v, m.regs);
      ReachedHeld(true, t, v, m.regs);
    }
  }

  lemma DelSlotKeeps(ctx: Context, l: Lowering, live: set<nat>, m: Machine, x: nat) returns (r: Machine)
    requires SlotsApart(ctx) && Shape(ctx, l, live, m) && x in ctx.slots
    ensures x < |ctx.types| && Keeps(ctx, l, live, m, Del(x), r)
  {
    var t, slot := ctx.types[x], ctx.slots[x];
    FaultlessDrop(ctx, l, m, Del(x), m);
    assert forall o :: Dropped(ctx, l, m, Del(x), o) == CellsHeld(SlotCells(slot), m.cells, o);
    if HasMeminfo(t) {
      r := DecrefSlotIff(ctx, m, t, slot);
      if Releasable(m, SlotCells(slot)) { ShapeExtends(ctx, l, live, m, r); }
    } else {
      r := m;
      UnmanagedHoldNothing(ctx, m, t, slot);
    }
  }

  lemma ReturnKeeps(ctx: Context, l: Lowering, live: set<nat>, m: Machine, x: nat) returns (r: Machine)
    requires SlotsTyped(ctx) && Shape(ctx, l, live, m) && x in live
    ensures Keeps(ctx, l, live, m, Return(x), r)
  {
    r := ReturnMoves(ctx, l, live, m, x);
    FaultlessDrop(ctx, l, m, Return(x), m);
  }

  lemma ConstantKeeps(ctx: Context, l: Lowering, live: set<nat>, m: Machine, x: nat, n: int) returns (r: Machine)
    requires SlotsApart(ctx) && Shape(ctx, l, live, m) && Writable(ctx, live, x)
    requires !ctx.types[x].IsTuple() && !ctx.types[x].Managed?
    ensures Keeps(ctx, l, live, m, Constant(x, n), r)
  {
    r := StoreVarIff(ctx, l, live, m, x, Const(n));
    FaultlessDrop(ctx, l, m, Constant(x, n), m);
    assert forall o :: Dropped(ctx, l, m, Constant(x, n), o) == CellsHeld(VarCells(ctx, x), m.cells, o);
  }

  lemma DefineCode(ctx: Context, l: Lowering, m: Machine, x: nat, def: Op, p: Machine)
    requires |l.vals| == |ctx.types| && x < |ctx.types| && Exec1(m, def) == Ok(p)
    ensures var s := StoreVar(ctx, l.(next := l.next + 1), x, Reg(l.next));
            var d := Define(ctx, l, x, [def], []);
            Exec(m, d.0) == Exec(p, s.0) && d.1 == s.1
  {
    RunAfter(m, def, StoreVar(ctx, l.(next := l.next + 1), x, Reg(l.next)).0, p);
  }

  lemma RunAfter(m: Machine, def: Op, ops: seq<Op>, p: Machine)
    requires Exec1(m, def) == Ok(p)
    ensures Exec(m, [def] + [] + ops) == Exec(p, ops)
  {
    OneOp(m, def);
    assert [def] + [] == [def];
    ExecAppend(m, [def], ops);
  }

  /** A new register, stored without further code. */
  lemma NewKeeps(ctx: Context, l: Lowering, live: set<nat>, m: Machine, i: Instr, def: Op, p: Machine)
      returns (r: Machine)
    requires SlotsApart(ctx) && Shape(ctx, l, live, m) && i.x < |ctx.types| && i.x !in live
    requires (i.Fresh? && def == New) || (i.Plain? && def == Op.Scalar(i.n))
    requires Exec1(m, def) == Ok(p) && Typed(ctx.types[i.x], Reg(|m.regs|), p.regs) && !ctx.types[i.x].IsTuple()
    ensures Keeps(ctx, l, live, m, i, r)
  {
    var k := l.(next := l.next + 1);
    NewRegister(ctx, l, live, m, i, def, p);
    r := StoreVarIff(ctx, k, live, p, i.x, Reg(l.next));
    FaultlessDrop(ctx, l, m, i, p);
    assert forall o :: Dropped(ctx, l, m, i, o) == CellsHeld(VarCells(ctx, i.x), p.cells, o);
    DefineCode(ctx, l, m, i.x, def, p);
    assert Lower(ctx, l, i) == Define(ctx, l, i.x, [def], []);
    assert forall o :: Shift(ctx, l, i, r.regs, o) == 0;
  }

  lemma NewRegister(ctx: Context, l: Lowering, live: set<nat>, m: Machine, i: Instr, def: Op, p: Machine)
    requires Shape(ctx, l, live, m) && Exec1(m, def) == Ok(p)
    requires (i.Fresh? && def == New) || (i.Plain? && def == Op.Scalar(i.n))
    ensures p == m.(regs := p.regs, rc := p.rc, created := p.created) && m.regs <= p.regs
    ensures Shape(ctx, l.(next := l.next + 1), live, p)
    ensures forall o :: p.rc[o] == m.rc[o] + Born(m, i, o)
    ensures forall o :: Deficit(l.(next := l.next + 1), live, p, o) + Held(Reg(|m.regs|), p.regs, o) ==
                        Deficit(l, live, m, o)
  {
    ShapeExtends(ctx, l, live, m, p);
    assert forall o :: Held(Reg(|m.regs|), p.regs, o) == Born(m, i, o);
  }

  /** Every statement that the placement of dels allows, from every well-shaped state: its code
      faults exactly when it reaches an object that has run out of references; otherwise it moves
      owners past counts by exactly the references it misses (a del moves them back). */
  lemma StepLedger(ctx: Context, l: Lowering, live: set<nat>, m: Machine, i: Instr, callers: set<nat>)
      returns (r: Machine)
    requires SlotsApart(ctx) && Shape(ctx, l, live, m) && Allowed(ctx, callers, live, i)
    ensures Keeps(ctx, l, live, m, i, r)
  {
    match i
    case Fresh(_) => r := NewKeeps(ctx, l, live, m, i, New, Exec1(m, New).m);
    case Plain(_, n) => r := NewKeeps(ctx, l, live, m, i, Op.Scalar(n), Exec1(m, Op.Scalar(n)).m);
    case Constant(x, n) => r := ConstantKeeps(ctx, l, live, m, x, n);
    case Arg(_, _) => r := ArgKeeps(ctx, l, live, m, i, callers);
    case TupleArg(_, _) => r := TupleArgKeeps(ctx, l, live, m, i, callers);
    case Assign(_, _) => r := CopyKeeps(ctx, l, live, m, i, callers);
    case Forward(_, _) => r := CopyKeeps(ctx, l, live, m, i, callers);
    case Cast(_, _) => r := SingleKeeps(ctx, l, live, m, i, callers);
    case Element(_, _, _) => r := SingleKeeps(ctx, l, live, m, i, callers);
    case Build(_, _) => r := BuildKeeps(ctx, l, live, m, i, callers);
    case Del(x) =>
      if x in ctx.slots { r := DelSlotKeeps(ctx, l, live, m, x); } else { r := DelKeeps(ctx, l, live, m, x); }
    case Return(x) => r := ReturnKeeps(ctx, l, live, m, x);
  }

  // ---- whole paths ----

  /** The discipline of del placement alone. */
  ghost predicate AllowedPath(ctx: Context, callers: set<nat>, live: set<nat>, path: seq<Instr>)
    decreases |path|
  {
    path == [] ||
    (Allowed(ctx, callers, live, path[0]) && AllowedPath(ctx, callers, After(ctx, live, path[0]), path[1..]))
  }

  function Next(ctx: Context, l: Lowering, m: Machine, i: Instr): Machine
    requires |l.vals| == |ctx.types| && InRange(ctx, i)
  {
    match Exec(m, Lower(ctx, l, i).0) case Ok(r) => r case Fault => m
  }

  /** Every statement of path is faultless where it stands. */
  ghost predicate FaultlessPath(ctx: Context, l: Lowering, m: Machine, path: seq<Instr>)
    requires |l.vals| == |ctx.types| && forall i :: i in path ==> InRange(ctx, i)
    decreases |path|
  {
    path == [] ||
    (Faultless(ctx, l, m, path[0]) &&
     FaultlessPath(ctx, Lower(ctx, l, path[0]).1, Next(ctx, l, m, path[0]), path[1..]))
  }

  /** The sum of the shifts along path. */
  function TotalShift(ctx: Context, l: Lowering, m: Machine, path: seq<Instr>, o: nat): int
    requires |l.vals| == |ctx.types| && forall i :: i in path ==> InRange(ctx, i)
    decreases |path|
  {
    if path == [] then 0
    else
      var r := Next(ctx, l, m, path[0]);
      Shift(ctx, l, path[0], r.regs, o) + TotalShift(ctx, Lower(ctx, l, path[0]).1, r, path[1..], o)
  }

  /** Along every path the code faults exactly at the first statement that reaches an object without
      references left; if there is none, owners end up past counts by the sum of the shifts. */
  lemma {:induction false} PathLedger(ctx: Context, callers: set<nat>, l: Lowering, live: set<nat>, m: Machine,
        path: seq<Instr>)
    requires SlotsApart(ctx) && Shape(ctx, l, live, m) && AllowedPath(ctx, callers, live, path)
    requires forall i :: i in path ==> InRange(ctx, i)
    ensures var (ops, k) := LowerAll(ctx, l, path);
            var e, after := Exec(m, ops), LiveAfter(ctx, live, path);
            && (e.Ok? <==> FaultlessPath(ctx, l, m, path))
            && (e.Ok? ==>
                  && Shape(ctx, k, after, e.m)
                  && forall o :: Deficit(k, after, e.m, o) == Deficit(l, live, m, o) + TotalShift(ctx, l, m, path, o))
    decreases |path|
  {
    if path != [] {
      var (a, k) := Lower(ctx, l, path[0]);
      var r := StepLedger(ctx, l, live, m, path[0], callers);
      ExecAppend(m, a, LowerAll(ctx, k, path[1..]).0);
      if Exec(m, a).Ok? { PathLedger(ctx, callers, k, After(ctx, live, path[0]), r, path[1..]); }
    }
  }

  // ---- shortfalls that pass ----

  /** Statements that count element by element all there is to count, or move values without nested
      NRT content: exchanges between variables only. */
  ghost predicate Transient(ctx: Context, i: Instr)
    requires InRange(ctx, i)
  {
    && (i.Cast? || i.Element? || i.TupleArg? ==> ctx.types[i.x].IsTuple() ==> !HasMeminfo(ctx.types[i.x]))
    && (i.Return? || i.x in ctx.slots ==> Flat(ctx.types[i.x]))
  }

  /** References to o that the live singly-assigned variables below k hold uncounted. */
  function MissedByVars(ts: seq<Ty>, vals: seq<Val>, live: set<nat>, regs: seq<Ptr>, k: nat, o: nat): nat
    requires k <= |vals| == |ts|
  {
    if k == 0 then 0
    else
      MissedByVars(ts, vals, live, regs, k - 1, o)
      + (if k - 1 in live then Missed(true, ts[k - 1], vals[k - 1], regs, o) else 0)
  }

  lemma {:induction false} MissedVarsExtend(ctx: Context, l: Lowering, live: set<nat>, m: Machine, more: seq<Ptr>,
        k: nat)
    requires Shape(ctx, l, live, m) && m.regs <= more && k <= |l.vals|
    ensures forall o :: MissedByVars(ctx.types, l.vals, live, more, k, o) ==
                        MissedByVars(ctx.types, l.vals, live, m.regs, k, o)
    decreases k
  {
    if k > 0 {
      MissedVarsExtend(ctx, l, live, m, more, k - 1);
      if k - 1 in live { MissedExtends(true, ctx.types[k - 1], l.vals[k - 1], m.regs, more); }
    }
  }

  lemma {:induction false} MissedVarsDefine(ts: seq<Ty>, vals: seq<Val>, live: set<nat>, regs: seq<Ptr>, x: nat, v: Val,
        k: nat)
    requires x < |vals| == |ts| && x !in live && k <= |vals|
    ensures forall o :: MissedByVars(ts, vals[x := v], live + {x}, regs, k, o) ==
                        MissedByVars(ts, vals, live, regs, k, o)
                        + (if x < k then Missed(true, ts[x], v, regs, o) else 0)
    decreases k
  {
    if k > 0 { MissedVarsDefine(ts, vals, live, regs, x, v, k - 1); }
  }

  lemma {:induction false} MissedVarsKill(ts: seq<Ty>, vals: seq<Val>, live: set<nat>, regs: seq<Ptr>, x: nat, k: nat)
    requires x < |vals| == |ts| && x in live && k <= |vals|
    ensures forall o :: MissedByVars(ts, vals, live, regs, k, o) ==
                        MissedByVars(ts, vals, live - {x}, regs, k, o)
                        + (if x < k then Missed(true, ts[x], vals[x], regs, o) else 0)
    decreases k
  {
    if k > 0 { MissedVarsKill(ts, vals, live, regs, x, k - 1); }
  }

  lemma {:induction false} FlatIgnoresNothing(ts: seq<Ty>, vs: seq<Val>, regs: seq<Ptr>)
    requires TypedAll(ts, vs, regs) && FlatElements(ts)
    ensures forall o :: IgnoredEach(ts, vs, regs, o) == 0
    decreases |ts|
  {
    if ts != [] {
      if ts[0].IsTuple() { NoMeminfoHoldsNothing(ts[0], vs[0], regs); }
      FlatIgnoresNothing(ts[1..], vs[1..], regs);
    }
  }

  lemma FlatMissesNothing(t: Ty, v: Val, regs: seq<Ptr>)
    requires Typed(t, v, regs) && Flat(t)
    ensures forall o :: Missed(true, t, v, regs, o) == 0
  {
    if t.IsTuple() { FlatIgnoresNothing(t.Elements(), v.elems, regs); }
  }

  /** Owners are past counts by what live variables hold uncounted, and by no more. */
  ghost predicate OnlyPassing(ctx: Context, l: Lowering, live: set<nat>, m: Machine)
    requires |l.vals| == |ctx.types|
  {
    forall o :: Deficit(l, live, m, o) == MissedByVars(ctx.types, l.vals, live, m.regs, |l.vals|, o)
  }

  lemma TransientGap(ctx: Context, l: Lowering, i: Instr, regs: seq<Ptr>)
    requires |l.vals| == |ctx.types| && InRange(ctx, i) && Transient(ctx, i) && HasValue(ctx, i)
    requires Typed(ctx.types[i.x], Moved(ctx, l, i), regs)
    ensures forall o :: Gap(ctx, l, i, regs, o) == Missed(true, ctx.types[i.x], Moved(ctx, l, i), regs, o)
  {
    var t, v := ctx.types[i.x], Moved(ctx, l, i);
    if !Elementwise(i) && t.IsTuple() {
      NoMeminfoHoldsNothing(t, v, regs);
      MissedBelow(true, t, v, regs);
    }
  }

  /** The value a statement leaves in its target's varmap entry. */
  function Assigned(ctx: Context, l: Lowering, i: Instr): Val
    requires |l.vals| == |ctx.types| && InRange(ctx, i)
  {
    if Moves(i) then Moved(ctx, l, i) else if i.Constant? then Const(i.n) else Reg(l.next)
  }

  lemma AssignedStored(ctx: Context, l: Lowering, i: Instr)
    requires |l.vals| == |ctx.types| && InRange(ctx, i) && !i.Del? && !i.Return?
    ensures Lower(ctx, l, i).1.vals == if i.x in ctx.slots then l.vals else l.vals[i.x := Assigned(ctx, l, i)]
  {
  }

  lemma AssignedGap(ctx: Context, l: Lowering, live: set<nat>, i: Instr, regs: seq<Ptr>, callers: set<nat>)
    requires |l.vals| == |ctx.types| && Allowed(ctx, callers, live, i) && Transient(ctx, i) && !i.Del? && !i.Return?
    requires Moves(i) ==> Typed(ctx.types[i.x], Moved(ctx, l, i), regs)
    ensures forall o :: Shift(ctx, l, i, regs, o) == Missed(true, ctx.types[i.x], Assigned(ctx, l, i), regs, o)
    ensures i.x in ctx.slots ==> forall o :: Shift(ctx, l, i, regs, o) == 0
  {
    if Moves(i) {
      TransientGap(ctx, l, i, regs);
      if i.x in ctx.slots { FlatMissesNothing(ctx.types[i.x], Moved(ctx, l, i), regs); }
    }
  }

  lemma StoredPassing(ctx: Context, l: Lowering, live: set<nat>, m: Machine, i: Instr, callers: set<nat>, r: Machine)
    requires Shape(ctx, l, live, m) && Allowed(ctx, callers, live, i) && Transient(ctx, i) && !i.Del? && !i.Return?
    requires Keeps(ctx, l, live, m, i, r) && Exec(m, Lower(ctx, l, i).0).Ok? && OnlyPassing(ctx, l, live, m)
    ensures OnlyPassing(ctx, Lower(ctx, l, i).1, After(ctx, live, i), r)
  {
    AssignedStored(ctx, l, i);
    AssignedGap(ctx, l, live, i, r.regs, callers);
    MissedVarsExtend(ctx, l, live, m, r.regs, |l.vals|);
    if i.x !in ctx.slots {
      MissedVarsDefine(ctx.types, l.vals, live, r.regs, i.x, Assigned(ctx, l, i), |l.vals|);
    }
  }

  lemma DeletedPassing(ctx: Context, l: Lowering, live: set<nat>, m: Machine, i: Instr, r: Machine)
    requires Shape(ctx, l, live, m) && InRange(ctx, i) && Transient(ctx, i) && (i.Del? || i.Return?)
    requires i.x in live || (i.Del? && i.x in ctx.slots)
    requires Keeps(ctx, l, live, m, i, r) && Exec(m, Lower(ctx, l, i).0).Ok? && OnlyPassing(ctx, l, live, m)
    ensures OnlyPassing(ctx, Lower(ctx, l, i).1, After(ctx, live, i), r)
  {
    MissedVarsExtend(ctx, l, live, m, r.regs, |l.vals|);
    if i.x in live {
      MissedVarsKill(ctx.types, l.vals, live, r.regs, i.x, |l.vals|);
      TypedExtends(ctx.types[i.x], l.vals[i.x], m.regs, r.regs);
      if i.Return? { FlatMissesNothing(ctx.types[i.x], l.vals[i.x], r.regs); }
    }
  }

  lemma {:induction false} PathPassing(ctx: Context, callers: set<nat>, l: Lowering, live: set<nat>, m: Machine,
        path: seq<Instr>)
    requires SlotsApart(ctx) && Shape(ctx, l, live, m) && AllowedPath(ctx, callers, live, path)
    requires forall i :: i in path ==> InRange(ctx, i) && Transient(ctx, i)
    requires OnlyPassing(ctx, l, live, m) && Exec(m, LowerAll(ctx, l, path).0).Ok?
    ensures var (ops, k) := LowerAll(ctx, l, path);
            OnlyPassing(ctx, k, LiveAfter(ctx, live, path), Exec(m, ops).m)
    decreases |path|
  {
    if path != [] {
      var i := path[0];
      var (a, k) := Lower(ctx, l, i);
      ExecAppend(m, a, LowerAll(ctx, k, path[1..]).0);
      var r := StepLedger(ctx, l, live, m, i, callers);
      if i.Del? || i.Return? {
        DeletedPassing(ctx, l, live, m, i, r);
      } else {
        StoredPassing(ctx, l, live, m, i, callers, r);
      }
      PathPassing(ctx, callers, k, After(ctx, live, i), r, path[1..]);
    }
  }

  /** Nested tuples that are only built, copied and deleted element by element do no lasting harm:
      from function entry, a path that does not fault leaves owners past counts by what live
      variables hold uncounted, so that counts are right again once none is live. */
  lemma ShortfallsPass(ctx: Context, callers: set<nat>, l: Lowering, m: Machine, path: seq<Instr>)
    requires SlotsApart(ctx) && Entry(ctx, l, m) && AllowedPath(ctx, callers, {}, path)
    requires forall i :: i in path ==> InRange(ctx, i) && Transient(ctx, i)
    requires FaultlessPath(ctx, l, m, path)
    ensures var (ops, k) := LowerAll(ctx, l, path);
            var e, live := Exec(m, ops), LiveAfter(ctx, {}, path);
            && e.Ok? && |k.vals| == |ctx.types|
            && (forall o :: e.m.rc[o] + MissedByVars(ctx.types, k.vals, live, e.m.regs, |k.vals|, o) ==
                            Owned(k, live, e.m, o))
            && (live == {} ==> Conserved(k, live, e.m))
  {
    EntryInv(ctx, l, m);
    NothingMissed(ctx.types, l.vals, m.regs, |l.vals|);
    PathLedger(ctx, callers, l, {}, m, path);
    PathPassing(ctx, callers, l, {}, m, path);
    var (ops, k) := LowerAll(ctx, l, path);
    var r, live := Exec(m, ops).m, LiveAfter(ctx, {}, path);
    forall o ensures r.rc[o] + MissedByVars(ctx.types, k.vals, live, r.regs, |k.vals|, o) == Owned(k, live, r, o) {
      assert Deficit(k, live, r, o) == MissedByVars(ctx.types, k.vals, live, r.regs, |k.vals|, o);
    }
    if live == {} { NothingMissed(ctx.types, k.vals, r.regs, |k.vals|); }
  }

  lemma {:induction false} NothingMissed(ts: seq<Ty>, vals: seq<Val>, regs: seq<Ptr>, k: nat)
    requires k <= |vals| == |ts|
    ensures forall o :: MissedByVars(ts, vals, {}, regs, k, o) == 0
    decreases k
  {
    if k > 0 { NothingMissed(ts, vals, regs, k - 1); }
  }

  // ---- the first store into a slot ----

  lemma {:induction false} EmptiedHoldNothing(cs: seq<nat>, cells: seq<Ptr>)
    requires Emptied(cs, cells)
    ensures forall o :: CellsHeld(cs, cells, o) == 0
    decreases |cs|
  {
    if cs != [] {
      assert cs[0] in cs && forall c :: c in cs[1..] ==> c in cs;
      EmptiedHoldNothing(cs[1..], cells);
    }
  }

  lemma {:induction false} CellHeld(cs: seq<nat>, cells: seq<Ptr>, k: nat)
    requires k < |cs| && cs[k] < |cells| && cells[cs[k]].Obj?
    ensures CellsHeld(cs, cells, cells[cs[k]].o) > 0
    decreases k
  {
    if k > 0 { CellHeld(cs[1..], cells, k - 1); }
  }

  lemma EmptiedIff(cs: seq<nat>, cells: seq<Ptr>)
    requires forall c :: c in cs ==> c < |cells|
    ensures Emptied(cs, cells) <==> forall o :: CellsHeld(cs, cells, o) == 0
  {
    if Emptied(cs, cells) {
      EmptiedHoldNothing(cs, cells);
    } else {
      var c :| c in cs && !(c < |cells| && !cells[c].Obj?);
      var k :| 0 <= k < |cs| && cs[k] == c;
      CellHeld(cs, cells, k);
    }
  }

  /** A first store into a slot releases whatever its cells hold, though no variable owns it.  For a
      counted value: unless it faults, every object that the cells hold loses as many references as
      they hold to it; so counts equal owners afterwards exactly when the cells hold no object. */
  lemma FirstStoreIff(ctx: Context, l: Lowering, live: set<nat>, m: Machine, x: nat, v: Val)
    requires SlotsApart(ctx) && Shape(ctx, l, live, m) && x in ctx.slots
    requires x < |ctx.types| && Typed(ctx.types[x], v, m.regs)
    requires forall o :: m.rc[o] + CellsHeld(VarCells(ctx, x), m.cells, o) == Owned(l, live, m, o) + Held(v, m.regs, o)
    ensures var (ops, k) := StoreVar(ctx, l, x, v);
            var e := Exec(m, ops);
            && (e.Ok? ==> forall o :: Deficit(k, live, e.m, o) == CellsHeld(VarCells(ctx, x), m.cells, o))
            && (e.Ok? && Conserved(k, live, e.m) <==> Emptied(VarCells(ctx, x), m.cells))
  {
    var cs := VarCells(ctx, x);
    SlotCellsInRange(ctx, ctx.types[x], ctx.slots[x]);
    EmptiedIff(cs, m.cells);
    var r := StoreVarIff(ctx, l, live, m, x, v);
    var k := StoreVar(ctx, l, x, v).1;
    if Releasable(m, cs) {
      StolenReferences(l, live, m, k, r, v, cs);
    } else {
      if Emptied(cs, m.cells) { EmptiedHoldNothing(cs, m.cells); }
    }
  }

  lemma StolenReferences(l: Lowering, live: set<nat>, m: Machine, k: Lowering, r: Machine, v: Val, cs: seq<nat>)
    requires forall o :: m.rc[o] + CellsHeld(cs, m.cells, o) == Owned(l, live, m, o) + Held(v, m.regs, o)
    requires forall o :: Deficit(k, live, r, o) == Deficit(l, live, m, o) + Held(v, m.regs, o)
    ensures forall o :: Deficit(k, live, r, o) == CellsHeld(cs, m.cells, o)
    ensures Conserved(k, live, r) <==> forall o :: CellsHeld(cs, m.cells, o) == 0
  {
    forall o ensures Deficit(k, live, r, o) == CellsHeld(cs, m.cells, o) {
      assert m.rc[o] + CellsHeld(cs, m.cells, o) == Owned(l, live, m, o) + Held(v, m.regs, o);
    }
    ConservedIff(k, live, r);
  }

  lemma ConservedIff(l: Lowering, live: set<nat>, m: Machine)
    ensures Conserved(l, live, m) <==> forall o :: Deficit(l, live, m, o) == 0
  {
    forall o ensures Deficit(l, live, m, o) == 0 <==> m.rc[o] == Owned(l, live, m, o) {}
  }
}
