/** What variables hold: the emitted code gives every variable the value that its statement means. */
module RefcountValues {
  import opened NumbaTypes
  import opened Refcount
  import opened RefcountConservation
  import opened RefcountCells
  import opened RefcountCounting

  // ---- what statements mean ----

  /** A runtime value: None, an object, null or number, or a tuple. */
  datatype Tree = NoneLeaf | Leaf(p: Ptr) | Node(elems: seq<Tree>)

  /** The values of variables, and how many objects there are. */
  datatype Env = Env(vars: map<nat, Tree>, created: nat)

  function Single(t: Ty, p: Ptr): Tree {
    if t.NoneTy? then NoneLeaf else Leaf(p)
  }

  /** The values of a tree's leaves in order; None has none. */
  function Leaves(v: Tree): seq<Ptr>
    decreases v
  {
    match v
    case NoneLeaf => []
    case Leaf(p) => [p]
    case Node(vs) => LeavesAll(vs)
  }

  function LeavesAll(vs: seq<Tree>): seq<Ptr>
    decreases vs
  {
    if vs == [] then [] else Leaves(vs[0]) + LeavesAll(vs[1..])
  }

  /** A value of the structure of t. */
  ghost predicate Fits(t: Ty, v: Tree)
    decreases v
  {
    if t.NoneTy? then v.NoneLeaf?
    else if t.IsTuple() then
      && v.Node? && |v.elems| == |t.Elements()|
      && forall k :: 0 <= k < |v.elems| ==> Fits(t.Elements()[k], v.elems[k])
    else v.Leaf?
  }

  ghost predicate FitsAll(ts: seq<Ty>, vs: seq<Tree>) {
    |ts| == |vs| && forall k :: 0 <= k < |vs| ==> Fits(ts[k], vs[k])
  }

  /** What a statement does to the variables: it reads only variables that have a value.  The tuple of
      an argument is the one that fits its type and has the argument's leaves. */
  ghost predicate Means(types: seq<Ty>, e: Env, i: Instr, r: Env)
    requires i.x < |types|
  {
    match i
    case Fresh(x) => r == Env(e.vars[x := Leaf(Obj(e.created))], e.created + 1)
    case Plain(x, n) => r == e.(vars := e.vars[x := Single(types[x], Number(n))])
    case Constant(x, n) => r == e.(vars := e.vars[x := Single(types[x], Number(n))])
    case Arg(x, p) => r == e.(vars := e.vars[x := Leaf(p)])
    case TupleArg(x, ps) => exists v :: Fits(types[x], v) && Leaves(v) == ps && r == e.(vars := e.vars[x := v])
    case Assign(x, y) => y in e.vars && r == e.(vars := e.vars[x := e.vars[y]])
    case Forward(x, y) => y in e.vars && r == e.(vars := e.vars[x := e.vars[y]])
    case Cast(x, y) => y in e.vars && r == e.(vars := e.vars[x := e.vars[y]])
    case Element(x, y, k) =>
      && y in e.vars && e.vars[y].Node? && k < |e.vars[y].elems|
      && r == e.(vars := e.vars[x := e.vars[y].elems[k]])
    case Build(x, items) =>
      && (forall k :: 0 <= k < |items| ==> items[k] in e.vars)
      && r == e.(vars := e.vars[x := Node(seq(|items|, k requires 0 <= k < |items| => e.vars[items[k]]))])
    case Del(x) => r == e.(vars := e.vars - {x})
    case Return(x) => x in e.vars && r == e.(vars := e.vars - {x})
  }

  // ---- what the lowering's values denote ----

  function Meaning(t: Ty, v: Val, regs: seq<Ptr>): Tree
    decreases v
  {
    if t.NoneTy? then NoneLeaf
    else if t.IsTuple() then Node(if v.Tup? then Meanings(t.Elements(), v.elems, regs) else [])
    else Leaf(OperandPtr(v, regs))
  }

  function Meanings(ts: seq<Ty>, vs: seq<Val>, regs: seq<Ptr>): seq<Tree>
    decreases vs
  {
    if ts == [] || vs == [] then [] else [Meaning(ts[0], vs[0], regs)] + Meanings(ts[1..], vs[1..], regs)
  }

  function SlotMeaning(t: Ty, slot: Slot, cells: seq<Ptr>): Tree
    decreases slot
  {
    if t.NoneTy? then NoneLeaf
    else if t.IsTuple() then Node(if slot.Cells? then SlotMeanings(t.Elements(), slot.elems, cells) else [])
    else Leaf(if slot.Cell? && slot.c < |cells| then cells[slot.c] else Null)
  }

  function SlotMeanings(ts: seq<Ty>, ss: seq<Slot>, cells: seq<Ptr>): seq<Tree>
    decreases ss
  {
    if ts == [] || ss == [] then [] else [SlotMeaning(ts[0], ss[0], cells)] + SlotMeanings(ts[1..], ss[1..], cells)
  }

  /** The value of a variable: what its registers hold, or its stack cells. */
  function VarMeaning(ctx: Context, l: Lowering, m: Machine, x: nat): Tree
    requires x < |ctx.types| && x < |l.vals|
  {
    if x in ctx.slots then SlotMeaning(ctx.types[x], ctx.slots[x], m.cells)
    else Meaning(ctx.types[x], l.vals[x], m.regs)
  }

  ghost predicate HasMeaning(ctx: Context, l: Lowering, live: set<nat>, m: Machine, e: Env, x: nat)
    requires x in e.vars
  {
    && Readable(ctx, live, x) && x < |l.vals|
    && VarMeaning(ctx, l, m, x) == e.vars[x]
  }

  /** Every variable that has a value in e holds it. */
  ghost predicate Agrees(ctx: Context, l: Lowering, live: set<nat>, m: Machine, e: Env) {
    e.created == m.created && forall x :: x in e.vars ==> HasMeaning(ctx, l, live, m, e, x)
  }

  /** The cells of different variables, and of different parts of one, are different. */
  ghost predicate SlotsDisjoint(ctx: Context) {
    && SlotsApart(ctx)
    && forall x, y, c :: x in ctx.slots && y in ctx.slots && x != y && c in SlotCells(ctx.slots[x]) ==>
         c !in SlotCells(ctx.slots[y])
  }

  // ---- registers and cells ----

  lemma {:induction false} MeaningExtends(t: Ty, v: Val, regs: seq<Ptr>, more: seq<Ptr>)
    requires Typed(t, v, regs) && regs <= more
    ensures Meaning(t, v, more) == Meaning(t, v, regs)
    decreases v
  {
    if t.IsTuple() { MeaningsExtend(t.Elements(), v.elems, regs, more); }
  }

  lemma {:induction false} MeaningsExtend(ts: seq<Ty>, vs: seq<Val>, regs: seq<Ptr>, more: seq<Ptr>)
    requires TypedAll(ts, vs, regs) && regs <= more
    ensures Meanings(ts, vs, more) == Meanings(ts, vs, regs)
    decreases vs
  {
    if vs != [] {
      MeaningExtends(ts[0], vs[0], regs, more);
      MeaningsExtend(ts[1..], vs[1..], regs, more);
    }
  }

  lemma {:induction false} SlotMeaningKept(t: Ty, slot: Slot, cells: seq<Ptr>, later: seq<Ptr>)
    requires |cells| == |later| && forall c :: c in SlotCells(slot) && c < |cells| ==> cells[c] == later[c]
    ensures SlotMeaning(t, slot, later) == SlotMeaning(t, slot, cells)
    decreases slot
  {
    if slot.Cells? {
      if t.IsTuple() { SlotMeaningsKept(t.Elements(), slot.elems, cells, later); }
    } else {
      assert slot.c in SlotCells(slot);
    }
  }

  lemma {:induction false} SlotMeaningsKept(ts: seq<Ty>, ss: seq<Slot>, cells: seq<Ptr>, later: seq<Ptr>)
    requires |cells| == |later| && forall c :: c in SlotsCells(ss) && c < |cells| ==> cells[c] == later[c]
    ensures SlotMeanings(ts, ss, later) == SlotMeanings(ts, ss, cells)
    decreases ss
  {
    if ts != [] && ss != [] {
      SlotMeaningKept(ts[0], ss[0], cells, later);
      SlotMeaningsKept(ts[1..], ss[1..], cells, later);
    }
  }

  /** Registers are never changed. */
  lemma {:induction false} RegistersGrow(m: Machine, ops: seq<Op>)
    requires Exec(m, ops).Ok?
    ensures m.regs <= Exec(m, ops).m.regs && m.created <= Exec(m, ops).m.created
    decreases |ops|
  {
    if ops != [] { RegistersGrow(Exec1(m, ops[0]).m, ops[1..]); }
  }

  predicate Counts(ops: seq<Op>) {
    forall op :: op in ops ==> op.Incref? || op.Decref?
  }

  lemma {:induction false} CountsKeepValues(m: Machine, ops: seq<Op>)
    requires Counts(ops) && Exec(m, ops).Ok?
    ensures OnlyCounts(m, Exec(m, ops).m)
    decreases |ops|
  {
    if ops != [] {
      assert ops[0] in ops;
      CountsKeepValues(Exec1(m, ops[0]).m, ops[1..]);
    }
  }

  lemma {:induction false} EachCounts(ts: seq<Ty>, vs: seq<Val>)
    ensures Counts(IncrefEach(ts, vs)) && Counts(DecrefEach(ts, vs))
    decreases |ts|
  {
    if ts != [] && vs != [] { EachCounts(ts[1..], vs[1..]); }
  }

  // ---- loading ----

  lemma {:induction false} LoadSlotMeans(ctx: Context, m: Machine, t: Ty, slot: Slot) returns (r: Machine)
    requires SlotOk(ctx, t, slot) && CellsOk(ctx, m)
    ensures var (ops, v, n) := LoadSlot(slot, |m.regs|);
            && Exec(m, ops) == Ok(r) && r == m.(regs := r.regs) && n == |r.regs| && m.regs <= r.regs
            && Typed(t, v, r.regs) && Meaning(t, v, r.regs) == SlotMeaning(t, slot, m.cells)
    decreases slot
  {
    r := LoadSlotOk(ctx, m, t, slot);
    match slot
    case Cell(c) => assert [Load(c)][1..] == [];
    case Cells(ss) => var q := LoadSlotsMean(ctx, m, t.Elements(), ss);
  }

  lemma {:induction false} LoadSlotsMean(ctx: Context, m: Machine, ts: seq<Ty>, ss: seq<Slot>) returns (r: Machine)
    requires SlotsOk(ctx, ts, ss) && CellsOk(ctx, m)
    ensures var (ops, vs, n) := LoadSlots(ss, |m.regs|);
            && Exec(m, ops) == Ok(r) && r == m.(regs := r.regs) && n == |r.regs| && m.regs <= r.regs
            && TypedAll(ts, vs, r.regs) && Meanings(ts, vs, r.regs) == SlotMeanings(ts, ss, m.cells)
    decreases ss
  {
    r := LoadSlotsOk(ctx, m, ts, ss);
    if ss != [] {
      var (a, v, k) := LoadSlot(ss[0], |m.regs|);
      var (b, vs, n) := LoadSlots(ss[1..], k);
      var p := LoadSlotMeans(ctx, m, ts[0], ss[0]);
      var q := LoadSlotsMean(ctx, p, ts[1..], ss[1..]);
      ExecAppend(m, a, b);
      MeaningExtends(ts[0], v, p.regs, q.regs);
      assert ([v] + vs)[1..] == vs;
    }
  }

  /** A variable is read as what it holds. */
  lemma LoadVarMeans(ctx: Context, l: Lowering, live: set<nat>, m: Machine, y: nat) returns (r: Machine)
    requires SlotsTyped(ctx) && Shape(ctx, l, live, m) && Readable(ctx, live, y)
    ensures var (ops, v, n) := LoadVar(ctx, l, y);
            && Exec(m, ops) == Ok(r) && r == m.(regs := r.regs) && n == |r.regs| && m.regs <= r.regs
            && Shape(ctx, l.(next := n), live, r)
            && Typed(ctx.types[y], v, r.regs) && Meaning(ctx.types[y], v, r.regs) == VarMeaning(ctx, l, m, y)
  {
    r := LoadVarReads(ctx, l, live, m, y);
    if y in ctx.slots { var q := LoadSlotMeans(ctx, m, ctx.types[y], ctx.slots[y]); }
  }

  /** Reading changes no variable. */
  lemma ReadingKeeps(ctx: Context, l: Lowering, live: set<nat>, m: Machine, r: Machine, y: nat)
    requires Shape(ctx, l, live, m) && Readable(ctx, live, y) && m.cells == r.cells && m.regs <= r.regs
    ensures VarMeaning(ctx, l, r, y) == VarMeaning(ctx, l, m, y)
  {
    if y !in ctx.slots { MeaningExtends(ctx.types[y], l.vals[y], m.regs, r.regs); }
  }

  // ---- storing ----

  lemma CellWritten(ctx: Context, m: Machine, t: Ty, c: nat, v: Val)
    requires SlotOk(ctx, t, Cell(c)) && CellsOk(ctx, m) && Typed(t, v, m.regs)
    ensures var (ops, n) := StoreSlot(t, Cell(c), v, |m.regs|);
            var e := Exec(m, ops);
            e.Ok? ==> |e.m.regs| == n && e.m.cells == m.cells[c := OperandPtr(v, m.regs)]
  {
    if t.Managed? {
      var r := ReplaceIff(m, c, Store(c, v.r), m.regs[v.r]);
    } else {
      OneOp(m, StoreSlot(t, Cell(c), v, |m.regs|).0[0]);
    }
  }

  lemma {:induction false} StoreSlotMeans(ctx: Context, m: Machine, t: Ty, slot: Slot, v: Val)
    requires SlotOk(ctx, t, slot) && CellsOk(ctx, m) && Typed(t, v, m.regs) && Distinct(SlotCells(slot))
    ensures var e := Exec(m, StoreSlot(t, slot, v, |m.regs|).0);
            e.Ok? ==> |e.m.regs| == StoreSlot(t, slot, v, |m.regs|).1
                      && SlotMeaning(t, slot, e.m.cells) == Meaning(t, v, m.regs)
    decreases slot
  {
    match slot
    case Cell(c) => CellWritten(ctx, m, t, c, v);
    case Cells(ss) => StoreSlotsMean(ctx, m, t.Elements(), ss, v.elems);
  }

  lemma {:induction false} StoreSlotsMean(ctx: Context, m: Machine, ts: seq<Ty>, ss: seq<Slot>, vs: seq<Val>)
    requires SlotsOk(ctx, ts, ss) && CellsOk(ctx, m) && TypedAll(ts, vs, m.regs) && Distinct(SlotsCells(ss))
    ensures var e := Exec(m, StoreSlots(ts, ss, vs, |m.regs|).0);
            e.Ok? ==> |e.m.regs| == StoreSlots(ts, ss, vs, |m.regs|).1
                      && SlotMeanings(ts, ss, e.m.cells) == Meanings(ts, vs, m.regs)
    decreases ss
  {
    if ss != [] {
      var (a, n) := StoreSlot(ts[0], ss[0], vs[0], |m.regs|);
      var b := StoreSlots(ts[1..], ss[1..], vs[1..], n).0;
      ExecAppend(m, a, b);
      DistinctParts(SlotCells(ss[0]), SlotsCells(ss[1..]));
      StoreSlotMeans(ctx, m, ts[0], ss[0], vs[0]);
      if Exec(m, a).Ok? {
        var p := StoreSlotIff(ctx, m, ts[0], ss[0], vs[0]);
        StoreSlotWrites(ts[0], ss[0], vs[0], |m.regs|);
        CellsKept(m, a, SlotCells(ss[0]));
        RegistersGrow(m, a);
        TypedAllExtends(ts[1..], vs[1..], m.regs, p.regs);
        MeaningsExtend(ts[1..], vs[1..], m.regs, p.regs);
        StoreSlotsMean(ctx, p, ts[1..], ss[1..], vs[1..]);
        if Exec(p, b).Ok? { LaterStores(ts, ss, vs, n, p); }
      }
    }
  }

  /** Storing the other elements leaves the first one alone. */
  lemma LaterStores(ts: seq<Ty>, ss: seq<Slot>, vs: seq<Val>, n: nat, p: Machine)
    requires ts != [] && ss != [] && vs != []
    requires var b := StoreSlots(ts[1..], ss[1..], vs[1..], n).0; Exec(p, b).Ok?
    requires forall c :: c in SlotCells(ss[0]) ==> c !in SlotsCells(ss[1..])
    ensures var r := Exec(p, StoreSlots(ts[1..], ss[1..], vs[1..], n).0).m;
            SlotMeaning(ts[0], ss[0], r.cells) == SlotMeaning(ts[0], ss[0], p.cells)
  {
    var b := StoreSlots(ts[1..], ss[1..], vs[1..], n).0;
    StoreSlotsWrite(ts[1..], ss[1..], vs[1..], n);
    CellsKept(p, b, SlotsCells(ss[1..]));
    SlotMeaningKept(ts[0], ss[0], p.cells, Exec(p, b).m.cells);
  }

  /** Code that writes only a variable's cells leaves the other variables alone. */
  lemma OthersKeep(ctx: Context, l: Lowering, live: set<nat>, m: Machine, ops: seq<Op>, x: nat, y: nat)
    requires SlotsDisjoint(ctx) && Shape(ctx, l, live, m) && Readable(ctx, live, y) && y != x
    requires WritesOnly(ops, VarCells(ctx, x)) && Exec(m, ops).Ok?
    ensures VarMeaning(ctx, l, Exec(m, ops).m, y) == VarMeaning(ctx, l, m, y)
  {
    RegistersGrow(m, ops);
    CellsKept(m, ops, VarCells(ctx, x));
    var r := Exec(m, ops).m;
    if y in ctx.slots {
      SlotMeaningKept(ctx.types[y], ctx.slots[y], m.cells, r.cells);
    } else {
      MeaningExtends(ctx.types[y], l.vals[y], m.regs, r.regs);
    }
  }

  /** A store gives the variable the value stored, and no other variable another. */
  lemma StoreVarMeans(ctx: Context, l: Lowering, live: set<nat>, m: Machine, x: nat, v: Val)
    requires SlotsDisjoint(ctx) && Shape(ctx, l, live, m) && x < |ctx.types| && Typed(ctx.types[x], v, m.regs)
    ensures var (ops, k) := StoreVar(ctx, l, x, v);
            Exec(m, ops).Ok? ==> Written(ctx, l, live, m, x, Meaning(ctx.types[x], v, m.regs), k, Exec(m, ops).m)
  {
    var (ops, k) := StoreVar(ctx, l, x, v);
    if Exec(m, ops).Ok? {
      if x in ctx.slots {
        StoreSlotMeans(ctx, m, ctx.types[x], ctx.slots[x], v);
        var r := StoreSlotIff(ctx, m, ctx.types[x], ctx.slots[x], v);
      }
      StoreVarWrites(ctx, l, x, v);
      forall y | y != x && Readable(ctx, live, y)
        ensures VarMeaning(ctx, k, Exec(m, ops).m, y) == VarMeaning(ctx, l, m, y)
      {
        OthersKeep(ctx, l, live, m, ops, x, y);
      }
    }
  }

  /** From l and m to k and r, variable x takes the value v and the other variables keep theirs. */
  ghost predicate Written(ctx: Context, l: Lowering, live: set<nat>, m: Machine, x: nat, v: Tree, k: Lowering,
        r: Machine)
    requires |l.vals| == |ctx.types| && x < |ctx.types|
  {
    && |k.vals| == |ctx.types| && r.created == m.created && VarMeaning(ctx, k, r, x) == v
    && forall y :: y != x && Readable(ctx, live, y) ==> VarMeaning(ctx, k, r, y) == VarMeaning(ctx, l, m, y)
  }
}
