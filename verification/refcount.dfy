/** The lowering of variable copies, tuple builds and forwards, stack-slot stores, del and return
    to NRT_incref/NRT_decref calls, and a machine that runs the emitted calls. */
module Refcount {
  import opened NumbaTypes

  // ---- what the lowering produces ----

  /** A varmap entry: an SSA register, a Python tuple of values, or a Python constant. */
  datatype Val = Reg(r: nat) | Tup(elems: seq<Val>) | Const(n: int)

  /** The placeholder of a None leaf. */
  const NONE := Const(0)

  /** The stack storage of a multiply-assigned variable: one cell, or one slot per element. */
  datatype Slot = Cell(c: nat) | Cells(elems: seq<Slot>)

  /** Emitted operations.  New, Param, Scalar and Load define the next register. */
  datatype Op =
    | New
    | Param(p: Ptr)
    | Scalar(n: int)
    | Load(c: nat)
    | Store(c: nat, r: nat)
    | StoreConst(c: nat, n: int)
    | Zero(c: nat)
    | Incref(r: nat)
    | Decref(r: nat)
    | Ret(vs: seq<Val>)

  /** Numba IR statements of the fragment; variables are numbered.  Fresh is a call whose result
      is a newly allocated object, Plain one whose result is a number; Constant assigns a Python constant;
      Forward is exhaust_iter, Cast a cast between equal types, Element an item of a named tuple. */
  datatype Instr =
    | Fresh(x: nat)
    | Plain(x: nat, n: int)
    | Constant(x: nat, n: int)
    | Arg(x: nat, p: Ptr)
    | TupleArg(x: nat, ps: seq<Ptr>)
    | Assign(x: nat, y: nat)
    | Build(x: nat, items: seq<nat>)
    | Forward(x: nat, y: nat)
    | Cast(x: nat, y: nat)
    | Element(x: nat, y: nat, k: nat)
    | Del(x: nat)
    | Return(x: nat)

  /** Static facts about the function: variable types, the slots of the variables assigned more
      than once, and which cells hold a MemInfo pointer. */
  datatype Context = Context(types: seq<Ty>, slots: map<nat, Slot>, nrtCells: seq<bool>)

  /** The state of the lowering: the varmap of singly-assigned variables, and the number of
      registers defined so far. */
  datatype Lowering = Lowering(vals: seq<Val>, next: nat)

  // ---- the lowering ----

  /** type_has_nrt_meminfo */
  predicate HasMeminfo(t: Ty) {
    if t.IsTuple() then exists i :: 0 <= i < |t.Elements()| && HasMeminfo(t.Elements()[i])
    else t.Managed?
  }

  /** incref(typ, value): a Python tuple is not an SSA value and is ignored. */
  function IncrefOps(t: Ty, v: Val): seq<Op> {
    if v.Reg? && t.Managed? then [Incref(v.r)] else []
  }

  function DecrefOps(t: Ty, v: Val): seq<Op> {
    if v.Reg? && t.Managed? then [Decref(v.r)] else []
  }

  /** The loops of incref_tuple_elements and of lower_build_tuple_expr_assign. */
  function IncrefEach(ts: seq<Ty>, vs: seq<Val>): seq<Op> {
    if ts == [] || vs == [] then [] else IncrefOps(ts[0], vs[0]) + IncrefEach(ts[1..], vs[1..])
  }

  /** The loop of _decref_if_assigned_once. */
  function DecrefEach(ts: seq<Ty>, vs: seq<Val>): seq<Op> {
    if ts == [] || vs == [] then [] else DecrefOps(ts[0], vs[0]) + DecrefEach(ts[1..], vs[1..])
  }

  /** The increfs of lower_var_assign for a source of the target's type. */
  function CopyOps(t: Ty, v: Val): seq<Op> {
    match v
    case Tup(vs) => if t.IsTuple() then IncrefEach(t.Elements(), vs) else []
    case _ => IncrefOps(t, v)
  }

  /** _decref_if_assigned_once */
  function DelOps(t: Ty, v: Val): seq<Op> {
    match v
    case Tup(vs) => if t.IsTuple() then DecrefEach(t.Elements(), vs) else []
    case _ => DecrefOps(t, v)
  }

  /** _load_stack_slot */
  function LoadSlot(slot: Slot, next: nat): (seq<Op>, Val, nat)
    decreases slot
  {
    match slot
    case Cell(c) => ([Load(c)], Reg(next), next + 1)
    case Cells(ss) =>
      var (ops, vs, n) := LoadSlots(ss, next);
      (ops, Tup(vs), n)
  }

  function LoadSlots(ss: seq<Slot>, next: nat): (seq<Op>, seq<Val>, nat)
    decreases ss
  {
    if ss == [] then ([], [], next)
    else
      var (a, v, n) := LoadSlot(ss[0], next);
      var (b, vs, k) := LoadSlots(ss[1..], n);
      (a + b, [v] + vs, k)
  }

  /** _store_stack_slot: release what the slot held, then overwrite it. */
  function StoreSlot(t: Ty, slot: Slot, v: Val, next: nat): (seq<Op>, nat)
    decreases slot
  {
    match slot
    case Cells(ss) =>
      if t.IsTuple() && v.Tup? then StoreSlots(t.Elements(), ss, v.elems, next) else ([], next)
    case Cell(c) =>
      if v.Reg? && HasMeminfo(t) then ([Load(c), Decref(next), Store(c, v.r)], next + 1)
      else if v.Reg? then ([Store(c, v.r)], next)
      else ([StoreConst(c, if v.Const? then v.n else NONE.n)], next)
  }

  function StoreSlots(ts: seq<Ty>, ss: seq<Slot>, vs: seq<Val>, next: nat): (seq<Op>, nat)
    decreases ss
  {
    if ts == [] || ss == [] || vs == [] then ([], next)
    else
      var (a, n) := StoreSlot(ts[0], ss[0], vs[0], next);
      var (b, k) := StoreSlots(ts[1..], ss[1..], vs[1..], n);
      (a + b, k)
  }

  /** _decref_stack_slot: release and zero-fill. */
  function DecrefSlot(t: Ty, slot: Slot, next: nat): (seq<Op>, nat)
    decreases slot
  {
    match slot
    case Cells(ss) => if t.IsTuple() then DecrefSlots(t.Elements(), ss, next) else ([], next)
    case Cell(c) => ([Load(c), Decref(next), Zero(c)], next + 1)
  }

  function DecrefSlots(ts: seq<Ty>, ss: seq<Slot>, next: nat): (seq<Op>, nat)
    decreases ss
  {
    if ts == [] || ss == [] then ([], next)
    else
      var (a, n) := if HasMeminfo(ts[0]) then DecrefSlot(ts[0], ss[0], next) else ([], next);
      var (b, k) := DecrefSlots(ts[1..], ss[1..], n);
      (a + b, k)
  }

  function LoadVar(ctx: Context, l: Lowering, x: nat): (seq<Op>, Val, nat)
    requires x < |l.vals|
  {
    if x in ctx.slots then LoadSlot(ctx.slots[x], l.next) else ([], l.vals[x], l.next)
  }

  function LoadVars(ctx: Context, l: Lowering, xs: seq<nat>): (seq<Op>, seq<Val>, nat)
    requires forall i :: 0 <= i < |xs| ==> xs[i] < |l.vals|
    decreases |xs|
  {
    if xs == [] then ([], [], l.next)
    else
      var (a, v, n) := LoadVar(ctx, l, xs[0]);
      var (b, vs, k) := LoadVars(ctx, l.(next := n), xs[1..]);
      (a + b, [v] + vs, k)
  }

  function StoreVar(ctx: Context, l: Lowering, x: nat, v: Val): (r: (seq<Op>, Lowering))
    requires x < |l.vals| && x < |ctx.types|
    ensures |r.1.vals| == |l.vals|
  {
    if x in ctx.slots then
      var (ops, n) := StoreSlot(ctx.types[x], ctx.slots[x], v, l.next);
      (ops, l.(next := n))
    else ([], l.(vals := l.vals[x := v]))
  }

  /** _flatten_abi_operands: the operands a returned value occupies in the ABI; a None leaf has none. */
  function Flatten(t: Ty, v: Val): seq<Val>
    decreases v
  {
    if t.NoneTy? then []
    else if t.IsTuple() then (if v.Tup? then FlattenAll(t.Elements(), v.elems) else [])
    else [v]
  }

  function FlattenAll(ts: seq<Ty>, vs: seq<Val>): seq<Val>
    decreases vs
  {
    if ts == [] || vs == [] then [] else Flatten(ts[0], vs[0]) + FlattenAll(ts[1..], vs[1..])
  }

  predicate InRange(ctx: Context, i: Instr) {
    match i
    case Assign(x, y) => x < |ctx.types| && y < |ctx.types|
    case Forward(x, y) => x < |ctx.types| && y < |ctx.types|
    case Cast(x, y) => x < |ctx.types| && y < |ctx.types|
    case Element(x, y, _) => x < |ctx.types| && y < |ctx.types|
    case Build(x, items) => x < |ctx.types| && forall j :: 0 <= j < |items| ==> items[j] < |ctx.types|
    case _ => i.x < |ctx.types|
  }

  /** _reassemble_tuple_from_block_args: the value of an argument whose leaves are the registers from
      next on, and the first register after them; a None leaf has none. */
  function ArgValue(t: Ty, next: nat): (Val, nat)
    decreases t, 1
  {
    if t.NoneTy? then (NONE, next)
    else if t.IsTuple() then
      var (vs, n) := ArgValues(t.Elements(), next, t);
      (Tup(vs), n)
    else (Reg(next), next + 1)
  }

  function ArgValues(ts: seq<Ty>, next: nat, ghost whole: Ty): (seq<Val>, nat)
    requires forall i :: 0 <= i < |ts| ==> ts[i] < whole
    decreases whole, 0, |ts|
  {
    if ts == [] then ([], next)
    else
      var (v, n) := ArgValue(ts[0], next);
      var (vs, k) := ArgValues(ts[1..], n, whole);
      ([v] + vs, k)
  }

  function Params(ps: seq<Ptr>): seq<Op> {
    if ps == [] then [] else [Param(ps[0])] + Params(ps[1..])
  }

  /** The increfs of a tuple build. */
  function ElementOps(t: Ty, vs: seq<Val>): seq<Op> {
    if t.IsTuple() then IncrefEach(t.Elements(), vs) else []
  }

  /** lower_build_tuple_expr_assign */
  function BuildTuple(ctx: Context, l: Lowering, x: nat, items: seq<nat>): (r: (seq<Op>, Lowering))
    requires |l.vals| == |ctx.types| && InRange(ctx, Build(x, items))
    ensures |r.1.vals| == |l.vals|
  {
    var (a, vs, n) := LoadVars(ctx, l, items);
    var (b, m) := StoreVar(ctx, l.(next := n), x, Tup(vs));
    (a + ElementOps(ctx.types[x], vs) + b, m)
  }

  /** One statement. */
  function Lower(ctx: Context, l: Lowering, i: Instr): (r: (seq<Op>, Lowering))
    requires |l.vals| == |ctx.types| && InRange(ctx, i)
    ensures |r.1.vals| == |l.vals|
  {
    match i
    case Fresh(x) => Define(ctx, l, x, [New], [])
    case Plain(x, n) => Define(ctx, l, x, [Scalar(n)], [])
    case Constant(x, n) => StoreVar(ctx, l, x, Const(n))
    case Arg(x, p) => Define(ctx, l, x, [Param(p)], IncrefOps(ctx.types[x], Reg(l.next)))
    case TupleArg(x, ps) =>
      var v := ArgValue(ctx.types[x], l.next).0;
      var (ops, m) := StoreVar(ctx, l.(next := l.next + |ps|), x, v);
      (Params(ps) + IncrefOps(ctx.types[x], v) + ops, m)
    case Assign(x, y) =>
      var (a, v, n) := LoadVar(ctx, l, y);
      var (b, m) := StoreVar(ctx, l.(next := n), x, v);
      (a + CopyOps(ctx.types[x], v) + b, m)
    case Forward(x, y) =>
      var (a, v, n) := LoadVar(ctx, l, y);
      var (b, m) := StoreVar(ctx, l.(next := n), x, v);
      (a + (if v.Tup? then CopyOps(ctx.types[x], v) else []) + b, m)
    case Cast(x, y) =>
      var (a, v, n) := LoadVar(ctx, l, y);
      var (b, m) := StoreVar(ctx, l.(next := n), x, v);
      (a + IncrefOps(ctx.types[x], v) + b, m)
    case Element(x, y, k) =>
      var (a, v, n) := LoadVar(ctx, l, y);
      var e := if v.Tup? && k < |v.elems| then v.elems[k] else NONE;
      var (b, m) := StoreVar(ctx, l.(next := n), x, e);
      (a + IncrefOps(ctx.types[x], e) + b, m)
    case Build(x, items) => BuildTuple(ctx, l, x, items)
    case Del(x) =>
      if !HasMeminfo(ctx.types[x]) then ([], l)
      else if x in ctx.slots then
        var (a, n) := DecrefSlot(ctx.types[x], ctx.slots[x], l.next);
        (a, l.(next := n))
      else (DelOps(ctx.types[x], l.vals[x]), l)
    case Return(x) =>
      var (a, v, n) := LoadVar(ctx, l, x);
      (a + [Ret(Flatten(ctx.types[x], v))], l.(next := n))
  }

  /** An operation defining one register, further operations on it, and its store. */
  function Define(ctx: Context, l: Lowering, x: nat, def: seq<Op>, more: seq<Op>): (r: (seq<Op>, Lowering))
    requires |l.vals| == |ctx.types| && x < |ctx.types|
    ensures |r.1.vals| == |l.vals|
  {
    var (ops, k) := StoreVar(ctx, l.(next := l.next + 1), x, Reg(l.next));
    (def + more + ops, k)
  }

  /** The code of a whole control path. */
  function LowerAll(ctx: Context, l: Lowering, path: seq<Instr>): (r: (seq<Op>, Lowering))
    requires |l.vals| == |ctx.types| && forall i :: i in path ==> InRange(ctx, i)
    ensures |r.1.vals| == |l.vals|
    decreases |path|
  {
    if path == [] then ([], l)
    else
      var (a, n) := Lower(ctx, l, path[0]);
      var (b, k) := LowerAll(ctx, n, path[1..]);
      (a + b, k)
  }

  // ---- the machine ----

  datatype Ptr = Null | Obj(o: nat) | Number(n: int)

  /** rc gives every object its reference count as a multiplicity; outside holds the references
      owned by callers. */
  datatype Machine = Machine(regs: seq<Ptr>, cells: seq<Ptr>, rc: multiset<nat>, outside: multiset<nat>, created: nat)

  datatype Result = Ok(m: Machine) | Fault

  /** What an operand holds. */
  function OperandPtr(v: Val, regs: seq<Ptr>): Ptr {
    match v
    case Reg(r) => if r < |regs| then regs[r] else Null
    case Const(n) => Number(n)
    case Tup(_) => Null
  }

  /** The object references in operands handed to the caller. */
  function Returned(vs: seq<Val>, regs: seq<Ptr>): multiset<nat> {
    if vs == [] then multiset{}
    else
      var p := OperandPtr(vs[0], regs);
      (if p.Obj? then multiset{p.o} else multiset{}) + Returned(vs[1..], regs)
  }

  function Exec1(m: Machine, op: Op): Result {
    match op
    case New => Ok(m.(regs := m.regs + [Obj(m.created)], rc := m.rc + multiset{m.created}, created := m.created + 1))
    case Param(p) => Ok(m.(regs := m.regs + [p]))
    case Scalar(n) => Ok(m.(regs := m.regs + [Number(n)]))
    case Load(c) => if c < |m.cells| then Ok(m.(regs := m.regs + [m.cells[c]])) else Fault
    case Store(c, r) => if c < |m.cells| && r < |m.regs| then Ok(m.(cells := m.cells[c := m.regs[r]])) else Fault
    case StoreConst(c, n) => if c < |m.cells| then Ok(m.(cells := m.cells[c := Number(n)])) else Fault
    case Zero(c) => if c < |m.cells| then Ok(m.(cells := m.cells[c := Null])) else Fault
    case Incref(r) =>
      if r >= |m.regs| || m.regs[r].Number? then Fault
      else if m.regs[r].Null? then Ok(m)
      else if m.regs[r].o in m.rc then Ok(m.(rc := m.rc + multiset{m.regs[r].o}))
      else Fault
    case Decref(r) =>
      if r >= |m.regs| || m.regs[r].Number? then Fault
      else if m.regs[r].Null? then Ok(m)
      else if m.regs[r].o in m.rc then Ok(m.(rc := m.rc - multiset{m.regs[r].o}))
      else Fault
    case Ret(vs) =>
      if forall i :: 0 <= i < |vs| && vs[i].Reg? ==> vs[i].r < |m.regs| then
        Ok(m.(outside := m.outside + Returned(vs, m.regs)))
      else Fault
  }

  function Exec(m: Machine, ops: seq<Op>): Result
    decreases |ops|
  {
    if ops == [] then Ok(m)
    else match Exec1(m, ops[0])
      case Ok(n) => Exec(n, ops[1..])
      case Fault => Fault
  }

  lemma {:induction false} ExecAppend(m: Machine, a: seq<Op>, b: seq<Op>)
    ensures Exec(m, a + b) == match Exec(m, a) case Ok(n) => Exec(n, b) case Fault => Fault
    decreases |a|
  {
    if a == [] {
      assert a + b == b;
    } else {
      assert (a + b)[1..] == a[1..] + b;
      match Exec1(m, a[0])
      case Ok(n) => ExecAppend(n, a[1..], b);
      case Fault =>
    }
  }
}
