/** The lowering object itself: its varmap and emitted code change statement by statement, and
    every method does what the functions of Refcount say. */
module LoweringObject {
  import opened NumbaTypes
  import opened Refcount

  lemma Regroup(code: seq<Op>, a: seq<Op>, b: seq<Op>, c: seq<Op>)
    ensures code + a + b + c == code + (a + b + c)
  {
  }

  /** The code and the state at the end, when statements j on are still to be lowered. */
  ghost function Ahead(ctx: Context, code: seq<Op>, l: Lowering, path: seq<Instr>, j: nat): (seq<Op>, Lowering)
    requires |l.vals| == |ctx.types| && j <= |path| && forall i :: i in path ==> InRange(ctx, i)
  {
    var rest := LowerAll(ctx, l, path[j..]);
    (code + rest.0, rest.1)
  }

  lemma AheadStep(ctx: Context, code: seq<Op>, l: Lowering, path: seq<Instr>, j: nat)
    requires |l.vals| == |ctx.types| && j < |path| && forall i :: i in path ==> InRange(ctx, i)
    ensures var (a, n) := Lower(ctx, l, path[j]);
            |n.vals| == |ctx.types| && Ahead(ctx, code, l, path, j) == Ahead(ctx, code + a, n, path, j + 1)
  {
    var rest := path[j..];
    assert rest[0] == path[j] && rest[1..] == path[j + 1..];
    var (a, n) := Lower(ctx, l, rest[0]);
    var later := LowerAll(ctx, n, rest[1..]);
    assert LowerAll(ctx, l, rest).0 == a + later.0;
    assert code + (a + later.0) == code + a + later.0;
  }

  lemma AheadEnds(ctx: Context, code: seq<Op>, l: Lowering, path: seq<Instr>)
    requires |l.vals| == |ctx.types| && forall i :: i in path ==> InRange(ctx, i)
    ensures Ahead(ctx, code, l, path, 0) == (code + LowerAll(ctx, l, path).0, LowerAll(ctx, l, path).1)
    ensures Ahead(ctx, code, l, path, |path|) == (code, l)
  {
    assert path[0..] == path && path[|path|..] == [];
    assert code + [] == code;
  }

  class MlirLower {
    const ctx: Context
    var varmap: seq<Val>
    var registers: nat
    var code: seq<Op>

    ghost predicate Valid() reads this {
      |varmap| == |ctx.types|
    }

    function State(): Lowering reads this {
      Lowering(varmap, registers)
    }

    constructor (ctx: Context)
      ensures this.ctx == ctx && Valid() && code == []
      ensures State() == Lowering(seq(|ctx.types|, _ => NONE), 0)
    {
      this.ctx := ctx;
      varmap := seq(|ctx.types|, _ => NONE);
      registers := 0;
      code := [];
    }

    /** An operation without a result. */
    method Emit(op: Op)
      modifies this`code
      ensures code == old(code) + [op]
    {
      code := code + [op];
    }

    /** An operation whose result is the next register. */
    method EmitValue(op: Op) returns (v: Val)
      modifies this`code, this`registers
      ensures code == old(code) + [op] && registers == old(registers) + 1 && v == Reg(old(registers))
    {
      code := code + [op];
      v := Reg(registers);
      registers := registers + 1;
    }

    method Incref(t: Ty, v: Val)
      modifies this`code
      ensures code == old(code) + IncrefOps(t, v)
    {
      if v.Reg? && t.Managed? { Emit(Op.Incref(v.r)); }
    }

    method Decref(t: Ty, v: Val)
      modifies this`code
      ensures code == old(code) + DecrefOps(t, v)
    {
      if v.Reg? && t.Managed? { Emit(Op.Decref(v.r)); }
    }

    /** for elem_val, elem_type in zip(values, types): incref */
    method IncrefAll(ts: seq<Ty>, vs: seq<Val>)
      modifies this`code
      ensures code == old(code) + IncrefEach(ts, vs)
    {
      var i := 0;
      while i < |ts| && i < |vs|
        invariant 0 <= i <= |ts| && i <= |vs|
        invariant code + IncrefEach(ts[i..], vs[i..]) == old(code) + IncrefEach(ts, vs)
      {
        Incref(ts[i], vs[i]);
        assert ts[i..][1..] == ts[i + 1..] && vs[i..][1..] == vs[i + 1..];
        i := i + 1;
      }
    }

    method DecrefAll(ts: seq<Ty>, vs: seq<Val>)
      modifies this`code
      ensures code == old(code) + DecrefEach(ts, vs)
    {
      var i := 0;
      while i < |ts| && i < |vs|
        invariant 0 <= i <= |ts| && i <= |vs|
        invariant code + DecrefEach(ts[i..], vs[i..]) == old(code) + DecrefEach(ts, vs)
      {
        Decref(ts[i], vs[i]);
        assert ts[i..][1..] == ts[i + 1..] && vs[i..][1..] == vs[i + 1..];
        i := i + 1;
      }
    }

    method IncrefTupleElements(t: Ty, v: Val)
      modifies this`code
      ensures code == old(code) + if v.Tup? then CopyOps(t, v) else []
    {
      if v.Tup? && t.IsTuple() { IncrefAll(t.Elements(), v.elems); }
    }

    method CopyReferences(t: Ty, v: Val)
      modifies this`code
      ensures code == old(code) + CopyOps(t, v)
    {
      if v.Tup? { IncrefTupleElements(t, v); } else { Incref(t, v); }
    }

    method LoadStackSlot(slot: Slot) returns (v: Val)
      modifies this`code, this`registers
      ensures var (ops, w, n) := LoadSlot(slot, old(registers));
              code == old(code) + ops && v == w && registers == n
      decreases slot
    {
      match slot
      case Cell(c) => v := EmitValue(Load(c));
      case Cells(ss) =>
        var vs := [];
        var i := 0;
        ghost var all := LoadSlots(ss, registers);
        while i < |ss|
          invariant 0 <= i <= |ss|
          invariant code + LoadSlots(ss[i..], registers).0 == old(code) + all.0
          invariant vs + LoadSlots(ss[i..], registers).1 == all.1
          invariant LoadSlots(ss[i..], registers).2 == all.2
        {
          assert ss[i..][1..] == ss[i + 1..];
          var e := LoadStackSlot(ss[i]);
          vs := vs + [e];
          i := i + 1;
        }
        v := Tup(vs);
    }

    /** One slot holding a single value. */
    method StoreCell(t: Ty, c: nat, v: Val)
      modifies this`code, this`registers
      ensures var (ops, n) := StoreSlot(t, Cell(c), v, old(registers));
              code == old(code) + ops && registers == n
    {
      if v.Reg? && HasMeminfo(t) {
        var previous := EmitValue(Load(c));
        Emit(Op.Decref(previous.r));
      }
      if v.Reg? { Emit(Store(c, v.r)); } else { Emit(StoreConst(c, if v.Const? then v.n else NONE.n)); }
    }

    method StoreStackSlot(t: Ty, slot: Slot, v: Val)
      modifies this`code, this`registers
      ensures var (ops, n) := StoreSlot(t, slot, v, old(registers));
              code == old(code) + ops && registers == n
      decreases slot
    {
      match slot
      case Cells(ss) =>
        if t.IsTuple() && v.Tup? { StoreStackSlots(t.Elements(), ss, v.elems); }
      case Cell(c) => StoreCell(t, c, v);
    }

    method StoreStackSlots(ts: seq<Ty>, ss: seq<Slot>, vs: seq<Val>)
      modifies this`code, this`registers
      ensures var (ops, n) := StoreSlots(ts, ss, vs, old(registers));
              code == old(code) + ops && registers == n
      decreases ss
    {
      var i := 0;
      ghost var all := StoreSlots(ts, ss, vs, registers);
      while i < |ts| && i < |ss| && i < |vs|
        invariant 0 <= i <= |ss| && i <= |ts| && i <= |vs|
        invariant code + StoreSlots(ts[i..], ss[i..], vs[i..], registers).0 == old(code) + all.0
        invariant StoreSlots(ts[i..], ss[i..], vs[i..], registers).1 == all.1
      {
        assert ts[i..][1..] == ts[i + 1..] && ss[i..][1..] == ss[i + 1..] && vs[i..][1..] == vs[i + 1..];
        StoreStackSlot(ts[i], ss[i], vs[i]);
        i := i + 1;
      }
    }

    method DecrefCell(c: nat)
      modifies this`code, this`registers
      ensures code == old(code) + [Load(c), Op.Decref(old(registers)), Zero(c)] && registers == old(registers) + 1
    {
      var previous := EmitValue(Load(c));
      Emit(Op.Decref(previous.r));
      Emit(Zero(c));
    }

    method DecrefStackSlot(t: Ty, slot: Slot)
      modifies this`code, this`registers
      ensures var (ops, n) := DecrefSlot(t, slot, old(registers));
              code == old(code) + ops && registers == n
      decreases slot
    {
      match slot
      case Cells(ss) => if t.IsTuple() { DecrefStackSlots(t.Elements(), ss); }
      case Cell(c) => DecrefCell(c);
    }

    method DecrefStackSlots(ts: seq<Ty>, ss: seq<Slot>)
      modifies this`code, this`registers
      ensures var (ops, n) := DecrefSlots(ts, ss, old(registers));
              code == old(code) + ops && registers == n
      decreases ss
    {
      var i := 0;
      ghost var all := DecrefSlots(ts, ss, registers);
      while i < |ts| && i < |ss|
        invariant 0 <= i <= |ss| && i <= |ts|
        invariant code + DecrefSlots(ts[i..], ss[i..], registers).0 == old(code) + all.0
        invariant DecrefSlots(ts[i..], ss[i..], registers).1 == all.1
      {
        assert ts[i..][1..] == ts[i + 1..] && ss[i..][1..] == ss[i + 1..];
        if HasMeminfo(ts[i]) { DecrefStackSlot(ts[i], ss[i]); }
        i := i + 1;
      }
    }

    method LoadOne(x: nat) returns (v: Val)
      requires Valid() && x < |varmap|
      modifies this`code, this`registers
      ensures var (ops, w, n) := LoadVar(ctx, old(State()), x);
              code == old(code) + ops && v == w && registers == n
    {
      if x in ctx.slots { v := LoadStackSlot(ctx.slots[x]); } else { v := varmap[x]; }
    }

    method LoadAll(xs: seq<nat>) returns (vs: seq<Val>)
      requires Valid() && forall i :: 0 <= i < |xs| ==> xs[i] < |varmap|
      modifies this`code, this`registers
      ensures Valid()
      ensures var (ops, ws, n) := LoadVars(ctx, old(State()), xs);
              code == old(code) + ops && vs == ws && registers == n
    {
      vs := [];
      var i := 0;
      ghost var all := LoadVars(ctx, State(), xs);
      while i < |xs|
        invariant 0 <= i <= |xs|
        invariant code + LoadVars(ctx, State(), xs[i..]).0 == old(code) + all.0
        invariant vs + LoadVars(ctx, State(), xs[i..]).1 == all.1
        invariant LoadVars(ctx, State(), xs[i..]).2 == all.2
      {
        assert xs[i..][1..] == xs[i + 1..];
        var v := LoadOne(xs[i]);
        vs := vs + [v];
        i := i + 1;
      }
    }

    method StoreOne(x: nat, v: Val)
      requires Valid() && x < |varmap|
      modifies this
      ensures Valid()
      ensures var (ops, k) := StoreVar(ctx, old(State()), x, v); code == old(code) + ops && State() == k
    {
      if x in ctx.slots { StoreStackSlot(ctx.types[x], ctx.slots[x], v); } else { varmap := varmap[x := v]; }
    }

    /** A call that produces a new value; NRT results are born with one reference. */
    method LowerCall(x: nat, op: Op)
      requires Valid() && x < |ctx.types|
      modifies this
      ensures Valid()
      ensures var (ops, k) := Define(ctx, old(State()), x, [op], []); code == old(code) + ops && State() == k
    {
      var v := EmitValue(op);
      StoreOne(x, v);
    }

    method LowerArgAssign(x: nat, p: Ptr)
      requires Valid() && x < |ctx.types|
      modifies this
      ensures Valid()
      ensures var (ops, k) := Lower(ctx, old(State()), Arg(x, p)); code == old(code) + ops && State() == k
    {
      var v := EmitValue(Param(p));
      Incref(ctx.types[x], v);
      StoreOne(x, v);
    }

    method LowerTupleArgAssign(x: nat, ps: seq<Ptr>)
      requires Valid() && x < |ctx.types|
      modifies this
      ensures Valid()
      ensures var (ops, k) := Lower(ctx, old(State()), TupleArg(x, ps)); code == old(code) + ops && State() == k
    {
      var first := registers;
      EmitParams(ps);
      var v, _ := ReassembleTuple(ctx.types[x], first);
      Incref(ctx.types[x], v);
      ghost var l := State();
      StoreOne(x, v);
      FourParts(old(code), Params(ps), IncrefOps(ctx.types[x], v), StoreVar(ctx, l, x, v).0);
    }

    static lemma FourParts<T>(a: seq<T>, b: seq<T>, c: seq<T>, d: seq<T>)
      ensures a + b + c + d == a + (b + c + d)
    {
    }

    method EmitParams(ps: seq<Ptr>)
      modifies this`code, this`registers
      ensures code == old(code) + Params(ps) && registers == old(registers) + |ps|
    {
      for i := 0 to |ps|
        invariant code + Params(ps[i..]) == old(code) + Params(ps) && registers == old(registers) + i
      {
        assert ps[i..][1..] == ps[i + 1..];
        var e := EmitValue(Param(ps[i]));
      }
    }

    /** Block arguments into a nested Python tuple, with a running index. */
    method ReassembleTuple(t: Ty, start: nat) returns (v: Val, next: nat)
      ensures (v, next) == ArgValue(t, start)
      decreases t, 1
    {
      if t.NoneTy? { return NONE, start; }
      if !t.IsTuple() { return Reg(start), start + 1; }
      var vs;
      vs, next := ReassembleElements(t.Elements(), start, t);
      v := Tup(vs);
      assert ArgValue(t, start).0 == v && ArgValue(t, start).1 == next;
    }

    method ReassembleElements(ts: seq<Ty>, start: nat, ghost whole: Ty) returns (vs: seq<Val>, next: nat)
      requires forall i :: 0 <= i < |ts| ==> ts[i] < whole
      ensures (vs, next) == ArgValues(ts, start, whole)
      decreases whole, 0
    {
      vs, next := [], start;
      ghost var all := ArgValues(ts, start, whole);
      assert ts[0..] == ts;
      for i := 0 to |ts|
        invariant vs + ArgValues(ts[i..], next, whole).0 == all.0 && ArgValues(ts[i..], next, whole).1 == all.1
      {
        assert ts[i..][0] == ts[i] && ts[i..][1..] == ts[i + 1..];
        var e;
        e, next := ReassembleTuple(ts[i], next);
        vs := vs + [e];
      }
      assert ts[|ts|..] == [] && vs + [] == vs;
      assert all.0 == vs && all.1 == next;
    }

    method LowerVarAssign(x: nat, y: nat)
      requires Valid() && InRange(ctx, Assign(x, y))
      modifies this
      ensures Valid()
      ensures var (ops, k) := Lower(ctx, old(State()), Assign(x, y)); code == old(code) + ops && State() == k
    {
      ghost var before, load := code, LoadVar(ctx, State(), y).0;
      var v := LoadOne(y);
      CopyReferences(ctx.types[x], v);
      ghost var store := StoreVar(ctx, State(), x, v).0;
      StoreOne(x, v);
      Regroup(before, load, CopyOps(ctx.types[x], v), store);
    }

    method LowerExhaustIter(x: nat, y: nat)
      requires Valid() && InRange(ctx, Forward(x, y))
      modifies this
      ensures Valid()
      ensures var (ops, k) := Lower(ctx, old(State()), Forward(x, y)); code == old(code) + ops && State() == k
    {
      ghost var before, load := code, LoadVar(ctx, State(), y).0;
      var v := LoadOne(y);
      ghost var counts := if v.Tup? then CopyOps(ctx.types[x], v) else [];
      IncrefTupleElements(ctx.types[x], v);
      ghost var store := StoreVar(ctx, State(), x, v).0;
      StoreOne(x, v);
      Regroup(before, load, counts, store);
    }

    method LowerCast(x: nat, y: nat)
      requires Valid() && InRange(ctx, Cast(x, y))
      modifies this
      ensures Valid()
      ensures var (ops, k) := Lower(ctx, old(State()), Cast(x, y)); code == old(code) + ops && State() == k
    {
      var v := LoadOne(y);
      Incref(ctx.types[x], v);
      StoreOne(x, v);
    }

    method LowerBuildTuple(x: nat, items: seq<nat>)
      requires Valid() && InRange(ctx, Build(x, items))
      modifies this
      ensures Valid()
      ensures var (ops, k) := BuildTuple(ctx, old(State()), x, items); code == old(code) + ops && State() == k
    {
      ghost var before, l := code, State();
      var vs := LoadAll(items);
      ghost var loads := LoadVars(ctx, l, items).0;
      ghost var counts := ElementOps(ctx.types[x], vs);
      if ctx.types[x].IsTuple() { IncrefAll(ctx.types[x].Elements(), vs); }
      ghost var store := StoreVar(ctx, State(), x, Tup(vs));
      StoreOne(x, Tup(vs));
      Regroup(before, loads, counts, store.0);
    }

    method LowerDel(x: nat)
      requires Valid() && InRange(ctx, Del(x))
      modifies this`code, this`registers
      ensures Valid()
      ensures var (ops, k) := Lower(ctx, old(State()), Del(x)); code == old(code) + ops && State() == k
    {
      var t := ctx.types[x];
      if !HasMeminfo(t) { return; }
      if x in ctx.slots {
        DecrefStackSlot(t, ctx.slots[x]);
      } else {
        var v := varmap[x];
        if v.Reg? { Decref(t, v); } else if v.Tup? && t.IsTuple() { DecrefAll(t.Elements(), v.elems); }
      }
    }

    method LowerReturn(x: nat)
      requires Valid() && InRange(ctx, Return(x))
      modifies this`code, this`registers
      ensures Valid()
      ensures var (ops, k) := Lower(ctx, old(State()), Return(x)); code == old(code) + ops && State() == k
    {
      var v := LoadOne(x);
      Emit(Ret(Flatten(ctx.types[x], v)));
    }

    method LowerGetitem(x: nat, y: nat, k: nat)
      requires Valid() && InRange(ctx, Element(x, y, k))
      modifies this
      ensures Valid()
      ensures var (ops, n) := Lower(ctx, old(State()), Element(x, y, k)); code == old(code) + ops && State() == n
    {
      ghost var before, load := code, LoadVar(ctx, State(), y).0;
      var v := LoadOne(y);
      var e := if v.Tup? && k < |v.elems| then v.elems[k] else NONE;
      Incref(ctx.types[x], e);
      ghost var store := StoreVar(ctx, State(), x, e).0;
      StoreOne(x, e);
      Regroup(before, load, IncrefOps(ctx.types[x], e), store);
    }

    method LowerInst(i: Instr)
      requires Valid() && InRange(ctx, i)
      modifies this
      ensures Valid()
      ensures var (ops, k) := Lower(ctx, old(State()), i); code == old(code) + ops && State() == k
    {
      match i
      case Fresh(x) => LowerCall(x, New);
      case Plain(x, n) => LowerCall(x, Op.Scalar(n));
      case Constant(x, n) => StoreOne(x, Const(n));
      case Arg(x, p) => LowerArgAssign(x, p);
      case TupleArg(x, ps) => LowerTupleArgAssign(x, ps);
      case Assign(x, y) => LowerVarAssign(x, y);
      case Forward(x, y) => LowerExhaustIter(x, y);
      case Cast(x, y) => LowerCast(x, y);
      case Element(x, y, k) => LowerGetitem(x, y, k);
      case Build(x, items) => LowerBuildTuple(x, items);
      case Del(x) => LowerDel(x);
      case Return(x) => LowerReturn(x);
    }

    /** The statements of a control path in order. */
    method LowerPath(path: seq<Instr>)
      requires Valid() && forall i :: i in path ==> InRange(ctx, i)
      modifies this
      ensures Valid()
      ensures var (ops, k) := LowerAll(ctx, old(State()), path); code == old(code) + ops && State() == k
    {
      ghost var all := Ahead(ctx, code, State(), path, 0);
      AheadEnds(ctx, code, State(), path);
      for j := 0 to |path|
        invariant Valid() && Ahead(ctx, code, State(), path, j) == all
      {
        AheadStep(ctx, code, State(), path, j);
        LowerInst(path[j]);
      }
      AheadEnds(ctx, code, State(), path);
    }
  }
}
