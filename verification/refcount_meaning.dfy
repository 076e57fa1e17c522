/** The emitted code of every statement, and of every control path, does what the statements mean. */
module RefcountMeaning {
  import opened NumbaTypes
  import opened Refcount
  import opened RefcountConservation
  import opened RefcountCells
  import opened RefcountCounting
  import opened RefcountLedger
  import opened RefcountTheorems
  import opened RefcountValues

  // ---- what a statement reads ----

  lemma {:induction false} MeaningsAt(ts: seq<Ty>, vs: seq<Val>, regs: seq<Ptr>, k: nat)
    requires |ts| == |vs| && k < |vs|
    ensures |Meanings(ts, vs, regs)| == |vs| && Meanings(ts, vs, regs)[k] == Meaning(ts[k], vs[k], regs)
    decreases |vs|
  {
    if |vs| > 1 { MeaningsAt(ts[1..], vs[1..], regs, if k > 0 then k - 1 else 0); }
  }

  lemma {:induction false} LoadVarsMean(ctx: Context, l: Lowering, live: set<nat>, m: Machine, xs: seq<nat>)
      returns (r: Machine)
    requires SlotsTyped(ctx) && Shape(ctx, l, live, m)
    requires forall i :: 0 <= i < |xs| ==> xs[i] < |l.vals| && Readable(ctx, live, xs[i])
    ensures var (ops, vs, n) := LoadVars(ctx, l, xs);
            && Exec(m, ops) == Ok(r) && r == m.(regs := r.regs) && n == |r.regs| && m.regs <= r.regs
            && Shape(ctx, l.(next := n), live, r) && |vs| == |xs|
            && forall i :: 0 <= i < |xs| ==> ReadAs(ctx, l, m, xs[i], vs[i], r)
    decreases |xs|
  {
    r := LoadVarsRead(ctx, l, live, m, xs);
    if xs != [] {
      var (a, v, n) := LoadVar(ctx, l, xs[0]);
      var (b, vs, k) := LoadVars(ctx, l.(next := n), xs[1..]);
      var p := LoadVarMeans(ctx, l, live, m, xs[0]);
      var q := LoadVarsMean(ctx, l.(next := n), live, p, xs[1..]);
      ExecAppend(m, a, b);
      MeaningExtends(ctx.types[xs[0]], v, p.regs, q.regs);
      TypedExtends(ctx.types[xs[0]], v, p.regs, q.regs);
      var all := [v] + vs;
      forall i | 0 <= i < |xs| ensures ReadAs(ctx, l, m, xs[i], all[i], r) {
        if i > 0 {
          assert xs[1..][i - 1] == xs[i] && all[i] == vs[i - 1];
          assert ReadAs(ctx, l.(next := n), p, xs[1..][i - 1], vs[i - 1], q);
          ReadingKeeps(ctx, l, live, m, p, xs[i]);
        }
      }
    }
  }

  /** v holds what y held. */
  ghost predicate ReadAs(ctx: Context, l: Lowering, m: Machine, y: nat, v: Val, r: Machine) {
    && y < |ctx.types| && y < |l.vals| && Typed(ctx.types[y], v, r.regs)
    && Meaning(ctx.types[y], v, r.regs) == VarMeaning(ctx, l, m, y)
  }

  /** The leaves of an argument's value are its registers in order. */
  lemma {:induction false} ArgMeans(t: Ty, a: nat, regs: seq<Ptr>)
    requires ArgValue(t, a).1 <= |regs|
    ensures a <= ArgValue(t, a).1
    ensures var v := Meaning(t, ArgValue(t, a).0, regs); Fits(t, v) && Leaves(v) == regs[a..ArgValue(t, a).1]
    decreases t, 1
  {
    if t.IsTuple() {
      ArgsStart(t.Elements(), a, t);
      ArgsMean(t.Elements(), a, regs, t);
    }
  }

  lemma {:induction false} ArgStart(t: Ty, a: nat)
    ensures a <= ArgValue(t, a).1
    decreases t, 1
  {
    if t.IsTuple() { ArgsStart(t.Elements(), a, t); }
  }

  lemma {:induction false} ArgsStart(ts: seq<Ty>, a: nat, whole: Ty)
    requires forall i :: 0 <= i < |ts| ==> ts[i] < whole
    ensures a <= ArgValues(ts, a, whole).1 && |ArgValues(ts, a, whole).0| == |ts|
    decreases whole, 0, |ts|
  {
    if ts != [] {
      ArgStart(ts[0], a);
      ArgsStart(ts[1..], ArgValue(ts[0], a).1, whole);
    }
  }

  lemma {:induction false} ArgsMean(ts: seq<Ty>, a: nat, regs: seq<Ptr>, whole: Ty)
    requires forall i :: 0 <= i < |ts| ==> ts[i] < whole
    requires ArgValues(ts, a, whole).1 <= |regs|
    ensures a <= ArgValues(ts, a, whole).1
    ensures var vs := Meanings(ts, ArgValues(ts, a, whole).0, regs);
            FitsAll(ts, vs) && LeavesAll(vs) == regs[a..ArgValues(ts, a, whole).1]
    decreases whole, 0, |ts|
  {
    if ts != [] {
      var (v, n) := ArgValue(ts[0], a);
      var (vs, k) := ArgValues(ts[1..], n, whole);
      ArgsStart(ts[1..], n, whole);
      ArgMeans(ts[0], a, regs);
      ArgsMean(ts[1..], n, regs, whole);
      assert ([v] + vs)[1..] == vs;
      var w, ws := Meaning(ts[0], v, regs), Meanings(ts[1..], vs, regs);
      assert ([w] + ws)[1..] == ws;
      FitsCons(ts, w, ws);
      assert regs[a..n] + regs[n..k] == regs[a..k];
    }
  }

  lemma FitsCons(ts: seq<Ty>, w: Tree, ws: seq<Tree>)
    requires ts != [] && Fits(ts[0], w) && FitsAll(ts[1..], ws)
    ensures FitsAll(ts, [w] + ws)
  {
    var all := [w] + ws;
    forall k | 0 <= k < |all| ensures Fits(ts[k], all[k]) {
      if k > 0 { assert Fits(ts[1..][k - 1], ws[k - 1]); }
    }
  }

  /** The value a statement hands to its target, in terms of the variables it reads. */
  ghost predicate MovedTree(ctx: Context, l: Lowering, m: Machine, i: Instr, v: Tree)
    requires |l.vals| == |ctx.types| && InRange(ctx, i)
  {
    match i
    case Assign(_, y) => v == VarMeaning(ctx, l, m, y)
    case Forward(_, y) => v == VarMeaning(ctx, l, m, y)
    case Cast(_, y) => v == VarMeaning(ctx, l, m, y)
    case Element(_, y, k) =>
      var w := VarMeaning(ctx, l, m, y);
      w.Node? && k < |w.elems| && v == w.elems[k]
    case Build(_, items) =>
      v == Node(seq(|items|, k requires 0 <= k < |items| => VarMeaning(ctx, l, m, items[k])))
    case TupleArg(x, ps) => Fits(ctx.types[x], v) && Leaves(v) == ps
    case Arg(_, p) => v == Leaf(p)
    case _ => false
  }

  ghost predicate ReadsTree(ctx: Context, l: Lowering, live: set<nat>, m: Machine, i: Instr, p: Machine)
    requires |l.vals| == |ctx.types| && InRange(ctx, i)
  {
    && Exec(m, ReadOps(ctx, l, i)) == Ok(p) && p == m.(regs := p.regs) && m.regs <= p.regs
    && Shape(ctx, l.(next := ReadEnd(ctx, l, i)), live, p)
    && Typed(ctx.types[i.x], Moved(ctx, l, i), p.regs)
    && MovedTree(ctx, l, m, i, Meaning(ctx.types[i.x], Moved(ctx, l, i), p.regs))
  }

  lemma BuildReads(ctx: Context, l: Lowering, live: set<nat>, m: Machine, i: Instr, callers: set<nat>)
      returns (p: Machine)
    requires SlotsTyped(ctx) && Shape(ctx, l, live, m) && Allowed(ctx, callers, live, i) && i.Build?
    ensures ReadsTree(ctx, l, live, m, i, p)
  {
    p := LoadVarsMean(ctx, l, live, m, i.items);
    var ts, vs := ctx.types[i.x].Elements(), LoadVars(ctx, l, i.items).1;
    forall k | 0 <= k < |vs|
      ensures Typed(ts[k], vs[k], p.regs) && Meaning(ts[k], vs[k], p.regs) == VarMeaning(ctx, l, m, i.items[k])
    {
      assert ReadAs(ctx, l, m, i.items[k], vs[k], p);
    }
    MeaningsOf(ts, vs, p.regs);
    var all := Meanings(ts, vs, p.regs);
    assert all == seq(|i.items|, k requires 0 <= k < |i.items| => VarMeaning(ctx, l, m, i.items[k]));
  }

  lemma MeaningsOf(ts: seq<Ty>, vs: seq<Val>, regs: seq<Ptr>)
    requires |ts| == |vs|
    ensures |Meanings(ts, vs, regs)| == |vs|
    ensures forall k :: 0 <= k < |vs| ==> Meanings(ts, vs, regs)[k] == Meaning(ts[k], vs[k], regs)
  {
    forall k | 0 <= k < |vs|
      ensures |Meanings(ts, vs, regs)| == |vs| && Meanings(ts, vs, regs)[k] == Meaning(ts[k], vs[k], regs)
    {
      MeaningsAt(ts, vs, regs, k);
    }
  }

  lemma ArgumentReads(ctx: Context, l: Lowering, live: set<nat>, m: Machine, i: Instr, callers: set<nat>)
      returns (p: Machine)
    requires SlotsTyped(ctx) && Shape(ctx, l, live, m) && Allowed(ctx, callers, live, i) && (i.TupleArg? || i.Arg?)
    ensures ReadsTree(ctx, l, live, m, i, p)
  {
    if i.Arg? {
      p := m.(regs := m.regs + [i.p]);
      OneOp(m, Param(i.p));
      ShapeExtends(ctx, l, live, m, p);
    } else {
      var t := ctx.types[i.x];
      p := TupleArgRead(ctx, l, live, m, t, i.ps);
      ParamsOk(m, i.ps);
      ArgValueShift(t, 0, m.regs, i.ps);
      ArgMeans(t, l.next, p.regs);
      assert p.regs[l.next..l.next + |i.ps|] == i.ps;
    }
  }

  /** Reading a statement's operands yields its value. */
  lemma StatementReads(ctx: Context, l: Lowering, live: set<nat>, m: Machine, i: Instr, callers: set<nat>)
      returns (p: Machine)
    requires SlotsTyped(ctx) && Shape(ctx, l, live, m) && Allowed(ctx, callers, live, i) && Moves(i)
    ensures ReadsTree(ctx, l, live, m, i, p)
  {
    if i.Build? {
      p := BuildReads(ctx, l, live, m, i, callers);
    } else if i.TupleArg? || i.Arg? {
      p := ArgumentReads(ctx, l, live, m, i, callers);
    } else {
      p := LoadVarMeans(ctx, l, live, m, i.y);
      if i.Element? { MeaningsAt(ctx.types[i.y].Elements(), LoadVar(ctx, l, i.y).1.elems, p.regs, i.k); }
    }
  }

  // ---- what a statement writes ----

  lemma CountOpsCount(ctx: Context, l: Lowering, i: Instr)
    requires |l.vals| == |ctx.types| && InRange(ctx, i)
    ensures Counts(CountOps(ctx, l, i))
  {
    var t, v := ctx.types[i.x], Moved(ctx, l, i);
    if v.Tup? && t.IsTuple() { EachCounts(t.Elements(), v.elems); }
  }

  lemma MovedWritten(ctx: Context, l: Lowering, live: set<nat>, m: Machine, i: Instr, callers: set<nat>)
      returns (v: Tree)
    requires SlotsDisjoint(ctx) && Shape(ctx, l, live, m) && Allowed(ctx, callers, live, i) && Moves(i)
    requires Exec(m, Lower(ctx, l, i).0).Ok?
    ensures MovedTree(ctx, l, m, i, v)
    ensures Written(ctx, l, live, m, i.x, v, Lower(ctx, l, i).1, Exec(m, Lower(ctx, l, i).0).m)
  {
    var p := StatementReads(ctx, l, live, m, i, callers);
    v := Meaning(ctx.types[i.x], Moved(ctx, l, i), p.regs);
    MoveCode(ctx, l, i);
    var n := ReadEnd(ctx, l, i);
    var a, b := ReadOps(ctx, l, i), CountOps(ctx, l, i);
    var (c, k) := StoreVar(ctx, l.(next := n), i.x, Moved(ctx, l, i));
    ExecAppend(m, a + b, c);
    ExecAppend(m, a, b);
    CountOpsCount(ctx, l, i);
    CountsKeepValues(p, b);
    var q := Exec(p, b).m;
    StoreVarMeans(ctx, l.(next := n), live, q, i.x, Moved(ctx, l, i));
    forall y | y != i.x && Readable(ctx, live, y)
      ensures VarMeaning(ctx, k, Exec(m, a + b + c).m, y) == VarMeaning(ctx, l, m, y)
    {
      ReadingKeeps(ctx, l, live, m, p, y);
    }
  }

  lemma DefinedWritten(ctx: Context, l: Lowering, live: set<nat>, m: Machine, x: nat, def: Op, p: Machine)
    requires SlotsDisjoint(ctx) && Shape(ctx, l, live, m) && x < |ctx.types|
    requires Exec1(m, def) == Ok(p) && p.cells == m.cells && m.regs <= p.regs && |p.regs| == |m.regs| + 1
    requires Typed(ctx.types[x], Reg(l.next), p.regs)
    requires Exec(m, Define(ctx, l, x, [def], []).0).Ok?
    ensures var (ops, k) := Define(ctx, l, x, [def], []);
            Written(ctx, l, live, m.(created := p.created), x, Single(ctx.types[x], p.regs[l.next]), k, Exec(m, ops).m)
  {
    var (c, k) := StoreVar(ctx, l.(next := l.next + 1), x, Reg(l.next));
    OneOp(m, def);
    assert [def] + [] == [def];
    ExecAppend(m, [def], c);
    ShapeExtends(ctx, l, live, m, p);
    StoreVarMeans(ctx, l.(next := l.next + 1), live, p, x, Reg(l.next));
    forall y | y != x && Readable(ctx, live, y) ensures VarMeaning(ctx, l, p, y) == VarMeaning(ctx, l, m, y) {
      ReadingKeeps(ctx, l, live, m, p, y);
    }
  }

  /** A dead variable's cells or registers do not matter to the others. */
  lemma DelWritesNothingElse(ctx: Context, l: Lowering, live: set<nat>, m: Machine, x: nat, y: nat)
    requires SlotsDisjoint(ctx) && Shape(ctx, l, live, m) && x < |ctx.types| && Readable(ctx, live, y) && y != x
    requires Exec(m, Lower(ctx, l, Del(x)).0).Ok?
    ensures VarMeaning(ctx, Lower(ctx, l, Del(x)).1, Exec(m, Lower(ctx, l, Del(x)).0).m, y) == VarMeaning(ctx, l, m, y)
  {
    DelWrites(ctx, l, x);
    OthersKeep(ctx, l, live, m, Lower(ctx, l, Del(x)).0, x, y);
  }

  // ---- agreement ----

  lemma WrittenAgrees(ctx: Context, l: Lowering, live: set<nat>, m: Machine, e: Env, i: Instr, v: Tree, k: Lowering,
        r: Machine, d: Env)
    requires |l.vals| == |ctx.types| && i.x < |ctx.types| && !i.Del? && !i.Return?
    requires (forall y :: y in e.vars ==> HasMeaning(ctx, l, live, m, e, y))
    requires Written(ctx, l, live, m, i.x, v, k, r) && d.vars == e.vars[i.x := v] && d.created == r.created
    ensures Agrees(ctx, k, After(ctx, live, i), r, d)
  {
    forall y | y in d.vars ensures HasMeaning(ctx, k, After(ctx, live, i), r, d, y) {
      if y != i.x { assert HasMeaning(ctx, l, live, m, e, y); }
    }
  }

  /** The trees of one type with the same leaves are one. */
  lemma {:induction false} FitsOnce(t: Ty, v: Tree, w: Tree, a: seq<Ptr>, b: seq<Ptr>)
    requires Fits(t, v) && Fits(t, w) && Leaves(v) + a == Leaves(w) + b
    ensures v == w && a == b
    decreases v
  {
    if t.NoneTy? {
      assert [] + a == a && [] + b == b;
    } else if t.IsTuple() {
      FitsAllOnce(t.Elements(), v.elems, w.elems, a, b);
    } else {
      assert ([v.p] + a)[0] == v.p && ([w.p] + b)[0] == w.p;
      assert ([v.p] + a)[1..] == a && ([w.p] + b)[1..] == b;
    }
  }

  lemma {:induction false} FitsAllOnce(ts: seq<Ty>, vs: seq<Tree>, ws: seq<Tree>, a: seq<Ptr>, b: seq<Ptr>)
    requires FitsAll(ts, vs) && FitsAll(ts, ws) && LeavesAll(vs) + a == LeavesAll(ws) + b
    ensures vs == ws && a == b
    decreases vs
  {
    if vs == [] {
      assert [] + a == a && [] + b == b;
    } else {
      assert LeavesAll(vs) + a == Leaves(vs[0]) + (LeavesAll(vs[1..]) + a);
      assert LeavesAll(ws) + b == Leaves(ws[0]) + (LeavesAll(ws[1..]) + b);
      FitsOnce(ts[0], vs[0], ws[0], LeavesAll(vs[1..]) + a, LeavesAll(ws[1..]) + b);
      FitsAllOnce(ts[1..], vs[1..], ws[1..], a, b);
      assert vs == [vs[0]] + vs[1..] && ws == [ws[0]] + ws[1..];
    }
  }

  lemma OneTree(t: Ty, v: Tree, w: Tree)
    requires Fits(t, v) && Fits(t, w) && Leaves(v) == Leaves(w)
    ensures v == w
  {
    assert Leaves(v) + [] == Leaves(w) + [];
    FitsOnce(t, v, w, [], []);
  }

  lemma MovedMeans(ctx: Context, l: Lowering, live: set<nat>, m: Machine, i: Instr, v: Tree, e: Env, d: Env)
    requires |l.vals| == |ctx.types| && InRange(ctx, i) && Moves(i) && MovedTree(ctx, l, m, i, v)
    requires Agrees(ctx, l, live, m, e) && Means(ctx.types, e, i, d)
    ensures d == e.(vars := e.vars[i.x := v])
  {
    if i.Build? {
      forall k | 0 <= k < |i.items| ensures VarMeaning(ctx, l, m, i.items[k]) == e.vars[i.items[k]] {
        assert HasMeaning(ctx, l, live, m, e, i.items[k]);
      }
      assert v.elems == seq(|i.items|, k requires 0 <= k < |i.items| => e.vars[i.items[k]]);
    } else if i.TupleArg? {
      var w :| Fits(ctx.types[i.x], w) && Leaves(w) == i.ps && d == e.(vars := e.vars[i.x := w]);
      OneTree(ctx.types[i.x], v, w);
    } else if !i.Arg? {
      assert HasMeaning(ctx, l, live, m, e, i.y);
    }
  }

  /** The emitted code of a statement gives its target the value the statement means, and changes the
      value of no other variable. */
  lemma StatementMeans(ctx: Context, l: Lowering, live: set<nat>, m: Machine, i: Instr, callers: set<nat>, e: Env,
        d: Env)
    requires SlotsDisjoint(ctx) && Shape(ctx, l, live, m) && Allowed(ctx, callers, live, i)
    requires Exec(m, Lower(ctx, l, i).0).Ok?
    requires Agrees(ctx, l, live, m, e) && Means(ctx.types, e, i, d)
    ensures Agrees(ctx, Lower(ctx, l, i).1, After(ctx, live, i), Exec(m, Lower(ctx, l, i).0).m, d)
  {
    var (ops, k) := Lower(ctx, l, i);
    var r := Exec(m, ops).m;
    if Moves(i) {
      var v := MovedWritten(ctx, l, live, m, i, callers);
      MovedMeans(ctx, l, live, m, i, v, e, d);
      WrittenAgrees(ctx, l, live, m, e, i, v, k, r, d);
    } else if i.Del? || i.Return? {
      EndMeans(ctx, l, live, m, i, e, d);
    } else {
      NewMeans(ctx, l, live, m, i, callers, e, d);
    }
  }

  lemma DelCreatesNothing(ctx: Context, l: Lowering, live: set<nat>, m: Machine, x: nat)
    requires SlotsDisjoint(ctx) && Shape(ctx, l, live, m) && x < |ctx.types| && (x in ctx.slots || x in live)
    requires Exec(m, Lower(ctx, l, Del(x)).0).Ok?
    ensures Exec(m, Lower(ctx, l, Del(x)).0).m.created == m.created
  {
    var t := ctx.types[x];
    if HasMeminfo(t) {
      if x in ctx.slots {
        var r := DecrefSlotIff(ctx, m, t, ctx.slots[x]);
      } else {
        var r := DelIff(m, t, l.vals[x]);
      }
    }
  }

  lemma EndMeans(ctx: Context, l: Lowering, live: set<nat>, m: Machine, i: Instr, e: Env, d: Env)
    requires SlotsDisjoint(ctx) && Shape(ctx, l, live, m) && InRange(ctx, i)
    requires (i.Del? && (i.x in ctx.slots || i.x in live)) || (i.Return? && i.x in live)
    requires Exec(m, Lower(ctx, l, i).0).Ok?
    requires Agrees(ctx, l, live, m, e) && Means(ctx.types, e, i, d)
    ensures Agrees(ctx, Lower(ctx, l, i).1, After(ctx, live, i), Exec(m, Lower(ctx, l, i).0).m, d)
  {
    var (ops, k) := Lower(ctx, l, i);
    if i.Return? {
      var q := ReturnMoves(ctx, l, live, m, i.x);
    } else {
      DelCreatesNothing(ctx, l, live, m, i.x);
    }
    forall y | y in d.vars ensures HasMeaning(ctx, k, After(ctx, live, i), Exec(m, ops).m, d, y) {
      assert HasMeaning(ctx, l, live, m, e, y);
      if i.Del? { DelWritesNothingElse(ctx, l, live, m, i.x, y); }
    }
  }

  lemma NewMeans(ctx: Context, l: Lowering, live: set<nat>, m: Machine, i: Instr, callers: set<nat>, e: Env, d: Env)
    requires SlotsDisjoint(ctx) && Shape(ctx, l, live, m) && Allowed(ctx, callers, live, i)
    requires i.Fresh? || i.Plain? || i.Constant?
    requires Exec(m, Lower(ctx, l, i).0).Ok?
    requires Agrees(ctx, l, live, m, e) && Means(ctx.types, e, i, d)
    ensures Agrees(ctx, Lower(ctx, l, i).1, After(ctx, live, i), Exec(m, Lower(ctx, l, i).0).m, d)
  {
    var (ops, k) := Lower(ctx, l, i);
    var r := Exec(m, ops).m;
    match i
    case Fresh(x) =>
      DefinedWritten(ctx, l, live, m, x, New, Exec1(m, New).m);
      WrittenAgrees(ctx, l, live, m.(created := m.created + 1), e, i, Leaf(Obj(m.created)), k, r, d);
    case Plain(x, n) =>
      DefinedWritten(ctx, l, live, m, x, Op.Scalar(n), Exec1(m, Op.Scalar(n)).m);
      WrittenAgrees(ctx, l, live, m, e, i, Single(ctx.types[x], Number(n)), k, r, d);
    case Constant(x, n) =>
      StoreVarMeans(ctx, l, live, m, x, Const(n));
      WrittenAgrees(ctx, l, live, m, e, i, Single(ctx.types[x], Number(n)), k, r, d);
  }

  // ---- returning ----

  function Pointers(vs: seq<Val>, regs: seq<Ptr>): seq<Ptr> {
    seq(|vs|, k requires 0 <= k < |vs| => OperandPtr(vs[k], regs))
  }

  /** The operands of a returned value hold its leaves in order. */
  lemma {:induction false} FlattenMeans(t: Ty, v: Val, regs: seq<Ptr>)
    requires Typed(t, v, regs)
    ensures Fits(t, Meaning(t, v, regs)) && Leaves(Meaning(t, v, regs)) == Pointers(Flatten(t, v), regs)
    decreases v
  {
    if t.IsTuple() { FlattenAllMeans(t.Elements(), v.elems, regs); }
  }

  lemma {:induction false} FlattenAllMeans(ts: seq<Ty>, vs: seq<Val>, regs: seq<Ptr>)
    requires TypedAll(ts, vs, regs)
    ensures FitsAll(ts, Meanings(ts, vs, regs))
    ensures LeavesAll(Meanings(ts, vs, regs)) == Pointers(FlattenAll(ts, vs), regs)
    decreases vs
  {
    if vs != [] {
      FlattenMeans(ts[0], vs[0], regs);
      FlattenAllMeans(ts[1..], vs[1..], regs);
      var w, ws := Meaning(ts[0], vs[0], regs), Meanings(ts[1..], vs[1..], regs);
      assert ([w] + ws)[1..] == ws;
      FitsCons(ts, w, ws);
      var a, b := Flatten(ts[0], vs[0]), FlattenAll(ts[1..], vs[1..]);
      assert Pointers(a + b, regs) == Pointers(a, regs) + Pointers(b, regs);
    }
  }

  /** Whoever receives the operands and rebuilds a value of the type from them gets the value. */
  lemma FlattenRebuilds(t: Ty, v: Val, regs: seq<Ptr>)
    requires Typed(t, v, regs)
    ensures ArgValue(t, 0).1 == |Flatten(t, v)|
    ensures Meaning(t, ArgValue(t, 0).0, Pointers(Flatten(t, v), regs)) == Meaning(t, v, regs)
  {
    FlattenMeans(t, v, regs);
    FlattenCount(t, v, regs, 0);
    var ps := Pointers(Flatten(t, v), regs);
    ArgMeans(t, 0, ps);
    assert ps[0..|ps|] == ps;
    OneTree(t, Meaning(t, ArgValue(t, 0).0, ps), Meaning(t, v, regs));
  }

  lemma {:induction false} FlattenCount(t: Ty, v: Val, regs: seq<Ptr>, a: nat)
    requires Typed(t, v, regs)
    ensures ArgValue(t, a).1 == a + |Flatten(t, v)|
    decreases t, 1
  {
    if t.IsTuple() { FlattenCounts(t.Elements(), v.elems, regs, a, t); }
  }

  lemma {:induction false} FlattenCounts(ts: seq<Ty>, vs: seq<Val>, regs: seq<Ptr>, a: nat, whole: Ty)
    requires TypedAll(ts, vs, regs) && forall i :: 0 <= i < |ts| ==> ts[i] < whole
    ensures ArgValues(ts, a, whole).1 == a + |FlattenAll(ts, vs)|
    decreases whole, 0, |ts|
  {
    if ts != [] {
      FlattenCount(ts[0], vs[0], regs, a);
      FlattenCounts(ts[1..], vs[1..], regs, a + |Flatten(ts[0], vs[0])|, whole);
    }
  }

  /** A return hands the caller operands from which it rebuilds the variable's value. */
  lemma ReturnMeans(ctx: Context, l: Lowering, live: set<nat>, m: Machine, x: nat, e: Env)
    requires SlotsDisjoint(ctx) && Shape(ctx, l, live, m) && x in live && x in e.vars && Agrees(ctx, l, live, m, e)
    ensures exists vs ::
              && Lower(ctx, l, Return(x)).0 == [Ret(vs)] && ArgValue(ctx.types[x], 0).1 == |vs|
              && Meaning(ctx.types[x], ArgValue(ctx.types[x], 0).0, Pointers(vs, m.regs)) == e.vars[x]
  {
    var t, v := ctx.types[x], l.vals[x];
    assert HasMeaning(ctx, l, live, m, e, x);
    FlattenRebuilds(t, v, m.regs);
    assert Lower(ctx, l, Return(x)).0 == [Ret(Flatten(t, v))];
  }

  // ---- whole paths ----

  /** The values that the statements of a path mean, one after another. */
  ghost predicate PathMeans(types: seq<Ty>, path: seq<Instr>, es: seq<Env>)
    requires forall i :: i in path ==> i.x < |types|
  {
    |es| == |path| + 1 && forall k :: 0 <= k < |path| ==> Means(types, es[k], path[k], es[k + 1])
  }

  /** The code of a control path, if it does not fault, leaves every variable with the value that the
      path means. */
  lemma {:induction false} LoweringMeans(ctx: Context, l: Lowering, live: set<nat>, m: Machine, path: seq<Instr>,
        callers: set<nat>, es: seq<Env>)
    requires SlotsDisjoint(ctx) && Shape(ctx, l, live, m) && AllowedPath(ctx, callers, live, path)
    requires (forall i :: i in path ==> InRange(ctx, i)) && Exec(m, LowerAll(ctx, l, path).0).Ok?
    requires PathMeans(ctx.types, path, es) && Agrees(ctx, l, live, m, es[0])
    ensures var (ops, k) := LowerAll(ctx, l, path);
            Agrees(ctx, k, LiveAfter(ctx, live, path), Exec(m, ops).m, es[|path|])
    decreases |path|
  {
    if path != [] {
      var (a, k) := Lower(ctx, l, path[0]);
      ExecAppend(m, a, LowerAll(ctx, k, path[1..]).0);
      var r := StepLedger(ctx, l, live, m, path[0], callers);
      StatementMeans(ctx, l, live, m, path[0], callers, es[0], es[1]);
      LoweringMeans(ctx, k, After(ctx, live, path[0]), r, path[1..], callers, es[1..]);
    }
  }

  /** From function entry, the code of every legal path runs, leaves every variable with the value that
      the path means, and counts every reference. */
  lemma LegalPathMeans(ctx: Context, callers: set<nat>, l: Lowering, m: Machine, path: seq<Instr>, es: seq<Env>)
      returns (r: Machine)
    requires Supported(ctx) && SlotsDisjoint(ctx) && Entry(ctx, l, m) && CallersOwn(callers, m)
    requires LegalPath(ctx, callers, {}, path) && forall i :: i in path ==> InRange(ctx, i) && i.x < |ctx.types|
    requires PathMeans(ctx.types, path, es) && es[0] == Env(map[], m.created)
    ensures var (ops, k) := LowerAll(ctx, l, path);
            var live := LiveAfter(ctx, {}, path);
            && Exec(m, ops) == Ok(r) && |k.vals| == |ctx.types|
            && Agrees(ctx, k, live, r, es[|path|]) && Conserved(k, live, r)
  {
    EntryInv(ctx, l, m);
    r := Conservation(ctx, callers, l, {}, m, path);
    LegalAllowed(ctx, callers, {}, path);
    LoweringMeans(ctx, l, {}, m, path, callers, es);
  }

  lemma {:induction false} LegalAllowed(ctx: Context, callers: set<nat>, live: set<nat>, path: seq<Instr>)
    requires LegalPath(ctx, callers, live, path)
    ensures AllowedPath(ctx, callers, live, path)
    decreases |path|
  {
    if path != [] { LegalAllowed(ctx, callers, After(ctx, live, path[0]), path[1..]); }
  }
}
