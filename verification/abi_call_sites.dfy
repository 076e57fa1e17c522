/** Recursive calls, whose arguments are flattened as the call gives them, and the recovery of a
    call's result by the caller. */
module AbiCallSites {
  import opened Lru
  import opened NumbaTypes
  import opened Abi
  import opened AbiCalls

  // ---- recursive calls ----

  /** The parameters a call gives, in its order: the positional ones, then the keywords as written.
      Each is given once, and exactly the parameters with a default may be missing. */
  ghost predicate Gives(sig: seq<Ty>, order: seq<nat>) {
    && (forall k :: 0 <= k < |order| ==> order[k] < |sig|)
    && (forall j, k :: 0 <= j < k < |order| ==> order[j] != order[k])
    && forall i :: 0 <= i < |sig| ==> (i in order <==> !sig[i].Omitted?)
  }

  /** build_recursive_call: every argument given, an explicit None included, in the order given. */
  function RecursiveOperands(args: seq<Value>, order: seq<nat>): seq<Value>
    requires forall k :: 0 <= k < |order| ==> order[k] < |args|
  {
    if order == [] then [] else FlattenValue(args[order[0]]) + RecursiveOperands(args, order[1..])
  }

  /** No argument given is None or has a None leaf. */
  ghost predicate NoneFree(sig: seq<Ty>, order: seq<nat>)
    requires forall k :: 0 <= k < |order| ==> order[k] < |sig|
  {
    forall k :: 0 <= k < |order| ==> NoneLeaves(sig[order[k]]) == 0
  }

  /** The arguments that have operands are given in parameter order. */
  ghost predicate InOrder(sig: seq<Ty>, order: seq<nat>)
    requires forall k :: 0 <= k < |order| ==> order[k] < |sig|
  {
    forall j, k :: 0 <= j < k < |order| && CountFlat(sig[order[j]]) > 0 && CountFlat(sig[order[k]]) > 0 ==>
      order[j] < order[k]
  }

  /** No two arguments share an operand: every operand belongs to one argument. */
  ghost predicate Owns(sig: seq<Ty>, args: seq<Value>, owner: map<Value, nat>)
    requires |sig| == |args|
  {
    forall i, x :: 0 <= i < |sig| && x in FlattenOperands(sig[i], args[i]) ==> x in owner && owner[x] == i
  }

  // ---- parameter lists ----

  /** The operands of the listed parameters, flattened by type. */
  function OperandsAt(sig: seq<Ty>, args: seq<Value>, list: seq<nat>): seq<Value>
    requires |sig| == |args| && forall k :: 0 <= k < |list| ==> list[k] < |sig|
  {
    if list == [] then [] else FlattenOperands(sig[list[0]], args[list[0]]) + OperandsAt(sig, args, list[1..])
  }

  /** The listed parameters that have operands. */
  function Wide(sig: seq<Ty>, list: seq<nat>): (w: seq<nat>)
    requires forall k :: 0 <= k < |list| ==> list[k] < |sig|
    ensures forall x :: x in w <==> x in list && CountFlat(sig[x]) > 0
    ensures forall k :: 0 <= k < |w| ==> w[k] < |sig|
  {
    if list == [] then []
    else
      assert list == [list[0]] + list[1..];
      if CountFlat(sig[list[0]]) > 0 then [list[0]] + Wide(sig, list[1..]) else Wide(sig, list[1..])
  }

  /** The parameters from i on that have operands, in order. */
  function Parameters(sig: seq<Ty>, i: nat): (ps: seq<nat>)
    requires i <= |sig|
    ensures forall x :: x in ps <==> i <= x < |sig| && Width(sig[x]) > 0
    ensures forall k :: 0 <= k < |ps| ==> i <= ps[k] < |sig|
    decreases |sig| - i
  {
    if i == |sig| then []
    else if Width(sig[i]) > 0 then [i] + Parameters(sig, i + 1)
    else Parameters(sig, i + 1)
  }

  ghost predicate Ascending(s: seq<nat>) {
    forall j, k :: 0 <= j < k < |s| ==> s[j] < s[k]
  }

  lemma {:induction false} ParametersAscend(sig: seq<Ty>, i: nat)
    requires i <= |sig|
    ensures Ascending(Parameters(sig, i))
    decreases |sig| - i
  {
    if i < |sig| { ParametersAscend(sig, i + 1); }
  }

  lemma HasElement(t: seq<nat>)
    ensures t != [] ==> exists x :: x in t
  {
    if t != [] { assert t[0] in t; }
  }

  /** Two ascending lists of the same parameters are equal. */
  lemma {:induction false} AscendingUnique(s: seq<nat>, t: seq<nat>)
    requires Ascending(s) && Ascending(t) && forall x :: x in s <==> x in t
    ensures s == t
    decreases |s|
  {
    HasElement(t);
    if s != [] {
      assert s[0] in s && s[0] in t;
      assert t[0] in t && t[0] in s;
      AscendingTail(s);
      AscendingTail(t);
      assert s[0] == t[0];
      AscendingUnique(s[1..], t[1..]);
      assert s == [s[0]] + s[1..] && t == [t[0]] + t[1..];
    }
  }

  lemma AscendingTail(s: seq<nat>)
    requires Ascending(s) && s != []
    ensures Ascending(s[1..]) && forall x :: x in s[1..] ==> s[0] < x
    ensures forall x :: x in s <==> x == s[0] || x in s[1..]
  {
    var a := s[1..];
    forall k | 0 <= k < |a| ensures a[k] > s[0] { assert a[k] == s[k + 1]; }
    assert s == [s[0]] + a;
  }

  lemma {:induction false} WideAscends(sig: seq<Ty>, order: seq<nat>)
    requires forall k :: 0 <= k < |order| ==> order[k] < |sig|
    requires forall j, k :: 0 <= j < k < |order| ==> order[j] != order[k]
    ensures InOrder(sig, order) <==> Ascending(Wide(sig, order))
    decreases |order|
  {
    if order != [] {
      var x, rest := order[0], order[1..];
      WideAscends(sig, rest);
      assert order == [x] + rest;
      if InOrder(sig, order) { InOrderTail(sig, order); }
      if CountFlat(sig[x]) > 0 {
        WideCons(sig, order);
        if Ascending(Wide(sig, order)) { InOrderCons(sig, order); }
      } else {
        if InOrder(sig, rest) { InOrderCons(sig, order); }
      }
    }
  }

  /** A first parameter with operands extends an ascending list exactly when it precedes all others. */
  lemma WideCons(sig: seq<Ty>, order: seq<nat>)
    requires (forall k :: 0 <= k < |order| ==> order[k] < |sig|) && order != [] && CountFlat(sig[order[0]]) > 0
    ensures Ascending(Wide(sig, order)) <==>
            Ascending(Wide(sig, order[1..])) && forall x :: x in Wide(sig, order[1..]) ==> order[0] < x
  {
    var w, tail := Wide(sig, order), Wide(sig, order[1..]);
    assert w == [order[0]] + tail && w[1..] == tail;
    if Ascending(w) { AscendingTail(w); }
    if Ascending(tail) && forall x :: x in tail ==> order[0] < x {
      forall j, k | 0 <= j < k < |w| ensures w[j] < w[k] {
        assert w[k] == tail[k - 1] && tail[k - 1] in tail;
        if j > 0 { assert w[j] == tail[j - 1]; }
      }
    }
  }

  lemma InOrderTail(sig: seq<Ty>, order: seq<nat>)
    requires (forall k :: 0 <= k < |order| ==> order[k] < |sig|) && order != [] && InOrder(sig, order)
    ensures InOrder(sig, order[1..])
    ensures CountFlat(sig[order[0]]) > 0 ==> forall x :: x in order[1..] && CountFlat(sig[x]) > 0 ==> order[0] < x
  {
    var rest := order[1..];
    assert forall k :: 0 <= k < |rest| ==> rest[k] == order[k + 1];
  }

  lemma InOrderCons(sig: seq<Ty>, order: seq<nat>)
    requires (forall k :: 0 <= k < |order| ==> order[k] < |sig|) && order != [] && InOrder(sig, order[1..])
    requires CountFlat(sig[order[0]]) > 0 ==> forall x :: x in Wide(sig, order[1..]) ==> order[0] < x
    ensures InOrder(sig, order)
  {
    var rest := order[1..];
    forall j, k | 0 <= j < k < |order| && CountFlat(sig[order[j]]) > 0 && CountFlat(sig[order[k]]) > 0
      ensures order[j] < order[k]
    {
      assert order[k] == rest[k - 1];
      assert rest[k - 1] in rest;
      if j > 0 {
        assert order[j] == rest[j - 1] && rest[j - 1] < rest[k - 1];
      } else {
        assert rest[k - 1] in Wide(sig, rest);
      }
    }
  }

  // ---- operands of lists ----

  lemma EmptyFront<T>(a: seq<T>, b: seq<T>)
    requires |a| == 0
    ensures a + b == b
  {
  }

  lemma OperandsCons(sig: seq<Ty>, args: seq<Value>, x: nat, rest: seq<nat>)
    requires |sig| == |args| && x < |sig| && forall k :: 0 <= k < |rest| ==> rest[k] < |sig|
    ensures OperandsAt(sig, args, [x] + rest) == FlattenOperands(sig[x], args[x]) + OperandsAt(sig, args, rest)
  {
    assert ([x] + rest)[1..] == rest;
  }

  /** Parameters without operands add nothing. */
  lemma {:induction false} WideOperands(sig: seq<Ty>, args: seq<Value>, list: seq<nat>)
    requires ShapedEach(sig, args) && forall k :: 0 <= k < |list| ==> list[k] < |sig|
    ensures OperandsAt(sig, args, list) == OperandsAt(sig, args, Wide(sig, list))
    decreases |list|
  {
    if list != [] {
      var x, rest := list[0], list[1..];
      WideOperands(sig, args, rest);
      RoundTrip(sig[x], args[x], []);
      assert list == [x] + rest;
      OperandsCons(sig, args, x, rest);
      if CountFlat(sig[x]) > 0 {
        OperandsCons(sig, args, x, Wide(sig, rest));
      } else {
        EmptyFront(FlattenOperands(sig[x], args[x]), OperandsAt(sig, args, rest));
      }
    }
  }

  /** The callee's block arguments are the operands of its parameters in order. */
  lemma {:induction false} BlockIsParameters(sig: seq<Ty>, args: seq<Value>, i: nat)
    requires ShapedEach(sig, args) && i <= |sig|
    ensures BlockArguments(sig[i..], args[i..]) == OperandsAt(sig, args, Parameters(sig, i))
    decreases |sig| - i
  {
    if i < |sig| {
      BlockIsParameters(sig, args, i + 1);
      assert sig[i..][1..] == sig[i + 1..] && args[i..][1..] == args[i + 1..];
      RoundTrip(sig[i], args[i], []);
      if Width(sig[i]) > 0 {
        var ps := Parameters(sig, i);
        assert ps == [i] + Parameters(sig, i + 1) && ps[1..] == Parameters(sig, i + 1);
      }
    }
  }

  lemma OperandsUnfold(sig: seq<Ty>, args: seq<Value>, list: seq<nat>)
    requires |sig| == |args| && list != [] && forall k :: 0 <= k < |list| ==> list[k] < |sig|
    ensures OperandsAt(sig, args, list) ==
            FlattenOperands(sig[list[0]], args[list[0]]) + OperandsAt(sig, args, list[1..])
  {
  }

  lemma FirstOwner(sig: seq<Ty>, args: seq<Value>, i: nat, owner: map<Value, nat>)
    requires ShapedEach(sig, args) && Owns(sig, args, owner) && i < |sig| && CountFlat(sig[i]) > 0
    ensures var ops := FlattenOperands(sig[i], args[i]); ops != [] && ops[0] in owner && owner[ops[0]] == i
  {
    RoundTrip(sig[i], args[i], []);
    assert FlattenOperands(sig[i], args[i])[0] in FlattenOperands(sig[i], args[i]);
  }

  /** Operand lists of parameters that all have operands determine the parameters. */
  lemma {:induction false} OperandsDetermine(sig: seq<Ty>, args: seq<Value>, s: seq<nat>, t: seq<nat>,
        owner: map<Value, nat>)
    requires ShapedEach(sig, args) && Owns(sig, args, owner)
    requires forall k :: 0 <= k < |s| ==> s[k] < |sig| && CountFlat(sig[s[k]]) > 0
    requires forall k :: 0 <= k < |t| ==> t[k] < |sig| && CountFlat(sig[t[k]]) > 0
    requires OperandsAt(sig, args, s) == OperandsAt(sig, args, t)
    ensures s == t
    decreases |s|
  {
    if s != [] {
      OperandsUnfold(sig, args, s);
      FirstOwner(sig, args, s[0], owner);
    }
    if t != [] {
      OperandsUnfold(sig, args, t);
      FirstOwner(sig, args, t[0], owner);
    }
    if s != [] && t != [] {
      var a, b := FlattenOperands(sig[s[0]], args[s[0]]), FlattenOperands(sig[t[0]], args[t[0]]);
      SameFront(a, OperandsAt(sig, args, s[1..]), b, OperandsAt(sig, args, t[1..]));
      StripFront(a, OperandsAt(sig, args, s[1..]), OperandsAt(sig, args, t[1..]));
      OperandsDetermine(sig, args, s[1..], t[1..], owner);
      assert s == [s[0]] + s[1..] && t == [t[0]] + t[1..];
    }
  }

  lemma SameFront<T>(a: seq<T>, x: seq<T>, b: seq<T>, y: seq<T>)
    requires a != [] && b != [] && a + x == b + y
    ensures a[0] == b[0]
  {
    assert a[0] == (a + x)[0] && b[0] == (b + y)[0];
  }

  lemma StripFront<T>(a: seq<T>, x: seq<T>, y: seq<T>)
    requires a + x == a + y
    ensures x == y
  {
    assert x == (a + x)[|a|..] && y == (a + y)[|a|..];
  }

  // ---- recursive calls against the callee ----

  function TotalWidth(sig: seq<Ty>, list: seq<nat>): nat
    requires forall k :: 0 <= k < |list| ==> list[k] < |sig|
  {
    if list == [] then 0 else CountFlat(sig[list[0]]) + TotalWidth(sig, list[1..])
  }

  function TotalNones(sig: seq<Ty>, list: seq<nat>): nat
    requires forall k :: 0 <= k < |list| ==> list[k] < |sig|
  {
    if list == [] then 0 else NoneLeaves(sig[list[0]]) + TotalNones(sig, list[1..])
  }

  lemma {:induction false} RecursiveLength(sig: seq<Ty>, args: seq<Value>, order: seq<nat>)
    requires ShapedEach(sig, args) && forall k :: 0 <= k < |order| ==> order[k] < |sig|
    ensures |RecursiveOperands(args, order)| == TotalWidth(sig, order) + TotalNones(sig, order)
    ensures TotalNones(sig, order) == 0 <==> NoneFree(sig, order)
    ensures NoneFree(sig, order) ==> RecursiveOperands(args, order) == OperandsAt(sig, args, order)
    decreases |order|
  {
    if order != [] {
      var x := order[0];
      ValueLength(sig[x], args[x]);
      RoundTrip(sig[x], args[x], []);
      RecursiveLength(sig, args, order[1..]);
      assert NoneFree(sig, order) <==> NoneLeaves(sig[x]) == 0 && NoneFree(sig, order[1..]) by {
        assert order == [x] + order[1..];
        assert forall k :: 1 <= k < |order| ==> order[k] == order[1..][k - 1];
      }
    }
  }

  /** The total width does not depend on the order in which parameters are given. */
  lemma {:induction false} WidthRemove(sig: seq<Ty>, list: seq<nat>, k: nat)
    requires k < |list| && forall j :: 0 <= j < |list| ==> list[j] < |sig|
    ensures TotalWidth(sig, list) == CountFlat(sig[list[k]]) + TotalWidth(sig, list[..k] + list[k + 1..])
    decreases k
  {
    var rest := list[..k] + list[k + 1..];
    if k == 0 {
      assert rest == list[1..];
    } else {
      WidthRemove(sig, list[1..], k - 1);
      assert rest[1..] == list[1..][..k - 1] + list[1..][k..];
    }
  }

  lemma {:induction false} GivenWidth(sig: seq<Ty>, order: seq<nat>, i: nat)
    requires i <= |sig| && (forall k :: 0 <= k < |order| ==> i <= order[k] < |sig|)
    requires forall j, k :: 0 <= j < k < |order| ==> order[j] != order[k]
    requires forall p :: i <= p < |sig| ==> (p in order <==> !sig[p].Omitted?)
    ensures TotalWidth(sig, order) == |BlockTypes(sig[i..])|
    decreases |sig| - i
  {
    if i == |sig| {
      if order != [] { assert false; }
    } else {
      assert sig[i..][1..] == sig[i + 1..];
      TypeLength(sig[i]);
      if i in order {
        var k :| 0 <= k < |order| && order[k] == i;
        var rest := order[..k] + order[k + 1..];
        WidthRemove(sig, order, k);
        RemovedRest(order, k, i);
        GivenWidth(sig, rest, i + 1);
      } else {
        GivenWidth(sig, order, i + 1);
      }
    }
  }

  lemma RemovedRest(order: seq<nat>, k: nat, i: nat)
    requires k < |order| && order[k] == i && forall j :: 0 <= j < |order| ==> i <= order[j]
    requires forall j, m :: 0 <= j < m < |order| ==> order[j] != order[m]
    ensures var rest := order[..k] + order[k + 1..];
            && (forall j :: 0 <= j < |rest| ==> rest[j] in order && i < rest[j])
            && (forall j, m :: 0 <= j < m < |rest| ==> rest[j] != rest[m])
            && forall p :: p in order && p != i ==> p in rest
  {
    var rest := order[..k] + order[k + 1..];
    forall j | 0 <= j < |rest| ensures rest[j] == order[if j < k then j else j + 1] { }
    forall p | p in order && p != i ensures p in rest {
      var j :| 0 <= j < |order| && order[j] == p;
      assert rest[if j < k then j else j - 1] == p;
    }
  }

  /** A recursive call supplies as many operands as the function has block arguments exactly when no
      argument given is None or has a None leaf. */
  lemma RecursiveCountIffNoneFree(sig: seq<Ty>, args: seq<Value>, order: seq<nat>)
    requires ShapedEach(sig, args) && Gives(sig, order)
    ensures |RecursiveOperands(args, order)| == |BlockTypes(sig)| <==> NoneFree(sig, order)
  {
    RecursiveLength(sig, args, order);
    GivenWidth(sig, order, 0);
    assert sig[0..] == sig;
  }

  /** Its operands are the callee's block arguments, so that every argument arrives, exactly when
      moreover the arguments that have operands are given in parameter order. */
  lemma RecursiveCallIff(sig: seq<Ty>, args: seq<Value>, order: seq<nat>, owner: map<Value, nat>)
    requires ShapedEach(sig, args) && Gives(sig, order) && Owns(sig, args, owner)
    ensures RecursiveOperands(args, order) == BlockArguments(sig, args) <==> NoneFree(sig, order) && InOrder(sig, order)
  {
    RecursiveCountIffNoneFree(sig, args, order);
    BlockArgumentsLength(sig, args);
    RecursiveLength(sig, args, order);
    if NoneFree(sig, order) {
      var given, parameters := Wide(sig, order), Parameters(sig, 0);
      WideOperands(sig, args, order);
      BlockIsParameters(sig, args, 0);
      assert sig[0..] == sig && args[0..] == args;
      WideAscends(sig, order);
      ParametersAscend(sig, 0);
      SameParameters(sig, order);
      if InOrder(sig, order) {
        AscendingUnique(given, parameters);
      }
      if OperandsAt(sig, args, given) == OperandsAt(sig, args, parameters) {
        AllWide(sig, given);
        AllWide(sig, parameters);
        OperandsDetermine(sig, args, given, parameters, owner);
      }
    }
  }

  lemma AllWide(sig: seq<Ty>, list: seq<nat>)
    requires forall x :: x in list ==> x < |sig| && CountFlat(sig[x]) > 0
    ensures forall k :: 0 <= k < |list| ==> list[k] < |sig| && CountFlat(sig[list[k]]) > 0
  {
    forall k | 0 <= k < |list| ensures list[k] in list { }
  }

  lemma SameParameters(sig: seq<Ty>, order: seq<nat>)
    requires Gives(sig, order)
    ensures forall x :: x in Wide(sig, order) <==> x in Parameters(sig, 0)
  {
    forall x ensures x in order ==> x < |sig| {
      if x in order { var k :| 0 <= k < |order| && order[k] == x; }
    }
    forall x | 0 <= x < |sig| ensures Width(sig[x]) > 0 <==> !sig[x].Omitted? && CountFlat(sig[x]) > 0 { }
  }

  /** f(n - 1, None): one operand more than block arguments, although no passed tuple has a None leaf. */
  lemma RecursiveNoneArgument(n: nat, bits: nat)
    ensures var sig := [Integer(bits, true), NoneTy];
            var args := [Operand(n), Placeholder];
            && ShapedEach(sig, args) && Gives(sig, [0, 1]) && PassedNoneLeaves(sig) == 0
            && |RecursiveOperands(args, [0, 1])| == |BlockTypes(sig)| + 1
  {
    var sig: seq<Ty> := [Integer(bits, true), NoneTy];
    var args := [Operand(n), Placeholder];
    var order := [0, 1];
    assert order[1..] == [1] && order[1..][1..] == [];
    assert sig[1..] == [NoneTy] && sig[1..][1..] == [];
    RecursiveLength(sig, args, order);
    assert TotalNones(sig, order) == NoneLeaves(sig[0]) + TotalNones(sig, order[1..]);
    assert TotalNones(sig, order[1..]) == NoneLeaves(sig[1]) + TotalNones(sig, order[1..][1..]);
    GivenWidth(sig, order, 0);
    assert sig[0..] == sig;
    assert PassedNoneLeaves(sig) == NoneLeaves(sig[0]) + PassedNoneLeaves(sig[1..]);
    assert PassedNoneLeaves(sig[1..]) == PassedNoneLeaves(sig[1..][1..]);
  }

  /** f(b=y, a=x) for f(a, b): as many operands as block arguments, but exchanged. */
  lemma RecursiveKeywordsExchanged(x: nat, y: nat, bits: nat)
    ensures var sig := [Integer(bits, true), Integer(bits, true)];
            var args := [Operand(x), Operand(y)];
            && ShapedEach(sig, args) && Gives(sig, [1, 0]) && NoneFree(sig, [1, 0])
            && RecursiveOperands(args, [1, 0]) == [Operand(y), Operand(x)]
            && BlockArguments(sig, args) == [Operand(x), Operand(y)]
  {
    var sig: seq<Ty> := [Integer(bits, true), Integer(bits, true)];
    var args := [Operand(x), Operand(y)];
    var order := [1, 0];
    assert order[1..] == [0] && order[1..][1..] == [];
    assert RecursiveOperands(args, order[1..]) == FlattenValue(args[0]) + RecursiveOperands(args, order[1..][1..]);
    assert sig[1..][1..] == [] && args[1..][1..] == [];
    assert BlockArguments(sig[1..], args[1..]) ==
           FlattenOperands(sig[1], args[1]) + BlockArguments(sig[1..][1..], args[1..][1..]);
  }

  // ---- results ----

  /** The operands a return supplies: a tuple is flattened by type, None returns nothing. */
  function ReturnOperands(restype: Ty, v: Value): seq<Value> {
    if restype.NoneTy? then [] else if v.Group? then FlattenOperands(restype, v) else [v]
  }

  /** from_return of a model: a tuple's iterates over a Python tuple; None when it is given a single
      SSA value to iterate over instead, from which no tuple is rebuilt. */
  function FromReturn(t: Ty, raw: Value): Option<Value>
    decreases raw, 1
  {
    if !t.IsTuple() then Some(raw)
    else if !raw.Group? then None
    else
      match FromReturnEach(t.Elements(), raw.elems)
      case Some(vs) => Some(Group(vs))
      case None => None
  }

  function FromReturnEach(ts: seq<Ty>, raws: seq<Value>): Option<seq<Value>>
    decreases raws, 0
  {
    if ts == [] || raws == [] then Some([])
    else
      var first, rest := FromReturn(ts[0], raws[0]), FromReturnEach(ts[1..], raws[1..]);
      if first.None? || rest.None? then None else Some([first.value] + rest.value)
  }

  lemma {:induction false} FromReturnKeeps(t: Ty, v: Value)
    requires Shaped(t, v)
    ensures FromReturn(t, Placed(t, v)) == Some(Placed(t, v))
    decreases v
  {
    if t.IsTuple() { FromReturnKeepsEach(t.Elements(), v.elems); }
  }

  lemma {:induction false} FromReturnKeepsEach(ts: seq<Ty>, vs: seq<Value>)
    requires ShapedEach(ts, vs)
    ensures FromReturnEach(ts, PlacedEach(ts, vs)) == Some(PlacedEach(ts, vs))
    decreases vs
  {
    if ts != [] {
      FromReturnKeeps(ts[0], vs[0]);
      FromReturnKeepsEach(ts[1..], vs[1..]);
      assert ([Placed(ts[0], vs[0])] + PlacedEach(ts[1..], vs[1..]))[1..] == PlacedEach(ts[1..], vs[1..]);
    }
  }

  /** What the caller makes of a call's results; None when it cannot rebuild a value from them. */
  function CallerResult(restype: Ty, results: seq<Value>): Option<Value> {
    if results == [] then Some(Placeholder)
    else if restype.IsTuple() && |results| > 1 then
      match Unflatten(restype, results)
      case Some((v, _)) => FromReturn(restype, v)
      case None => None
    else FromReturn(restype, if |results| == 1 then results[0] else Group(results))
  }

  /** The caller gets the returned value back exactly when it is not a tuple or has more than one
      leaf.  A tuple with one leaf is not recovered: its model iterates over the leaf.  One with none
      arrives as None. */
  lemma ResultRecoveredIff(restype: Ty, v: Value)
    requires Shaped(restype, v)
    ensures var r := CallerResult(restype, ReturnOperands(restype, v));
            && (r == Some(Placed(restype, v)) <==> !restype.IsTuple() || CountFlat(restype) > 1)
            && (restype.IsTuple() && CountFlat(restype) == 1 ==> r == None)
            && (restype.IsTuple() && CountFlat(restype) == 0 ==> r == Some(Placeholder))
  {
    var ops := ReturnOperands(restype, v);
    RoundTrip(restype, v, []);
    FromReturnKeeps(restype, v);
    if restype.IsTuple() {
      assert ops + [] == ops;
      LeavesOnly(restype, v);
    }
  }
}
