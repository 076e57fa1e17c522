/** Which types a compile attempt compiles, and that the kernel-map key is flagged for the same ones. */
module CompileLiterals {
  import opened Lru
  import opened NumbaTypes
  import opened DispatcherState
  import opened DispatcherInvariant
  import opened DispatcherProtocol
  import opened DispatcherTheorems
  import Marshalling
  import LaunchPaths
  import KernelSharing

  // ---- the signature of an attempt ----

  /** What the type at position i becomes: a recorded position whose value is an int or a bool is
      compiled as that literal; every other type, and one that is a literal already, stays. */
  ghost predicate LiteralAt(a: Attempt, positions: set<nat>, i: nat, t: Ty)
    requires i < |a.args|
  {
    && (i !in positions || a.args[i].Literal? ==> t == a.args[i])
    && (i in positions && !a.args[i].Literal? ==>
          && i < |a.values|
          && (a.values[i].PyInt? ==> t == Literal(a.args[i], a.values[i].i))
          && (a.values[i].PyBool? ==> t == Literal(a.args[i], if a.values[i].b then 1 else 0))
          && (a.values[i].Other? ==> t == a.args[i]))
  }

  ghost predicate Literalized(a: Attempt, positions: set<nat>, args: Signature) {
    |args| == |a.args| && forall i :: 0 <= i < |args| ==> LiteralAt(a, positions, i, args[i])
  }

  /** Literalising fails exactly for recorded positions without top-level runtime values; otherwise it
      turns exactly the recorded positions into literals. */
  lemma LiteralizeExact(a: Attempt, positions: set<nat>)
    ensures Literalize(a, positions).Some? <==>
            positions == {} || (|a.values| == |a.args| == a.abiCount && forall p :: p in positions ==> p < |a.args|)
    ensures Literalize(a, positions).Some? ==> Literalized(a, positions, Literalize(a, positions).value)
  {
  }

  // ---- attempts over every run ----

  /** The signature and the positions that a phase holds. */
  function Snapshot(p: Phase): Option<(Signature, set<nat>)> {
    match p
    case Snapshotting => None
    case Capturing(args, lits) => Some((args, lits))
    case Finding(args, lits, _) => Some((args, lits))
    case Compiling(args, lits, _) => Some((args, lits))
    case Recording(_, _) => None
    case Publishing(args, lits, _, _) => Some((args, lits))
  }

  ghost predicate SnapshotOk(pc: Pc) {
    pc.Compile? && Snapshot(pc.phase).Some? ==>
      Literalized(pc.attempt, Snapshot(pc.phase).value.1, Snapshot(pc.phase).value.0)
  }

  lemma StepSnapshot(s: State, e: Event, lim: Limits)
    requires Step(s, e, lim).Some? && SnapshotOk(s.threads[e.thread])
    ensures SnapshotOk(Step(s, e, lim).value.threads[e.thread])
  {
    var pc := s.threads[e.thread];
    if pc.Compile? && pc.phase.Snapshotting? { LiteralizeExact(pc.attempt, s.core.literals); }
  }

  /** In every state of every run, an attempt past its snapshot compiles the types it was asked for with
      exactly the recorded positions as literals; these are the positions that every native dispatcher a
      launch can look up was built for. */
  lemma {:induction false} AttemptsLiteralized(n: nat, run: seq<Event>, lim: Limits, t: nat)
    requires Run(n, run, lim).Some? && t < n
    ensures var s := Run(n, run, lim).value;
            SnapshotOk(s.threads[t]) &&
            (s.threads[t].Compile? && Snapshot(s.threads[t].phase).Some? ==>
               var lits := Snapshot(s.threads[t].phase).value.1;
               && lits == s.core.literals && s.core.current.literals == lits
               && forall e :: e in s.core.table ==> e.1.literals == lits)
    decreases |run|
  {
    Invariants(n, run, lim);
    RegisteredNativesFresh(n, run, lim);
    var s := Run(n, run, lim).value;
    assert PcOk(s.core, s.compiler, t, s.threads[t]);
    if run != [] {
      var before := run[..|run| - 1];
      AttemptsLiteralized(n, before, lim, t);
      var e := run[|run| - 1];
      if e.thread == t { StepSnapshot(Run(n, before, lim).value, e, lim); }
    }
  }

  // ---- the key of a launch ----

  /** A launch argument as literal recording sees it. */
  function ValueOf(a: Marshalling.Arg): Value {
    match a
    case PyLong(v, Int) => PyInt(v)
    case PyLong(v, Bool) => PyBool(v != 0)
    case _ => Other
  }

  /** The flags that _new_kernel_dispatcher hands to the launcher. */
  function LiteralFlags(positions: set<nat>, n: nat): (flags: seq<bool>)
    ensures |flags| == n && forall i :: 0 <= i < n ==> (flags[i] <==> i in positions)
  {
    seq(n, i requires 0 <= i < n => i in positions)
  }

  /** An attempt to compile for the arguments of a launch, one for each parameter. */
  ghost predicate AttemptFor(a: Attempt, args: seq<Marshalling.Arg>) {
    && |a.args| == |args| == |a.values| == a.abiCount
    && forall i :: 0 <= i < |args| ==> a.args[i] == KernelSharing.ArgType(args[i]) && a.values[i] == ValueOf(args[i])
  }

  lemma SameLiteral(x: Marshalling.Arg, literal: bool)
    requires x.PyLong? && x.cls.Bool? ==> x.v == 0 || x.v == 1
    ensures KernelSharing.CompiledType(x, literal) ==
            if literal then LiteralType(KernelSharing.ArgType(x), ValueOf(x)) else KernelSharing.ArgType(x)
  {
  }

  /** The launcher's key and the compiler agree: an attempt compiles exactly the types that the key was
      built for, and an argument's value is in the key exactly when it is in the compiled type. */
  lemma KeyMatchesCompiler(a: Attempt, positions: set<nat>, args: seq<Marshalling.Arg>)
    requires AttemptFor(a, args) && KernelSharing.AllExtractable(args) && forall p :: p in positions ==> p < |args|
    ensures var literals := LiteralFlags(positions, |args|);
            && Literalize(a, positions) == Some(KernelSharing.CompiledTypes(args, literals))
            && forall i :: 0 <= i < |args| ==>
                 (LaunchPaths.EffectiveFlags(LiteralFlags({}, |args|), literals, args)[i] <==>
                  Literalize(a, positions).value[i].Literal?)
  {
    var literals := LiteralFlags(positions, |args|);
    var ts := KernelSharing.CompiledTypes(args, literals);
    LiteralizeExact(a, positions);
    var us := Literalize(a, positions).value;
    forall i | 0 <= i < |args|
      ensures us[i] == ts[i]
      ensures LaunchPaths.EffectiveFlags(LiteralFlags({}, |args|), literals, args)[i] <==> us[i].Literal?
    {
      SameLiteral(args[i], literals[i]);
      assert LiteralAt(a, positions, i, us[i]);
    }
    assert us == ts;
  }
}
