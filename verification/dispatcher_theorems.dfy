/** Safety and progress of the dispatcher over every run of every number of threads. */
module DispatcherTheorems {
  import opened Lru
  import opened NumbaTypes
  import opened DispatcherState
  import opened DispatcherInvariant
  import opened DispatcherProtocol
  import opened ConfigureEvents

  lemma {:induction false} Invariants(n: nat, run: seq<Event>, lim: Limits)
    requires Run(n, run, lim).Some?
    ensures FreshInv(Run(n, run, lim).value, lim) && EventInv(Run(n, run, lim).value)
  {
    if run == [] {
      assert Values(Initial().table) == [];
    } else {
      var before := run[..|run| - 1];
      Invariants(n, before, lim);
      StepFresh(Run(n, before, lim).value, run[|run| - 1], lim);
      StepEvents(Run(n, before, lim).value, run[|run| - 1], lim);
    }
  }

  // ---- configure(): events ----

  /** A waiting thread can wake, or another thread owns the event and will set it. */
  lemma NoStrandedWaiter(n: nat, run: seq<Event>, lim: Limits, t: nat)
    requires Run(n, run, lim).Some? && t < n && Run(n, run, lim).value.threads[t].Waiting?
    ensures var s := Run(n, run, lim).value;
            var ev := s.threads[t].event;
            ev in s.core.signalled
            || exists u, k ::
                 && 0 <= u < n && u != t
                 && k in s.core.inflight && s.core.inflight[k] == ev && Owns(s.threads[u], k, ev)
  {
    Invariants(n, run, lim);
    var s := Run(n, run, lim).value;
    var ev := s.threads[t].event;
    assert Announced(s.core, ev);
    if ev !in s.core.signalled {
      var k :| k in s.core.inflight && s.core.inflight[k] == ev;
      var u :| 0 <= u < n && Owns(s.threads[u], k, ev);
      assert u != t;
    }
  }

  /** Whoever acts, an owner keeps its event until the event is set: no exit of configure()
      (return, stale retry, exhausted retries, exception) leaves an event unset. */
  lemma OwnerSignalsOnEveryExit(s: State, e: Event, lim: Limits, t: nat)
    requires EventInv(s) && Step(s, e, lim).Some? && t < |s.threads| && Owner(s.threads[t])
    ensures var r := Step(s, e, lim).value;
            var k, ev := s.threads[t].call.key, s.threads[t].event;
            Owns(r.threads[t], k, ev) || ev in r.core.signalled
    ensures s.core.signalled <= Step(s, e, lim).value.core.signalled
  {
    ActEffect(s, e.thread, s.threads[e.thread], e.action, lim);
  }

  /** A registration disappears only when all are cleared and all their events set, or by the thread
      that owns it; and a registered key never changes to another event. */
  lemma OnlyTheOwnerDeregisters(s: State, e: Event, lim: Limits, k: ConfigureKey)
    requires EventInv(s) && Step(s, e, lim).Some? && k in s.core.inflight
    ensures var r := Step(s, e, lim).value;
            if k in r.core.inflight then r.core.inflight[k] == s.core.inflight[k]
            else Flushed(s.core, r.core) || Owns(s.threads[e.thread], k, s.core.inflight[k])
  {
    ActEffect(s, e.thread, s.threads[e.thread], e.action, lim);
  }

  /** Two threads never build for the same key with both events unset. */
  lemma OneRegisteredOwner(n: nat, run: seq<Event>, lim: Limits, t: nat, u: nat)
    requires Run(n, run, lim).Some? && t < n && u < n
    requires var s := Run(n, run, lim).value;
             && Owner(s.threads[t]) && Owner(s.threads[u])
             && s.threads[t].call.key == s.threads[u].call.key
             && s.threads[t].event !in s.core.signalled && s.threads[u].event !in s.core.signalled
    ensures t == u
  {
    Invariants(n, run, lim);
    var s := Run(n, run, lim).value;
    assert OwnerOk(s.core, s.threads[t]) && OwnerOk(s.core, s.threads[u]);
  }

  /** One call of configure() builds at most STALE_RETRY_LIMIT marshallers. */
  lemma BuildsBounded(n: nat, run: seq<Event>, lim: Limits, t: nat)
    requires Run(n, run, lim).Some? && t < n
    ensures var pc := Run(n, run, lim).value.threads[t];
            !pc.Idle? && !pc.Aborted? && !pc.Compile? ==> pc.call.builds <= 8
  {
    Invariants(n, run, lim);
    var s := Run(n, run, lim).value;
    assert PcOk(s.core, s.compiler, t, s.threads[t]);
  }

  function OwnerRank(pc: Pc): nat {
    match pc
    case Starting(_, _) => 6
    case Fetching(_, _, Looking) => 5
    case Fetching(_, _, Making(_)) => 4
    case Fetching(_, _, Inserting(_, _)) => 3
    case Built(_, _, _) => 2
    case _ => 1
  }

  function OwnerAction(pc: Pc): Action {
    match pc
    case Starting(_, _) => ReadCurrent(true)
    case Fetching(_, _, _) => StepFetch
    case Built(_, _, _) => Finish
    case _ => Unwind
  }

  /** An owner is never blocked, and each of its steps sets its event or brings it closer to
      doing so, unless the dispatcher was invalidated since it looked. */
  lemma OwnerProgress(s: State, t: nat, a: Action, lim: Limits)
    requires t < |s.threads| && Owner(s.threads[t])
    ensures Step(s, Event(t, OwnerAction(s.threads[t])), lim).Some?
    ensures Step(s, Event(t, a), lim).Some? ==>
              var pc, r := s.threads[t], Step(s, Event(t, a), lim).value;
              || pc.event in r.core.signalled
              || OwnerRank(r.threads[t]) < OwnerRank(pc)
              || (pc.Fetching? && pc.fetch.Inserting? && pc.fetch.generation != s.core.generation)
  {
  }

  /** The generation an owner has captured, or would capture if it looked now. */
  function Captured(s: Core, pc: Pc): nat {
    match pc
    case Fetching(_, _, Making(g)) => g
    case Fetching(_, _, Inserting(g, _)) => g
    case _ => s.generation
  }

  /** A stale insertion goes two ranks back, but captures a later generation. */
  function OwnerMeasure(s: Core, pc: Pc): int {
    OwnerRank(pc) - 3 * Captured(s, pc)
  }

  lemma FetchStepFalls(s: Core, pc: Pc, lim: Limits)
    requires CoreOk(s, lim) && pc.Fetching? && FetchOk(s, pc.fetch)
    ensures var (r, q) := StepConfigure(s, pc, StepFetch, lim).value; OwnerMeasure(r, q) < OwnerMeasure(s, pc)
  {
    AdvanceFetchOk(s, pc.call.key.launch, pc.fetch, lim);
  }

  lemma OwnStepFalls(s: Core, pc: Pc, a: Action, lim: Limits)
    requires CoreOk(s, lim) && Owner(pc) && (pc.Fetching? ==> FetchOk(s, pc.fetch))
    requires StepConfigure(s, pc, a, lim).Some?
    ensures var (r, q) := StepConfigure(s, pc, a, lim).value;
            pc.event in r.signalled || OwnerMeasure(r, q) < OwnerMeasure(s, pc)
  {
    if pc.Fetching? && a.StepFetch? { FetchStepFalls(s, pc, lim); }
  }

  lemma OwnerMeasureFalls(s: State, e: Event, lim: Limits, t: nat)
    requires FreshInv(s, lim) && EventInv(s) && Step(s, e, lim).Some?
    requires t < |s.threads| && Owner(s.threads[t])
    requires s.threads[t].event !in Step(s, e, lim).value.core.signalled
    ensures var r := Step(s, e, lim).value;
            && Owner(r.threads[t]) && r.threads[t].event == s.threads[t].event
            && OwnerMeasure(r.core, r.threads[t]) + (if e.thread == t then 1 else 0) <=
               OwnerMeasure(s.core, s.threads[t])
  {
    OwnerSignalsOnEveryExit(s, e, lim, t);
    var pc := s.threads[t];
    if e.thread == t {
      assert PcOk(s.core, s.compiler, t, pc);
      OwnStepFalls(s.core, pc, e.action, lim);
    } else {
      StepFresh(s, e, lim);
      LaterCapture(s.core, Step(s, e, lim).value.core, pc);
    }
  }

  lemma LaterCapture(s: Core, r: Core, pc: Pc)
    requires s.generation <= r.generation
    ensures OwnerMeasure(r, pc) <= OwnerMeasure(s, pc)
  {
  }

  function OwnSteps(events: seq<Event>, t: nat): nat {
    if events == [] then 0
    else OwnSteps(events[..|events| - 1], t) + if events[|events| - 1].thread == t then 1 else 0
  }

  lemma SignalsStay(s: State, e: Event, lim: Limits)
    requires EventInv(s) && Step(s, e, lim).Some?
    ensures s.core.signalled <= Step(s, e, lim).value.core.signalled
  {
    ActEffect(s, e.thread, s.threads[e.thread], e.action, lim);
  }

  lemma LastStep(n: nat, run: seq<Event>, more: seq<Event>, lim: Limits)
    requires more != [] && Run(n, run + more, lim).Some?
    ensures var mid := Run(n, run + more[..|more| - 1], lim);
            && mid.Some? && FreshInv(mid.value, lim) && EventInv(mid.value)
            && Step(mid.value, more[|more| - 1], lim) == Run(n, run + more, lim)
            && mid.value.core.signalled <= Run(n, run + more, lim).value.core.signalled
  {
    var all, prior := run + more, more[..|more| - 1];
    assert all[..|all| - 1] == run + prior && all[|all| - 1] == more[|more| - 1];
    Invariants(n, run + prior, lim);
    SignalsStay(Run(n, run + prior, lim).value, all[|all| - 1], lim);
  }

  /** As long as its event is unset, each of an owner's steps lowers the measure and nobody else's
      raises it. */
  lemma {:induction false} OwnerRun(n: nat, run: seq<Event>, more: seq<Event>, lim: Limits, t: nat)
    requires Run(n, run, lim).Some? && Run(n, run + more, lim).Some? && t < n
    requires var s, r := Run(n, run, lim).value, Run(n, run + more, lim).value;
             Owner(s.threads[t]) && s.threads[t].event !in r.core.signalled
    ensures var s, r := Run(n, run, lim).value, Run(n, run + more, lim).value;
            && Owner(r.threads[t]) && r.threads[t].event == s.threads[t].event
            && OwnerMeasure(r.core, r.threads[t]) + OwnSteps(more, t) <= OwnerMeasure(s.core, s.threads[t])
    decreases |more|
  {
    if more == [] {
      assert run + more == run;
    } else {
      var prior := more[..|more| - 1];
      LastStep(n, run, more, lim);
      OwnerRun(n, run, prior, lim, t);
      OwnerMeasureFalls(Run(n, run + prior, lim).value, more[|more| - 1], lim, t);
    }
  }

  /** An owner sets its event within five steps of its own, and three more for each change of the
      generation since the one it had captured. */
  lemma OwnerSignalsWithin(n: nat, run: seq<Event>, more: seq<Event>, lim: Limits, t: nat)
    requires Run(n, run, lim).Some? && Run(n, run + more, lim).Some? && t < n
    requires Owner(Run(n, run, lim).value.threads[t])
    ensures var s, r := Run(n, run, lim).value, Run(n, run + more, lim).value;
            OwnSteps(more, t) > 5 + 3 * (r.core.generation - Captured(s.core, s.threads[t])) ==>
              s.threads[t].event in r.core.signalled
  {
    var s, r := Run(n, run, lim).value, Run(n, run + more, lim).value;
    if s.threads[t].event !in r.core.signalled {
      OwnerRun(n, run, more, lim, t);
      Invariants(n, run + more, lim);
      assert PcOk(r.core, r.compiler, t, r.threads[t]);
    }
  }

  lemma WaitedOwner(s: State, t: nat) returns (u: nat)
    requires EventInv(s) && t < |s.threads| && s.threads[t].Waiting? && s.threads[t].event !in s.core.signalled
    ensures u < |s.threads| && u != t && Owner(s.threads[u]) && s.threads[u].event == s.threads[t].event
  {
    var ev := s.threads[t].event;
    assert Announced(s.core, ev);
    var k :| k in s.core.inflight && s.core.inflight[k] == ev;
    var v :| 0 <= v < |s.threads| && Owns(s.threads[v], k, ev);
    u := v;
  }

  /** Whoever waits on an unset event waits on another thread, and on no more than that many of its
      steps: once the generation rests, every waiter can wake. */
  lemma WaiterWakesWithin(n: nat, run: seq<Event>, more: seq<Event>, lim: Limits, t: nat) returns (u: nat)
    requires Run(n, run, lim).Some? && Run(n, run + more, lim).Some? && t < n
    requires var s := Run(n, run, lim).value; s.threads[t].Waiting? && s.threads[t].event !in s.core.signalled
    ensures var s, r := Run(n, run, lim).value, Run(n, run + more, lim).value;
            && u < n && u != t && Owner(s.threads[u]) && s.threads[u].event == s.threads[t].event
            && (OwnSteps(more, u) > 5 + 3 * (r.core.generation - Captured(s.core, s.threads[u])) ==>
                  s.threads[t].event in r.core.signalled)
  {
    Invariants(n, run, lim);
    u := WaitedOwner(Run(n, run, lim).value, t);
    OwnerSignalsWithin(n, run, more, lim, u);
  }

  // ---- freshness ----

  /** Whatever a launch can find published was compiled for the current generation and for the
      current literal positions. */
  lemma NoStalePublication(n: nat, run: seq<Event>, lim: Limits)
    requires Run(n, run, lim).Some?
    ensures var c := Run(n, run, lim).value.core;
            forall e :: e in c.overloads ==> e.1.generation == c.generation && e.1.literals == c.literals
  {
    Invariants(n, run, lim);
  }

  lemma {:induction false} GenerationGrows(n: nat, run: seq<Event>, more: seq<Event>, lim: Limits)
    requires Run(n, run + more, lim).Some?
    ensures Run(n, run, lim).Some?
    ensures Evolves(Run(n, run, lim).value.core, Run(n, run + more, lim).value.core)
  {
    if more == [] {
      assert run + more == run;
    } else {
      var prior := more[..|more| - 1];
      LastStep(n, run, more, lim);
      GenerationGrows(n, run, prior, lim);
      StepFresh(Run(n, run + prior, lim).value, more[|more| - 1], lim);
    }
  }

  /** Once recompile() or literal recording has happened, nothing compiled by an attempt that
      captured its generation before is visible, then or ever after. */
  lemma NeverVisibleAgain(n: nat, run: seq<Event>, more: seq<Event>, lim: Limits, earlier: Compiled)
    requires Run(n, run, lim).Some? && Run(n, run + more, lim).Some?
    requires earlier.generation <= Run(n, run, lim).value.core.generation
    requires var s, r := Run(n, run, lim).value, Run(n, run + more, lim).value;
             s.core.generation != r.core.generation
    ensures forall e :: e in Run(n, run + more, lim).value.core.overloads ==> e.1 != earlier
  {
    GenerationGrows(n, run, more, lim);
    Invariants(n, run + more, lim);
  }

  /** Every cached marshaller was built for what is current now. */
  lemma CachedMarshallersFresh(n: nat, run: seq<Event>, lim: Limits)
    requires Run(n, run, lim).Some?
    ensures var c := Run(n, run, lim).value.core;
            forall e :: e in c.cache ==>
              && (e.0.enabled ==> e.1.generation == Some(c.generation))
              && (!e.0.enabled ==> e.1.native == c.current)
              && e.1.native.literals == c.literals
  {
    Invariants(n, run, lim);
  }

  /** Every native dispatcher a launch can look up was built for the current literal positions,
      although it was constructed outside the lock. */
  lemma RegisteredNativesFresh(n: nat, run: seq<Event>, lim: Limits)
    requires Run(n, run, lim).Some?
    ensures var c := Run(n, run, lim).value.core;
            && c.current.literals == c.literals
            && forall e :: e in c.table ==> e.1.literals == c.literals
  {
    Invariants(n, run, lim);
    var c := Run(n, run, lim).value.core;
    forall e | e in c.table ensures e.1.literals == c.literals {
      var i :| 0 <= i < |c.table| && c.table[i] == e;
      assert Values(c.table)[i] == e.1;
    }
  }

  /** The (dispatcher, generation) pair a fetch returns is registered under the launch key and
      current at the locked return point. */
  lemma FetchedIsRegistered(n: nat, run: seq<Event>, lim: Limits, t: nat)
    requires Run(n, run + [Event(t, StepFetch)], lim).Some? && Run(n, run, lim).Some?
    ensures t < n
    ensures var pc := Run(n, run, lim).value.threads[t];
            var r := Run(n, run + [Event(t, StepFetch)], lim).value;
            && (pc.Fetching? || pc.Rebinding?)
            && (r.threads[t].Built? || r.threads[t].Holding? ==>
                  && Get(r.core.table, pc.call.key.launch) == Some(r.threads[t].m.native)
                  && r.threads[t].m.generation == Some(r.core.generation))
  {
    var all := run + [Event(t, StepFetch)];
    assert all[..|all| - 1] == run;
    Invariants(n, run, lim);
    var s := Run(n, run, lim).value;
    var pc := s.threads[t];
    assert PcOk(s.core, s.compiler, t, pc);
    FetchDone(s.core, pc.call.key.launch, pc.fetch, lim);
  }

  lemma FetchDone(s: Core, k: LaunchKey, f: Fetch, lim: Limits)
    requires CoreOk(s, lim) && FetchOk(s, f)
    ensures var (r, n) := AdvanceFetch(s, k, f, lim);
            n.Done? ==> Get(r.table, k) == Some(n.m.native) && n.m.generation == Some(r.generation)
  {
    match f {
      case Looking => LookupOk(s, k, lim);
      case Making(_) =>
      case Inserting(g, native) => InsertOk(s, k, g, native, lim);
    }
  }

  // ---- bounded tables and conservation ----

  /** Both tables hold exactly their most recently used keys, and never exceed their caps. */
  lemma TablesAreLru(n: nat, run: seq<Event>, lim: Limits)
    requires Run(n, run, lim).Some?
    ensures var c := Run(n, run, lim).value.core;
            && LruOk(Keys(c.table), c.tableUses, LAUNCH_CONFIG_CACHE_SIZE)
            && LruOk(Keys(c.cache), c.cacheUses, CONFIGURE_CACHE_SIZE)
            && |c.table| <= 256 && |c.cache| <= 128
  {
    Invariants(n, run, lim);
    var c := Run(n, run, lim).value.core;
    assert |Keys(c.table)| == |c.table| && |Keys(c.cache)| == |c.cache|;
  }

  /** No native dispatcher is lost: each registration is in the table, is the default one, or was
      retired; and the retained list holds exactly the latest retirements, up to its limit. */
  lemma DispatchersConserved(n: nat, run: seq<Event>, lim: Limits)
    requires Run(n, run, lim).Some?
    ensures var c := Run(n, run, lim).value.core;
            && multiset(c.registered) == multiset(Values(c.table)) + multiset{c.current} + multiset(c.retired)
            && |c.retained| == (if lim.retain < 0 then 0 else if lim.retain < |c.retired| then lim.retain
                                else |c.retired|)
            && c.retained == c.retired[|c.retired| - |c.retained|..]
  {
    Invariants(n, run, lim);
  }

  // ---- _compile_impl ----

  lemma SubsetCard(a: set<nat>, n: nat)
    requires forall p :: p in a ==> p < n
    ensures |a| <= n
    decreases n
  {
    if n > 0 {
      SubsetCard(a - {n - 1}, n - 1);
      assert a <= (a - {n - 1}) + {n - 1};
    } else {
      assert a == {};
    }
  }

  /** _compile_impl activates itself at most params + STALE_RETRY_LIMIT times below the first. */
  lemma RecursionDepth(n: nat, run: seq<Event>, lim: Limits, t: nat)
    requires Run(n, run, lim).Some? && t < n && Run(n, run, lim).value.threads[t].Compile?
    ensures Run(n, run, lim).value.threads[t].attempt.depth <= lim.params + 8
  {
    Invariants(n, run, lim);
    var s := Run(n, run, lim).value;
    assert PcOk(s.core, s.compiler, t, s.threads[t]);
    SubsetCard(s.core.literals, lim.params);
  }

  function PhaseRank(p: Phase): nat {
    match p
    case Snapshotting => 5
    case Capturing(_, _) => 4
    case Finding(_, _, _) => 3
    case Compiling(_, _, _) => 2
    case Recording(_, _) => 1
    case Publishing(_, _, _, _) => 1
  }

  /** How many steps a compile attempt can still take. */
  function CompileRank(s: State, t: nat, lim: Limits): int
    requires t < |s.threads|
  {
    match s.threads[t]
    case Compile(a, p) => 6 * (lim.params - |s.core.literals| + a.budget) + PhaseRank(p)
    case _ => 0
  }

  lemma OwnCompileStep(s: Core, t: nat, a: Attempt, p: Phase, o: Outcome, lim: Limits)
    requires CoreOk(s, lim) && PcOk(s, Some(t), t, Compile(a, p))
    ensures var (r, next) := StepAttempt(s, a, p, o, lim);
            next.Some? ==>
              6 * (next.value.0.budget - |r.literals|) + PhaseRank(next.value.1) <
              6 * (a.budget - |s.literals|) + PhaseRank(p)
  {
    if p.Recording? { RecordingOk(s, t, a, p, lim); }
  }

  /** Compilation terminates whatever the other threads do: its rank is never negative, no other
      thread raises it, and every step of its own lowers it. */
  lemma CompilationTerminates(s: State, e: Event, lim: Limits, t: nat)
    requires FreshInv(s, lim) && Step(s, e, lim).Some? && t < |s.threads| && s.threads[t].Compile?
    ensures CompileRank(s, t, lim) > 0
    ensures var r := Step(s, e, lim).value;
            if e.thread == t then CompileRank(r, t, lim) < CompileRank(s, t, lim)
            else CompileRank(r, t, lim) == CompileRank(s, t, lim)
  {
    SubsetCard(s.core.literals, lim.params);
    assert PcOk(s.core, s.compiler, t, s.threads[t]);
    if e.thread == t {
      var pc := s.threads[t];
      assert e.action.StepCompile?;
      OwnCompileStep(s.core, t, pc.attempt, pc.phase, e.action.outcome, lim);
    } else {
      StepFresh(s, e, lim);
    }
  }
}
