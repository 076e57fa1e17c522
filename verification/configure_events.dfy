/** Ownership of configure()'s in-flight events over every run of the dispatcher protocol. */
module ConfigureEvents {
  import opened Lru
  import opened DispatcherState
  import opened DispatcherInvariant
  import opened DispatcherProtocol

  predicate Owner(pc: Pc) {
    pc.Starting? || pc.Fetching? || pc.Built? || pc.Unwinding?
  }

  /** Thread state pc is building the marshaller that event announces for key. */
  predicate Owns(pc: Pc, key: ConfigureKey, event: nat) {
    Owner(pc) && pc.call.key == key && pc.event == event
  }

  ghost predicate HasOwner(threads: seq<Pc>, key: ConfigureKey, event: nat) {
    exists t :: 0 <= t < |threads| && Owns(threads[t], key, event)
  }

  /** Registered events are unset and owned; an owner's unset event is registered under its own
      key; no event has two owners; every event ever created is set or registered. */
  ghost predicate EventInv(s: State) {
    && (forall k :: k in s.core.inflight ==>
          && s.core.inflight[k] < s.core.events
          && s.core.inflight[k] !in s.core.signalled
          && HasOwner(s.threads, k, s.core.inflight[k]))
    && (forall t :: 0 <= t < |s.threads| && Owner(s.threads[t]) ==> OwnerOk(s.core, s.threads[t]))
    && (forall t, u :: 0 <= t < u < |s.threads| && Owner(s.threads[t]) && Owner(s.threads[u]) ==>
          s.threads[t].event != s.threads[u].event)
    && (forall ev :: 0 <= ev < s.core.events ==> Announced(s.core, ev))
    && (forall t :: 0 <= t < |s.threads| && s.threads[t].Waiting? ==> s.threads[t].event < s.core.events)
    && (forall ev :: ev in s.core.signalled ==> ev < s.core.events)
  }

  ghost predicate OwnerOk(s: Core, pc: Pc)
    requires Owner(pc)
  {
    && pc.event < s.events
    && (pc.event !in s.signalled ==> pc.call.key in s.inflight && s.inflight[pc.call.key] == pc.event)
  }

  ghost predicate Announced(s: Core, ev: nat) {
    ev in s.signalled || exists k :: k in s.inflight && s.inflight[k] == ev
  }

  predicate SameEvents(s: Core, r: Core) {
    s.inflight == r.inflight && s.signalled == r.signalled && s.events == r.events
  }

  // ---- the four ways an action touches events ----

  /** Leaves events alone; the thread keeps its ownership. */
  lemma QuietStep(s: State, t: nat, core: Core, compiler: Option<nat>, pc: Pc)
    requires EventInv(s) && t < |s.threads| && SameEvents(s.core, core)
    requires Owner(pc) <==> Owner(s.threads[t])
    requires Owner(pc) ==> Owns(pc, s.threads[t].call.key, s.threads[t].event)
    requires pc.Waiting? ==> pc.event < core.events
    ensures EventInv(State(core, compiler, s.threads[t := pc]))
  {
    var r := State(core, compiler, s.threads[t := pc]);
    forall k | k in core.inflight ensures HasOwner(r.threads, k, core.inflight[k]) {
      var u :| 0 <= u < |s.threads| && Owns(s.threads[u], k, core.inflight[k]);
      assert Owns(r.threads[u], k, core.inflight[k]);
    }
    assert forall ev :: 0 <= ev < core.events && Announced(s.core, ev) ==> Announced(core, ev);
  }

  /** A thread that owns nothing moves on: every registered event keeps its owner. */
  lemma OwnerStays(s: State, t: nat, pc: Pc, k: ConfigureKey)
    requires t < |s.threads| && !Owner(s.threads[t])
    requires k in s.core.inflight && HasOwner(s.threads, k, s.core.inflight[k])
    ensures HasOwner(s.threads[t := pc], k, s.core.inflight[k])
  {
    var u :| 0 <= u < |s.threads| && Owns(s.threads[u], k, s.core.inflight[k]);
    assert Owns(s.threads[t := pc][u], k, s.core.inflight[k]);
  }

  lemma AnnouncementStays(s: Core, r: Core, key: ConfigureKey, ev: nat)
    requires key !in s.inflight && r.inflight == s.inflight[key := s.events] && r.signalled == s.signalled
    requires Announced(s, ev)
    ensures Announced(r, ev)
  {
    if ev !in s.signalled {
      var k :| k in s.inflight && s.inflight[k] == ev;
      assert r.inflight[k] == ev;
    }
  }

  /** Creates and registers an event for a key that had none. */
  lemma OpenStep(s: State, t: nat, core: Core, compiler: Option<nat>, pc: Pc)
    requires EventInv(s) && t < |s.threads| && !Owner(s.threads[t]) && Owner(pc) && pc.event == s.core.events
    requires pc.call.key !in s.core.inflight
    requires core.inflight == s.core.inflight[pc.call.key := s.core.events]
    requires core.signalled == s.core.signalled && core.events == s.core.events + 1
    ensures EventInv(State(core, compiler, s.threads[t := pc]))
  {
    var r := State(core, compiler, s.threads[t := pc]);
    forall k | k in core.inflight ensures HasOwner(r.threads, k, core.inflight[k]) {
      if k == pc.call.key {
        assert Owns(r.threads[t], k, s.core.events);
      } else {
        OwnerStays(s, t, pc, k);
      }
    }
    forall ev | 0 <= ev < core.events ensures Announced(core, ev) {
      if ev == s.core.events {
        assert core.inflight[pc.call.key] == ev;
      } else {
        AnnouncementStays(s.core, core, pc.call.key, ev);
      }
    }
    forall u | 0 <= u < |r.threads| && Owner(r.threads[u]) ensures OwnerOk(core, r.threads[u]) {
      if u != t { assert OwnerOk(s.core, s.threads[u]); }
    }
  }

  /** An owner gives up: it deregisters its event if still registered, and sets it. */
  lemma CloseStep(s: State, t: nat, core: Core, compiler: Option<nat>, pc: Pc)
    requires EventInv(s) && t < |s.threads| && Owner(s.threads[t]) && !Owner(pc) && !pc.Waiting?
    requires SameEvents(Close(s.core, s.threads[t].call.key, s.threads[t].event), core)
    ensures EventInv(State(core, compiler, s.threads[t := pc]))
  {
    var r := State(core, compiler, s.threads[t := pc]);
    var key, event := s.threads[t].call.key, s.threads[t].event;
    forall k | k in core.inflight
      ensures core.inflight[k] !in core.signalled && HasOwner(r.threads, k, core.inflight[k])
    {
      var u :| 0 <= u < |s.threads| && Owns(s.threads[u], k, s.core.inflight[k]);
      assert u != t;
      assert Owns(r.threads[u], k, core.inflight[k]);
    }
    forall ev | 0 <= ev < core.events ensures Announced(core, ev) {
      assert Announced(s.core, ev);
      if ev !in core.signalled {
        var k :| k in s.core.inflight && s.core.inflight[k] == ev;
        assert k in core.inflight && core.inflight[k] == ev;
      }
    }
    forall u | 0 <= u < |r.threads| && Owner(r.threads[u]) ensures OwnerOk(core, r.threads[u]) {
      assert OwnerOk(s.core, s.threads[u]);
    }
  }

  /** Deregisters and sets every registered event. */
  lemma FlushStep(s: State, t: nat, core: Core, compiler: Option<nat>, pc: Pc)
    requires EventInv(s) && t < |s.threads| && !Owner(s.threads[t]) && !Owner(pc) && !pc.Waiting?
    requires core.inflight == map[] && core.events == s.core.events
    requires core.signalled == s.core.signalled + s.core.inflight.Values
    ensures EventInv(State(core, compiler, s.threads[t := pc]))
  {
    var r := State(core, compiler, s.threads[t := pc]);
    forall ev | 0 <= ev < core.events ensures Announced(core, ev) {
      assert Announced(s.core, ev);
    }
    forall u | 0 <= u < |r.threads| && Owner(r.threads[u]) ensures OwnerOk(core, r.threads[u]) {
      assert OwnerOk(s.core, s.threads[u]);
    }
  }

  // ---- which actions are which ----

  lemma EvictEvents(s: Core, lim: Limits)
    ensures SameEvents(s, EvictOverflow(s, lim))
    decreases |s.table|
  {
    if |s.table| > LAUNCH_CONFIG_CACHE_SIZE {
      var oldest := s.table[0];
      var r := Retain(s.(table := s.table[1..]), oldest.1, lim);
      EvictEvents(r.(overloads := DropKey(r.overloads, oldest.0)), lim);
    }
  }

  lemma RememberEvents(s: Core, k: LaunchKey, n: Native, replaceExisting: bool, lim: Limits)
    ensures SameEvents(s, Remember(s, k, n, replaceExisting, lim).0)
  {
    if Get(s.table, k).None? {
      EvictEvents(
        s.(table := Put(s.table, k, n), tableUses := s.tableUses + [k], registered := s.registered + [n]), lim);
    }
  }

  lemma FetchEvents(s: Core, k: LaunchKey, f: Fetch, lim: Limits)
    ensures SameEvents(s, AdvanceFetch(s, k, f, lim).0)
  {
    if f.Inserting? { RememberEvents(s, k, f.native, true, lim); }
  }

  lemma InvalidateEvents(s: Core, literals: set<nat>, lim: Limits)
    ensures Flushed(s, Invalidate(s, literals, lim))
  {
    RetainAllFacts(Rebuild(Bump(s), literals), [s.current] + Values(s.table), lim);
  }

  predicate Flushed(s: Core, r: Core) {
    r.inflight == map[] && r.events == s.events && r.signalled == s.signalled + s.inflight.Values
  }

  predicate Quiet(s: Core, pc: Pc, r: Core, q: Pc) {
    && SameEvents(s, r)
    && (if Owner(pc) then Owns(q, pc.call.key, pc.event) else !Owner(q))
    && (q.Waiting? ==> q == pc || (q.call.key in s.inflight && s.inflight[q.call.key] == q.event))
  }

  predicate Opened(s: Core, pc: Pc, r: Core, q: Pc) {
    && !Owner(pc) && Owner(q) && q.event == s.events && q.call.key !in s.inflight
    && r.inflight == s.inflight[q.call.key := s.events]
    && r.signalled == s.signalled && r.events == s.events + 1
  }

  predicate Closed(s: Core, pc: Pc, r: Core, q: Pc) {
    Owner(pc) && !Owner(q) && !q.Waiting? && SameEvents(Close(s, pc.call.key, pc.event), r)
  }

  /** The effect of an action on events, as seen by the thread that takes it. */
  predicate Effect(s: Core, pc: Pc, r: Core, q: Pc) {
    || Quiet(s, pc, r, q)
    || Opened(s, pc, r, q)
    || Closed(s, pc, r, q)
    || (Flushed(s, r) && !Owner(pc) && !Owner(q) && !q.Waiting?)
  }

  lemma ConfigureEffect(s: Core, pc: Pc, a: Action, lim: Limits)
    requires StepConfigure(s, pc, a, lim).Some?
    ensures var (r, q) := StepConfigure(s, pc, a, lim).value; Effect(s, pc, r, q)
  {
    if pc.Fetching? { FetchEvents(s, pc.call.key.launch, pc.fetch, lim); }
  }

  lemma HolderEffect(s: Core, pc: Pc, a: Action, lim: Limits)
    requires StepHolder(s, pc, a, lim).Some?
    ensures var (r, q) := StepHolder(s, pc, a, lim).value; Effect(s, pc, r, q)
  {
    match pc {
      case Rebinding(c, f) => FetchEvents(s, c.key.launch, f, lim);
      case Holding(c, m) => RememberEvents(s, c.key.launch, m.native, false, lim);
      case _ =>
    }
  }

  lemma AttemptEffect(s: Core, a: Attempt, p: Phase, o: Outcome, lim: Limits)
    ensures var r := StepAttempt(s, a, p, o, lim).0; SameEvents(s, r) || Flushed(s, r)
  {
    if p.Recording? {
      var v := ValidRequest(a, p.request, lim);
      if v.Some? { InvalidateEvents(s, s.literals + v.value, lim); }
    }
  }

  lemma ActEffect(s: State, t: nat, pc: Pc, a: Action, lim: Limits)
    requires Act(s, t, pc, a, lim).Some?
    ensures var l := Act(s, t, pc, a, lim).value; Effect(s.core, pc, l.core, l.pc)
  {
    if a.StepCompile? {
      AttemptEffect(s.core, pc.attempt, pc.phase, a.outcome, lim);
    } else if StepConfigure(s.core, pc, a, lim).Some? {
      ConfigureEffect(s.core, pc, a, lim);
    } else if StepHolder(s.core, pc, a, lim).Some? {
      HolderEffect(s.core, pc, a, lim);
    } else {
      InvalidateEvents(s.core, s.core.literals, lim);
    }
  }

  lemma StepEvents(s: State, e: Event, lim: Limits)
    requires EventInv(s) && Step(s, e, lim).Some?
    ensures EventInv(Step(s, e, lim).value)
  {
    var t := e.thread;
    var pc := s.threads[t];
    var l := Act(s, t, pc, e.action, lim).value;
    ActEffect(s, t, pc, e.action, lim);
    if Quiet(s.core, pc, l.core, l.pc) {
      QuietStep(s, t, l.core, l.compiler, l.pc);
    } else if Opened(s.core, pc, l.core, l.pc) {
      OpenStep(s, t, l.core, l.compiler, l.pc);
    } else if Closed(s.core, pc, l.core, l.pc) {
      CloseStep(s, t, l.core, l.compiler, l.pc);
    } else {
      FlushStep(s, t, l.core, l.compiler, l.pc);
    }
  }
}
