/** When configure() succeeds: in its last locked section, and over every run. */
module ConfigureOutcomes {
  import opened Lru
  import opened NumbaTypes
  import opened DispatcherState
  import opened DispatcherInvariant
  import opened DispatcherProtocol
  import opened ConfigureEvents
  import opened DispatcherTheorems

  // ---- the last section ----

  /** m was built for what is current now: the generation for a launch-enabled key, the default
      dispatcher for a plain one. */
  predicate BuiltForNow(s: Core, enabled: bool, m: Marshaller) {
    (enabled && m.generation == Some(s.generation)) || (!enabled && m.native == s.current)
  }

  lemma {:induction false} TrimmedTail<K, V>(d: seq<(K, V)>, cap: nat)
    ensures |TrimOldest(d, cap)| == (if |d| < cap then |d| else cap)
    ensures TrimOldest(d, cap) == d[|d| - |TrimOldest(d, cap)|..]
    decreases |d|
  {
    if |d| > cap { TrimmedTail(d[1..], cap); }
  }

  lemma FoundAt<K, V>(d: seq<(K, V)>, key: K, i: nat)
    requires i < |d| && d[i].0 == key && forall j :: 0 <= j < i ==> d[j].0 != key
    ensures Get(d, key) == Some(d[i].1)
  {
  }

  /** A marshaller that is stored can be found. */
  lemma StoredIsFound(s: Core, key: ConfigureKey, m: Marshaller)
    requires Get(s.cache, key).None?
    ensures Get(StoreMarshaller(s, key, m).cache, key) == Some(m)
  {
    var c := s.cache + [(key, m)];
    TrimmedTail(c, CONFIGURE_CACHE_SIZE);
    var r := TrimOldest(c, CONFIGURE_CACHE_SIZE);
    assert forall j :: 0 <= j < |r| ==> r[j] == c[j + |c| - |r|];
    FoundAt(r, key, |r| - 1);
  }

  /** The outcome of the last section: a marshaller cached meanwhile is returned; a marshaller built for
      what is current now is cached and returned; any other leads to another attempt, or to an error at
      the retry limit. */
  lemma ConfigureFinishExact(s: Core, key: ConfigureKey, event: nat, m: Marshaller, staleRetries: nat)
    ensures var (r, f) := ConfigureFinish(s, key, event, m, staleRetries);
            && event in r.signalled
            && (Get(s.cache, key).Some? ==> f == Return(Get(s.cache, key).value))
            && (Get(s.cache, key).None? && BuiltForNow(s, key.enabled, m) ==>
                  f == Return(m) && Get(r.cache, key) == Some(m))
            && (Get(s.cache, key).None? && !BuiltForNow(s, key.enabled, m) ==>
                  f == (if staleRetries + 1 < 8 then Retry else Raise) && r.cache == s.cache)
  {
    if Get(s.cache, key).None? { StoredIsFound(s, key, m); }
  }

  // ---- what an undisturbed owner holds ----

  /** What the owner of an event has captured so far is current. */
  predicate UpToDate(s: Core, pc: Pc) {
    match pc
    case Fetching(_, _, Making(g)) => g == s.generation
    case Fetching(_, _, Inserting(g, _)) => g == s.generation
    case Built(c, _, m) => BuiltForNow(s, c.key.enabled, m)
    case _ => true
  }

  /** Actions of configure() on an enabled key that finds launch configs switched off, or on any key
      whose build raises an exception. */
  predicate Disturbs(a: Action, enabled: bool) {
    a.BuildFails? || (a.ReadCurrent? && enabled && !a.enabledNow)
  }

  /** An owner's own step, if nothing disturbs it, keeps it up to date; its last step returns. */
  lemma OwnStepUpToDate(s: Core, pc: Pc, a: Action, lim: Limits)
    requires CoreOk(s, lim) && Owner(pc) && !pc.Unwinding? && UpToDate(s, pc) && !Disturbs(a, pc.call.key.enabled)
    requires (pc.Fetching? ==> FetchOk(s, pc.fetch) && pc.call.key.enabled) && StepConfigure(s, pc, a, lim).Some?
    ensures var (r, q) := StepConfigure(s, pc, a, lim).value;
            && (if q.Holding? then q.call == pc.call && BuiltOrCached(s, pc, q.m)
                else Owner(q) && !q.Unwinding? && q.event == pc.event && q.call.key == pc.call.key
                     && q.call.retries == pc.call.retries && UpToDate(r, q) && StepsLeft(q) < StepsLeft(pc))
  {
    if pc.Fetching? {
      AdvanceFetchOk(s, pc.call.key.launch, pc.fetch, lim);
      FetchUpToDate(s, pc.call.key.launch, pc.fetch, lim);
    }
    if pc.Built? { ConfigureFinishExact(s, pc.call.key, pc.event, pc.m, pc.call.retries); }
  }

  /** A finished configure() holds the marshaller it built or one that was cached meanwhile. */
  predicate BuiltOrCached(s: Core, pc: Pc, m: Marshaller) {
    pc.Built? && (m == pc.m || Get(s.cache, pc.call.key) == Some(m))
  }

  function StepsLeft(pc: Pc): nat {
    match pc
    case Starting(_, _) => 5
    case Fetching(_, _, Looking) => 4
    case Fetching(_, _, Making(_)) => 3
    case Fetching(_, _, Inserting(_, _)) => 2
    case Built(_, _, _) => 1
    case _ => 0
  }

  lemma FetchUpToDate(s: Core, k: LaunchKey, f: Fetch, lim: Limits)
    requires CoreOk(s, lim) && FetchOk(s, f)
    ensures var (r, n) := AdvanceFetch(s, k, f, lim);
            && r.generation == s.generation
            && (f.Inserting? && f.generation == s.generation ==> n.Done?)
            && (n.Done? ==> n.m.generation == Some(s.generation))
            && (n.More? && n.fetch.Making? ==> n.fetch.generation == s.generation)
            && (n.More? && n.fetch.Inserting? ==> f.Making? && n.fetch.generation == f.generation)
  {
    AdvanceFetchOk(s, k, f, lim);
  }

  // ---- the default dispatcher ----

  lemma {:induction false} EvictKeepsCurrent(s: Core, lim: Limits)
    ensures EvictOverflow(s, lim).current == s.current
    decreases |s.table|
  {
    if |s.table| > LAUNCH_CONFIG_CACHE_SIZE {
      var r := Retain(s.(table := s.table[1..]), s.table[0].1, lim);
      EvictKeepsCurrent(r.(overloads := DropKey(r.overloads, s.table[0].0)), lim);
    }
  }

  lemma RememberKeepsCurrent(s: Core, k: LaunchKey, n: Native, replaceExisting: bool, lim: Limits)
    ensures Remember(s, k, n, replaceExisting, lim).0.current == s.current
  {
    if Get(s.table, k).None? {
      EvictKeepsCurrent(s.(table := Put(s.table, k, n), tableUses := s.tableUses + [k],
                           registered := s.registered + [n]), lim);
    }
  }

  lemma FetchKeepsCurrent(s: Core, k: LaunchKey, f: Fetch, lim: Limits)
    ensures AdvanceFetch(s, k, f, lim).0.current == s.current
  {
    if f.Inserting? { RememberKeepsCurrent(s, k, f.native, true, lim); }
  }

  /** The default dispatcher is replaced only together with the generation. */
  lemma CurrentKept(s: State, e: Event, lim: Limits)
    requires FreshInv(s, lim) && Step(s, e, lim).Some?
    requires Step(s, e, lim).value.core.generation == s.core.generation
    ensures Step(s, e, lim).value.core.current == s.core.current
  {
    var pc := s.threads[e.thread];
    if pc.Fetching? || pc.Rebinding? { FetchKeepsCurrent(s.core, pc.call.key.launch, pc.fetch, lim); }
    if pc.Holding? && pc.m.generation.Some? {
      RememberKeepsCurrent(s.core, pc.call.key.launch, pc.m.native, false, lim);
    }
    if pc.Compile? && pc.phase.Recording? { RecordingKeepsCurrent(s.core, pc.attempt, pc.phase, lim); }
    if e.action.RecompileAll? { InvalidateShape(s.core, s.core.literals, lim); }
  }

  lemma RecordingKeepsCurrent(s: Core, a: Attempt, p: Phase, lim: Limits)
    requires CoreOk(s, lim) && p.Recording?
    ensures var r := StepAttempt(s, a, p, Proceed, lim).0; r.generation == s.generation ==> r.current == s.current
  {
    var v := ValidRequest(a, p.request, lim);
    if v.Some? { InvalidateShape(s, s.literals + v.value, lim); }
  }

  // ---- an undisturbed call ----

  /** Actions of one call of configure(). */
  predicate OfConfigure(a: Action) {
    a.Enter? || a.Wake? || a.ReadCurrent? || a.StepFetch? || a.BuildFails? || a.Finish? || a.Unwind?
  }

  /** Where a call of configure() can be if nothing has disturbed it: it has not retried, and what it
      holds is current. */
  ghost predicate OnTrack(s: Core, key: ConfigureKey, retries: nat, pc: Pc) {
    || ((pc.Entering? || pc.Waiting?) && pc.call.key == key && pc.call.retries == retries)
    || (Owner(pc) && !pc.Unwinding? && pc.call.key == key && pc.call.retries == retries && UpToDate(s, pc))
    || (pc.Holding? && pc.call.key == key && BuiltForNow(s, key.enabled, pc.m))
  }

  lemma CachedIsFresh(s: Core, key: ConfigureKey, lim: Limits)
    requires CoreOk(s, lim) && Get(s.cache, key).Some?
    ensures BuiltForNow(s, key.enabled, Get(s.cache, key).value)
  {
    assert s.cache[IndexOf(s.cache, key)] in s.cache;
  }

  lemma OnTrackOwnStep(s: State, t: nat, a: Action, lim: Limits, key: ConfigureKey, retries: nat)
    requires FreshInv(s, lim) && t < |s.threads| && OnTrack(s.core, key, retries, s.threads[t])
    requires OfConfigure(a) && !Disturbs(a, key.enabled) && Step(s, Event(t, a), lim).Some?
    ensures var r := Step(s, Event(t, a), lim).value;
            && OnTrack(r.core, key, retries, r.threads[t])
            && (Owner(s.threads[t]) ==> StepsLeft(r.threads[t]) < StepsLeft(s.threads[t]) &&
                                        (Owner(r.threads[t]) || r.threads[t].Holding?))
            && !s.threads[t].Holding?
  {
    var pc := s.threads[t];
    assert PcOk(s.core, s.compiler, t, pc);
    if Owner(pc) {
      OwnStepUpToDate(s.core, pc, a, lim);
      if pc.Built? && Get(s.core.cache, key).Some? { CachedIsFresh(s.core, key, lim); }
      OwnStepKeeps(s.core, pc, a, lim);
    } else if pc.Entering? {
      if Get(s.core.cache, key).Some? { CachedIsFresh(s.core, key, lim); }
    }
  }

  lemma OwnStepKeeps(s: Core, pc: Pc, a: Action, lim: Limits)
    requires CoreOk(s, lim) && Owner(pc) && (pc.Fetching? ==> FetchOk(s, pc.fetch))
    requires StepConfigure(s, pc, a, lim).Some?
    ensures var r := StepConfigure(s, pc, a, lim).value.0; r.generation == s.generation && r.current == s.current
  {
    if pc.Fetching? {
      AdvanceFetchOk(s, pc.call.key.launch, pc.fetch, lim);
      FetchKeepsCurrent(s, pc.call.key.launch, pc.fetch, lim);
    }
  }

  lemma OnTrackStays(s: Core, r: Core, key: ConfigureKey, retries: nat, pc: Pc)
    requires OnTrack(s, key, retries, pc) && r.generation == s.generation && r.current == s.current
    ensures OnTrack(r, key, retries, pc)
  {
  }

  /** All of thread t's events belong to its call of configure(), and none disturbs it. */
  ghost predicate Undisturbed(events: seq<Event>, t: nat, key: ConfigureKey) {
    forall e :: e in events && e.thread == t ==> OfConfigure(e.action) && !Disturbs(e.action, key.enabled)
  }

  /** While the generation rests, an undisturbed call of configure() never retries and never fails: it
      waits, or builds something current, or holds a current marshaller. */
  lemma {:induction false} UndisturbedRun(n: nat, run: seq<Event>, more: seq<Event>, lim: Limits, t: nat,
        key: ConfigureKey, retries: nat)
    requires Run(n, run, lim).Some? && Run(n, run + more, lim).Some? && t < n && Undisturbed(more, t, key)
    requires OnTrack(Run(n, run, lim).value.core, key, retries, Run(n, run, lim).value.threads[t])
    requires Run(n, run + more, lim).value.core.generation == Run(n, run, lim).value.core.generation
    ensures var s, r := Run(n, run, lim).value, Run(n, run + more, lim).value;
            && OnTrack(r.core, key, retries, r.threads[t])
            && (Owner(s.threads[t]) ==>
                  && (Owner(r.threads[t]) || r.threads[t].Holding?)
                  && OwnSteps(more, t) + StepsLeft(r.threads[t]) <= StepsLeft(s.threads[t]))
    decreases |more|
  {
    if more == [] {
      assert run + more == run;
    } else {
      var prior, e := more[..|more| - 1], more[|more| - 1];
      LastStep(n, run, more, lim);
      GenerationGrows(n, run, prior, lim);
      var mid := Run(n, run + prior, lim).value;
      StepFresh(mid, e, lim);
      UndisturbedRun(n, run, prior, lim, t, key, retries);
      assert e in more;
      if e.thread == t {
        OnTrackOwnStep(mid, t, e.action, lim, key, retries);
      } else {
        CurrentKept(mid, e, lim);
        OnTrackStays(mid.core, Run(n, run + more, lim).value.core, key, retries, mid.threads[t]);
      }
    }
  }

  /** An owner that nothing disturbs returns a current marshaller within five steps of its own, and is
      never blocked before. */
  lemma UndisturbedReturns(n: nat, run: seq<Event>, more: seq<Event>, lim: Limits, t: nat)
    requires Run(n, run, lim).Some? && Run(n, run + more, lim).Some? && t < n
    requires Run(n, run, lim).value.threads[t].Starting?
    requires Undisturbed(more, t, Run(n, run, lim).value.threads[t].call.key)
    requires Run(n, run + more, lim).value.core.generation == Run(n, run, lim).value.core.generation
    ensures var s, r := Run(n, run, lim).value, Run(n, run + more, lim).value;
            var key, q := s.threads[t].call.key, r.threads[t];
            && OwnSteps(more, t) <= 5
            && (OwnSteps(more, t) == 5 ==> q.Holding?)
            && (q.Holding? ==> q.call.key == key && BuiltForNow(r.core, key.enabled, q.m))
            && (!q.Holding? ==> Owner(q) && Step(r, Event(t, OwnerAction(q)), lim).Some?)
  {
    var s := Run(n, run, lim).value;
    UndisturbedRun(n, run, more, lim, t, s.threads[t].call.key, s.threads[t].call.retries);
    var r := Run(n, run + more, lim).value;
    if Owner(r.threads[t]) { OwnerProgress(r, t, OwnerAction(r.threads[t]), lim); }
  }

  /** An owner retries or gives up only if the generation changed since it began, or its own build found
      launch configs switched off or raised an exception. */
  lemma RetryNeedsDisturbance(n: nat, run: seq<Event>, more: seq<Event>, lim: Limits, t: nat)
    requires Run(n, run, lim).Some? && Run(n, run + more, lim).Some? && t < n
    requires Run(n, run, lim).value.threads[t].Starting? && Run(n, run + more, lim).value.threads[t].Built?
    requires forall e :: e in more && e.thread == t ==> OfConfigure(e.action)
    requires var r := Run(n, run + more, lim).value;
             !Step(r, Event(t, Finish), lim).value.threads[t].Holding?
    ensures var s, r := Run(n, run, lim).value, Run(n, run + more, lim).value;
            || r.core.generation > s.core.generation
            || exists e :: e in more && e.thread == t && Disturbs(e.action, s.threads[t].call.key.enabled)
  {
    var s, r := Run(n, run, lim).value, Run(n, run + more, lim).value;
    GenerationGrows(n, run, more, lim);
    var key := s.threads[t].call.key;
    if r.core.generation == s.core.generation && Undisturbed(more, t, key) {
      UndisturbedRun(n, run, more, lim, t, key, s.threads[t].call.retries);
      Invariants(n, run + more, lim);
      OnTrackOwnStep(r, t, Finish, lim, key, s.threads[t].call.retries);
    }
  }

  /** configure() gives up, other than on an exception of its build, only after building eight
      marshallers. */
  lemma RaiseAfterEight(n: nat, run: seq<Event>, lim: Limits, t: nat)
    requires Run(n, run, lim).Some? && t < n && Run(n, run, lim).value.threads[t].Built?
    requires Step(Run(n, run, lim).value, Event(t, Finish), lim).value.threads[t].Aborted?
    ensures Run(n, run, lim).value.threads[t].call.builds == 8
  {
    Invariants(n, run, lim);
    var s := Run(n, run, lim).value;
    var pc := s.threads[t];
    assert PcOk(s.core, s.compiler, t, pc);
    ConfigureFinishExact(s.core, pc.call.key, pc.event, pc.m, pc.call.retries);
  }
}
