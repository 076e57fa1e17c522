/** What each critical section answers and changes, exactly. */
module DispatcherSections {
  import opened Lru
  import opened NumbaTypes
  import opened DispatcherState
  import opened DispatcherInvariant
  import opened DispatcherPublication
  import opened DispatcherProtocol

  /** r is d with the entry of k moved to the end. */
  ghost predicate Touched<K, V>(d: seq<(K, V)>, k: K, r: seq<(K, V)>) {
    r != [] && r[|r| - 1].0 == k && multiset(r) == multiset(d)
  }

  lemma MovedToEnd<K, V>(d: seq<(K, V)>, k: K)
    requires IndexOf(d, k) < |d|
    ensures Touched(d, k, MoveToEnd(d, k))
  {
    RotateElements(d, IndexOf(d, k));
  }

  /** A look-up answers what is registered, and makes its key the most recently used one. */
  lemma LookupExact(s: Core, k: LaunchKey)
    ensures var (r, n) := Lookup(s, k);
            && n == Get(s.table, k)
            && r == s.(table := r.table, tableUses := r.tableUses)
            && (if n.Some? then Touched(s.table, k, r.table) && r.tableUses == s.tableUses + [k] else r == s)
  {
    if IndexOf(s.table, k) < |s.table| { MovedToEnd(s.table, k); }
  }

  /** The second section of a fetch answers None exactly if the generation moved on, else what is
      registered, which is the dispatcher constructed meanwhile only where none was. */
  lemma InsertExact(s: Core, k: LaunchKey, generation: nat, n: Native, lim: Limits)
    requires CoreOk(s, lim) && (generation == s.generation ==> n.literals == s.literals)
    ensures var (r, m) := Insert(s, k, generation, n, lim);
            && (m.None? <==> generation != s.generation)
            && (m.None? ==> r == s)
            && (m.Some? ==> Get(r.table, k) == m && m == (if Get(s.table, k).Some? then Get(s.table, k) else Some(n)))
            && (m.Some? && Get(s.table, k).Some? ==>
                  Touched(s.table, k, r.table) && r.tableUses == s.tableUses + [k] && r.registered == s.registered)
  {
    InsertOk(s, k, generation, n, lim);
    if IndexOf(s.table, k) < |s.table| { MovedToEnd(s.table, k); }
  }

  /** One step of fetching: a registered dispatcher is the answer at once; otherwise one is constructed for
      the recorded positions, and it or the one registered meanwhile is the answer, unless the generation
      moved on and the fetch starts over. */
  lemma FetchExact(s: Core, k: LaunchKey, f: Fetch, lim: Limits)
    requires CoreOk(s, lim) && FetchOk(s, f)
    ensures var (r, n) := AdvanceFetch(s, k, f, lim);
            match f
            case Looking =>
              if Get(s.table, k).Some? then n == Done(Marshaller(Get(s.table, k).value, Some(s.generation)))
              else n == More(Making(s.generation)) && r == s
            case Making(g) => n == More(Inserting(g, Native(s.natives, s.literals))) && r == s.(natives := r.natives)
            case Inserting(g, native) =>
              if g != s.generation then n == More(Looking) && r == s
              else n.Done? && n.m.generation == Some(g) && Get(r.table, k) == Some(n.m.native)
                   && n.m.native == if Get(s.table, k).Some? then Get(s.table, k).value else native
  {
    if f.Looking? { LookupExact(s, k); }
    if f.Inserting? { InsertExact(s, k, f.generation, f.native, lim); }
  }

  /** A held marshaller is registered again unless the generation moved on or another dispatcher is
      registered under its launch key; in either case nothing changes. */
  lemma ReregisterExact(s: Core, c: Call, m: Marshaller, lim: Limits)
    requires CoreOk(s, lim) && MarshallerOk(s, m) && m.generation.Some?
    ensures var k := c.key.launch;
            var next := StepHolder(s, Holding(c, m), ReregisterHeld, lim);
            && next.Some? && next.value.1 == Holding(c, m)
            && (if m.generation == Some(s.generation) && (Get(s.table, k).None? || Get(s.table, k) == Some(m.native))
                then Get(next.value.0.table, k) == Some(m.native) else next.value.0 == s)
  {
    if m.generation == Some(s.generation) { RememberExact(s, c.key.launch, m.native, false, lim); }
  }

  /** The first section of configure(): a cached marshaller is the answer, and the most recently used;
      otherwise the caller waits for the event of the key's owner, or owns a new one. */
  lemma ConfigureEnterExact(s: Core, key: ConfigureKey)
    ensures var (r, e) := ConfigureEnter(s, key);
            match Get(s.cache, key)
            case Some(m) =>
              && e == Cached(m) && r == s.(cache := r.cache, cacheUses := s.cacheUses + [key])
              && Touched(s.cache, key, r.cache)
            case None =>
              if key in s.inflight then e == Wait(s.inflight[key]) && r == s
              else e == Own(s.events) && r == s.(inflight := s.inflight[key := s.events], events := s.events + 1)
  {
    if IndexOf(s.cache, key) < |s.cache| { MovedToEnd(s.cache, key); }
  }

  /** A call of configure() that finds a marshaller cached is done; any other waits, or builds one. */
  lemma EnteredExact(s: Core, c: Call, lim: Limits)
    ensures var key := c.key;
            var next := StepConfigure(s, Entering(c), Enter, lim);
            && next.Some?
            && (Get(s.cache, key).Some? ==> next.value.1 == Holding(c, Get(s.cache, key).value))
            && (Get(s.cache, key).None? && key in s.inflight ==> next.value.1 == Waiting(c, s.inflight[key]))
            && (Get(s.cache, key).None? && key !in s.inflight ==>
                  next.value.1 == Starting(c, s.events) && next.value.0.inflight[key] == s.events)
  {
    ConfigureEnterExact(s, c.key);
  }

  /** A waiter goes on exactly when its event is set, and then looks into the cache again. */
  lemma WakesIff(s: State, t: nat, lim: Limits)
    requires t < |s.threads| && s.threads[t].Waiting?
    ensures var r := Step(s, Event(t, Wake), lim);
            && (r.Some? <==> s.threads[t].event in s.core.signalled)
            && (r.Some? ==> r.value == s.(threads := s.threads[t := Entering(s.threads[t].call)]))
  {
  }

  /** recompile() forgets everything compiled, registered or cached, and keeps the literal positions. */
  lemma RecompileExact(s: Core, lim: Limits)
    requires CoreOk(s, lim)
    ensures var r := Recompile(s, lim);
            && CoreOk(r, lim) && Invalidated(s, r)
            && r.literals == s.literals && r.current == Native(s.natives, s.literals)
  {
    InvalidateOk(s, s.literals, lim);
    InvalidateShape(s, s.literals, lim);
  }

  // ---- actions from rest ----

  /** recompile() by one thread leaves nothing that was built before, whatever the others are doing. */
  lemma RecompileStep(s: State, t: nat, lim: Limits)
    requires FreshInv(s, lim) && t < |s.threads| && AtRest(s.threads[t])
    ensures var r := Step(s, Event(t, RecompileAll), lim);
            && r.Some? && r.value == s.(core := r.value.core)
            && Invalidated(s.core, r.value.core) && r.value.core.literals == s.core.literals
  {
    RecompileExact(s.core, lim);
  }

  /** Clearing the configure cache forgets every marshaller and every build in flight, and wakes all who
      wait for one. */
  lemma ClearStep(s: State, t: nat, u: nat, lim: Limits)
    requires t < |s.threads| && AtRest(s.threads[t])
    requires u < |s.threads| && s.threads[u].Waiting? && s.threads[u].event in s.core.inflight.Values
    ensures var r := Step(s, Event(t, ClearCache), lim);
            && r.Some? && r.value.threads == s.threads && r.value.core.cache == [] && r.value.core.inflight == map[]
            && r.value.core.table == s.core.table && r.value.core.overloads == s.core.overloads
            && Step(r.value, Event(u, Wake), lim).Some?
  {
  }

  // ---- literal requests ----

  /** A request is valid exactly if it names parameters, all arguments are top-level runtime values, and
      those named are ints or bools; it then records the positions it names. */
  lemma ValidRequestIff(a: Attempt, request: seq<int>, lim: Limits)
    ensures var v := ValidRequest(a, request, lim);
            && (v.Some? <==>
                  && request != [] && |a.values| == lim.params == a.abiCount
                  && forall p :: p in request ==> 0 <= p < lim.params && !a.values[p].Other?)
            && (v.Some? ==> forall p: nat :: p in v.value <==> p in request)
  {
  }

  // ---- one compile attempt ----

  /** An attempt under an active launch config captures the generation and looks for an overload first;
      any other compiles at once. */
  lemma ActiveLooksFirst(s: Core, a: Attempt, args: Signature, lits: set<nat>, o: Outcome, lim: Limits)
    ensures var (r, next) := StepAttempt(s, a, Capturing(args, lits), o, lim);
            && r == s && next.Some? && next.value.0 == a
            && (a.active ==> next.value.1 == Finding(args, lits, s.generation))
            && (!a.active ==> next.value.1 == Compiling(args, lits, s.generation))
  {
  }

  /** An attempt that finds an overload for its arguments returns without compiling; one that finds none
      compiles for exactly these arguments. */
  lemma FindingDecides(s: Core, a: Attempt, args: Signature, lits: set<nat>, g: nat, o: Outcome, lim: Limits)
    ensures var (r, next) := StepAttempt(s, a, Finding(args, lits, g), o, lim);
            && r == s
            && (next.None? <==> exists e :: e in s.overloads && Serves(e, args, a.key))
            && (next.Some? ==> next == Some((a, Compiling(args, lits, g))))
  {
    FindOverloadFacts(s.overloads, args, a.key);
  }

  /** A successful compilation under an active launch config is published if the generation is still the
      one captured: then an overload serves its arguments.  Otherwise it is attempted again while the
      budget lasts, and nothing is published. */
  lemma SuccessPublishes(s: Core, a: Attempt, args: Signature, lits: set<nat>, g: nat, normalized: Signature,
        needsLaunch: bool, later: Core, o: Outcome, lim: Limits)
    requires a.active || needsLaunch
    ensures StepAttempt(s, a, Compiling(args, lits, g), Success(normalized, needsLaunch), lim) ==
            (s, Some((a, Publishing(args, lits, g, normalized))))
    ensures var (r, next) := StepAttempt(later, a, Publishing(args, lits, g, normalized), o, lim);
            if later.generation == g then
              next.None? && (FindOverload(r.overloads, args, a.key).Some? ||
                             FindOverload(r.overloads, normalized, a.key).Some?)
            else
              && r == later
              && next == if a.budget > 0
                         then Some((a.(depth := a.depth + 1, budget := a.budget - 1), Snapshotting)) else None
  {
    PublicationFacts(later, g, args, normalized, a.key, Compiled(g, lits), (args, a.key));
  }

  lemma RecordingStep(s: Core, a: Attempt, lits: set<nat>, request: seq<int>, o: Outcome, lim: Limits)
    ensures var (r, next) := StepAttempt(s, a, Recording(lits, request), o, lim);
            match ValidRequest(a, request, lim)
            case None => r == s && next.None?
            case Some(positions) =>
              && r == RecordLiterals(s, positions, lim).0
              && next == if r.literals == lits then None else Some((a.(depth := a.depth + 1), Snapshotting))
  {
  }

  /** A valid literal request of a compilation is recorded, and the attempt starts over exactly if that
      added a position. */
  lemma RequestRestarts(s: Core, a: Attempt, lits: set<nat>, request: seq<int>, o: Outcome, lim: Limits)
    requires CoreOk(s, lim) && lits == s.literals
    ensures var (r, next) := StepAttempt(s, a, Recording(lits, request), o, lim);
            match ValidRequest(a, request, lim)
            case None => r == s && next.None?
            case Some(positions) =>
              && r.literals == s.literals + positions
              && next == if positions <= s.literals then None else Some((a.(depth := a.depth + 1), Snapshotting))
  {
    RecordingStep(s, a, lits, request, o, lim);
    var v := ValidRequest(a, request, lim);
    if v.Some? {
      RequestInRange(a, request, lim);
      RecordLiteralsOk(s, v.value, lim);
      assert v.value <= s.literals <==> s.literals + v.value == s.literals;
    }
  }

  /** A compilation that asks for literals goes on to record them. */
  lemma RequestsAreRecorded(s: Core, a: Attempt, args: Signature, lits: set<nat>, g: nat, request: seq<int>,
        lim: Limits)
    ensures StepAttempt(s, a, Compiling(args, lits, g), Literals(request), lim) ==
            (s, Some((a, Recording(lits, request))))
  {
  }

  // ---- giving up ----

  ghost predicate Retried(pc: Pc) {
    pc.Compile? ==> pc.attempt.depth + pc.attempt.budget >= 8
  }

  lemma StepRetried(s: State, e: Event, lim: Limits)
    requires Step(s, e, lim).Some? && Retried(s.threads[e.thread])
    ensures Retried(Step(s, e, lim).value.threads[e.thread])
  {
  }

  lemma {:induction false} AlwaysRetried(n: nat, run: seq<Event>, lim: Limits, t: nat)
    requires Run(n, run, lim).Some? && t < n
    ensures Retried(Run(n, run, lim).value.threads[t])
    decreases |run|
  {
    if run != [] {
      var before, e := run[..|run| - 1], run[|run| - 1];
      AlwaysRetried(n, before, lim, t);
      if e.thread == t { StepRetried(Run(n, before, lim).value, e, lim); }
    }
  }

  /** In every run, a compilation that was overtaken by an invalidation is given up only after it was
      started over at least eight times. */
  lemma OvertakenRetries(n: nat, run: seq<Event>, lim: Limits, t: nat)
    requires Run(n, run, lim).Some? && t < n
    requires var s := Run(n, run, lim).value;
             var pc := s.threads[t];
             pc.Compile? && pc.phase.Publishing? && pc.phase.generation != s.core.generation && pc.attempt.depth < 8
    ensures var s := Run(n, run, lim).value;
            var a := s.threads[t].attempt;
            var r := StepCompiler(s, s.threads[t], Proceed, lim);
            r.core == s.core && r.pc.Compile? && r.pc.phase == Snapshotting && r.pc.attempt.depth == a.depth + 1
  {
    AlwaysRetried(n, run, lim, t);
  }
}
