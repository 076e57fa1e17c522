/** Any number of threads running configure(), launch-time rebinding, recompile(), cache
    clearing and kernel compilation against one dispatcher.  One action is one critical section
    or one piece of work outside the lock; actions of different threads interleave freely. */
module DispatcherProtocol {
  import opened Lru
  import opened NumbaTypes
  import opened DispatcherState
  import opened DispatcherInvariant

  /** _get_launch_config_dispatcher_and_generation between its two locked sections. */
  datatype Fetch = Looking | Making(generation: nat) | Inserting(generation: nat, native: Native)

  datatype FetchStep = More(fetch: Fetch) | Done(m: Marshaller)

  /** One call of configure(): the marshallers it has built and its stale_retries counter. */
  datatype Call = Call(key: ConfigureKey, builds: nat, retries: nat)

  /** Runtime values as literal recording tells them apart. */
  datatype Value = PyInt(i: int) | PyBool(b: bool) | Other

  /** One activation of _compile_impl; depth counts the activations below it. */
  datatype Attempt = Attempt(key: LaunchKey, active: bool, args: Signature, values: seq<Value>, abiCount: nat,
                             budget: nat, depth: nat)

  datatype Phase =
    | Snapshotting
    | Capturing(args: Signature, literals: set<nat>)
    | Finding(args: Signature, literals: set<nat>, generation: nat)
    | Compiling(args: Signature, literals: set<nat>, generation: nat)
    | Recording(literals: set<nat>, request: seq<int>)
    | Publishing(args: Signature, literals: set<nat>, generation: nat, normalized: Signature)

  datatype Pc =
    | Idle
    | Aborted
    | Entering(call: Call)
    | Waiting(call: Call, event: nat)
    | Starting(call: Call, event: nat)
    | Fetching(call: Call, event: nat, fetch: Fetch)
    | Built(call: Call, event: nat, m: Marshaller)
    | Unwinding(call: Call, event: nat)
    | Holding(call: Call, m: Marshaller)
    | Rebinding(call: Call, fetch: Fetch)
    | Compile(attempt: Attempt, phase: Phase)

  datatype Outcome = Proceed | Error | Literals(request: seq<int>) | Success(normalized: Signature, needsLaunch: bool)

  datatype Action =
    | Configure(key: ConfigureKey)
    | Enter
    | Wake
    | ReadCurrent(enabledNow: bool)
    | StepFetch
    | BuildFails
    | Finish
    | Unwind
    | ClearCache
    | RecompileAll
    | Rebind
    | ReregisterHeld
    | BeginCompile(attempt: Attempt)
    | StepCompile(outcome: Outcome)

  /** compiler: the thread holding the global compiler lock. */
  datatype State = State(core: Core, compiler: Option<nat>, threads: seq<Pc>)

  datatype Local = Local(core: Core, compiler: Option<nat>, pc: Pc)

  // ---- actions ----

  function AdvanceFetch(s: Core, k: LaunchKey, f: Fetch, lim: Limits): (Core, FetchStep) {
    match f
    case Looking =>
      var (r, n) := Lookup(s, k);
      (r, if n.Some? then Done(Marshaller(n.value, Some(s.generation))) else More(Making(s.generation)))
    case Making(g) =>
      (s.(natives := s.natives + 1), More(Inserting(g, Native(s.natives, s.literals))))
    case Inserting(g, n) =>
      var (r, m) := Insert(s, k, g, n, lim);
      (r, if m.Some? then Done(Marshaller(m.value, Some(g))) else More(Looking))
  }

  /** Where the first locked section of configure() leaves a thread. */
  function Entered(c: Call, e: DispatcherState.Enter): Pc {
    match e
    case Cached(m) => Holding(c, m)
    case Own(ev) => Starting(c, ev)
    case Wait(ev) => Waiting(c, ev)
  }

  /** Where the second one leaves it. */
  function Finished(c: Call, f: DispatcherState.Finish): Pc {
    match f
    case Return(m) => Holding(c, m)
    case Retry => Entering(c.(retries := c.retries + 1))
    case Raise => Aborted
  }

  function StepConfigure(s: Core, pc: Pc, a: Action, lim: Limits): Option<(Core, Pc)> {
    match (pc, a)
    case (Entering(c), Enter) =>
      var (r, e) := ConfigureEnter(s, c.key);
      Some((r, Entered(c, e)))
    case (Waiting(c, ev), Wake) =>
      if ev in s.signalled then Some((s, Entering(c))) else None
    case (Starting(c, ev), ReadCurrent(enabledNow)) =>
      Some((s, if c.key.enabled && enabledNow then Fetching(c, ev, Looking)
               else Built(c.(builds := c.builds + 1), ev, Marshaller(s.current, None))))
    case (Fetching(c, ev, f), StepFetch) =>
      var (r, n) := AdvanceFetch(s, c.key.launch, f, lim);
      Some((r, if n.Done? then Built(c.(builds := c.builds + 1), ev, n.m) else Fetching(c, ev, n.fetch)))
    case (Starting(c, ev), BuildFails) => Some((s, Unwinding(c, ev)))
    case (Fetching(c, ev, f), BuildFails) => Some((s, Unwinding(c, ev)))
    case (Built(c, ev, m), BuildFails) => Some((s, Unwinding(c, ev)))
    case (Unwinding(c, ev), Unwind) => Some((Close(s, c.key, ev), Aborted))
    case (Built(c, ev, m), Finish) =>
      var (r, f) := ConfigureFinish(s, c.key, ev, m, c.retries);
      Some((r, Finished(c, f)))
    case _ => None
  }

  function StepHolder(s: Core, pc: Pc, a: Action, lim: Limits): Option<(Core, Pc)> {
    match (pc, a)
    case (Holding(c, m), Rebind) => Some((s, Rebinding(c, Looking)))
    case (Rebinding(c, f), StepFetch) =>
      var (r, n) := AdvanceFetch(s, c.key.launch, f, lim);
      Some((r, if n.Done? then Holding(c, n.m) else Rebinding(c, n.fetch)))
    case (Rebinding(c, f), BuildFails) => Some((s, Aborted))
    case (Holding(c, m), ReregisterHeld) =>
      if m.generation.None? then None
      else Some((Reregister(s, c.key.launch, m.native, m.generation, false, lim).0, pc))
    case _ => None
  }

  /** An action of a thread that is configuring or launching. */
  function StepLaunch(s: Core, pc: Pc, a: Action, lim: Limits): Option<(Core, Pc)> {
    var x := StepConfigure(s, pc, a, lim);
    if x.Some? then x else StepHolder(s, pc, a, lim)
  }

  /** _literalize_argtypes; None is its TypeError. */
  function Literalize(a: Attempt, positions: set<nat>): Option<Signature> {
    if positions == {} then Some(a.args)
    else if |a.values| != |a.args| || a.abiCount != |a.values| then None
    else if exists p :: p in positions && p >= |a.args| then None
    else Some(seq(|a.args|, i requires 0 <= i < |a.args| =>
                    if i in positions && !a.args[i].Literal? then LiteralType(a.args[i], a.values[i]) else a.args[i]))
  }

  function LiteralType(ty: Ty, v: Value): Ty {
    match v
    case PyInt(i) => Literal(ty, i)
    case PyBool(b) => Literal(ty, if b then 1 else 0)
    case Other => ty
  }

  /** The checks _record_literal_arg_positions makes before it takes the lock. */
  function ValidRequest(a: Attempt, request: seq<int>, lim: Limits): Option<set<nat>> {
    if request == [] || (exists p :: p in request && (p < 0 || p >= lim.params)) then None
    else if |a.values| != lim.params || a.abiCount != |a.values| then None
    else if exists p :: p in request && 0 <= p < |a.values| && a.values[p].Other? then None
    else Some(set p | p in request && p >= 0 :: p)
  }

  /** None as the next phase: the activation returned or raised, and the lock is released. */
  function StepAttempt(s: Core, a: Attempt, phase: Phase, o: Outcome, lim: Limits): (Core, Option<(Attempt, Phase)>) {
    match phase
    case Snapshotting =>
      (s, match Literalize(a, s.literals)
          case Some(args) => Some((a, Capturing(args, s.literals)))
          case None => None)
    case Capturing(args, lits) =>
      (s, Some((a, if a.active then Finding(args, lits, s.generation) else Compiling(args, lits, s.generation))))
    case Finding(args, lits, g) =>
      (s, if FindOverload(s.overloads, args, a.key).Some? then None else Some((a, Compiling(args, lits, g))))
    case Compiling(args, lits, g) =>
      (s, match o
          case Literals(request) => Some((a, Recording(lits, request)))
          case Success(normalized, needsLaunch) =>
            if a.active || needsLaunch then Some((a, Publishing(args, lits, g, normalized))) else None
          case _ => None)
    case Recording(lits, request) =>
      (match ValidRequest(a, request, lim)
       case None => (s, None)
       case Some(positions) =>
         var r := RecordLiterals(s, positions, lim).0;
         (r, if r.literals != lits then Some((a.(depth := a.depth + 1), Snapshotting)) else None))
    case Publishing(args, lits, g, normalized) =>
      var (r, p) := Publish(s, g, args, normalized, a.key, Compiled(g, lits));
      (r, if p.Outdated? && a.budget > 0
          then Some((a.(depth := a.depth + 1, budget := a.budget - 1), Snapshotting))
          else None)
  }

  predicate AtRest(pc: Pc) {
    pc.Idle? || pc.Aborted? || pc.Holding?
  }

  /** Actions a thread takes from rest. */
  function StepResting(s: State, t: nat, pc: Pc, a: Action, lim: Limits): Option<Local> {
    match a
    case Configure(key) => Some(Local(s.core, s.compiler, Entering(Call(key, 0, 0))))
    case ClearCache => Some(Local(Clear(s.core), s.compiler, pc))
    case RecompileAll => Some(Local(Recompile(s.core, lim), s.compiler, pc))
    case BeginCompile(attempt) =>
      if s.compiler.None?
      then Some(Local(s.core, Some(t), Compile(attempt.(budget := STALE_RETRY_LIMIT, depth := 0), Snapshotting)))
      else None
    case _ => None
  }

  function StepCompiler(s: State, pc: Pc, o: Outcome, lim: Limits): Local
    requires pc.Compile?
  {
    var (r, next) := StepAttempt(s.core, pc.attempt, pc.phase, o, lim);
    if next.Some? then Local(r, s.compiler, Compile(next.value.0, next.value.1)) else Local(r, None, Idle)
  }

  /** The effect of one action of thread t; None when it is not enabled. */
  function Act(s: State, t: nat, pc: Pc, a: Action, lim: Limits): Option<Local> {
    if a.StepCompile? then
      if pc.Compile? then Some(StepCompiler(s, pc, a.outcome, lim)) else None
    else
      match StepLaunch(s.core, pc, a, lim)
      case Some(x) => Some(Local(x.0, s.compiler, x.1))
      case None => if AtRest(pc) then StepResting(s, t, pc, a, lim) else None
  }

  datatype Event = Event(thread: nat, action: Action)

  /** One step of the system; None when the event is not enabled. */
  function Step(s: State, e: Event, lim: Limits): Option<State> {
    if e.thread >= |s.threads| then None
    else match Act(s, e.thread, s.threads[e.thread], e.action, lim)
      case Some(l) => Some(State(l.core, l.compiler, s.threads[e.thread := l.pc]))
      case None => None
  }

  /** The state a run of events leads to; None when some event was not enabled. */
  function Run(threads: nat, events: seq<Event>, lim: Limits): (r: Option<State>)
    ensures r.Some? ==> |r.value.threads| == threads
  {
    if events == [] then Some(State(Initial(), None, seq(threads, _ => Idle)))
    else match Run(threads, events[..|events| - 1], lim)
      case Some(s) => Step(s, events[|events| - 1], lim)
      case None => None
  }

  // ---- freshness invariant ----

  ghost predicate MarshallerOk(s: Core, m: Marshaller) {
    m.generation.Some? ==>
      && m.generation.value <= s.generation
      && (m.generation.value == s.generation ==> m.native.literals == s.literals)
  }

  ghost predicate FetchOk(s: Core, f: Fetch) {
    match f
    case Looking => true
    case Making(g) => g <= s.generation
    case Inserting(g, n) => MarshallerOk(s, Marshaller(n, Some(g)))
  }

  ghost predicate CallOk(c: Call, built: nat) {
    c.builds == c.retries + built && c.retries < STALE_RETRY_LIMIT
  }

  ghost predicate PhaseOk(s: Core, p: Phase) {
    match p
    case Snapshotting => true
    case Capturing(_, lits) => lits == s.literals
    case Finding(_, lits, g) => lits == s.literals && g <= s.generation
    case Compiling(_, lits, g) => lits == s.literals && g <= s.generation
    case Recording(lits, _) => lits == s.literals
    case Publishing(_, lits, g, _) => lits == s.literals && g <= s.generation
  }

  ghost predicate PcOk(s: Core, compiler: Option<nat>, t: nat, pc: Pc) {
    match pc
    case Idle => true
    case Aborted => true
    case Entering(c) => CallOk(c, 0)
    case Waiting(c, _) => CallOk(c, 0)
    case Starting(c, _) => CallOk(c, 0)
    case Fetching(c, _, f) => CallOk(c, 0) && FetchOk(s, f) && c.key.enabled
    case Built(c, _, m) => CallOk(c, 1) && MarshallerOk(s, m) && (c.key.enabled || m.generation.None?)
    case Unwinding(c, _) => c.builds <= STALE_RETRY_LIMIT
    case Holding(c, m) => c.builds <= STALE_RETRY_LIMIT && MarshallerOk(s, m)
    case Rebinding(c, f) => c.builds <= STALE_RETRY_LIMIT && FetchOk(s, f)
    case Compile(a, p) =>
      && compiler == Some(t)
      && PhaseOk(s, p)
      && a.depth + a.budget <= |s.literals| + STALE_RETRY_LIMIT
  }

  ghost predicate FreshInv(s: State, lim: Limits) {
    && CoreOk(s.core, lim)
    && forall t :: 0 <= t < |s.threads| ==> PcOk(s.core, s.compiler, t, s.threads[t])
  }

  /** What a step of thread t may do to the other threads. */
  ghost predicate Rely(t: nat, s: Core, compiler: Option<nat>, s': Core, compiler': Option<nat>) {
    && Evolves(s, s')
    && (s.literals != s'.literals ==> compiler == Some(t))
    && (compiler' == compiler || compiler == None || compiler == Some(t))
  }

  lemma PcStable(t: nat, u: nat, s: Core, compiler: Option<nat>, s': Core, compiler': Option<nat>, pc: Pc)
    requires Rely(t, s, compiler, s', compiler') && u != t && PcOk(s, compiler, u, pc)
    ensures PcOk(s', compiler', u, pc)
  {
  }

  lemma SetGrows(a: set<nat>, b: set<nat>)
    requires a < b
    ensures |a| < |b|
  {
    assert b == a + (b - a);
    assert |b| == |a| + |b - a|;
    assert b - a != {};
  }

  lemma AdvanceFetchOk(s: Core, k: LaunchKey, f: Fetch, lim: Limits)
    requires CoreOk(s, lim) && FetchOk(s, f)
    ensures var (r, n) := AdvanceFetch(s, k, f, lim);
            && CoreOk(r, lim) && Evolves(s, r) && r.generation == s.generation
            && (n.Done? ==> MarshallerOk(r, n.m))
            && (n.More? ==> FetchOk(r, n.fetch))
  {
    match f {
      case Looking => LookupOk(s, k, lim);
      case Making(g) =>
      case Inserting(g, n) => InsertOk(s, k, g, n, lim);
    }
  }

  lemma EnteringOk(s: Core, compiler: Option<nat>, t: nat, pc: Pc, lim: Limits)
    requires CoreOk(s, lim) && PcOk(s, compiler, t, pc) && pc.Entering?
    ensures ConfigureKeeps(s, compiler, t, pc, Enter, lim)
  {
    ConfigureEnterOk(s, pc.call.key, lim);
  }

  lemma FetchingOk(s: Core, compiler: Option<nat>, t: nat, pc: Pc, lim: Limits)
    requires CoreOk(s, lim) && PcOk(s, compiler, t, pc) && pc.Fetching?
    ensures ConfigureKeeps(s, compiler, t, pc, StepFetch, lim)
  {
    AdvanceFetchOk(s, pc.call.key.launch, pc.fetch, lim);
  }

  lemma FinishedOk(r: Core, compiler: Option<nat>, t: nat, c: Call, f: DispatcherState.Finish)
    requires CallOk(c, 1) && (f.Return? ==> MarshallerOk(r, f.m)) && (f.Retry? ==> c.retries + 1 < STALE_RETRY_LIMIT)
    ensures PcOk(r, compiler, t, Finished(c, f))
  {
  }

  lemma FreshMarshaller(s: Core, enabled: bool, m: Marshaller)
    requires Fresh(s, enabled, m)
    ensures MarshallerOk(s, m)
  {
  }

  lemma FinishingOk(s: Core, compiler: Option<nat>, t: nat, pc: Pc, lim: Limits)
    requires CoreOk(s, lim) && PcOk(s, compiler, t, pc) && pc.Built?
    ensures ConfigureKeeps(s, compiler, t, pc, Finish, lim)
  {
    var c := pc.call;
    var (r, f) := ConfigureFinish(s, c.key, pc.event, pc.m, c.retries);
    ConfigureFinishOk(s, c.key, pc.event, pc.m, c.retries, lim);
    if f.Return? { FreshMarshaller(r, c.key.enabled, f.m); }
    FinishedOk(r, compiler, t, c, f);
  }

  lemma UnwindingOk(s: Core, compiler: Option<nat>, t: nat, pc: Pc, lim: Limits)
    requires CoreOk(s, lim) && PcOk(s, compiler, t, pc) && pc.Unwinding?
    ensures ConfigureKeeps(s, compiler, t, pc, Unwind, lim)
  {
    CloseOk(s, pc.call.key, pc.event, lim);
  }

  /** Steps of configure() that leave the lock-protected state alone. */
  lemma UnlockedOk(s: Core, compiler: Option<nat>, t: nat, pc: Pc, a: Action, lim: Limits)
    requires CoreOk(s, lim) && PcOk(s, compiler, t, pc) && (a.Wake? || a.ReadCurrent? || a.BuildFails?)
    ensures ConfigureKeeps(s, compiler, t, pc, a, lim)
  {
  }

  /** A step of configure(), if enabled, keeps the invariant. */
  ghost predicate ConfigureKeeps(s: Core, compiler: Option<nat>, t: nat, pc: Pc, a: Action, lim: Limits) {
    var next := StepConfigure(s, pc, a, lim);
    next.Some? ==>
      var (r, q) := next.value;
      CoreOk(r, lim) && PcOk(r, compiler, t, q) && Evolves(s, r) && r.generation == s.generation
  }

  lemma StepConfigureOk(s: Core, compiler: Option<nat>, t: nat, pc: Pc, a: Action, lim: Limits)
    requires CoreOk(s, lim) && PcOk(s, compiler, t, pc)
    ensures ConfigureKeeps(s, compiler, t, pc, a, lim)
  {
    if a.Enter? && pc.Entering? {
      EnteringOk(s, compiler, t, pc, lim);
    } else if a.StepFetch? && pc.Fetching? {
      FetchingOk(s, compiler, t, pc, lim);
    } else if a.Finish? && pc.Built? {
      FinishingOk(s, compiler, t, pc, lim);
    } else if a.Unwind? && pc.Unwinding? {
      UnwindingOk(s, compiler, t, pc, lim);
    } else if a.Wake? || a.ReadCurrent? || a.BuildFails? {
      UnlockedOk(s, compiler, t, pc, a, lim);
    }
  }

  lemma StepHolderOk(s: Core, compiler: Option<nat>, t: nat, pc: Pc, a: Action, lim: Limits)
    requires CoreOk(s, lim) && PcOk(s, compiler, t, pc) && StepHolder(s, pc, a, lim).Some?
    ensures var (r, q) := StepHolder(s, pc, a, lim).value;
            CoreOk(r, lim) && PcOk(r, compiler, t, q) && Evolves(s, r) && r.generation == s.generation
  {
    match pc {
      case Rebinding(c, f) => AdvanceFetchOk(s, c.key.launch, f, lim);
      case Holding(c, m) =>
        if a.ReregisterHeld? && m.generation == Some(s.generation) {
          RememberOk(s, c.key.launch, m.native, false, lim);
        }
      case _ =>
    }
  }

  lemma StepLaunchOk(s: Core, compiler: Option<nat>, t: nat, pc: Pc, a: Action, lim: Limits)
    requires CoreOk(s, lim) && PcOk(s, compiler, t, pc) && StepLaunch(s, pc, a, lim).Some?
    ensures var (r, q) := StepLaunch(s, pc, a, lim).value;
            CoreOk(r, lim) && PcOk(r, compiler, t, q) && Evolves(s, r) && r.generation == s.generation
  {
    if StepConfigure(s, pc, a, lim).Some? {
      StepConfigureOk(s, compiler, t, pc, a, lim);
    } else {
      StepHolderOk(s, compiler, t, pc, a, lim);
    }
  }

  /** Each retry of a compile attempt spends budget or comes after the literal positions grew. */
  lemma StepAttemptOk(s: Core, t: nat, a: Attempt, p: Phase, o: Outcome, lim: Limits)
    requires CoreOk(s, lim) && PcOk(s, Some(t), t, Compile(a, p))
    ensures var (r, next) := StepAttempt(s, a, p, o, lim);
            && CoreOk(r, lim) && Evolves(s, r)
            && (next.Some? ==> PcOk(r, Some(t), t, Compile(next.value.0, next.value.1)))
  {
    match p {
      case Recording(lits, request) => RecordingOk(s, t, a, p, lim);
      case Publishing(args, lits, g, normalized) => PublishOk(s, g, args, normalized, a.key, lim);
      case _ =>
    }
  }

  lemma RecordingOk(s: Core, t: nat, a: Attempt, p: Phase, lim: Limits)
    requires CoreOk(s, lim) && p.Recording? && PcOk(s, Some(t), t, Compile(a, p))
    ensures var (r, next) := StepAttempt(s, a, p, Proceed, lim);
            && CoreOk(r, lim) && Evolves(s, r)
            && (next.Some? ==> |r.literals| > |s.literals| && next == Some((a.(depth := a.depth + 1), Snapshotting)))
  {
    var v := ValidRequest(a, p.request, lim);
    if v.Some? {
      RequestInRange(a, p.request, lim);
      RecordLiteralsOk(s, v.value, lim);
      RecordingGrows(s, v.value, lim);
    }
  }

  lemma RequestInRange(a: Attempt, request: seq<int>, lim: Limits)
    ensures var v := ValidRequest(a, request, lim); v.Some? ==> forall p :: p in v.value ==> p < lim.params
  {
  }

  lemma RecordingGrows(s: Core, positions: set<nat>, lim: Limits)
    requires CoreOk(s, lim) && forall p :: p in positions ==> p < lim.params
    ensures var r := RecordLiterals(s, positions, lim).0;
            r.literals != s.literals ==> |r.literals| > |s.literals|
  {
    RecordLiteralsOk(s, positions, lim);
    var r := RecordLiterals(s, positions, lim).0;
    if r.literals != s.literals { SetGrows(s.literals, r.literals); }
  }

  ghost predicate ActKeeps(s: State, t: nat, l: Local, lim: Limits) {
    && CoreOk(l.core, lim) && PcOk(l.core, l.compiler, t, l.pc)
    && Rely(t, s.core, s.compiler, l.core, l.compiler)
  }

  lemma StepCompilerOk(s: State, t: nat, pc: Pc, o: Outcome, lim: Limits)
    requires CoreOk(s.core, lim) && pc.Compile? && PcOk(s.core, s.compiler, t, pc)
    ensures ActKeeps(s, t, StepCompiler(s, pc, o, lim), lim)
  {
    StepAttemptOk(s.core, t, pc.attempt, pc.phase, o, lim);
  }

  lemma StepRestingOk(s: State, t: nat, pc: Pc, a: Action, lim: Limits)
    requires CoreOk(s.core, lim) && PcOk(s.core, s.compiler, t, pc) && AtRest(pc)
    requires StepResting(s, t, pc, a, lim).Some?
    ensures ActKeeps(s, t, StepResting(s, t, pc, a, lim).value, lim)
  {
    match a {
      case ClearCache => ClearOk(s.core, lim);
      case RecompileAll => InvalidateOk(s.core, s.core.literals, lim);
      case _ =>
    }
  }

  lemma ActOk(s: State, t: nat, pc: Pc, a: Action, lim: Limits)
    requires CoreOk(s.core, lim) && PcOk(s.core, s.compiler, t, pc) && Act(s, t, pc, a, lim).Some?
    ensures ActKeeps(s, t, Act(s, t, pc, a, lim).value, lim)
  {
    if a.StepCompile? {
      StepCompilerOk(s, t, pc, a.outcome, lim);
    } else if StepLaunch(s.core, pc, a, lim).Some? {
      StepLaunchOk(s.core, s.compiler, t, pc, a, lim);
    } else {
      StepRestingOk(s, t, pc, a, lim);
    }
  }

  lemma StepFresh(s: State, e: Event, lim: Limits)
    requires FreshInv(s, lim) && Step(s, e, lim).Some?
    ensures FreshInv(Step(s, e, lim).value, lim)
    ensures var r := Step(s, e, lim).value; Rely(e.thread, s.core, s.compiler, r.core, r.compiler)
  {
    ActOk(s, e.thread, s.threads[e.thread], e.action, lim);
    var r := Step(s, e, lim).value;
    forall u | 0 <= u < |s.threads| && u != e.thread ensures PcOk(r.core, r.compiler, u, r.threads[u]) {
      PcStable(e.thread, u, s.core, s.compiler, r.core, r.compiler, s.threads[u]);
    }
  }
}
