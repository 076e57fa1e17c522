/** The lock-protected state of one MLIRDispatcher and each critical section as a function
    from the state before it to the state after it. */
module DispatcherState {
  import opened Lru
  import opened NumbaTypes

  const CONFIGURE_CACHE_SIZE: nat := 128
  const STALE_RETRY_LIMIT: nat := 8
  const LAUNCH_CONFIG_CACHE_SIZE: nat := CONFIGURE_CACHE_SIZE * 2

  datatype Dim3 = Dim3(x: nat, y: nat, z: nat)

  datatype LaunchKey = LaunchKey(grid: Dim3, block: Dim3, sharedmem: int, cluster: Option<Dim3>)

  /** The tuple configure() caches under: whether launch configs are in use, the identities of
      the extensions, the geometry and the stream. */
  datatype ConfigureKey = ConfigureKey(enabled: bool, extensions: seq<nat>, launch: LaunchKey, stream: nat)

  /** A native KernelDispatcher, with the literal positions it was constructed for. */
  datatype Native = Native(id: nat, literals: set<nat>)

  /** The part of an _ArgMarshaller that configure() decides freshness on. */
  datatype Marshaller = Marshaller(native: Native, generation: Option<nat>)

  /** A compile result, with the generation and the literal positions its attempt captured. */
  datatype Compiled = Compiled(generation: nat, literals: set<nat>)

  type Overloads = seq<((Signature, LaunchKey), Compiled)>

  /** params: number of kernel parameters; retain: _OLD_DISPATCHER_RETAIN_LIMIT, which the
      environment may set to any integer. */
  datatype Limits = Limits(params: nat, retain: int)

  datatype Core = Core(
    overloads: Overloads,
    table: seq<(LaunchKey, Native)>,
    generation: nat,
    literals: set<nat>,
    current: Native,
    retained: seq<Native>,
    cache: seq<(ConfigureKey, Marshaller)>,
    inflight: map<ConfigureKey, nat>,
    signalled: set<nat>,
    events: nat,
    natives: nat,
    // history, read by no operation
    tableUses: seq<LaunchKey>,
    cacheUses: seq<ConfigureKey>,
    retired: seq<Native>,
    registered: seq<Native>)

  function Initial(): Core {
    Core([], [], 0, {}, Native(0, {}), [], [], map[], {}, 0, 1, [], [], [], [Native(0, {})])
  }

  // ---- retained dispatchers ----

  /** The last limit elements; all of them when there are fewer, none for a limit below 1. */
  function LastN<T>(xs: seq<T>, limit: int): seq<T> {
    var overflow := |xs| - limit;
    if overflow <= 0 then xs else if overflow >= |xs| then [] else xs[overflow..]
  }

  /** _retain_old_dispatcher */
  function Retain(s: Core, n: Native, lim: Limits): Core {
    s.(retained := LastN(s.retained + [n], lim.retain), retired := s.retired + [n])
  }

  function RetainAll(s: Core, ns: seq<Native>, lim: Limits): Core
    decreases |ns|
  {
    if ns == [] then s else RetainAll(Retain(s, ns[0], lim), ns[1..], lim)
  }

  // ---- the launch-keyed table of native dispatchers ----

  /** Overloads left after the entries of an evicted launch key are deleted. */
  function DropKey(d: Overloads, key: LaunchKey): (r: Overloads)
    ensures forall e :: e in r <==> e in d && e.0.1 != key
  {
    if d == [] then []
    else if d[0].0.1 == key then DropKey(d[1..], key)
    else [d[0]] + DropKey(d[1..], key)
  }

  /** The eviction loop of _remember_kernel_dispatcher_locked. */
  function EvictOverflow(s: Core, lim: Limits): Core
    decreases |s.table|
  {
    if |s.table| <= LAUNCH_CONFIG_CACHE_SIZE then s
    else
      var oldest := s.table[0];
      var r := Retain(s.(table := s.table[1..]), oldest.1, lim);
      EvictOverflow(r.(overloads := DropKey(r.overloads, oldest.0)), lim)
  }

  /** _remember_kernel_dispatcher_locked */
  function Remember(s: Core, k: LaunchKey, n: Native, replaceExisting: bool, lim: Limits): (Core, bool) {
    match Get(s.table, k)
    case Some(existing) =>
      if existing != n && !replaceExisting then (s, false)
      else
        var r := if existing != n
                 then Retain(s, existing, lim).(table := Put(s.table, k, n), registered := s.registered + [n])
                 else s;
        PutPresent(s.table, k, n);
        (r.(table := MoveToEnd(r.table, k), tableUses := r.tableUses + [k]), true)
    case None =>
      var r := s.(table := Put(s.table, k, n), tableUses := s.tableUses + [k],
                  registered := s.registered + [n]);
      (EvictOverflow(r, lim), true)
  }

  /** First locked section of _get_launch_config_dispatcher_and_generation. */
  function Lookup(s: Core, k: LaunchKey): (Core, Option<Native>) {
    match Get(s.table, k)
    case Some(n) => (s.(table := MoveToEnd(s.table, k), tableUses := s.tableUses + [k]), Some(n))
    case None => (s, None)
  }

  /** Second locked section: None means the generation moved on and the caller starts over. */
  function Insert(s: Core, k: LaunchKey, generation: nat, n: Native, lim: Limits): (Core, Option<Native>) {
    if generation != s.generation then (s, None)
    else match Get(s.table, k)
      case Some(existing) =>
        (s.(table := MoveToEnd(s.table, k), tableUses := s.tableUses + [k]), Some(existing))
      case None => (Remember(s, k, n, true, lim).0, Some(n))
  }

  /** _remember_kernel_dispatcher: re-registration of a dispatcher a marshaller still holds. */
  function Reregister(s: Core, k: LaunchKey, n: Native, generation: Option<nat>, replaceExisting: bool,
        lim: Limits): (Core, bool) {
    if generation.Some? && generation.value != s.generation then (s, false)
    else Remember(s, k, n, replaceExisting, lim)
  }

  // ---- configure() ----

  /** _clear_configure_cache, also part of recompile() and of literal recording. */
  function Clear(s: Core): Core {
    s.(cache := [], cacheUses := [], inflight := map[], signalled := s.signalled + s.inflight.Values)
  }

  datatype Enter = Cached(m: Marshaller) | Own(event: nat) | Wait(event: nat)

  function TouchCache(s: Core, key: ConfigureKey): Core
    requires IndexOf(s.cache, key) < |s.cache|
  {
    s.(cache := MoveToEnd(s.cache, key), cacheUses := s.cacheUses + [key])
  }

  /** First locked section of configure(). */
  function ConfigureEnter(s: Core, key: ConfigureKey): (Core, Enter) {
    match Get(s.cache, key)
    case Some(m) => (TouchCache(s, key), Cached(m))
    case None =>
      if key in s.inflight then (s, Wait(s.inflight[key]))
      else (s.(inflight := s.inflight[key := s.events], events := s.events + 1), Own(s.events))
  }

  /** Deregister an event if it is still this owner's, and set it. */
  function Close(s: Core, key: ConfigureKey, event: nat): Core {
    s.(inflight := if key in s.inflight && s.inflight[key] == event then s.inflight - {key} else s.inflight,
       signalled := s.signalled + {event})
  }

  /** _configure_marshaller_stale_locked */
  predicate Stale(s: Core, enabled: bool, m: Marshaller) {
    if enabled then m.generation != Some(s.generation) else m.native != s.current
  }

  datatype Finish = Return(m: Marshaller) | Retry | Raise

  /** The popitem(last=False) loop that brings a dictionary back to its cap. */
  function TrimOldest<K, V>(d: seq<(K, V)>, cap: nat): seq<(K, V)>
    decreases |d|
  {
    if |d| <= cap then d else TrimOldest(d[1..], cap)
  }

  function StoreMarshaller(s: Core, key: ConfigureKey, m: Marshaller): Core {
    var c := Put(s.cache, key, m);
    s.(cache := TrimOldest(c, CONFIGURE_CACHE_SIZE),
       cacheUses := s.cacheUses + [key])
  }

  /** Second locked section of configure(), its finally clause included. */
  function ConfigureFinish(s: Core, key: ConfigureKey, event: nat, m: Marshaller, staleRetries: nat): (Core, Finish) {
    match Get(s.cache, key)
    case Some(cached) => (Close(TouchCache(s, key), key, event), Return(cached))
    case None =>
      if Stale(s, key.enabled, m) then
        (Close(s, key, event), if staleRetries + 1 >= STALE_RETRY_LIMIT then Raise else Retry)
      else (Close(StoreMarshaller(s, key, m), key, event), Return(m))
  }

  // ---- invalidation ----

  /** Advance the generation, forgetting every overload and launch-keyed dispatcher. */
  function Bump(s: Core): Core {
    s.(overloads := [], generation := s.generation + 1, table := [], tableUses := [])
  }

  /** Replace the default native dispatcher by one built for the given literal positions. */
  function Rebuild(s: Core, literals: set<nat>): Core {
    var rebuilt := Native(s.natives, literals);
    s.(literals := literals, current := rebuilt, natives := s.natives + 1, registered := s.registered + [rebuilt])
  }

  /** Common to literal recording and recompile(): besides the above, retire every registered
      dispatcher in order and clear the configure cache. */
  function Invalidate(s: Core, literals: set<nat>, lim: Limits): Core {
    Clear(RetainAll(Rebuild(Bump(s), literals), [s.current] + Values(s.table), lim))
  }

  /** Locked section of _record_literal_arg_positions. */
  function RecordLiterals(s: Core, positions: set<nat>, lim: Limits): (Core, bool) {
    var updated := s.literals + positions;
    if updated == s.literals then (s, false) else (Invalidate(s, updated, lim), true)
  }

  /** Locked section of _recompile_impl. */
  function Recompile(s: Core, lim: Limits): Core {
    Invalidate(s, s.literals, lim)
  }

  // ---- compilation ----

  function FirstReusable(d: Overloads, args: Signature, key: LaunchKey): Option<Compiled> {
    if d == [] then None
    else if d[0].0.1 == key && CanReuseAll(d[0].0.0, args) then Some(d[0].1)
    else FirstReusable(d[1..], args, key)
  }

  /** _find_launch_config_overload_locked */
  function FindOverload(d: Overloads, args: Signature, key: LaunchKey): Option<Compiled> {
    match Get(d, (args, key))
    case Some(exact) => Some(exact)
    case None => FirstReusable(d, args, key)
  }

  function SetDefault(d: Overloads, k: (Signature, LaunchKey), v: Compiled): Overloads {
    if Get(d, k).Some? then d else d + [(k, v)]
  }

  datatype Publication = Outdated | Existing(result: Compiled) | Published

  /** The guarded publication at the end of _compile_impl. */
  function Publish(s: Core, generation: nat, args: Signature, normalized: Signature, key: LaunchKey,
        result: Compiled): (Core, Publication) {
    if generation != s.generation then (s, Outdated)
    else
      var exact := FindOverload(s.overloads, args, key);
      var existing := if exact.None? && normalized != args then FindOverload(s.overloads, normalized, key) else exact;
      match existing
      case Some(e) => (s, Existing(e))
      case None =>
        var d := SetDefault(SetDefault(s.overloads, (args, key), result), (normalized, key), result);
        (s.(overloads := d), Published)
  }
}
