/** MLIRDispatcher's lock-protected fields and the locked sections that update them in place.
    Each method is one section; its contract ties the new fields to DispatcherState. */
module DispatcherObject {
  import opened Lru
  import opened NumbaTypes
  import opened DispatcherState

  class Dispatcher {
    const lim: Limits
    var overloads: Overloads
    var table: seq<(LaunchKey, Native)>
    var generation: nat
    var literals: set<nat>
    var current: Native
    var retained: seq<Native>
    var cache: seq<(ConfigureKey, Marshaller)>
    var inflight: map<ConfigureKey, nat>
    var signalled: set<nat>
    var events: nat
    var natives: nat
    ghost var tableUses: seq<LaunchKey>
    ghost var cacheUses: seq<ConfigureKey>
    ghost var retired: seq<Native>
    ghost var registered: seq<Native>

    ghost function State(): Core
      reads this
    {
      Core(overloads, table, generation, literals, current, retained, cache, inflight, signalled, events, natives,
           tableUses, cacheUses, retired, registered)
    }

    constructor (lim: Limits)
      ensures State() == Initial() && this.lim == lim
    {
      this.lim := lim;
      overloads, table, generation, literals := [], [], 0, {};
      current, natives := Native(0, {}), 1;
      retained, cache, inflight, signalled, events := [], [], map[], {}, 0;
      tableUses, cacheUses, retired, registered := [], [], [], [Native(0, {})];
    }

    method NewKernelDispatcher() returns (n: Native)
      modifies this`natives
      ensures n == Native(old(natives), literals) && natives == old(natives) + 1
    {
      n := Native(natives, literals);
      natives := natives + 1;
    }

    method RetainOldDispatcher(n: Native)
      modifies this`retained, this`retired
      ensures State() == Retain(old(State()), n, lim)
    {
      retained := retained + [n];
      var overflow := |retained| - lim.retain;
      if overflow > 0 {
        retained := if overflow >= |retained| then [] else retained[overflow..];
      }
      retired := retired + [n];
    }

    method RetainAllDispatchers(ns: seq<Native>)
      modifies this`retained, this`retired
      ensures State() == RetainAll(old(State()), ns, lim)
    {
      for i := 0 to |ns|
        invariant RetainAll(State(), ns[i..], lim) == RetainAll(old(State()), ns, lim)
      {
        assert ns[i..][1..] == ns[i + 1..];
        RetainOldDispatcher(ns[i]);
      }
    }

    /** Delete every overload specialized for an evicted launch key. */
    method DropOverloads(key: LaunchKey)
      modifies this`overloads
      ensures overloads == DropKey(old(overloads), key)
    {
      var kept: Overloads := [];
      for i := 0 to |overloads|
        invariant kept + DropKey(overloads[i..], key) == DropKey(overloads, key)
      {
        assert overloads[i..][1..] == overloads[i + 1..];
        if overloads[i].0.1 != key {
          kept := kept + [overloads[i]];
        }
      }
      overloads := kept;
    }

    method EvictDispatchers()
      modifies this`table, this`overloads, this`retained, this`retired
      ensures State() == EvictOverflow(old(State()), lim)
    {
      while |table| > LAUNCH_CONFIG_CACHE_SIZE
        invariant EvictOverflow(State(), lim) == EvictOverflow(old(State()), lim)
        decreases |table|
      {
        var (evictedKey, evicted) := table[0];
        table := table[1..];
        RetainOldDispatcher(evicted);
        DropOverloads(evictedKey);
      }
    }

    method RememberKernelDispatcher(k: LaunchKey, n: Native, replaceExisting: bool) returns (ok: bool)
      modifies this
      ensures (State(), ok) == Remember(old(State()), k, n, replaceExisting, lim)
    {
      match Get(table, k)
      case Some(existing) =>
        PutPresent(table, k, n);
        if existing != n {
          if !replaceExisting {
            return false;
          }
          RetainOldDispatcher(existing);
          table := Put(table, k, n);
          registered := registered + [n];
        }
        table := MoveToEnd(table, k);
        tableUses := tableUses + [k];
        return true;
      case None =>
        table := Put(table, k, n);
        tableUses, registered := tableUses + [k], registered + [n];
        EvictDispatchers();
        return true;
    }

    /** A hit on the launch-keyed table, under the lock. */
    method LookupDispatcher(k: LaunchKey) returns (n: Option<Native>, g: nat)
      modifies this
      ensures (State(), n) == Lookup(old(State()), k) && g == old(generation)
    {
      n, g := Get(table, k), generation;
      if n.Some? {
        table := MoveToEnd(table, k);
        tableUses := tableUses + [k];
      }
    }

    /** The re-validated insertion of a dispatcher constructed outside the lock. */
    method InsertDispatcher(k: LaunchKey, g: nat, n: Native) returns (m: Option<Native>)
      modifies this
      ensures (State(), m) == Insert(old(State()), k, g, n, lim)
    {
      if g != generation {
        return None;
      }
      var existing := Get(table, k);
      if existing.Some? {
        table := MoveToEnd(table, k);
        tableUses := tableUses + [k];
        return existing;
      }
      var _ := RememberKernelDispatcher(k, n, true);
      return Some(n);
    }

    method ClearConfigureCache()
      modifies this`cache, this`cacheUses, this`signalled, this`inflight
      ensures State() == Clear(old(State()))
    {
      cache := [];
      cacheUses := [];
      signalled := signalled + inflight.Values;
      inflight := map[];
    }

    method EnterConfigure(key: ConfigureKey) returns (e: Enter)
      modifies this
      ensures (State(), e) == ConfigureEnter(old(State()), key)
    {
      match Get(cache, key)
      case Some(m) =>
        cache := MoveToEnd(cache, key);
        cacheUses := cacheUses + [key];
        e := Cached(m);
      case None =>
        if key in inflight {
          e := Wait(inflight[key]);
        } else {
          e := Own(events);
          inflight := inflight[key := events];
          events := events + 1;
        }
    }

    /** Give up an in-flight build, on the exception path and in the finally clause alike. */
    method CloseInflight(key: ConfigureKey, event: nat)
      modifies this`inflight, this`signalled
      ensures State() == Close(old(State()), key, event)
    {
      if key in inflight && inflight[key] == event {
        inflight := inflight - {key};
      }
      signalled := signalled + {event};
    }

    method CacheMarshaller(key: ConfigureKey, m: Marshaller)
      modifies this`cache, this`cacheUses
      ensures State() == StoreMarshaller(old(State()), key, m)
    {
      ghost var c := Put(cache, key, m);
      cache := Put(cache, key, m);
      cacheUses := cacheUses + [key];
      while |cache| > CONFIGURE_CACHE_SIZE
        invariant TrimOldest(cache, CONFIGURE_CACHE_SIZE) == TrimOldest(c, CONFIGURE_CACHE_SIZE)
        invariant cacheUses == old(cacheUses) + [key]
      {
        cache := cache[1..];
      }
    }

    method FinishConfigure(key: ConfigureKey, event: nat, m: Marshaller, staleRetries: nat) returns (f: Finish)
      modifies this
      ensures (State(), f) == ConfigureFinish(old(State()), key, event, m, staleRetries)
    {
      ghost var s := State();
      match Get(cache, key)
      case Some(cached) =>
        cache := MoveToEnd(cache, key);
        cacheUses := cacheUses + [key];
        assert State() == TouchCache(s, key);
        CloseInflight(key, event);
        f := Return(cached);
      case None =>
        var stale := if key.enabled then m.generation != Some(generation) else m.native != current;
        if stale {
          f := if staleRetries + 1 >= STALE_RETRY_LIMIT then Raise else Retry;
          CloseInflight(key, event);
        } else {
          CacheMarshaller(key, m);
          assert State() == StoreMarshaller(s, key, m);
          CloseInflight(key, event);
          f := Return(m);
        }
    }

    method BumpGeneration()
      modifies this`overloads, this`generation, this`table, this`tableUses
      ensures State() == Bump(old(State()))
    {
      overloads := [];
      generation := generation + 1;
      table, tableUses := [], [];
    }

    method RebuildDefaultDispatcher()
      modifies this`natives, this`current, this`registered
      ensures State() == Rebuild(old(State()), literals)
    {
      current := NewKernelDispatcher();
      registered := registered + [current];
    }

    method RecordLiteralPositions(positions: set<nat>) returns (changed: bool)
      modifies this
      ensures (State(), changed) == RecordLiterals(old(State()), positions, lim)
    {
      var updated := literals + positions;
      if updated == literals {
        return false;
      }
      ghost var s := State();
      var oldDispatchers := [current] + Values(table);
      literals := updated;
      BumpGeneration();
      RebuildDefaultDispatcher();
      assert State() == Rebuild(Bump(s), updated);
      RetainAllDispatchers(oldDispatchers);
      ClearConfigureCache();
      return true;
    }

    method RecompileLocked()
      modifies this
      ensures State() == Recompile(old(State()), lim)
    {
      ghost var s := State();
      var oldDispatchers := Values(table);
      RetainOldDispatcher(current);
      BumpGeneration();
      RetainAllDispatchers(oldDispatchers);
      ClearConfigureCache();
      RebuildDefaultDispatcher();
      RetiresSame(s, lim);
    }

    /** First reusable overload in table order, after an exact match. */
    method FindLaunchConfigOverload(args: Signature, key: LaunchKey) returns (r: Option<Compiled>)
      ensures r == FindOverload(overloads, args, key)
    {
      var exact := Get(overloads, (args, key));
      if exact.Some? {
        return exact;
      }
      for i := 0 to |overloads|
        invariant FirstReusable(overloads[i..], args, key) == FirstReusable(overloads, args, key)
      {
        assert overloads[i..][1..] == overloads[i + 1..];
        if overloads[i].0.1 == key && CanReuseAll(overloads[i].0.0, args) {
          return Some(overloads[i].1);
        }
      }
      return None;
    }

    method PublishOverload(g: nat, args: Signature, normalized: Signature, key: LaunchKey, result: Compiled)
        returns (p: Publication)
      modifies this
      ensures (State(), p) == Publish(old(State()), g, args, normalized, key, result)
    {
      if g != generation {
        return Outdated;
      }
      var existing := FindLaunchConfigOverload(args, key);
      if existing.None? && normalized != args {
        existing := FindLaunchConfigOverload(normalized, key);
      }
      if existing.Some? {
        return Existing(existing.value);
      }
      overloads := SetDefault(overloads, (args, key), result);
      overloads := SetDefault(overloads, (normalized, key), result);
      return Published;
    }
  }

  /** RetainAll touches the retained list and its history only, so it commutes with every update
      of the other fields. */
  lemma RetainAllCommutes(s: Core, r: Core, ns: seq<Native>, lim: Limits)
    requires s.retained == r.retained && s.retired == r.retired
    ensures var a, b := RetainAll(s, ns, lim), RetainAll(r, ns, lim);
            && a == s.(retained := a.retained, retired := a.retired)
            && b == r.(retained := a.retained, retired := a.retired)
    decreases |ns|
  {
    if ns != [] {
      RetainAllCommutes(Retain(s, ns[0], lim), Retain(r, ns[0], lim), ns[1..], lim);
    }
  }

  /** The order recompile() works in (retire first, rebuild last) reaches the same state as the
      order literal recording works in (rebuild first, retire after). */
  lemma RetiresSame(s: Core, lim: Limits)
    ensures Rebuild(Clear(RetainAll(Bump(Retain(s, s.current, lim)), Values(s.table), lim)), s.literals)
            == Recompile(s, lim)
  {
    var ns := [s.current] + Values(s.table);
    assert ns[1..] == Values(s.table);
    var b, c := Bump(Retain(s, s.current, lim)), Retain(Rebuild(Bump(s), s.literals), s.current, lim);
    RetainAllCommutes(b, c, Values(s.table), lim);
  }
}
