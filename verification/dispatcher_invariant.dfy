/** What every critical section of the dispatcher keeps: freshness of published overloads,
    native dispatchers and cached marshallers, the LRU order of both tables, and conservation
    of native dispatchers. */
module DispatcherInvariant {
  import opened Lru
  import opened NumbaTypes
  import opened DispatcherState

  /** Every visible overload was compiled for the current generation and literal positions. */
  ghost predicate OverloadsOk(s: Core) {
    forall e :: e in s.overloads ==> e.1 == Compiled(s.generation, s.literals)
  }

  /** Every native dispatcher a launch can reach was built for the current literal positions. */
  ghost predicate NativesOk(s: Core) {
    && s.current.literals == s.literals
    && forall n :: n in Values(s.table) ==> n.literals == s.literals
  }

  /** m was built for what is current now: its generation for a launch-enabled key, the default
      native dispatcher for a plain one; either way for the current literal positions. */
  ghost predicate Fresh(s: Core, enabled: bool, m: Marshaller) {
    && (if enabled then m.generation == Some(s.generation) else m.native == s.current && m.generation == None)
    && m.native.literals == s.literals
  }

  ghost predicate CacheOk(s: Core) {
    && LruOk(Keys(s.cache), s.cacheUses, CONFIGURE_CACHE_SIZE)
    && forall e :: e in s.cache ==> Fresh(s, e.0.enabled, e.1)
  }

  ghost predicate TableOk(s: Core) {
    LruOk(Keys(s.table), s.tableUses, LAUNCH_CONFIG_CACHE_SIZE)
  }

  /** Every dispatcher ever registered is registered still or was retired, as often as it was
      registered, and the retained list is the tail of the retirements. */
  ghost predicate RetiredOk(s: Core, lim: Limits) {
    && s.retained == LastN(s.retired, lim.retain)
    && multiset(s.registered) == multiset(Values(s.table)) + multiset{s.current} + multiset(s.retired)
  }

  ghost predicate CoreOk(s: Core, lim: Limits) {
    && OverloadsOk(s) && NativesOk(s) && CacheOk(s) && TableOk(s) && RetiredOk(s, lim)
    && forall p :: p in s.literals ==> p < lim.params
  }

  /** How a section may move the fields other threads rely on. */
  ghost predicate Evolves(s: Core, s': Core) {
    && s.generation <= s'.generation
    && s.literals <= s'.literals
    && (s.literals != s'.literals ==> s.generation < s'.generation)
  }

  // ---- retirement ----

  lemma LastNAppend<T>(xs: seq<T>, x: T, limit: int)
    ensures LastN(LastN(xs, limit) + [x], limit) == LastN(xs + [x], limit)
  {
  }

  lemma RetainAllFacts(s: Core, ns: seq<Native>, lim: Limits)
    ensures var r := RetainAll(s, ns, lim);
            && r == s.(retained := r.retained, retired := s.retired + ns)
            && (s.retained == LastN(s.retired, lim.retain) ==> r.retained == LastN(r.retired, lim.retain))
    decreases |ns|
  {
    if ns == [] {
      assert s.retired + ns == s.retired;
    } else {
      LastNAppend(s.retired, ns[0], lim.retain);
      RetainAllFacts(Retain(s, ns[0], lim), ns[1..], lim);
      assert s.retired + [ns[0]] + ns[1..] == s.retired + ns;
    }
  }

  // ---- the table ----

  /** An insertion past the cap evicts exactly the least recently used key, all its overloads
      and no other overload, and retires its dispatcher. */
  lemma EvictFacts(s: Core, lim: Limits)
    requires |s.table| <= LAUNCH_CONFIG_CACHE_SIZE + 1
    ensures |s.table| <= LAUNCH_CONFIG_CACHE_SIZE ==> EvictOverflow(s, lim) == s
    ensures |s.table| == LAUNCH_CONFIG_CACHE_SIZE + 1 ==>
              var r := Retain(s, s.table[0].1, lim);
              EvictOverflow(s, lim) == r.(table := s.table[1..], overloads := DropKey(s.overloads, s.table[0].0))
  {
  }

  lemma ValueIn<K, V>(d: seq<(K, V)>, k: K)
    ensures IndexOf(d, k) < |d| ==> d[IndexOf(d, k)].1 in Values(d)
  {
    var i := IndexOf(d, k);
    if i < |d| { assert Values(d)[i] == d[i].1; }
  }

  lemma TouchTable(s: Core, k: LaunchKey, lim: Limits)
    requires CoreOk(s, lim) && IndexOf(s.table, k) < |s.table|
    ensures CoreOk(s.(table := MoveToEnd(s.table, k), tableUses := s.tableUses + [k]), lim)
    ensures multiset(Values(MoveToEnd(s.table, k))) == multiset(Values(s.table))
  {
    var i := IndexOf(s.table, k);
    MoveToEndFacts(s.table, k);
    TouchKeys(Keys(s.table), i, s.tableUses, LAUNCH_CONFIG_CACHE_SIZE);
    RotateElements(Values(s.table), i);
  }

  lemma ReplaceInTable(s: Core, k: LaunchKey, n: Native, lim: Limits)
    requires CoreOk(s, lim) && IndexOf(s.table, k) < |s.table| && n.literals == s.literals
    ensures var existing := s.table[IndexOf(s.table, k)].1;
            CoreOk(Retain(s, existing, lim).(table := Put(s.table, k, n), registered := s.registered + [n]), lim)
  {
    var i := IndexOf(s.table, k);
    PutPresent(s.table, k, n);
    UpdateElements(Values(s.table), i, n);
    LastNAppend(s.retired, s.table[i].1, lim.retain);
    var v, w := Values(s.table), Values(Put(s.table, k, n));
    assert v[i] == s.table[i].1;
    assert forall x :: x in w ==> x == n || x in v;
    assert multiset(w) + multiset{v[i]} == multiset(v) + multiset{n};
    assert multiset(s.registered + [n]) == multiset(s.registered) + multiset{n};
    assert multiset(s.retired + [v[i]]) == multiset(s.retired) + multiset{v[i]};
  }

  /** The state just after a new key was appended, before any eviction. */
  function Appended(s: Core, k: LaunchKey, n: Native): Core {
    s.(table := s.table + [(k, n)], tableUses := s.tableUses + [k], registered := s.registered + [n])
  }

  lemma AppendFacts(s: Core, k: LaunchKey, n: Native, lim: Limits)
    requires CoreOk(s, lim) && IndexOf(s.table, k) == |s.table| && n.literals == s.literals
    ensures var e := Appended(s, k, n);
            && Remember(s, k, n, true, lim).0 == EvictOverflow(e, lim)
            && OverloadsOk(e) && NativesOk(e) && CacheOk(e) && RetiredOk(e, lim)
            && Keys(e.table) == Keys(s.table) + [k] && |s.table| <= LAUNCH_CONFIG_CACHE_SIZE
  {
    KeysAppend(s.table, k, n);
    var v := Values(s.table);
    assert multiset(s.registered + [n]) == multiset(s.registered) + multiset{n};
    assert |Keys(s.table)| == |s.table|;
  }

  lemma EvictOk(e: Core, lim: Limits)
    requires |e.table| > 0 && OverloadsOk(e) && NativesOk(e) && CacheOk(e) && RetiredOk(e, lim)
    ensures var (key, dropped) := e.table[0];
            var r := Retain(e, dropped, lim).(table := e.table[1..], overloads := DropKey(e.overloads, key));
            OverloadsOk(r) && NativesOk(r) && CacheOk(r) && RetiredOk(r, lim)
  {
    var v, n := Values(e.table), e.table[0].1;
    KeysTail(e.table);
    LastNAppend(e.retired, n, lim.retain);
    assert v == [n] + v[1..];
    assert multiset(e.retired + [n]) == multiset(e.retired) + multiset{n};
    assert multiset(v) == multiset{n} + multiset(v[1..]);
  }

  lemma InsertInTable(s: Core, k: LaunchKey, n: Native, lim: Limits)
    requires CoreOk(s, lim) && IndexOf(s.table, k) == |s.table| && n.literals == s.literals
    ensures CoreOk(Remember(s, k, n, true, lim).0, lim)
  {
    AppendFacts(s, k, n, lim);
    AppendTrim(s.table, k, n, s.tableUses, LAUNCH_CONFIG_CACHE_SIZE);
    var e := Appended(s, k, n);
    EvictFacts(e, lim);
    if |e.table| > LAUNCH_CONFIG_CACHE_SIZE { EvictOk(e, lim); }
  }

  lemma RememberOk(s: Core, k: LaunchKey, n: Native, replaceExisting: bool, lim: Limits)
    requires CoreOk(s, lim) && n.literals == s.literals
    ensures var r := Remember(s, k, n, replaceExisting, lim);
            CoreOk(r.0, lim) && Evolves(s, r.0) && r.0.generation == s.generation
  {
    var i := IndexOf(s.table, k);
    if i < |s.table| {
      var existing := s.table[i].1;
      PutPresent(s.table, k, n);
      if existing == n {
        TouchTable(s, k, lim);
      } else if replaceExisting {
        ReplaceInTable(s, k, n, lim);
        TouchTable(Retain(s, existing, lim).(table := Put(s.table, k, n), registered := s.registered + [n]), k, lim);
      }
    } else {
      InsertInTable(s, k, n, lim);
      AppendFacts(s, k, n, lim);
      EvictFacts(Appended(s, k, n), lim);
    }
  }

  /** The dispatcher and generation a fetch returns are registered and current as it returns. */
  lemma LookupOk(s: Core, k: LaunchKey, lim: Limits)
    requires CoreOk(s, lim)
    ensures var (r, n) := Lookup(s, k);
            && CoreOk(r, lim) && Evolves(s, r) && r.generation == s.generation
            && (n.Some? ==> Get(r.table, k) == n && n.value.literals == r.literals)
  {
    if IndexOf(s.table, k) < |s.table| {
      TouchTable(s, k, lim);
      GetAfterMove(s.table, k, s.tableUses, LAUNCH_CONFIG_CACHE_SIZE);
      ValueIn(s.table, k);
    }
  }

  lemma GetOfLast<K, V>(d: seq<(K, V)>, k: K, v: V)
    requires IndexOf(d, k) == |d|
    ensures Get(d + [(k, v)], k) == Some(v)
    ensures |d| > 0 ==> Get(d[1..] + [(k, v)], k) == Some(v)
  {
    var e := d + [(k, v)];
    assert forall j :: 0 <= j < |d| ==> e[j] == d[j];
    assert e[|d|].0 == k;
    if |d| > 0 {
      var f := d[1..] + [(k, v)];
      assert forall j :: 0 <= j < |d| - 1 ==> f[j] == d[j + 1];
      assert f[|d| - 1].0 == k;
    }
  }

  lemma InsertOk(s: Core, k: LaunchKey, generation: nat, n: Native, lim: Limits)
    requires CoreOk(s, lim)
    requires generation == s.generation ==> n.literals == s.literals
    ensures var (r, m) := Insert(s, k, generation, n, lim);
            && CoreOk(r, lim) && Evolves(s, r) && r.generation == s.generation
            && (m.Some? ==> generation == r.generation && Get(r.table, k) == m && m.value.literals == r.literals)
  {
    if generation == s.generation {
      LookupOk(s, k, lim);
      if IndexOf(s.table, k) == |s.table| {
        RememberOk(s, k, n, true, lim);
        AppendFacts(s, k, n, lim);
        EvictFacts(Appended(s, k, n), lim);
        GetOfLast(s.table, k, n);
        assert |s.table| > 0 ==> (s.table + [(k, n)])[1..] == s.table[1..] + [(k, n)];
      }
    }
  }

  lemma PutIsFound(s: Core, k: LaunchKey, n: Native)
    requires TableOk(s) && IndexOf(s.table, k) < |s.table|
    ensures var t := Put(s.table, k, n); IndexOf(t, k) < |t| && Get(MoveToEnd(t, k), k) == Some(n)
  {
    PutPresent(s.table, k, n);
    GetAfterMove(Put(s.table, k, n), k, s.tableUses, LAUNCH_CONFIG_CACHE_SIZE);
  }

  /** Unless it may not replace another dispatcher registered under the key, remembering registers the
      given one, and retires the one it replaces; if it may not, nothing changes. */
  lemma RememberExact(s: Core, k: LaunchKey, n: Native, replaceExisting: bool, lim: Limits)
    requires CoreOk(s, lim) && n.literals == s.literals
    ensures var existing := Get(s.table, k);
            var (r, registered) := Remember(s, k, n, replaceExisting, lim);
            && (registered <==> existing.None? || existing == Some(n) || replaceExisting)
            && (registered ==> Get(r.table, k) == Some(n))
            && (registered && existing.Some? ==>
                  r.retired == if existing.value == n then s.retired else s.retired + [existing.value])
            && (!registered ==> r == s)
  {
    var i := IndexOf(s.table, k);
    if i < |s.table| {
      PutIsFound(s, k, n);
      if s.table[i].1 == n { GetAfterMove(s.table, k, s.tableUses, LAUNCH_CONFIG_CACHE_SIZE); }
    } else {
      AppendFacts(s, k, n, lim);
      EvictFacts(Appended(s, k, n), lim);
      GetOfLast(s.table, k, n);
      assert |s.table| > 0 ==> (s.table + [(k, n)])[1..] == s.table[1..] + [(k, n)];
    }
  }

  // ---- configure() ----

  lemma ClearOk(s: Core, lim: Limits)
    requires OverloadsOk(s) && NativesOk(s) && TableOk(s) && RetiredOk(s, lim)
    requires forall p :: p in s.literals ==> p < lim.params
    ensures CoreOk(Clear(s), lim)
  {
  }

  lemma TouchCacheOk(s: Core, key: ConfigureKey, lim: Limits)
    requires CoreOk(s, lim) && IndexOf(s.cache, key) < |s.cache|
    ensures CoreOk(TouchCache(s, key), lim)
    ensures var m := s.cache[IndexOf(s.cache, key)].1; Fresh(s, key.enabled, m)
  {
    var i := IndexOf(s.cache, key);
    MoveToEndFacts(s.cache, key);
    TouchKeys(Keys(s.cache), i, s.cacheUses, CONFIGURE_CACHE_SIZE);
    RotateElements(s.cache, i);
    assert s.cache[i] in s.cache;
  }

  lemma TrimOne<K, V>(d: seq<(K, V)>, cap: nat)
    requires |d| <= cap + 1
    ensures TrimOldest(d, cap) == if |d| > cap then d[1..] else d
  {
  }

  lemma StoreMarshallerOk(s: Core, key: ConfigureKey, m: Marshaller, lim: Limits)
    requires CoreOk(s, lim) && IndexOf(s.cache, key) == |s.cache| && Fresh(s, key.enabled, m)
    ensures CoreOk(StoreMarshaller(s, key, m), lim)
  {
    var r := StoreMarshaller(s, key, m);
    AppendTrim(s.cache, key, m, s.cacheUses, CONFIGURE_CACHE_SIZE);
    var c := s.cache + [(key, m)];
    assert Put(s.cache, key, m) == c;
    TrimOne(c, CONFIGURE_CACHE_SIZE);
    forall e | e in r.cache ensures Fresh(r, e.0.enabled, e.1) {
      assert e == (key, m) || e in s.cache;
      assert Fresh(s, e.0.enabled, e.1);
    }
  }

  lemma CloseOk(s: Core, key: ConfigureKey, event: nat, lim: Limits)
    requires CoreOk(s, lim)
    ensures CoreOk(Close(s, key, event), lim)
  {
  }

  lemma ConfigureEnterOk(s: Core, key: ConfigureKey, lim: Limits)
    requires CoreOk(s, lim)
    ensures var (r, e) := ConfigureEnter(s, key);
            && CoreOk(r, lim) && Evolves(s, r) && r.generation == s.generation
            && (e.Cached? ==> Fresh(r, key.enabled, e.m))
  {
    if IndexOf(s.cache, key) < |s.cache| { TouchCacheOk(s, key, lim); }
  }

  /** What configure() returns is fresh at the locked return point. */
  lemma ConfigureFinishOk(s: Core, key: ConfigureKey, event: nat, m: Marshaller, staleRetries: nat, lim: Limits)
    requires CoreOk(s, lim)
    requires !Stale(s, key.enabled, m) ==> Fresh(s, key.enabled, m)
    ensures var (r, f) := ConfigureFinish(s, key, event, m, staleRetries);
            && CoreOk(r, lim) && Evolves(s, r) && r.generation == s.generation && r.current == s.current
            && (f.Return? ==> Fresh(r, key.enabled, f.m))
  {
    if IndexOf(s.cache, key) < |s.cache| {
      TouchCacheOk(s, key, lim);
      CloseOk(TouchCache(s, key), key, event, lim);
    } else if Stale(s, key.enabled, m) {
      CloseOk(s, key, event, lim);
    } else {
      StoreMarshallerOk(s, key, m, lim);
      CloseOk(StoreMarshaller(s, key, m), key, event, lim);
    }
  }

  // ---- invalidation ----

  /** Everything built before is unreachable, and every dispatcher that was registered retires. */
  ghost predicate Invalidated(s: Core, r: Core) {
    && r.overloads == [] && r.table == [] && r.cache == [] && r.inflight == map[]
    && r.signalled == s.signalled + s.inflight.Values
    && r.generation == s.generation + 1
    && r.retired == s.retired + ([s.current] + Values(s.table))
  }

  lemma AllRetire(s: Core, r: Core, rebuilt: Native, lim: Limits)
    requires RetiredOk(s, lim)
    requires r.registered == s.registered + [rebuilt] && r.retired == s.retired + ([s.current] + Values(s.table))
    requires r.current == rebuilt && r.table == [] && r.retained == LastN(r.retired, lim.retain)
    ensures RetiredOk(r, lim)
  {
    assert Values(r.table) == [];
  }

  /** The state Invalidate() reaches, field by field. */
  lemma InvalidateShape(s: Core, literals: set<nat>, lim: Limits)
    requires s.retained == LastN(s.retired, lim.retain)
    ensures var r := Invalidate(s, literals, lim);
            && r == Core([], [], s.generation + 1, literals, Native(s.natives, literals), r.retained, [], map[],
                         s.signalled + s.inflight.Values, s.events, s.natives + 1, [], [],
                         s.retired + ([s.current] + Values(s.table)), s.registered + [Native(s.natives, literals)])
            && r.retained == LastN(r.retired, lim.retain)
  {
    RetainAllFacts(Rebuild(Bump(s), literals), [s.current] + Values(s.table), lim);
  }

  lemma InvalidateOk(s: Core, literals: set<nat>, lim: Limits)
    requires CoreOk(s, lim) && s.literals <= literals && forall p :: p in literals ==> p < lim.params
    ensures var r := Invalidate(s, literals, lim);
            CoreOk(r, lim) && Evolves(s, r) && Invalidated(s, r) && r.literals == literals
  {
    InvalidateShape(s, literals, lim);
    AllRetire(s, Invalidate(s, literals, lim), Native(s.natives, literals), lim);
  }

  /** Literal recording either leaves the state alone or invalidates everything built before. */
  lemma RecordLiteralsOk(s: Core, positions: set<nat>, lim: Limits)
    requires CoreOk(s, lim) && forall p :: p in positions ==> p < lim.params
    ensures var (r, changed) := RecordLiterals(s, positions, lim);
            && CoreOk(r, lim) && Evolves(s, r) && r.literals == s.literals + positions
            && (changed <==> r.literals != s.literals)
            && (if changed then Invalidated(s, r) else r == s)
  {
    if s.literals + positions != s.literals {
      InvalidateOk(s, s.literals + positions, lim);
    }
  }

  // ---- publication ----

  /** Publication is all or nothing, and only for the generation the attempt captured. */
  lemma PublishOk(s: Core, generation: nat, args: Signature, normalized: Signature, key: LaunchKey, lim: Limits)
    requires CoreOk(s, lim)
    ensures var (r, p) := Publish(s, generation, args, normalized, key, Compiled(generation, s.literals));
            && CoreOk(r, lim) && Evolves(s, r)
            && (p.Outdated? <==> generation != s.generation)
            && (!p.Published? ==> r == s)
  {
  }
}
