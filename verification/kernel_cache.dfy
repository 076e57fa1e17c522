/** The kernel map of a kernel family under racing launches: find, compile outside the map, emplace,
    post-load callback, launch. */
module KernelCache {

  /** A kernel family together with the constants of a launch. */
  type Key = nat

  /** Where a launch stands.  Handles are numbered by the compilation that produced them. */
  datatype Pc =
    | Start(key: Key)
    | Missed(key: Key)
    | Compiled(key: Key, handle: nat, callback: bool)
    | Loaded(key: Key, handle: nat)           // inserted with a callback to fire
    | Ready(key: Key, handle: nat)            // kernel_iter points at the map's entry
    | Finished
    | Failed

  /** kernels is kernels_by_constants; compiled counts compilations.  The rest is history: the handles
      that came with a callback, the keys whose callback was called, those whose launch failed before
      it could be, and the (key, handle) pairs launched. */
  datatype State = State(
    kernels: map<Key, nat>,
    launches: map<nat, Pc>,
    compiled: nat,
    callbacks: set<nat>,
    fired: seq<Key>,
    dropped: set<Key>,
    launched: seq<(Key, nat)>)

  function At(s: State, t: nat, pc: Pc): State {
    s.(launches := s.launches[t := pc])
  }

  /** Outcomes the environment chooses: whether compiling fails, and whether the callback fails, in
      being called or before. */
  datatype Choice = Arrive(key: Key) | Succeed(callback: bool) | Fail(called: bool)

  function Compile(s: State, t: nat, k: Key, callback: bool): State {
    At(s, t, Compiled(k, s.compiled, callback)).(
      compiled := s.compiled + 1,
      callbacks := if callback then s.callbacks + {s.compiled} else s.callbacks)
  }

  /** emplace of an absent key; an existing entry would stay. */
  function Emplace(s: State, t: nat, k: Key, h: nat, callback: bool): State {
    At(s, t, if callback then Loaded(k, h) else Ready(k, h)).(kernels := s.kernels[k := h])
  }

  /** The post-load callback is called. */
  function Fire(s: State, t: nat, k: Key, next: Pc): State {
    At(s, t, next).(fired := s.fired + [k])
  }

  function Step(s: State, t: nat, c: Choice): State {
    if c.Arrive? then (if t in s.launches then s else At(s, t, Start(c.key)))
    else if t !in s.launches then s
    else
      match s.launches[t]
      case Start(k) => if k in s.kernels then At(s, t, Ready(k, s.kernels[k])) else At(s, t, Missed(k))
      case Missed(k) =>
        if c.Fail? then At(s, t, Failed)
        else Compile(s, t, k, c.callback)
      case Compiled(k, h, callback) =>
        if k in s.kernels then At(s, t, Ready(k, s.kernels[k])) else Emplace(s, t, k, h, callback)
      case Loaded(k, h) =>
        if !c.Fail? then Fire(s, t, k, Ready(k, h))
        else if c.called then Fire(s, t, k, Failed)
        else At(s, t, Failed).(dropped := s.dropped + {k})
      case Ready(k, h) => At(s, t, Finished).(launched := s.launched + [(k, h)])
      case _ => s
  }

  function Run(s: State, steps: seq<(nat, Choice)>): State
    decreases |steps|
  {
    if steps == [] then s else Run(Step(s, steps[0].0, steps[0].1), steps[1..])
  }

  const EMPTY := State(map[], map[], 0, {}, [], {}, [])

  // ---- invariants ----

  /** A launch about to use a handle uses the map's. */
  ghost predicate UsesStored(s: State) {
    && (forall t :: t in s.launches && (s.launches[t].Ready? || s.launches[t].Loaded?) ==>
          s.launches[t].key in s.kernels && s.kernels[s.launches[t].key] == s.launches[t].handle)
    && forall p :: p in s.launched ==> p.0 in s.kernels && s.kernels[p.0] == p.1
  }

  /** Every stored or pending handle comes from its own compilation. */
  ghost predicate HandlesDistinct(s: State) {
    && (forall k :: k in s.kernels ==> s.kernels[k] < s.compiled)
    && (forall t :: t in s.launches && s.launches[t].Compiled? ==> s.launches[t].handle < s.compiled)
    && (forall k, j :: k in s.kernels && j in s.kernels && k != j ==> s.kernels[k] != s.kernels[j])
    && (forall t, k :: t in s.launches && s.launches[t].Compiled? && k in s.kernels ==>
         s.launches[t].handle != s.kernels[k])
    && forall t, u ::
         t in s.launches && u in s.launches && t != u && s.launches[t].Compiled? && s.launches[u].Compiled? ==>
         s.launches[t].handle != s.launches[u].handle
  }

  /** At most one launch is between inserting a key and calling its callback, and only before the
      callback has been called; callbacks are called for stored keys, at most once each. */
  ghost predicate CallbacksOnce(s: State) {
    && (forall i :: 0 <= i < |s.fired| ==> s.fired[i] in s.kernels)
    && (forall i, j :: 0 <= i < j < |s.fired| ==> s.fired[i] != s.fired[j])
    && (forall t :: t in s.launches && s.launches[t].Loaded? ==>
         s.launches[t].key in s.kernels && s.launches[t].key !in s.fired)
    && forall t, u :: t in s.launches && u in s.launches && t != u && s.launches[t].Loaded? && s.launches[u].Loaded? ==>
         s.launches[t].key != s.launches[u].key
  }

  /** Some launch is about to call the callback of k. */
  ghost predicate Pending(s: State, k: Key) {
    exists t :: t in s.launches && s.launches[t].Loaded? && s.launches[t].key == k
  }

  /** A stored handle's callback has been called, is about to be, or its launch failed before; and only
      handles that came with one are called back. */
  ghost predicate CallbacksDue(s: State) {
    && (forall t :: t in s.launches && s.launches[t].Compiled? ==>
          (s.launches[t].callback <==> s.launches[t].handle in s.callbacks))
    && (forall h :: h in s.callbacks ==> h < s.compiled)
    && (forall k :: k in s.kernels && s.kernels[k] in s.callbacks ==> k in s.fired || k in s.dropped || Pending(s, k))
    && (forall k :: k in s.fired || k in s.dropped || Pending(s, k) ==> k in s.kernels && s.kernels[k] in s.callbacks)
  }

  lemma UsesStoredStep(s: State, t: nat, c: Choice)
    requires UsesStored(s)
    ensures UsesStored(Step(s, t, c))
  {
  }

  lemma HandlesCompile(s: State, t: nat, k: Key, callback: bool)
    requires HandlesDistinct(s) && t in s.launches
    ensures HandlesDistinct(Compile(s, t, k, callback))
  {
  }

  lemma HandlesEmplace(s: State, t: nat, k: Key, h: nat, callback: bool)
    requires HandlesDistinct(s) && t in s.launches && s.launches[t] == Compiled(k, h, callback) && k !in s.kernels
    ensures HandlesDistinct(Emplace(s, t, k, h, callback))
  {
  }

  lemma HandlesMove(s: State, t: nat, pc: Pc)
    requires HandlesDistinct(s) && !pc.Compiled?
    ensures HandlesDistinct(At(s, t, pc))
  {
  }

  lemma HandlesStep(s: State, t: nat, c: Choice)
    requires HandlesDistinct(s)
    ensures HandlesDistinct(Step(s, t, c))
  {
    if t in s.launches && s.launches[t].Missed? && !c.Fail? && !c.Arrive? {
      HandlesCompile(s, t, s.launches[t].key, c.callback);
    } else if t in s.launches && s.launches[t].Compiled? && s.launches[t].key !in s.kernels && !c.Arrive? {
      HandlesEmplace(s, t, s.launches[t].key, s.launches[t].handle, s.launches[t].callback);
    } else if Step(s, t, c) != s {
      HandlesMove(s, t, Step(s, t, c).launches[t]);
    }
  }

  lemma CallbacksEmplace(s: State, t: nat, k: Key, h: nat, callback: bool)
    requires CallbacksOnce(s) && t in s.launches && k !in s.kernels
    ensures CallbacksOnce(Emplace(s, t, k, h, callback))
  {
  }

  lemma CallbacksFire(s: State, t: nat, k: Key, next: Pc)
    requires CallbacksOnce(s) && t in s.launches && s.launches[t].Loaded? && s.launches[t].key == k && !next.Loaded?
    ensures CallbacksOnce(Fire(s, t, k, next))
  {
  }

  lemma CallbacksMove(s: State, t: nat, r: State)
    requires CallbacksOnce(s) && r.kernels == s.kernels && r.fired == s.fired
    requires t in r.launches && r.launches == s.launches[t := r.launches[t]] && !r.launches[t].Loaded?
    ensures CallbacksOnce(r)
  {
  }

  lemma CallbacksStep(s: State, t: nat, c: Choice)
    requires CallbacksOnce(s)
    ensures CallbacksOnce(Step(s, t, c))
  {
    var r := Step(s, t, c);
    if t in s.launches && s.launches[t].Compiled? && s.launches[t].key !in s.kernels && !c.Arrive? {
      CallbacksEmplace(s, t, s.launches[t].key, s.launches[t].handle, s.launches[t].callback);
    } else if t in s.launches && s.launches[t].Loaded? && !c.Arrive? && (c.Fail? ==> c.called) {
      CallbacksFire(s, t, s.launches[t].key, r.launches[t]);
    } else if r != s {
      CallbacksMove(s, t, r);
    }
  }

  lemma DueMove(s: State, t: nat, r: State)
    requires CallbacksDue(s) && t in r.launches && !(t in s.launches && s.launches[t].Loaded?)
    requires !r.launches[t].Compiled? && !r.launches[t].Loaded?
    requires r == s.(launches := s.launches[t := r.launches[t]], launched := r.launched)
    ensures CallbacksDue(r)
  {
    forall k ensures Pending(s, k) <==> Pending(r, k) {
      if Pending(s, k) {
        var u :| u in s.launches && s.launches[u].Loaded? && s.launches[u].key == k;
        assert r.launches[u] == s.launches[u];
      }
    }
  }

  lemma DueCompile(s: State, t: nat, k: Key, callback: bool)
    requires CallbacksDue(s) && HandlesDistinct(s) && t in s.launches && s.launches[t].Missed?
    ensures CallbacksDue(Compile(s, t, k, callback))
  {
    var r := Compile(s, t, k, callback);
    forall j ensures Pending(s, j) <==> Pending(r, j) {
      if Pending(s, j) {
        var u :| u in s.launches && s.launches[u].Loaded? && s.launches[u].key == j;
        assert r.launches[u] == s.launches[u];
      }
    }
  }

  lemma DueEmplace(s: State, t: nat, k: Key, h: nat, callback: bool)
    requires CallbacksDue(s) && t in s.launches && s.launches[t] == Compiled(k, h, callback) && k !in s.kernels
    ensures CallbacksDue(Emplace(s, t, k, h, callback))
  {
    var r := Emplace(s, t, k, h, callback);
    forall j ensures Pending(r, j) <==> Pending(s, j) || (j == k && callback) {
      if Pending(s, j) {
        var u :| u in s.launches && s.launches[u].Loaded? && s.launches[u].key == j;
        assert r.launches[u] == s.launches[u];
      }
      if callback { assert r.launches[t] == Loaded(k, h); }
    }
  }

  /** A launch calls its callback, or fails before it can. */
  lemma DueEnds(s: State, t: nat, r: State)
    requires CallbacksDue(s) && CallbacksOnce(s) && t in s.launches && s.launches[t].Loaded?
    requires t in r.launches && !r.launches[t].Loaded? && !r.launches[t].Compiled?
    requires r.launches == s.launches[t := r.launches[t]]
    requires r == s.(launches := r.launches, fired := r.fired, dropped := r.dropped)
    requires var k := s.launches[t].key;
             || (r.fired == s.fired + [k] && r.dropped == s.dropped)
             || (r.fired == s.fired && r.dropped == s.dropped + {k})
    ensures CallbacksDue(r)
  {
    forall j | j != s.launches[t].key ensures Pending(r, j) <==> Pending(s, j) {
      if Pending(s, j) {
        var u :| u in s.launches && s.launches[u].Loaded? && s.launches[u].key == j;
        assert r.launches[u] == s.launches[u];
      }
    }
    assert Pending(s, s.launches[t].key);
    forall j | Pending(r, j) ensures Pending(s, j) {
      var u :| u in r.launches && r.launches[u].Loaded? && r.launches[u].key == j;
      assert s.launches[u] == r.launches[u];
    }
  }

  lemma DueStep(s: State, t: nat, c: Choice)
    requires CallbacksDue(s) && CallbacksOnce(s) && HandlesDistinct(s)
    ensures CallbacksDue(Step(s, t, c))
  {
    var r := Step(s, t, c);
    if !c.Arrive? && t in s.launches && s.launches[t].Missed? && !c.Fail? {
      DueCompile(s, t, s.launches[t].key, c.callback);
    } else if !c.Arrive? && t in s.launches && s.launches[t].Compiled? && s.launches[t].key !in s.kernels {
      DueEmplace(s, t, s.launches[t].key, s.launches[t].handle, s.launches[t].callback);
    } else if !c.Arrive? && t in s.launches && s.launches[t].Loaded? {
      DueEnds(s, t, r);
    } else if r != s {
      DueMove(s, t, r);
    }
  }

  // ---- whole runs ----

  /** A stored handle is never replaced. */
  lemma {:induction false} FirstHandleForever(s: State, steps: seq<(nat, Choice)>, k: Key)
    requires k in s.kernels
    ensures k in Run(s, steps).kernels && Run(s, steps).kernels[k] == s.kernels[k]
    decreases |steps|
  {
    if steps != [] { FirstHandleForever(Step(s, steps[0].0, steps[0].1), steps[1..], k); }
  }

  /** However launches race: every launch uses its key's stored handle, different keys have different
      handles, and a callback fires at most once per key, after the key's handle is stored. */
  lemma {:induction false} RacesAreHarmless(s: State, steps: seq<(nat, Choice)>)
    requires UsesStored(s) && HandlesDistinct(s) && CallbacksOnce(s)
    ensures UsesStored(Run(s, steps)) && HandlesDistinct(Run(s, steps)) && CallbacksOnce(Run(s, steps))
    decreases |steps|
  {
    if steps != [] {
      UsesStoredStep(s, steps[0].0, steps[0].1);
      HandlesStep(s, steps[0].0, steps[0].1);
      CallbacksStep(s, steps[0].0, steps[0].1);
      RacesAreHarmless(Step(s, steps[0].0, steps[0].1), steps[1..]);
    }
  }

  /** A launch that finds its key uses the stored handle without compiling; one that does not compiles
      at most once, and uses what is stored by then. */
  lemma LaunchUsesStored(s: State, t: nat, c: Choice)
    requires t in s.launches && !c.Arrive?
    ensures var r := Step(s, t, c);
            && (s.launches[t].Start? && s.launches[t].key in s.kernels ==>
                  r == At(s, t, Ready(s.launches[t].key, s.kernels[s.launches[t].key])))
            && (r.compiled != s.compiled ==> s.launches[t].Missed? && r.launches[t].Compiled?)
            && (s.launches[t].Compiled? ==>
                  && (r.launches[t].Loaded? || r.launches[t].Ready?) && r.launches[t].key == s.launches[t].key
                  && s.launches[t].key in r.kernels && r.launches[t].handle == r.kernels[s.launches[t].key]
                  && (s.launches[t].key !in s.kernels ==> r.launches[t].handle == s.launches[t].handle))
            && (s.launches[t].Ready? ==> r.launched == s.launched + [(s.launches[t].key, s.launches[t].handle)])
  {
  }

  /** A launch whose compilation or callback fails stores nothing and never runs its kernel. */
  lemma FailuresStop(s: State, t: nat, called: bool)
    requires t in s.launches && (s.launches[t].Missed? || s.launches[t].Loaded?)
    ensures var r := Step(s, t, Fail(called));
            r.launches[t] == Failed && r.kernels == s.kernels && r.launched == s.launched && r.compiled == s.compiled
    ensures forall c :: Step(Step(s, t, Fail(called)), t, c) == Step(s, t, Fail(called))
  {
  }

  lemma {:induction false} DueRun(s: State, steps: seq<(nat, Choice)>)
    requires CallbacksDue(s) && CallbacksOnce(s) && HandlesDistinct(s)
    ensures CallbacksDue(Run(s, steps))
    decreases |steps|
  {
    if steps != [] {
      DueStep(s, steps[0].0, steps[0].1);
      HandlesStep(s, steps[0].0, steps[0].1);
      CallbacksStep(s, steps[0].0, steps[0].1);
      DueRun(Step(s, steps[0].0, steps[0].1), steps[1..]);
    }
  }

  /** From an empty family: once no launch is between storing a handle and calling back, the callbacks
      called are exactly those of the stored handles that came with one, but for the keys whose launch
      failed before it could call. */
  lemma CallbacksCalled(steps: seq<(nat, Choice)>, k: Key)
    requires forall t :: t in Run(EMPTY, steps).launches ==> !Run(EMPTY, steps).launches[t].Loaded?
    ensures var r := Run(EMPTY, steps);
            (k in r.kernels && r.kernels[k] in r.callbacks) <==> (k in r.fired || k in r.dropped)
  {
    DueRun(EMPTY, steps);
    assert !Pending(Run(EMPTY, steps), k);
  }

  /** From an empty family: all launches of one key, in any interleaving, run the same handle. */
  lemma SameKeySameHandle(steps: seq<(nat, Choice)>, i: nat, j: nat)
    requires var r := Run(EMPTY, steps);
             i < |r.launched| && j < |r.launched| && r.launched[i].0 == r.launched[j].0
    ensures Run(EMPTY, steps).launched[i] == Run(EMPTY, steps).launched[j]
  {
    RacesAreHarmless(EMPTY, steps);
    var r := Run(EMPTY, steps);
    assert r.launched[i] in r.launched && r.launched[j] in r.launched;
  }

  // ---- the map itself ----

  /** KernelFamily: the map from constants to loaded kernels. */
  class KernelFamily {
    var kernelsByConstants: map<Key, nat>

    constructor ()
      ensures kernelsByConstants == map[]
    {
      kernelsByConstants := map[];
    }

    /** emplace: keeps an existing entry, and says whether it inserted. */
    method Emplace(key: Key, handle: nat) returns (stored: nat, inserted: bool)
      modifies this
      ensures key in kernelsByConstants && stored == kernelsByConstants[key]
      ensures inserted <==> key !in old(kernelsByConstants)
      ensures kernelsByConstants == if inserted then old(kernelsByConstants)[key := handle] else old(kernelsByConstants)
    {
      inserted := key !in kernelsByConstants;
      if inserted { kernelsByConstants := kernelsByConstants[key := handle]; }
      stored := kernelsByConstants[key];
    }
  }
}
