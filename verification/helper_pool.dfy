/** The freelist of launch helpers, and the device memory their records own, over any interleaving of
    nested and concurrent launches, failing ones included. */
module HelperPool {

  // ---- launches as steps ----

  datatype Outcome = Copied | AllocFails | CopyFails

  datatype Action =
    | Begin                       // launch_helper_get
    | Clear                       // free the previous launch's records
    | Record(outcome: Outcome)    // extract_numpy_void
    | End                         // LaunchHelperDeleter, on every exit

  /** helpers[h] lists the device allocations in helper h's record_copies; free is the freelist;
      running gives each running launch its helper.  allocs counts cuMemAlloc successes, which number
      the allocations; freed is the history of cuMemFree calls; peak is the largest number of launches
      that ever ran at once. */
  datatype State = State(
    helpers: seq<seq<nat>>,
    free: seq<nat>,
    running: map<nat, nat>,
    live: set<nat>,
    freed: seq<nat>,
    allocs: nat,
    peak: nat)

  const EMPTY := State([], [], map[], {}, [], 0, 0)

  function Max(a: nat, b: nat): nat {
    if a > b then a else b
  }

  function Elements(s: seq<nat>): set<nat> {
    set x | x in s
  }

  function Get(s: State, t: nat): State
    requires t !in s.running
  {
    var h := if s.free != [] then s.free[0] else |s.helpers|;
    var r := if s.free != [] then s.(free := s.free[1..]) else s.(helpers := s.helpers + [[]]);
    r.(running := s.running[t := h], peak := Max(s.peak, |s.running| + 1))
  }

  function Put(s: State, t: nat): State
    requires t in s.running
  {
    s.(free := [s.running[t]] + s.free, running := s.running - {t})
  }

  function FreeRecords(s: State, h: nat): State
    requires h < |s.helpers|
  {
    s.(live := s.live - Elements(s.helpers[h]), freed := s.freed + s.helpers[h], helpers := s.helpers[h := []])
  }

  function AddRecord(s: State, h: nat, outcome: Outcome): State
    requires h < |s.helpers|
  {
    match outcome
    case AllocFails => s
    case CopyFails => s.(allocs := s.allocs + 1, freed := s.freed + [s.allocs])
    case Copied =>
      s.(allocs := s.allocs + 1, live := s.live + {s.allocs}, helpers := s.helpers[h := s.helpers[h] + [s.allocs]])
  }

  function Step(s: State, t: nat, a: Action): State
    requires PoolOk(s)
  {
    if a.Begin? then (if t in s.running then s else Get(s, t))
    else if t !in s.running then s
    else
      match a
      case Clear => FreeRecords(s, s.running[t])
      case Record(outcome) => AddRecord(s, s.running[t], outcome)
      case _ => Put(s, t)
  }

  // ---- the freelist ----

  /** The freelist repeats no helper and holds none that is in use; no two launches share a helper;
      every helper is free or in use; helpers are created only at a new peak of running launches. */
  ghost predicate PoolOk(s: State) {
    && (forall i :: 0 <= i < |s.free| ==> s.free[i] < |s.helpers|)
    && (forall i, j :: 0 <= i < j < |s.free| ==> s.free[i] != s.free[j])
    && (forall t :: t in s.running ==> s.running[t] < |s.helpers| && s.running[t] !in s.free)
    && (forall t, u :: t in s.running && u in s.running && t != u ==> s.running[t] != s.running[u])
    && |s.helpers| == |s.free| + |s.running| == s.peak
  }

  lemma Insertion(m: map<nat, nat>, t: nat, h: nat)
    requires t !in m
    ensures |m[t := h]| == |m| + 1
  {
    assert m[t := h].Keys == m.Keys + {t};
  }

  lemma Removal(m: map<nat, nat>, t: nat)
    requires t in m
    ensures |m - {t}| + 1 == |m|
  {
    assert m.Keys == (m - {t}).Keys + {t};
  }

  lemma GetOk(s: State, t: nat)
    requires PoolOk(s) && t !in s.running
    ensures PoolOk(Get(s, t))
  {
    var r := Get(s, t);
    Insertion(s.running, t, r.running[t]);
    forall u | u in r.running ensures r.running[u] < |r.helpers| && r.running[u] !in r.free {
      if u == t && s.free != [] { FirstOnce(s.free); }
    }
    forall u, v | u in r.running && v in r.running && u != v ensures r.running[u] != r.running[v] {
      if s.free != [] { assert s.free[0] in s.free; }
    }
  }

  lemma FirstOnce(s: seq<nat>)
    requires s != [] && forall i, j :: 0 <= i < j < |s| ==> s[i] != s[j]
    ensures s[0] !in s[1..]
  {
  }

  lemma PutOk(s: State, t: nat)
    requires PoolOk(s) && t in s.running
    ensures PoolOk(Put(s, t))
  {
    var r := Put(s, t);
    Removal(s.running, t);
    forall i, j | 0 <= i < j < |r.free| ensures r.free[i] != r.free[j] {
      assert s.running[t] !in s.free;
    }
  }

  /** The helper that was put back last is the next one taken, and no helper is created for it. */
  lemma LastPutFirstGot(s: State, t: nat, u: nat)
    requires PoolOk(s) && t in s.running && u !in Put(s, t).running
    ensures var r := Get(Put(s, t), u); r.running[u] == s.running[t] && r.helpers == s.helpers && r.free == s.free
  {
  }

  /** Recording a copy: the helper owns the allocation, unless the copy fails and it is freed at once, or
      there is none. */
  lemma RecordExact(s: State, t: nat, outcome: Outcome)
    requires PoolOk(s) && t in s.running
    ensures var r, h := Step(s, t, Record(outcome)), s.running[t];
            match outcome
            case AllocFails => r == s
            case CopyFails =>
              r.live == s.live && r.helpers == s.helpers && r.freed == s.freed + [s.allocs] && r.allocs == s.allocs + 1
            case Copied =>
              && r.live == s.live + {s.allocs} && r.freed == s.freed && r.allocs == s.allocs + 1
              && r.helpers == s.helpers[h := s.helpers[h] + [s.allocs]]
  {
  }

  // ---- device memory ----

  /** Every live allocation is in exactly one place of one helper; nothing is freed twice or while
      live; every allocation ever made is live or freed. */
  ghost predicate MemoryOk(s: State) {
    && (forall h, i :: 0 <= h < |s.helpers| && 0 <= i < |s.helpers[h]| ==> s.helpers[h][i] in s.live)
    && (forall h, i, j :: 0 <= h < |s.helpers| && 0 <= i < j < |s.helpers[h]| ==> s.helpers[h][i] != s.helpers[h][j])
    && (forall h, g, x :: 0 <= h < g < |s.helpers| && x in s.helpers[h] ==> x !in s.helpers[g])
    && (forall x :: x in s.live ==> Held(s, x))
    && (forall i, j :: 0 <= i < j < |s.freed| ==> s.freed[i] != s.freed[j])
    && (forall x :: x in s.freed ==> x !in s.live)
    && forall x :: x in s.live || x in s.freed <==> 0 <= x < s.allocs
  }

  ghost predicate Held(s: State, x: nat) {
    exists h :: 0 <= h < |s.helpers| && x in s.helpers[h]
  }

  lemma HeldKept(s: State, r: State, x: nat)
    requires Held(s, x) && |s.helpers| <= |r.helpers|
    requires forall h :: 0 <= h < |s.helpers| ==> x in s.helpers[h] ==> x in r.helpers[h]
    ensures Held(r, x)
  {
    var h :| 0 <= h < |s.helpers| && x in s.helpers[h];
    assert x in r.helpers[h];
  }

  lemma GetMemory(s: State, t: nat)
    requires MemoryOk(s) && t !in s.running
    ensures MemoryOk(Get(s, t))
  {
    var r := Get(s, t);
    forall x | x in r.live ensures Held(r, x) { HeldKept(s, r, x); }
  }

  lemma PutMemory(s: State, t: nat)
    requires MemoryOk(s) && t in s.running
    ensures MemoryOk(Put(s, t))
  {
    var r := Put(s, t);
    forall x | x in r.live ensures Held(r, x) { HeldKept(s, r, x); }
  }

  lemma FreeMemory(s: State, h: nat)
    requires MemoryOk(s) && h < |s.helpers|
    ensures MemoryOk(FreeRecords(s, h))
  {
    var r := FreeRecords(s, h);
    forall x | x in r.live ensures Held(r, x) { HeldKept(s, r, x); }
    forall x | x in s.helpers[h] ensures x in s.live {
      var i :| 0 <= i < |s.helpers[h]| && s.helpers[h][i] == x;
    }
  }

  lemma AddMemory(s: State, h: nat, outcome: Outcome)
    requires MemoryOk(s) && h < |s.helpers|
    ensures MemoryOk(AddRecord(s, h, outcome))
  {
    var r := AddRecord(s, h, outcome);
    forall x | x in r.live ensures Held(r, x) {
      if x == s.allocs && outcome.Copied? {
        assert x in r.helpers[h];
      } else {
        HeldKept(s, r, x);
      }
    }
    forall i, j | 0 <= i < j < |r.freed| ensures r.freed[i] != r.freed[j] {
      if j == |s.freed| { assert s.freed[i] in s.freed; }
    }
  }

  // ---- whole runs ----

  lemma StepOk(s: State, t: nat, a: Action)
    requires PoolOk(s) && MemoryOk(s)
    ensures PoolOk(Step(s, t, a)) && MemoryOk(Step(s, t, a))
  {
    if a.Begin? {
      if t !in s.running {
        GetOk(s, t);
        GetMemory(s, t);
      }
    } else if t in s.running {
      match a
      case Clear => FreeMemory(s, s.running[t]);
      case Record(outcome) => AddMemory(s, s.running[t], outcome);
      case _ =>
        PutOk(s, t);
        PutMemory(s, t);
    }
  }

  function Run(s: State, steps: seq<(nat, Action)>): (r: State)
    requires PoolOk(s) && MemoryOk(s)
    ensures PoolOk(r) && MemoryOk(r)
    decreases |steps|
  {
    if steps == [] then s
    else
      StepOk(s, steps[0].0, steps[0].1);
      Run(Step(s, steps[0].0, steps[0].1), steps[1..])
  }

  /** Every allocation is held by exactly one helper until it is freed, and is freed at most once. */
  lemma AllocationsConserved(steps: seq<(nat, Action)>, x: nat)
    ensures var r := Run(EMPTY, steps);
            && (x < r.allocs <==> x in r.live || x in r.freed)
            && !(x in r.live && x in r.freed)
            && multiset(r.freed)[x] <= 1
            && (x in r.live ==> exists h :: 0 <= h < |r.helpers| && x in r.helpers[h] && multiset(r.helpers[h])[x] == 1
                                  && forall g :: 0 <= g < |r.helpers| && g != h ==> x !in r.helpers[g])
  {
    var r := Run(EMPTY, steps);
    NoRepeats(r.freed, x);
    if x in r.live {
      assert Held(r, x);
      var h :| 0 <= h < |r.helpers| && x in r.helpers[h];
      NoRepeats(r.helpers[h], x);
      assert x in multiset(r.helpers[h]);
    }
  }

  lemma {:induction false} NoRepeats(s: seq<nat>, x: nat)
    requires forall i, j :: 0 <= i < j < |s| ==> s[i] != s[j]
    ensures multiset(s)[x] <= 1
    decreases |s|
  {
    if s != [] {
      var n := |s| - 1;
      NoRepeats(s[..n], x);
      assert s == s[..n] + [s[n]];
      if s[n] == x { assert x !in s[..n]; }
    }
  }

  lemma {:induction false} RunAppend(s: State, a: seq<(nat, Action)>, b: seq<(nat, Action)>)
    requires PoolOk(s) && MemoryOk(s)
    ensures Run(s, a + b) == Run(Run(s, a), b)
    decreases |a|
  {
    if a == [] {
      assert a + b == b;
    } else {
      assert (a + b)[1..] == a[1..] + b;
      StepOk(s, a[0].0, a[0].1);
      RunAppend(Step(s, a[0].0, a[0].1), a[1..], b);
    }
  }

  lemma RunOne(p: State, last: seq<(nat, Action)>)
    requires PoolOk(p) && MemoryOk(p) && |last| == 1
    ensures Run(p, last) == Step(p, last[0].0, last[0].1)
  {
    StepOk(p, last[0].0, last[0].1);
    var rest := last[1..];
    assert |rest| == 0;
    assert Run(p, last) == Run(Step(p, last[0].0, last[0].1), rest);
  }

  lemma RunLast(s: State, steps: seq<(nat, Action)>)
    requires PoolOk(s) && MemoryOk(s) && steps != []
    ensures var n := |steps| - 1; Run(s, steps) == Step(Run(s, steps[..n]), steps[n].0, steps[n].1)
  {
    var n := |steps| - 1;
    assert steps == steps[..n] + steps[n..];
    RunAppend(s, steps[..n], steps[n..]);
    RunOne(Run(s, steps[..n]), steps[n..]);
  }

  lemma PeakStep(p: State, t: nat, a: Action)
    requires PoolOk(p)
    ensures p.peak <= Step(p, t, a).peak
    ensures Step(p, t, a).peak == p.peak || Step(p, t, a).peak == |Step(p, t, a).running|
  {
    if a.Begin? && t !in p.running { Insertion(p.running, t, Get(p, t).running[t]); }
  }

  lemma PeakLast(s: State, steps: seq<(nat, Action)>)
    requires PoolOk(s) && MemoryOk(s) && steps != []
    ensures var p, r := Run(s, steps[..|steps| - 1]), Run(s, steps);
            p.peak <= r.peak && (r.peak == p.peak || r.peak == |r.running|)
  {
    var n := |steps| - 1;
    RunLast(s, steps);
    PeakStep(Run(s, steps[..n]), steps[n].0, steps[n].1);
  }

  lemma {:induction false} PeakReached(s: State, steps: seq<(nat, Action)>) returns (k: nat)
    requires PoolOk(s) && MemoryOk(s)
    ensures k <= |steps| && s.peak <= Run(s, steps).peak
    ensures Run(s, steps).peak == s.peak || Run(s, steps).peak == |Run(s, steps[..k]).running|
    decreases |steps|
  {
    k := 0;
    if steps != [] {
      var n := |steps| - 1;
      k := PeakReached(s, steps[..n]);
      PeakLast(s, steps);
      assert steps[..n][..k] == steps[..k];
      if Run(s, steps).peak != Run(s, steps[..n]).peak {
        k := |steps|;
        assert steps[..|steps|] == steps;
      }
    }
  }

  /** The number of helpers ever created is the largest number of launches that ran at once: no
      moment exceeds it, and some moment reaches it. */
  lemma CreatedIsPeak(steps: seq<(nat, Action)>, j: nat) returns (k: nat)
    requires j <= |steps|
    ensures |Run(EMPTY, steps[..j]).running| <= |Run(EMPTY, steps).helpers|
    ensures k <= |steps| && |Run(EMPTY, steps).helpers| == |Run(EMPTY, steps[..k]).running|
  {
    k := PeakReached(EMPTY, steps);
    assert Run(EMPTY, steps[..0]) == EMPTY;
    if Run(EMPTY, steps).peak == 0 { k := 0; }
    assert steps == steps[..j] + steps[j..];
    RunAppend(EMPTY, steps[..j], steps[j..]);
    var m := PeakReached(Run(EMPTY, steps[..j]), steps[j..]);
  }

  /** After clearing, the launch's helper holds no allocation of an earlier launch. */
  lemma ClearReleases(s: State, t: nat)
    requires PoolOk(s) && MemoryOk(s) && t in s.running
    ensures var r := Step(s, t, Clear);
            && r.helpers[s.running[t]] == []
            && (forall x :: x in s.helpers[s.running[t]] ==> x !in r.live && x in r.freed)
            && forall g :: 0 <= g < |s.helpers| && g != s.running[t] ==> r.helpers[g] == s.helpers[g]
  {
  }
}
