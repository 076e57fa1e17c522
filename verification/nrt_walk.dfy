/** Which MemInfos the walk of nrt_context finds: one for every position of a value that holds one. */
module NrtWalk {
  import opened Lru
  import opened NrtContext

  // ---- the positions of a walk ----

  function Members(t: Type): seq<Type> {
    if t.NoModel? then [] else t.members
  }

  /** A position inside a value, as the members to descend into, holds a MemInfo of its own. */
  predicate OwnsAt(t: Type, v: Value, path: seq<nat>)
    decreases |path|
  {
    if path == [] then !t.NoModel? && t.own && v.meminfo.Some?
    else
      && path[0] < |Members(t)| && path[0] < |v.fields|
      && OwnsAt(Members(t)[path[0]], v.fields[path[0]], path[1..])
  }

  function MeminfoAt(t: Type, v: Value, path: seq<nat>): nat
    requires OwnsAt(t, v, path)
    decreases |path|
  {
    if path == [] then v.meminfo.value else MeminfoAt(Members(t)[path[0]], v.fields[path[0]], path[1..])
  }

  function Under(k: nat, paths: seq<seq<nat>>): (r: seq<seq<nat>>)
    ensures |r| == |paths| && forall i :: 0 <= i < |r| ==> r[i] == [k] + paths[i]
  {
    seq(|paths|, i requires 0 <= i < |paths| => [k] + paths[i])
  }

  /** The positions of a value that hold a MemInfo, in the order of the walk. */
  function Positions(t: Type, v: Value): seq<seq<nat>>
    decreases t, 1
  {
    if t.NoModel? then []
    else (if t.own && v.meminfo.Some? then [[]] else []) + PositionsFrom(t.members, v.fields, 0)
  }

  /** Those in members k on. */
  function PositionsFrom(ts: seq<Type>, vs: seq<Value>, k: nat): seq<seq<nat>>
    decreases ts, 0
  {
    if ts == [] || vs == [] then [] else Under(k, Positions(ts[0], vs[0])) + PositionsFrom(ts[1..], vs[1..], k + 1)
  }

  /** The walk yields the MemInfo of one position after another. */
  ghost predicate Yields(t: Type, v: Value, paths: seq<seq<nat>>, ms: seq<nat>) {
    |ms| == |paths| && forall i :: 0 <= i < |ms| ==> OwnsAt(t, v, paths[i]) && ms[i] == MeminfoAt(t, v, paths[i])
  }

  /** The same for members k on of a value with members all and fields fs. */
  ghost predicate YieldsFrom(all: seq<Type>, fs: seq<Value>, k: nat, paths: seq<seq<nat>>, ms: seq<nat>) {
    && |ms| == |paths|
    && forall i :: 0 <= i < |ms| ==>
         && paths[i] != [] && k <= paths[i][0] < |all| && paths[i][0] < |fs|
         && OwnsAt(all[paths[i][0]], fs[paths[i][0]], paths[i][1..])
         && ms[i] == MeminfoAt(all[paths[i][0]], fs[paths[i][0]], paths[i][1..])
  }

  lemma {:induction false} WalkYields(t: Type, v: Value)
    ensures Yields(t, v, Positions(t, v), Meminfos(t, v))
    decreases t, 1
  {
    if !t.NoModel? {
      MembersYield(t.members, v.fields, t.members, v.fields, 0);
      assert t.members[0..] == t.members && v.fields[0..] == v.fields;
    }
  }

  lemma {:induction false} MembersYield(all: seq<Type>, fs: seq<Value>, ts: seq<Type>, vs: seq<Value>, k: nat)
    requires k <= |all| && k <= |fs| && ts == all[k..] && vs == fs[k..]
    ensures YieldsFrom(all, fs, k, PositionsFrom(ts, vs, k), MemberMeminfos(ts, vs))
    decreases ts, 0
  {
    if ts != [] && vs != [] {
      WalkYields(ts[0], vs[0]);
      MembersYield(all, fs, ts[1..], vs[1..], k + 1);
      var here := Positions(ts[0], vs[0]);
      forall i | 0 <= i < |here| ensures Under(k, here)[i][0] == k && Under(k, here)[i][1..] == here[i] {
      }
    }
  }

  /** Every position that holds a MemInfo is walked. */
  lemma {:induction false} PositionListed(t: Type, v: Value, path: seq<nat>) returns (i: nat)
    requires OwnsAt(t, v, path)
    ensures i < |Positions(t, v)| && Positions(t, v)[i] == path
    decreases t, 1
  {
    if path == [] {
      i := 0;
    } else {
      i := MemberListed(t.members, v.fields, 0, path[0], path);
      if t.own && v.meminfo.Some? { i := i + 1; }
    }
  }

  lemma {:induction false} MemberListed(ts: seq<Type>, vs: seq<Value>, k: nat, j: nat, path: seq<nat>) returns (i: nat)
    requires path != [] && path[0] == k + j && j < |ts| && j < |vs| && OwnsAt(ts[j], vs[j], path[1..])
    ensures i < |PositionsFrom(ts, vs, k)| && PositionsFrom(ts, vs, k)[i] == path
    decreases ts, 0
  {
    var here := Under(k, Positions(ts[0], vs[0]));
    if j == 0 {
      i := PositionListed(ts[0], vs[0], path[1..]);
      assert here[i] == path;
    } else {
      var m := MemberListed(ts[1..], vs[1..], k + 1, j - 1, path);
      i := |here| + m;
    }
    assert PositionsFrom(ts, vs, k) == here + PositionsFrom(ts[1..], vs[1..], k + 1);
  }

  ghost predicate Distinct(paths: seq<seq<nat>>) {
    forall i, j :: 0 <= i < j < |paths| ==> paths[i] != paths[j]
  }

  ghost predicate AllFrom(paths: seq<seq<nat>>, k: nat) {
    forall i :: 0 <= i < |paths| ==> paths[i] != [] && paths[i][0] >= k
  }

  lemma UnderDistinct(k: nat, paths: seq<seq<nat>>)
    requires Distinct(paths)
    ensures Distinct(Under(k, paths)) && forall i :: 0 <= i < |paths| ==> Under(k, paths)[i][0] == k
  {
    var u := Under(k, paths);
    forall i, j | 0 <= i < j < |u| ensures u[i] != u[j] {
      assert u[i][1..] == paths[i] && u[j][1..] == paths[j];
    }
  }

  lemma JoinDistinct(k: nat, a: seq<seq<nat>>, b: seq<seq<nat>>)
    requires Distinct(a) && Distinct(b) && AllFrom(b, k + 1)
    requires forall i :: 0 <= i < |a| ==> a[i] != [] && a[i][0] == k
    ensures Distinct(a + b) && AllFrom(a + b, k)
  {
    var c := a + b;
    forall i, j | 0 <= i < j < |c| ensures c[i] != c[j] {
      if i < |a| && j >= |a| { assert c[i][0] == k && c[j][0] >= k + 1; }
    }
  }

  /** No position is walked twice. */
  lemma {:induction false} PositionsDistinct(t: Type, v: Value)
    ensures Distinct(Positions(t, v))
    decreases t, 1
  {
    if !t.NoModel? { MembersDistinct(t.members, v.fields, 0); }
  }

  lemma {:induction false} MembersDistinct(ts: seq<Type>, vs: seq<Value>, k: nat)
    ensures Distinct(PositionsFrom(ts, vs, k)) && AllFrom(PositionsFrom(ts, vs, k), k)
    decreases ts, 0
  {
    if ts != [] && vs != [] {
      PositionsDistinct(ts[0], vs[0]);
      MembersDistinct(ts[1..], vs[1..], k + 1);
      UnderDistinct(k, Positions(ts[0], vs[0]));
      JoinDistinct(k, Under(k, Positions(ts[0], vs[0])), PositionsFrom(ts[1..], vs[1..], k + 1));
    }
  }

  /** The walk yields the MemInfos of exactly the positions that hold one, each position once. */
  lemma WalkIsExact(t: Type, v: Value)
    ensures var paths := Positions(t, v);
            && Yields(t, v, paths, Meminfos(t, v)) && Distinct(paths)
            && forall path :: path in paths <==> OwnsAt(t, v, path)
  {
    WalkYields(t, v);
    PositionsDistinct(t, v);
    forall path | OwnsAt(t, v, path) ensures path in Positions(t, v) {
      var i := PositionListed(t, v, path);
    }
  }
}
