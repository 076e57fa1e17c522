/** Look-up and publication of launch-config overloads: what a launch finds, and that publishing
    neither replaces nor duplicates what is already there. */
module DispatcherPublication {
  import opened Lru
  import opened NumbaTypes
  import opened DispatcherState

  /** Overload e serves arguments args under launch key key. */
  predicate Serves(e: ((Signature, LaunchKey), Compiled), args: Signature, key: LaunchKey) {
    e.0.1 == key && CanReuseAll(e.0.0, args)
  }

  lemma {:induction false} FirstReusableFacts(d: Overloads, args: Signature, key: LaunchKey) returns (i: nat)
    ensures FirstReusable(d, args, key).None? ==> forall e :: e in d ==> !Serves(e, args, key)
    ensures FirstReusable(d, args, key).Some? ==>
              && i < |d| && Serves(d[i], args, key) && FirstReusable(d, args, key) == Some(d[i].1)
              && forall j :: 0 <= j < i ==> !Serves(d[j], args, key)
    decreases |d|
  {
    i := 0;
    if d != [] {
      assert d == [d[0]] + d[1..];
      if !Serves(d[0], args, key) {
        var k := FirstReusableFacts(d[1..], args, key);
        i := k + 1;
        assert forall j :: 1 <= j < |d| ==> d[j] == d[1..][j - 1];
      }
    }
  }

  /** The look-up finds an overload exactly when one serves the arguments under the launch key, and
      what it finds serves them. */
  lemma FindOverloadFacts(d: Overloads, args: Signature, key: LaunchKey)
    ensures FindOverload(d, args, key).Some? <==> exists e :: e in d && Serves(e, args, key)
    ensures FindOverload(d, args, key).Some? ==>
              exists e :: e in d && Serves(e, args, key) && FindOverload(d, args, key) == Some(e.1)
    ensures Get(d, (args, key)).Some? ==> FindOverload(d, args, key) == Get(d, (args, key))
  {
    var i := IndexOf(d, (args, key));
    if i < |d| {
      assert d[i] in d && Serves(d[i], args, key);
    } else {
      var k := FirstReusableFacts(d, args, key);
      if FirstReusable(d, args, key).Some? { assert d[k] in d; }
    }
  }

  lemma {:induction false} GetAppended(d: Overloads, k: (Signature, LaunchKey), v: Compiled, q: (Signature, LaunchKey))
    requires Get(d, k).None?
    ensures Get(d + [(k, v)], q) == if q == k then Some(v) else Get(d, q)
    decreases |d|
  {
    if d != [] {
      assert (d + [(k, v)])[1..] == d[1..] + [(k, v)];
      if d[0].0 != q { GetAppended(d[1..], k, v, q); }
    }
  }

  lemma SetDefaultFacts(d: Overloads, k: (Signature, LaunchKey), v: Compiled, q: (Signature, LaunchKey))
    ensures Get(SetDefault(d, k, v), q) == if q == k && Get(d, k).None? then Some(v) else Get(d, q)
  {
    if Get(d, k).None? { GetAppended(d, k, v, q); }
  }

  /** Publication under the lock: it happens exactly when the generation is the captured one and no
      overload serves the request; then both signatures find the result, and every other entry is as
      before.  Otherwise nothing changes, and an overload already there is returned instead. */
  lemma PublicationFacts(s: Core, generation: nat, args: Signature, normalized: Signature, key: LaunchKey,
        result: Compiled,
                         q: (Signature, LaunchKey))
    ensures var (r, p) := Publish(s, generation, args, normalized, key, result);
            var served :=
              FindOverload(s.overloads, args, key).Some? || FindOverload(s.overloads, normalized, key).Some?;
            && (p.Outdated? <==> generation != s.generation)
            && (p.Published? <==> generation == s.generation && !served)
            && (p.Existing? ==> Some(p.result) == FindOverload(s.overloads, args, key)
                                || Some(p.result) == FindOverload(s.overloads, normalized, key))
            && (!p.Published? ==> r == s)
            && (p.Published? ==>
                  && FindOverload(r.overloads, args, key) == Some(result)
                  && FindOverload(r.overloads, normalized, key) == Some(result)
                  && (q != (args, key) && q != (normalized, key) ==> Get(r.overloads, q) == Get(s.overloads, q)))
  {
    var p := Publish(s, generation, args, normalized, key, result).1;
    if p.Published? {
      var d := SetDefault(s.overloads, (args, key), result);
      SetDefaultFacts(s.overloads, (args, key), result, (args, key));
      SetDefaultFacts(s.overloads, (args, key), result, (normalized, key));
      SetDefaultFacts(s.overloads, (args, key), result, q);
      SetDefaultFacts(d, (normalized, key), result, (args, key));
      SetDefaultFacts(d, (normalized, key), result, (normalized, key));
      SetDefaultFacts(d, (normalized, key), result, q);
      FindOverloadFacts(s.overloads, args, key);
      FindOverloadFacts(s.overloads, normalized, key);
    }
  }
}
