/** Python's OrderedDict as the dispatcher uses it: a sequence of key/value pairs, least
    recently used first.  The independent reading of "least recently used" is LruOk, which
    speaks only of the history of uses. */
module Lru {

  datatype Option<+T> = None | Some(value: T)

  /** Position of key k, or |d| when it is absent. */
  function IndexOf<K(==), V>(d: seq<(K, V)>, k: K): (i: nat)
    ensures i <= |d|
    ensures i < |d| ==> d[i].0 == k
    ensures forall j :: 0 <= j < i ==> d[j].0 != k
  {
    if d == [] then 0
    else if d[0].0 == k then 0
    else
      var i := IndexOf(d[1..], k);
      assert forall j :: 1 <= j < i + 1 ==> d[j] == d[1..][j - 1];
      i + 1
  }

  /** d.get(k) */
  function Get<K(==), V>(d: seq<(K, V)>, k: K): Option<V> {
    var i := IndexOf(d, k);
    if i < |d| then Some(d[i].1) else None
  }

  /** d[k] = v: an existing key keeps its position, a new one goes last. */
  function Put<K(==), V>(d: seq<(K, V)>, k: K, v: V): seq<(K, V)> {
    var i := IndexOf(d, k);
    if i < |d| then d[i := (k, v)] else d + [(k, v)]
  }

  /** s with its element i moved to the end. */
  function Rotate<T>(s: seq<T>, i: nat): (r: seq<T>)
    requires i < |s|
    ensures |r| == |s| && r[|s| - 1] == s[i]
    ensures forall j :: 0 <= j < |s| - 1 ==> r[j] == s[if j < i then j else j + 1]
  {
    s[..i] + s[i + 1..] + [s[i]]
  }

  /** d.move_to_end(k) */
  function MoveToEnd<K(==), V>(d: seq<(K, V)>, k: K): seq<(K, V)>
    requires IndexOf(d, k) < |d|
  {
    Rotate(d, IndexOf(d, k))
  }

  function Keys<K, V>(d: seq<(K, V)>): seq<K> {
    seq(|d|, i requires 0 <= i < |d| => d[i].0)
  }

  function Values<K, V>(d: seq<(K, V)>): seq<V> {
    seq(|d|, i requires 0 <= i < |d| => d[i].1)
  }

  /** Index of the last use of k in a history of uses, -1 when it was never used. */
  function LastUse<K(==)>(uses: seq<K>, k: K): (i: int)
    ensures -1 <= i < |uses|
    ensures i >= 0 <==> k in uses
    ensures i >= 0 ==> uses[i] == k
  {
    if uses == [] then -1
    else if uses[|uses| - 1] == k then |uses| - 1
    else LastUse(uses[..|uses| - 1], k)
  }

  /** ks lists the cap most recently used keys of the history, oldest use first. */
  ghost predicate LruOk<K>(ks: seq<K>, uses: seq<K>, cap: nat) {
    && |ks| <= cap
    && (forall i :: 0 <= i < |ks| ==> ks[i] in uses)
    && (forall i, j :: 0 <= i < j < |ks| ==> LastUse(uses, ks[i]) < LastUse(uses, ks[j]))
    && (forall k :: k in uses && k !in ks ==> |ks| == cap && OlderThanAll(uses, k, ks))
  }

  ghost predicate OlderThanAll<K>(uses: seq<K>, k: K, ks: seq<K>) {
    forall i :: 0 <= i < |ks| ==> LastUse(uses, k) < LastUse(uses, ks[i])
  }

  lemma LastUseAppend<K>(uses: seq<K>, k: K)
    ensures forall q :: LastUse(uses + [k], q) == if q == k then |uses| else LastUse(uses, q)
  {
    assert (uses + [k])[..|uses|] == uses;
  }

  lemma IndexOfKeys<K, V>(d: seq<(K, V)>, k: K)
    ensures IndexOf(d, k) < |d| <==> k in Keys(d)
  {
    var i := IndexOf(d, k);
    if i < |d| {
      assert Keys(d)[i] == k;
    }
  }

  lemma LruDistinct<K>(ks: seq<K>, uses: seq<K>, cap: nat)
    requires LruOk(ks, uses, cap)
    ensures forall i, j :: 0 <= i < j < |ks| ==> ks[i] != ks[j]
  {
  }

  lemma RotateElements<T>(s: seq<T>, i: nat)
    requires i < |s|
    ensures multiset(Rotate(s, i)) == multiset(s)
    ensures forall e :: e in Rotate(s, i) <==> e in s
  {
    assert s == s[..i] + ([s[i]] + s[i + 1..]);
    assert forall e :: e in Rotate(s, i) <==> e in multiset(Rotate(s, i));
    assert forall e :: e in s <==> e in multiset(s);
  }

  lemma UpdateElements<T>(s: seq<T>, i: nat, v: T)
    requires i < |s|
    ensures multiset(s[i := v]) + multiset{s[i]} == multiset(s) + multiset{v}
  {
  }

  /** A use of a present key makes it the most recent and changes nothing else. */
  lemma TouchKeys<K>(ks: seq<K>, i: nat, uses: seq<K>, cap: nat)
    requires LruOk(ks, uses, cap) && i < |ks|
    ensures LruOk(Rotate(ks, i), uses + [ks[i]], cap)
  {
    LastUseAppend(uses, ks[i]);
    LruDistinct(ks, uses, cap);
    RotateElements(ks, i);
  }

  lemma InTail<K>(ks: seq<K>, k: K)
    requires |ks| > 0
    ensures forall q :: q in ks && q != ks[0] ==> q in ks[1..] + [k]
  {
    assert ks == [ks[0]] + ks[1..];
  }

  /** A use of an absent key appends it; past the cap exactly the oldest key leaves. */
  lemma InsertKeys<K>(ks: seq<K>, k: K, uses: seq<K>, cap: nat)
    requires LruOk(ks, uses, cap) && k !in ks && cap > 0
    ensures LruOk(if |ks| == cap then ks[1..] + [k] else ks + [k], uses + [k], cap)
  {
    LastUseAppend(uses, k);
    if |ks| == cap {
      var r := ks[1..] + [k];
      assert forall j :: 0 <= j < |ks| - 1 ==> r[j] == ks[j + 1];
      forall q | q in uses + [k] && q !in r ensures OlderThanAll(uses + [k], q, r) {
        InTail(ks, k);
      }
    } else {
      var r := ks + [k];
      assert forall q :: q in uses + [k] ==> q in r;
    }
  }

  lemma RotateEntries<K, V>(d: seq<(K, V)>, i: nat)
    requires i < |d|
    ensures Keys(Rotate(d, i)) == Rotate(Keys(d), i)
    ensures Values(Rotate(d, i)) == Rotate(Values(d), i)
  {
  }

  lemma MoveToEndFacts<K, V>(d: seq<(K, V)>, k: K)
    requires IndexOf(d, k) < |d|
    ensures var i := IndexOf(d, k);
            && Keys(MoveToEnd(d, k)) == Rotate(Keys(d), i) && Keys(d)[i] == k
            && Values(MoveToEnd(d, k)) == Rotate(Values(d), i)
  {
    RotateEntries(d, IndexOf(d, k));
  }

  lemma UpdateEntries<K, V>(d: seq<(K, V)>, i: nat, v: V)
    requires i < |d|
    ensures Keys(d[i := (d[i].0, v)]) == Keys(d)
    ensures Values(d[i := (d[i].0, v)]) == Values(d)[i := v]
  {
  }

  lemma FirstIndex<K, V>(d: seq<(K, V)>, e: seq<(K, V)>, k: K)
    requires Keys(d) == Keys(e)
    ensures IndexOf(d, k) == IndexOf(e, k)
  {
    var i, j := IndexOf(d, k), IndexOf(e, k);
    assert |d| == |Keys(d)| == |e|;
    assert i < |d| ==> Keys(d)[i] == k && e[i].0 == Keys(e)[i];
    assert j < |d| ==> Keys(e)[j] == k && d[j].0 == Keys(d)[j];
  }

  lemma PutPresent<K, V>(d: seq<(K, V)>, k: K, v: V)
    requires IndexOf(d, k) < |d|
    ensures var i := IndexOf(d, k);
            && Keys(Put(d, k, v)) == Keys(d) && IndexOf(Put(d, k, v), k) == i
            && Values(Put(d, k, v)) == Values(d)[i := v]
  {
    var i := IndexOf(d, k);
    UpdateEntries(d, i, v);
    FirstIndex(d, d[i := (d[i].0, v)], k);
  }

  /** Moving a key of an LRU table to the end does not change what the key maps to. */
  lemma GetAfterMove<K, V>(d: seq<(K, V)>, k: K, uses: seq<K>, cap: nat)
    requires IndexOf(d, k) < |d| && LruOk(Keys(d), uses, cap)
    ensures Get(MoveToEnd(d, k), k) == Get(d, k)
  {
    var i := IndexOf(d, k);
    var m := MoveToEnd(d, k);
    LruDistinct(Keys(d), uses, cap);
    forall j | 0 <= j < |d| - 1 ensures m[j].0 != k {
      var x := if j < i then j else j + 1;
      assert Keys(d)[x] == d[x].0 && Keys(d)[i] == k && m[j] == d[x];
    }
  }

  lemma KeysTail<K, V>(d: seq<(K, V)>)
    requires |d| > 0
    ensures Keys(d[1..]) == Keys(d)[1..] && Values(d[1..]) == Values(d)[1..]
  {
  }

  lemma KeysAppend<K, V>(d: seq<(K, V)>, k: K, v: V)
    ensures Keys(d + [(k, v)]) == Keys(d) + [k] && Values(d + [(k, v)]) == Values(d) + [v]
  {
  }

  /** A new key appended, and the oldest entry dropped past the cap. */
  lemma AppendTrim<K, V>(d: seq<(K, V)>, k: K, v: V, uses: seq<K>, cap: nat)
    requires LruOk(Keys(d), uses, cap) && IndexOf(d, k) == |d| && cap > 0
    ensures var e := d + [(k, v)];
            LruOk(Keys(if |e| > cap then e[1..] else e), uses + [k], cap) && |e| <= cap + 1
  {
    IndexOfKeys(d, k);
    AppendTrimKeys(d, k, v, uses, cap);
  }

  lemma AppendTrimKeys<K, V>(d: seq<(K, V)>, k: K, v: V, uses: seq<K>, cap: nat)
    requires LruOk(Keys(d), uses, cap) && k !in Keys(d) && cap > 0
    ensures var e := d + [(k, v)];
            LruOk(Keys(if |e| > cap then e[1..] else e), uses + [k], cap) && |e| <= cap + 1
  {
    InsertKeys(Keys(d), k, uses, cap);
    KeysAppend(d, k, v);
    var e := d + [(k, v)];
    assert |Keys(d)| == |d|;
    if |e| > cap {
      KeysTail(e);
      assert (Keys(d) + [k])[1..] == Keys(d)[1..] + [k];
    }
  }
}
