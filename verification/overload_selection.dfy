/** TypeManager: compatibility of types and selection of the best rated overloads. */
module OverloadSelection {
  import opened Lru
  import opened Ratings
  import opened TypeConv

  /** isCompatible */
  function Compatible(log: seq<Record>, source: int, target: int): Code {
    if source == target then Exact else LastWrite(log, (source, target))
  }

  predicate Rejected(tcc: Code, allowUnsafe: bool, exactRequired: bool) {
    tcc == TccFalse || (tcc == ConvertUnsafe && !allowUnsafe) || (tcc != Exact && exactRequired)
  }

  /** What one argument adds to a rating. */
  function Penalty(tcc: Code): Rating {
    match tcc
    case Promote => Rating(0, 0, 1)
    case ConvertSafe => Rating(0, 1, 0)
    case ConvertUnsafe => Rating(1, 0, 0)
    case _ => ZERO
  }

  /** The rating of an overload's signature; None when an argument is incompatible. */
  function Rate(log: seq<Record>, sig: seq<int>, entry: seq<int>, allowUnsafe: bool,
        exactRequired: bool): Option<Rating>
    requires |sig| == |entry|
    decreases |sig|
  {
    if sig == [] then Some(ZERO)
    else
      var n := |sig| - 1;
      var tcc := Compatible(log, sig[n], entry[n]);
      match Rate(log, sig[..n], entry[..n], allowUnsafe, exactRequired)
      case None => None
      case Some(r) => if Rejected(tcc, allowUnsafe, exactRequired) then None else Some(Add(r, Penalty(tcc)))
  }

  /** Signature i of the flattened signature table. */
  function Entry(ovsigs: seq<int>, sigsz: nat, i: nat): (e: seq<int>)
    requires i * sigsz + sigsz <= |ovsigs|
    ensures |e| == sigsz && forall k :: 0 <= k < sigsz ==> e[k] == ovsigs[i * sigsz + k]
  {
    ovsigs[i * sigsz..i * sigsz + sigsz]
  }

  lemma {:induction false} RowsFit(i: nat, n: nat, sigsz: nat)
    requires i < n
    ensures i * sigsz + sigsz <= n * sigsz
    decreases n
  {
    if i < n - 1 { RowsFit(i, n - 1, sigsz); }
    assert n * sigsz == (n - 1) * sigsz + sigsz;
  }

  function RatingOf(log: seq<Record>, sig: seq<int>, ovsigs: seq<int>, i: nat, ovct: nat, allowUnsafe: bool,
        exactRequired: bool): Option<Rating>
    requires i < ovct && |ovsigs| == ovct * |sig|
  {
    RowsFit(i, ovct, |sig|);
    Rate(log, sig, Entry(ovsigs, |sig|, i), allowUnsafe, exactRequired)
  }

  /** The ratings of all overloads, in order. */
  ghost function Table(log: seq<Record>, sig: seq<int>, ovsigs: seq<int>, ovct: nat, allowUnsafe: bool,
        exactRequired: bool): (rs: seq<Option<Rating>>)
    requires |ovsigs| == ovct * |sig|
    ensures |rs| == ovct
  {
    seq(ovct, i requires 0 <= i < ovct => RatingOf(log, sig, ovsigs, i, ovct, allowUnsafe, exactRequired))
  }

  /** selected is the first overload of least rating, and count the number of overloads with it. */
  ghost predicate FirstBest(rs: seq<Option<Rating>>, selected: int, count: int) {
    && 0 <= selected < |rs| && rs[selected].Some?
    && (forall i :: 0 <= i < |rs| && rs[i].Some? ==> !Less(rs[i].value, rs[selected].value))
    && (forall i :: 0 <= i < selected ==> rs[i] != rs[selected])
    && count == multiset(rs)[rs[selected]]
  }

  // ---- the two passes ----

  /** The viable overloads among the first n, in order. */
  function Viable(rs: seq<Option<Rating>>): seq<nat> {
    if rs == [] then []
    else
      var n := |rs| - 1;
      Viable(rs[..n]) + if rs[n].Some? then [n] else []
  }

  lemma ViableStep(rs: seq<Option<Rating>>, i: nat)
    requires i < |rs|
    ensures Viable(rs[..i + 1]) == Viable(rs[..i]) + if rs[i].Some? then [i] else []
    ensures ViableRatings(rs[..i + 1]) == ViableRatings(rs[..i]) + if rs[i].Some? then [rs[i].value] else []
  {
    assert rs[..i + 1][..i] == rs[..i];
  }

  lemma {:induction false} ViableOnly(rs: seq<Option<Rating>>)
    ensures |Viable(rs)| <= |rs|
    ensures forall k :: 0 <= k < |Viable(rs)| ==> Viable(rs)[k] < |rs| && rs[Viable(rs)[k]].Some?
    ensures forall k, m :: 0 <= k < m < |Viable(rs)| ==> Viable(rs)[k] < Viable(rs)[m]
    decreases |rs|
  {
    if rs != [] { ViableOnly(rs[..|rs| - 1]); }
  }

  /** Every viable overload has a candidate slot. */
  lemma {:induction false} ViableAll(rs: seq<Option<Rating>>, i: nat) returns (k: nat)
    requires i < |rs| && rs[i].Some?
    ensures k < |Viable(rs)| && Viable(rs)[k] == i
    decreases |rs|
  {
    var n := |rs| - 1;
    if i < n { k := ViableAll(rs[..n], i); } else { k := |Viable(rs[..n])|; }
  }

  /** Ratings of the viable overloads. */
  function ViableRatings(rs: seq<Option<Rating>>): seq<Rating> {
    if rs == [] then []
    else
      var n := |rs| - 1;
      ViableRatings(rs[..n]) + if rs[n].Some? then [rs[n].value] else []
  }

  lemma {:induction false} ViableRatingsFacts(rs: seq<Option<Rating>>)
    ensures |ViableRatings(rs)| == |Viable(rs)|
    ensures forall k :: 0 <= k < |Viable(rs)| ==>
              Viable(rs)[k] < |rs| && rs[Viable(rs)[k]] == Some(ViableRatings(rs)[k])
    ensures forall r :: multiset(ViableRatings(rs))[r] == multiset(rs)[Some(r)]
    decreases |rs|
  {
    if rs != [] {
      var n := |rs| - 1;
      ViableRatingsFacts(rs[..n]);
      assert rs == rs[..n] + [rs[n]];
    }
  }

  /** Position at holds the first least rating, which occurs count times. */
  ghost predicate LowestAt(rs: seq<Rating>, at: nat, count: int) {
    && at < |rs|
    && (forall k :: 0 <= k < |rs| ==> !Less(rs[k], rs[at]))
    && (forall k :: 0 <= k < at ==> rs[k] != rs[at])
    && count == multiset(rs)[rs[at]]
  }

  /** The loop over the viable ratings. */
  method FindLowest(ratings: array<Rating>, candidates: array<int>, n: nat) returns (selected: int, matchcount: int)
    requires 0 < n <= ratings.Length && n <= candidates.Length
    ensures exists at: nat :: LowestAt(ratings[..n], at, matchcount) && selected == candidates[at]
  {
    var best := ratings[0];
    selected := candidates[0];
    ghost var at := 0;
    matchcount := 1;
    assert ratings[..1] == [ratings[0]];
    for i := 1 to n
      invariant at < i && selected == candidates[at] && best == ratings[at]
      invariant forall k :: 0 <= k < i ==> !Less(ratings[k], best)
      invariant forall k :: 0 <= k < at ==> ratings[k] != best
      invariant matchcount == multiset(ratings[..i])[best]
    {
      assert ratings[..i + 1] == ratings[..i] + [ratings[i]];
      if Less(ratings[i], best) {
        assert ratings[i] !in multiset(ratings[..i]);
        best := ratings[i];
        selected := candidates[i];
        at := i;
        matchcount := 1;
      } else if ratings[i] == best {
        matchcount := matchcount + 1;
      }
    }
    assert LowestAt(ratings[..n], at, matchcount);
  }

  /** The best among the viable ratings is the first best overload. */
  lemma LowestIsFirstBest(rs: seq<Option<Rating>>, at: nat, count: int)
    requires at < |Viable(rs)| && |ViableRatings(rs)| == |Viable(rs)|
    requires forall k :: 0 <= k < |Viable(rs)| ==> !Less(ViableRatings(rs)[k], ViableRatings(rs)[at])
    requires forall k :: 0 <= k < at ==> ViableRatings(rs)[k] != ViableRatings(rs)[at]
    requires count == multiset(ViableRatings(rs))[ViableRatings(rs)[at]]
    ensures FirstBest(rs, Viable(rs)[at], count)
  {
    ViableOnly(rs);
    ViableRatingsFacts(rs);
    var selected := Viable(rs)[at];
    forall i | 0 <= i < |rs| && rs[i].Some? ensures !Less(rs[i].value, rs[selected].value) {
      var k := ViableAll(rs, i);
    }
    forall i | 0 <= i < selected ensures rs[i] != rs[selected] {
      if rs[i].Some? {
        var k := ViableAll(rs, i);
      }
    }
  }

  lemma NoneViable(rs: seq<Option<Rating>>)
    requires Viable(rs) == []
    ensures forall i :: 0 <= i < |rs| ==> rs[i].None?
  {
    forall i | 0 <= i < |rs| ensures rs[i].None? {
      if rs[i].Some? { var k := ViableAll(rs, i); }
    }
  }

  /** An incompatible argument makes the whole signature incompatible. */
  lemma {:induction false} RejectedPrefix(log: seq<Record>, s: seq<int>, e: seq<int>, n: nat, allowUnsafe: bool,
        exactRequired: bool)
    requires n <= |s| == |e| && Rate(log, s[..n], e[..n], allowUnsafe, exactRequired) == None
    ensures Rate(log, s, e, allowUnsafe, exactRequired) == None
    decreases |s|
  {
    if n < |s| {
      var m := |s| - 1;
      assert s[..m][..n] == s[..n] && e[..m][..n] == e[..n];
      RejectedPrefix(log, s[..m], e[..m], n, allowUnsafe, exactRequired);
    } else {
      assert s[..n] == s && e[..n] == e;
    }
  }

  // ---- what a rating counts ----

  /** The compatibility of each argument. */
  function Codes(log: seq<Record>, sig: seq<int>, entry: seq<int>): (cs: seq<Code>)
    requires |sig| == |entry|
    ensures |cs| == |sig|
  {
    seq(|sig|, k requires 0 <= k < |sig| => Compatible(log, sig[k], entry[k]))
  }

  function Tally(cs: seq<Code>, code: Code): nat {
    if cs == [] then 0 else Tally(cs[..|cs| - 1], code) + One(cs[|cs| - 1], code)
  }

  /** How many arguments have the given compatibility. */
  function Number(log: seq<Record>, sig: seq<int>, entry: seq<int>, code: Code): nat
    requires |sig| == |entry|
  {
    Tally(Codes(log, sig, entry), code)
  }

  /** Every argument is compatible, by conversions that are allowed. */
  predicate AllAllowed(cs: seq<Code>, allowUnsafe: bool, exactRequired: bool) {
    forall k :: 0 <= k < |cs| ==>
      cs[k] != TccFalse && (cs[k] == ConvertUnsafe ==> allowUnsafe) && (exactRequired ==> cs[k] == Exact)
  }

  predicate Acceptable(log: seq<Record>, sig: seq<int>, entry: seq<int>, allowUnsafe: bool, exactRequired: bool)
    requires |sig| == |entry|
  {
    AllAllowed(Codes(log, sig, entry), allowUnsafe, exactRequired)
  }

  /** r counts the unsafe conversions, the safe conversions and the promotions among cs. */
  predicate CountsCodes(r: Rating, cs: seq<Code>) {
    r == Rating(Tally(cs, ConvertUnsafe), Tally(cs, ConvertSafe), Tally(cs, Promote))
  }

  lemma OneMore(cs: seq<Code>, c: Code, d: Code)
    ensures Tally(cs + [c], d) == Tally(cs, d) + One(c, d)
  {
    assert (cs + [c])[..|cs|] == cs;
  }

  function One(c: Code, d: Code): nat {
    if c == d then 1 else 0
  }

  lemma PenaltyCounts(r: Rating, c: Code)
    ensures Add(r, Penalty(c)) ==
            Rating(r.unsafe + One(c, ConvertUnsafe), r.safe + One(c, ConvertSafe), r.promote + One(c, Promote))
  {
  }

  lemma CountsNext(r: Rating, cs: seq<Code>, c: Code, s: Rating)
    requires CountsCodes(r, cs)
    requires s == Rating(r.unsafe + One(c, ConvertUnsafe), r.safe + One(c, ConvertSafe), r.promote + One(c, Promote))
    ensures CountsCodes(s, cs + [c])
  {
    OneMore(cs, c, ConvertUnsafe);
    OneMore(cs, c, ConvertSafe);
    OneMore(cs, c, Promote);
  }

  lemma CountsOneMore(r: Rating, cs: seq<Code>, c: Code)
    requires CountsCodes(r, cs)
    ensures CountsCodes(Add(r, Penalty(c)), cs + [c])
  {
    PenaltyCounts(r, c);
    CountsNext(r, cs, c, Add(r, Penalty(c)));
  }

  lemma AllowedOneMore(cs: seq<Code>, c: Code, allowUnsafe: bool, exactRequired: bool)
    ensures AllAllowed(cs + [c], allowUnsafe, exactRequired) <==>
            AllAllowed(cs, allowUnsafe, exactRequired) && !Rejected(c, allowUnsafe, exactRequired)
  {
    var all := cs + [c];
    if AllAllowed(all, allowUnsafe, exactRequired) {
      assert all[|cs|] == c;
      assert forall k :: 0 <= k < |cs| ==> cs[k] == all[k];
    }
  }

  /** A rating exists exactly for an acceptable signature, and counts its unsafe conversions, safe
      conversions and promotions. */
  lemma {:induction false} RateCounts(log: seq<Record>, sig: seq<int>, entry: seq<int>, allowUnsafe: bool,
        exactRequired: bool)
    requires |sig| == |entry|
    ensures var r, cs := Rate(log, sig, entry, allowUnsafe, exactRequired), Codes(log, sig, entry);
            (r.Some? <==> AllAllowed(cs, allowUnsafe, exactRequired)) && (r.Some? ==> CountsCodes(r.value, cs))
    decreases |sig|
  {
    if sig != [] {
      var n := |sig| - 1;
      RateCounts(log, sig[..n], entry[..n], allowUnsafe, exactRequired);
      var cs, c := Codes(log, sig[..n], entry[..n]), Compatible(log, sig[n], entry[n]);
      assert Codes(log, sig, entry) == cs + [c];
      AllowedOneMore(cs, c, allowUnsafe, exactRequired);
      var r := Rate(log, sig[..n], entry[..n], allowUnsafe, exactRequired);
      if r.Some? { CountsOneMore(r.value, cs, c); }
    }
  }

  /** Signature f needs no more conversions than e: fewer unsafe ones; or as many, and fewer safe ones;
      or as many of both, and no more promotions. */
  predicate NoMoreThan(log: seq<Record>, sig: seq<int>, f: seq<int>, e: seq<int>)
    requires |sig| == |e| == |f|
  {
    var unsafe, safe := Number(log, sig, f, ConvertUnsafe), Number(log, sig, f, ConvertSafe);
    || unsafe < Number(log, sig, e, ConvertUnsafe)
    || (unsafe == Number(log, sig, e, ConvertUnsafe) &&
        (safe < Number(log, sig, e, ConvertSafe) ||
         (safe == Number(log, sig, e, ConvertSafe) && Number(log, sig, f, Promote) <= Number(log, sig, e, Promote))))
  }

  /** Row i of the signature table. */
  function Row(ovsigs: seq<int>, sigsz: nat, i: nat, ovct: nat): (e: seq<int>)
    requires i < ovct && |ovsigs| == ovct * sigsz
    ensures |e| == sigsz
  {
    RowsFit(i, ovct, sigsz);
    Entry(ovsigs, sigsz, i)
  }

  /** The selected overload is acceptable, and needs no more conversions than any acceptable one. */
  ghost predicate NeedsFewest(log: seq<Record>, sig: seq<int>, ovsigs: seq<int>, ovct: nat, allowUnsafe: bool,
        exactRequired: bool, selected: int)
    requires |ovsigs| == ovct * |sig|
  {
    && 0 <= selected < ovct
    && Acceptable(log, sig, Row(ovsigs, |sig|, selected, ovct), allowUnsafe, exactRequired)
    && forall i :: 0 <= i < ovct && Acceptable(log, sig, Row(ovsigs, |sig|, i, ovct), allowUnsafe, exactRequired) ==>
         NoMoreThan(log, sig, Row(ovsigs, |sig|, selected, ovct), Row(ovsigs, |sig|, i, ovct))
  }

  lemma BestNeedsFewest(log: seq<Record>, sig: seq<int>, ovsigs: seq<int>, ovct: nat, allowUnsafe: bool,
        exactRequired: bool, selected: int, count: int)
    requires |ovsigs| == ovct * |sig|
    requires FirstBest(Table(log, sig, ovsigs, ovct, allowUnsafe, exactRequired), selected, count)
    ensures NeedsFewest(log, sig, ovsigs, ovct, allowUnsafe, exactRequired, selected)
  {
    var rs := Table(log, sig, ovsigs, ovct, allowUnsafe, exactRequired);
    var f := Row(ovsigs, |sig|, selected, ovct);
    RateCounts(log, sig, f, allowUnsafe, exactRequired);
    forall i | 0 <= i < ovct && Acceptable(log, sig, Row(ovsigs, |sig|, i, ovct), allowUnsafe, exactRequired)
      ensures NoMoreThan(log, sig, f, Row(ovsigs, |sig|, i, ovct))
    {
      RateCounts(log, sig, Row(ovsigs, |sig|, i, ovct), allowUnsafe, exactRequired);
      assert !Less(rs[i].value, rs[selected].value);
    }
  }

  class TypeManager {
    const tccmap: TCCMap

    constructor (hash: TypePair -> nat)
      ensures tccmap.Valid() && fresh(tccmap) && fresh(tccmap.records) && tccmap.log == []
    {
      tccmap := new TCCMap(hash);
    }

    method AddCompatibility(source: int, target: int, tcc: Code)
      requires tccmap.Valid()
      modifies tccmap, tccmap.records
      ensures tccmap.Valid() && tccmap.log == old(tccmap.log) + [Record((source, target), tcc)]
    {
      tccmap.Insert((source, target), tcc);
    }

    method IsCompatible(source: int, target: int) returns (tcc: Code)
      requires tccmap.Valid()
      ensures tcc == Compatible(tccmap.log, source, target)
    {
      if source == target { return Exact; }
      tcc := tccmap.Find((source, target));
    }

    /** Rate one signature, stopping at the first incompatible argument. */
    method RateEntry(sig: seq<int>, entry: seq<int>, allowUnsafe: bool, exactRequired: bool)
        returns (rate: Option<Rating>)
      requires tccmap.Valid() && |sig| == |entry|
      ensures rate == Rate(tccmap.log, sig, entry, allowUnsafe, exactRequired)
    {
      var r := ZERO;
      for j := 0 to |sig|
        invariant Rate(tccmap.log, sig[..j], entry[..j], allowUnsafe, exactRequired) == Some(r)
      {
        assert sig[..j + 1][..j] == sig[..j] && entry[..j + 1][..j] == entry[..j];
        var tcc := IsCompatible(sig[j], entry[j]);
        if Rejected(tcc, allowUnsafe, exactRequired) {
          RejectedPrefix(tccmap.log, sig, entry, j + 1, allowUnsafe, exactRequired);
          return None;
        }
        r := Add(r, Penalty(tcc));
      }
      assert sig[..|sig|] == sig && entry[..|sig|] == entry;
      rate := Some(r);
    }

    /** The first pass: rate every overload, and keep the viable ones in the caller's buffers. */
    method FillCandidates(sig: seq<int>, ovsigs: seq<int>, ovct: nat, allowUnsafe: bool, exactRequired: bool,
                          ratings: array<Rating>, candidates: array<int>) returns (nbCandidates: nat)
      requires tccmap.Valid() && |ovsigs| == ovct * |sig|
      requires ratings.Length >= ovct && candidates.Length >= ovct
      modifies ratings, candidates
      ensures var rs := Table(tccmap.log, sig, ovsigs, ovct, allowUnsafe, exactRequired);
              && nbCandidates == |Viable(rs)| == |ViableRatings(rs)| <= ovct
              && candidates[..nbCandidates] == Viable(rs) && ratings[..nbCandidates] == ViableRatings(rs)
    {
      ghost var rs := Table(tccmap.log, sig, ovsigs, ovct, allowUnsafe, exactRequired);
      nbCandidates := 0;
      for i := 0 to ovct
        invariant nbCandidates == |Viable(rs[..i])| == |ViableRatings(rs[..i])| <= i
        invariant candidates[..nbCandidates] == Viable(rs[..i])
        invariant ratings[..nbCandidates] == ViableRatings(rs[..i])
      {
        ghost var qs, cs := ratings[..nbCandidates], candidates[..nbCandidates];
        var rate := RateEntry(sig, Row(ovsigs, |sig|, i, ovct), allowUnsafe, exactRequired);
        assert rate == rs[i];
        ViableStep(rs, i);
        if rate.Some? {
          ratings[nbCandidates] := rate.value;
          candidates[nbCandidates] := i;
          nbCandidates := nbCandidates + 1;
          assert ratings[..nbCandidates] == qs + [rate.value] && candidates[..nbCandidates] == cs + [i];
        }
      }
      assert rs[..ovct] == rs;
    }

    /** _selectOverload.  ratings and candidates are the caller's buffers of ovct entries; selected is
        returned unchanged when nothing matches. */
    method SelectOverload(sig: seq<int>, ovsigs: seq<int>, selected0: int, ovct: nat, allowUnsafe: bool,
                          exactRequired: bool, ratings: array<Rating>, candidates: array<int>)
        returns (selected: int, count: int)
      requires tccmap.Valid() && |ovsigs| == ovct * |sig|
      requires ratings.Length >= ovct && candidates.Length >= ovct
      modifies ratings, candidates
      ensures var rs := Table(tccmap.log, sig, ovsigs, ovct, allowUnsafe, exactRequired);
              if forall i :: 0 <= i < ovct ==> rs[i].None? then selected == selected0 && count == 0
              else
                && FirstBest(rs, selected, count) && count > 0
                && NeedsFewest(tccmap.log, sig, ovsigs, ovct, allowUnsafe, exactRequired, selected)
    {
      ghost var rs := Table(tccmap.log, sig, ovsigs, ovct, allowUnsafe, exactRequired);
      var nbCandidates := FillCandidates(sig, ovsigs, ovct, allowUnsafe, exactRequired, ratings, candidates);
      ViableOnly(rs);
      if nbCandidates == 0 {
        NoneViable(rs);
        return selected0, 0;
      }
      selected, count := FindLowest(ratings, candidates, nbCandidates);
      ghost var at: nat :| LowestAt(ratings[..nbCandidates], at, count) && selected == candidates[at];
      assert ratings[at] == ViableRatings(rs)[at] && candidates[at] == Viable(rs)[at];
      LowestIsFirstBest(rs, at, count);
      assert rs[selected].Some?;
      BestNeedsFewest(tccmap.log, sig, ovsigs, ovct, allowUnsafe, exactRequired, selected, count);
    }
  }

  // ---- independence of the overload order ----

  /** However the overloads are ordered, the best rating and the number of overloads with it are the
      same; a unique winner is the same overload. */
  lemma OrderIndependent<E>(es: seq<E>, rs: seq<Option<Rating>>, s: int, c: int,
                            fs: seq<E>, qs: seq<Option<Rating>>, t: int, d: int, rate: E -> Option<Rating>)
    requires |es| == |rs| && |fs| == |qs| && multiset(es) == multiset(fs)
    requires forall i :: 0 <= i < |es| ==> rs[i] == rate(es[i])
    requires forall i :: 0 <= i < |fs| ==> qs[i] == rate(fs[i])
    requires FirstBest(rs, s, c) && FirstBest(qs, t, d)
    ensures rs[s] == qs[t] && c == d
    ensures c == 1 ==> es[s] == fs[t]
  {
    var k := Occurrence(es, fs[t], fs);
    var m := Occurrence(fs, es[s], es);
    assert rs[k] == qs[t] && qs[m] == rs[s];
    MapMultiset(es, rs, fs, qs, rate, rs[s]);
    if s < k { TwoOccurrences(rs, s, k); }
  }

  lemma Occurrence<E>(es: seq<E>, x: E, fs: seq<E>) returns (k: nat)
    requires multiset(es) == multiset(fs) && x in fs
    ensures k < |es| && es[k] == x
  {
    assert x in multiset(fs);
    assert x in multiset(es);
    k :| k < |es| && es[k] == x;
  }

  lemma {:induction false} MapMultiset<E>(es: seq<E>, rs: seq<Option<Rating>>, fs: seq<E>, qs: seq<Option<Rating>>,
                                          rate: E -> Option<Rating>, r: Option<Rating>)
    requires |es| == |rs| && |fs| == |qs| && multiset(es) == multiset(fs)
    requires forall i :: 0 <= i < |es| ==> rs[i] == rate(es[i])
    requires forall i :: 0 <= i < |fs| ==> qs[i] == rate(fs[i])
    ensures multiset(rs)[r] == multiset(qs)[r]
    decreases |es|
  {
    if es == [] {
      assert |multiset(fs)| == 0;
      assert fs == [];
    } else {
      var n := |es| - 1;
      var k := Occurrence(fs, es[n], es);
      var gs, ps := Without(fs, k), Without(qs, k);
      RestEqual(es, fs, k);
      RemoveAt(qs, k);
      RemoveAt(rs, n);
      assert Without(rs, n) == rs[..n];
      MapMultiset(es[..n], rs[..n], gs, ps, rate, r);
    }
  }

  function Without<E>(s: seq<E>, k: nat): (r: seq<E>)
    requires k < |s|
    ensures |r| == |s| - 1 && forall i :: 0 <= i < |r| ==> r[i] == s[if i < k then i else i + 1]
  {
    s[..k] + s[k + 1..]
  }

  lemma RestEqual<E>(es: seq<E>, fs: seq<E>, k: nat)
    requires es != [] && k < |fs| && fs[k] == es[|es| - 1] && multiset(es) == multiset(fs)
    ensures multiset(es[..|es| - 1]) == multiset(Without(fs, k))
  {
    RemoveAt(fs, k);
    RemoveAt(es, |es| - 1);
    assert Without(es, |es| - 1) == es[..|es| - 1];
    Cancel(multiset(es[..|es| - 1]), multiset(Without(fs, k)), fs[k]);
  }

  lemma Cancel<E>(a: multiset<E>, b: multiset<E>, x: E)
    requires a + multiset{x} == b + multiset{x}
    ensures a == b
  {
    assert a == (a + multiset{x}) - multiset{x};
    assert b == (b + multiset{x}) - multiset{x};
  }

  lemma RemoveAt<E>(s: seq<E>, k: nat)
    requires k < |s|
    ensures multiset(s) == multiset(Without(s, k)) + multiset{s[k]}
  {
    assert s == s[..k] + [s[k]] + s[k + 1..];
  }

  function Entries(ovsigs: seq<int>, sigsz: nat, n: nat, ovct: nat): (es: seq<seq<int>>)
    requires n <= ovct && |ovsigs| == ovct * sigsz
    ensures |es| == n
  {
    if n == 0 then []
    else
      RowsFit(n - 1, ovct, sigsz);
      Entries(ovsigs, sigsz, n - 1, ovct) + [Entry(ovsigs, sigsz, n - 1)]
  }

  lemma {:induction false} EntriesAt(ovsigs: seq<int>, sigsz: nat, n: nat, ovct: nat, i: nat)
    requires i < n <= ovct && |ovsigs| == ovct * sigsz
    ensures i * sigsz + sigsz <= |ovsigs| && Entries(ovsigs, sigsz, n, ovct)[i] == Entry(ovsigs, sigsz, i)
    decreases n
  {
    RowsFit(i, ovct, sigsz);
    if i < n - 1 { EntriesAt(ovsigs, sigsz, n - 1, ovct, i); }
  }

  function RateEither(log: seq<Record>, sig: seq<int>, e: seq<int>, allowUnsafe: bool,
        exactRequired: bool): Option<Rating> {
    if |e| == |sig| then Rate(log, sig, e, allowUnsafe, exactRequired) else None
  }

  /** Reordering the overload table changes neither the match count nor a unique winner. */
  lemma SelectionIgnoresOrder(log: seq<Record>, sig: seq<int>, a: seq<int>, b: seq<int>, ovct: nat, allowUnsafe: bool,
                              exactRequired: bool, s: int, c: int, t: int, d: int)
    requires |a| == ovct * |sig| && |b| == ovct * |sig|
    requires multiset(Entries(a, |sig|, ovct, ovct)) == multiset(Entries(b, |sig|, ovct, ovct))
    ensures FirstBest(Table(log, sig, a, ovct, allowUnsafe, exactRequired), s, c)
            && FirstBest(Table(log, sig, b, ovct, allowUnsafe, exactRequired), t, d) ==>
              && c == d
              && (c == 1 ==> Entries(a, |sig|, ovct, ovct)[s] == Entries(b, |sig|, ovct, ovct)[t])
  {
    if !FirstBest(Table(log, sig, a, ovct, allowUnsafe, exactRequired), s, c) { return; }
    if !FirstBest(Table(log, sig, b, ovct, allowUnsafe, exactRequired), t, d) { return; }
    var rate := (e: seq<int>) => RateEither(log, sig, e, allowUnsafe, exactRequired);
    TableRates(log, sig, a, ovct, allowUnsafe, exactRequired);
    TableRates(log, sig, b, ovct, allowUnsafe, exactRequired);
    OrderIndependent(Entries(a, |sig|, ovct, ovct), Table(log, sig, a, ovct, allowUnsafe, exactRequired), s, c,
                     Entries(b, |sig|, ovct, ovct), Table(log, sig, b, ovct, allowUnsafe, exactRequired), t, d, rate);
  }

  lemma TableRates(log: seq<Record>, sig: seq<int>, a: seq<int>, ovct: nat, allowUnsafe: bool, exactRequired: bool)
    requires |a| == ovct * |sig|
    ensures forall i :: 0 <= i < ovct ==>
              Table(log, sig, a, ovct, allowUnsafe, exactRequired)[i] ==
              RateEither(log, sig, Entries(a, |sig|, ovct, ovct)[i], allowUnsafe, exactRequired)
  {
    forall i | 0 <= i < ovct
      ensures Table(log, sig, a, ovct, allowUnsafe, exactRequired)[i] ==
              RateEither(log, sig, Entries(a, |sig|, ovct, ovct)[i], allowUnsafe, exactRequired)
    {
      EntriesAt(a, |sig|, ovct, ovct, i);
    }
  }
}
