/** The dispatcher's own overload resolution: recursive conversion costs and the set of minimal
    candidates. */
module OverloadResolution {
  import opened Lru
  import opened NumbaTypes
  import opened Ratings

  // ---- costs ----

  /** MLIRDispatcher._conversion_cost */
  function ConversionCost(sig: Ty, runtime: Ty): Option<Rating>
    decreases sig, 1
  {
    if sig == runtime then Some(ZERO)
    else if sig.Literal? || runtime.Literal? then None
    else if sig.Integer? && runtime.Integer? then
      Some(if runtime.bits <= sig.bits then Rating(0, 0, 1) else Rating(1, 0, 0))
    else if sig.Float? && runtime.Float? then
      Some(if runtime.bits <= sig.bits then Rating(0, 0, 1) else Rating(1, 0, 0))
    else if sig.Float? && runtime.Integer? then Some(Rating(0, 1, 0))
    else if sig.Integer? && runtime.Float? then Some(Rating(1, 0, 0))
    else if sig.Array? && runtime.Array? then
      if sig.ndim == runtime.ndim && sig.dtype == runtime.dtype then Some(ZERO) else None
    else if sig.CPointer? && runtime.Integer? then Some(Rating(0, 1, 0))
    else if sig.IsTuple() && runtime.IsTuple() then
      if |sig.Elements()| == |runtime.Elements()| then SumCosts(sig.Elements(), runtime.Elements(), sig) else None
    else None
  }

  /** The accumulation over argument pairs. */
  function SumCosts(ss: seq<Ty>, rs: seq<Ty>, ghost whole: Ty): Option<Rating>
    requires |ss| == |rs| && forall i :: 0 <= i < |ss| ==> ss[i] < whole
    decreases whole, 0, |ss|
  {
    if ss == [] then Some(ZERO)
    else Plus(ConversionCost(ss[0], rs[0]), SumCosts(ss[1..], rs[1..], whole))
  }

  function Plus(a: Option<Rating>, b: Option<Rating>): Option<Rating> {
    if a.None? || b.None? then None else Some(Add(a.value, b.value))
  }

  /** _rate_overload: the summed cost of a signature, as of a tuple of its types. */
  function RateOverload(sig: Signature, argtypes: Signature): Option<Rating> {
    if |sig| != |argtypes| then None else SumCosts(sig, argtypes, Tuple(sig))
  }

  /** The loop of _rate_overload, which stops at the first impossible argument. */
  method RateOverloadLoop(sig: Signature, argtypes: Signature) returns (r: Option<Rating>)
    ensures r == RateOverload(sig, argtypes)
  {
    if |sig| != |argtypes| { return None; }
    r := SumLoop(sig, argtypes, Tuple(sig));
  }

  method SumLoop(ss: seq<Ty>, rs: seq<Ty>, ghost whole: Ty) returns (r: Option<Rating>)
    requires |ss| == |rs| && forall i :: 0 <= i < |ss| ==> ss[i] < whole
    ensures r == SumCosts(ss, rs, whole)
  {
    var total := ZERO;
    RemainingStart(ss, rs, whole);
    for i := 0 to |ss|
      invariant Remaining(ss, rs, i, whole, total) == SumCosts(ss, rs, whole)
    {
      RemainingStep(ss, rs, i, whole, total);
      var cost := ConversionCost(ss[i], rs[i]);
      if cost.None? { return None; }
      total := Add(total, cost.value);
    }
    RemainingEnd(ss, rs, whole, total);
    r := Some(total);
  }

  /** The total so far and what the arguments from i on add. */
  ghost function Remaining(ss: seq<Ty>, rs: seq<Ty>, i: nat, whole: Ty, total: Rating): Option<Rating>
    requires |ss| == |rs| && i <= |ss| && forall j :: 0 <= j < |ss| ==> ss[j] < whole
  {
    Plus(Some(total), SumCosts(ss[i..], rs[i..], whole))
  }

  lemma RemainingStart(ss: seq<Ty>, rs: seq<Ty>, whole: Ty)
    requires |ss| == |rs| && forall j :: 0 <= j < |ss| ==> ss[j] < whole
    ensures Remaining(ss, rs, 0, whole, ZERO) == SumCosts(ss, rs, whole)
  {
    assert ss[0..] == ss && rs[0..] == rs;
    PlusZero(SumCosts(ss, rs, whole));
  }

  lemma PlusZero(x: Option<Rating>)
    ensures Plus(Some(ZERO), x) == x
  {
  }

  lemma RemainingEnd(ss: seq<Ty>, rs: seq<Ty>, whole: Ty, total: Rating)
    requires |ss| == |rs| && forall j :: 0 <= j < |ss| ==> ss[j] < whole
    ensures Remaining(ss, rs, |ss|, whole, total) == Some(total)
  {
    var s, r := ss[|ss|..], rs[|ss|..];
    assert s == [] && r == [];
    assert SumCosts(s, r, whole) == Some(ZERO);
  }

  lemma RemainingStep(ss: seq<Ty>, rs: seq<Ty>, i: nat, whole: Ty, total: Rating)
    requires |ss| == |rs| && i < |ss| && forall j :: 0 <= j < |ss| ==> ss[j] < whole
    ensures var cost := ConversionCost(ss[i], rs[i]);
            Remaining(ss, rs, i, whole, total) ==
            if cost.None? then None else Remaining(ss, rs, i + 1, whole, Add(total, cost.value))
  {
    SumStep(ss, rs, i, whole);
    PlusAssociates(total, ConversionCost(ss[i], rs[i]), SumCosts(ss[i + 1..], rs[i + 1..], whole));
  }

  lemma PlusAssociates(total: Rating, cost: Option<Rating>, rest: Option<Rating>)
    ensures Plus(Some(total), Plus(cost, rest)) == if cost.None? then None else Plus(Some(Add(total, cost.value)), rest)
  {
  }

  lemma SumStep(ss: seq<Ty>, rs: seq<Ty>, i: nat, whole: Ty)
    requires |ss| == |rs| && i < |ss| && forall j :: 0 <= j < |ss| ==> ss[j] < whole
    ensures SumCosts(ss[i..], rs[i..], whole) ==
            Plus(ConversionCost(ss[i], rs[i]), SumCosts(ss[i + 1..], rs[i + 1..], whole))
  {
    var s, r := ss[i..], rs[i..];
    assert s[1..] == ss[i + 1..] && r[1..] == rs[i + 1..] && s[0] == ss[i] && r[0] == rs[i];
  }

  // ---- what a cost means ----

  /** A type equal to itself costs nothing. */
  lemma {:induction false} EqualCostsNothing(ss: seq<Ty>, whole: Ty)
    requires forall i :: 0 <= i < |ss| ==> ss[i] < whole
    ensures SumCosts(ss, ss, whole) == Some(ZERO)
    decreases |ss|
  {
    if ss != [] { EqualCostsNothing(ss[1..], whole); }
  }

  /** A signature costs what the tuple of its types costs. */
  lemma RateIsTupleCost(sig: Signature, argtypes: Signature)
    ensures RateOverload(sig, argtypes) == ConversionCost(Tuple(sig), Tuple(argtypes))
  {
    assert Tuple(sig).Elements() == sig && Tuple(argtypes).Elements() == argtypes;
    if sig == argtypes { EqualCostsNothing(sig, Tuple(sig)); }
  }

  /** A conversion is free only between reusable types, and every reusable type converts. */
  lemma {:induction false} FreeIsReusable(sig: Ty, runtime: Ty)
    ensures ConversionCost(sig, runtime) == Some(ZERO) ==> CanReuse(sig, runtime)
    ensures CanReuse(sig, runtime) ==> ConversionCost(sig, runtime).Some?
    decreases sig, 1
  {
    if sig != runtime && sig.IsTuple() && runtime.IsTuple() && |sig.Elements()| == |runtime.Elements()| {
      FreeElements(sig.Elements(), runtime.Elements(), sig);
      TupleByElements(sig, runtime);
    } else {
      FreeScalar(sig, runtime);
    }
  }

  /** Arrays convert, at no cost, exactly to arrays of their element type and rank.  An address given
      for a pointer costs one safe conversion. */
  lemma ArrayAndPointerCosts(sig: Ty, runtime: Ty)
    ensures sig.Array? && runtime.Array? ==>
              ConversionCost(sig, runtime) ==
              if sig.dtype == runtime.dtype && sig.ndim == runtime.ndim then Some(ZERO) else None
    ensures sig.CPointer? && runtime.Integer? ==> ConversionCost(sig, runtime) == Some(Rating(0, 1, 0))
  {
  }

  predicate IsNumber(t: Ty) {
    t.Integer? || t.Float?
  }

  /** What converts at all: equal types, and, where neither is a literal, numbers to numbers, integers to
      pointers, arrays to arrays of their element type and rank, and tuples element by element. */
  lemma ConvertsIff(sig: Ty, runtime: Ty)
    ensures ConversionCost(sig, runtime).Some? <==>
            || sig == runtime
            || (IsNumber(sig) && IsNumber(runtime))
            || (sig.CPointer? && runtime.Integer?)
            || (sig.Array? && runtime.Array? && sig.dtype == runtime.dtype && sig.ndim == runtime.ndim)
            || (sig.IsTuple() && runtime.IsTuple() && |sig.Elements()| == |runtime.Elements()| &&
                forall i :: 0 <= i < |sig.Elements()| ==>
                  ConversionCost(sig.Elements()[i], runtime.Elements()[i]).Some?)
  {
    if sig != runtime && sig.IsTuple() && runtime.IsTuple() && |sig.Elements()| == |runtime.Elements()| {
      TupleByElements(sig, runtime);
      SumsIff(sig.Elements(), runtime.Elements(), sig);
    }
  }

  lemma {:induction false} SumsIff(ss: seq<Ty>, rs: seq<Ty>, whole: Ty)
    requires |ss| == |rs| && forall i :: 0 <= i < |ss| ==> ss[i] < whole
    ensures SumCosts(ss, rs, whole).Some? <==> forall i :: 0 <= i < |ss| ==> ConversionCost(ss[i], rs[i]).Some?
    decreases |ss|
  {
    if ss != [] {
      SumsIff(ss[1..], rs[1..], whole);
      FreeSum(ConversionCost(ss[0], rs[0]), SumCosts(ss[1..], rs[1..], whole));
      assert forall i :: 0 <= i < |ss[1..]| ==> ss[1..][i] == ss[i + 1] && rs[1..][i] == rs[i + 1];
      assert forall i :: 1 <= i < |ss| ==> ss[i] == ss[1..][i - 1] && rs[i] == rs[1..][i - 1];
    }
  }

  /** What is reused outside tuples: what converts for free, and any integer type for an integer or an
      address, whatever its width. */
  lemma ReusableIff(sig: Ty, runtime: Ty)
    requires !sig.IsTuple() || !runtime.IsTuple()
    ensures CanReuse(sig, runtime) <==>
            ConversionCost(sig, runtime) == Some(ZERO) || (runtime.Integer? && (sig.Integer? || sig.CPointer?))
  {
  }

  lemma TupleByElements(sig: Ty, runtime: Ty)
    requires sig != runtime && sig.IsTuple() && runtime.IsTuple() && |sig.Elements()| == |runtime.Elements()|
    ensures CanReuse(sig, runtime) <==> CanReuseAll(sig.Elements(), runtime.Elements())
    ensures ConversionCost(sig, runtime) == SumCosts(sig.Elements(), runtime.Elements(), sig)
  {
    TupleReuse(sig, runtime, sig.Elements(), runtime.Elements());
  }

  lemma TupleReuse(sig: Ty, runtime: Ty, ss: seq<Ty>, rs: seq<Ty>)
    requires sig != runtime && sig.IsTuple() && runtime.IsTuple() && ss == sig.Elements() && rs == runtime.Elements()
    requires |ss| == |rs|
    ensures CanReuse(sig, runtime) <==> CanReuseAll(ss, rs)
  {
    if CanReuse(sig, runtime) {
      forall i | 0 <= i < |ss| ensures CanReuse(ss[i], rs[i]) {
      }
    }
  }

  lemma FreeScalar(sig: Ty, runtime: Ty)
    requires sig == runtime || !sig.IsTuple() || !runtime.IsTuple() || |sig.Elements()| != |runtime.Elements()|
    ensures ConversionCost(sig, runtime) == Some(ZERO) ==> CanReuse(sig, runtime)
    ensures CanReuse(sig, runtime) ==> ConversionCost(sig, runtime).Some?
  {
  }

  lemma CanReuseCons(ss: seq<Ty>, rs: seq<Ty>)
    requires |ss| == |rs| && ss != []
    ensures CanReuseAll(ss, rs) <==> CanReuse(ss[0], rs[0]) && CanReuseAll(ss[1..], rs[1..])
  {
    if CanReuseAll(ss[1..], rs[1..]) {
      forall i | 1 <= i < |ss| ensures CanReuse(ss[i], rs[i]) {
        assert CanReuse(ss[1..][i - 1], rs[1..][i - 1]);
      }
    }
  }

  lemma {:induction false} FreeElements(ss: seq<Ty>, rs: seq<Ty>, whole: Ty)
    requires |ss| == |rs| && forall i :: 0 <= i < |ss| ==> ss[i] < whole
    ensures SumCosts(ss, rs, whole) == Some(ZERO) ==> CanReuseAll(ss, rs)
    ensures CanReuseAll(ss, rs) ==> SumCosts(ss, rs, whole).Some?
    decreases whole, 0, |ss|
  {
    if ss != [] {
      FreeIsReusable(ss[0], rs[0]);
      FreeElements(ss[1..], rs[1..], whole);
      CanReuseCons(ss, rs);
      FreeSum(ConversionCost(ss[0], rs[0]), SumCosts(ss[1..], rs[1..], whole));
    }
  }

  lemma FreeSum(a: Option<Rating>, b: Option<Rating>)
    ensures Plus(a, b) == Some(ZERO) <==> a == Some(ZERO) && b == Some(ZERO)
    ensures Plus(a, b).Some? <==> a.Some? && b.Some?
  {
  }

  predicate SameKind(sig: Ty, runtime: Ty) {
    (sig.Integer? && runtime.Integer?) || (sig.Float? && runtime.Float?)
  }

  /** Ranks of the types a number may be passed as: equal, of its kind and not narrower, a float or
      an address for an integer, and all others. */
  function Rank(sig: Ty, runtime: Ty): nat
    requires runtime.Integer? || runtime.Float?
  {
    if sig == runtime then 0
    else if SameKind(sig, runtime) && sig.bits >= runtime.bits then 1
    else if runtime.Integer? && (sig.Float? || sig.CPointer?) then 2
    else 3
  }

  /** For one number argument, possible candidates compare exactly as their ranks do, and only those
      of the last rank are rated unsafe. */
  lemma NumberCostsRank(runtime: Ty, a: Ty, b: Ty)
    requires runtime.Integer? || runtime.Float?
    requires ConversionCost(a, runtime).Some? && ConversionCost(b, runtime).Some?
    ensures Less(ConversionCost(a, runtime).value, ConversionCost(b, runtime).value) <==>
            Rank(a, runtime) < Rank(b, runtime)
    ensures ConversionCost(a, runtime).value.unsafe > 0 <==> Rank(a, runtime) == 3
  {
  }

  // ---- resolution ----

  /** The rating of a candidate that may be chosen. */
  function Rated(sig: Signature, argtypes: Signature, allowUnsafe: bool): Option<Rating> {
    var r := RateOverload(sig, argtypes);
    if r.Some? && !allowUnsafe && r.value.unsafe > 0 then None else r
  }

  /** Candidate sig is possible, and none is better. */
  ghost predicate Minimal(sig: Signature, sigs: seq<Signature>, argtypes: Signature, allowUnsafe: bool) {
    && Rated(sig, argtypes, allowUnsafe).Some?
    && forall s :: s in sigs && Rated(s, argtypes, allowUnsafe).Some? ==>
         !Less(Rated(s, argtypes, allowUnsafe).value, Rated(sig, argtypes, allowUnsafe).value)
  }

  /** The minimal candidates of sigs, in their order, judged against all. */
  ghost function MinimalOf(sigs: seq<Signature>, all: seq<Signature>, argtypes: Signature,
        allowUnsafe: bool): seq<Signature> {
    if sigs == [] then []
    else
      (if Minimal(sigs[0], all, argtypes, allowUnsafe) then [sigs[0]] else [])
      + MinimalOf(sigs[1..], all, argtypes, allowUnsafe)
  }

  datatype Candidate = Candidate(rating: Rating, sig: Signature)

  function Collect(sigs: seq<Signature>, argtypes: Signature, allowUnsafe: bool): seq<Candidate> {
    if sigs == [] then []
    else
      var r := Rated(sigs[0], argtypes, allowUnsafe);
      var rest := Collect(sigs[1..], argtypes, allowUnsafe);
      if r.Some? then [Candidate(r.value, sigs[0])] + rest else rest
  }

  /** Insert before the first candidate that is not better, as a stable sort of a new head does. */
  function InsertSorted(c: Candidate, cs: seq<Candidate>): seq<Candidate> {
    if cs == [] || !Less(cs[0].rating, c.rating) then [c] + cs else [cs[0]] + InsertSorted(c, cs[1..])
  }

  /** candidates.sort(key=rating): stable. */
  function StableSort(cs: seq<Candidate>): seq<Candidate> {
    if cs == [] then [] else InsertSorted(cs[0], StableSort(cs[1..]))
  }

  /** The candidates of rating r, in order. */
  function Tied(cs: seq<Candidate>, r: Rating): seq<Signature> {
    if cs == [] then [] else (if cs[0].rating == r then [cs[0].sig] else []) + Tied(cs[1..], r)
  }

  lemma {:induction false} InsertKeepsTies(c: Candidate, cs: seq<Candidate>, r: Rating)
    ensures Tied(InsertSorted(c, cs), r) == (if c.rating == r then [c.sig] else []) + Tied(cs, r)
    decreases |cs|
  {
    if cs == [] || !Less(cs[0].rating, c.rating) {
      assert ([c] + cs)[1..] == cs;
    } else {
      InsertKeepsTies(c, cs[1..], r);
      assert ([cs[0]] + InsertSorted(c, cs[1..]))[1..] == InsertSorted(c, cs[1..]);
    }
  }

  /** Sorting keeps the order of equally rated candidates, and loses none. */
  lemma {:induction false} SortKeepsTies(cs: seq<Candidate>, r: Rating)
    ensures Tied(StableSort(cs), r) == Tied(cs, r) && |StableSort(cs)| == |cs|
    decreases |cs|
  {
    if cs != [] {
      SortKeepsTies(cs[1..], r);
      InsertKeepsTies(cs[0], StableSort(cs[1..]), r);
      InsertLength(cs[0], StableSort(cs[1..]));
    }
  }

  lemma {:induction false} InsertLength(c: Candidate, cs: seq<Candidate>)
    ensures |InsertSorted(c, cs)| == |cs| + 1
    decreases |cs|
  {
    if !(cs == [] || !Less(cs[0].rating, c.rating)) { InsertLength(c, cs[1..]); }
  }

  /** The head of the sorted candidates has the least rating. */
  lemma {:induction false} SortedHead(cs: seq<Candidate>)
    requires cs != []
    ensures |StableSort(cs)| > 0
    ensures exists i :: 0 <= i < |cs| && cs[i] == StableSort(cs)[0]
    ensures forall i :: 0 <= i < |cs| ==> !Less(cs[i].rating, StableSort(cs)[0].rating)
    decreases |cs|
  {
    var rest := StableSort(cs[1..]);
    if cs[1..] != [] {
      SortedHead(cs[1..]);
      var k :| 0 <= k < |cs[1..]| && cs[1..][k] == rest[0];
      assert cs[k + 1] == rest[0];
      assert forall i :: 1 <= i < |cs| ==> cs[i] == cs[1..][i - 1];
    }
    InsertLength(cs[0], rest);
  }

  /** _resolve_overload: exactly the minimal candidates in their order, and whether any matched. */
  method ResolveOverload(argtypes: Signature, allowUnsafe: bool, sigs: seq<Signature>)
      returns (tied: seq<Signature>, hasMatch: bool)
    ensures tied == MinimalOf(sigs, sigs, argtypes, allowUnsafe)
    ensures hasMatch <==> exists i :: 0 <= i < |sigs| && Rated(sigs[i], argtypes, allowUnsafe).Some?
    ensures hasMatch <==> tied != []
  {
    var candidates := CollectCandidates(sigs, argtypes, allowUnsafe);
    CollectFacts(sigs, argtypes, allowUnsafe);
    if candidates == [] {
      NoneMinimal(sigs, sigs, argtypes, allowUnsafe);
      return [], false;
    }
    SortedHead(candidates);
    var sorted := StableSort(candidates);
    var bestRate := sorted[0].rating;
    tied := TiedWith(sorted, bestRate);
    hasMatch := true;
    SortKeepsTies(candidates, bestRate);
    MinimalAreTied(sigs, sigs, argtypes, allowUnsafe, bestRate);
    TiedNonEmpty(sorted);
  }

  /** The loop that rates the candidates and drops the impossible and the unsafe ones. */
  method CollectCandidates(sigs: seq<Signature>, argtypes: Signature, allowUnsafe: bool)
      returns (candidates: seq<Candidate>)
    ensures candidates == Collect(sigs, argtypes, allowUnsafe)
  {
    candidates := [];
    CollectStart(sigs, argtypes, allowUnsafe);
    for i := 0 to |sigs|
      invariant Collected(candidates, sigs, i, argtypes, allowUnsafe)
    {
      var rating := RateOverloadLoop(sigs[i], argtypes);
      if rating.None? || (!allowUnsafe && rating.value.unsafe > 0) {
        CandidateDropped(candidates, sigs, i, argtypes, allowUnsafe);
        continue;
      }
      CandidateKept(candidates, sigs, i, argtypes, allowUnsafe);
      candidates := candidates + [Candidate(rating.value, sigs[i])];
    }
    CollectEnd(candidates, sigs, argtypes, allowUnsafe);
  }

  /** The candidates so far are those of the first i signatures. */
  ghost predicate Collected(candidates: seq<Candidate>, sigs: seq<Signature>, i: nat, argtypes: Signature,
        allowUnsafe: bool)
    requires i <= |sigs|
  {
    candidates + Collect(sigs[i..], argtypes, allowUnsafe) == Collect(sigs, argtypes, allowUnsafe)
  }

  lemma CollectStart(sigs: seq<Signature>, argtypes: Signature, allowUnsafe: bool)
    ensures Collected([], sigs, 0, argtypes, allowUnsafe)
  {
    assert sigs[0..] == sigs;
    var cs := Collect(sigs, argtypes, allowUnsafe);
    assert [] + cs == cs;
  }

  lemma CollectEnd(candidates: seq<Candidate>, sigs: seq<Signature>, argtypes: Signature, allowUnsafe: bool)
    requires Collected(candidates, sigs, |sigs|, argtypes, allowUnsafe)
    ensures candidates == Collect(sigs, argtypes, allowUnsafe)
  {
    assert sigs[|sigs|..] == [] && candidates + [] == candidates;
  }

  lemma CandidateDropped(candidates: seq<Candidate>, sigs: seq<Signature>, i: nat, argtypes: Signature,
        allowUnsafe: bool)
    requires i < |sigs| && Collected(candidates, sigs, i, argtypes, allowUnsafe)
    requires Rated(sigs[i], argtypes, allowUnsafe).None?
    ensures Collected(candidates, sigs, i + 1, argtypes, allowUnsafe)
  {
    CollectStep(sigs, i, argtypes, allowUnsafe);
  }

  lemma CandidateKept(candidates: seq<Candidate>, sigs: seq<Signature>, i: nat, argtypes: Signature,
        allowUnsafe: bool)
    requires i < |sigs| && Collected(candidates, sigs, i, argtypes, allowUnsafe)
    requires Rated(sigs[i], argtypes, allowUnsafe).Some?
    ensures var c := Candidate(Rated(sigs[i], argtypes, allowUnsafe).value, sigs[i]);
            Collected(candidates + [c], sigs, i + 1, argtypes, allowUnsafe)
  {
    CollectStep(sigs, i, argtypes, allowUnsafe);
    var c := Candidate(Rated(sigs[i], argtypes, allowUnsafe).value, sigs[i]);
    Regroup(candidates, [c], Collect(sigs[i + 1..], argtypes, allowUnsafe));
  }

  lemma Regroup<T>(a: seq<T>, b: seq<T>, c: seq<T>)
    ensures a + (b + c) == (a + b) + c
  {
  }

  lemma CollectStep(sigs: seq<Signature>, i: nat, argtypes: Signature, allowUnsafe: bool)
    requires i < |sigs|
    ensures var r, rest := Rated(sigs[i], argtypes, allowUnsafe), Collect(sigs[i + 1..], argtypes, allowUnsafe);
            Collect(sigs[i..], argtypes, allowUnsafe) == if r.Some? then [Candidate(r.value, sigs[i])] + rest else rest
  {
    var s := sigs[i..];
    assert s[1..] == sigs[i + 1..] && s[0] == sigs[i];
  }

  /** [sig_args for rate, sig_args in candidates if rate == best_rate] */
  method TiedWith(cs: seq<Candidate>, r: Rating) returns (tied: seq<Signature>)
    ensures tied == Tied(cs, r)
  {
    tied := [];
    for i := 0 to |cs|
      invariant tied + Tied(cs[i..], r) == Tied(cs, r)
    {
      assert cs[i..][1..] == cs[i + 1..];
      if cs[i].rating == r { tied := tied + [cs[i].sig]; }
    }
  }

  lemma TiedNonEmpty(cs: seq<Candidate>)
    requires cs != []
    ensures Tied(cs, cs[0].rating) != []
  {
  }

  lemma {:induction false} CollectFacts(sigs: seq<Signature>, argtypes: Signature, allowUnsafe: bool)
    ensures var cs := Collect(sigs, argtypes, allowUnsafe);
            && (forall c :: c in cs ==> c.sig in sigs && Rated(c.sig, argtypes, allowUnsafe) == Some(c.rating))
            && (forall s :: s in sigs && Rated(s, argtypes, allowUnsafe).Some? ==>
                  Candidate(Rated(s, argtypes, allowUnsafe).value, s) in cs)
            && (cs == [] <==> forall i :: 0 <= i < |sigs| ==> Rated(sigs[i], argtypes, allowUnsafe).None?)
    decreases |sigs|
  {
    if sigs != [] {
      CollectFacts(sigs[1..], argtypes, allowUnsafe);
      assert sigs == [sigs[0]] + sigs[1..];
      assert forall i :: 1 <= i < |sigs| ==> sigs[i] == sigs[1..][i - 1];
    }
  }

  lemma {:induction false} NoneMinimal(sigs: seq<Signature>, all: seq<Signature>, argtypes: Signature,
        allowUnsafe: bool)
    requires forall i :: 0 <= i < |sigs| ==> Rated(sigs[i], argtypes, allowUnsafe).None?
    ensures MinimalOf(sigs, all, argtypes, allowUnsafe) == []
    decreases |sigs|
  {
    if sigs != [] { NoneMinimal(sigs[1..], all, argtypes, allowUnsafe); }
  }

  /** The candidates tied at the least rating are the minimal ones. */
  lemma {:induction false} MinimalAreTied(sigs: seq<Signature>, all: seq<Signature>, argtypes: Signature,
        allowUnsafe: bool, best: Rating)
    requires exists c :: c in Collect(all, argtypes, allowUnsafe) && c.rating == best
    requires forall c :: c in Collect(all, argtypes, allowUnsafe) ==> !Less(c.rating, best)
    requires forall s :: s in sigs ==> s in all
    ensures MinimalOf(sigs, all, argtypes, allowUnsafe) == Tied(Collect(sigs, argtypes, allowUnsafe), best)
    decreases |sigs|
  {
    if sigs != [] {
      MinimalAreTied(sigs[1..], all, argtypes, allowUnsafe, best);
      MinimalIffBest(sigs[0], all, argtypes, allowUnsafe, best);
      var r := Rated(sigs[0], argtypes, allowUnsafe);
      if r.Some? {
        var rest := Collect(sigs[1..], argtypes, allowUnsafe);
        assert ([Candidate(r.value, sigs[0])] + rest)[1..] == rest;
      }
    }
  }

  lemma MinimalIffBest(s: Signature, all: seq<Signature>, argtypes: Signature, allowUnsafe: bool, best: Rating)
    requires exists c :: c in Collect(all, argtypes, allowUnsafe) && c.rating == best
    requires forall c :: c in Collect(all, argtypes, allowUnsafe) ==> !Less(c.rating, best)
    requires s in all
    ensures Minimal(s, all, argtypes, allowUnsafe) <==> Rated(s, argtypes, allowUnsafe) == Some(best)
  {
    CollectFacts(all, argtypes, allowUnsafe);
    var c :| c in Collect(all, argtypes, allowUnsafe) && c.rating == best;
    if Rated(s, argtypes, allowUnsafe).Some? {
      assert Candidate(Rated(s, argtypes, allowUnsafe).value, s) in Collect(all, argtypes, allowUnsafe);
    }
  }
}
