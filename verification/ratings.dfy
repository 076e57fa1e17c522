/** Conversion ratings, ordered lexicographically by unsafe, then safe conversions, then promotions. */
module Ratings {

  datatype Rating = Rating(unsafe: nat, safe: nat, promote: nat)

  const ZERO := Rating(0, 0, 0)

  predicate Less(a: Rating, b: Rating) {
    if a.unsafe != b.unsafe then a.unsafe < b.unsafe
    else if a.safe != b.safe then a.safe < b.safe
    else a.promote < b.promote
  }

  function Add(a: Rating, b: Rating): Rating {
    Rating(a.unsafe + b.unsafe, a.safe + b.safe, a.promote + b.promote)
  }

  lemma {:induction false} TwoOccurrences<T>(s: seq<T>, i: nat, j: nat)
    requires i < j < |s| && s[i] == s[j]
    ensures multiset(s)[s[i]] >= 2
  {
    assert s == s[..j] + s[j..];
    assert s[..j][i] in multiset(s[..j]);
    assert s[j..][0] in multiset(s[j..]);
  }
}
