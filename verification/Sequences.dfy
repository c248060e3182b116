/** Sequence and set idioms shared by the queues and free lists. */
module Sequences {

  ghost predicate Distinct<T>(s: seq<T>) {
    forall i, j :: 0 <= i < j < |s| ==> s[i] != s[j]
  }

  /** s without its k-th element. */
  function Without<T>(s: seq<T>, k: nat): (r: seq<T>)
    requires k < |s|
    ensures |r| == |s| - 1
  {
    s[..k] + s[k + 1..]
  }

  lemma WithoutElements<T>(s: seq<T>, k: nat)
    requires k < |s|
    ensures forall i {:trigger Without(s, k)[i]} :: 0 <= i < |s| - 1 ==>
      Without(s, k)[i] == s[if i < k then i else i + 1]
  {}

  ghost function Elements<T>(s: seq<T>): set<T> {
    set x | x in s
  }

  lemma {:induction false} ElementCount<T>(s: seq<T>)
    requires Distinct(s)
    ensures |Elements(s)| == |s|
  {
    if s != [] {
      var n := |s| - 1;
      ElementCount(s[..n]);
      assert Elements(s) == Elements(s[..n]) + {s[n]};
    }
  }

  /** s back to front. */
  function Reverse<T>(s: seq<T>): (r: seq<T>)
    ensures |r| == |s|
    ensures forall i {:trigger r[i]} :: 0 <= i < |s| ==> r[i] == s[|s| - 1 - i]
  {
    seq(|s|, i requires 0 <= i < |s| => s[|s| - 1 - i])
  }

  lemma ReverseTwice<T>(s: seq<T>)
    ensures Reverse(Reverse(s)) == s
  {}

  /** Popping the last element of a sequence takes the first off its reversal. */
  lemma ReverseLast<T>(s: seq<T>)
    requires s != []
    ensures Reverse(s) == [s[|s| - 1]] + Reverse(s[..|s| - 1])
  {}

  lemma Member<T>(s: set<T>) returns (x: T)
    requires s != {}
    ensures x in s
  {
    x :| x in s;
  }

  /** A map with some of the keys, not all, is smaller. */
  lemma Smaller<T>(before: map<int, T>, after: map<int, T>, gone: int)
    requires gone in before && gone !in after && forall k :: k in after ==> k in before
    ensures |after| < |before|
  {
    forall k | k in after.Keys
      ensures k in before.Keys - {gone}
    {
    }
    NoMore(after.Keys, before.Keys - {gone});
    assert |after.Keys| == |after| && |before.Keys| == |before|;
  }

  lemma {:induction false} NoMore<T>(a: set<T>, b: set<T>)
    requires a <= b
    ensures |a| <= |b|
  {
    if a != {} {
      var x := Member(a);
      NoMore(a - {x}, b - {x});
    }
  }
}
