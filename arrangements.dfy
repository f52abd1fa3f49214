/** The list of colour indices a round offers, and the in-place shuffle that
    reorders it.

    `beginNewRound` pushes 0, 1, ..., 4 into a fresh array and then sorts it
    with a comparator that answers at random. Whatever the comparator says, a
    sort only moves entries around: here it is modelled as an arbitrary
    sequence of exchanges of two positions, which can produce every
    reordering and nothing but reorderings. */
module Arrangements {

  /** The list `[0, 1, ..., n - 1]`, in pushing order. */
  function Range(n: nat): (r: seq<int>)
    ensures |r| == n
    ensures forall k :: 0 <= k < n ==> r[k] == k
  {
    if n == 0 then [] else Range(n - 1) + [n - 1]
  }

  /** One step of the sort: the entries at positions `i` and `j` trade places. */
  datatype Exchange = Exchange(i: nat, j: nat)

  predicate ExchangesWithin(swaps: seq<Exchange>, n: nat) {
    forall k :: 0 <= k < |swaps| ==> swaps[k].i < n && swaps[k].j < n
  }

  function Swap(s: seq<int>, e: Exchange): (r: seq<int>)
    requires e.i < |s| && e.j < |s|
    ensures |r| == |s| && multiset(r) == multiset(s)
    ensures r[e.i] == s[e.j] && r[e.j] == s[e.i]
    ensures forall k :: 0 <= k < |s| && k != e.i && k != e.j ==> r[k] == s[k]
  {
    s[e.i := s[e.j]][e.j := s[e.i]]
  }

  /** The list after the sort has performed `swaps`, first to last. */
  function Shuffle(s: seq<int>, swaps: seq<Exchange>): (r: seq<int>)
    requires ExchangesWithin(swaps, |s|)
    ensures |r| == |s|
    ensures multiset(r) == multiset(s)
    decreases |swaps|
  {
    if swaps == [] then s else Shuffle(Swap(s, swaps[0]), swaps[1..])
  }

  /** `s` is a reordering of `[0, 1, ..., n - 1]`. */
  ghost predicate IsArrangement(s: seq<int>, n: nat) {
    multiset(s) == multiset(Range(n))
  }

  /** Every value in `[0, n)` occurs exactly once in `Range(n)`, and nothing else does. */
  lemma {:induction false} RangeCounts(n: nat)
    ensures forall x :: multiset(Range(n))[x] == if 0 <= x < n then 1 else 0
  {
    if n > 0 {
      RangeCounts(n - 1);
      assert Range(n) == Range(n - 1) + [n - 1];
      assert multiset(Range(n)) == multiset(Range(n - 1)) + multiset{n - 1};
    }
  }

  /** A value at two different positions of a list occurs at least twice in it. */
  lemma TwiceCounted(s: seq<int>, i: nat, j: nat)
    requires i < j < |s| && s[i] == s[j]
    ensures multiset(s)[s[i]] >= 2
  {
    assert s == s[..j] + s[j..];
    assert multiset(s) == multiset(s[..j]) + multiset(s[j..]);
    assert s[i] in s[..j];
    assert s[j] == s[j..][0];
  }

  /** An arrangement of `[0, n)` has `n` entries, each of them in `[0, n)`,
      no two of them equal, and every value of `[0, n)` among them. */
  lemma ArrangementFacts(s: seq<int>, n: nat)
    requires IsArrangement(s, n)
    ensures |s| == n
    ensures forall k :: 0 <= k < |s| ==> 0 <= s[k] < n
    ensures forall k, m :: 0 <= k < m < |s| ==> s[k] != s[m]
    ensures forall x :: 0 <= x < n ==> x in s
  {
    RangeCounts(n);
    assert |s| == |multiset(s)| == |multiset(Range(n))| == n;
    forall k | 0 <= k < |s|
      ensures 0 <= s[k] < n
    {
      assert s[k] in multiset(s);
    }
    forall k, m | 0 <= k < m < |s|
      ensures s[k] != s[m]
    {
      if s[k] == s[m] {
        TwiceCounted(s, k, m);
      }
    }
    forall x | 0 <= x < n
      ensures x in s
    {
      assert x in multiset(Range(n));
    }
  }

  /** The list of a round: `[0, n)` pushed in order, then shuffled. Whatever
      the exchanges, the result is an arrangement of `[0, n)`. */
  lemma ShuffledRange(n: nat, swaps: seq<Exchange>)
    requires ExchangesWithin(swaps, n)
    ensures IsArrangement(Shuffle(Range(n), swaps), n)
    ensures |Shuffle(Range(n), swaps)| == n
  {
  }

  /** Two reorderings of each other that agree on a prefix hold the same
      entries after it. */
  lemma SuffixesAgree(s: seq<int>, t: seq<int>, k: nat)
    requires multiset(s) == multiset(t)
    requires k <= |s| && k <= |t| && s[..k] == t[..k]
    ensures multiset(s[k..]) == multiset(t[k..])
  {
    assert s == s[..k] + s[k..] && t == t[..k] + t[k..];
    forall x
      ensures multiset(s[k..])[x] == multiset(t[k..])[x]
    {
      assert multiset(s)[x] == multiset(s[..k])[x] + multiset(s[k..])[x];
      assert multiset(t)[x] == multiset(t[..k])[x] + multiset(t[k..])[x];
    }
  }

  /** One exchange extends the prefix on which `s` agrees with its reordering `t`. */
  lemma ExtendPrefix(s: seq<int>, t: seq<int>, k: nat) returns (e: Exchange)
    requires |s| == |t| && multiset(s) == multiset(t)
    requires k < |s| && s[..k] == t[..k]
    ensures e.i < |s| && e.j < |s|
    ensures Swap(s, e)[..k + 1] == t[..k + 1]
  {
    SuffixesAgree(s, t, k);
    assert t[k] in multiset(s[k..]) by {
      assert t[k] == t[k..][0];
    }
    var m :| 0 <= m < |s[k..]| && s[k..][m] == t[k];
    e := Exchange(k, k + m);
  }

  /** Any reordering of `s` that already agrees with it on the first `k`
      positions is reached by some sequence of exchanges. */
  lemma {:induction false} ReachableFrom(s: seq<int>, t: seq<int>, k: nat)
    requires |s| == |t| && multiset(s) == multiset(t)
    requires k <= |s| && s[..k] == t[..k]
    ensures exists swaps :: ExchangesWithin(swaps, |s|) && Shuffle(s, swaps) == t
    decreases |s| - k
  {
    if k == |s| {
      assert s == s[..k] && t == t[..k];
      assert ExchangesWithin([], |s|) && Shuffle(s, []) == t;
    } else {
      var e := ExtendPrefix(s, t, k);
      var s' := Swap(s, e);
      ReachableFrom(s', t, k + 1);
      var rest :| ExchangesWithin(rest, |s'|) && Shuffle(s', rest) == t;
      var swaps := [e] + rest;
      assert swaps[0] == e && swaps[1..] == rest;
      assert ExchangesWithin(swaps, |s|);
      assert Shuffle(s, swaps) == t;
    }
  }

  /** Conversely, every arrangement of `[0, n)` is the outcome of some
      sequence of exchanges: modelling the sort by exchanges loses no
      possible order of the swatches. */
  lemma EveryArrangementReachable(t: seq<int>, n: nat)
    requires IsArrangement(t, n)
    ensures exists swaps :: ExchangesWithin(swaps, n) && Shuffle(Range(n), swaps) == t
  {
    ArrangementFacts(t, n);
    ReachableFrom(Range(n), t, 0);
  }

  /** The sort, run in place on the array of pushed indices. */
  method ShuffleInPlace(a: array<int>, swaps: seq<Exchange>)
    requires ExchangesWithin(swaps, a.Length)
    modifies a
    ensures a[..] == Shuffle(old(a[..]), swaps)
  {
    for k := 0 to |swaps|
      invariant ExchangesWithin(swaps[k..], a.Length)
      invariant Shuffle(a[..], swaps[k..]) == Shuffle(old(a[..]), swaps)
    {
      var e := swaps[k];
      ghost var before := a[..];
      var t := a[e.i];
      a[e.i] := a[e.j];
      a[e.j] := t;
      assert a[..] == Swap(before, e);
      assert swaps[k..][0] == e && swaps[k..][1..] == swaps[k + 1..];
    }
    assert swaps[|swaps|..] == [];
  }
}
