/**
 The log2 latency histogram. As coded, bucket 0 holds 0 and 1, and bucket i > 0 holds the samples in
 [2^i, 2^(i+1)).
 */
module Histogram {
  import opened Bits

  const BUCKETS: nat := 64

  /** s is within a factor of two above the reported value r, or below 2 and reported as 0. */
  ghost predicate Reports(r: nat, s: nat) {
    if s <= 1 then r == 0 else (exists b: nat :: r == Pow2(b)) && r <= s < 2 * r
  }

  predicate InBucket(s: nat, b: nat) {
    if b == 0 then s <= 1 else Pow2(b) <= s < Pow2(b + 1)
  }

  function BucketOf(s: nat): nat {
    if s <= 1 then 0 else 1 + BucketOf(s / 2)
  }

  lemma {:induction false} BucketOfIs(s: nat)
    ensures InBucket(s, BucketOf(s)) && (BucketOf(s) == 0 <==> s <= 1)
    ensures s < WORD ==> BucketOf(s) < BUCKETS
  {
    if s > 1 {
      BucketOfIs(s / 2);
      WordIsPow2();
      if BucketOf(s) >= BUCKETS {
        Pow2Mono(BUCKETS, BucketOf(s));
      }
    }
  }

  lemma {:induction false} BucketMono(a: nat, b: nat)
    requires a <= b
    ensures BucketOf(a) <= BucketOf(b)
  {
    if a > 1 {
      BucketMono(a / 2, b / 2);
    }
  }

  /** How many samples fall in buckets below i. */
  function CountBelow(s: seq<nat>, i: nat): nat {
    if s == [] then 0 else (if BucketOf(s[0]) < i then 1 else 0) + CountBelow(s[1..], i)
  }

  function CountIn(s: seq<nat>, i: nat): nat {
    if s == [] then 0 else (if BucketOf(s[0]) == i then 1 else 0) + CountIn(s[1..], i)
  }

  lemma {:induction false} CountStep(s: seq<nat>, i: nat)
    ensures CountBelow(s, i + 1) == CountBelow(s, i) + CountIn(s, i)
  {
    if s != [] {
      CountStep(s[1..], i);
    }
  }

  lemma {:induction false} CountAll(s: seq<nat>)
    requires forall k :: 0 <= k < |s| ==> s[k] < WORD
    ensures CountBelow(s, BUCKETS) == |s| && CountBelow(s, 0) == 0
  {
    if s != [] {
      BucketOfIs(s[0]);
      CountAll(s[1..]);
    }
  }

  lemma {:induction false} CountConcat(a: seq<nat>, b: seq<nat>, i: nat)
    ensures CountBelow(a + b, i) == CountBelow(a, i) + CountBelow(b, i)
    ensures CountIn(a + b, i) == CountIn(a, i) + CountIn(b, i)
  {
    if a == [] {
      assert a + b == b;
    } else {
      assert (a + b)[1..] == a[1..] + b;
      CountConcat(a[1..], b, i);
    }
  }

  lemma CountAround(s: seq<nat>, j: nat, i: nat)
    requires j < |s|
    ensures CountBelow(s, i) == CountBelow(s[..j] + s[j + 1..], i) + if BucketOf(s[j]) < i then 1 else 0
  {
    hide BucketOf;
    CountConcat(s[..j], s[j + 1..], i);
    CountConcat(s[..j], [s[j]] + s[j + 1..], i);
    assert s == s[..j] + ([s[j]] + s[j + 1..]);
    assert ([s[j]] + s[j + 1..])[1..] == s[j + 1..];
  }

  lemma WithoutOne(a: seq<nat>, b: seq<nat>, j: nat)
    requires multiset(a) == multiset(b) && a != [] && j < |b| && b[j] == a[0]
    ensures multiset(a[1..]) == multiset(b[..j] + b[j + 1..]) && |a[1..]| < |a|
  {
    assert a == [a[0]] + a[1..];
    assert b == b[..j] + [b[j]] + b[j + 1..];
    assert multiset(a[1..]) == multiset(a) - multiset{a[0]};
    assert multiset(b[..j] + b[j + 1..]) == multiset(b) - multiset{b[j]};
  }

  /** The count does not depend on the order of the samples. */
  lemma {:induction false} CountPermutes(a: seq<nat>, b: seq<nat>, i: nat)
    requires multiset(a) == multiset(b)
    ensures CountBelow(a, i) == CountBelow(b, i)
    decreases |a|
  {
    hide CountBelow, CountIn, BucketOf;
    if a == [] {
      assert |multiset(b)| == 0;
    } else {
      assert a[0] in multiset(a);
      var j :| 0 <= j < |b| && b[j] == a[0];
      WithoutOne(a, b, j);
      CountPermutes(a[1..], b[..j] + b[j + 1..], i);
      CountAround(a, 0, i);
      CountAround(b, j, i);
      assert a[..0] + a[1..] == a[1..];
    }
  }

  predicate Ascending(s: seq<nat>) {
    forall i, j :: 0 <= i < j < |s| ==> s[i] <= s[j]
  }

  /** The samples in ascending order. */
  predicate IsSorting(sorted: seq<nat>, samples: seq<nat>) {
    multiset(sorted) == multiset(samples) && Ascending(sorted) && |sorted| == |samples|
  }

  lemma {:induction false} CountAtLeast(s: seq<nat>, i: nat, t: nat)
    requires t <= |s| && forall k :: 0 <= k < t ==> BucketOf(s[k]) < i
    ensures CountBelow(s, i) >= t
  {
    if t > 0 {
      assert forall k :: 0 <= k < t - 1 ==> s[1..][k] == s[k + 1];
      CountAtLeast(s[1..], i, t - 1);
    }
  }

  lemma {:induction false} CountAtMost(s: seq<nat>, i: nat, t: nat)
    requires t <= |s| && forall k :: t <= k < |s| ==> BucketOf(s[k]) >= i
    ensures CountBelow(s, i) <= t
  {
    if s != [] {
      if t > 0 {
        assert forall k :: t - 1 <= k < |s| - 1 ==> s[1..][k] == s[k + 1];
        CountAtMost(s[1..], i, t - 1);
      } else {
        assert forall k :: 0 <= k < |s| - 1 ==> s[1..][k] == s[k + 1];
        CountAtMost(s[1..], i, 0);
      }
    }
  }

  /** The bucket in which the running count passes the rank is the bucket of the sample of that rank. */
  lemma RankBucket(samples: seq<nat>, sorted: seq<nat>, rank: nat, i: nat)
    requires multiset(sorted) == multiset(samples) && Ascending(sorted) && rank < |sorted|
    requires CountBelow(samples, i) <= rank < CountBelow(samples, i + 1)
    ensures BucketOf(sorted[rank]) == i
  {
    CountPermutes(sorted, samples, i);
    CountPermutes(sorted, samples, i + 1);
    if BucketOf(sorted[rank]) < i {
      forall k | 0 <= k < rank + 1
        ensures BucketOf(sorted[k]) < i
      {
        BucketMono(sorted[k], sorted[rank]);
      }
      CountAtLeast(sorted, i, rank + 1);
    } else if BucketOf(sorted[rank]) > i {
      forall k | rank <= k < |sorted|
        ensures BucketOf(sorted[k]) >= i + 1
      {
        BucketMono(sorted[rank], sorted[k]);
      }
      CountAtMost(sorted, i + 1, rank);
    }
  }

  class Hist {
    var count: nat
    var sumNs: nat
    var minNs: nat
    var maxNs: nat
    const buckets: array<nat>

    ghost var samples: seq<nat>

    ghost predicate Valid()
      reads this, buckets
    {
      && buckets.Length == BUCKETS
      && count == |samples|
      && (forall k :: 0 <= k < |samples| ==> samples[k] < WORD && minNs <= samples[k] <= maxNs)
      && (if samples == [] then minNs == WORD - 1 && maxNs == 0 else minNs in samples && maxNs in samples)
      && (forall i :: 0 <= i < BUCKETS ==> buckets[i] == CountIn(samples, i))
    }

    constructor ()
      ensures Valid() && samples == [] && fresh(buckets)
    {
      count, sumNs, minNs, maxNs := 0, 0, WORD - 1, 0;
      buckets := new nat[BUCKETS](_ => 0);
      samples := [];
    }

    static method Bucket(ns: nat) returns (b: nat)
      requires ns < WORD
      ensures b == BucketOf(ns) < BUCKETS && InBucket(ns, b)
    {
      b := 0;
      var v := ns;
      BucketOfIs(ns);
      while v > 1 && b < BUCKETS - 1
        invariant b + BucketOf(v) == BucketOf(ns)
        decreases v
      {
        v := v / 2;
        b := b + 1;
      }
    }

    static function BucketNs(b: nat): nat { if b == 0 then 0 else Pow2(b) }

    method AddNs(ns: nat)
      requires Valid() && ns < WORD
      modifies this, buckets
      ensures Valid() && samples == old(samples) + [ns]
      ensures sumNs == Wrap(old(sumNs) + ns)
    {
      hide BucketOf, InBucket;
      count := count + 1;
      sumNs := (sumNs + ns) % WORD;
      if ns < minNs {
        minNs := ns;
      }
      if ns > maxNs {
        maxNs := ns;
      }
      var b := Bucket(ns);
      buckets[b] := buckets[b] + 1;
      samples := samples + [ns];
      forall i | 0 <= i < BUCKETS
        ensures buckets[i] == CountIn(samples, i)
      {
        CountConcat(old(samples), [ns], i);
        assert [ns][1..] == [];
      }
      assert samples[|old(samples)|] == ns;
      assert forall k :: 0 <= k < |old(samples)| ==> samples[k] == old(samples)[k];
    }

    /** The histogram's answer for the sample of a given rank, counted from 0 in ascending order. */
    method Percentile(rank: nat) returns (r: nat)
      requires Valid()
      ensures count == 0 ==> r == 0
      ensures rank < count ==>
                forall sorted: seq<nat> :: IsSorting(sorted, samples) ==> Reports(r, sorted[rank])
    {
      if count == 0 {
        return 0;
      }
      CountAll(samples);
      var acc := 0;
      for i := 0 to BUCKETS
        invariant acc == CountBelow(samples, i)
        invariant rank < count ==> acc <= rank
      {
        CountStep(samples, i);
        acc := acc + buckets[i];
        if acc > rank {
          r := BucketNs(i);
          if rank < count {
            RankReported(samples, rank, i);
          }
          return;
        }
      }
      r := BucketNs(BUCKETS - 1);
    }

    /** The answer for a fraction p of the samples, with the rank computed over the reals. */
    method PercentileNs(p: real) returns (r: nat)
      requires Valid() && p >= 0.0
      ensures count == 0 ==> r == 0
      ensures count > 0 && p <= 1.0 ==>
                exists rank: nat :: rank < count && IsRank(rank, count, p)
                  && forall sorted: seq<nat> :: IsSorting(sorted, samples) ==> Reports(r, sorted[rank])
    {
      if count == 0 {
        return 0;
      }
      RankBelow(count, p);
      r := Percentile(Rank(count, p));
      if p <= 1.0 {
        assert IsRank(Rank(count, p), count, p);
      }
    }
  }

  /** The rank at a fraction p of count samples. */
  function Rank(count: nat, p: real): int {
    ((count - 1) as real * p).Floor
  }

  /** The fraction p of the last rank, rounded down. */
  predicate IsRank(rank: nat, count: nat, p: real) {
    rank as real <= (count - 1) as real * p < rank as real + 1.0
  }

  lemma RankBelow(count: nat, p: real)
    requires count > 0 && p >= 0.0
    ensures Rank(count, p) >= 0 && IsRank(Rank(count, p), count, p)
    ensures p <= 1.0 ==> Rank(count, p) < count
  {
    var last := (count - 1) as real;
    assert last * p >= 0.0;
    assert p <= 1.0 ==> last * p <= last;
  }

  lemma RankReported(samples: seq<nat>, rank: nat, i: nat)
    requires CountBelow(samples, i) <= rank < CountBelow(samples, i + 1) && rank < |samples|
    ensures forall sorted: seq<nat> :: IsSorting(sorted, samples) ==> Reports(Hist.BucketNs(i), sorted[rank])
  {
    forall sorted: seq<nat> | IsSorting(sorted, samples)
      ensures Reports(Hist.BucketNs(i), sorted[rank])
    {
      RankBucket(samples, sorted, rank, i);
      BucketOfIs(sorted[rank]);
    }
  }
}
