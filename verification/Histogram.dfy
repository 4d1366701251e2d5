/** The fixed-bucket latency histogram as an order statistic of the samples. */
module Histograms {

  /** A sample as the histogram keeps it: values past the last bucket fall into it. */
  function Clamp(ns: nat, buckets: nat): nat
    requires buckets >= 1
  {
    if ns < buckets - 1 then ns else buckets - 1
  }

  /** How many of the samples are at most `v` once clamped. */
  function AtMost(samples: seq<nat>, buckets: nat, v: int): nat
    requires buckets >= 1
  {
    if samples == [] then 0 else
    AtMost(samples[..|samples| - 1], buckets, v)
    + (if Clamp(samples[|samples| - 1], buckets) <= v then 1 else 0)
  }

  lemma {:induction false} AtMostRange(samples: seq<nat>, buckets: nat, v: int)
    requires buckets >= 1
    ensures AtMost(samples, buckets, v) <= |samples|
    ensures v >= buckets - 1 ==> AtMost(samples, buckets, v) == |samples|
    ensures v < 0 ==> AtMost(samples, buckets, v) == 0
  {
    if samples != [] {
      AtMostRange(samples[..|samples| - 1], buckets, v);
    }
  }

  lemma {:induction false} AtMostMono(samples: seq<nat>, buckets: nat, v: int, w: int)
    requires buckets >= 1 && v <= w
    ensures AtMost(samples, buckets, v) <= AtMost(samples, buckets, w)
  {
    if samples != [] {
      AtMostMono(samples[..|samples| - 1], buckets, v, w);
    }
  }

  /** `v` is the sample of rank `k`: at most `k` samples are below it, more than `k` are not above it. */
  ghost predicate HasRank(samples: seq<nat>, buckets: nat, k: nat, v: int)
    requires buckets >= 1
  {
    AtMost(samples, buckets, v - 1) <= k < AtMost(samples, buckets, v)
  }

  /** What `percentile` answers at rank `target`. */
  ghost predicate Answers(samples: seq<nat>, buckets: nat, target: nat, v: nat)
    requires buckets >= 1
  {
    if samples == [] then v == 0
    else if target < |samples| then v < buckets && HasRank(samples, buckets, target, v)
    else v == buckets - 1
  }

  /** The samples, clamped and sorted: some ordering of the clamped samples. */
  ghost predicate SortedSamples(samples: seq<nat>, buckets: nat, sorted: seq<nat>)
    requires buckets >= 1
  {
    && (forall i, j :: 0 <= i < j < |sorted| ==> sorted[i] <= sorted[j])
    && multiset(sorted) == multiset(Clamped(samples, buckets))
  }

  function CountAtMost(s: seq<nat>, v: int): nat {
    if s == [] then 0 else CountAtMost(s[..|s| - 1], v) + (if s[|s| - 1] <= v then 1 else 0)
  }

  function Clamped(samples: seq<nat>, buckets: nat): seq<nat>
    requires buckets >= 1
  {
    seq(|samples|, i requires 0 <= i < |samples| => Clamp(samples[i], buckets))
  }

  lemma {:induction false} CountClamped(samples: seq<nat>, buckets: nat, v: int)
    requires buckets >= 1
    ensures AtMost(samples, buckets, v) == CountAtMost(Clamped(samples, buckets), v)
  {
    if samples != [] {
      var n := |samples| - 1;
      CountClamped(samples[..n], buckets, v);
      assert Clamped(samples, buckets)[..n] == Clamped(samples[..n], buckets);
    }
  }

  /** In a sorted sequence the elements at most `v` are the first ones. */
  lemma {:induction false} CountSorted(s: seq<nat>, v: int)
    requires forall i, j :: 0 <= i < j < |s| ==> s[i] <= s[j]
    ensures CountAtMost(s, v) <= |s|
    ensures forall i :: 0 <= i < |s| ==> (s[i] <= v <==> i < CountAtMost(s, v))
  {
    if s != [] {
      CountSorted(s[..|s| - 1], v);
    }
  }

  lemma {:induction false} CountPermutation(s: seq<nat>, t: seq<nat>, v: int)
    requires multiset(s) == multiset(t)
    ensures CountAtMost(s, v) == CountAtMost(t, v)
    decreases |s|
  {
    if s == [] {
      assert |multiset(t)| == 0;
      assert t == [];
    } else {
      var n, x := |s| - 1, s[|s| - 1];
      assert x in multiset(t);
      var k :| 0 <= k < |t| && t[k] == x;
      DropMultiset(s, n);
      DropMultiset(t, k);
      assert s[..n] + s[n + 1..] == s[..n];
      CountDrop(t, k, v);
      CountPermutation(s[..n], t[..k] + t[k + 1..], v);
    }
  }

  lemma DropMultiset(t: seq<nat>, k: nat)
    requires k < |t|
    ensures multiset(t[..k] + t[k + 1..]) == multiset(t) - multiset{t[k]}
  {
    assert t == t[..k] + [t[k]] + t[k + 1..];
  }

  lemma {:induction false} CountDrop(t: seq<nat>, k: nat, v: int)
    requires k < |t|
    ensures CountAtMost(t, v) == CountAtMost(t[..k] + t[k + 1..], v) + (if t[k] <= v then 1 else 0)
  {
    var n := |t| - 1;
    if k == n {
      assert t[..k] + t[k + 1..] == t[..n];
    } else {
      CountDrop(t[..n], k, v);
      var t' := t[..k] + t[k + 1..];
      assert t'[..|t'| - 1] == t[..n][..k] + t[..n][k + 1..];
      assert t'[|t'| - 1] == t[n];
    }
  }

  /** The value of rank `k` is the element at index `k` of the sorted, clamped samples. */
  lemma RankIsSortedElement(samples: seq<nat>, buckets: nat, k: nat, v: int, sorted: seq<nat>)
    requires buckets >= 1 && SortedSamples(samples, buckets, sorted) && k < |samples|
    ensures |sorted| == |samples|
    ensures HasRank(samples, buckets, k, v) <==> v == sorted[k]
  {
    assert |multiset(sorted)| == |multiset(Clamped(samples, buckets))|;
    forall w: int
      ensures AtMost(samples, buckets, w) == CountAtMost(sorted, w)
    {
      CountClamped(samples, buckets, w);
      CountPermutation(sorted, Clamped(samples, buckets), w);
    }
    CountSorted(sorted, v);
    CountSorted(sorted, v - 1);
    CountSorted(sorted, sorted[k]);
    CountSorted(sorted, (sorted[k] as int) - 1);
  }

  /** Clamping in counts: below the last bucket it changes nothing, from there on it counts all. */
  lemma {:induction false} AtMostRaw(samples: seq<nat>, buckets: nat, v: int)
    requires buckets >= 1
    ensures AtMost(samples, buckets, v) == if v < buckets - 1 then CountAtMost(samples, v) else |samples|
  {
    if samples != [] {
      AtMostRaw(samples[..|samples| - 1], buckets, v);
    }
  }

  /** In terms of the samples as recorded: the answer at a rank below the count is the element at that
      index of the sorted samples if it is below the last bucket, and else the last bucket. */
  lemma AnswerFromSamples(samples: seq<nat>, buckets: nat, k: nat, v: nat, sorted: seq<nat>)
    requires buckets >= 1 && k < |samples|
    requires (forall i, j :: 0 <= i < j < |sorted| ==> sorted[i] <= sorted[j]) && multiset(sorted) == multiset(samples)
    ensures |sorted| == |samples|
    ensures Answers(samples, buckets, k, v) <==> v == if sorted[k] < buckets - 1 then sorted[k] else buckets - 1
  {
    assert |multiset(sorted)| == |multiset(samples)|;
    AtMostRaw(samples, buckets, v);
    AtMostRaw(samples, buckets, (v as int) - 1);
    CountPermutation(sorted, samples, v);
    CountPermutation(sorted, samples, (v as int) - 1);
    CountSorted(sorted, v);
    CountSorted(sorted, (v as int) - 1);
  }

  class Histogram {
    const buckets: array<nat>
    var total: nat
    ghost var samples: seq<nat>

    ghost predicate Valid()
      reads this, buckets
    {
      && buckets.Length >= 1
      && total == |samples|
      && (forall i :: 0 <= i < buckets.Length ==>
        buckets[i] == AtMost(samples, buckets.Length, i) - AtMost(samples, buckets.Length, i - 1))
    }

    constructor (n: nat)
      requires n >= 1
      ensures Valid() && fresh(buckets) && buckets.Length == n && samples == []
    {
      buckets := new nat[n](_ => 0);
      total := 0;
      samples := [];
    }

    method Record(ns: nat)
      requires Valid()
      modifies this, buckets
      ensures Valid() && samples == old(samples) + [ns]
    {
      var idx := if ns < buckets.Length - 1 then ns else buckets.Length - 1;
      buckets[idx] := buckets[idx] + 1;
      total := total + 1;
      samples := samples + [ns];
      assert samples[..|samples| - 1] == old(samples);
    }

    method Reset()
      requires Valid()
      modifies this, buckets
      ensures Valid() && samples == []
    {
      for i := 0 to buckets.Length
        invariant forall j :: 0 <= j < i ==> buckets[j] == 0
      {
        buckets[i] := 0;
      }
      total := 0;
      samples := [];
    }

    /** `percentile` with its target rank already computed. A rank below the total yields the sample of
        that rank; the rank of percentile 1.0 is the total itself, which yields the last bucket. */
    method Percentile(target: nat) returns (v: nat)
      requires Valid()
      ensures Answers(samples, buckets.Length, target, v)
    {
      if total == 0 { return 0; }
      var cum := 0;
      AtMostRange(samples, buckets.Length, -1);
      for i := 0 to buckets.Length
        invariant cum == AtMost(samples, buckets.Length, i - 1) <= target
      {
        AtMostRange(samples, buckets.Length, i);
        AtMostRange(samples, buckets.Length, i - 1);
        cum := cum + buckets[i];
        if cum > target { return i; }
      }
      AtMostRange(samples, buckets.Length, buckets.Length - 1);
      return buckets.Length - 1;
    }
  }

  /** Percentiles are monotone in the rank. */
  lemma RankMono(samples: seq<nat>, buckets: nat, k: nat, v: int, k': nat, v': int)
    requires buckets >= 1 && k <= k' && HasRank(samples, buckets, k, v) && HasRank(samples, buckets, k', v')
    ensures v <= v'
  {
    if v' < v {
      AtMostMono(samples, buckets, v', v - 1);
    }
  }

  /** Every rank has one answer. */
  lemma AnswerUnique(samples: seq<nat>, buckets: nat, target: nat, v: nat, w: nat)
    requires buckets >= 1 && Answers(samples, buckets, target, v) && Answers(samples, buckets, target, w)
    ensures v == w
  {
    if target < |samples| && samples != [] {
      RankMono(samples, buckets, target, v, target, w);
      RankMono(samples, buckets, target, w, target, v);
    }
  }

  /** Where the value at percentile 1.0 is not the largest sample: the answer at rank `count` is the
      largest clamped sample exactly when some sample reached the last bucket. */
  lemma TopPercentile(samples: seq<nat>, buckets: nat, v: nat)
    requires buckets >= 1 && samples != [] && Answers(samples, buckets, |samples|, v)
    ensures Answers(samples, buckets, |samples| - 1, v) <==>
            exists i :: 0 <= i < |samples| && samples[i] >= buckets - 1
  {
    AtMostRange(samples, buckets, buckets - 1);
    BelowAll(samples, buckets);
  }

  /** The default number of buckets. */
  const K_BUCKETS: nat := 10001

  /** One sample of 5 ns: the largest sample is 5, the answer at percentile 1.0 is 10000. */
  lemma TopPercentileFails(v: nat, w: nat)
    requires Answers([5], K_BUCKETS, 0, v) && Answers([5], K_BUCKETS, 1, w)
    ensures v == 5 && w == 10000
  {
    assert [5][..0] == [];
    assert AtMost([5], K_BUCKETS, 5) == 1 && AtMost([5], K_BUCKETS, 4) == 0;
    AnswerUnique([5], K_BUCKETS, 0, v, 5);
  }

  lemma {:induction false} BelowAll(samples: seq<nat>, buckets: nat)
    requires buckets >= 1
    ensures AtMost(samples, buckets, buckets - 2) == |samples| <==>
            forall i :: 0 <= i < |samples| ==> samples[i] < buckets - 1
    ensures AtMost(samples, buckets, buckets - 2) <= |samples|
  {
    if samples != [] {
      BelowAll(samples[..|samples| - 1], buckets);
    }
  }
}
