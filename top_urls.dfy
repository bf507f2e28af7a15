/**
 * internal/top_urls/top_urls.go: picking the pages a drift check looks at.
 * The K most viewed URLs are always taken; M more are drawn at random from
 * the rest.  The random generator is a parameter: `choices(t)` is the draw of
 * the shuffle's step t: `choices(t) % (i + 1)` stands for the index in
 * [0, i] the generator picks at that step.
 */
module TopUrls {
  import opened Wrappers
  import opened Urls
  import opened Sorting

  newtype Int64 = x: int | -0x8000_0000_0000_0000 <= x < 0x8000_0000_0000_0000

  datatype UrlHitCount = UrlHitCount(viewedUrl: Url, viewCount: Int64)

  datatype TopUrls = TopUrls(topUnsampledUrls: seq<UrlHitCount>, remainingSampledUrls: seq<UrlHitCount>)

  datatype TopUrlsError =
    | NotEnoughUrls(requested: nat, available: nat)                      // "requested %d unsampled, but there are only %d topUrls"
    | NotEnoughToSample(requested: nat, available: nat, unsampled: nat)  // "requested %d sampled, but there are only %d urls available ..."
    | CannotSample(requested: nat, available: nat)                       // "cannot sample %d elements since there are only %d ..."

  /** The random draws: step t of a shuffle swaps position i with `choices(t) % (i + 1)`, the index in [0, i] the generator picks. */
  type SwapChoices = nat -> nat

  // ---------------------------------------------------------------------
  // The shuffle (rand.Shuffle with the swapping closure of lines 65-67)
  // ---------------------------------------------------------------------

  function SwapAt<T>(s: seq<T>, i: nat, j: nat): (r: seq<T>)
    requires i < |s| && j < |s|
    ensures |r| == |s|
  {
    s[i := s[j]][j := s[i]]
  }

  /** Fisher–Yates from position i down to 1, starting with draw number t. */
  function ShuffleDown<T>(s: seq<T>, i: nat, t: nat, choices: SwapChoices): (r: seq<T>)
    requires i < |s|
    ensures |r| == |s|
    decreases i
  {
    if i == 0 then s
    else ShuffleDown(SwapAt(s, i, choices(t) % (i + 1)), i - 1, t + 1, choices)
  }

  /** rand.Shuffle(len(s), swap): the permutation the draws select. */
  function Shuffled<T>(s: seq<T>, choices: SwapChoices): (r: seq<T>)
    ensures |r| == |s| && multiset(r) == multiset(s)
  {
    if |s| == 0 then s
    else
      ShuffleDownPermutes(s, |s| - 1, 0, choices);
      ShuffleDown(s, |s| - 1, 0, choices)
  }

  lemma SwapAtPermutes<T>(s: seq<T>, i: nat, j: nat)
    requires i < |s| && j < |s|
    ensures multiset(SwapAt(s, i, j)) == multiset(s)
  {
  }

  /** Each step only exchanges two elements, so the whole shuffle is a permutation. */
  lemma {:induction false} ShuffleDownPermutes<T>(s: seq<T>, i: nat, t: nat, choices: SwapChoices)
    requires i < |s|
    ensures multiset(ShuffleDown(s, i, t, choices)) == multiset(s)
    decreases i
  {
    if i > 0 {
      var j := choices(t) % (i + 1);
      SwapAtPermutes(s, i, j);
      ShuffleDownPermutes(SwapAt(s, i, j), i - 1, t + 1, choices);
    }
  }

  lemma {:induction false} ShuffleDownDeterministic<T>(s: seq<T>, i: nat, t: nat, c1: SwapChoices, c2: SwapChoices)
    requires i < |s|
    requires forall u :: t <= u < t + i ==> c1(u) == c2(u)
    ensures ShuffleDown(s, i, t, c1) == ShuffleDown(s, i, t, c2)
    decreases i
  {
    if i > 0 {
      ShuffleDownDeterministic(SwapAt(s, i, c1(t) % (i + 1)), i - 1, t + 1, c1, c2);
    }
  }

  /**
   * The shuffle only swaps, as directed by the draws: the same first |s| - 1
   * draws give the same order (the draws after those are never consulted).
   */
  lemma ShuffledDeterministic<T>(s: seq<T>, c1: SwapChoices, c2: SwapChoices)
    requires forall u: nat :: u + 1 < |s| ==> c1(u) == c2(u)
    ensures Shuffled(s, c1) == Shuffled(s, c2)
  {
    if |s| > 0 {
      ShuffleDownDeterministic(s, |s| - 1, 0, c1, c2);
    }
  }

  /** rand.Shuffle over the slice a[lo..], in place. */
  method Shuffle<T>(a: array<T>, lo: nat, choices: SwapChoices)
    requires lo <= a.Length
    modifies a
    ensures a[..lo] == old(a[..lo])
    ensures a[lo..] == Shuffled(old(a[lo..]), choices)
  {
    var n := a.Length - lo;
    if n == 0 {
      return;
    }
    ghost var target := Shuffled(a[lo..], choices);
    var i: nat := n - 1;
    var t: nat := 0;
    while i > 0
      invariant 0 <= i < n && t == n - 1 - i
      invariant a[..lo] == old(a[..lo])
      invariant ShuffleDown(a[lo..], i, t, choices) == target
    {
      var j := choices(t) % (i + 1);
      ghost var before := a[..];
      a[lo + i], a[lo + j] := a[lo + j], a[lo + i];
      SwapInSuffix(before, a[..], lo, i, j);
      i, t := i - 1, t + 1;
    }
  }

  /** Exchanging two positions of the suffix s[lo..] leaves the prefix alone. */
  lemma SwapInSuffix<T>(before: seq<T>, after: seq<T>, lo: nat, i: nat, j: nat)
    requires lo + i < |before| && lo + j < |before|
    requires after == before[lo + i := before[lo + j]][lo + j := before[lo + i]]
    ensures after[..lo] == before[..lo]
    ensures after[lo..] == SwapAt(before[lo..], i, j)
  {
  }

  // ---------------------------------------------------------------------
  // sampleRemainingUrls and NewTopUrls
  // ---------------------------------------------------------------------

  /** `x` may be listed before `y`: cmp.Compare(y.ViewCount, x.ViewCount) <= 0. */
  predicate MoreViewed(x: UrlHitCount, y: UrlHitCount)
  {
    x.viewCount >= y.viewCount
  }

  lemma MoreViewedIsTotalPreorder()
    ensures TotalPreorder(MoreViewed)
  {
  }

  /**
   * sampleRemainingUrls on the slice a[lo..]: shuffles it in place and
   * returns its first m elements; fails (leaving a alone) when it is too short.
   */
  method SampleRemainingUrls(a: array<UrlHitCount>, lo: nat, m: nat, choices: SwapChoices)
    returns (r: Result<seq<UrlHitCount>, TopUrlsError>)
    requires lo <= a.Length
    modifies a
    ensures m > a.Length - lo ==> r == Failure(CannotSample(m, a.Length - lo)) && a[..] == old(a[..])
    ensures m <= a.Length - lo ==>
              && a[..lo] == old(a[..lo])
              && a[lo..] == Shuffled(old(a[lo..]), choices)
              && r == Success(a[lo..lo + m])
  {
    if m > a.Length - lo {
      return Failure(CannotSample(m, a.Length - lo));
    }
    Shuffle(a, lo, choices);
    r := Success(a[lo..lo + m]);
  }

  /**
   * What NewTopUrls promises of a successful result: there is an ordering of
   * the input by non-increasing view count whose first |top| elements are the
   * top, and the sample is the first m of that ordering's remainder after the
   * shuffle the draws select.
   */
  ghost predicate IsTopSample(urls: seq<UrlHitCount>, top: seq<UrlHitCount>, sampled: seq<UrlHitCount>,
                              m: nat, choices: SwapChoices)
  {
    exists sorted: seq<UrlHitCount> ::
      && multiset(sorted) == multiset(urls)
      && SortedBy(sorted, MoreViewed)
      && |top| + m <= |sorted|
      && top == sorted[..|top|]
      && sampled == Shuffled(sorted[|top|..], choices)[..m]
  }

  /**
   * NewTopUrls.  The input array is only read: sorting and shuffling act on a
   * fresh copy, so the caller's order is untouched (the method modifies nothing).
   */
  method NewTopUrls(urls: array<UrlHitCount>, numberUnsampled: nat, numberToSample: nat, choices: SwapChoices)
    returns (r: Result<TopUrls, TopUrlsError>)
    ensures urls.Length < numberUnsampled ==>
              r == Failure(NotEnoughUrls(numberUnsampled, urls.Length))
    ensures numberUnsampled <= urls.Length < numberUnsampled + numberToSample ==>
              r == Failure(NotEnoughToSample(numberToSample, urls.Length - numberUnsampled, numberUnsampled))
    ensures numberUnsampled + numberToSample <= urls.Length <==> r.Success?
    ensures r.Success? ==>
              var top, sampled := r.value.topUnsampledUrls, r.value.remainingSampledUrls;
              && |top| == numberUnsampled
              && |sampled| == numberToSample
              && IsTopSample(urls[..], top, sampled, numberToSample, choices)
              && SortedBy(top, MoreViewed)
              && (forall x, y :: x in top && y in sampled ==> x.viewCount >= y.viewCount)
              && multiset(top) + multiset(sampled) <= multiset(urls[..])
  {
    var totalUrls := urls.Length;
    if totalUrls < numberUnsampled {
      return Failure(NotEnoughUrls(numberUnsampled, totalUrls));
    }
    var numUrlsAvailableToSample := totalUrls - numberUnsampled;
    if numUrlsAvailableToSample < numberToSample {
      return Failure(NotEnoughToSample(numberToSample, numUrlsAvailableToSample, numberUnsampled));
    }

    var copiedUrls := new UrlHitCount[totalUrls](i requires 0 <= i < totalUrls reads urls => urls[i]);
    assert copiedUrls[..] == urls[..];

    MoreViewedIsTotalPreorder();
    SelectionSort(copiedUrls, MoreViewed);
    ghost var sorted := copiedUrls[..];

    var sampledUrls := SampleRemainingUrls(copiedUrls, numberUnsampled, numberToSample, choices);
    // The error return of lines 49-51 cannot happen: the second check above
    // already guarantees enough URLs remain.
    var top := copiedUrls[0..numberUnsampled];
    var sampled := sampledUrls.value;
    TopSampleOfSorted(urls[..], sorted, numberUnsampled, numberToSample, choices, top, sampled);
    r := Success(TopUrls(top, sampled));
  }

  /** Sorting a copy, keeping its first k and sampling the shuffled rest gives a top sample. */
  lemma TopSampleOfSorted(urls: seq<UrlHitCount>, sorted: seq<UrlHitCount>, k: nat, m: nat, choices: SwapChoices,
                          top: seq<UrlHitCount>, sampled: seq<UrlHitCount>)
    requires k + m <= |sorted| && multiset(sorted) == multiset(urls) && SortedBy(sorted, MoreViewed)
    requires top == sorted[..k] && sampled == Shuffled(sorted[k..], choices)[..m]
    ensures IsTopSample(urls, top, sampled, m, choices)
    ensures SortedBy(top, MoreViewed)
    ensures forall x, y :: x in top && y in sampled ==> x.viewCount >= y.viewCount
    ensures multiset(top) + multiset(sampled) <= multiset(urls)
  {
    var rest := sorted[k..];
    assert sorted == top + rest;
    TopAboveRest(sorted, k);
    SampleFromRest(top, rest, sampled, m, choices);
  }

  /** In a list sorted by view count, every element of a prefix is viewed at least as often as every later one. */
  lemma TopAboveRest(sorted: seq<UrlHitCount>, k: nat)
    requires k <= |sorted| && SortedBy(sorted, MoreViewed)
    ensures SortedBy(sorted[..k], MoreViewed)
    ensures forall x, y :: x in sorted[..k] && y in sorted[k..] ==> x.viewCount >= y.viewCount
  {
    forall x, y | x in sorted[..k] && y in sorted[k..] ensures x.viewCount >= y.viewCount {
      var p :| 0 <= p < k && sorted[p] == x;
      var q :| 0 <= q < |sorted| - k && sorted[k..][q] == y;
      assert MoreViewed(sorted[p], sorted[k + q]);
    }
  }

  /** The sample is drawn from the remainder only, so it sits below the top and does not repeat it. */
  lemma SampleFromRest(top: seq<UrlHitCount>, rest: seq<UrlHitCount>, sampled: seq<UrlHitCount>, m: nat,
                       choices: SwapChoices)
    requires m <= |rest| && sampled == Shuffled(rest, choices)[..m]
    requires forall x, y :: x in top && y in rest ==> x.viewCount >= y.viewCount
    ensures forall x, y :: x in top && y in sampled ==> x.viewCount >= y.viewCount
    ensures multiset(top) + multiset(sampled) <= multiset(top) + multiset(rest)
  {
    var shuffled := Shuffled(rest, choices);
    assert shuffled == sampled + shuffled[m..];
    assert multiset(shuffled) == multiset(sampled) + multiset(shuffled[m..]);
    forall y | y in sampled ensures y in rest {
      assert y in multiset(sampled);
      assert y in multiset(rest);
    }
  }

  // ---------------------------------------------------------------------
  // The same draws give the same selection
  // ---------------------------------------------------------------------

  /** Entries with equal view counts are the same entry (no ties to break). */
  ghost predicate CountsIdentify(s: seq<UrlHitCount>)
  {
    forall x, y :: x in s && y in s && x.viewCount == y.viewCount ==> x == y
  }

  /** Without ties, there is only one ordering of a multiset by non-increasing view count. */
  lemma {:induction false} SortedByViewsUnique(s1: seq<UrlHitCount>, s2: seq<UrlHitCount>)
    requires multiset(s1) == multiset(s2)
    requires SortedBy(s1, MoreViewed) && SortedBy(s2, MoreViewed)
    requires CountsIdentify(s1)
    ensures s1 == s2
    decreases |s1|
  {
    assert |s1| == |s2| by {
      assert |multiset(s1)| == |multiset(s2)|;
    }
    if |s1| > 0 {
      SameFirst(s1, s2);
      DropFirst(s1);
      DropFirst(s2);
      SortedByViewsUnique(s1[1..], s2[1..]);
      assert s1 == [s1[0]] + s1[1..] && s2 == [s2[0]] + s2[1..];
    }
  }

  /** The most viewed entry comes first in both orderings, and without ties it is the same entry. */
  lemma SameFirst(s1: seq<UrlHitCount>, s2: seq<UrlHitCount>)
    requires |s1| > 0 && multiset(s1) == multiset(s2)
    requires SortedBy(s1, MoreViewed) && SortedBy(s2, MoreViewed)
    requires CountsIdentify(s1)
    ensures |s2| > 0 && s1[0] == s2[0]
  {
    var x := s1[0];
    assert x in multiset(s2);
    var y := s2[0];
    assert y in multiset(s1);
    var i :| 0 <= i < |s1| && s1[i] == y;
    var j :| 0 <= j < |s2| && s2[j] == x;
    if i > 0 { assert MoreViewed(s1[0], s1[i]); }
    if j > 0 { assert MoreViewed(s2[0], s2[j]); }
  }

  /** Dropping the first entry keeps the order, keeps the absence of ties, and removes one occurrence. */
  lemma DropFirst(s: seq<UrlHitCount>)
    requires |s| > 0
    ensures multiset(s[1..]) == multiset(s) - multiset{s[0]}
    ensures SortedBy(s, MoreViewed) ==> SortedBy(s[1..], MoreViewed)
    ensures CountsIdentify(s) ==> CountsIdentify(s[1..])
  {
    assert s == [s[0]] + s[1..];
    assert multiset(s) == multiset{s[0]} + multiset(s[1..]);
    forall x | x in s[1..] ensures x in s {
      var p :| 0 <= p < |s[1..]| && s[1..][p] == x;
      assert s[p + 1] == x;
    }
  }

  /**
   * Without ties among the view counts, a top sample is decided by the input,
   * K, M and the shuffle's draws alone: two results that share the first
   * |urls| - K - 1 draws have the same top and the same sample.
   */
  lemma TopSampleDeterministic(urls: seq<UrlHitCount>, k: nat, m: nat, c1: SwapChoices, c2: SwapChoices,
                               top1: seq<UrlHitCount>, sampled1: seq<UrlHitCount>,
                               top2: seq<UrlHitCount>, sampled2: seq<UrlHitCount>)
    requires CountsIdentify(urls)
    requires |top1| == k && |top2| == k
    requires forall u: nat :: u + 1 < |urls| - k ==> c1(u) == c2(u)
    requires IsTopSample(urls, top1, sampled1, m, c1) && IsTopSample(urls, top2, sampled2, m, c2)
    ensures top1 == top2 && sampled1 == sampled2
  {
    var s1 :| && multiset(s1) == multiset(urls) && SortedBy(s1, MoreViewed) && k + m <= |s1|
              && top1 == s1[..k] && sampled1 == Shuffled(s1[k..], c1)[..m];
    var s2 :| && multiset(s2) == multiset(urls) && SortedBy(s2, MoreViewed) && k + m <= |s2|
              && top2 == s2[..k] && sampled2 == Shuffled(s2[k..], c2)[..m];
    assert CountsIdentify(s1) by {
      forall x: UrlHitCount, y: UrlHitCount | x in s1 && y in s1 && x.viewCount == y.viewCount ensures x == y {
        assert x in multiset(s1) && y in multiset(s1);
        assert x in urls && y in urls;
      }
    }
    SortedByViewsUnique(s1, s2);
    assert |s1| == |urls| by {
      assert |multiset(s1)| == |multiset(urls)|;
    }
    ShuffledDeterministic(s1[k..], c1, c2);
  }
}
