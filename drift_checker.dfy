/**
 * internal/drift_checker/drift_checker.go: fetch the live and the mirrored
 * copy of each sampled page, compare them, count the drifts, and send one
 * summary when there is any drift.
 *
 * The fetcher, the comparer and the notifier are oracles: for a page URL the
 * fetcher says whether the live (resp. mirror) copy could be fetched, and
 * the comparer what comparing the two copies came to.  The calls made are
 * recorded in a ghost log.
 */
module DriftChecker {
  import opened Wrappers
  import opened Urls
  import opened TopUrls

  /** drift_notifier.go's summary. */
  datatype DriftSummary = DriftSummary(numPagesCompared: nat, numDriftsDetected: nat)

  /** HaveSameBody's answer: an error, or whether the bodies are the same. */
  datatype Comparison = CompareError | Same | Different

  datatype Services = Services(
    fetchLive: string -> bool,           // FetchLivePage succeeded
    fetchMirror: string -> bool,         // FetchMirrorPage succeeded
    compare: string -> Comparison,       // HaveSameBody on that page's two copies
    notify: DriftSummary -> Option<string>)  // Notify's error, if any

  datatype Call =
    | FetchLive(url: string)
    | FetchMirror(url: string)
    | Compare(url: string)
    | Notify(summary: DriftSummary)

  // ---------------------------------------------------------------------
  // One page
  // ---------------------------------------------------------------------

  /** The calls made for one page: the live copy first, then the mirror, then the comparison. */
  function PageCalls(url: string, svc: Services): (calls: seq<Call>)
    ensures 1 <= |calls| <= 3 && calls[0] == FetchLive(url)
    ensures FetchMirror(url) in calls <==> svc.fetchLive(url)
    ensures Compare(url) in calls <==> svc.fetchLive(url) && svc.fetchMirror(url)
    ensures forall c :: c in calls ==> !c.Notify?
  {
    [FetchLive(url)] +
    if !svc.fetchLive(url) then []
    else [FetchMirror(url)] + if !svc.fetchMirror(url) then [] else [Compare(url)]
  }

  /** The page was compared: both copies were fetched (counted even when comparing fails). */
  predicate Compared(url: string, svc: Services)
  {
    svc.fetchLive(url) && svc.fetchMirror(url)
  }

  /** The page drifted: both copies were fetched and the comparer found them different. */
  predicate Drifted(url: string, svc: Services)
  {
    Compared(url, svc) && svc.compare(url) == Different
  }

  // ---------------------------------------------------------------------
  // comparePages, specified
  // ---------------------------------------------------------------------

  function UrlOf(page: UrlHitCount): string
  {
    page.viewedUrl.text
  }

  function AllCalls(pages: seq<UrlHitCount>, svc: Services): seq<Call>
    decreases |pages|
  {
    if |pages| == 0 then []
    else AllCalls(pages[..|pages| - 1], svc) + PageCalls(UrlOf(pages[|pages| - 1]), svc)
  }

  function Comparisons(pages: seq<UrlHitCount>, svc: Services): nat
    decreases |pages|
  {
    if |pages| == 0 then 0
    else Comparisons(pages[..|pages| - 1], svc) + if Compared(UrlOf(pages[|pages| - 1]), svc) then 1 else 0
  }

  function Drifts(pages: seq<UrlHitCount>, svc: Services): nat
    decreases |pages|
  {
    if |pages| == 0 then 0
    else Drifts(pages[..|pages| - 1], svc) + if Drifted(UrlOf(pages[|pages| - 1]), svc) then 1 else 0
  }

  /** For any slice, drifts <= comparisons <= pages. */
  lemma {:induction false} CountsBounded(pages: seq<UrlHitCount>, svc: Services)
    ensures Drifts(pages, svc) <= Comparisons(pages, svc) <= |pages|
    decreases |pages|
  {
    if |pages| > 0 {
      CountsBounded(pages[..|pages| - 1], svc);
    }
  }

  /** The indices of the pages that were compared. */
  function ComparedPages(pages: seq<UrlHitCount>, svc: Services): set<nat>
  {
    set i: nat | i < |pages| && Compared(UrlOf(pages[i]), svc)
  }

  /** The indices of the pages that drifted. */
  function DriftedPages(pages: seq<UrlHitCount>, svc: Services): set<nat>
  {
    set i: nat | i < |pages| && Drifted(UrlOf(pages[i]), svc)
  }

  /** comparisons counts exactly the pages whose two copies were fetched. */
  lemma {:induction false} ComparisonsCountComparedPages(pages: seq<UrlHitCount>, svc: Services)
    ensures Comparisons(pages, svc) == |ComparedPages(pages, svc)|
    decreases |pages|
  {
    if |pages| > 0 {
      var n := |pages| - 1;
      ComparisonsCountComparedPages(pages[..n], svc);
      assert ComparedPages(pages, svc) ==
             ComparedPages(pages[..n], svc) + if Compared(UrlOf(pages[n]), svc) then {n} else {};
    }
  }

  /** drifts counts exactly the compared pages found different. */
  lemma {:induction false} DriftsCountDriftedPages(pages: seq<UrlHitCount>, svc: Services)
    ensures Drifts(pages, svc) == |DriftedPages(pages, svc)|
    decreases |pages|
  {
    if |pages| > 0 {
      var n := |pages| - 1;
      DriftsCountDriftedPages(pages[..n], svc);
      assert DriftedPages(pages, svc) ==
             DriftedPages(pages[..n], svc) + if Drifted(UrlOf(pages[n]), svc) then {n} else {};
    }
  }

  /** A slice's calls are its pages' calls, page after page in list order, with no notification. */
  lemma {:induction false} AllCallsAppend(pages: seq<UrlHitCount>, more: seq<UrlHitCount>, svc: Services)
    ensures AllCalls(pages + more, svc) == AllCalls(pages, svc) + AllCalls(more, svc)
    ensures forall c :: c in AllCalls(pages, svc) ==> !c.Notify?
    decreases |more| + |pages|
  {
    if |more| > 0 {
      var m := |more| - 1;
      assert (pages + more)[..|pages + more| - 1] == pages + more[..m];
      AllCallsAppend(pages, more[..m], svc);
    } else {
      assert pages + more == pages;
      if |pages| > 0 {
        AllCallsAppend(pages[..|pages| - 1], [], svc);
      }
    }
  }

  // ---------------------------------------------------------------------
  // comparePages and CheckPagesForDrift
  // ---------------------------------------------------------------------

  /** comparePages: one pass over the pages with the two counters. */
  method ComparePages(pages: seq<UrlHitCount>, svc: Services)
    returns (drifts: nat, comparisons: nat, ghost calls: seq<Call>)
    ensures drifts == Drifts(pages, svc) && comparisons == Comparisons(pages, svc)
    ensures calls == AllCalls(pages, svc)
  {
    drifts, comparisons, calls := 0, 0, [];
    for i := 0 to |pages|
      invariant drifts == Drifts(pages[..i], svc) && comparisons == Comparisons(pages[..i], svc)
      invariant calls == AllCalls(pages[..i], svc)
    {
      assert pages[..i + 1][..i] == pages[..i];
      var url := UrlOf(pages[i]);
      calls := calls + [FetchLive(url)];
      if !svc.fetchLive(url) {
        continue;
      }
      calls := calls + [FetchMirror(url)];
      if !svc.fetchMirror(url) {
        continue;
      }
      var same := svc.compare(url);
      calls := calls + [Compare(url)];
      comparisons := comparisons + 1;
      if same == CompareError {
        continue;
      }
      if same == Different {
        drifts := drifts + 1;
      }
    }
    assert pages[..|pages|] == pages;
  }

  /** The summary CheckPagesForDrift sends: the counts of both slices added up. */
  function SummaryFor(urls: TopUrls, svc: Services): DriftSummary
  {
    DriftSummary(
      Comparisons(urls.topUnsampledUrls, svc) + Comparisons(urls.remainingSampledUrls, svc),
      Drifts(urls.topUnsampledUrls, svc) + Drifts(urls.remainingSampledUrls, svc))
  }

  /**
   * CheckPagesForDrift: the unsampled pages, then the sampled ones; when
   * anything drifted, one notification with the summed counts.  The
   * notifier's error is only logged.
   */
  method CheckPagesForDrift(urls: TopUrls, svc: Services) returns (drifted: bool, ghost calls: seq<Call>)
    ensures drifted <==> SummaryFor(urls, svc).numDriftsDetected > 0
    ensures calls == AllCalls(urls.topUnsampledUrls, svc) + AllCalls(urls.remainingSampledUrls, svc)
                     + if drifted then [Notify(SummaryFor(urls, svc))] else []
  {
    var topDrifts, topComparisons, topCalls := ComparePages(urls.topUnsampledUrls, svc);
    var restDrifts, restComparisons, restCalls := ComparePages(urls.remainingSampledUrls, svc);
    calls := topCalls + restCalls;
    var driftsDetected := topDrifts + restDrifts;
    if driftsDetected > 0 {
      var summary := DriftSummary(topComparisons + restComparisons, driftsDetected);
      var err := svc.notify(summary);
      calls := calls + [Notify(summary)];
      return true, calls;
    }
    return false, calls;
  }

  /**
   * The notifier is called exactly once when something drifted, last and
   * with a summary whose counts respect drifts <= compared <= pages, and
   * never otherwise.
   */
  lemma NotifyOnlyOnDrift(urls: TopUrls, svc: Services, drifted: bool, calls: seq<Call>)
    requires drifted <==> SummaryFor(urls, svc).numDriftsDetected > 0
    requires calls == AllCalls(urls.topUnsampledUrls, svc) + AllCalls(urls.remainingSampledUrls, svc)
                      + if drifted then [Notify(SummaryFor(urls, svc))] else []
    ensures drifted <==> exists i :: 0 <= i < |calls| && calls[i].Notify?
    ensures drifted ==> calls[|calls| - 1] == Notify(SummaryFor(urls, svc)) &&
                        forall i :: 0 <= i < |calls| - 1 ==> !calls[i].Notify?
    ensures var s := SummaryFor(urls, svc);
            s.numDriftsDetected <= s.numPagesCompared <= |urls.topUnsampledUrls| + |urls.remainingSampledUrls|
  {
    AllCallsAppend(urls.topUnsampledUrls, [], svc);
    AllCallsAppend(urls.remainingSampledUrls, [], svc);
    CountsBounded(urls.topUnsampledUrls, svc);
    CountsBounded(urls.remainingSampledUrls, svc);
    var pageCalls := AllCalls(urls.topUnsampledUrls, svc) + AllCalls(urls.remainingSampledUrls, svc);
    assert forall i :: 0 <= i < |pageCalls| ==> !pageCalls[i].Notify? by {
      forall i | 0 <= i < |pageCalls| ensures !pageCalls[i].Notify? {
        assert pageCalls[i] in AllCalls(urls.topUnsampledUrls, svc) || pageCalls[i] in AllCalls(urls.remainingSampledUrls, svc);
      }
    }
    if drifted {
      assert calls[|calls| - 1].Notify?;
    }
  }
}
