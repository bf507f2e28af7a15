/**
 * internal/crawler/crawler.go: the callbacks colly runs while mirroring.
 * The package globals `es`, `num_sitemaps` and `counter_sitemaps` and the
 * crawler-error metric become the fields of one `Crawler` object; each
 * callback is a method applied to it in turn.  What colly's Visit answers,
 * what file.Save answers and what mime.ParseMediaType returns are
 * parameters; the visits and saves made are recorded in ghost logs.
 */
module Crawler {
  import opened Wrappers
  import opened Text
  import opened Urls
  import opened Sorting
  import MirrorFile
  import HttpClient

  /** `entry`: `val` is a sitemap lastmod, `key` the loc it belongs to. */
  datatype Entry = Entry(val: string, key: string)

  /** A `<sitemap>` or `<url>` element: its `<loc>` text and, when present, its `<lastmod>` text. */
  datatype SitemapNode = SitemapNode(loc: string, lastmod: Option<string>)

  /** The errors colly's Visit can return. */
  datatype VisitError =
    | ErrForbiddenDomain
    | ErrForbiddenURL
    | AlreadyVisited(url: string)
    | OtherVisitError(reason: string)

  /** Request.Visit: the error it returns for a link, if any. */
  type Visitor = string -> Option<VisitError>

  /** isForbiddenURLError: the visit errors that are expected while crawling. */
  predicate IsForbiddenURLError(err: VisitError)
  {
    err == ErrForbiddenDomain || err == ErrForbiddenURL || err.AlreadyVisited?
  }

  /** A visit outcome the handlers count as a crawler error. */
  predicate CountedVisitError(outcome: Option<VisitError>)
  {
    outcome.Some? && !IsForbiddenURLError(outcome.value)
  }

  /** How many of the links visit with an error the handlers count. */
  function CountedErrors(links: seq<string>, visit: Visitor): (n: nat)
    ensures n <= |links|
    decreases |links|
  {
    if |links| == 0 then 0
    else CountedErrors(links[..|links| - 1], visit) + (if CountedVisitError(visit(links[|links| - 1])) then 1 else 0)
  }

  /** A call of file.Save. */
  datatype SavedFile = SavedFile(url: Url, contentType: string, body: string)

  /** mime.ParseMediaType: the media type (lower-cased, possibly "") and whether it reported an error. */
  datatype MediaType = MediaType(mediaType: string, failed: bool)

  const DefaultLastmod: string := "2000-01-01T00:00:00Z"

  /** The entry the urlset handler records for a `<url>`: a missing lastmod becomes DefaultLastmod. */
  function UrlEntry(node: SitemapNode): (e: Entry)
    ensures e.key == node.loc
    ensures node.lastmod.Some? ==> e.val == node.lastmod.value
    ensures node.lastmod.None? ==> e.val == DefaultLastmod
  {
    Entry(if node.lastmod.Some? then node.lastmod.value else DefaultLastmod, node.loc)
  }

  /**
   * The entry the sitemap-index handler records for a `<sitemap>`, as the
   * code reads it: `SelectElement("lastmod").InnerText()` with no nil check,
   * so a `<sitemap>` without `<lastmod>` dereferences nil.
   */
  function SitemapEntryAsWritten(node: SitemapNode): (r: Result<Entry, string>)
    ensures r.Success? <==> node.lastmod.Some?
    ensures r.Success? ==> r.value == Entry(node.lastmod.value, node.loc)
  {
    match node.lastmod
    case None => Failure("nil pointer dereference")
    case Some(lastmod) => Success(Entry(lastmod, node.loc))
  }

  /** `<lastmod>` is optional inside `<sitemap>` (sitemaps.org schema 0.9), yet the handler as written fails on it. */
  lemma SitemapWithoutLastmodFails()
    ensures SitemapEntryAsWritten(SitemapNode("/sitemap_1.xml", None)).Failure?
  {
  }

  /** The corrected `<sitemap>` entry: read like a `<url>`, with the same default. */
  function SitemapEntry(node: SitemapNode): (e: Entry)
    ensures SitemapEntryAsWritten(node).Success? ==> Success(e) == SitemapEntryAsWritten(node)
    ensures e == UrlEntry(node)
  {
    UrlEntry(node)
  }

  function UrlEntries(nodes: seq<SitemapNode>): (es: seq<Entry>)
    ensures |es| == |nodes| && forall i :: 0 <= i < |nodes| ==> es[i] == UrlEntry(nodes[i])
  {
    seq(|nodes|, i requires 0 <= i < |nodes| => UrlEntry(nodes[i]))
  }

  function SitemapEntries(nodes: seq<SitemapNode>): (es: seq<Entry>)
    ensures |es| == |nodes| && forall i :: 0 <= i < |nodes| ==> es[i] == SitemapEntry(nodes[i])
  {
    seq(|nodes|, i requires 0 <= i < |nodes| => SitemapEntry(nodes[i]))
  }

  function Locs(nodes: seq<SitemapNode>): (locs: seq<string>)
    ensures |locs| == |nodes| && forall i :: 0 <= i < |nodes| ==> locs[i] == nodes[i].loc
  {
    seq(|nodes|, i requires 0 <= i < |nodes| => nodes[i].loc)
  }

  function Keys(es: seq<Entry>): (keys: seq<string>)
    ensures |keys| == |es| && forall i :: 0 <= i < |es| ==> keys[i] == es[i].key
  {
    seq(|es|, i requires 0 <= i < |es| => es[i].key)
  }

  /** `sort.Reverse(es)` order: x may come before y unless x's lastmod sorts below y's. */
  predicate NewerOrSame(x: Entry, y: Entry)
  {
    !LexLess(x.val, y.val)
  }

  lemma NewerOrSameIsTotalPreorder()
    ensures TotalPreorder(NewerOrSame)
  {
    forall x: Entry, y: Entry ensures NewerOrSame(x, y) || NewerOrSame(y, x) {
      LexLessAsymmetric(x.val, y.val);
    }
    forall x: Entry, y: Entry, z: Entry | NewerOrSame(x, y) && NewerOrSame(y, z) ensures NewerOrSame(x, z) {
      LexLessEqTransitive(z.val, y.val, x.val);
    }
  }

  /** The lastmods, read as strings, never increase along the list. */
  ghost predicate NewestFirst(es: seq<Entry>)
  {
    SortedBy(es, NewerOrSame)
  }

  /** The link an HTML element contributes: href of a/link, src of img/script. */
  function ElementLink(name: string, attr: string -> string): (link: string)
    ensures (name == "a" || name == "link") ==> link == attr("href")
    ensures (name == "img" || name == "script") ==> link == attr("src")
  {
    match name
    case "a" => attr("href")
    case "link" => attr("href")
    case "img" => attr("src")
    case "script" => attr("src")
    case _ => ""
  }

  /**
   * The Content-Type header a response carries on after the response
   * handler: every "xml" removed when the media type is not CSS and names an
   * OpenXML or "+xml" format, the header as it came otherwise.
   */
  function MaskedContentType(mediaType: string, contentType: string): (header: string)
    ensures header != contentType ==>
              mediaType != "text/css" && (Contains(mediaType, "openxmlformats") || Contains(mediaType, "+xml"))
    ensures IsSubsequence(header, contentType)
    ensures (mediaType != "text/css" && (Contains(mediaType, "openxmlformats") || Contains(mediaType, "+xml"))
             && Contains(contentType, "xml")) ==> |header| < |contentType|
  {
    if mediaType != "text/css" && (Contains(mediaType, "openxmlformats") || Contains(mediaType, "+xml"))
    then RemoveAll(contentType, "xml")
    else
      SubsequenceOfItself(contentType);
      contentType
  }

  class Crawler {
    var es: seq<Entry>
    var numSitemaps: int
    var counterSitemaps: int
    /** The crawler-error metric. */
    var crawlerErrors: nat
    /** Every link passed to Visit, in order. */
    ghost var visits: seq<string>
    /** Every call of file.Save, in order. */
    ghost var saved: seq<SavedFile>

    constructor ()
      ensures es == [] && numSitemaps == 0 && counterSitemaps == 0 && crawlerErrors == 0
      ensures visits == [] && saved == []
    {
      es := [];
      numSitemaps := 0;
      counterSitemaps := 0;
      crawlerErrors := 0;
      visits := [];
      saved := [];
    }

    /**
     * sitemapXmlHandler (with the lastmod default, see SitemapEntry): the
     * expected number of urlsets is overwritten with the number of
     * `<sitemap>` children; each child's loc is visited and an entry
     * appended.  Visit errors here are only logged.
     */
    method SitemapXmlHandler(sitemaps: seq<SitemapNode>, visit: Visitor)
      modifies this
      ensures numSitemaps == |sitemaps|
      ensures es == old(es) + SitemapEntries(sitemaps)
      ensures visits == old(visits) + Locs(sitemaps)
      ensures counterSitemaps == old(counterSitemaps) && crawlerErrors == old(crawlerErrors) && saved == old(saved)
    {
      numSitemaps := |sitemaps|;
      for i := 0 to |sitemaps|
        invariant es == old(es) + SitemapEntries(sitemaps[..i])
        invariant visits == old(visits) + Locs(sitemaps[..i])
        invariant numSitemaps == |sitemaps|
        invariant counterSitemaps == old(counterSitemaps) && crawlerErrors == old(crawlerErrors) && saved == old(saved)
      {
        var child := sitemaps[i];
        var _ := visit(child.loc);
        visits := visits + [child.loc];
        es := es + [SitemapEntry(child)];
        assert sitemaps[..i + 1] == sitemaps[..i] + [child];
      }
      assert sitemaps[..|sitemaps|] == sitemaps;
    }

    /** urlsetXmlHandler: one entry per `<url>`, in document order, and one more urlset counted. */
    method UrlsetXmlHandler(urls: seq<SitemapNode>)
      modifies this
      ensures es == old(es) + UrlEntries(urls)
      ensures counterSitemaps == old(counterSitemaps) + 1
      ensures numSitemaps == old(numSitemaps) && crawlerErrors == old(crawlerErrors)
      ensures visits == old(visits) && saved == old(saved)
    {
      for i := 0 to |urls|
        invariant es == old(es) + UrlEntries(urls[..i])
        invariant counterSitemaps == old(counterSitemaps)
        invariant numSitemaps == old(numSitemaps) && crawlerErrors == old(crawlerErrors)
        invariant visits == old(visits) && saved == old(saved)
      {
        es := es + [UrlEntry(urls[i])];
        assert urls[..i + 1] == urls[..i] + [urls[i]];
      }
      assert urls[..|urls|] == urls;
      counterSitemaps := counterSitemaps + 1;
    }

    /** The gate of scrapeHandler: closed for "/sitemap.xml" and while urlsets are still expected. */
    predicate GateClosed(requestUrl: string)
      reads this
    {
      requestUrl == "/sitemap.xml" || counterSitemaps < numSitemaps
    }

    /**
     * scrapeHandler: once the gate is open, `es` is sorted newest lastmod
     * first (in place, so it stays sorted) and every key is visited in that
     * order.  Visit errors are only logged.
     */
    method ScrapeHandler(requestUrl: string, visit: Visitor)
      modifies this
      ensures old(GateClosed(requestUrl)) ==> es == old(es) && visits == old(visits)
      ensures !old(GateClosed(requestUrl)) ==>
                && NewestFirst(es)
                && multiset(es) == multiset(old(es))
                && visits == old(visits) + Keys(es)
      ensures numSitemaps == old(numSitemaps) && counterSitemaps == old(counterSitemaps)
      ensures crawlerErrors == old(crawlerErrors) && saved == old(saved)
    {
      if requestUrl == "/sitemap.xml" || counterSitemaps < numSitemaps {
        return;
      }

      var a := new Entry[|es|](i requires 0 <= i < |es| reads this => es[i]);
      assert a[..] == es;
      NewerOrSameIsTotalPreorder();
      SelectionSort(a, NewerOrSame);
      var sorted := a[..];
      es := sorted;

      for i := 0 to |sorted|
        invariant visits == old(visits) + Keys(sorted[..i])
        invariant es == sorted
        invariant numSitemaps == old(numSitemaps) && counterSitemaps == old(counterSitemaps)
        invariant crawlerErrors == old(crawlerErrors) && saved == old(saved)
      {
        var _ := visit(sorted[i].key);
        visits := visits + [sorted[i].key];
        assert sorted[..i + 1] == sorted[..i] + [sorted[i]];
      }
      assert sorted[..|sorted|] == sorted;
    }

    /**
     * htmlHandler for one matched element: links starting with '#' are
     * skipped; anything else is visited, and a visit error that is not a
     * forbidden-domain, forbidden-URL or already-visited error is counted.
     */
    method HtmlHandler(name: string, attr: string -> string, visit: Visitor)
      modifies this
      ensures var link := ElementLink(name, attr);
              && ("#" <= link ==> visits == old(visits) && crawlerErrors == old(crawlerErrors))
              && (!("#" <= link) ==>
                    && visits == old(visits) + [link]
                    && crawlerErrors == old(crawlerErrors) + (if CountedVisitError(visit(link)) then 1 else 0))
      ensures es == old(es) && numSitemaps == old(numSitemaps) && counterSitemaps == old(counterSitemaps)
      ensures saved == old(saved)
    {
      var link := ElementLink(name, attr);
      if "#" <= link {
        return;
      }
      var err := visit(link);
      visits := visits + [link];
      if err.Some? && !IsForbiddenURLError(err.value) {
        crawlerErrors := crawlerErrors + 1;
      }
    }

    /** Visits each link in turn, counting the visit errors that are not forbidden ones. */
    method VisitAll(links: seq<string>, visit: Visitor)
      modifies this
      ensures visits == old(visits) + links
      ensures crawlerErrors == old(crawlerErrors) + CountedErrors(links, visit)
      ensures es == old(es) && numSitemaps == old(numSitemaps) && counterSitemaps == old(counterSitemaps)
      ensures saved == old(saved)
    {
      for i := 0 to |links|
        invariant visits == old(visits) + links[..i]
        invariant crawlerErrors == old(crawlerErrors) + CountedErrors(links[..i], visit)
        invariant es == old(es) && numSitemaps == old(numSitemaps) && counterSitemaps == old(counterSitemaps)
        invariant saved == old(saved)
      {
        var err := visit(links[i]);
        visits := visits + [links[i]];
        assert links[..i + 1][..i] == links[..i];
        if err.Some? && !IsForbiddenURLError(err.value) {
          crawlerErrors := crawlerErrors + 1;
        }
        assert links[..i + 1] == links[..i] + [links[i]];
      }
      assert links[..|links|] == links;
    }

    /**
     * responseHandler: a Content-Type that does not parse is counted; a
     * stylesheet's url(...) references are visited (non-forbidden errors
     * counted); an OpenXML or "+xml" type has "xml" removed from the header
     * handed on.  The response is saved under its ORIGINAL Content-Type, and
     * a failed save is counted.
     */
    method ResponseHandler(url: Url, contentType: string, body: string, parseMediaType: string -> MediaType,
                           visit: Visitor, saveFails: bool)
      returns (header: string)
      modifies this
      ensures var mt := parseMediaType(contentType);
              var links := if mt.mediaType == "text/css" then MirrorFile.CssReferences(body) else [];
              && header == MaskedContentType(mt.mediaType, contentType)
              && saved == old(saved) + [SavedFile(url, contentType, body)]
              && visits == old(visits) + links
              && crawlerErrors == old(crawlerErrors) + (if mt.failed then 1 else 0)
                                  + CountedErrors(links, visit) + (if saveFails then 1 else 0)
      ensures es == old(es) && numSitemaps == old(numSitemaps) && counterSitemaps == old(counterSitemaps)
    {
      header := contentType;
      var mt := parseMediaType(contentType);
      if mt.failed {
        crawlerErrors := crawlerErrors + 1;
      }
      if mt.mediaType == "text/css" {
        var urls := MirrorFile.FindCssUrls(body);
        VisitAll(urls, visit);
      } else if Contains(mt.mediaType, "openxmlformats") || Contains(mt.mediaType, "+xml") {
        header := RemoveAll(contentType, "xml");
      }

      saved := saved + [SavedFile(url, contentType, body)];
      if saveFails {
        crawlerErrors := crawlerErrors + 1;
      }
    }

    /**
     * errorHandler: a disallowed-redirect error is ignored; every other
     * error is counted once.  Whether an error is a DisallowedURLError is a
     * parameter (see README).
     */
    method ErrorHandler<E>(err: E, isDisallowedURLError: E -> bool)
      modifies this
      ensures crawlerErrors == old(crawlerErrors) + (if isDisallowedURLError(err) then 0 else 1)
      ensures es == old(es) && numSitemaps == old(numSitemaps) && counterSitemaps == old(counterSitemaps)
      ensures visits == old(visits) && saved == old(saved)
    {
      if isDisallowedURLError(err) {
        return;
      }
      crawlerErrors := crawlerErrors + 1;
    }

    /**
     * redirectHandler: every request in the redirect chain is saved as a
     * redirect page to the new target; the first failing save is counted
     * and its error returned, and the rest of the chain is not saved.
     */
    method RedirectHandler(target: string, via: seq<Url>, saveFails: Url -> bool) returns (err: Option<Url>)
      modifies this
      ensures err.None? <==> forall k :: 0 <= k < |via| ==> !saveFails(via[k])
      ensures err.None? ==> saved == old(saved) + RedirectPages(via, target)
                            && crawlerErrors == old(crawlerErrors)
      ensures err.Some? ==>
                exists k :: 0 <= k < |via| && via[k] == err.value && saveFails(via[k])
                  && (forall p :: 0 <= p < k ==> !saveFails(via[p]))
                  && saved == old(saved) + RedirectPages(via[..k + 1], target)
                  && crawlerErrors == old(crawlerErrors) + 1
      ensures es == old(es) && numSitemaps == old(numSitemaps) && counterSitemaps == old(counterSitemaps)
      ensures visits == old(visits)
    {
      for i := 0 to |via|
        invariant saved == old(saved) + RedirectPages(via[..i], target)
        invariant forall p :: 0 <= p < i ==> !saveFails(via[p])
        invariant crawlerErrors == old(crawlerErrors)
        invariant es == old(es) && numSitemaps == old(numSitemaps) && counterSitemaps == old(counterSitemaps)
        invariant visits == old(visits)
      {
        saved := saved + [SavedFile(via[i], "text/html", MirrorFile.RedirectHTMLBody(target))];
        assert via[..i + 1] == via[..i] + [via[i]];
        if saveFails(via[i]) {
          crawlerErrors := crawlerErrors + 1;
          assert saved == old(saved) + RedirectPages(via[..i + 1], target);
          return Some(via[i]);
        }
      }
      assert via[..|via|] == via;
      err := None;
    }
  }

  /** The entries the urlset handler records for several urlsets, one after the other. */
  function AllUrlEntries(urlsets: seq<seq<SitemapNode>>): seq<Entry>
    decreases |urlsets|
  {
    if |urlsets| == 0 then [] else AllUrlEntries(urlsets[..|urlsets| - 1]) + UrlEntries(urlsets[|urlsets| - 1])
  }

  /** Handling one more urlset appends its entries to those of the urlsets before it. */
  lemma AllUrlEntriesPrefix(urlsets: seq<seq<SitemapNode>>, k: nat)
    requires k < |urlsets|
    ensures AllUrlEntries(urlsets[..k + 1]) == AllUrlEntries(urlsets[..k]) + UrlEntries(urlsets[k])
  {
    assert urlsets[..k + 1][..k] == urlsets[..k];
  }

  /** One urlset that is not the last: handled and counted, and its scrape shut out by the gate. */
  method HandleEarlyUrlset(crawler: Crawler, urlset: seq<SitemapNode>, loc: string, visit: Visitor)
    requires crawler.counterSitemaps + 1 < crawler.numSitemaps
    modifies crawler
    ensures crawler.counterSitemaps == old(crawler.counterSitemaps) + 1
    ensures crawler.numSitemaps == old(crawler.numSitemaps)
    ensures crawler.es == old(crawler.es) + UrlEntries(urlset)
    ensures crawler.visits == old(crawler.visits)
  {
    crawler.UrlsetXmlHandler(urlset);
    crawler.ScrapeHandler(loc, visit);
  }

  /**
   * The urlsets of a sitemap index, handled in turn: each one counted and
   * its entries recorded, and each scrape before the last urlset shut out.
   */
  method HandleUrlsets(crawler: Crawler, index: seq<SitemapNode>, urlsets: seq<seq<SitemapNode>>, visit: Visitor)
    requires crawler.counterSitemaps == 0 && crawler.numSitemaps == |index|
    requires |index| > 0 && |urlsets| == |index|
    modifies crawler
    ensures crawler.counterSitemaps == crawler.numSitemaps == |index|
    ensures crawler.es == old(crawler.es) + AllUrlEntries(urlsets)
    ensures crawler.visits == old(crawler.visits)
  {
    var n := |index|;
    for k := 0 to n - 1
      invariant crawler.counterSitemaps == k && crawler.numSitemaps == n
      invariant crawler.es == old(crawler.es) + AllUrlEntries(urlsets[..k])
      invariant crawler.visits == old(crawler.visits)
    {
      HandleEarlyUrlset(crawler, urlsets[k], index[k].loc, visit);
      AllUrlEntriesPrefix(urlsets, k);
    }
    crawler.UrlsetXmlHandler(urlsets[n - 1]);
    AllUrlEntriesPrefix(urlsets, n - 1);
    assert urlsets[..n] == urlsets;
  }

  /**
   * The part of the sitemap coordination before the gate opens: the index
   * and every urlset are handled, and each scrape in between is shut out.
   */
  method CollectSitemaps(crawler: Crawler, indexUrl: string, index: seq<SitemapNode>,
                         urlsets: seq<seq<SitemapNode>>, visit: Visitor)
    requires crawler.counterSitemaps == 0
    requires |index| > 0 && |urlsets| == |index|
    modifies crawler
    ensures crawler.counterSitemaps == crawler.numSitemaps == |index|
    ensures crawler.es == old(crawler.es) + SitemapEntries(index) + AllUrlEntries(urlsets)
    ensures crawler.visits == old(crawler.visits) + Locs(index)
  {
    crawler.SitemapXmlHandler(index, visit);
    crawler.ScrapeHandler(indexUrl, visit);
    HandleUrlsets(crawler, index, urlsets, visit);
  }

  /**
   * The sitemap coordination, as colly drives it: the sitemap index is
   * handled and scraped, then each of its urlsets is handled and scraped in
   * turn.  The gate stays shut until the last urlset has been counted; only
   * then is every collected entry visited, once, newest lastmod first.
   */
  method ProcessSitemaps(crawler: Crawler, indexUrl: string, index: seq<SitemapNode>,
                         urlsets: seq<seq<SitemapNode>>, visit: Visitor)
    requires crawler.counterSitemaps == 0
    requires |index| > 0 && |urlsets| == |index|
    requires forall k :: 0 <= k < |index| ==> index[k].loc != "/sitemap.xml"
    modifies crawler
    ensures crawler.counterSitemaps == crawler.numSitemaps == |index|
    ensures NewestFirst(crawler.es)
    ensures multiset(crawler.es) == multiset(old(crawler.es) + SitemapEntries(index) + AllUrlEntries(urlsets))
    ensures crawler.visits == old(crawler.visits) + Locs(index) + Keys(crawler.es)
  {
    CollectSitemaps(crawler, indexUrl, index, urlsets, visit);
    assert !crawler.GateClosed(index[|index| - 1].loc);
    crawler.ScrapeHandler(index[|index| - 1].loc, visit);
  }

  /**
   * The client's CheckRedirect with the crawler's redirect handler plugged
   * in (NewClient wired with redirectHandler): the chain is saved first; a
   * failed save ends the redirect with that save's error and the allow
   * check is not made; otherwise a target the collector does not allow is
   * refused with a DisallowedURLError.
   */
  method CheckRedirectWithHandler(crawler: Crawler, c: HttpClient.Collector, req: Url, via: seq<Url>,
                                  saveFails: Url -> bool)
    returns (err: Option<HttpClient.RedirectRefusal<Url>>)
    modifies crawler
    ensures (forall k :: 0 <= k < |via| ==> !saveFails(via[k])) ==>
              && crawler.saved == old(crawler.saved) + RedirectPages(via, req.text)
              && (err.None? <==> HttpClient.IsRequestAllowed(c, req))
              && (err.Some? ==> err.value == HttpClient.Disallowed(HttpClient.DisallowedURLError(req.text)))
    ensures (exists k :: 0 <= k < |via| && saveFails(via[k])) ==>
              err.Some? && err.value.HandlerFailed? && saveFails(err.value.handlerError)
    ensures crawler.visits == old(crawler.visits)
  {
    var handlerErr := crawler.RedirectHandler(req.text, via, saveFails);
    err := HttpClient.CheckRedirect(c, req, handlerErr);
  }

  /** The redirect pages written for a chain: each request's URL, as HTML, pointing at the target. */
  function RedirectPages(via: seq<Url>, target: string): (pages: seq<SavedFile>)
    ensures |pages| == |via|
    ensures forall k :: 0 <= k < |via| ==> pages[k] == SavedFile(via[k], "text/html", MirrorFile.RedirectHTMLBody(target))
  {
    seq(|via|, k requires 0 <= k < |via| => SavedFile(via[k], "text/html", MirrorFile.RedirectHTMLBody(target)))
  }
}
