/**
 * internal/client/client.go: the HTTP client the collector fetches with, and
 * the rule deciding whether a redirect may be followed.  A compiled
 * disallowed-URL filter is a predicate on the URL string (the regular
 * expression engine is not modelled).
 */
module HttpClient {
  import opened Wrappers
  import opened Text
  import opened Urls

  /** A compiled regular expression: whether it matches somewhere in a string. */
  type UrlFilter = string -> bool

  /** The parts of colly's Collector the client reads; urlFilters are there only to show they play no part. */
  datatype Collector = Collector(
    disallowedURLFilters: seq<UrlFilter>,
    urlFilters: seq<UrlFilter>,
    allowedDomains: seq<string>)   // nil and empty behave alike

  // ---------------------------------------------------------------------
  // DisallowedURLError
  // ---------------------------------------------------------------------

  const MessageHead: string := "Not following redirect to "
  const MessageTail: string := " because its not allowed"

  datatype DisallowedURLError = DisallowedURLError(url: string)
  {
    /** Error(): the URL between a fixed head and tail. */
    function Message(): (message: string)
      ensures MessageHead <= message && Contains(message, url)
      ensures |message| == |MessageHead| + |url| + |MessageTail| && message[|message| - |MessageTail|..] == MessageTail
    {
      ContainsInfix(MessageHead, url, MessageTail);
      assert (MessageHead + url + MessageTail)[|MessageHead| + |url|..] == MessageTail;
      MessageHead + url + MessageTail
    }
  }

  /** Reads the URL back out of a DisallowedURLError message. */
  function MessageUrl(message: string): (url: Option<string>)
    ensures url.Some? ==> DisallowedURLError(url.value).Message() == message
  {
    Between(MessageHead, MessageTail, message)
  }

  /** The message names the URL, and the URL can be read back from it. */
  lemma MessageRoundTrip(url: string)
    ensures MessageUrl(DisallowedURLError(url).Message()) == Some(url)
  {
    BetweenFramed(MessageHead, MessageTail, url);
  }

  // ---------------------------------------------------------------------
  // isRequestAllowed
  // ---------------------------------------------------------------------

  /** The first loop: does any disallowed filter match the URL string? */
  function AnyMatches(filters: seq<UrlFilter>, s: string): (r: bool)
    ensures r <==> exists i :: 0 <= i < |filters| && filters[i](s)
    decreases |filters|
  {
    if |filters| == 0 then false
    else if filters[0](s) then true
    else
      var r := AnyMatches(filters[1..], s);
      assert r ==> exists i :: 0 <= i < |filters| && filters[i](s) by {
        if r {
          var i :| 0 <= i < |filters| - 1 && filters[1..][i](s);
          assert filters[i + 1] == filters[1..][i];
        }
      }
      r
  }

  /** The second loop: is the host name one of the allowed domains? */
  function DomainListed(domains: seq<string>, hostname: string): (r: bool)
    ensures r <==> hostname in domains
    decreases |domains|
  {
    if |domains| == 0 then false
    else if domains[0] == hostname then true
    else DomainListed(domains[1..], hostname)
  }

  /** Some disallowed filter matches the URL string. */
  predicate DeniedByFilter(c: Collector, u: Url)
  {
    exists i :: 0 <= i < |c.disallowedURLFilters| && c.disallowedURLFilters[i](u.text)
  }

  /**
   * isRequestAllowed: deny filters first, then the domain allow list.  A
   * matching disallowed filter refuses whatever the list says; otherwise an
   * empty list admits everything and a non-empty one exactly the listed host
   * names.
   */
  function IsRequestAllowed(c: Collector, u: Url): (allowed: bool)
    ensures DeniedByFilter(c, u) ==> !allowed
    ensures !DeniedByFilter(c, u) ==> (allowed <==> |c.allowedDomains| == 0 || u.hostname in c.allowedDomains)
  {
    if AnyMatches(c.disallowedURLFilters, u.text) then false
    else if |c.allowedDomains| == 0 then true
    else DomainListed(c.allowedDomains, u.hostname)
  }

  /** URL allow-filters play no part in the decision. */
  lemma UrlFiltersIgnored(c: Collector, filters: seq<UrlFilter>, u: Url)
    ensures IsRequestAllowed(c.(urlFilters := filters), u) == IsRequestAllowed(c, u)
  {
  }

  /** Only the URL string and the host name are consulted. */
  lemma AllowDependsOnTextAndHost(c: Collector, u: Url, v: Url)
    requires u.text == v.text && u.hostname == v.hostname
    ensures IsRequestAllowed(c, u) == IsRequestAllowed(c, v)
  {
  }

  // ---------------------------------------------------------------------
  // CheckRedirect
  // ---------------------------------------------------------------------

  datatype RedirectRefusal<E> =
    | HandlerFailed(handlerError: E)
    | Disallowed(disallowed: DisallowedURLError)

  /**
   * The CheckRedirect closure, given what the redirect handler returned for
   * this redirect: the handler's error is returned unchanged (and the allow
   * check is not made); otherwise a disallowed target is refused with a
   * DisallowedURLError carrying the target URL string.
   */
  function CheckRedirect<E>(c: Collector, req: Url, handlerResult: Option<E>): (err: Option<RedirectRefusal<E>>)
    ensures handlerResult.Some? ==> err == Some(HandlerFailed(handlerResult.value))
    ensures handlerResult.None? ==> (err.None? <==> IsRequestAllowed(c, req))
    ensures handlerResult.None? && err.Some? ==> err.value == Disallowed(DisallowedURLError(req.text))
  {
    if handlerResult.Some? then Some(HandlerFailed(handlerResult.value))
    else if !IsRequestAllowed(c, req) then Some(Disallowed(DisallowedURLError(req.text)))
    else None
  }
}
