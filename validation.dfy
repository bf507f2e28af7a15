/**
 * internal/crawler/validation.go: the pre-flight check run before a crawl.
 * The site and every allowed domain that is not an asset domain are probed
 * with a GET; the first one that does not answer with a 2xx or 3xx status
 * (section 15 of RFC 9110) is reported.
 *
 * The network is an oracle: for a request and the position of a hop in the
 * redirect chain it started, it says what came back.  The timeout is part of
 * the oracle (a timed-out hop is a transport error).
 */
module Validation {
  import opened Wrappers
  import opened Text
  import opened Urls

  /** The parts of config.Config the pre-flight check reads. */
  datatype CrawlerConfig = CrawlerConfig(
    site: string,
    allowedDomains: seq<string>,
    userAgent: string,
    headers: map<string, string>)

  // ---------------------------------------------------------------------
  // DomainNotAccessibleError
  // ---------------------------------------------------------------------

  const MessageHead: string := "domain not accessible: "

  datatype DomainNotAccessibleError = DomainNotAccessibleError(domain: string)
  {
    /** Error(): the fixed head followed by the domain. */
    function Message(): (message: string)
      ensures |message| == |MessageHead| + |domain|
      ensures message[..|MessageHead|] == MessageHead && message[|MessageHead|..] == domain
    {
      MessageHead + domain
    }
  }

  /** Reads the domain back out of a DomainNotAccessibleError message. */
  function MessageDomain(message: string): (domain: Option<string>)
    ensures domain.Some? ==> DomainNotAccessibleError(domain.value).Message() == message
  {
    var m := Between(MessageHead, "", message);
    if m.Some? then
      assert MessageHead + m.value + "" == MessageHead + m.value;
      m
    else None
  }

  /** The message names the domain, and the domain can be read back from it. */
  lemma MessageRoundTrip(domain: string)
    ensures MessageDomain(DomainNotAccessibleError(domain).Message()) == Some(domain)
    ensures Contains(DomainNotAccessibleError(domain).Message(), domain)
  {
    assert MessageHead + domain + "" == MessageHead + domain;
    BetweenFramed(MessageHead, "", domain);
    ContainsInfix(MessageHead, domain, "");
  }

  // ---------------------------------------------------------------------
  // isAssetDomain
  // ---------------------------------------------------------------------

  const AssetPrefix: string := "assets."

  /**
   * isAssetDomain: the lower-cased name starts with "assets.".  Lower-casing
   * is ASCII only; no other character lower-cases into one of "assets.".
   */
  function IsAssetDomain(domain: string): (isAsset: bool)
    ensures isAsset <==> |domain| >= |AssetPrefix| && ToLowerAscii(domain[..|AssetPrefix|]) == AssetPrefix
  {
    var lower := ToLowerAscii(domain);
    assert |domain| >= |AssetPrefix| ==> ToLowerAscii(domain[..|AssetPrefix|]) == lower[..|AssetPrefix|];
    AssetPrefix <= lower
  }

  /** The test ignores letter case and looks at the first seven characters only. */
  lemma AssetDomainRule(domain: string, rest: string)
    ensures IsAssetDomain(ToLowerAscii(domain)) == IsAssetDomain(domain)
    ensures |domain| >= |AssetPrefix| ==> IsAssetDomain(domain + rest) == IsAssetDomain(domain)
    ensures IsAssetDomain(domain) ==> |domain| >= |AssetPrefix| && domain[6] == '.'
  {
    var lower := ToLowerAscii(domain);
    assert ToLowerAscii(lower) == lower;
    if |domain| >= |AssetPrefix| {
      var longer := ToLowerAscii(domain + rest);
      assert longer[..|AssetPrefix|] == lower[..|AssetPrefix|];
    }
    if IsAssetDomain(domain) {
      assert lower[6] == '.';
    }
  }

  // ---------------------------------------------------------------------
  // isDomainAccessibleWithConfig
  // ---------------------------------------------------------------------

  type UrlParser = string -> Result<Url, string>

  /** What one request of a chain got back. */
  datatype HopOutcome =
    | TransportError                   // no response: DNS, TLS, timeout, ...
    | Final(status: int)               // a response net/http does not redirect on
    | Redirect(status: int)            // a 3xx whose Location net/http would follow

  /** The GET the probe sends: its URL and its header fields. */
  datatype ProbeRequest = ProbeRequest(url: string, headers: map<string, string>)

  /** The n-th request (from 0) of the chain the probe request starts. */
  type Network = (ProbeRequest, nat) -> HopOutcome

  /** The redirect policy stops once the chain holds this many requests. */
  const ChainLimit: nat := 5

  /** The CheckRedirect closure: use the last response once `via` holds five requests. */
  predicate UseLastResponse(viaLength: nat)
  {
    viaLength >= ChainLimit
  }

  /**
   * client.Do under that policy, from the `sent`-th request on: a
   * transport error gives no status; a redirect is followed unless the
   * requests made so far (the `via` list) number five, in which case that
   * redirect response is the answer.
   */
  function FollowChain(net: Network, req: ProbeRequest, sent: nat): (status: Option<int>)
    requires sent < ChainLimit
    decreases ChainLimit - sent
  {
    match net(req, sent)
    case TransportError => None
    case Final(s) => Some(s)
    case Redirect(s) =>
      if UseLastResponse(sent + 1) then Some(s) else FollowChain(net, req, sent + 1)
  }

  /** No request after the fifth is ever made: only hops 0..4 matter. */
  lemma {:induction false} ChainStopsAtFive(net1: Network, net2: Network, req: ProbeRequest, sent: nat)
    requires sent < ChainLimit
    requires forall n: nat :: n < ChainLimit ==> net1(req, n) == net2(req, n)
    ensures FollowChain(net1, req, sent) == FollowChain(net2, req, sent)
    decreases ChainLimit - sent
  {
    if sent + 1 < ChainLimit {
      ChainStopsAtFive(net1, net2, req, sent + 1);
    }
  }

  /** Five redirects in a row: the fifth redirect response is the answer. */
  lemma {:induction false} FiveRedirectsUseLast(net: Network, req: ProbeRequest, sent: nat)
    requires sent < ChainLimit
    requires forall n: nat :: n < ChainLimit ==> net(req, n).Redirect?
    ensures FollowChain(net, req, sent) == Some(net(req, ChainLimit - 1).status)
    decreases ChainLimit - sent
  {
    if sent + 1 < ChainLimit {
      FiveRedirectsUseLast(net, req, sent + 1);
    }
  }

  /** The status classes the probe accepts: 2xx and 3xx. */
  predicate AccessibleStatus(status: int)
  {
    200 <= status < 400
  }

  /**
   * The header fields the request carries: User-Agent first, then every
   * configured header, which overrides User-Agent when it names it too.
   * Header names are taken as already canonical.
   */
  method ProbeHeaders(userAgent: string, configured: map<string, string>) returns (h: map<string, string>)
    ensures h.Keys == configured.Keys + {"User-Agent"}
    ensures forall k :: k in configured ==> h[k] == configured[k]
    ensures "User-Agent" !in configured ==> h["User-Agent"] == userAgent
  {
    h := map["User-Agent" := userAgent];
    var left := configured.Keys;
    var done: set<string> := {};
    while left != {}
      invariant left + done == configured.Keys && left !! done
      invariant h.Keys == done + {"User-Agent"}
      invariant forall k :: k in done ==> h[k] == configured[k]
      invariant "User-Agent" !in done ==> h["User-Agent"] == userAgent
      decreases left
    {
      var key :| key in left;
      h := h[key := configured[key]];
      left := left - {key};
      done := done + {key};
    }
  }

  /** The header fields ProbeHeaders builds, as a value. */
  function HeadersFor(cfg: CrawlerConfig): map<string, string>
  {
    map["User-Agent" := cfg.userAgent] + cfg.headers
  }

  /**
   * isDomainAccessibleWithConfig as a value: the URL must parse, the
   * request must be built (NewRequestWithContext parses the URL's string
   * form again), and the chain must end in a 2xx or 3xx status.
   */
  function DomainAccessible(testUrl: string, cfg: CrawlerConfig, parseUrl: UrlParser, net: Network): bool
  {
    match parseUrl(testUrl)
    case Failure(_) => false
    case Success(u) =>
      match parseUrl(u.text)
      case Failure(_) => false
      case Success(target) =>
        var status := FollowChain(net, ProbeRequest(target.text, HeadersFor(cfg)), 0);
        status.Some? && AccessibleStatus(status.value)
  }

  /** isDomainAccessibleWithConfig, step by step. */
  method IsDomainAccessibleWithConfig(testUrl: string, cfg: CrawlerConfig, parseUrl: UrlParser, net: Network)
    returns (accessible: bool)
    ensures accessible == DomainAccessible(testUrl, cfg, parseUrl, net)
  {
    var parsed := parseUrl(testUrl);
    if parsed.Failure? {
      return false;
    }
    var built := parseUrl(parsed.value.text);
    if built.Failure? {
      return false;
    }
    var headers := ProbeHeaders(cfg.userAgent, cfg.headers);
    assert headers == HeadersFor(cfg);
    var status := FollowChain(net, ProbeRequest(built.value.text, headers), 0);
    if status.None? {
      return false;
    }
    accessible := AccessibleStatus(status.value);
  }

  /**
   * The probe outcome in full: a URL that does not parse is inaccessible;
   * otherwise a first hop that fails is inaccessible, and a first hop that
   * answers without redirecting decides by its status class.
   */
  lemma DomainAccessibleRule(testUrl: string, cfg: CrawlerConfig, parseUrl: UrlParser, net: Network)
    ensures parseUrl(testUrl).Failure? ==> !DomainAccessible(testUrl, cfg, parseUrl, net)
    ensures DomainAccessible(testUrl, cfg, parseUrl, net) ==>
              parseUrl(testUrl).Success? && parseUrl(parseUrl(testUrl).value.text).Success?
    ensures parseUrl(testUrl).Success? && parseUrl(parseUrl(testUrl).value.text).Success? ==>
              var req := ProbeRequest(parseUrl(parseUrl(testUrl).value.text).value.text, HeadersFor(cfg));
              (net(req, 0).TransportError? ==> !DomainAccessible(testUrl, cfg, parseUrl, net)) &&
              (net(req, 0).Final? ==> (DomainAccessible(testUrl, cfg, parseUrl, net) <==> AccessibleStatus(net(req, 0).status)))
  {
  }

  // ---------------------------------------------------------------------
  // ValidateCrawlerConfig
  // ---------------------------------------------------------------------

  /** What a validation run did: the targets it probed, in order, and its error. */
  datatype ValidationRun = ValidationRun(probed: seq<string>, err: Option<DomainNotAccessibleError>)

  const Https: string := "https://"

  /** The probe target for an allowed domain. */
  function DomainTarget(domain: string): (target: string)
    ensures |target| == |Https| + |domain| && target[|Https|..] == domain
    ensures target[..|Https|] == "https://"
  {
    Https + domain
  }

  /** Every target the domain loop would probe if all answered: the non-asset domains, in order. */
  function ProbeTargets(domains: seq<string>): (targets: seq<string>)
    ensures |targets| <= |domains|
    decreases |domains|
  {
    if |domains| == 0 then []
    else if IsAssetDomain(domains[0]) then ProbeTargets(domains[1..])
    else [DomainTarget(domains[0])] + ProbeTargets(domains[1..])
  }

  /** The domain loop, given whether each target is accessible. */
  function CheckDomains(domains: seq<string>, accessible: string -> bool): (run: ValidationRun)
    decreases |domains|
  {
    if |domains| == 0 then ValidationRun([], None)
    else if IsAssetDomain(domains[0]) then CheckDomains(domains[1..], accessible)
    else
      var target := DomainTarget(domains[0]);
      if !accessible(target) then ValidationRun([target], Some(DomainNotAccessibleError(domains[0])))
      else
        var rest := CheckDomains(domains[1..], accessible);
        ValidationRun([target] + rest.probed, rest.err)
  }

  /**
   * ValidateCrawlerConfig, given the probe as `accessible` (in the program,
   * DomainAccessible for the same configuration): the site first when it is
   * set, then the allowed domains.
   */
  function ValidateCrawlerConfig(cfg: CrawlerConfig, accessible: string -> bool): (run: ValidationRun)
    ensures cfg.site != "" && !accessible(cfg.site) ==>
              run == ValidationRun([cfg.site], Some(DomainNotAccessibleError(cfg.site)))
    ensures run.err.Some? && run.err.value.domain != cfg.site ==>
              run.err.value.domain in cfg.allowedDomains && !IsAssetDomain(run.err.value.domain)
              && !accessible(DomainTarget(run.err.value.domain))
    ensures run.err.None? ==> forall i :: 0 <= i < |run.probed| ==> accessible(run.probed[i])
  {
    CheckDomainsOrder(cfg.allowedDomains, accessible);
    if cfg.site != "" && !accessible(cfg.site) then
      ValidationRun([cfg.site], Some(DomainNotAccessibleError(cfg.site)))
    else
      var domains := CheckDomains(cfg.allowedDomains, accessible);
      ValidationRun((if cfg.site != "" then [cfg.site] else []) + domains.probed, domains.err)
  }

  /** A probe run stopped at a failure: the last target failed and every earlier one answered. */
  ghost predicate StoppedAtFirstFailure(probed: seq<string>, accessible: string -> bool)
  {
    |probed| > 0 && !accessible(probed[|probed| - 1]) &&
    forall i :: 0 <= i < |probed| - 1 ==> accessible(probed[i])
  }

  /**
   * The domain loop probes the non-asset targets in list order and stops at
   * the first inaccessible one, whose domain it reports; with no error,
   * every target was probed and answered.
   */
  lemma {:induction false} CheckDomainsOrder(domains: seq<string>, accessible: string -> bool)
    ensures var run := CheckDomains(domains, accessible);
            |run.probed| <= |ProbeTargets(domains)| &&
            run.probed == ProbeTargets(domains)[..|run.probed|]
    ensures var run := CheckDomains(domains, accessible);
            run.err.None? ==>
              run.probed == ProbeTargets(domains) && forall t :: t in run.probed ==> accessible(t)
    ensures var run := CheckDomains(domains, accessible);
            run.err.Some? ==>
              StoppedAtFirstFailure(run.probed, accessible) &&
              run.probed[|run.probed| - 1] == DomainTarget(run.err.value.domain) &&
              run.err.value.domain in domains && !IsAssetDomain(run.err.value.domain)
    decreases |domains|
  {
    if |domains| > 0 {
      CheckDomainsOrder(domains[1..], accessible);
      var rest := CheckDomains(domains[1..], accessible);
      var run := CheckDomains(domains, accessible);
      if !IsAssetDomain(domains[0]) && accessible(DomainTarget(domains[0])) {
        var t := ProbeTargets(domains);
        assert t == [DomainTarget(domains[0])] + ProbeTargets(domains[1..]);
        assert run.probed == [t[0]] + rest.probed;
        assert run.probed == t[..|run.probed|];
        if rest.err.Some? {
          assert rest.err.value.domain in domains[1..];
        }
      }
    }
  }

  /** An asset domain is never a probe target. */
  lemma {:induction false} AssetDomainsNeverProbed(domains: seq<string>, d: string)
    requires IsAssetDomain(d)
    ensures DomainTarget(d) !in ProbeTargets(domains)
    decreases |domains|
  {
    if |domains| > 0 {
      AssetDomainsNeverProbed(domains[1..], d);
    }
  }

  /**
   * The whole run: the site (when set) and then the domain targets, probed
   * as a prefix of that list; a failing site is reported by its full string
   * and nothing after it is probed; no error means every target answered.
   */
  lemma ValidationOrder(cfg: CrawlerConfig, accessible: string -> bool)
    ensures var run := ValidateCrawlerConfig(cfg, accessible);
            var targets := (if cfg.site != "" then [cfg.site] else []) + ProbeTargets(cfg.allowedDomains);
            |run.probed| <= |targets| && run.probed == targets[..|run.probed|]
    ensures cfg.site == "" ==> ValidateCrawlerConfig(cfg, accessible) == CheckDomains(cfg.allowedDomains, accessible)
    ensures cfg.site != "" ==>
              var run := ValidateCrawlerConfig(cfg, accessible);
              |run.probed| > 0 && run.probed[0] == cfg.site &&
              (!accessible(cfg.site) <==> run == ValidationRun([cfg.site], Some(DomainNotAccessibleError(cfg.site))))
    ensures var run := ValidateCrawlerConfig(cfg, accessible);
            run.err.None? ==> forall t :: t in run.probed ==> accessible(t)
    ensures var run := ValidateCrawlerConfig(cfg, accessible);
            run.err.Some? ==> StoppedAtFirstFailure(run.probed, accessible)
  {
    CheckDomainsOrder(cfg.allowedDomains, accessible);
    var d := CheckDomains(cfg.allowedDomains, accessible);
    var run := ValidateCrawlerConfig(cfg, accessible);
    if cfg.site != "" && accessible(cfg.site) {
      assert run.probed == [cfg.site] + d.probed;
      if d.err.Some? {
        assert run.probed[1..] == d.probed;
      }
    }
  }
}
