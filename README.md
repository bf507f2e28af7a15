# govuk-mirror: a Dafny model of the crawler's decision procedures

govuk-mirror crawls GOV.UK with colly and writes every response to disk under
a path derived from its URL. Redirects are saved as small HTML pages. The
sitemap tree is walked so that pages are visited newest `lastmod` first. A
second program samples the most-viewed pages from Athena query results,
fetches each page live and from the mirror, and reports drift.

This project models the sequential decisions around those programs. The
network, the file system, colly and the foreign parsers are parameters or
oracles.

| module (file) | what it models |
|---|---|
| `Wrappers` (wrappers.dfy) | `Option` / `Result` |
| `Text` (text.dfy) | the `strings` / `filepath` helpers the core calls |
| `Urls` (urls.dfy) | a parsed `net/url.URL`, reduced to the parts that are read |
| `Sorting` (sorting.dfy) | an in-place array sort, used where Go calls `slices.SortFunc` / `sort.Sort` |
| `Strconv` (strconv.dfy) | `strconv.ParseInt(s, 10, 64)` and `FormatInt` |
| `MirrorFile` (file.dfy) | `GenerateFilePath`, `FindCssUrls`, `RedirectHTMLBody` |
| `TopUrls` (top_urls.dfy) | `NewTopUrls`, `sampleRemainingUrls`, and `rand.Shuffle` on arrays |
| `AthenaTopUrls` (aws_top_urls_client.dfy) | CSV conversion, S3 path split, the polling loop, the `GetTopUrls` pipeline |
| `Crawler` (crawler.dfy) | the colly callbacks, as methods of a `Crawler` object holding the package globals |
| `HttpClient` (client.dfy) | `isRequestAllowed`, `CheckRedirect`, `DisallowedURLError` |
| `Validation` (validation.dfy) | the pre-flight probe order, the asset-domain rule, the probe itself |
| `Upload` (uploader.dfy) | `S3Uploader.UploadFile`, over a file handle and an object store |
| `DriftChecker` (drift_checker.dfy) | `comparePages`, `CheckPagesForDrift`, `DriftSummary` |
| `MirrorComparisonConfig` (mirror_comparison_config.dfy) | `Validate`, `HasSlackCredentials` |

How the model represents the source:

- **Oracles.** Everything the code asks of a library or of the outside world is a function parameter:
  - `url.Parse`;
  - `mime.ExtensionsByType` and `mime.ParseMediaType`;
  - regular-expression filters;
  - colly's `Visit`;
  - `file.Save` failures;
  - the AWS answers;
  - the random draws;
  - SHA-1 and base64;
  - the network hops of a probe;
  - fetcher, comparer and notifier answers.
- **Imperative code.** Code that mutates state is imperative Dafny:
  - the crawler's globals are fields of a `Crawler` class;
  - the uploader works on a `FileHandle` object and an `ObjectStore` object;
  - the sampler sorts and shuffles an `array` in place;
  - loops are `for`/`while` loops with invariants.

  Each such method is proved against a specification function, and the lemmas are about that function.
- **Call logs.** Calls to the outside are recorded in ghost logs, and order properties are stated over those logs:
  - visits and saves in `Crawler`;
  - the AWS requests made by `GetTopUrls`;
  - the probe targets in `Validation`;
  - file and S3 calls in `Upload`;
  - fetches, comparisons and notifications in `DriftChecker`.
- **Notifier signature.** internal/drift_checker/drift_notifier.go:5 declares `Notify` with no result. internal/drift_checker/drift_checker.go:35 uses its error result, and both notifiers return one. The model follows the checker: `Notify` may report an error, which is ignored.

## Model

| member | source | states |
|---|---|---|
| Text.Split | internal/file/file.go:56-57 | `strings.Split`: at least one piece, and no piece holds the separator |
| Text.JoinSplit | internal/file/file.go:57 | splitting and re-joining with the same separator gives the string back |
| Text.SplitJoin | internal/file/file.go:88 | splitting a join of separator-free pieces gives the pieces back |
| Text.NonEmpty | internal/file/file.go:88 | `filepath.Join` drops empty elements: no empty piece is kept and none is added |
| Text.Ext | internal/file/file.go:77 | `filepath.Ext`: the suffix from the last '.' of the last element, or "" |
| Text.LexLessTransitive | internal/crawler/crawler.go:30 | Go's string `<` is transitive, so `entries.Less` is a strict order |
| Text.LexLessTrichotomous | internal/crawler/crawler.go:30 | any two strings are equal or one is `<` the other |
| Text.TrimSpace | internal/config/mirror_comparison_config.go:35-36 | `strings.TrimSpace`: the result is empty exactly when every character is white space, and otherwise neither starts nor ends with white space |
| Text.RemoveAll | internal/crawler/crawler.go:214 | `strings.ReplaceAll(s, pat, "")` only deletes characters (the result is a subsequence of s); s is unchanged without pat and strictly shorter with it |
| Sorting.SelectionSort | internal/top_urls/top_urls.go:44-46 | sorting in place under a total preorder leaves the array sorted and a permutation of its old contents |
| Strconv.ParseInt64 | internal/top_urls/aws_top_urls_client.go:92-96 | a parsed value is a 64-bit integer, written as an optional sign followed by digits only |
| Strconv.ParseFormatInt64 | internal/top_urls/aws_top_urls_client.go:92 | parsing a formatted 64-bit integer gives it back |
| Strconv.ParseRejectsNonDigits | internal/top_urls/aws_top_urls_client.go:92-96 | any character other than a digit (or a leading sign) makes the count unparseable |
| MirrorFile.IndexedSegments | internal/file/file.go:56-62 | the segments before '?' with an empty last segment renamed "index"; earlier segments unchanged |
| MirrorFile.GenerateFilePath | internal/file/file.go:50-91 | fails exactly when the extension lookup fails (with the lookup's error), or when the lookup yields nothing and the last segment has no extension |
| MirrorFile.GeneratedPathComponents | internal/file/file.go:50-91 | the components of the path are the host, the non-empty earlier segments verbatim and in order, then the last segment with the last lookup extension appended exactly when its own extension is not among those returned |
| MirrorFile.HostIsFirstComponent | internal/file/file.go:50-91 | the first path component is the URL's host name |
| MirrorFile.TrailingSlashBecomesIndex | internal/file/file.go:60-62 | an empty path or one ending in '/' is stored under "index" plus any extension |
| MirrorFile.ExtensionAppendedIff | internal/file/file.go:77-85 | the last segment changes iff the lookup gave extensions and its extension is not one of them; then the last one is appended |
| MirrorFile.EmptyContentTypeKeepsSegment | internal/file/file.go:69-85 | with no content type there is no lookup, and a segment with an extension is kept verbatim |
| MirrorFile.QueryAndFragmentIgnored | internal/file/file.go:52-56 | URLs that differ only in query or fragment get the same path |
| MirrorFile.NextMatch | internal/file/file.go:14 | the leftmost match of `url\(["']?(.*?)["']?\)` at or after a position; none starts earlier |
| MirrorFile.FindAllMatches | internal/file/file.go:94 | successive matches are in order and do not overlap |
| MirrorFile.FindCssUrls | internal/file/file.go:93-100 | one string per match, the submatch, in match order (the list is empty when there is no match) |
| MirrorFile.CssReferenceIsBare | internal/file/file.go:14 | a reference holds no ')' or newline; a quote right after "url(" is never part of it, and the closing quote is left out too |
| MirrorFile.NoUrlNoMatches | internal/file/file.go:93-100 | CSS without "url(" yields no references |
| MirrorFile.RedirectHTMLBody | internal/file/file.go:16-29 | the page carries the target in the meta refresh `url=` and as link and link text |
| MirrorFile.RedirectTarget | internal/file/file.go:16-29 | a page read back as a target is exactly the page for that target |
| MirrorFile.RedirectBodyRoundTrip | internal/file/file.go:16-29 | reading back the page for a URL gives that URL |
| MirrorFile.RedirectBodyInjective | internal/file/file.go:16-29 | different targets give different pages |
| TopUrls.Shuffled | internal/top_urls/top_urls.go:65-67 | the shuffle is a permutation of its input |
| TopUrls.ShuffleDownPermutes | internal/top_urls/top_urls.go:65-67 | each Fisher–Yates step only exchanges two elements, so the result is a permutation |
| TopUrls.ShuffledDeterministic | internal/top_urls/top_urls.go:65-67 | the same swap choices give the same shuffle |
| TopUrls.Shuffle | internal/top_urls/top_urls.go:65-67 | shuffling the array suffix in place leaves the prefix alone and turns the suffix into `Shuffled` of its old value |
| TopUrls.MoreViewedIsTotalPreorder | internal/top_urls/top_urls.go:44-46 | the descending view-count comparison is a total preorder |
| TopUrls.SampleRemainingUrls | internal/top_urls/top_urls.go:59-70 | too few elements is an error that leaves the array unchanged; otherwise the remainder is shuffled and its first m elements returned |
| TopUrls.NewTopUrls | internal/top_urls/top_urls.go:21-57 | K > len is the first error and K+M > len the second. Otherwise the result is a top sample: the top K of an ordering by views, and the first M of the remainder as shuffled by the draws. The top is sorted and at or above every sampled element, both together are a sub-multiset of the input, and the caller's array is not touched |
| TopUrls.TopSampleOfSorted | internal/top_urls/top_urls.go:44-55 | sorting a copy, keeping its first K and sampling the shuffled rest is a top sample, with the top sorted and above the sample |
| TopUrls.TopAboveRest | internal/top_urls/top_urls.go:44-54 | in a list sorted by views, a prefix is sorted and at or above everything after it |
| TopUrls.SampleFromRest | internal/top_urls/top_urls.go:48-69 | the sample comes from the rest only: below the top and disjoint from it by position |
| TopUrls.SortedByViewsUnique | internal/top_urls/top_urls.go:44-46 | without ties among view counts, there is only one ordering of the entries by non-increasing views |
| TopUrls.TopSampleDeterministic | internal/top_urls/top_urls.go:21-70 | without ties, the same input, K, M and draws give the same top and the same sample |
| AthenaTopUrls.AthenaQueryFailedError.Message | internal/top_urls/aws_top_urls_client.go:39-45 | the query-failed message names the execution id and the final state |
| AthenaTopUrls.S3PathStringToS3Path | internal/top_urls/aws_top_urls_client.go:184-194 | fails exactly when the URL does not parse, with the parser's error |
| AthenaTopUrls.S3PathRecoversPath | internal/top_urls/aws_top_urls_client.go:190-193 | the bucket is the host, and the path is the key with at most one '/' put back |
| AthenaTopUrls.RowHitCount | internal/top_urls/aws_top_urls_client.go:86-101 | a row converts iff its URL parses and its count is a base-10 int64, and then to exactly those values |
| AthenaTopUrls.CsvRowsToUrlHitCounts | internal/top_urls/aws_top_urls_client.go:82-105 | the result is the conversion of every row after the header, in order |
| AthenaTopUrls.HitCountsAppend | internal/top_urls/aws_top_urls_client.go:85-102 | conversion is row by row: it distributes over concatenation |
| AthenaTopUrls.HitCountsAtMostRows | internal/top_urls/aws_top_urls_client.go:85-102 | rows are only dropped: at most one count per row, one per row when all convert |
| AthenaTopUrls.HitCountsMembership | internal/top_urls/aws_top_urls_client.go:85-102 | a count is in the result iff some row converts to it |
| AthenaTopUrls.FirstEnd | internal/top_urls/aws_top_urls_client.go:152 | the first answer that is an error or a state other than QUEUED/RUNNING |
| AthenaTopUrls.WaitForAthenaQuery | internal/top_urls/aws_top_urls_client.go:146-182 | polls at least once and exactly up to the first ending answer; the outcome is decided by that answer |
| AthenaTopUrls.WaitFailsOnOtherTerminalState | internal/top_urls/aws_top_urls_client.go:166-172 | a terminal state other than SUCCEEDED gives AthenaQueryFailedError with that state and the id |
| AthenaTopUrls.WaitStopsAtPollError | internal/top_urls/aws_top_urls_client.go:157-159 | a poll error after waiting states is the last poll and is returned as it is |
| AthenaTopUrls.GetTopUrls | internal/top_urls/aws_top_urls_client.go:55-80 | start, wait, read, convert, sample, in that order. The first error is returned and no later request is made; a sampling failure carries the sampler's own error (too few URLs, or too few left to sample); on success the result is a top sample of the converted rows |
| HttpClient.DisallowedURLError.Message | internal/client/client.go:17-19 | the message is "Not following redirect to ", the URL, then " because its not allowed" |
| HttpClient.MessageRoundTrip | internal/client/client.go:17-19 | the URL can be read back from the message |
| HttpClient.AnyMatches | internal/client/client.go:50-54 | true iff some disallowed filter matches the URL string |
| HttpClient.DomainListed | internal/client/client.go:59-64 | true iff the host name equals a listed domain |
| HttpClient.IsRequestAllowed | internal/client/client.go:47-65 | a disallowed match refuses whatever the list says. Otherwise an empty list admits everything and a non-empty one exactly the listed host names |
| HttpClient.UrlFiltersIgnored | internal/client/client.go:47-65 | URL allow-filters play no part |
| HttpClient.CheckRedirect | internal/client/client.go:29-41 | a handler error is returned unchanged without the allow check; otherwise nil iff allowed, else DisallowedURLError with the target string |
| Crawler.CountedErrors | internal/crawler/crawler.go:116-136 | the counted visit errors never exceed the links |
| Crawler.UrlEntry | internal/crawler/crawler.go:154-164 | one (lastmod, loc) entry per `<url>`, lastmod defaulting to 2000-01-01T00:00:00Z |
| Crawler.SitemapEntryAsWritten | internal/crawler/crawler.go:148-149 | as written, a `<sitemap>` entry exists iff it has a `<lastmod>` |
| Crawler.SitemapWithoutLastmodFails | internal/crawler/crawler.go:148-149 | a `<sitemap>` with no `<lastmod>` fails in the handler as written |
| Crawler.SitemapEntry | internal/crawler/crawler.go:148-149 | the corrected entry agrees with the as-written one whenever that succeeds, and defaults lastmod like a `<url>` |
| Crawler.NewerOrSameIsTotalPreorder | internal/crawler/crawler.go:21-31 | `sort.Reverse(es)` compares by lastmod string, descending: a total preorder |
| Crawler.ElementLink | internal/crawler/crawler.go:118-124 | href for a/link, src for img/script |
| Crawler.MaskedContentType | internal/crawler/crawler.go:193-215 | only non-CSS OpenXML or "+xml" media types have their header rewritten; a rewrite only deletes characters, and shortens a header that holds "xml" |
| Crawler.Crawler.SitemapXmlHandler | internal/crawler/crawler.go:138-151 | num_sitemaps is overwritten with the child count; each child's loc is visited and an entry appended, in order |
| Crawler.Crawler.UrlsetXmlHandler | internal/crawler/crawler.go:153-167 | one entry per `<url>` in order, and counter_sitemaps up by exactly one |
| Crawler.Crawler.ScrapeHandler | internal/crawler/crawler.go:169-182 | gate closed: nothing visited or reordered. Gate open: es becomes a newest-first permutation of itself and every key is visited in that order |
| Crawler.Crawler.HtmlHandler | internal/crawler/crawler.go:116-136 | a '#' link is not visited; another is visited once, and its error is counted unless it is a forbidden or already-visited error |
| Crawler.Crawler.VisitAll | internal/crawler/crawler.go:196-202 | every link is visited in order, and the non-forbidden errors are counted |
| Crawler.Crawler.ResponseHandler | internal/crawler/crawler.go:184-225 | a Content-Type parse error is counted; CSS references are visited; XML formats are masked in the header handed on; the save uses the original Content-Type; a failed save is counted |
| Crawler.Crawler.ErrorHandler | internal/crawler/crawler.go:231-242 | a disallowed-redirect error is ignored, every other error is counted once |
| Crawler.Crawler.RedirectHandler | internal/crawler/crawler.go:102-114 | each request in the chain is saved as a redirect page to the target; the first failing save is counted and returned, and the chain stops there |
| Crawler.ProcessSitemaps | internal/crawler/crawler.go:138-182 | index, then each urlset: the gate stays shut until the last urlset is counted. Then all entries, a permutation of those collected, are visited once, newest first |
| Crawler.CheckRedirectWithHandler | internal/client/client.go:29-41 | with the crawler's handler plugged in: a failed save ends the redirect with that error. Otherwise the chain is saved and the allow rule decides |
| Crawler.RedirectPages | internal/crawler/crawler.go:104-106 | one text/html redirect page per request of the chain, pointing at the new target |
| Validation.DomainNotAccessibleError.Message | internal/crawler/validation.go:44-46 | the message is "domain not accessible: " followed by the domain |
| Validation.MessageRoundTrip | internal/crawler/validation.go:44-46 | the message is "domain not accessible: <domain>", and the domain can be read back |
| Validation.IsAssetDomain | internal/crawler/validation.go:95-98 | a domain is an asset domain iff it has at least seven characters and those, lower-cased, are "assets." |
| Validation.AssetDomainRule | internal/crawler/validation.go:95-98 | the asset test ignores letter case and depends only on the first seven characters; an asset domain has '.' as its seventh |
| Validation.ChainStopsAtFive | internal/crawler/validation.go:57-63 | no request after the fifth of a redirect chain is made |
| Validation.FiveRedirectsUseLast | internal/crawler/validation.go:57-63 | after five redirects in a row the fifth redirect response is the answer |
| Validation.ProbeHeaders | internal/crawler/validation.go:75-81 | User-Agent is set, then every configured header, which wins over User-Agent |
| Validation.IsDomainAccessibleWithConfig | internal/crawler/validation.go:48-93 | the probe's answer is DomainAccessible: parse and request-building failures are inaccessible, and the chain's final status decides |
| Validation.DomainAccessibleRule | internal/crawler/validation.go:50-92 | an unparsable URL or a transport error is inaccessible; a plain response is accessible iff its status is in [200, 400) |
| Validation.DomainTarget | internal/crawler/validation.go:30 | the probe target is "https://" followed by the domain, which can be read back |
| Validation.ValidateCrawlerConfig | internal/crawler/validation.go:15-37 | an inaccessible site is reported alone; any other reported domain is a listed non-asset domain whose target failed; with no error everything probed answered |
| Validation.CheckDomainsOrder | internal/crawler/validation.go:24-34 | domains are probed as a prefix of the non-asset targets in list order. The run stops at the first inaccessible one and reports that domain; with no error every target was probed and answered |
| Validation.AssetDomainsNeverProbed | internal/crawler/validation.go:26-28 | an asset domain's target is never probed |
| Validation.ValidationOrder | internal/crawler/validation.go:15-37 | a non-empty site is probed first, and its failure reports the full site and nothing else is probed. An empty site is skipped. Then the domains follow; no error means everything probed answered |
| Upload.HeadOf | internal/upload/uploader.go:45-55 | HeadObject answers NotFound exactly when it did not fail and the key is absent |
| Upload.NeedsUpload | internal/upload/uploader.go:70 | absent, or a different length, means upload. Equal length with no stored type means no upload. Equal length with a type means upload iff the types differ |
| Upload.PlanUpload | internal/upload/uploader.go:39-103 | a PUT, when made, is for that file's contents |
| Upload.S3Uploader.UploadFile | internal/upload/uploader.go:39-103 | the calls and the outcome follow PlanUpload; the store receives at most that one PUT, and its objects change only when that PUT succeeds |
| Upload.PutIffNeeded | internal/upload/uploader.go:40-99 | a PUT is made iff the file exists, HEAD answered, open worked, the object needs writing, and hashing and rewinding worked. A missing file or a HEAD error stops before any PUT, and nil is returned exactly on a successful PUT or a skip |
| Upload.ClosedOnEveryExit | internal/upload/uploader.go:57-66 | once opened the file is closed exactly once, as the last call, on every exit including the panic; every PUT comes after the rewind |
| Upload.PutCarriesWholeFile | internal/upload/uploader.go:76-95 | the PUT carries the bucket, key and content type, declares SHA-1, sends the whole file, and its checksum is base64(SHA-1) of that body |
| Upload.SecondUploadIsSkipped | internal/upload/uploader.go:70 | after a successful upload the same call sends nothing |
| Upload.PanicsOnlyOnNilFileInfo | internal/upload/uploader.go:40-70 | the nil `fileInfo` panic happens exactly when Stat failed otherwise, the object exists and the file opened |
| DriftChecker.PageCalls | internal/drift_checker/drift_checker.go:58-72 | live first; the mirror only after a live success; a comparison only when both were fetched |
| DriftChecker.CountsBounded | internal/drift_checker/drift_checker.go:49-88 | drifts ≤ comparisons ≤ pages |
| DriftChecker.ComparisonsCountComparedPages | internal/drift_checker/drift_checker.go:72-73 | comparisons counts exactly the pages whose two copies were fetched, even when comparing fails |
| DriftChecker.DriftsCountDriftedPages | internal/drift_checker/drift_checker.go:74-82 | drifts counts exactly the compared pages found different without error |
| DriftChecker.AllCallsAppend | internal/drift_checker/drift_checker.go:57 | pages are processed one after another in list order, with no notification among them |
| DriftChecker.ComparePages | internal/drift_checker/drift_checker.go:49-88 | the counters and the calls are those of the specification over the pages |
| DriftChecker.CheckPagesForDrift | internal/drift_checker/drift_checker.go:17-42 | the unsampled slice then the sampled one; the result is true iff the summed drifts are positive, and then the summed summary is sent last |
| DriftChecker.NotifyOnlyOnDrift | internal/drift_checker/drift_checker.go:29-41 | the notifier is called exactly once, last, iff something drifted; the summary respects drifts ≤ compared ≤ pages |
| MirrorComparisonConfig.GivenIffNotBlank | internal/config/mirror_comparison_config.go:29-45 | a setting counts as given iff it is not all white space |
| MirrorComparisonConfig.ConfigError.Message | internal/config/mirror_comparison_config.go:29-41 | url.Parse's error is returned as it is; an unpaired token and channel give the fixed pairing message |
| MirrorComparisonConfig.Validate | internal/config/mirror_comparison_config.go:29-41 | an unparsable site is returned first. Otherwise the config is valid iff the token and the channel are both blank or both given |
| MirrorComparisonConfig.HasSlackCredentials | internal/config/mirror_comparison_config.go:43-45 | true iff neither the token nor the channel is all white space |
| MirrorComparisonConfig.ValidatedCredentials | internal/config/mirror_comparison_config.go:35-45 | after a successful Validate, credentials are present iff the token (equally, the channel) is given |
| MirrorComparisonConfig.WhitespaceIsIgnored | internal/config/mirror_comparison_config.go:29-45 | padding the token with white space changes neither decision |

## Left out

- colly itself is not modelled: asynchronous workers, the parallelism limit, `Visit` de-duplication and `Wait`. Each callback is a sequential method, and `Visit`'s answer is a parameter.
- `newCollector`'s request-header hook and the metrics package are not modelled. The crawler-error metric is a counter field.
- `file.Save`'s directory creation and file writes are not modelled; a save is a logged call that may fail.
- Foreign parsers are parameters: `url.Parse`, `mime.ExtensionsByType`, `mime.ParseMediaType`, RE2 URL filters, SHA-1 and base64. `strconv.ParseInt` is written out.
- `filepath.Join` is modelled as joining the non-empty elements with '/'. '.' and '..' are not cleaned.
- MirrorFile.GeneratedPathComponents: assumes the extension lookup returns suffixes without '/', as `mime.ExtensionsByType` does. It also assumes the host name has no '/'.
- Validation.IsAssetDomain: lower-cases ASCII letters only. No other character lower-cases to a letter of "assets.".
- Validation.ProbeHeaders: takes header names as already canonical. `Header.Set` canonicalises them.
- Validation.IsDomainAccessibleWithConfig: the timeout and the follow-up requests of a redirect chain are part of the network oracle, which answers by hop number.
- Go's unstable sorts are modelled by an in-place selection sort. The order of equal keys is left open there too.
- TopUrls.NewTopUrls: K and M are naturals, because a negative count makes the Go slice expressions panic. The copy-length check (top_urls.go:40-42) cannot fail and is not a branch of the model. Neither can the sampling error once the two bounds hold.
- AthenaTopUrls.CsvRowsToUrlHitCounts: requires a header row and two fields per row, because the Go code panics otherwise.
- AthenaTopUrls.WaitForAthenaQuery: the answers are a finite sequence in which polling ends. The 500 ms sleep is not modelled.
- `startAthenaQuery`'s query text and its date parameters depend on the clock and are not modelled. Its outcome is an input.
- Crawler.Crawler.SitemapXmlHandler: uses the corrected `SitemapEntry` of the finding below. A `<sitemap>` without `<lastmod>` gets the default date and the loop goes on, where the code as written panics right after visiting that child's loc.
- Crawler.ProcessSitemaps: inherits that correction, so an index with a `<sitemap>` lacking `<lastmod>` is crawled to the end instead of stopping at the panic.
- Crawler.Crawler.ErrorHandler: whether an error is a DisallowedURLError is a parameter, because Go error identity (value against pointer) is not modelled.
- Upload.S3Uploader.UploadFile: HEAD's ContentLength is taken as present. Error texts are kinds of outcome, not strings.
- DriftChecker.ComparePages: the fetcher and comparer answer as functions of the page URL, so a URL listed twice gets the same answers.
- Logging, `fmt.Println`, the Prometheus metrics, the page comparer, the page fetcher, the Slack and stdout notifiers, configuration parsing and the entry points are not part of this model.

## Findings

| source | as written | input that shows it | evidently intended | confidence | as-written member | corrected member |
|---|---|---|---|---|---|---|
| internal/crawler/crawler.go:148-149 | the sitemap-index handler reads `child.SelectElement("lastmod").InnerText()` without a nil check | a sitemap index whose `<sitemap>` has a `<loc>` but no `<lastmod>`, which sitemaps.org schema 0.9 allows | default the lastmod as the urlset handler does at lines 156-158 | not executed | Crawler.SitemapEntryAsWritten, Crawler.SitemapWithoutLastmodFails | Crawler.SitemapEntry |
