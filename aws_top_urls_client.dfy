/**
 * internal/top_urls/aws_top_urls_client.go: fetching yesterday's most viewed
 * pages from Athena.  The AWS calls are replaced by what they return: the
 * result of starting the query, the successive GetQueryExecution answers,
 * and the CSV rows read from S3.  url.Parse is a parameter.
 */
module AthenaTopUrls {
  import opened Wrappers
  import opened Text
  import opened Urls
  import opened Strconv
  import opened TopUrls

  /** url.Parse: the parsed URL or the parser's error text. */
  type UrlParser = string -> Result<Url, string>

  datatype QueryExecutionState = Queued | Running | Succeeded | Failed | Cancelled

  function StateName(state: QueryExecutionState): string
  {
    match state
    case Queued => "QUEUED"
    case Running => "RUNNING"
    case Succeeded => "SUCCEEDED"
    case Failed => "FAILED"
    case Cancelled => "CANCELLED"
  }

  datatype AthenaQueryFailedError = AthenaQueryFailedError(queryState: QueryExecutionState, queryExecutionId: string)
  {
    /** Error(): the execution id and the final state, in a fixed sentence that names both. */
    function Message(): (message: string)
      ensures Contains(message, queryExecutionId)
      ensures Contains(message, StateName(queryState))
    {
      var before := "The athena query with Query Execution ID ";
      var middle := ", to generate top results did not succeeed. Query ended in ";
      var after := " state";
      var message := before + queryExecutionId + middle + StateName(queryState) + after;
      assert message == before + queryExecutionId + (middle + StateName(queryState) + after);
      ContainsInfix(before, queryExecutionId, middle + StateName(queryState) + after);
      assert message == (before + queryExecutionId + middle) + StateName(queryState) + after;
      ContainsInfix(before + queryExecutionId + middle, StateName(queryState), after);
      message
    }
  }

  /** The error GetTopUrls hands back, by the stage that produced it; other errors are passed on unchanged. */
  datatype TopUrlsClientError =
    | StartQueryFailed(reason: string)
    | GetQueryExecutionFailed(reason: string)
    | QueryDidNotSucceed(failure: AthenaQueryFailedError)
    | OutputLocationUnparsable(reason: string)
    | GetObjectFailed(reason: string)
    | SamplingFailed(sampling: TopUrlsError)

  // ---------------------------------------------------------------------
  // s3PathStringToS3Path
  // ---------------------------------------------------------------------

  datatype ResultsS3Path = ResultsS3Path(bucket: string, key: string)

  /** strings.TrimPrefix(s, prefix). */
  function TrimPrefix(s: string, prefix: string): (r: string)
  {
    if prefix <= s then s[|prefix|..] else s
  }

  /** The bucket is the URL's host, the key its path without one leading '/'. */
  function S3PathStringToS3Path(s3PathString: string, parseUrl: UrlParser): (r: Result<ResultsS3Path, string>)
    ensures parseUrl(s3PathString).Failure? <==> r.Failure?
    ensures r.Failure? ==> r.error == parseUrl(s3PathString).error
  {
    var parsed :- parseUrl(s3PathString);
    Success(ResultsS3Path(parsed.host, TrimPrefix(parsed.path, "/")))
  }

  /** The split loses nothing: the path is the key with at most one '/' put back in front. */
  lemma S3PathRecoversPath(s3PathString: string, parseUrl: UrlParser)
    requires parseUrl(s3PathString).Success?
    ensures var u := parseUrl(s3PathString).value;
            var p := S3PathStringToS3Path(s3PathString, parseUrl).value;
            && p.bucket == u.host
            && (if |u.path| > 0 && u.path[0] == '/' then "/" + p.key == u.path else p.key == u.path)
  {
    var u := parseUrl(s3PathString).value;
    if |u.path| > 0 && u.path[0] == '/' {
      assert "/" <= u.path;
      assert u.path == "/" + u.path[1..];
    }
  }

  // ---------------------------------------------------------------------
  // csvRowsToUrlHitCounts
  // ---------------------------------------------------------------------

  /**
   * The rows the conversion can index without a run-time panic: a header
   * (`csvRows[1:]`), then rows with a first field and, where that field
   * parses as a URL, a second one.
   */
  predicate IndexableRows(csvRows: seq<seq<string>>, parseUrl: UrlParser)
  {
    && |csvRows| >= 1
    && forall i :: 1 <= i < |csvRows| ==> IndexableRow(csvRows[i], parseUrl)
  }

  predicate IndexableRow(row: seq<string>, parseUrl: UrlParser)
  {
    |row| >= 1 && (parseUrl(row[0]).Success? ==> |row| >= 2)
  }

  /** One row read as a hit count, or nothing when its URL or its count does not parse. */
  function RowHitCount(row: seq<string>, parseUrl: UrlParser): (r: Option<UrlHitCount>)
    requires IndexableRow(row, parseUrl)
    ensures r.Some? <==> parseUrl(row[0]).Success? && ParseInt64(row[1]).Some?
    ensures r.Some? ==> r.value.viewedUrl == parseUrl(row[0]).value && r.value.viewCount as int == ParseInt64(row[1]).value
  {
    match parseUrl(row[0])
    case Failure(_) => None
    case Success(u) =>
      match ParseInt64(row[1])
      case None => None
      case Some(c) => Some(UrlHitCount(u, c as Int64))
  }

  /** The rows that convert, converted, in their original order. */
  function HitCounts(rows: seq<seq<string>>, parseUrl: UrlParser): (counts: seq<UrlHitCount>)
    requires forall i :: 0 <= i < |rows| ==> IndexableRow(rows[i], parseUrl)
    decreases |rows|
  {
    if |rows| == 0 then []
    else
      var rest := HitCounts(rows[1..], parseUrl);
      match RowHitCount(rows[0], parseUrl)
      case None => rest
      case Some(c) => [c] + rest
  }

  /** csvRowsToUrlHitCounts: every row after the header, converted where it can be. */
  method CsvRowsToUrlHitCounts(csvRows: seq<seq<string>>, parseUrl: UrlParser) returns (urlHitCounts: seq<UrlHitCount>)
    requires IndexableRows(csvRows, parseUrl)
    ensures urlHitCounts == HitCounts(csvRows[1..], parseUrl)
  {
    var rows := csvRows[1..];
    urlHitCounts := [];
    for i := 0 to |rows|
      invariant urlHitCounts == HitCounts(rows[..i], parseUrl)
    {
      var row := rows[i];
      HitCountsAppend(rows[..i], [row], parseUrl);
      assert rows[..i + 1] == rows[..i] + [row];
      var u := parseUrl(row[0]);
      if u.Failure? {
        continue;
      }
      var c := ParseInt64(row[1]);
      if c.None? {
        continue;
      }
      urlHitCounts := urlHitCounts + [UrlHitCount(u.value, c.value as Int64)];
    }
    assert rows[..|rows|] == rows;
  }

  /** Conversion works row by row: converting two runs of rows is converting their concatenation. */
  lemma {:induction false} HitCountsAppend(a: seq<seq<string>>, b: seq<seq<string>>, parseUrl: UrlParser)
    requires forall i :: 0 <= i < |a| ==> IndexableRow(a[i], parseUrl)
    requires forall i :: 0 <= i < |b| ==> IndexableRow(b[i], parseUrl)
    ensures HitCounts(a + b, parseUrl) == HitCounts(a, parseUrl) + HitCounts(b, parseUrl)
    decreases |a|
  {
    if |a| == 0 {
      assert a + b == b;
    } else {
      assert (a + b)[1..] == a[1..] + b;
      HitCountsAppend(a[1..], b, parseUrl);
    }
  }

  /** Rows are only ever dropped: at most one hit count per row. */
  lemma {:induction false} HitCountsAtMostRows(rows: seq<seq<string>>, parseUrl: UrlParser)
    requires forall i :: 0 <= i < |rows| ==> IndexableRow(rows[i], parseUrl)
    ensures |HitCounts(rows, parseUrl)| <= |rows|
    ensures (forall i :: 0 <= i < |rows| ==> RowHitCount(rows[i], parseUrl).Some?) ==>
              |HitCounts(rows, parseUrl)| == |rows|
    decreases |rows|
  {
    if |rows| > 0 {
      HitCountsAtMostRows(rows[1..], parseUrl);
      if forall i :: 0 <= i < |rows| ==> RowHitCount(rows[i], parseUrl).Some? {
        assert RowHitCount(rows[0], parseUrl).Some?;
        assert forall i :: 0 <= i < |rows| - 1 ==> rows[1..][i] == rows[i + 1];
      }
    }
  }

  /** A hit count is in the result exactly when some row converts to it. */
  lemma {:induction false} HitCountsMembership(rows: seq<seq<string>>, parseUrl: UrlParser, c: UrlHitCount)
    requires forall i :: 0 <= i < |rows| ==> IndexableRow(rows[i], parseUrl)
    ensures c in HitCounts(rows, parseUrl) <==> exists i :: 0 <= i < |rows| && RowHitCount(rows[i], parseUrl) == Some(c)
    decreases |rows|
  {
    if |rows| > 0 {
      HitCountsMembership(rows[1..], parseUrl, c);
      if exists i :: 0 <= i < |rows| && RowHitCount(rows[i], parseUrl) == Some(c) {
        var i :| 0 <= i < |rows| && RowHitCount(rows[i], parseUrl) == Some(c);
        if i > 0 {
          assert rows[1..][i - 1] == rows[i];
        }
      }
      if c in HitCounts(rows[1..], parseUrl) {
        var i :| 0 <= i < |rows| - 1 && RowHitCount(rows[1..][i], parseUrl) == Some(c);
        assert rows[i + 1] == rows[1..][i];
      }
    }
  }

  // ---------------------------------------------------------------------
  // waitForAthenaQuery
  // ---------------------------------------------------------------------

  /** One GetQueryExecution answer: an error, or the state and the output location reported. */
  datatype PollResponse =
    | PollError(reason: string)
    | Polled(state: QueryExecutionState, outputLocation: string)

  predicate StillWaiting(state: QueryExecutionState)
  {
    state == Queued || state == Running
  }

  /** The answer after which the loop polls no more. */
  predicate EndsPolling(response: PollResponse)
  {
    response.PollError? || !StillWaiting(response.state)
  }

  predicate PollingEnds(responses: seq<PollResponse>)
  {
    exists k :: 0 <= k < |responses| && EndsPolling(responses[k])
  }

  /** The position of the first answer that ends the polling. */
  function FirstEnd(responses: seq<PollResponse>): (i: nat)
    requires PollingEnds(responses)
    ensures i < |responses| && EndsPolling(responses[i])
    ensures forall k :: 0 <= k < i ==> !EndsPolling(responses[k])
    decreases |responses|
  {
    if EndsPolling(responses[0]) then 0
    else
      assert PollingEnds(responses[1..]) by {
        var k :| 0 <= k < |responses| && EndsPolling(responses[k]);
        assert responses[1..][k - 1] == responses[k];
      }
      FirstEnd(responses[1..]) + 1
  }

  /** What waitForAthenaQuery returns once the polling has ended on `last`. */
  function WaitOutcome(queryExecutionId: string, last: PollResponse, parseUrl: UrlParser): Result<ResultsS3Path, TopUrlsClientError>
  {
    match last
    case PollError(reason) => Failure(GetQueryExecutionFailed(reason))
    case Polled(state, location) =>
      if state != Succeeded then Failure(QueryDidNotSucceed(AthenaQueryFailedError(state, queryExecutionId)))
      else
        match S3PathStringToS3Path(location, parseUrl)
        case Failure(reason) => Failure(OutputLocationUnparsable(reason))
        case Success(path) => Success(path)
  }

  /**
   * waitForAthenaQuery over the successive answers `responses`: polls starts
   * at QUEUED, so at least once, continue while the state is QUEUED or
   * RUNNING, and stop at the first error or other state.
   */
  method WaitForAthenaQuery(queryExecutionId: string, responses: seq<PollResponse>, parseUrl: UrlParser)
    returns (r: Result<ResultsS3Path, TopUrlsClientError>, polls: nat)
    requires PollingEnds(responses)
    ensures polls == FirstEnd(responses) + 1
    ensures r == WaitOutcome(queryExecutionId, responses[polls - 1], parseUrl)
  {
    var queryExecutionState := Queued;
    var outputLocation := "";
    polls := 0;
    while StillWaiting(queryExecutionState)
      invariant polls <= FirstEnd(responses) + 1
      invariant StillWaiting(queryExecutionState) ==> polls <= FirstEnd(responses)
      invariant !StillWaiting(queryExecutionState) ==>
                  polls == FirstEnd(responses) + 1 && responses[polls - 1] == Polled(queryExecutionState, outputLocation)
      decreases FirstEnd(responses) + 1 - polls
    {
      var response := responses[polls];
      polls := polls + 1;
      if response.PollError? {
        return Failure(GetQueryExecutionFailed(response.reason)), polls;
      }
      queryExecutionState := response.state;
      outputLocation := response.outputLocation;
    }

    if queryExecutionState != Succeeded {
      return Failure(QueryDidNotSucceed(AthenaQueryFailedError(queryExecutionState, queryExecutionId))), polls;
    }
    var s3Path := S3PathStringToS3Path(outputLocation, parseUrl);
    if s3Path.Failure? {
      return Failure(OutputLocationUnparsable(s3Path.error)), polls;
    }
    r := Success(s3Path.value);
  }

  /** A query that reaches neither SUCCEEDED nor an error ends in AthenaQueryFailedError naming its state and id. */
  lemma WaitFailsOnOtherTerminalState(queryExecutionId: string, responses: seq<PollResponse>, parseUrl: UrlParser)
    requires PollingEnds(responses)
    requires responses[FirstEnd(responses)].Polled? && responses[FirstEnd(responses)].state != Succeeded
    ensures var state := responses[FirstEnd(responses)].state;
            && (state == Failed || state == Cancelled)
            && WaitOutcome(queryExecutionId, responses[FirstEnd(responses)], parseUrl)
               == Failure(QueryDidNotSucceed(AthenaQueryFailedError(state, queryExecutionId)))
  {
  }

  /** An error from GetQueryExecution is returned as is, and it is the last poll. */
  lemma WaitStopsAtPollError(queryExecutionId: string, responses: seq<PollResponse>, parseUrl: UrlParser, k: nat)
    requires k < |responses| && responses[k].PollError?
    requires forall i :: 0 <= i < k ==> responses[i].Polled? && StillWaiting(responses[i].state)
    ensures PollingEnds(responses) && FirstEnd(responses) == k
    ensures WaitOutcome(queryExecutionId, responses[k], parseUrl) == Failure(GetQueryExecutionFailed(responses[k].reason))
  {
    assert EndsPolling(responses[k]);
  }

  // ---------------------------------------------------------------------
  // GetTopUrls
  // ---------------------------------------------------------------------

  /** The AWS requests GetTopUrls makes, in order. */
  datatype AwsCall = StartQueryExecution | GetQueryExecution | GetObject(bucket: string, key: string)

  function Polls(n: nat): (calls: seq<AwsCall>)
    ensures |calls| == n && forall k :: 0 <= k < n ==> calls[k] == GetQueryExecution
  {
    seq(n, _ => GetQueryExecution)
  }

  /** The environment GetTopUrls runs in: what each AWS request answers. */
  datatype Athena = Athena(
    startQuery: Result<string, string>,                // StartQueryExecution: the execution id
    pollResponses: seq<PollResponse>,                  // successive GetQueryExecution answers
    getObject: Result<seq<seq<string>>, string>)       // the CSV rows of the result object

  /** The answers let the pipeline run without a panic: polling ends, and the CSV can be indexed. */
  predicate Answerable(athena: Athena, parseUrl: UrlParser)
  {
    && PollingEnds(athena.pollResponses)
    && (athena.getObject.Success? ==> IndexableRows(athena.getObject.value, parseUrl))
  }

  /**
   * GetTopUrls: start, wait, read, convert, sample.  The first error is
   * returned and no later request is made.
   */
  method GetTopUrls(athena: Athena, parseUrl: UrlParser, compareTopUnsampledCount: nat,
                    compareRemainingSampledCount: nat, choices: SwapChoices)
    returns (r: Result<TopUrls, TopUrlsClientError>, calls: seq<AwsCall>)
    requires Answerable(athena, parseUrl)
    ensures athena.startQuery.Failure? ==>
              r == Failure(StartQueryFailed(athena.startQuery.error)) && calls == [StartQueryExecution]
    ensures athena.startQuery.Success? ==>
              var polls := FirstEnd(athena.pollResponses) + 1;
              var waited := WaitOutcome(athena.startQuery.value, athena.pollResponses[polls - 1], parseUrl);
              && |calls| >= 1 + polls && calls[..1 + polls] == [StartQueryExecution] + Polls(polls)
              && (waited.Failure? ==> r == Failure(waited.error) && |calls| == 1 + polls)
              && (waited.Success? ==>
                    && calls == [StartQueryExecution] + Polls(polls) + [GetObject(waited.value.bucket, waited.value.key)]
                    && (athena.getObject.Failure? ==> r == Failure(GetObjectFailed(athena.getObject.error)))
                    && (athena.getObject.Success? ==>
                          var counts := HitCounts(athena.getObject.value[1..], parseUrl);
                          && (r.Success? <==> compareTopUnsampledCount + compareRemainingSampledCount <= |counts|)
                          && (r.Success? ==>
                                && |r.value.topUnsampledUrls| == compareTopUnsampledCount
                                && |r.value.remainingSampledUrls| == compareRemainingSampledCount
                                && IsTopSample(counts, r.value.topUnsampledUrls, r.value.remainingSampledUrls,
                                               compareRemainingSampledCount, choices))
                          && (r.Failure? ==>
                                r.error == SamplingFailed(
                                  if |counts| < compareTopUnsampledCount
                                  then NotEnoughUrls(compareTopUnsampledCount, |counts|)
                                  else NotEnoughToSample(compareRemainingSampledCount, |counts| - compareTopUnsampledCount,
                                                         compareTopUnsampledCount)))))
  {
    calls := [StartQueryExecution];
    if athena.startQuery.Failure? {
      return Failure(StartQueryFailed(athena.startQuery.error)), calls;
    }
    var queryExecutionId := athena.startQuery.value;

    var s3Path, polls := WaitForAthenaQuery(queryExecutionId, athena.pollResponses, parseUrl);
    calls := calls + Polls(polls);
    if s3Path.Failure? {
      return Failure(s3Path.error), calls;
    }

    calls := calls + [GetObject(s3Path.value.bucket, s3Path.value.key)];
    if athena.getObject.Failure? {
      return Failure(GetObjectFailed(athena.getObject.error)), calls;
    }
    var csvRows := athena.getObject.value;

    var urlHitCounts := CsvRowsToUrlHitCounts(csvRows, parseUrl);
    var urls := new UrlHitCount[|urlHitCounts|](i requires 0 <= i < |urlHitCounts| => urlHitCounts[i]);
    assert urls[..] == urlHitCounts;
    var topUrls := NewTopUrls(urls, compareTopUnsampledCount, compareRemainingSampledCount, choices);
    if topUrls.Failure? {
      return Failure(SamplingFailed(topUrls.error)), calls;
    }
    r := Success(topUrls.value);
  }
}
