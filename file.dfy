/**
 * internal/file/file.go: where a fetched response is stored on disk
 * (`GenerateFilePath`), which `url(...)` references a stylesheet holds
 * (`FindCssUrls`), and the meta-refresh page written for a redirect
 * (`RedirectHTMLBody`).  `mime.ExtensionsByType` is a parameter.
 */
module MirrorFile {
  import opened Wrappers
  import opened Text
  import opened Urls

  // ---------------------------------------------------------------------
  // GenerateFilePath
  // ---------------------------------------------------------------------

  datatype PathError =
    | LookupFailed(reason: string)   // the error of mime.ExtensionsByType, returned as is
    | UnknownContentType             // "error determining content type"

  /** mime.ExtensionsByType: the known extensions of a media type, or an error. */
  type ExtensionLookup = string -> Result<seq<string>, string>

  /** filepath.Join: the non-empty elements joined with '/' ('.'/'..' cleaning not modelled). */
  function JoinPath(elems: seq<string>): string
  {
    JoinWith(NonEmpty(elems), '/')
  }

  /** The path segments of a URL, split on '/', before any '?'. */
  function PathSegments(u: Url): (segs: seq<string>)
    ensures |segs| >= 1
  {
    Split(Split(u.escapedPath, '?')[0], '/')
  }

  /** The segments with an empty last one renamed to "index". */
  function IndexedSegments(u: Url): (segs: seq<string>)
    ensures |segs| == |PathSegments(u)| >= 1
    ensures segs[..|segs| - 1] == PathSegments(u)[..|segs| - 1]
    ensures segs[|segs| - 1] != ""
  {
    var segs := PathSegments(u);
    if segs[|segs| - 1] == "" then segs[|segs| - 1 := "index"] else segs
  }

  /**
   * GenerateFilePath: the host name and the path segments, with an empty last
   * segment named "index" and the content type's extension appended when the
   * segment does not already carry one of them.  It fails exactly when the
   * extension lookup fails (with the lookup's error), or when the lookup
   * yields nothing and the last segment has no extension either.
   */
  function GenerateFilePath(u: Url, contentType: string, extensionsByType: ExtensionLookup): (r: Result<string, PathError>)
    ensures var lookup := Extensions(contentType, extensionsByType);
            lookup.Failure? ==> r == Failure(LookupFailed(lookup.error))
    ensures var segs := IndexedSegments(u);
            var lookup := Extensions(contentType, extensionsByType);
            r.Failure? <==> (lookup.Failure? || (|lookup.value| == 0 && '.' !in segs[|segs| - 1]))
  {
    NoSlashInSegments(u);
    var segs := IndexedSegments(u);
    var last := segs[|segs| - 1];
    var lookup := if contentType != "" then extensionsByType(contentType) else Success([]);
    if lookup.Failure? then Failure(LookupFailed(lookup.error))
    else
      var extensions := lookup.value;
      var existing := Ext(last);
      if |extensions| == 0 && existing == "" then Failure(UnknownContentType)
      else
        var finalSegs :=
          if |extensions| > 0 && existing !in extensions
          then segs[|segs| - 1 := last + extensions[|extensions| - 1]]
          else segs;
        Success(JoinPath([u.hostname] + finalSegs))
  }

  /** The extension list GenerateFilePath works with: none when there is no content type. */
  function Extensions(contentType: string, extensionsByType: ExtensionLookup): Result<seq<string>, string>
  {
    if contentType != "" then extensionsByType(contentType) else Success([])
  }

  /** What mime.ExtensionsByType returns on success: ".ext" suffixes, none holding a '/'. */
  predicate FileSuffixes(extensionsByType: ExtensionLookup, contentType: string)
  {
    var lookup := Extensions(contentType, extensionsByType);
    lookup.Success? ==> forall k :: 0 <= k < |lookup.value| ==> '/' !in lookup.value[k]
  }

  /** The last path component GenerateFilePath produces, with any extension it appends. */
  function FinalSegment(last: string, extensions: seq<string>): string
  {
    if |extensions| > 0 && Ext(last) !in extensions then last + extensions[|extensions| - 1] else last
  }

  lemma NonEmptyAppend(xs: seq<string>, y: string)
    requires y != ""
    ensures NonEmpty(xs + [y]) == NonEmpty(xs) + [y]
    decreases |xs|
  {
    if |xs| == 0 {
      assert xs + [y] == [y];
    } else {
      assert (xs + [y])[1..] == xs[1..] + [y];
      NonEmptyAppend(xs[1..], y);
    }
  }

  lemma NoSlashInSegments(u: Url)
    ensures forall i :: 0 <= i < |IndexedSegments(u)| ==> '/' !in IndexedSegments(u)[i]
  {
    var segs := PathSegments(u);
    forall i | 0 <= i < |IndexedSegments(u)| ensures '/' !in IndexedSegments(u)[i] {
      if i < |segs| - 1 {
        assert IndexedSegments(u)[i] == IndexedSegments(u)[..|segs| - 1][i];
      }
    }
  }

  /**
   * On success the components of the path are: the host name (when it is not
   * empty), then every non-empty segment of the escaped path before the last,
   * verbatim and in order, then the last segment ("index" when the path is
   * empty or ends in '/') with the lookup's last extension appended exactly
   * when its own extension is not one of those the lookup returned.
   */
  lemma {:induction false} GeneratedPathComponents(u: Url, contentType: string, extensionsByType: ExtensionLookup)
    requires FileSuffixes(extensionsByType, contentType)
    requires WellFormedHost(u)
    requires GenerateFilePath(u, contentType, extensionsByType).Success?
    ensures var segs := IndexedSegments(u);
            var n := |segs|;
            var exts := Extensions(contentType, extensionsByType).value;
            Split(GenerateFilePath(u, contentType, extensionsByType).value, '/')
              == NonEmpty([u.hostname] + PathSegments(u)[..n - 1]) + [FinalSegment(segs[n - 1], exts)]
  {
    var segs := IndexedSegments(u);
    var n := |segs|;
    var exts := Extensions(contentType, extensionsByType).value;
    var last := FinalSegment(segs[n - 1], exts);
    GenerateFilePathValue(u, contentType, extensionsByType);
    NoSlashInSegments(u);
    assert segs[..n - 1] == PathSegments(u)[..n - 1];
    JoinedComponents(u.hostname, segs, last);
  }

  /** The components of the joined path: the non-empty leading elements, then the last one. */
  lemma JoinedComponents(hostname: string, segs: seq<string>, last: string)
    requires |segs| >= 1 && '/' !in hostname && last != "" && '/' !in last
    requires forall i :: 0 <= i < |segs| ==> '/' !in segs[i]
    ensures Split(JoinPath([hostname] + segs[|segs| - 1 := last]), '/')
              == NonEmpty([hostname] + segs[..|segs| - 1]) + [last]
  {
    var n := |segs|;
    var init := [hostname] + segs[..n - 1];
    assert [hostname] + segs[n - 1 := last] == init + [last];
    forall i | 0 <= i < |init| ensures '/' !in init[i] {
      if i > 0 {
        assert init[i] == segs[i - 1];
      }
    }
    SplitJoinPath(init, last);
  }

  lemma GenerateFilePathValue(u: Url, contentType: string, extensionsByType: ExtensionLookup)
    requires GenerateFilePath(u, contentType, extensionsByType).Success?
    ensures var segs := IndexedSegments(u);
            var n := |segs|;
            var exts := Extensions(contentType, extensionsByType).value;
            GenerateFilePath(u, contentType, extensionsByType).value
              == JoinPath([u.hostname] + segs[n - 1 := FinalSegment(segs[n - 1], exts)])
  {
    var segs := IndexedSegments(u);
    var n := |segs|;
    var exts := Extensions(contentType, extensionsByType).value;
    var last := segs[n - 1];
    if !(|exts| > 0 && Ext(last) !in exts) {
      assert segs[n - 1 := last] == segs;
    }
  }

  /** Joining separator-free elements whose last is non-empty and splitting again drops only the empty ones. */
  lemma SplitJoinPath(init: seq<string>, last: string)
    requires last != "" && '/' !in last
    requires forall i :: 0 <= i < |init| ==> '/' !in init[i]
    ensures Split(JoinPath(init + [last]), '/') == NonEmpty(init) + [last]
  {
    NonEmptyAppend(init, last);
    NonEmptyKeepsSeparatorFree(init, '/');
    var comps := NonEmpty(init) + [last];
    SeparatorFreeAppend(NonEmpty(init), last, '/');
    SplitJoin(comps, '/');
  }

  /** Appending a separator-free element keeps every element separator-free. */
  lemma SeparatorFreeAppend(parts: seq<string>, last: string, sep: char)
    requires sep !in last
    requires forall i :: 0 <= i < |parts| ==> sep !in parts[i]
    ensures forall i :: 0 <= i < |parts + [last]| ==> sep !in (parts + [last])[i]
  {
    forall i | 0 <= i < |parts + [last]| ensures sep !in (parts + [last])[i] {
      if i < |parts| {
        assert (parts + [last])[i] == parts[i];
      }
    }
  }

  /** The first component of a generated path is the URL's host name. */
  lemma HostIsFirstComponent(u: Url, contentType: string, extensionsByType: ExtensionLookup)
    requires FileSuffixes(extensionsByType, contentType)
    requires WellFormedHost(u) && u.hostname != ""
    requires GenerateFilePath(u, contentType, extensionsByType).Success?
    ensures Split(GenerateFilePath(u, contentType, extensionsByType).value, '/')[0] == u.hostname
  {
    GeneratedPathComponents(u, contentType, extensionsByType);
  }

  /** An empty path, or one ending in '/', is stored under "index" (plus extension). */
  lemma TrailingSlashBecomesIndex(u: Url, contentType: string, extensionsByType: ExtensionLookup)
    requires FileSuffixes(extensionsByType, contentType)
    requires WellFormedHost(u)
    requires var p := Split(u.escapedPath, '?')[0]; p == "" || p[|p| - 1] == '/'
    requires GenerateFilePath(u, contentType, extensionsByType).Success?
    ensures var comps := Split(GenerateFilePath(u, contentType, extensionsByType).value, '/');
            comps[|comps| - 1] == FinalSegment("index", Extensions(contentType, extensionsByType).value)
  {
    var p := Split(u.escapedPath, '?')[0];
    if p != "" {
      JoinSplit(p, '/');
      var segs := Split(p, '/');
      LastPieceEmpty(p, '/');
    }
    GeneratedPathComponents(u, contentType, extensionsByType);
  }

  lemma {:induction false} LastPieceEmpty(s: string, sep: char)
    requires s != [] && s[|s| - 1] == sep
    ensures Split(s, sep)[|Split(s, sep)| - 1] == ""
    decreases |s|
  {
    if |s| == 1 {
      assert s[1..] == [];
    } else {
      LastPieceEmpty(s[1..], sep);
    }
  }

  /**
   * The extension rule: the lookup's last extension is appended exactly when
   * the lookup returned extensions and the segment's own extension is not
   * among them ("foo.cy" becomes "foo.cy.html", "foo.html" is kept).
   */
  lemma ExtensionAppendedIff(last: string, extensions: seq<string>)
    requires forall k :: 0 <= k < |extensions| ==> extensions[k] != ""
    ensures FinalSegment(last, extensions) != last <==> |extensions| > 0 && Ext(last) !in extensions
    ensures |extensions| > 0 && Ext(last) !in extensions ==>
              FinalSegment(last, extensions) == last + extensions[|extensions| - 1]
  {
    if |extensions| > 0 && Ext(last) !in extensions {
      assert |FinalSegment(last, extensions)| > |last|;
    }
  }

  /** With no content type there is no lookup: a segment with an extension is kept as is. */
  lemma EmptyContentTypeKeepsSegment(u: Url, extensionsByType: ExtensionLookup)
    requires WellFormedHost(u)
    requires var segs := IndexedSegments(u); '.' in segs[|segs| - 1]
    ensures GenerateFilePath(u, "", extensionsByType).Success?
    ensures var comps := Split(GenerateFilePath(u, "", extensionsByType).value, '/');
            var segs := IndexedSegments(u);
            comps[|comps| - 1] == segs[|segs| - 1]
  {
    GeneratedPathComponents(u, "", extensionsByType);
  }

  /** Query and fragment play no part: URLs that differ only there share a path. */
  lemma QueryAndFragmentIgnored(u: Url, v: Url, contentType: string, extensionsByType: ExtensionLookup)
    requires u.hostname == v.hostname && u.escapedPath == v.escapedPath
    ensures GenerateFilePath(u, contentType, extensionsByType) == GenerateFilePath(v, contentType, extensionsByType)
  {
  }

  // ---------------------------------------------------------------------
  // FindCssUrls: the regexp `url\(["']?(.*?)["']?\)`
  // ---------------------------------------------------------------------

  predicate IsQuote(c: char)
  {
    c == '"' || c == '\''
  }

  /**
   * Where the lazy group `(.*?)` started at i stops: the first position that is
   * either ')' or a quote followed by ')'; `.` does not cross a newline.
   */
  function CaptureEnd(s: string, i: nat): (j: Option<nat>)
    ensures j.Some? ==> i <= j.value < |s|
    ensures j.Some? ==> s[j.value] == ')' || (IsQuote(s[j.value]) && j.value + 1 < |s| && s[j.value + 1] == ')')
    ensures j.Some? ==> forall k :: i <= k < j.value ==> s[k] != '\n' && s[k] != ')'
    decreases |s| - i
  {
    if i >= |s| then None
    else if IsQuote(s[i]) && i + 1 < |s| && s[i + 1] == ')' then Some(i)
    else if s[i] == ')' then Some(i)
    else if s[i] == '\n' then None
    else CaptureEnd(s, i + 1)
  }

  /** One match: the text matched is s[start..end], the submatch s[captureStart..captureEnd]. */
  datatype CssMatch = CssMatch(start: nat, captureStart: nat, captureEnd: nat, end: nat)

  predicate WellShaped(s: string, m: CssMatch)
  {
    && m.start + 4 <= m.captureStart <= m.captureEnd < m.end <= |s|
    && s[m.start..m.start + 4] == "url("
    && (m.captureStart == m.start + 4 || (m.captureStart == m.start + 5 && IsQuote(s[m.start + 4])))
    && (IsQuote(s[m.start + 4]) ==> m.captureStart == m.start + 5)
    && (m.end == m.captureEnd + 1 || (m.end == m.captureEnd + 2 && IsQuote(s[m.captureEnd])))
    && s[m.end - 1] == ')'
    && forall k :: m.captureStart <= k < m.captureEnd ==> s[k] != '\n' && s[k] != ')'
  }

  /** The match starting at p, if any: an opening quote is taken when there is one. */
  function MatchAt(s: string, p: nat): (m: Option<CssMatch>)
    ensures m.Some? ==> m.value.start == p && WellShaped(s, m.value)
    ensures p + 4 <= |s| && s[p..p + 4] == "url(" && p + 4 < |s| && !IsQuote(s[p + 4]) && CaptureEnd(s, p + 4).Some? ==> m.Some?
  {
    if p + 4 > |s| || s[p..p + 4] != "url(" then None
    else
      var withQuote := if p + 4 < |s| && IsQuote(s[p + 4]) then CaptureEnd(s, p + 5) else None;
      var open := if withQuote.Some? then p + 5 else p + 4;
      var close := if withQuote.Some? then withQuote else CaptureEnd(s, p + 4);
      match close
      case None => None
      case Some(j) =>
        var end := if IsQuote(s[j]) && j + 1 < |s| && s[j + 1] == ')' then j + 2 else j + 1;
        Some(CssMatch(p, open, j, end))
  }

  /** The leftmost match starting at or after `from`. */
  function NextMatch(s: string, from: nat): (m: Option<CssMatch>)
    ensures m.Some? ==> from <= m.value.start && WellShaped(s, m.value)
    ensures m.Some? ==> forall p :: from <= p < m.value.start ==> MatchAt(s, p).None?
    ensures m.None? ==> forall p :: from <= p ==> MatchAt(s, p).None?
    decreases |s| - from
  {
    if from + 4 > |s| then None
    else match MatchAt(s, from)
      case Some(m) => Some(m)
      case None => NextMatch(s, from + 1)
  }

  /** regexp.FindAllStringSubmatch(s, -1): successive non-overlapping leftmost matches. */
  function FindAllMatches(s: string, from: nat): (ms: seq<CssMatch>)
    ensures forall k :: 0 <= k < |ms| ==> from <= ms[k].start && WellShaped(s, ms[k])
    ensures forall k :: 0 <= k < |ms| - 1 ==> ms[k].end <= ms[k + 1].start
    decreases |s| - from
  {
    match NextMatch(s, from)
    case None => []
    case Some(m) => [m] + FindAllMatches(s, m.end)
  }

  /** The submatch of every match, in order. */
  function CssReferences(body: string): (refs: seq<string>)
    ensures var ms := FindAllMatches(body, 0);
            && |refs| == |ms|
            && forall k :: 0 <= k < |ms| ==> refs[k] == body[ms[k].captureStart..ms[k].captureEnd]
  {
    var ms := FindAllMatches(body, 0);
    seq(|ms|, k requires 0 <= k < |ms| => body[ms[k].captureStart..ms[k].captureEnd])
  }

  /** FindCssUrls: the submatch of every match, in the order the matches occur. */
  method FindCssUrls(body: string) returns (result: seq<string>)
    ensures var ms := FindAllMatches(body, 0);
            && |result| == |ms|
            && forall k :: 0 <= k < |ms| ==> result[k] == body[ms[k].captureStart..ms[k].captureEnd]
    ensures result == CssReferences(body)
  {
    var urls := FindAllMatches(body, 0);
    result := [];
    for i := 0 to |urls|
      invariant |result| == i
      invariant forall k :: 0 <= k < i ==> result[k] == body[urls[k].captureStart..urls[k].captureEnd]
    {
      result := result + [body[urls[i].captureStart..urls[i].captureEnd]];
    }
  }

  /**
   * Each reference is bare: no ')' or newline inside, and a quote right after
   * "url(" or right before the closing ')' is left out of it.
   */
  lemma CssReferenceIsBare(body: string, k: nat)
    requires k < |FindAllMatches(body, 0)|
    ensures var m := FindAllMatches(body, 0)[k];
            var ref := body[m.captureStart..m.captureEnd];
            && ')' !in ref && '\n' !in ref
            && body[m.start..m.captureStart] in {"url(", "url(\"", "url('"}
            && (IsQuote(body[m.start + 4]) ==> m.captureStart == m.start + 5)
            && body[m.captureEnd..m.end] in {")", "\")", "')"}
  {
    var m := FindAllMatches(body, 0)[k];
    var ref := body[m.captureStart..m.captureEnd];
    assert WellShaped(body, m);
    forall c | c in ref ensures c != ')' && c != '\n' {
      var i :| 0 <= i < |ref| && ref[i] == c;
      assert ref[i] == body[m.captureStart + i];
    }
    var opening := body[m.start..m.captureStart];
    if m.captureStart == m.start + 5 {
      assert opening == body[m.start..m.start + 4] + [body[m.start + 4]];
      if body[m.start + 4] == '"' {
        assert opening == "url(\"";
      } else {
        assert opening == "url('";
      }
    } else {
      assert opening == "url(";
    }
    var closing := body[m.captureEnd..m.end];
    if m.end == m.captureEnd + 2 {
      assert closing == [body[m.captureEnd], body[m.end - 1]];
      if body[m.captureEnd] == '"' {
        assert closing == "\")";
      } else {
        assert closing == "')";
      }
    } else {
      assert closing == [body[m.end - 1]];
      assert closing == ")";
    }
  }

  /** A body without any "url(" has no references (the result is the empty list). */
  lemma {:induction false} NoUrlNoMatches(s: string, from: nat)
    requires !Contains(s, "url(")
    ensures FindAllMatches(s, from) == []
  {
    var m := NextMatch(s, from);
    if m.Some? {
      ContainsAt(s, "url(", m.value.start);
    }
  }

  // ---------------------------------------------------------------------
  // RedirectHTMLBody
  // ---------------------------------------------------------------------

  const PageHead: string := "<!DOCTYPE html>\n\t<html lang=\"en\">\n\t<head>\n\t<meta http-equiv=\"refresh\" "
  const RefreshOpen: string := "content=\"1; url="
  const AttrEnd: string := "\""
  const PageMiddle: string := ">\n\t<title>Redirecting</title>\n\t</head>\n\t<body>\n\t<p>Redirecting you to "
  const AnchorOpen: string := "<a href=\""
  const AnchorMiddle: string := "\">"
  const AnchorClose: string := "</a>"
  const PageTail: string := ".</p>\n\t</body>\n\t</html>"

  /**
   * The page written in place of a redirect: a one-second meta refresh to the
   * target, and a link whose href and text are both the target.
   */
  function RedirectHTMLBody(redirectURL: string): (body: string)
    ensures Contains(body, RefreshOpen + redirectURL + AttrEnd)
    ensures Contains(body, AnchorOpen + redirectURL + AnchorMiddle + redirectURL + AnchorClose)
  {
    TemplateMentions(PageHead, RefreshOpen, redirectURL, AttrEnd, PageMiddle, AnchorOpen, AnchorMiddle, AnchorClose, PageTail);
    PageHead + RefreshOpen + redirectURL + AttrEnd + PageMiddle
      + AnchorOpen + redirectURL + AnchorMiddle + redirectURL + AnchorClose + PageTail
  }

  /** The same fact for any template pieces, so that the proof never looks inside the literals. */
  lemma TemplateMentions(h: string, ro: string, u: string, ae: string, pm: string, ao: string, am: string, ac: string, pt: string)
    ensures Contains(h + ro + u + ae + pm + ao + u + am + u + ac + pt, ro + u + ae)
    ensures Contains(h + ro + u + ae + pm + ao + u + am + u + ac + pt, ao + u + am + u + ac)
  {
    var body := h + ro + u + ae + pm + ao + u + am + u + ac + pt;
    assert body == h + (ro + u + ae) + (pm + ao + u + am + u + ac + pt);
    ContainsInfix(h, ro + u + ae, pm + ao + u + am + u + ac + pt);
    assert body == (h + ro + u + ae + pm) + (ao + u + am + u + ac) + pt;
    ContainsInfix(h + ro + u + ae + pm, ao + u + am + u + ac, pt);
  }

  /** A text with the same string substituted at three places between four fixed pieces. */
  function Fill(a: string, b: string, c: string, d: string, u: string): string
  {
    a + u + b + u + c + u + d
  }

  /** Reads the substituted string back out of a filled text, if it is one. */
  function Unfill(a: string, b: string, c: string, d: string, text: string): (u: Option<string>)
    ensures u.Some? ==> Fill(a, b, c, d, u.value) == text
  {
    var fixed := |a| + |b| + |c| + |d|;
    if |text| < fixed || (|text| - fixed) % 3 != 0 then None
    else
      var n := (|text| - fixed) / 3;
      var candidate := text[|a|..|a| + n];
      if Fill(a, b, c, d, candidate) == text then Some(candidate) else None
  }

  lemma UnfillFill(a: string, b: string, c: string, d: string, u: string)
    ensures Unfill(a, b, c, d, Fill(a, b, c, d, u)) == Some(u)
  {
    var text := Fill(a, b, c, d, u);
    assert |text| == |a| + |b| + |c| + |d| + 3 * |u|;
    assert text[|a|..|a| + |u|] == u;
  }

  lemma RedirectBodyIsFill(u: string)
    ensures RedirectHTMLBody(u)
      == Fill(PageHead + RefreshOpen, AttrEnd + PageMiddle + AnchorOpen, AnchorMiddle, AnchorClose + PageTail, u)
  {
    FillRegroup(PageHead, RefreshOpen, AttrEnd, PageMiddle, AnchorOpen, AnchorMiddle, AnchorClose, PageTail, u);
  }

  lemma FillRegroup(h: string, ro: string, ae: string, pm: string, ao: string, am: string, ac: string, pt: string, u: string)
    ensures h + ro + u + ae + pm + ao + u + am + u + ac + pt == Fill(h + ro, ae + pm + ao, am, ac + pt, u)
  {
  }

  /** Reads the target back out of a redirect page. */
  function RedirectTarget(body: string): (target: Option<string>)
    ensures target.Some? ==> RedirectHTMLBody(target.value) == body
  {
    var t := Unfill(PageHead + RefreshOpen, AttrEnd + PageMiddle + AnchorOpen, AnchorMiddle, AnchorClose + PageTail, body);
    if t.Some? then RedirectBodyIsFill(t.value); t else t
  }

  /** The redirect page determines its target: reading it back gives the URL that was substituted. */
  lemma RedirectBodyRoundTrip(redirectURL: string)
    ensures RedirectTarget(RedirectHTMLBody(redirectURL)) == Some(redirectURL)
  {
    RedirectBodyIsFill(redirectURL);
    UnfillFill(PageHead + RefreshOpen, AttrEnd + PageMiddle + AnchorOpen, AnchorMiddle, AnchorClose + PageTail, redirectURL);
  }

  /** Different targets give different pages. */
  lemma RedirectBodyInjective(u: string, v: string)
    requires RedirectHTMLBody(u) == RedirectHTMLBody(v)
    ensures u == v
  {
    RedirectBodyRoundTrip(u);
    RedirectBodyRoundTrip(v);
  }
}
