/** Dead-link checking of HTML files. The network is not modelled: what a
    HEAD request and the fallback GET requests return for a URL is given as
    a Probe, and the links of a file as a sequence. */
module DeadLinkChecker {
  import opened Wrappers
  import opened Text
  import opened Seqs

  // ------------------------------------------------------------ URL scheme

  predicate IsAsciiAlpha(c: char) { 'a' <= c <= 'z' || 'A' <= c <= 'Z' }

  predicate IsSchemeChar(c: char) { IsAsciiAlpha(c) || '0' <= c <= '9' || c == '+' || c == '-' || c == '.' }

  /** The characters urlsplit deletes from anywhere in the URL first. */
  const UnsafeUrlChars: set<char> := {'\t', '\r', '\n'}

  /** The URL with every tab, carriage return and newline deleted. */
  function DropUnsafe(url: string): (r: string)
    ensures |r| <= |url|
  {
    if url == [] then [] else (if url[0] in UnsafeUrlChars then [] else [url[0]]) + DropUnsafe(url[1..])
  }

  /** The scheme of a URL with nothing deleted: the lower-cased text before
      the first ':' when it starts with a letter and holds only scheme
      characters, else "". */
  function SchemeOf(url: string): (scheme: string)
    ensures scheme != [] ==> |scheme| < |url| && IsAsciiAlpha(url[0]) && scheme == Lower(url[..|scheme|]) && url[|scheme|] == ':'
  {
    if ':' !in url then ""
    else
      var i := IndexOf(url, ':');
      if i > 0 && IsAsciiAlpha(url[0]) && forall k :: 0 <= k < i ==> IsSchemeChar(url[k]) then Lower(url[..i])
      else ""
  }

  /** urlparse's scheme: read after the tabs and line breaks are deleted. */
  function Scheme(url: string): (scheme: string)
    ensures var u := DropUnsafe(url);
            scheme != [] ==> |scheme| < |u| && IsAsciiAlpha(u[0]) && scheme == Lower(u[..|scheme|]) && u[|scheme|] == ':'
  {
    SchemeOf(DropUnsafe(url))
  }

  /** A tab or line break anywhere in the URL changes nothing about its
      scheme. */
  lemma SchemeIgnoresUnsafe(a: string, c: char, b: string)
    requires c in UnsafeUrlChars
    ensures Scheme(a + [c] + b) == Scheme(a + b)
  {
    DropUnsafeSkip(a, c, b);
  }

  lemma DropUnsafeSkip(a: string, c: char, b: string)
    requires c in UnsafeUrlChars
    ensures DropUnsafe(a + [c] + b) == DropUnsafe(a + b)
  {
    DropUnsafeConcat(a + [c], b);
    DropUnsafeConcat(a, [c]);
    DropUnsafeConcat(a, b);
    assert [c][1..] == [];
    assert DropUnsafe([c]) == [];
    assert DropUnsafe(a) + [] == DropUnsafe(a);
  }

  lemma {:induction false} DropUnsafeConcat(a: string, b: string)
    ensures DropUnsafe(a + b) == DropUnsafe(a) + DropUnsafe(b)
  {
    if a != [] {
      assert (a + b)[1..] == a[1..] + b;
      DropUnsafeConcat(a[1..], b);
    } else {
      assert a + b == b;
    }
  }

  /** An anchor link has an empty scheme, so the scheme test already skips
      it and the anchor test after it never decides anything. */
  lemma AnchorHasNoScheme(url: string)
    requires |url| > 0 && url[0] == '#'
    ensures Scheme(url) == ""
  {
    assert DropUnsafe(url)[0] == '#';
  }

  const SkippedSchemes: set<string> := {"mailto", "tel", "javascript", ""}

  // ------------------------------------------------------------ one link

  /** How a request ended, when it did not return a response. */
  datatype Failure = Timeout | ConnectionError | TooManyRedirects | RequestFailure(message: string) | Unexpected(message: string)

  datatype HeadOutcome = Responded(code: int) | Raised(failure: Failure)

  /** What the network does for one URL: the HEAD request, the GET retried
      after a blocked HEAD, and the GET tried after a HEAD timeout (None when
      that GET raises). */
  datatype Probe = Probe(head: HeadOutcome, retryGet: Option<int>, timeoutGet: Option<int>)

  /** The five summary keys, and the initial 'unknown'. */
  datatype Status = Unknown | Alive | Dead | TimedOut | Failed | Skipped

  datatype CheckResult = CheckResult(url: string, status: Status, statusCode: Option<int>, error: Option<string>)

  /** HEAD answers that are retried with GET. */
  const RetryCodes: set<int> := {403, 405, 406, 501}

  const HeadBlocked: string := "HEAD blocked, verified with GET"
  const HeadTimeoutGet: string := "HEAD timeout, verified with GET"

  /** The outcome of checking `url`, case by case. */
  predicate LinkChecked(url: string, probe: Probe, r: CheckResult)
  {
    var scheme := Scheme(url);
    r.url == url &&
    if scheme in SkippedSchemes then
      r == CheckResult(url, Skipped, None, Some("Skipped scheme: " + (if scheme == "" then "empty" else scheme)))
    else if |url| > 0 && url[0] == '#' then
      r == CheckResult(url, Skipped, None, Some("Anchor link"))
    else match probe.head
      case Responded(code) =>
        if code in RetryCodes && probe.retryGet.Some? then
          r == CheckResult(url, if probe.retryGet.value < 400 then Alive else Dead, probe.retryGet, Some(HeadBlocked))
        else
          r == CheckResult(url, if code < 400 then Alive else Dead, Some(code), None)
      case Raised(Timeout) =>
        if probe.timeoutGet.Some? && probe.timeoutGet.value < 400 then
          r == CheckResult(url, Alive, probe.timeoutGet, Some(HeadTimeoutGet))
        else
          r == CheckResult(url, TimedOut, None, Some("Request timeout"))
      case Raised(ConnectionError) => r == CheckResult(url, Dead, None, Some("Connection error"))
      case Raised(TooManyRedirects) => r == CheckResult(url, Dead, None, Some("Too many redirects"))
      case Raised(RequestFailure(message)) => r == CheckResult(url, Failed, None, Some(message))
      case Raised(Unexpected(message)) => r == CheckResult(url, Failed, None, Some("Unexpected error: " + message))
  }

  /** check_link: the result record updated branch by branch. */
  method CheckLink(url: string, probe: Probe) returns (result: CheckResult)
    ensures LinkChecked(url, probe, result)
  {
    result := CheckResult(url, Unknown, None, None);
    var scheme := Scheme(url);
    if scheme in SkippedSchemes {
      result := result.(status := Skipped, error := Some("Skipped scheme: " + (if scheme == "" then "empty" else scheme)));
      return;
    }
    if |url| > 0 && url[0] == '#' {
      result := result.(status := Skipped, error := Some("Anchor link"));
      return;
    }
    match probe.head {
      case Responded(code) =>
        result := result.(statusCode := Some(code));
        if code in RetryCodes {
          if probe.retryGet.Some? {
            result := result.(statusCode := probe.retryGet, error := Some(HeadBlocked));
          }
        }
        if result.statusCode.value < 400 {
          result := result.(status := Alive);
        } else {
          result := result.(status := Dead);
        }
      case Raised(failure) =>
        match failure {
          case Timeout =>
            result := result.(status := TimedOut, error := Some("Request timeout"));
            if probe.timeoutGet.Some? && probe.timeoutGet.value < 400 {
              result := result.(status := Alive, statusCode := probe.timeoutGet, error := Some(HeadTimeoutGet));
            }
          case ConnectionError =>
            result := result.(status := Dead, error := Some("Connection error"));
          case TooManyRedirects =>
            result := result.(status := Dead, error := Some("Too many redirects"));
          case RequestFailure(message) =>
            result := result.(status := Failed, error := Some(message));
          case Unexpected(message) =>
            result := result.(status := Failed, error := Some("Unexpected error: " + message));
        }
    }
  }

  /** Exactly one result fits a URL and its probe. */
  lemma LinkCheckedUnique(url: string, probe: Probe, r1: CheckResult, r2: CheckResult)
    requires LinkChecked(url, probe, r1) && LinkChecked(url, probe, r2)
    ensures r1 == r2
  {
  }

  /** Every check ends in one of the summary keys; a link is alive only on
      a status code below 400, and skipped links were never requested. */
  lemma LinkCheckedStatus(url: string, probe: Probe, r: CheckResult)
    requires LinkChecked(url, probe, r)
    ensures r.status != Unknown
    ensures r.status == Alive <==> r.statusCode.Some? && r.statusCode.value < 400
    ensures r.status == Skipped <==> Scheme(url) in SkippedSchemes
    ensures r.status == Dead && r.statusCode.Some? ==> r.statusCode.value >= 400
  {
    if |url| > 0 && url[0] == '#' {
      AnchorHasNoScheme(url);
    }
  }

  /** A possible false positive: dead after a HEAD was blocked and the GET
      answered 403. */
  predicate PossibleFalsePositive(c: CheckResult)
  {
    c.status == Dead && c.statusCode == Some(403) && c.error == Some(HeadBlocked)
  }

  predicate IsDead(c: CheckResult) { c.status == Dead }

  predicate ConfirmedDead(c: CheckResult) { c.status == Dead && !PossibleFalsePositive(c) }

  /** Such a result arises only when the HEAD answer was retried and the
      GET answered 403. */
  lemma PossibleFalsePositiveOrigin(url: string, probe: Probe, r: CheckResult)
    requires LinkChecked(url, probe, r) && PossibleFalsePositive(r)
    ensures probe.head.Responded? && probe.head.code in RetryCodes && probe.retryGet == Some(403)
  {
    if |url| > 0 && url[0] == '#' {
      AnchorHasNoScheme(url);
    }
  }

  // ------------------------------------------------------------ one file

  datatype Summary = Summary(alive: nat, dead: nat, timeout: nat, error: nat, skipped: nat)

  function Total(s: Summary): nat
  {
    s.alive + s.dead + s.timeout + s.error + s.skipped
  }

  /** results['summary'][status] += 1 */
  function Bump(s: Summary, status: Status): (r: Summary)
    requires status != Unknown
    ensures Total(r) == Total(s) + 1
  {
    match status
    case Alive => s.(alive := s.alive + 1)
    case Dead => s.(dead := s.dead + 1)
    case TimedOut => s.(timeout := s.timeout + 1)
    case Failed => s.(error := s.error + 1)
    case Skipped => s.(skipped := s.skipped + 1)
  }

  predicate Classified(checks: seq<CheckResult>)
  {
    forall i :: 0 <= i < |checks| ==> checks[i].status != Unknown
  }

  /** The summary of a sequence of checks, counted one check at a time. */
  function Tally(checks: seq<CheckResult>): Summary
    requires Classified(checks)
  {
    if checks == [] then Summary(0, 0, 0, 0, 0)
    else Bump(Tally(checks[..|checks| - 1]), checks[|checks| - 1].status)
  }

  function HasStatus(status: Status): CheckResult -> bool
  {
    (c: CheckResult) => c.status == status
  }

  /** Each summary key counts the checks with that status, and the counts
      add up to the number of checks. */
  lemma {:induction false} TallyCounts(checks: seq<CheckResult>)
    requires Classified(checks)
    ensures Tally(checks) == Summary(CountIf(checks, HasStatus(Alive)), CountIf(checks, HasStatus(Dead)),
                                     CountIf(checks, HasStatus(TimedOut)), CountIf(checks, HasStatus(Failed)),
                                     CountIf(checks, HasStatus(Skipped)))
    ensures Total(Tally(checks)) == |checks|
  {
    if checks != [] {
      var front, last := checks[..|checks| - 1], checks[|checks| - 1];
      TallyCounts(front);
      var t := Tally(front);
      assert Tally(checks) == Bump(t, last.status);
      match last.status
      case Alive => assert Tally(checks) == t.(alive := t.alive + 1);
      case Dead => assert Tally(checks) == t.(dead := t.dead + 1);
      case TimedOut => assert Tally(checks) == t.(timeout := t.timeout + 1);
      case Failed => assert Tally(checks) == t.(error := t.error + 1);
      case Skipped => assert Tally(checks) == t.(skipped := t.skipped + 1);
    }
  }

  datatype FileResult = FileResult(file: string, totalLinks: nat, uniqueLinks: nat, checks: seq<CheckResult>, summary: Summary)

  /** `uniqueLinks` is list(set(links)): each link once, in some order. */
  ghost predicate Deduplicated(links: seq<string>, uniqueLinks: seq<string>)
  {
    NoDup(uniqueLinks) && forall u :: u in uniqueLinks <==> u in links
  }

  /** What check_html_file returns for a file with these links. */
  predicate FileChecked(file: string, links: seq<string>, uniqueLinks: seq<string>, probe: string -> Probe, r: FileResult)
  {
    r.file == file && r.totalLinks == |links| && r.uniqueLinks == |uniqueLinks| &&
    |r.checks| == |uniqueLinks| &&
    (forall i :: 0 <= i < |uniqueLinks| ==> LinkChecked(uniqueLinks[i], probe(uniqueLinks[i]), r.checks[i])) &&
    Classified(r.checks) && r.summary == Tally(r.checks)
  }

  lemma TallyAppend(checks: seq<CheckResult>, c: CheckResult)
    requires Classified(checks) && c.status != Unknown
    ensures Classified(checks + [c]) && Tally(checks + [c]) == Bump(Tally(checks), c.status)
  {
    assert (checks + [c])[..|checks|] == checks;
  }

  /** check_html_file: each distinct link checked once, the summary bumped
      per check. */
  method CheckHtmlFile(file: string, links: seq<string>, uniqueLinks: seq<string>, probe: string -> Probe)
    returns (r: FileResult)
    requires Deduplicated(links, uniqueLinks)
    ensures FileChecked(file, links, uniqueLinks, probe, r)
  {
    var checks: seq<CheckResult> := [];
    var summary := Summary(0, 0, 0, 0, 0);
    for i := 0 to |uniqueLinks|
      invariant |checks| == i
      invariant forall j :: 0 <= j < i ==> LinkChecked(uniqueLinks[j], probe(uniqueLinks[j]), checks[j])
      invariant Classified(checks) && summary == Tally(checks)
    {
      var link := uniqueLinks[i];
      var checkResult := CheckLink(link, probe(link));
      LinkCheckedStatus(link, probe(link), checkResult);
      TallyAppend(checks, checkResult);
      CheckedSnoc(uniqueLinks, probe, checks, checkResult);
      checks := checks + [checkResult];
      summary := Bump(summary, checkResult.status);
    }
    r := FileResult(file, |links|, |uniqueLinks|, checks, summary);
  }

  /** One more link checked, in order. */
  lemma CheckedSnoc(uniqueLinks: seq<string>, probe: string -> Probe, checks: seq<CheckResult>, c: CheckResult)
    requires |checks| < |uniqueLinks|
    requires forall j :: 0 <= j < |checks| ==> LinkChecked(uniqueLinks[j], probe(uniqueLinks[j]), checks[j])
    requires LinkChecked(uniqueLinks[|checks|], probe(uniqueLinks[|checks|]), c)
    ensures forall j :: 0 <= j < |checks| + 1 ==> LinkChecked(uniqueLinks[j], probe(uniqueLinks[j]), (checks + [c])[j])
  {
    forall j | 0 <= j < |checks| + 1
      ensures LinkChecked(uniqueLinks[j], probe(uniqueLinks[j]), (checks + [c])[j])
    {
      if j < |checks| {
        assert (checks + [c])[j] == checks[j];
      }
    }
  }

  lemma {:induction false} NoDupCard<T>(s: seq<T>)
    requires NoDup(s)
    ensures |set x | x in s| == |s|
  {
    if s != [] {
      var front := s[..|s| - 1];
      assert NoDup(front);
      NoDupCard(front);
      assert (set x | x in s) == (set x | x in front) + {s[|s| - 1]};
    }
  }

  lemma {:induction false} SetCard<T>(s: seq<T>)
    ensures |set x | x in s| <= |s|
  {
    if s != [] {
      var front := s[..|s| - 1];
      SetCard(front);
      assert (set x | x in s) == (set x | x in front) + {s[|s| - 1]};
    }
  }

  /** The summary counts add up to the number of distinct links, which is
      at most the number of links. */
  lemma FileSummaryTotal(file: string, links: seq<string>, uniqueLinks: seq<string>, probe: string -> Probe, r: FileResult)
    requires Deduplicated(links, uniqueLinks) && FileChecked(file, links, uniqueLinks, probe, r)
    ensures Total(r.summary) == r.uniqueLinks == |set u | u in links|
    ensures r.uniqueLinks <= r.totalLinks
  {
    assert Total(r.summary) == |uniqueLinks| by {
      TallyCounts(r.checks);
    }
    assert |set u | u in links| == |uniqueLinks| by {
      NoDupCard(uniqueLinks);
      assert (set u | u in links) == (set u | u in uniqueLinks);
    }
    SetCard(links);
  }

  // ------------------------------------------------------------ a folder

  predicate IsHtml(name: string) { EndsWith(name, ".html") }
  predicate IsHtm(name: string) { EndsWith(name, ".htm") }
  predicate IsHtmlOrHtm(name: string) { IsHtml(name) || IsHtm(name) }

  /** glob('*.html') + glob('*.htm') over the listed names. */
  function HtmlFiles(names: seq<string>): seq<string>
  {
    Filter(names, IsHtml) + Filter(names, IsHtm)
  }

  /** The two patterns never match the same name, so every matching name
      is checked exactly once. */
  lemma {:induction false} HtmlFilesCount(names: seq<string>)
    ensures |HtmlFiles(names)| == CountIf(names, IsHtmlOrHtm)
    ensures forall n :: n in HtmlFiles(names) <==> n in names && IsHtmlOrHtm(n)
  {
    FilterLength(names, IsHtml);
    FilterLength(names, IsHtm);
    FilterMembers(names, IsHtml);
    FilterMembers(names, IsHtm);
    CountSplit(names);
  }

  lemma HtmlIsNotHtm(name: string)
    requires IsHtml(name)
    ensures !IsHtm(name)
  {
    assert name[|name| - 1] == ".html"[4];
  }

  lemma {:induction false} CountSplit(names: seq<string>)
    ensures CountIf(names, IsHtml) + CountIf(names, IsHtm) == CountIf(names, IsHtmlOrHtm)
  {
    if names != [] {
      var n := names[|names| - 1];
      CountSplit(names[..|names| - 1]);
      if IsHtml(n) {
        HtmlIsNotHtm(n);
      }
    }
  }

  datatype FolderResult = FolderResult(folder: string, totalFiles: nat, files: seq<FileResult>)

  /** check_folder: one file result per matching file, in discovery order.
      `names` is the (recursive or direct) listing, `linksOf` and
      `uniqueOf` the links found in a file and their distinct order. */
  method CheckFolder(folder: string, names: seq<string>, linksOf: string -> seq<string>,
                     uniqueOf: string -> seq<string>, probe: string -> Probe)
    returns (r: FolderResult)
    requires forall f :: f in HtmlFiles(names) ==> Deduplicated(linksOf(f), uniqueOf(f))
    ensures r.folder == folder && r.totalFiles == |HtmlFiles(names)| == |r.files|
    ensures forall i :: 0 <= i < |r.files| ==>
      var f := HtmlFiles(names)[i]; FileChecked(f, linksOf(f), uniqueOf(f), probe, r.files[i])
  {
    var htmlFiles := HtmlFiles(names);
    var files: seq<FileResult> := [];
    for i := 0 to |htmlFiles|
      invariant |files| == i
      invariant forall j :: 0 <= j < i ==>
        FileChecked(htmlFiles[j], linksOf(htmlFiles[j]), uniqueOf(htmlFiles[j]), probe, files[j])
    {
      var htmlFile := htmlFiles[i];
      assert htmlFile in HtmlFiles(names);
      var fileResult := CheckHtmlFile(htmlFile, linksOf(htmlFile), uniqueOf(htmlFile), probe);
      assert forall j :: 0 <= j < i ==> (files + [fileResult])[j] == files[j];
      files := files + [fileResult];
    }
    r := FolderResult(folder, |htmlFiles|, files);
  }

  // ------------------------------------------------------------ the report

  /** _write_file_result's split of the dead checks. */
  method PartitionDead(checks: seq<CheckResult>) returns (confirmedDead: seq<CheckResult>, potentialFalsePositives: seq<CheckResult>)
    ensures confirmedDead == Filter(checks, ConfirmedDead)
    ensures potentialFalsePositives == Filter(checks, PossibleFalsePositive)
  {
    confirmedDead, potentialFalsePositives := [], [];
    for i := 0 to |checks|
      invariant confirmedDead == Filter(checks[..i], ConfirmedDead)
      invariant potentialFalsePositives == Filter(checks[..i], PossibleFalsePositive)
    {
      var check := checks[i];
      FilterPrefixStep(checks, i, ConfirmedDead);
      FilterPrefixStep(checks, i, PossibleFalsePositive);
      if check.status == Dead {
        if check.statusCode == Some(403) && check.error == Some(HeadBlocked) {
          potentialFalsePositives := potentialFalsePositives + [check];
        } else {
          confirmedDead := confirmedDead + [check];
        }
      }
    }
    TakeAll(checks, |checks|);
  }

  /** The two groups split the dead checks: every dead check is in exactly
      one of them. */
  lemma {:induction false} DeadPartition(checks: seq<CheckResult>)
    ensures |Filter(checks, ConfirmedDead)| + |Filter(checks, PossibleFalsePositive)| == CountIf(checks, IsDead)
    ensures forall c :: c in checks && IsDead(c) ==>
      (c in Filter(checks, ConfirmedDead) <==> c !in Filter(checks, PossibleFalsePositive))
  {
    FilterLength(checks, ConfirmedDead);
    FilterLength(checks, PossibleFalsePositive);
    FilterMembers(checks, ConfirmedDead);
    FilterMembers(checks, PossibleFalsePositive);
    DeadCount(checks);
  }

  lemma {:induction false} DeadCount(checks: seq<CheckResult>)
    ensures CountIf(checks, ConfirmedDead) + CountIf(checks, PossibleFalsePositive) == CountIf(checks, IsDead)
  {
    if checks != [] {
      DeadCount(checks[..|checks| - 1]);
    }
  }
}
