/** The dead-link window: the summary texts shown after a check, the guard
    that keeps a second check from starting while one runs, and the test
    applied to a dropped path. Dialogs, progress and the report file are
    not modelled. */
module DeadLinkWindow {
  import opened Wrappers
  import opened Text
  import opened Seqs
  import opened Paths
  import opened DeadLinkChecker

  // ------------------------------------------------------------ listings

  function Min(a: nat, b: nat): nat { if a <= b then a else b }

  /** At most `limit` items, one line each, then a line saying how many
      were left out when there are more. */
  function Listing<T>(items: seq<T>, limit: nat, line: T -> string, more: nat -> string): seq<string>
  {
    var shown := items[..Min(|items|, limit)];
    seq(|shown|, k requires 0 <= k < |shown| => line(shown[k])) +
    (if |items| > limit then [more(|items| - limit)] else [])
  }

  /** The listing shows the first items in order, then the overflow line
      exactly when items were left out. */
  lemma ListingShape<T>(items: seq<T>, limit: nat, line: T -> string, more: nat -> string)
    ensures var r := Listing(items, limit, line, more);
      |r| == Min(|items|, limit) + (if |items| > limit then 1 else 0) &&
      (forall k :: 0 <= k < Min(|items|, limit) ==> r[k] == line(items[k])) &&
      (|items| > limit ==> r[|r| - 1] == more(|items| - limit))
  {
  }

  /** When overflow lines (told apart by `isMore`) never look like item
      lines, one appears in the listing exactly when items were left out. */
  lemma ListingOverflow<T>(items: seq<T>, limit: nat, line: T -> string, more: nat -> string, isMore: string -> bool)
    requires forall x :: !isMore(line(x))
    requires forall n :: isMore(more(n))
    ensures var r := Listing(items, limit, line, more);
      (exists i :: 0 <= i < |r| && isMore(r[i])) <==> |items| > limit
  {
    var r := Listing(items, limit, line, more);
    ListingShape(items, limit, line, more);
    if |items| > limit {
      assert isMore(r[|r| - 1]);
    } else {
      forall i | 0 <= i < |r|
        ensures !isMore(r[i])
      {
        assert r[i] == line(items[i]);
      }
    }
  }

  /** A line of the form "  ... N more". */
  predicate IsMore(line: string) { |line| >= 3 && line[..3] == "  ." }

  predicate NoMore(lines: seq<string>)
  {
    forall i :: 0 <= i < |lines| ==> !IsMore(lines[i])
  }

  // ------------------------------------------------------------ one file

  const Bullet: string := "  "

  function CodeText(code: Option<int>): string
  {
    if code.Some? then IntToString(code.value) else "None"
  }

  /** "  [code] url" */
  function DeadLine(check: CheckResult): string
  {
    "  [" + CodeText(check.statusCode) + "] " + check.url
  }

  function MoreDead(n: nat): string
  {
    "  ... \U{8FD8}\U{6709} " + NatToString(n) + " \U{4E2A}"
  }

  const DeadLimit: nat := 15

  /** The counts block: file, link counts, then the five summary keys. */
  function SummaryHeader(result: FileResult): seq<string>
  {
    var s := result.summary;
    ["\U{6587}\U{4EF6}: " + result.file,
     "\U{603B}\U{94FE}\U{63A5}\U{6570}: " + NatToString(result.totalLinks),
     "\U{552F}\U{4E00}\U{94FE}\U{63A5}\U{6570}: " + NatToString(result.uniqueLinks),
     "",
     "\U{68C0}\U{6D4B}\U{6458}\U{8981}:",
     "  \U{2713} \U{6B63}\U{5E38}: " + NatToString(s.alive),
     "  \U{2717} \U{6B7B}\U{94FE}: " + NatToString(s.dead),
     "  \U{23F1} \U{8D85}\U{65F6}: " + NatToString(s.timeout),
     "  \U{26A0} \U{9519}\U{8BEF}: " + NatToString(s.error),
     "  \U{2298} \U{8DF3}\U{8FC7}: " + NatToString(s.skipped),
     ""]
  }

  const ConfirmedTitle: string := "\U{786E}\U{8BA4}\U{6B7B}\U{94FE}\U{FF08}\U{5EFA}\U{8BAE}\U{68C0}\U{67E5}\U{FF09}:"

  /** The confirmed-dead block, absent when there are none. */
  function ConfirmedSection(confirmed: seq<CheckResult>): seq<string>
  {
    if confirmed == [] then []
    else [ConfirmedTitle] + Listing(confirmed, DeadLimit, DeadLine, MoreDead) + [""]
  }

  /** The possible-false-positive block: only their number is shown. */
  function FalsePositiveSection(count: nat): seq<string>
  {
    if count == 0 then []
    else ["\U{53EF}\U{80FD}\U{8BEF}\U{62A5}\U{FF08}403\U{9519}\U{8BEF} - \U{53CD}\U{722C}\U{866B}\U{4FDD}\U{62A4}\U{FF09}: " + NatToString(count) + "\U{4E2A}",
          "\U{6CE8}\U{610F}: \U{8FD9}\U{4E9B}\U{94FE}\U{63A5}\U{5728}\U{6D4F}\U{89C8}\U{5668}\U{4E2D}\U{53EF}\U{80FD}\U{53EF}\U{4EE5}\U{6B63}\U{5E38}\U{8BBF}\U{95EE}",
          "\U{8BE6}\U{7EC6}\U{5217}\U{8868}\U{8BF7}\U{67E5}\U{770B}\U{5B8C}\U{6574}\U{62A5}\U{544A}",
          ""]
  }

  /** The lines of the single-file summary. */
  function SummaryLines(result: FileResult): seq<string>
  {
    SummaryHeader(result) + ConfirmedSection(Filter(result.checks, ConfirmedDead)) +
    FalsePositiveSection(|Filter(result.checks, PossibleFalsePositive)|)
  }

  /** The loop that appends a truncated listing: `line` for each of the
      first `limit` items, then `more` of the count left out. */
  method AppendListing<T>(lines: seq<string>, items: seq<T>, limit: nat, line: T -> string, more: nat -> string)
    returns (out: seq<string>)
    ensures out == lines + Listing(items, limit, line, more)
  {
    var shown := items[..Min(|items|, limit)];
    out := lines;
    for k := 0 to |shown|
      invariant out == lines + seq(k, j requires 0 <= j < k => line(shown[j]))
    {
      assert seq(k + 1, j requires 0 <= j < k + 1 => line(shown[j])) ==
             seq(k, j requires 0 <= j < k => line(shown[j])) + [line(shown[k])];
      out := out + [line(shown[k])];
    }
    if |items| > limit {
      out := out + [more(|items| - limit)];
    }
  }

  /** _format_summary: the lines appended one by one, joined by newlines. */
  method FormatSummary(result: FileResult) returns (lines: seq<string>, text: string)
    ensures lines == SummaryLines(result)
    ensures text == Join(lines, "\n")
  {
    var header := SummaryHeader(result);
    var confirmedDead, potentialFalsePositives := PartitionDead(result.checks);
    var section: seq<string> := [];
    if confirmedDead != [] {
      section := AppendListing([ConfirmedTitle], confirmedDead, DeadLimit, DeadLine, MoreDead);
      section := section + [""];
    }
    assert section == ConfirmedSection(confirmedDead);
    lines := header + section + FalsePositiveSection(|potentialFalsePositives|);
    text := Join(lines, "\n");
  }

  /** The summary lists the first min(15, n) confirmed-dead checks in check
      order right after the title. */
  lemma SummaryListsFirstConfirmed(result: FileResult)
    requires Filter(result.checks, ConfirmedDead) != []
    ensures var confirmed := Filter(result.checks, ConfirmedDead);
      var lines := SummaryLines(result);
      var start := |SummaryHeader(result)| + 1;
      start + Min(|confirmed|, DeadLimit) <= |lines| &&
      lines[start - 1] == ConfirmedTitle &&
      forall k :: 0 <= k < Min(|confirmed|, DeadLimit) ==> lines[start + k] == DeadLine(confirmed[k])
  {
    var confirmed := Filter(result.checks, ConfirmedDead);
    ListingShape(confirmed, DeadLimit, DeadLine, MoreDead);
    var listing := Listing(confirmed, DeadLimit, DeadLine, MoreDead);
    SectionInside(SummaryHeader(result), ConfirmedTitle, listing,
      FalsePositiveSection(|Filter(result.checks, PossibleFalsePositive)|));
  }

  /** Where a titled section lands once the lines before and after it are added. */
  lemma SectionInside(before: seq<string>, title: string, body: seq<string>, after: seq<string>)
    ensures var lines := before + ([title] + body + [""]) + after;
      |before| + 1 + |body| < |lines| &&
      lines[|before|] == title &&
      forall k :: 0 <= k < |body| ==> lines[|before| + 1 + k] == body[k]
  {
  }

  /** A "  ... N more" line appears exactly when more than 15 checks are
      confirmed dead. */
  lemma SummaryOverflow(result: FileResult)
    ensures (exists i :: 0 <= i < |SummaryLines(result)| && IsMore(SummaryLines(result)[i])) <==>
            |Filter(result.checks, ConfirmedDead)| > DeadLimit
  {
    var confirmed := Filter(result.checks, ConfirmedDead);
    var header := SummaryHeader(result);
    var fp := FalsePositiveSection(|Filter(result.checks, PossibleFalsePositive)|);
    HeaderHasNoMore(result);
    FalsePositivesHaveNoMore(|Filter(result.checks, PossibleFalsePositive)|);
    ConfirmedOverflow(confirmed);
    MoreInConcat3(header, ConfirmedSection(confirmed), fp);
    assert SummaryLines(result) == header + ConfirmedSection(confirmed) + fp;
  }

  lemma HeaderHasNoMore(result: FileResult)
    ensures NoMore(SummaryHeader(result))
  {
    var header := SummaryHeader(result);
    forall i | 0 <= i < |header|
      ensures !IsMore(header[i])
    {
      assert header[i] == [] || header[i][0] != ' ' || header[i][2] != '.';
    }
  }

  lemma FalsePositivesHaveNoMore(count: nat)
    ensures NoMore(FalsePositiveSection(count))
  {
    var fp := FalsePositiveSection(count);
    forall i | 0 <= i < |fp|
      ensures !IsMore(fp[i])
    {
      assert fp[i] == [] || fp[i][0] != ' ';
    }
  }

  lemma ConfirmedOverflow(confirmed: seq<CheckResult>)
    ensures (exists i :: 0 <= i < |ConfirmedSection(confirmed)| && IsMore(ConfirmedSection(confirmed)[i])) <==>
            |confirmed| > DeadLimit
  {
    if confirmed != [] {
      forall c: CheckResult
        ensures !IsMore(DeadLine(c))
      {
        assert DeadLine(c)[2] == '[';
      }
      forall n: nat
        ensures IsMore(MoreDead(n))
      {
        assert MoreDead(n)[..3] == "  .";
      }
      var listing := Listing(confirmed, DeadLimit, DeadLine, MoreDead);
      ListingOverflow(confirmed, DeadLimit, DeadLine, MoreDead, IsMore);
      assert ConfirmedTitle[0] == '\U{786E}';
      assert NoMore([ConfirmedTitle]) && NoMore([""]);
      MoreInConcat3([ConfirmedTitle], listing, [""]);
      assert ConfirmedSection(confirmed) == [ConfirmedTitle] + listing + [""];
    }
  }

  /** An overflow line is in a concatenation exactly when it is in the
      middle part, if the outer parts have none. */
  lemma MoreInConcat3(a: seq<string>, b: seq<string>, c: seq<string>)
    requires NoMore(a) && NoMore(c)
    ensures (exists i :: 0 <= i < |a + b + c| && IsMore((a + b + c)[i])) <==> (exists i :: 0 <= i < |b| && IsMore(b[i]))
  {
    var abc := a + b + c;
    if exists i :: 0 <= i < |abc| && IsMore(abc[i]) {
      var i :| 0 <= i < |abc| && IsMore(abc[i]);
      if i < |a| {
        assert false;
      } else if i < |a| + |b| {
        assert abc[i] == b[i - |a|];
      } else {
        assert false;
      }
    }
    if exists i :: 0 <= i < |b| && IsMore(b[i]) {
      var i :| 0 <= i < |b| && IsMore(b[i]);
      assert abc[|a| + i] == b[i];
    }
  }

  // ------------------------------------------------------------ a folder

  function Add(a: Summary, b: Summary): Summary
  {
    Summary(a.alive + b.alive, a.dead + b.dead, a.timeout + b.timeout, a.error + b.error, a.skipped + b.skipped)
  }

  /** The per-status totals over the files. */
  function SumSummaries(files: seq<FileResult>): Summary
  {
    if files == [] then Summary(0, 0, 0, 0, 0)
    else Add(SumSummaries(files[..|files| - 1]), files[|files| - 1].summary)
  }

  function SumUniqueLinks(files: seq<FileResult>): nat
  {
    if files == [] then 0 else SumUniqueLinks(files[..|files| - 1]) + files[|files| - 1].uniqueLinks
  }

  predicate HasDead(f: FileResult) { f.summary.dead > 0 }

  /** When every file's summary covers its distinct links, the folder
      totals cover all of them; and the dead total is zero exactly when no
      file is listed as having dead links. */
  lemma {:induction false} FolderTotals(files: seq<FileResult>)
    requires forall i :: 0 <= i < |files| ==> Total(files[i].summary) == files[i].uniqueLinks
    ensures Total(SumSummaries(files)) == SumUniqueLinks(files)
    ensures SumSummaries(files).dead == 0 <==> Filter(files, HasDead) == []
  {
    if files != [] {
      var front := files[..|files| - 1];
      var f := files[|files| - 1];
      assert files == front + [f];
      FolderTotals(front);
      FilterAppend(front, f, HasDead);
    }
  }

  /** "  name: N dead links" */
  function FileLine(f: FileResult): string
  {
    "  " + Basename(f.file) + ": " + NatToString(f.summary.dead) + " \U{4E2A}\U{6B7B}\U{94FE}"
  }

  function MoreFiles(n: nat): string
  {
    "  ... \U{8FD8}\U{6709} " + NatToString(n) + " \U{4E2A}\U{6587}\U{4EF6}"
  }

  const FileLimit: nat := 10

  function FolderHeader(result: FolderResult, totals: Summary): seq<string>
  {
    ["\U{6587}\U{4EF6}\U{5939}: " + result.folder,
     "\U{603B}\U{6587}\U{4EF6}\U{6570}: " + NatToString(result.totalFiles),
     "",
     "\U{603B}\U{4F53}\U{6458}\U{8981}:",
     "  \U{2713} \U{6B63}\U{5E38}: " + NatToString(totals.alive),
     "  \U{2717} \U{6B7B}\U{94FE}: " + NatToString(totals.dead),
     "  \U{23F1} \U{8D85}\U{65F6}: " + NatToString(totals.timeout),
     "  \U{26A0} \U{9519}\U{8BEF}: " + NatToString(totals.error),
     "  \U{2298} \U{8DF3}\U{8FC7}: " + NatToString(totals.skipped),
     ""]
  }

  const DeadFilesTitle: string := "\U{5305}\U{542B}\U{6B7B}\U{94FE}\U{7684}\U{6587}\U{4EF6}:"

  function DeadFilesSection(deadFiles: seq<FileResult>): seq<string>
  {
    if deadFiles == [] then [] else [DeadFilesTitle] + Listing(deadFiles, FileLimit, FileLine, MoreFiles)
  }

  /** The lines of the folder summary. */
  function FolderLines(result: FolderResult): seq<string>
  {
    FolderHeader(result, SumSummaries(result.files)) + DeadFilesSection(Filter(result.files, HasDead))
  }

  /** The totals loop of _format_folder_summary. */
  method SumTotals(files: seq<FileResult>) returns (totals: Summary)
    ensures totals == SumSummaries(files)
  {
    var totalAlive: nat, totalDead: nat, totalTimeout: nat, totalError: nat, totalSkipped: nat := 0, 0, 0, 0, 0;
    for i := 0 to |files|
      invariant Summary(totalAlive, totalDead, totalTimeout, totalError, totalSkipped) == SumSummaries(files[..i])
    {
      assert files[..i + 1][..i] == files[..i];
      var summary := files[i].summary;
      totalAlive := totalAlive + summary.alive;
      totalDead := totalDead + summary.dead;
      totalTimeout := totalTimeout + summary.timeout;
      totalError := totalError + summary.error;
      totalSkipped := totalSkipped + summary.skipped;
    }
    TakeAll(files, |files|);
    totals := Summary(totalAlive, totalDead, totalTimeout, totalError, totalSkipped);
  }

  /** _format_folder_summary: totals summed file by file, then the listing
      of files with dead links. */
  method FormatFolderSummary(result: FolderResult) returns (lines: seq<string>, text: string)
    ensures lines == FolderLines(result)
    ensures text == Join(lines, "\n")
  {
    var totals := SumTotals(result.files);
    var header := FolderHeader(result, totals);
    var filesWithDeadLinks := Filter(result.files, HasDead);
    var section: seq<string> := [];
    if filesWithDeadLinks != [] {
      section := AppendListing([DeadFilesTitle], filesWithDeadLinks, FileLimit, FileLine, MoreFiles);
    }
    lines := header + section;
    text := Join(lines, "\n");
  }

  /** The folder summary lists the first min(10, n) files with dead links
      in order, and ends with the overflow line exactly when there are
      more than 10. */
  lemma FolderListsFirstDeadFiles(result: FolderResult)
    requires Filter(result.files, HasDead) != []
    ensures var deadFiles := Filter(result.files, HasDead);
      var lines := FolderLines(result);
      var start := |FolderHeader(result, SumSummaries(result.files))| + 1;
      |lines| == start + Min(|deadFiles|, FileLimit) + (if |deadFiles| > FileLimit then 1 else 0) &&
      lines[start - 1] == DeadFilesTitle &&
      (forall k :: 0 <= k < Min(|deadFiles|, FileLimit) ==> lines[start + k] == FileLine(deadFiles[k])) &&
      (|deadFiles| > FileLimit ==> lines[|lines| - 1] == MoreFiles(|deadFiles| - FileLimit))
  {
    ListingShape(Filter(result.files, HasDead), FileLimit, FileLine, MoreFiles);
  }

  // ------------------------------------------------------------ the window

  /** Whether a dropped path is taken: the first path only, when it is an
      HTML file (by a case-insensitive suffix) or a directory. */
  function DroppedPath(paths: seq<string>, isFile: string -> bool, isDir: string -> bool): (r: Option<string>)
    ensures r.Some? ==> paths != [] && r.value == paths[0]
    ensures paths != [] && isDir(paths[0]) ==> r == Some(paths[0])
    ensures paths != [] && !isDir(paths[0]) ==> (r.Some? <==> isFile(paths[0]) && IsHtmlName(paths[0]))
  {
    if paths == [] then None
    else
      var path := paths[0];
      if isFile(path) && IsHtmlName(path) then Some(path)
      else if isDir(path) then Some(path)
      else None
  }

  predicate IsHtmlName(path: string)
  {
    EndsWith(Lower(path), ".html") || EndsWith(Lower(path), ".htm")
  }

  /** Paths after the first never matter. */
  lemma DropLooksAtFirst(path: string, rest: seq<string>, isFile: string -> bool, isDir: string -> bool)
    ensures DroppedPath([path] + rest, isFile, isDir) == DroppedPath([path], isFile, isDir)
  {
    assert ([path] + rest)[0] == path;
  }

  datatype StartOutcome = AlreadyChecking | NoPath | PathMissing | Ran

  /** How the check itself ended: a report written, a folder without HTML
      files, or an exception. */
  datatype WorkOutcome = Reported(outputFile: string) | NoHtmlFiles | WorkFailed(message: string)

  class Window {
    var isChecking: bool
    var pathText: string
    var lastOutputFile: Option<string>

    constructor()
      ensures !isChecking && pathText == "" && lastOutputFile == None
    {
      isChecking := false;
      pathText := "";
      lastOutputFile := None;
    }

    /** start_checking. `pathExists` is os.path.exists of the stripped
        path, `work` how the check ends, and `clickDuringWork` whether the
        button is pressed again while the check runs (the nested attempt's
        outcome is returned in `nested`). */
    method StartChecking(pathExists: bool, work: WorkOutcome, clickDuringWork: bool)
      returns (r: StartOutcome, nested: Option<StartOutcome>)
      modifies this
      decreases if clickDuringWork then 1 else 0
      ensures old(isChecking) ==> r == AlreadyChecking
      ensures !old(isChecking) && IsBlank(old(pathText)) ==> r == NoPath
      ensures !old(isChecking) && !IsBlank(old(pathText)) && !pathExists ==> r == PathMissing
      ensures r != Ran ==> isChecking == old(isChecking) && lastOutputFile == old(lastOutputFile) && nested == None
      ensures r == Ran <==> !old(isChecking) && !IsBlank(old(pathText)) && pathExists
      ensures r == Ran ==> !isChecking && lastOutputFile == (if work.Reported? then Some(work.outputFile) else None)
      ensures r == Ran && clickDuringWork ==> nested == Some(AlreadyChecking)
      ensures pathText == old(pathText)
    {
      nested := None;
      if isChecking {
        return AlreadyChecking, nested;
      }
      var path := Strip(pathText);
      if path == [] {
        return NoPath, nested;
      }
      if !pathExists {
        return PathMissing, nested;
      }
      isChecking := true;
      lastOutputFile := None;
      if clickDuringWork {
        var again, _ := StartChecking(pathExists, work, false);
        nested := Some(again);
      }
      if work.Reported? {
        lastOutputFile := Some(work.outputFile);
      }
      isChecking := false;
      return Ran, nested;
    }

    /** handle_drop */
    method HandleDrop(paths: seq<string>, isFile: string -> bool, isDir: string -> bool)
      modifies this
      ensures pathText == if DroppedPath(paths, isFile, isDir).Some? then DroppedPath(paths, isFile, isDir).value else old(pathText)
      ensures isChecking == old(isChecking) && lastOutputFile == old(lastOutputFile)
    {
      if paths != [] {
        var path := paths[0];
        if isFile(path) && IsHtmlName(path) {
          pathText := path;
        } else if isDir(path) {
          pathText := path;
        }
      }
    }
  }
}
