/** Listing the field names of every CSV and Excel file in a folder into one
    summary CSV. Directory listings, file reads and the existence test are
    inputs: a listing of entries, per-file read outcomes and the set of names
    already present in the folder. */
module FileFieldExtractor {
  import opened Wrappers
  import opened Text
  import opened Seqs
  import opened Paths

  const SupportedExtensions: set<string> := {".csv", ".xlsx", ".xlsm"}

  const DefaultEncodings: seq<string> := ["utf-8-sig", "utf-8", "gbk", "latin1"]

  /** _is_supported: the lower-cased extension is a supported one. */
  predicate IsSupported(filename: string)
  {
    Lower(Extension(filename)) in SupportedExtensions
  }

  lemma LowerSuffix(s: string, suffix: string)
    requires EndsWith(s, suffix)
    ensures EndsWith(Lower(s), Lower(suffix))
  {
    var d := |s| - |suffix|;
    assert forall k :: 0 <= k < |suffix| ==> Lower(s)[d + k] == LowerChar(suffix[k]);
  }

  /** A supported file name ends, case-insensitively, in a supported extension. */
  lemma SupportedEndsWith(filename: string)
    requires IsSupported(filename)
    ensures exists e :: e in SupportedExtensions && EndsWith(Lower(filename), e)
  {
    var (root, ext) := Splitext(filename);
    assert EndsWith(filename, ext) by {
      assert filename[|root|..] == ext;
    }
    LowerSuffix(filename, ext);
  }

  /** Conversely, a name whose extension (as splitext finds it) is a
      supported one in any case is supported. */
  lemma SupportedName(root: string, ext: string)
    requires root != [] && root[|root| - 1] != '.' && !IsSep(root[|root| - 1])
    requires |ext| >= 1 && ext[0] == '.'
    requires forall k :: 1 <= k < |ext| ==> ext[k] != '.' && !IsSep(ext[k])
    requires Lower(ext) in SupportedExtensions
    ensures IsSupported(root + ext)
  {
    SplitextOf(root, ext);
  }

  // ---------------------------------------------------------- file listing

  /** Python's order on strings: by code point, a proper prefix first. */
  predicate StrLeq(a: string, b: string)
    decreases |a|
  {
    a == [] || (b != [] && (a[0] < b[0] || (a[0] == b[0] && StrLeq(a[1..], b[1..]))))
  }

  lemma {:induction false} StrLeqTotal(a: string, b: string)
    ensures StrLeq(a, b) || StrLeq(b, a)
    decreases |a|
  {
    if a != [] && b != [] && a[0] == b[0] {
      StrLeqTotal(a[1..], b[1..]);
    }
  }

  lemma {:induction false} StrLeqTrans(a: string, b: string, c: string)
    requires StrLeq(a, b) && StrLeq(b, c)
    ensures StrLeq(a, c)
    decreases |a|
  {
    if a != [] && b != [] && c != [] && a[0] == b[0] && b[0] == c[0] {
      StrLeqTrans(a[1..], b[1..], c[1..]);
    }
  }

  predicate Sorted(s: seq<string>)
  {
    forall i, j :: 0 <= i < j < |s| ==> StrLeq(s[i], s[j])
  }

  /** Inserts x before the first element it does not follow. */
  function Insert(x: string, s: seq<string>): (r: seq<string>)
    requires Sorted(s)
    ensures Sorted(r) && multiset(r) == multiset(s) + multiset{x}
  {
    if s == [] then [x]
    else if StrLeq(x, s[0]) then
      InsertFront(x, s);
      [x] + s
    else
      var rest := Insert(x, s[1..]);
      StrLeqTotal(x, s[0]);
      assert s == [s[0]] + s[1..];
      InsertAfter(s[0], rest, x, s[1..]);
      [s[0]] + rest
  }

  /** An element no greater than any of a sorted sequence may go first. */
  lemma ConsSorted(x: string, s: seq<string>)
    requires Sorted(s) && forall k :: 0 <= k < |s| ==> StrLeq(x, s[k])
    ensures Sorted([x] + s)
  {
    var r := [x] + s;
    forall i, j | 0 <= i < j < |r|
      ensures StrLeq(r[i], r[j])
    {
      assert r[j] == s[j - 1];
      if i > 0 {
        assert r[i] == s[i - 1];
      }
    }
  }

  lemma InsertFront(x: string, s: seq<string>)
    requires Sorted(s) && s != [] && StrLeq(x, s[0])
    ensures Sorted([x] + s)
  {
    forall k | 0 <= k < |s|
      ensures StrLeq(x, s[k])
    {
      if k > 0 {
        StrLeqTrans(x, s[0], s[k]);
      }
    }
    ConsSorted(x, s);
  }

  lemma InsertAfter(y: string, rest: seq<string>, x: string, tail: seq<string>)
    requires Sorted(rest) && Sorted([y] + tail)
    requires multiset(rest) == multiset(tail) + multiset{x} && StrLeq(y, x)
    ensures Sorted([y] + rest)
  {
    forall j | 0 <= j < |rest|
      ensures StrLeq(y, rest[j])
    {
      assert rest[j] in multiset(rest);
      if rest[j] != x {
        assert rest[j] in multiset(tail);
        var k :| 0 <= k < |tail| && tail[k] == rest[j];
        var t := [y] + tail;
        assert t[0] == y && t[k + 1] == tail[k];
        assert StrLeq(t[0], t[k + 1]);
      }
    }
    ConsSorted(y, rest);
  }

  /** files.sort() */
  function SortStrings(s: seq<string>): (r: seq<string>)
    ensures Sorted(r) && multiset(r) == multiset(s)
  {
    if s == [] then []
    else
      assert s == s[..|s| - 1] + [s[|s| - 1]];
      Insert(s[|s| - 1], SortStrings(s[..|s| - 1]))
  }

  /** A directory entry: its joined path, its bare name, and whether it is a
      regular file (os.walk lists files only). */
  datatype Entry = Entry(path: string, name: string, isFile: bool)

  /** The paths _collect_files keeps, in listing order. */
  function Wanted(entries: seq<Entry>, includeSubfolders: bool): seq<string>
  {
    if entries == [] then []
    else
      var e := entries[|entries| - 1];
      Wanted(entries[..|entries| - 1], includeSubfolders) +
      (if (includeSubfolders || e.isFile) && IsSupported(e.name) then [e.path] else [])
  }

  /** _collect_files: the supported files of the listing, sorted. */
  method CollectFiles(entries: seq<Entry>, includeSubfolders: bool) returns (files: seq<string>)
    ensures files == SortStrings(Wanted(entries, includeSubfolders))
    ensures Sorted(files) && multiset(files) == multiset(Wanted(entries, includeSubfolders))
  {
    files := [];
    for i := 0 to |entries|
      invariant files == Wanted(entries[..i], includeSubfolders)
    {
      assert entries[..i + 1][..i] == entries[..i];
      var entry := entries[i];
      if (includeSubfolders || entry.isFile) && IsSupported(entry.name) {
        files := files + [entry.path];
      }
    }
    TakeAll(entries, |entries|);
    files := SortStrings(files);
  }

  // ---------------------------------------------------------- reading fields

  const CsvDecodeFailure: string := "\U{65E0}\U{6CD5}\U{89E3}\U{6790}CSV\U{6587}\U{4EF6}\U{FF08}\U{7F16}\U{7801}\U{53EF}\U{80FD}\U{4E0D}\U{53D7}\U{652F}\U{6301}\U{FF09}: "
  const ExcelOpenFailure: string := "\U{65E0}\U{6CD5}\U{8BFB}\U{53D6}Excel\U{6587}\U{4EF6}: "
  const UnsupportedType: string := "\U{6682}\U{4E0D}\U{652F}\U{6301}\U{7684}\U{6587}\U{4EF6}\U{7C7B}\U{578B}: "
  const SheetFailure: string := "\U{8BFB}\U{53D6}\U{5931}\U{8D25}"

  /** The outcome of the encoding tried first that parses: its columns, or
      the last failure message ("None" when no encoding was tried). */
  function FirstDecoding(encodings: seq<string>, attempt: string -> Result<seq<string>, string>,
                         last: string): Result<seq<string>, string>
  {
    if encodings == [] then Err(CsvDecodeFailure + last)
    else if attempt(encodings[0]).Ok? then attempt(encodings[0])
    else FirstDecoding(encodings[1..], attempt, attempt(encodings[0]).error)
  }

  /** The columns come from the first encoding that parses, and only when
      none parses is the result an error. */
  lemma {:induction false} FirstDecodingIsFirst(encodings: seq<string>, attempt: string -> Result<seq<string>, string>, last: string)
    ensures var r := FirstDecoding(encodings, attempt, last);
      (r.Ok? <==> exists i :: 0 <= i < |encodings| && attempt(encodings[i]).Ok?) &&
      (r.Ok? ==> exists i :: 0 <= i < |encodings| && r == attempt(encodings[i]) &&
                   forall j :: 0 <= j < i ==> attempt(encodings[j]).Err?)
  {
    if encodings != [] && attempt(encodings[0]).Err? {
      FirstDecodingIsFirst(encodings[1..], attempt, attempt(encodings[0]).error);
      var r := FirstDecoding(encodings, attempt, last);
      if r.Ok? {
        var i :| 0 <= i < |encodings| - 1 && r == attempt(encodings[1..][i]) &&
                 forall j :: 0 <= j < i ==> attempt(encodings[1..][j]).Err?;
        assert r == attempt(encodings[i + 1]);
        assert forall j :: 0 <= j < i + 1 ==> attempt(encodings[j]).Err? by {
          assert forall j :: 1 <= j < i + 1 ==> encodings[j] == encodings[1..][j - 1];
        }
      }
      if exists i :: 0 <= i < |encodings| && attempt(encodings[i]).Ok? {
        var i :| 0 <= i < |encodings| && attempt(encodings[i]).Ok?;
        assert encodings[1..][i - 1] == encodings[i];
      }
    }
  }

  /** _extract_from_csv: the encodings tried in order; `attempt` is the
      header read with one encoding. */
  method ExtractFromCsv(encodings: seq<string>, attempt: string -> Result<seq<string>, string>)
    returns (r: Result<seq<string>, string>)
    ensures r == FirstDecoding(encodings, attempt, "None")
  {
    var lastException := "None";
    for i := 0 to |encodings|
      invariant FirstDecoding(encodings[i..], attempt, lastException) == FirstDecoding(encodings, attempt, "None")
    {
      assert encodings[i..][1..] == encodings[i + 1..];
      var outcome := attempt(encodings[i]);
      if outcome.Ok? {
        return outcome;
      }
      lastException := outcome.error;
    }
    return Err(CsvDecodeFailure + lastException);
  }

  /** The fields one sheet contributes: "sheet: column" per column, or one
      failure entry. */
  function SheetFields(sheet: string, parsed: Result<seq<string>, string>): (r: seq<string>)
    ensures parsed.Ok? ==> |r| == |parsed.value|
    ensures parsed.Err? ==> |r| == 1
    ensures forall f :: f in r ==> sheet + ": " <= f
  {
    if parsed.Ok? then
      seq(|parsed.value|, k requires 0 <= k < |parsed.value| => sheet + ": " + parsed.value[k])
    else [sheet + ": " + SheetFailure + " (" + parsed.error + ")"]
  }

  function ExcelFields(sheets: seq<(string, Result<seq<string>, string>)>): (r: seq<string>)
  {
    if sheets == [] then []
    else ExcelFields(sheets[..|sheets| - 1]) + SheetFields(sheets[|sheets| - 1].0, sheets[|sheets| - 1].1)
  }

  /** Every Excel field names its sheet first. */
  lemma {:induction false} ExcelFieldsNamed(sheets: seq<(string, Result<seq<string>, string>)>)
    ensures forall f :: f in ExcelFields(sheets) ==>
      exists s :: 0 <= s < |sheets| && sheets[s].0 + ": " <= f
  {
    if sheets != [] {
      var front := sheets[..|sheets| - 1];
      ExcelFieldsNamed(front);
      forall f | f in ExcelFields(sheets)
        ensures exists s :: 0 <= s < |sheets| && sheets[s].0 + ": " <= f
      {
        if f in ExcelFields(front) {
          var s :| 0 <= s < |front| && front[s].0 + ": " <= f;
          assert front[s] == sheets[s];
        } else {
          assert f in SheetFields(sheets[|sheets| - 1].0, sheets[|sheets| - 1].1);
        }
      }
    }
  }

  /** _extract_from_excel: `workbook` is the opened workbook's sheets with
      each sheet's header read, or the failure to open it. */
  method ExtractFromExcel(workbook: Result<seq<(string, Result<seq<string>, string>)>, string>)
    returns (r: Result<seq<string>, string>)
    ensures workbook.Err? ==> r == Err(ExcelOpenFailure + workbook.error)
    ensures workbook.Ok? ==> r == Ok(ExcelFields(workbook.value))
  {
    if workbook.Err? {
      return Err(ExcelOpenFailure + workbook.error);
    }
    var sheets := workbook.value;
    var fields := [];
    for i := 0 to |sheets|
      invariant fields == ExcelFields(sheets[..i])
    {
      assert sheets[..i + 1][..i] == sheets[..i];
      fields := fields + SheetFields(sheets[i].0, sheets[i].1);
    }
    TakeAll(sheets, |sheets|);
    return Ok(fields);
  }

  /** _extract_fields_from_file: the reader is chosen by the lower-cased
      extension. */
  function ExtractFieldsFromFile(filePath: string, csv: Result<seq<string>, string>,
                                 excel: Result<seq<string>, string>): (r: Result<seq<string>, string>)
    ensures Lower(Extension(filePath)) == ".csv" ==> r == csv
    ensures Lower(Extension(filePath)) in {".xlsx", ".xlsm"} ==> r == excel
    ensures !IsSupported(filePath) ==> r == Err(UnsupportedType + Lower(Extension(filePath)))
  {
    var extension := Lower(Extension(filePath));
    if extension == ".csv" then csv
    else if extension in {".xlsx", ".xlsm"} then excel
    else Err(UnsupportedType + extension)
  }

  // ---------------------------------------------------------------- tallies

  function FieldsOf(outcome: Result<seq<string>, string>): seq<string>
  {
    if outcome.Ok? then outcome.value else []
  }

  /** details: each file with its fields, [] for a file that failed. */
  function Details(files: seq<string>, extract: string -> Result<seq<string>, string>): (r: seq<(string, seq<string>)>)
    ensures |r| == |files|
    ensures forall i :: 0 <= i < |files| ==> r[i] == (files[i], FieldsOf(extract(files[i])))
  {
    seq(|files|, i requires 0 <= i < |files| => (files[i], FieldsOf(extract(files[i]))))
  }

  /** errors: one "path: message" entry per failing file, in file order. */
  function Errors(files: seq<string>, extract: string -> Result<seq<string>, string>): seq<string>
  {
    if files == [] then []
    else
      var f := files[|files| - 1];
      Errors(files[..|files| - 1], extract) + (if extract(f).Err? then [f + ": " + extract(f).error] else [])
  }

  function Fails(extract: string -> Result<seq<string>, string>): string -> bool
  {
    f => extract(f).Err?
  }

  /** Each failing file contributes exactly one error. */
  lemma {:induction false} ErrorsCount(files: seq<string>, extract: string -> Result<seq<string>, string>)
    ensures |Errors(files, extract)| == CountIf(files, Fails(extract))
  {
    if files != [] {
      ErrorsCount(files[..|files| - 1], extract);
    }
  }

  /** Sum of the field-list lengths. */
  function FieldTotal(details: seq<(string, seq<string>)>): nat
  {
    if details == [] then 0 else FieldTotal(details[..|details| - 1]) + |details[|details| - 1].1|
  }

  lemma FieldTotalSnoc(details: seq<(string, seq<string>)>, i: nat)
    requires i < |details|
    ensures FieldTotal(details[..i + 1]) == FieldTotal(details[..i]) + |details[i].1|
  {
    assert details[..i + 1][..i] == details[..i];
  }

  /** A failing file adds nothing to the total. */
  lemma {:induction false} FieldTotalSuccesses(files: seq<string>, extract: string -> Result<seq<string>, string>)
    requires forall f :: f in files ==> extract(f).Err?
    ensures FieldTotal(Details(files, extract)) == 0
  {
    if files != [] {
      var front := files[..|files| - 1];
      FieldTotalSuccesses(front, extract);
      assert Details(files, extract)[..|front|] == Details(front, extract);
    }
  }

  function Succeeds(extract: string -> Result<seq<string>, string>): string -> bool
  {
    f => extract(f).Ok?
  }

  /** Appending one file adds its field count to the total. */
  lemma DetailsSnoc(files: seq<string>, f: string, extract: string -> Result<seq<string>, string>)
    ensures FieldTotal(Details(files + [f], extract)) == FieldTotal(Details(files, extract)) + |FieldsOf(extract(f))|
  {
    assert Details(files + [f], extract)[..|files|] == Details(files, extract);
  }

  /** total_fields counts the fields of the files that were read: the
      failing ones add nothing. */
  lemma {:induction false} FieldTotalOfSuccesses(files: seq<string>, extract: string -> Result<seq<string>, string>)
    ensures FieldTotal(Details(files, extract)) == FieldTotal(Details(Filter(files, Succeeds(extract)), extract))
  {
    if files != [] {
      var front := files[..|files| - 1];
      var f := files[|files| - 1];
      assert files == front + [f];
      FieldTotalOfSuccesses(front, extract);
      DetailsSnoc(front, f, extract);
      var g := Filter(front, Succeeds(extract));
      if extract(f).Ok? {
        assert Filter(files, Succeeds(extract)) == g + [f];
        DetailsSnoc(g, f, extract);
      } else {
        assert Filter(files, Succeeds(extract)) == g;
      }
    }
  }

  // ---------------------------------------------------------------- output

  const BaseName: string := "file_fields_summary.csv"

  /** The k-th name _build_output_path tries. */
  function SummaryName(k: nat): string
  {
    if k == 0 then BaseName else "file_fields_summary_" + NatToString(k) + ".csv"
  }

  lemma SummaryNameInjective(i: nat, j: nat)
    requires SummaryName(i) == SummaryName(j)
    ensures i == j
  {
    if i != 0 && j != 0 {
      var a := SummaryName(i);
      var b := SummaryName(j);
      assert a[20..|a| - 4] == NatToString(i);
      assert b[20..|b| - 4] == NatToString(j);
      NatToStringInjective(i, j);
    }
  }

  lemma SummaryNamesBound(taken: set<string>, n: nat)
    requires forall j :: 0 <= j < n ==> SummaryName(j) in taken
    ensures n <= |taken|
  {
    forall i, j | 0 <= i < j < n
      ensures SummaryName(i) != SummaryName(j)
    {
      if SummaryName(i) == SummaryName(j) {
        SummaryNameInjective(i, j);
      }
    }
    ManyTaken(SummaryName, 0, n, taken);
  }

  /** _build_output_path: the first name of the sequence not present in the
      folder (`taken` holds the names that exist). */
  method BuildOutputPath(folderPath: string, taken: set<string>) returns (outputPath: Target)
    ensures exists k: nat :: outputPath == Into(folderPath, SummaryName(k)) && SummaryName(k) !in taken &&
                        forall j :: 0 <= j < k ==> SummaryName(j) in taken
  {
    var name := BaseName;
    var counter := 1;
    while name in taken
      invariant counter >= 1 && name == SummaryName(counter - 1)
      invariant forall j :: 0 <= j < counter - 1 ==> SummaryName(j) in taken
      decreases |taken| + 1 - counter
    {
      SummaryNamesBound(taken, counter);
      name := SummaryName(counter);
      counter := counter + 1;
    }
    outputPath := Into(folderPath, name);
  }

  const HeaderRow: seq<string> := ["\U{6587}\U{4EF6}\U{540D}", "\U{5B57}\U{6BB5}\U{540D}"]

  /** The summary rows for one file: one per field, or one with an empty
      field. */
  function FileRows(name: string, fields: seq<string>): (r: seq<seq<string>>)
    ensures |r| == if fields == [] then 1 else |fields|
    ensures forall k :: 0 <= k < |r| ==> |r[k]| == 2 && r[k][0] == name
    ensures forall k :: 0 <= k < |fields| ==> r[k][1] == fields[k]
  {
    if fields == [] then [[name, ""]]
    else seq(|fields|, k requires 0 <= k < |fields| => [name, fields[k]])
  }

  /** The rows after the header, file by file. */
  function BodyRows(details: seq<(string, seq<string>)>, relName: string -> string): seq<seq<string>>
  {
    if details == [] then []
    else BodyRows(details[..|details| - 1], relName) + FileRows(relName(details[|details| - 1].0), details[|details| - 1].1)
  }

  /** One row per field, plus one for each file without fields. */
  lemma {:induction false} BodyRowsCount(details: seq<(string, seq<string>)>, relName: string -> string)
    ensures |BodyRows(details, relName)| == FieldTotal(details) + CountIf(details, NoFields())
    ensures forall row :: row in BodyRows(details, relName) ==> |row| == 2
  {
    if details != [] {
      BodyRowsCount(details[..|details| - 1], relName);
    }
  }

  function NoFields(): ((string, seq<string>)) -> bool
  {
    (d: (string, seq<string>)) => d.1 == []
  }

  lemma BodyRowsSnoc(details: seq<(string, seq<string>)>, relName: string -> string, i: nat)
    requires i < |details|
    ensures BodyRows(details[..i + 1], relName) ==
            BodyRows(details[..i], relName) + FileRows(relName(details[i].0), details[i].1)
  {
    assert details[..i + 1][..i] == details[..i];
  }

  /** The rows written for one file, after those already written. */
  method AppendFileRows(rows: seq<seq<string>>, name: string, fields: seq<string>)
    returns (out: seq<seq<string>>)
    ensures out == rows + FileRows(name, fields)
  {
    out := rows;
    if fields != [] {
      ghost var fileRows := FileRows(name, fields);
      for j := 0 to |fields|
        invariant out == rows + fileRows[..j]
      {
        assert fileRows[..j + 1] == fileRows[..j] + [[name, fields[j]]];
        out := out + [[name, fields[j]]];
      }
      assert fileRows[..|fields|] == fileRows;
    } else {
      out := out + [[name, ""]];
    }
  }

  /** _write_result_csv's loops: the header, then each file's rows. */
  method WriteResultRows(details: seq<(string, seq<string>)>, relName: string -> string)
    returns (rows: seq<seq<string>>)
    ensures rows == [HeaderRow] + BodyRows(details, relName)
  {
    var body := [];
    for i := 0 to |details|
      invariant body == BodyRows(details[..i], relName)
    {
      BodyRowsSnoc(details, relName, i);
      body := AppendFileRows(body, relName(details[i].0), details[i].1);
    }
    TakeAll(details, |details|);
    rows := [HeaderRow] + body;
  }

  /** The per-file pass of extract_fields: details, errors and the field
      total. */
  method Tally(files: seq<string>, extract: string -> Result<seq<string>, string>)
    returns (details: seq<(string, seq<string>)>, errors: seq<string>, totalFields: nat)
    ensures details == Details(files, extract)
    ensures errors == Errors(files, extract)
    ensures totalFields == FieldTotal(details)
  {
    details, errors, totalFields := [], [], 0;
    for i := 0 to |files|
      invariant details == Details(files[..i], extract)
      invariant errors == Errors(files[..i], extract)
      invariant totalFields == FieldTotal(details)
    {
      var filePath := files[i];
      var outcome := extract(filePath);
      assert Details(files[..i + 1], extract) == details + [(filePath, FieldsOf(outcome))];
      FieldTotalSnoc(Details(files[..i + 1], extract), i);
      assert Details(files[..i + 1], extract)[..i] == details;
      assert files[..i + 1][..i] == files[..i];
      if outcome.Ok? {
        details := details + [(filePath, outcome.value)];
        totalFields := totalFields + |outcome.value|;
      } else {
        errors := errors + [filePath + ": " + outcome.error];
        details := details + [(filePath, [])];
      }
    }
    TakeAll(files, |files|);
  }

  lemma EmptyPermutation(a: seq<string>, b: seq<string>)
    requires multiset(a) == multiset(b)
    ensures a == [] <==> b == []
  {
    assert |a| == |multiset(a)| && |b| == |multiset(b)|;
  }

  // ---------------------------------------------------------------- extract

  datatype ExtractError = NotAFolder | BadHeaderRow | NoSupportedFiles

  datatype Report = Report(outputFile: Target, rows: seq<seq<string>>, details: seq<(string, seq<string>)>,
                           processedFiles: nat, errors: seq<string>, totalFields: nat)

  /** An extractor with its list of encodings to try. */
  class Extractor {
    var encodings: seq<string>

    /** An empty list of encodings means the default list. */
    constructor(encodings: seq<string>)
      ensures this.encodings == if encodings != [] then encodings else DefaultEncodings
    {
      this.encodings := if encodings != [] then encodings else DefaultEncodings;
    }

    /** extract_fields: the three validation errors, then one pass over the
        sorted files. `extract` is the per-file reading, `taken` the names
        present in the folder, `relName` os.path.relpath against it. */
    static method ExtractFields(folderPath: string, isDir: bool, includeSubfolders: bool, headerRow: int,
                                entries: seq<Entry>, extract: string -> Result<seq<string>, string>,
                                taken: set<string>, relName: string -> string)
      returns (r: Result<Report, ExtractError>)
      ensures !isDir ==> r == Err(NotAFolder)
      ensures isDir && headerRow < 1 ==> r == Err(BadHeaderRow)
      ensures isDir && headerRow >= 1 && Wanted(entries, includeSubfolders) == [] ==> r == Err(NoSupportedFiles)
      ensures isDir && headerRow >= 1 && Wanted(entries, includeSubfolders) != [] ==> r.Ok?
      ensures r.Ok? ==>
        var files := SortStrings(Wanted(entries, includeSubfolders));
        files != [] &&
        r.value.details == Details(files, extract) &&
        r.value.processedFiles == |files| &&
        r.value.errors == Errors(files, extract) &&
        r.value.totalFields == FieldTotal(r.value.details) &&
        r.value.rows == [HeaderRow] + BodyRows(r.value.details, relName)
      ensures r.Ok? ==>
        exists k: nat :: r.value.outputFile == Into(folderPath, SummaryName(k)) && SummaryName(k) !in taken &&
                         forall j :: 0 <= j < k ==> SummaryName(j) in taken
    {
      if !isDir {
        return Err(NotAFolder);
      }
      if headerRow < 1 {
        return Err(BadHeaderRow);
      }
      var files := CollectFiles(entries, includeSubfolders);
      EmptyPermutation(files, Wanted(entries, includeSubfolders));
      if files == [] {
        return Err(NoSupportedFiles);
      }
      var totalFiles := |files|;
      var details, errors, totalFields := Tally(files, extract);
      var outputPath := BuildOutputPath(folderPath, taken);
      var rows := WriteResultRows(details, relName);
      return Ok(Report(outputPath, rows, details, totalFiles, errors, totalFields));
    }
  }
}
