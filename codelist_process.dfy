/** The Codelist processor: code-to-display maps built from the CodeList sheet,
    subject-id column names from the Files sheet, and the per-file pass that
    maps configured columns, rewrites `yyyy/m/d` date columns, renames the
    subject-id column and names the output `F-<name>.csv`. */
module CodelistProcess {
  import opened Wrappers
  import opened Text
  import opened Seqs
  import opened Paths
  import opened Tables
  import DateUtils

  /** One row of the CodeList sheet. */
  datatype CodeRow = CodeRow(codelist: string, code: string, display: string)

  /** One row of the Files sheet. */
  datatype FileRow = FileRow(filename: string, subjidField: string)

  /** One row of the Process sheet: which codelist maps which field of which file. */
  datatype RuleRow = RuleRow(filename: string, fieldname: string, codelist: string)

  // ---------------------------------------------------------------- file names

  /** _remove_c_prefix */
  function RemoveCPrefix(name: string): (r: string)
    ensures "C-" <= name ==> "C-" + r == name
    ensures !("C-" <= name) ==> r == name
  {
    if "C-" <= name then name[2..] else name
  }

  /** Exactly one `C-` is removed. */
  lemma RemoveCPrefixOnce(x: string)
    ensures RemoveCPrefix("C-" + x) == x
  {
  }

  /** _add_f_prefix */
  function AddFPrefix(name: string): (r: string)
    ensures "F-" <= r
    ensures "F-" <= name ==> r == name
    ensures !("F-" <= name) ==> r == "F-" + name
  {
    if "F-" <= name then name else "F-" + name
  }

  lemma AddFPrefixIdempotent(name: string)
    ensures AddFPrefix(AddFPrefix(name)) == AddFPrefix(name)
  {
  }

  /** The output file name: the input's basename without extension, one
      leading `C-` removed, `F-` added unless present, then `.csv`. */
  function OutputFileName(inputPath: string): (r: string)
    ensures "F-" <= r && EndsWith(r, ".csv")
  {
    AddFPrefix(RemoveCPrefix(Stem(Basename(inputPath)))) + ".csv"
  }

  /** The folder written to: the one given, else the input's folder. */
  function OutputDir(inputPath: string, outputPath: Option<string>): string
  {
    if outputPath.Some? then outputPath.value else Dirname(inputPath)
  }

  predicate NoSep(s: string) { forall k :: 0 <= k < |s| ==> !IsSep(s[k]) }

  predicate NoDot(s: string) { forall k :: 0 <= k < |s| ==> s[k] != '.' }

  /** `dir/C-AE.csv` is written as `F-AE.csv`. */
  lemma OutputFileNameOfCleaned(dir: string, x: string)
    requires dir == [] || IsSep(dir[|dir| - 1])
    requires x != [] && NoSep(x) && NoDot(x) && !("F-" <= x)
    ensures OutputFileName(dir + ("C-" + x + ".csv")) == "F-" + x + ".csv"
  {
    var name := "C-" + x + ".csv";
    CleanedNameStem(x);
    BasenameOfName(dir, name);
    RemoveCPrefixOnce(x);
  }

  lemma CleanedNameStem(x: string)
    requires x != [] && NoSep(x) && NoDot(x)
    ensures NoSep("C-" + x + ".csv") && Stem("C-" + x + ".csv") == "C-" + x
  {
    var name := "C-" + x + ".csv";
    assert NoSep(name) by {
      assert forall k :: 2 <= k < 2 + |x| ==> name[k] == x[k - 2];
    }
    SplitextOf("C-" + x, ".csv");
  }

  /** The name rules are looked up by: the basename without `.csv`, then
      without one leading `C-`. */
  function RuleStem(inputPath: string): string
  {
    var base := Basename(inputPath);
    var noCsv := if EndsWith(base, ".csv") then base[..|base| - 4] else base;
    RemoveCPrefix(noCsv)
  }

  /** A Process row applies when its FILENAME is the stem, with or without `.csv`. */
  predicate RuleApplies(rule: RuleRow, stem: string)
  {
    rule.filename == stem || rule.filename == stem + ".csv"
  }

  /** Rules written for `AE` or `AE.csv` both apply to `C-AE.csv`. */
  lemma RuleStemOfCleaned(dir: string, x: string)
    requires dir == [] || IsSep(dir[|dir| - 1])
    requires NoSep(x)
    ensures RuleStem(dir + ("C-" + x + ".csv")) == x
    ensures RuleApplies(RuleRow(x, "", ""), RuleStem(dir + ("C-" + x + ".csv")))
    ensures RuleApplies(RuleRow(x + ".csv", "", ""), RuleStem(dir + ("C-" + x + ".csv")))
  {
    var name := "C-" + x + ".csv";
    assert NoSep(name) by {
      assert forall k :: 2 <= k < 2 + |x| ==> name[k] == x[k - 2];
    }
    BasenameOfName(dir, name);
    assert name[..|name| - 4] == "C-" + x;
    RemoveCPrefixOnce(x);
  }

  // ---------------------------------------------------------------- code maps

  /** The display value stored for a code: the text "nan" (a missing cell
      rendered as a string) becomes empty. */
  function Display(value: string): string
  {
    if value == "nan" then "" else value
  }

  /** The map one codelist group builds: its rows in order, each assigning
      code := display. */
  function GroupMap(rows: seq<CodeRow>, name: string): map<string, string>
  {
    if rows == [] then map[]
    else
      var m := GroupMap(rows[..|rows| - 1], name);
      var r := rows[|rows| - 1];
      if r.codelist == name then m[r.code := Display(r.display)] else m
  }

  /** Index of the last row of codelist `name` with code `code`, or -1. */
  function LastCodeRow(rows: seq<CodeRow>, name: string, code: string): (i: int)
    ensures -1 <= i < |rows|
    ensures i >= 0 ==> rows[i].codelist == name && rows[i].code == code
    ensures forall j :: i < j < |rows| ==> !(rows[j].codelist == name && rows[j].code == code)
  {
    if rows == [] then -1
    else if rows[|rows| - 1].codelist == name && rows[|rows| - 1].code == code then |rows| - 1
    else LastCodeRow(rows[..|rows| - 1], name, code)
  }

  /** A code is mapped iff some row of the group carries it; duplicate codes
      keep the last row's value, with "nan" read as empty. */
  lemma {:induction false} GroupMapLookup(rows: seq<CodeRow>, name: string, code: string)
    ensures code in GroupMap(rows, name) <==> LastCodeRow(rows, name, code) >= 0
    ensures LastCodeRow(rows, name, code) >= 0 ==>
              var v := rows[LastCodeRow(rows, name, code)].display;
              GroupMap(rows, name)[code] == (if v == "nan" then "" else v)
  {
    if rows != [] {
      GroupMapLookup(rows[..|rows| - 1], name, code);
    }
  }

  function Names(rows: seq<CodeRow>): set<string>
  {
    set r | r in rows :: r.codelist
  }

  lemma NamesSnoc(rows: seq<CodeRow>, i: nat)
    requires i < |rows|
    ensures Names(rows[..i + 1]) == Names(rows[..i]) + {rows[i].codelist}
  {
    assert rows[..i + 1] == rows[..i] + [rows[i]];
  }

  lemma GroupMapsStep(start: map<string, map<string, string>>, rows: seq<CodeRow>, done: set<string>, name: string)
    ensures (start + map n | n in done :: GroupMap(rows, n))[name := GroupMap(rows, name)]
            == start + map n | n in done + {name} :: GroupMap(rows, n)
  {
  }

  /** Every codelist name with its group's map. */
  function GroupMaps(rows: seq<CodeRow>): map<string, map<string, string>>
  {
    map n | n in Names(rows) :: GroupMap(rows, n)
  }

  // ---------------------------------------------------------------- subject ids

  /** The Files-sheet key: FILENAME stripped, without a `.csv` suffix. */
  function SubjidKey(filename: string): string
  {
    var f := Strip(filename);
    if EndsWith(f, ".csv") then f[..|f| - 4] else f
  }

  /** The entry a Files row contributes, if it names a file and a real field. */
  function SubjidEntry(row: FileRow): seq<(string, string)>
  {
    var key := SubjidKey(row.filename);
    var field := Strip(row.subjidField);
    if key != "" && field != "" && Lower(field) != "nan" then [(key, field)] else []
  }

  function SubjidPairs(rows: seq<FileRow>): seq<(string, string)>
  {
    FlatMap(rows, SubjidEntry)
  }

  /** Every stored entry has a non-empty key and a stripped, non-empty field
      name other than "nan". */
  predicate SubjidMapValid(m: map<string, string>)
  {
    forall k :: k in m ==> GoodEntry(k, m[k])
  }

  predicate GoodEntry(key: string, field: string)
  {
    key != "" && field != "" && Lower(field) != "nan" && Strip(field) == field
  }

  lemma {:induction false} SubjidPairsValid(rows: seq<FileRow>)
    ensures forall p :: p in SubjidPairs(rows) ==> GoodEntry(p.0, p.1)
  {
    if rows != [] {
      SubjidPairsValid(rows[..|rows| - 1]);
      StripIdempotent(rows[|rows| - 1].subjidField);
    }
  }

  /** One more Files row assigned: its entry, if any, is written last. */
  lemma SubjidAssignStep(m: map<string, string>, rows: seq<FileRow>, i: nat, key: string, field: string)
    requires i < |rows| && key == SubjidKey(rows[i].filename) && field == Strip(rows[i].subjidField)
    ensures var before := Assign(m, SubjidPairs(rows[..i]));
      Assign(m, SubjidPairs(rows[..i + 1]))
        == if key != "" && field != "" && Lower(field) != "nan" then before[key := field] else before
  {
    FlatMapSnoc(rows, SubjidEntry, i);
    var e := SubjidEntry(rows[i]);
    AssignConcat(m, SubjidPairs(rows[..i]), e);
    if e == [] {
      assert SubjidPairs(rows[..i]) + e == SubjidPairs(rows[..i]);
    } else {
      assert e[..0] == [];
    }
  }

  /** `AE` and `AE.csv` in the Files sheet name the same file. */
  lemma SubjidKeyDropsCsv(x: string)
    requires x == Strip(x) && !EndsWith(x, ".csv")
    requires x != [] && x[0] != '.'
    ensures SubjidKey(x + ".csv") == SubjidKey(x) == x
  {
    var f := x + ".csv";
    assert f[0] == x[0] && f[|f| - 1] == 'v';
    StripUnchanged(x);
    StripUnchanged(f);
    assert f[..|f| - 4] == x;
  }

  // ---------------------------------------------------------------- cell rewrites

  /** map_value: "nan" becomes empty, a mapped code its display value,
      anything else stays. */
  function MapValue(mapping: map<string, string>, x: string): string
  {
    if x == "nan" then "" else if x in mapping then mapping[x] else x
  }

  /** One Process rule: the field is mapped when present and its codelist known. */
  function ApplyRule(t: Table, rule: RuleRow, codeMappings: map<string, map<string, string>>): (r: Table)
    requires WellFormed(t)
    ensures WellFormed(r) && r.header == t.header && |r.rows| == |t.rows|
    ensures rule.fieldname !in t.header || rule.codelist !in codeMappings ==> r == t
    ensures rule.fieldname in t.header && rule.codelist in codeMappings ==>
              forall i, k :: 0 <= i < |t.rows| && 0 <= k < |t.header| ==>
                r.rows[i][k] == if t.header[k] == rule.fieldname
                                then MapValue(codeMappings[rule.codelist], t.rows[i][k])
                                else t.rows[i][k]
  {
    if rule.fieldname in t.header && rule.codelist in codeMappings then
      var mapping := codeMappings[rule.codelist];
      MapColumns(t, rule.fieldname, x => MapValue(mapping, x))
    else t
  }

  function ApplyRules(t: Table, rules: seq<RuleRow>, codeMappings: map<string, map<string, string>>): (r: Table)
    requires WellFormed(t)
    ensures WellFormed(r) && r.header == t.header && |r.rows| == |t.rows|
  {
    if rules == [] then t else ApplyRule(ApplyRules(t, rules[..|rules| - 1], codeMappings), rules[|rules| - 1], codeMappings)
  }

  /** Columns no rule names are left alone. */
  lemma {:induction false} ApplyRulesUntouched(t: Table, rules: seq<RuleRow>, codeMappings: map<string, map<string, string>>, k: nat)
    requires WellFormed(t) && k < |t.header|
    requires forall r :: r in rules ==> r.fieldname != t.header[k]
    ensures forall i :: 0 <= i < |t.rows| ==> ApplyRules(t, rules, codeMappings).rows[i][k] == t.rows[i][k]
  {
    if rules != [] {
      ApplyRulesUntouched(t, rules[..|rules| - 1], codeMappings, k);
    }
  }

  // ---------------------------------------------------------------- dates

  /** The text matches `^\d{4}/\d{1,2}/\d{1,2}$`. */
  predicate IsSlashDate(v: string)
  {
    var parts := Split(v, '/');
    |parts| == 3 && |parts[0]| == 4 && 1 <= |parts[1]| <= 2 && 1 <= |parts[2]| <= 2
    && AllDigits(parts[0]) && AllDigits(parts[1]) && AllDigits(parts[2])
  }

  /** The `YYYY-MM-DD` shape of a rewritten date. */
  predicate IsHyphenDate(v: string)
  {
    |v| == 10 && v[4] == '-' && v[7] == '-'
    && forall k :: 0 <= k < 10 && k != 4 && k != 7 ==> IsDigit(v[k])
  }

  /** _convert_date_string */
  function ConvertDateString(value: string): (r: string)
    ensures value == "" || value == "nan" ==> r == value
    ensures value != "" && value != "nan" && !IsSlashDate(Strip(value)) ==> r == Strip(value)
    ensures value != "" && value != "nan" && IsSlashDate(Strip(value)) ==> IsHyphenDate(r)
    ensures value != "" && value != "nan" && IsSlashDate(Strip(value)) ==>
              var p := Split(Strip(value), '/');
              r[..4] == p[0] &&
              AllDigits(r[5..7]) && DigitsValue(r[5..7]) == DigitsValue(p[1]) &&
              AllDigits(r[8..]) && DigitsValue(r[8..]) == DigitsValue(p[2])
  {
    if value == "" || value == "nan" then value
    else
      var v := Strip(value);
      if IsSlashDate(v) then
        var parts := Split(v, '/');
        HyphenDateShape(parts[0], parts[1], parts[2]);
        Hyphenated(parts[0], parts[1], parts[2])
      else v
  }

  /** f"{year}-{month}-{day}" after zfill(2) on month and day. */
  function Hyphenated(y: string, m: string, d: string): (v: string)
    requires |y| == 4 && 1 <= |m| <= 2 && 1 <= |d| <= 2
    ensures |v| == 10
  {
    y + "-" + ZFill(m, 2) + "-" + ZFill(d, 2)
  }

  /** The year comes out as written; month and day are padded to two digits
      that read back to the same numbers. */
  lemma HyphenDateShape(y: string, m: string, d: string)
    requires |y| == 4 && 1 <= |m| <= 2 && 1 <= |d| <= 2 && AllDigits(y) && AllDigits(m) && AllDigits(d)
    ensures var v := Hyphenated(y, m, d);
            IsHyphenDate(v) && v[..4] == y &&
            AllDigits(v[5..7]) && DigitsValue(v[5..7]) == DigitsValue(m) &&
            AllDigits(v[8..]) && DigitsValue(v[8..]) == DigitsValue(d)
  {
    var a, b := ZFill(m, 2), ZFill(d, 2);
    ZFillValue(m, 2);
    ZFillValue(d, 2);
    HyphenJoin(y, a, b);
    HyphenParts(y, a, b);
  }

  lemma HyphenParts(y: string, a: string, b: string)
    requires |y| == 4 && |a| == 2 && |b| == 2
    ensures var v := y + "-" + a + "-" + b;
            v[..4] == y && v[5..7] == a && v[8..] == b
  {
  }

  lemma HyphenJoin(y: string, a: string, b: string)
    requires |y| == 4 && |a| == 2 && |b| == 2 && AllDigits(y) && AllDigits(a) && AllDigits(b)
    ensures IsHyphenDate(y + "-" + a + "-" + b)
  {
    var v := y + "-" + a + "-" + b;
    assert v[5] == a[0] && v[6] == a[1] && v[8] == b[0] && v[9] == b[1];
  }

  /** A hyphenated date is not touched again. */
  lemma HyphenDateFixed(v: string)
    requires IsHyphenDate(v)
    ensures ConvertDateString(v) == v
  {
    assert IsDigit(v[0]) && IsDigit(v[9]);
    StripUnchanged(v);
    NoSlashInHyphenDate(v);
    assert Split(v, '/') == [v];
  }

  lemma NoSlashInHyphenDate(v: string)
    requires IsHyphenDate(v)
    ensures '/' !in v
  {
    forall k | 0 <= k < |v|
      ensures v[k] != '/'
    {
      if k != 4 && k != 7 {
        assert IsDigit(v[k]);
      }
    }
  }

  /** Rewriting a cell twice is rewriting it once. */
  lemma ConvertDateStringIdempotent(value: string)
    ensures ConvertDateString(ConvertDateString(value)) == ConvertDateString(value)
  {
    var r := ConvertDateString(value);
    if value != "" && value != "nan" {
      var v := Strip(value);
      if IsSlashDate(v) {
        HyphenDateFixed(r);
      } else {
        StripIdempotent(value);
      }
    }
  }

  /** Where both apply, this rewrite and convert_to_iso8601 agree, unless the
      year starts with 0: convert_to_iso8601 prints int(year) and drops the
      zeros. */
  lemma AgreesWithConvertToIso8601(v: string)
    requires v == Strip(v) && IsSlashDate(v) && v != [] && v[0] != '0'
    ensures ConvertDateString(v) == DateUtils.ConvertToIso8601(v)
  {
    var parts := Split(v, '/');
    SplitCount(v, '/');
    assert '/' in v;
    assert v != "nan";
    assert parts[0] == v[..IndexOf(v, '/')];
    assert parts[0][0] == v[0];
    SlashPartsOfSlashDate(v);
    IsoTextOfDigits(parts[0], parts[1], parts[2]);
    assert !IsBlank(v) by {
      BlankIffAllSpace(v);
      assert IsDigit(v[0]);
    }
    var iso := Hyphenated(parts[0], parts[1], parts[2]);
    assert DateUtils.ConvertToIso8601(v) == iso;
    assert ConvertDateString(v) == iso;
  }

  lemma SlashPartsOfSlashDate(v: string)
    requires IsSlashDate(v)
    ensures var parts := Split(v, '/');
            DateUtils.SlashParts(v) == Some((DigitsValue(parts[0]), DigitsValue(parts[1]), DigitsValue(parts[2])))
  {
    var parts := Split(v, '/');
    ParseDigits(parts[0]);
    ParseDigits(parts[1]);
    ParseDigits(parts[2]);
  }

  lemma IsoTextOfDigits(y: string, m: string, d: string)
    requires |y| == 4 && y[0] != '0' && AllDigits(y)
    requires 1 <= |m| <= 2 && 1 <= |d| <= 2 && AllDigits(m) && AllDigits(d)
    ensures DateUtils.IsoText(DigitsValue(y), DigitsValue(m), DigitsValue(d)) == y + "-" + ZFill(m, 2) + "-" + ZFill(d, 2)
  {
    NatToStringDigits(y);
    PadTwoDigits(m);
    PadTwoDigits(d);
  }

  /** A stripped cell counts as non-empty when it is neither empty nor "nan". */
  predicate NonEmptyCell(v: string)
  {
    v != "" && v != "nan"
  }

  predicate DateCell(v: string)
  {
    NonEmptyCell(v) && IsSlashDate(v)
  }

  /** Column `k` of the first min(100, n) rows, each cell stripped. */
  function Sample(t: Table, k: nat): (s: seq<string>)
    requires WellFormed(t) && k < |t.header|
    ensures |s| == if |t.rows| < 100 then |t.rows| else 100
    ensures forall i :: 0 <= i < |s| ==> s[i] == Strip(t.rows[i][k])
  {
    var n := if |t.rows| < 100 then |t.rows| else 100;
    seq(n, i requires 0 <= i < n => Strip(t.rows[i][k]))
  }

  /** One more sampled cell counted. */
  lemma SampleCountStep(t: Table, k: nat, i: nat, value: string)
    requires WellFormed(t) && k < |t.header| && i < |Sample(t, k)| && value == Strip(t.rows[i][k])
    ensures var s := Sample(t, k);
      CountIf(s[..i + 1], NonEmptyCell) == CountIf(s[..i], NonEmptyCell) + (if NonEmptyCell(value) then 1 else 0) &&
      CountIf(s[..i + 1], DateCell) == CountIf(s[..i], DateCell) + (if DateCell(value) then 1 else 0)
  {
    var s := Sample(t, k);
    CountIfSnoc(s, i, NonEmptyCell);
    CountIfSnoc(s, i, DateCell);
  }

  /** At least 30% of the sampled non-empty cells, and at least one, are dates. */
  predicate IsDateColumn(t: Table, k: nat)
    requires WellFormed(t) && k < |t.header|
  {
    var nonEmpty := CountIf(Sample(t, k), NonEmptyCell);
    var dates := CountIf(Sample(t, k), DateCell);
    nonEmpty > 0 && 10 * dates >= 3 * nonEmpty
  }

  // ---------------------------------------------------------------- subject-id column

  /** The header with every `field` renamed to SUBJID. */
  function RenameHeader(header: seq<string>, field: string): (h: seq<string>)
    ensures |h| == |header|
    ensures forall k :: 0 <= k < |header| ==> h[k] == if header[k] == field then "SUBJID" else header[k]
  {
    seq(|header|, j requires 0 <= j < |header| => if header[j] == field then "SUBJID" else header[j])
  }

  /** _rename_subjid_column: the configured field, when present, becomes SUBJID. */
  function RenameSubjid(t: Table, stem: string, subjidMappings: map<string, string>): (r: Table)
    ensures r.rows == t.rows && |r.header| == |t.header|
    ensures stem !in subjidMappings || subjidMappings[stem] !in t.header ==> r == t
    ensures stem in subjidMappings && subjidMappings[stem] in t.header ==>
              "SUBJID" in r.header &&
              forall k :: 0 <= k < |t.header| ==>
                r.header[k] == if t.header[k] == subjidMappings[stem] then "SUBJID" else t.header[k]
  {
    if stem in subjidMappings && subjidMappings[stem] in t.header then
      Table(RenameHeader(t.header, subjidMappings[stem]), t.rows)
    else t
  }

  // ---------------------------------------------------------------- processor

  class CodelistProcessor {
    var codeMappings: map<string, map<string, string>>
    var subjidMappings: map<string, string>

    predicate Valid()
      reads this
    {
      SubjidMapValid(subjidMappings)
    }

    constructor()
      ensures codeMappings == map[] && subjidMappings == map[]
      ensures Valid()
    {
      codeMappings := map[];
      subjidMappings := map[];
    }

    /** _process_codelist_mappings: one map per CODELISTNAME group, replacing
        any earlier map of that name. */
    method ProcessCodelistMappings(rows: seq<CodeRow>)
      modifies this
      ensures codeMappings == old(codeMappings) + GroupMaps(rows)
      ensures subjidMappings == old(subjidMappings)
    {
      ghost var start := codeMappings;
      var done: set<string> := {};
      for i := 0 to |rows|
        invariant done == Names(rows[..i])
        invariant codeMappings == start + map n | n in done :: GroupMap(rows, n)
        invariant subjidMappings == old(subjidMappings)
      {
        NamesSnoc(rows, i);
        var name := rows[i].codelist;
        if name !in done {
          var mapping := BuildGroupMap(rows, name);
          GroupMapsStep(start, rows, done, name);
          codeMappings := codeMappings[name := mapping];
          done := done + {name};
        }
      }
      TakeAll(rows, |rows|);
    }

    /** The inner loop of _process_codelist_mappings over one group's rows. */
    static method BuildGroupMap(rows: seq<CodeRow>, name: string) returns (mapping: map<string, string>)
      ensures mapping == GroupMap(rows, name)
    {
      mapping := map[];
      for j := 0 to |rows|
        invariant mapping == GroupMap(rows[..j], name)
      {
        assert rows[..j + 1][..j] == rows[..j];
        if rows[j].codelist == name {
          mapping := mapping[rows[j].code := Display(rows[j].display)];
        }
      }
      TakeAll(rows, |rows|);
    }

    /** _process_subjid_mappings: a dict-assignment loop over the Files rows. */
    method ProcessSubjidMappings(rows: seq<FileRow>)
      requires Valid()
      modifies this
      ensures subjidMappings == Assign(old(subjidMappings), SubjidPairs(rows))
      ensures codeMappings == old(codeMappings)
      ensures Valid()
    {
      ghost var m0 := subjidMappings;
      for i := 0 to |rows|
        invariant subjidMappings == Assign(m0, SubjidPairs(rows[..i]))
        invariant codeMappings == old(codeMappings)
      {
        var filenameBase := SubjidKey(rows[i].filename);
        var subjidField := Strip(rows[i].subjidField);
        SubjidAssignStep(m0, rows, i, filenameBase, subjidField);
        if filenameBase != "" && subjidField != "" && Lower(subjidField) != "nan" {
          subjidMappings := subjidMappings[filenameBase := subjidField];
        }
      }
      TakeAll(rows, |rows|);
      SubjidPairsValid(rows);
      AssignKeeps(m0, SubjidPairs(rows), GoodEntry);
    }

    /** The counting loop of _convert_date_formats for one column. */
    static method SampleCounts(t: Table, k: nat) returns (nonEmpty: nat, dates: nat)
      requires WellFormed(t) && k < |t.header|
      ensures nonEmpty == CountIf(Sample(t, k), NonEmptyCell)
      ensures dates == CountIf(Sample(t, k), DateCell)
      ensures dates <= nonEmpty
    {
      var sampleSize := if |t.rows| < 100 then |t.rows| else 100;
      ghost var s := Sample(t, k);
      nonEmpty, dates := 0, 0;
      for i := 0 to sampleSize
        invariant nonEmpty == CountIf(s[..i], NonEmptyCell)
        invariant dates == CountIf(s[..i], DateCell)
        invariant dates <= nonEmpty
      {
        var value := Strip(t.rows[i][k]);
        SampleCountStep(t, k, i, value);
        if value != "" && value != "nan" {
          nonEmpty := nonEmpty + 1;
          if IsSlashDate(value) {
            dates := dates + 1;
          }
        }
      }
      TakeAll(s, sampleSize);
    }

    /** _convert_date_formats: every column whose sample looks like dates has
        each of its cells rewritten; the others are unchanged. */
    static method ConvertDateFormats(t: Table) returns (r: Table)
      requires WellFormed(t)
      ensures WellFormed(r) && r.header == t.header && |r.rows| == |t.rows|
      ensures forall i, k :: 0 <= i < |t.rows| && 0 <= k < |t.header| ==>
                r.rows[i][k] == if IsDateColumn(t, k) then ConvertDateString(t.rows[i][k]) else t.rows[i][k]
    {
      r := t;
      for k := 0 to |t.header|
        invariant ConvertedUpTo(t, r, k)
      {
        ConvertStep(t, r, k);
        var nonEmpty, dates := SampleCounts(r, k);
        if nonEmpty > 0 && 10 * dates >= 3 * nonEmpty {
          r := ConvertColumn(r, k);
        }
      }
    }

    /** The columns before `k` of `r` are converted where `t`'s are date
        columns, the others are still those of `t`. */
    static predicate ConvertedUpTo(t: Table, r: Table, k: nat)
      requires WellFormed(t)
    {
      WellFormed(r) && r.header == t.header && |r.rows| == |t.rows| &&
      (forall i, c :: 0 <= i < |t.rows| && k <= c < |t.header| ==> r.rows[i][c] == t.rows[i][c]) &&
      (forall i, c :: 0 <= i < |t.rows| && 0 <= c < k && c < |t.header| ==>
         r.rows[i][c] == if IsDateColumn(t, c) then ConvertDateString(t.rows[i][c]) else t.rows[i][c])
    }

    /** Column `k` is still sampled as in `t`, and converting it exactly when
        `t`'s is a date column moves the boundary one column on. */
    static lemma ConvertStep(t: Table, r: Table, k: nat)
      requires WellFormed(t) && k < |t.header| && ConvertedUpTo(t, r, k)
      ensures Sample(r, k) == Sample(t, k)
      ensures ConvertedUpTo(t, if IsDateColumn(t, k) then ConvertColumn(r, k) else r, k + 1)
    {
    }

    /** The rows of `t` with column `k` rewritten by ConvertDateString. */
    static function ConvertColumn(t: Table, k: nat): (r: Table)
      requires WellFormed(t) && k < |t.header|
      ensures WellFormed(r) && r.header == t.header && |r.rows| == |t.rows|
      ensures forall i, c :: 0 <= i < |t.rows| && 0 <= c < |t.header| ==>
                r.rows[i][c] == if c == k then ConvertDateString(t.rows[i][c]) else t.rows[i][c]
    {
      Table(t.header, seq(|t.rows|, i requires 0 <= i < |t.rows| => t.rows[i][k := ConvertDateString(t.rows[i][k])]))
    }

    /** process_csv_file on a table already read: rules of the file applied in
        sheet order, then dates, then the subject-id rename; the output goes to
        `outDir/outName`. */
    method ProcessCsvFile(inputPath: string, t: Table, processRules: seq<RuleRow>, outputPath: Option<string>)
      returns (r: Table, outDir: string, outName: string)
      requires WellFormed(t)
      ensures WellFormed(r) && |r.rows| == |t.rows| && |r.header| == |t.header|
      ensures var mapped := ApplyRules(t, Filter(processRules, rule => RuleApplies(rule, RuleStem(inputPath))), codeMappings);
              forall i, k :: 0 <= i < |t.rows| && 0 <= k < |t.header| ==>
                r.rows[i][k] == if IsDateColumn(mapped, k) then ConvertDateString(mapped.rows[i][k]) else mapped.rows[i][k]
      ensures r.header == RenameSubjid(t, RuleStem(inputPath), subjidMappings).header
      ensures outDir == OutputDir(inputPath, outputPath) && outName == OutputFileName(inputPath)
    {
      var stem := RuleStem(inputPath);
      var fileRules := Filter(processRules, rule => RuleApplies(rule, stem));
      var df := t;
      for j := 0 to |fileRules|
        invariant WellFormed(df) && df == ApplyRules(t, fileRules[..j], codeMappings)
      {
        assert fileRules[..j + 1][..j] == fileRules[..j];
        var rule := fileRules[j];
        if rule.fieldname in df.header && rule.codelist in codeMappings {
          var mapping := codeMappings[rule.codelist];
          df := MapColumns(df, rule.fieldname, x => MapValue(mapping, x));
        }
      }
      TakeAll(fileRules, |fileRules|);
      df := ConvertDateFormats(df);
      r := RenameSubjid(df, stem, subjidMappings);
      outDir := OutputDir(inputPath, outputPath);
      outName := OutputFileName(inputPath);
    }
  }
}
