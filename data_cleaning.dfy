/** The rule-driven data cleaner: a rule workbook selects patients, the fields
    to keep per file, per-file row filters and the subject-id field; each CSV
    is then filtered by subject, by the row filters in order, pruned to the
    kept columns and stripped of rows that are blank apart from the subject id,
    and written as `C-<basename>`. */
module DataCleaning {
  import opened Wrappers
  import opened Text
  import opened Seqs
  import opened Paths
  import opened Tables

  /** NEED_KEY: the MIGRATIONFLAG marks (white circle, ideographic zero, large
      circle) that select a rule row. */
  const NeedKey: set<string> := {"\U{25CB}", "\U{3007}", "\U{25EF}"}

  predicate Flagged(flag: string) { flag in NeedKey }

  /** A row of the Patients sheet. */
  datatype PatientRow = PatientRow(flag: string, usubjid: string)

  /** A row of the Process sheet: a field to keep in a file. */
  datatype ProcessRow = ProcessRow(flag: string, filename: string, fieldname: string)

  /** A row of the Files sheet. The optional columns are None when the sheet
      has no such column. */
  datatype FileRuleRow = FileRuleRow(flag: string, filename: string, subjidField: Option<string>, logic: Option<string>)

  /** What clean_csv_file did: raised (False), found nothing to write (True),
      or wrote a table to `dir/name` (True). */
  datatype Outcome = Failed | NoOutput | Written(dir: string, name: string, table: Table)

  /** A row filter expression evaluated on a row (header and cells): the
      truth of the result, or None when evaluation raises. */
  type Evaluator = (string, seq<string>, seq<string>) -> Option<bool>

  // ---------------------------------------------------------------- rule sheets

  function Patients(rows: seq<PatientRow>): set<string>
  {
    set r | r in rows && Flagged(r.flag) :: r.usubjid
  }

  predicate ProcessFlagged(r: ProcessRow) { Flagged(r.flag) }

  predicate FileFlagged(r: FileRuleRow) { Flagged(r.flag) }

  /** KEEP as the loop over the flagged Process rows builds it: each file
      name with the set of its field names. */
  function KeepOf(rows: seq<ProcessRow>): map<string, set<string>>
  {
    if rows == [] then map[]
    else
      var m := KeepOf(rows[..|rows| - 1]);
      var r := rows[|rows| - 1];
      m[r.filename := (if r.filename in m then m[r.filename] else {}) + {r.fieldname}]
  }

  lemma {:induction false} KeepOfLookup(rows: seq<ProcessRow>, f: string, x: string)
    ensures f in KeepOf(rows) <==> exists r :: r in rows && r.filename == f
    ensures (f in KeepOf(rows) && x in KeepOf(rows)[f]) <==> exists r :: r in rows && r.filename == f && r.fieldname == x
  {
    if rows != [] {
      var front := rows[..|rows| - 1];
      KeepOfLookup(front, f, x);
      assert rows == front + [rows[|rows| - 1]];
    }
  }

  /** A field is kept for a file iff some flagged Process row names both. */
  lemma KeepFromFlagged(process: seq<ProcessRow>, f: string, x: string)
    ensures var keep := KeepOf(Filter(process, ProcessFlagged));
            (f in keep && x in keep[f]) <==>
            exists r :: r in process && Flagged(r.flag) && r.filename == f && r.fieldname == x
  {
    var flagged := Filter(process, ProcessFlagged);
    FilterMembers(process, ProcessFlagged);
    KeepOfLookup(flagged, f, x);
    if exists r :: r in process && Flagged(r.flag) && r.filename == f && r.fieldname == x {
      var r :| r in process && Flagged(r.flag) && r.filename == f && r.fieldname == x;
      assert r in flagged;
    }
  }

  /** A Files row that contributes a row filter. */
  predicate HasLogic(r: FileRuleRow)
  {
    r.logic.Some? && r.filename != "" && Strip(r.logic.value) != ""
  }

  function Trimmed(r: FileRuleRow): (e: string)
    requires HasLogic(r)
    ensures e != "" && Strip(e) == e
  {
    StripIdempotent(r.logic.value);
    Strip(r.logic.value)
  }

  /** ROW_FILTERS as the loop over the flagged Files rows builds it. */
  function RowFiltersOf(rows: seq<FileRuleRow>): map<string, seq<string>>
  {
    if rows == [] then map[]
    else
      var m := RowFiltersOf(rows[..|rows| - 1]);
      var r := rows[|rows| - 1];
      if HasLogic(r) then m[r.filename := (if r.filename in m then m[r.filename] else []) + [Trimmed(r)]]
      else m
  }

  /** The filters of file `f`: the trimmed logic of its rows, in sheet order. */
  function Logics(rows: seq<FileRuleRow>, f: string): seq<string>
  {
    if rows == [] then []
    else
      var r := rows[|rows| - 1];
      Logics(rows[..|rows| - 1], f) + (if HasLogic(r) && r.filename == f then [Trimmed(r)] else [])
  }

  /** A file has filters iff one of its rows carries logic; they are that
      logic, trimmed, in sheet order. */
  lemma {:induction false} RowFiltersLookup(rows: seq<FileRuleRow>, f: string)
    ensures f in RowFiltersOf(rows) <==> exists r :: r in rows && HasLogic(r) && r.filename == f
    ensures f in RowFiltersOf(rows) ==> RowFiltersOf(rows)[f] == Logics(rows, f)
    ensures f !in RowFiltersOf(rows) ==> Logics(rows, f) == []
  {
    if rows != [] {
      var front := rows[..|rows| - 1];
      RowFiltersLookup(front, f);
      assert rows == front + [rows[|rows| - 1]];
      assert Logics(front, f) + [] == Logics(front, f);
    }
  }

  lemma RowFiltersSnoc(rows: seq<FileRuleRow>, i: nat)
    requires i < |rows|
    ensures var m := RowFiltersOf(rows[..i]);
            var r := rows[i];
            RowFiltersOf(rows[..i + 1]) ==
              if HasLogic(r) then m[r.filename := (if r.filename in m then m[r.filename] else []) + [Strip(r.logic.value)]]
              else m
  {
    assert rows[..i + 1][..i] == rows[..i];
  }

  /** Every stored filter is a non-empty trimmed expression. */
  predicate FiltersValid(m: map<string, seq<string>>)
  {
    forall f :: f in m ==> forall e :: e in m[f] ==> e != "" && Strip(e) == e
  }

  lemma {:induction false} RowFiltersValid(rows: seq<FileRuleRow>)
    ensures FiltersValid(RowFiltersOf(rows))
  {
    if rows != [] {
      RowFiltersValid(rows[..|rows| - 1]);
    }
  }

  /** The SUBJID_FIELDS entry a Files row contributes: any present value,
      even an empty one, for a non-empty file name. */
  function SubjidEntry(r: FileRuleRow): seq<(string, string)>
  {
    if r.subjidField.Some? && r.filename != "" then [(r.filename, r.subjidField.value)] else []
  }

  function SubjidPairs(rows: seq<FileRuleRow>): seq<(string, string)>
  {
    FlatMap(rows, SubjidEntry)
  }

  // ---------------------------------------------------------------- table steps

  /** The row test of `isin(PAT)` on column `k`. */
  function InPat(k: nat, pat: set<string>): seq<string> -> bool
  {
    row => k < |row| && row[k] in pat
  }

  /** Rows whose subject id (column `k`) is a selected patient: every copy
      of such a row is kept, in order, and no other row. */
  function KeepSubjects(rows: seq<seq<string>>, k: nat, pat: set<string>): (r: seq<seq<string>>)
    requires forall i :: 0 <= i < |rows| ==> k < |rows[i]|
    ensures IsSubseq(r, rows)
    ensures forall row :: row in r ==> row in rows && k < |row| && row[k] in pat
    ensures forall row :: row in rows && row[k] in pat ==> row in r
    ensures forall row :: multiset(r)[row] == if k < |row| && row[k] in pat then multiset(rows)[row] else 0
  {
    FilterIsSubseq(rows, InPat(k, pat));
    FilterMembers(rows, InPat(k, pat));
    FilterCount(rows, InPat(k, pat));
    Filter(rows, InPat(k, pat))
  }

  /** All filter expressions evaluate to true on the row. */
  predicate AllPass(exprs: seq<string>, header: seq<string>, row: seq<string>, eval: Evaluator)
  {
    forall e :: e in exprs ==> eval(e, header, row) == Some(true)
  }

  /** The row test of one filter expression. */
  function Passes(e: string, header: seq<string>, eval: Evaluator): seq<string> -> bool
  {
    row => eval(e, header, row) == Some(true)
  }

  /** The row test of a list of filter expressions. */
  function PassesAll(exprs: seq<string>, header: seq<string>, eval: Evaluator): seq<string> -> bool
  {
    row => AllPass(exprs, header, row, eval)
  }

  /** One filter: None when it raises on some row, else the rows where it holds. */
  function FilterOnce(rows: seq<seq<string>>, header: seq<string>, e: string, eval: Evaluator): (r: Option<seq<seq<string>>>)
    ensures r.Some? <==> forall row :: row in rows ==> eval(e, header, row).Some?
    ensures r.Some? ==> r.value == Filter(rows, Passes(e, header, eval))
  {
    if forall row :: row in rows ==> eval(e, header, row).Some?
    then Some(Filter(rows, Passes(e, header, eval)))
    else None
  }

  /** The filters applied in list order to the rows that survive so far. */
  function ApplyFilters(rows: seq<seq<string>>, header: seq<string>, exprs: seq<string>, eval: Evaluator): Option<seq<seq<string>>>
  {
    if exprs == [] then Some(rows)
    else
      match ApplyFilters(rows, header, exprs[..|exprs| - 1], eval)
      case None => None
      case Some(mid) => FilterOnce(mid, header, exprs[|exprs| - 1], eval)
  }

  /** When no filter raises, the survivors are exactly the rows every filter
      accepts, in their original order. */
  lemma {:induction false} ApplyFiltersAllPass(rows: seq<seq<string>>, header: seq<string>, exprs: seq<string>, eval: Evaluator)
    requires ApplyFilters(rows, header, exprs, eval).Some?
    ensures ApplyFilters(rows, header, exprs, eval).value == Filter(rows, PassesAll(exprs, header, eval))
    ensures IsSubseq(ApplyFilters(rows, header, exprs, eval).value, rows)
  {
    if exprs == [] {
      FilterAll(rows, PassesAll(exprs, header, eval));
    } else {
      var front, e := exprs[..|exprs| - 1], exprs[|exprs| - 1];
      ApplyFiltersStep(rows, header, front, e, eval);
      assert exprs == front + [e];
      ApplyFiltersAllPass(rows, header, front, eval);
      FilterSnoc(rows, front, e, header, eval);
    }
    FilterIsSubseq(rows, PassesAll(exprs, header, eval));
  }

  /** The last filter runs on the survivors of the ones before it. */
  lemma ApplyFiltersStep(rows: seq<seq<string>>, header: seq<string>, front: seq<string>, e: string, eval: Evaluator)
    requires ApplyFilters(rows, header, front + [e], eval).Some?
    ensures ApplyFilters(rows, header, front, eval).Some?
    ensures ApplyFilters(rows, header, front + [e], eval).value
            == Filter(ApplyFilters(rows, header, front, eval).value, Passes(e, header, eval))
  {
    assert (front + [e])[..|front|] == front;
  }

  /** Filtering by one more expression is filtering by the longer list. */
  lemma FilterSnoc(rows: seq<seq<string>>, front: seq<string>, e: string, header: seq<string>, eval: Evaluator)
    ensures Filter(Filter(rows, PassesAll(front, header, eval)), Passes(e, header, eval))
            == Filter(rows, PassesAll(front + [e], header, eval))
  {
    var p := PassesAll(front, header, eval);
    var q := Passes(e, header, eval);
    FilterFilter(rows, p, q);
    PassesAllSnoc(front, e, header, eval);
    FilterExt(rows, Both(p, q), PassesAll(front + [e], header, eval));
  }

  lemma PassesAllSnoc(front: seq<string>, e: string, header: seq<string>, eval: Evaluator)
    ensures forall row :: Both(PassesAll(front, header, eval), Passes(e, header, eval))(row)
                          == PassesAll(front + [e], header, eval)(row)
  {
    assert forall x :: x in front + [e] <==> x in front || x == e;
  }

  /** The column test of KEEP[filename]. */
  function InKeep(keepSet: set<string>): string -> bool
  {
    h => h in keepSet
  }

  /** Positions of the kept columns, in order. */
  function KeptIndices(header: seq<string>, keepSet: set<string>): (idx: seq<nat>)
    ensures |idx| <= |header|
    ensures forall j :: 0 <= j < |idx| ==> idx[j] < |header| && header[idx[j]] in keepSet
  {
    if header == [] then []
    else KeptIndices(header[..|header| - 1], keepSet) + (if header[|header| - 1] in keepSet then [|header| - 1] else [])
  }

  predicate Increasing(idx: seq<nat>)
  {
    forall a, b :: 0 <= a < b < |idx| ==> idx[a] < idx[b]
  }

  /** The positions are increasing and hold every kept column. */
  lemma {:induction false} KeptIndicesSpec(header: seq<string>, keepSet: set<string>)
    ensures Increasing(KeptIndices(header, keepSet))
    ensures forall c :: 0 <= c < |header| && header[c] in keepSet ==> c in KeptIndices(header, keepSet)
  {
    if header != [] {
      var front := header[..|header| - 1];
      KeptIndicesSpec(front, keepSet);
      var idx := KeptIndices(front, keepSet);
      assert forall a :: 0 <= a < |idx| ==> idx[a] < |front|;
      var full := KeptIndices(header, keepSet);
      assert full == idx + (if header[|front|] in keepSet then [|front|] else []);
      forall a, b | 0 <= a < b < |full|
        ensures full[a] < full[b]
      {
        if b < |idx| {
          assert full[a] == idx[a] && full[b] == idx[b];
          assert idx[a] < idx[b];
        } else {
          assert full[a] == idx[a] && full[b] == |front|;
          assert idx[a] < |front|;
        }
      }
      forall c | 0 <= c < |header| && header[c] in keepSet
        ensures c in KeptIndices(header, keepSet)
      {
        if c < |front| {
          assert front[c] == header[c];
          assert c in idx;
        }
      }
    }
  }

  /** The cells of `row` at the positions `idx`. */
  function Pick(row: seq<string>, idx: seq<nat>): (r: seq<string>)
    ensures |r| == |idx|
  {
    seq(|idx|, j requires 0 <= j < |idx| => if idx[j] < |row| then row[idx[j]] else "")
  }

  /** A row pruned to the positions `idx`. */
  function ProjectRow(idx: seq<nat>): seq<string> -> seq<string>
  {
    row => Pick(row, idx)
  }

  /** The kept header is the original header with the other columns removed. */
  lemma {:induction false} PickKeptHeader(header: seq<string>, keepSet: set<string>)
    ensures Pick(header, KeptIndices(header, keepSet)) == Filter(header, InKeep(keepSet))
  {
    if header != [] {
      var front := header[..|header| - 1];
      var last := header[|header| - 1];
      var idx := KeptIndices(front, keepSet);
      PickKeptHeader(front, keepSet);
      assert Pick(header, idx) == Pick(front, idx);
      if last in keepSet {
        assert Pick(header, idx + [|header| - 1]) == Pick(header, idx) + [last];
      } else {
        assert KeptIndices(header, keepSet) == idx + [];
        assert idx + [] == idx;
        assert Filter(header, InKeep(keepSet)) == Filter(front, InKeep(keepSet)) + [];
      }
    }
  }

  /** Drops the columns whose names are not in `keepSet`: output column `j`
      is input column `KeptIndices(..)[j]`, under the same name, in every row. */
  function Project(t: Table, keepSet: set<string>): (r: Table)
    requires WellFormed(t)
    ensures WellFormed(r) && |r.rows| == |t.rows|
    ensures r.header == Filter(t.header, InKeep(keepSet))
    ensures |r.header| == |KeptIndices(t.header, keepSet)|
    ensures forall j :: 0 <= j < |r.header| ==> r.header[j] == t.header[KeptIndices(t.header, keepSet)[j]]
    ensures forall i, j :: 0 <= i < |r.rows| && 0 <= j < |r.header| ==>
              r.rows[i][j] == t.rows[i][KeptIndices(t.header, keepSet)[j]]
  {
    var idx := KeptIndices(t.header, keepSet);
    PickKeptHeader(t.header, keepSet);
    MapSeqAt(t.rows, ProjectRow(idx));
    Table(Pick(t.header, idx), MapSeq(t.rows, ProjectRow(idx)))
  }

  /** Every cell outside the subject-id column is blank after trimming. */
  predicate BlankApartFrom(header: seq<string>, row: seq<string>, name: string)
  {
    forall k :: 0 <= k < |row| && k < |header| && header[k] != name ==> Strip(row[k]) == ""
  }

  /** The row test of the blank-row drop. */
  function NotBlankRow(header: seq<string>, name: string): seq<string> -> bool
  {
    row => !BlankApartFrom(header, row, name)
  }

  /** Every copy of a row with a non-blank cell outside column `name` is
      kept, in order, and no other row. */
  function DropBlankRows(t: Table, name: string): (r: Table)
    requires WellFormed(t)
    ensures WellFormed(r) && r.header == t.header
    ensures IsSubseq(r.rows, t.rows)
    ensures forall row :: row in r.rows ==> !BlankApartFrom(t.header, row, name)
    ensures forall row :: row in t.rows && !BlankApartFrom(t.header, row, name) ==> row in r.rows
    ensures forall row :: multiset(r.rows)[row] == if !BlankApartFrom(t.header, row, name) then multiset(t.rows)[row] else 0
  {
    var keepRow := NotBlankRow(t.header, name);
    FilterIsSubseq(t.rows, keepRow);
    FilterMembers(t.rows, keepRow);
    FilterCount(t.rows, keepRow);
    RowsFrom(t, Filter(t.rows, keepRow));
    Table(t.header, Filter(t.rows, keepRow))
  }

  /** The output folder: output_path when given and non-empty, else the
      input's folder. */
  function OutputDir(path: string, outputPath: Option<string>): string
  {
    if outputPath.Some? && outputPath.value != "" then outputPath.value else Dirname(path)
  }

  /** The subject filter: applied only when the field is configured and present. */
  function SubjectStep(t: Table, field: string, pat: set<string>): (r: Table)
    requires WellFormed(t)
    ensures WellFormed(r) && r.header == t.header && IsSubseq(r.rows, t.rows)
    ensures field == "" || field !in t.header ==> r == t
    ensures field != "" && field in t.header ==>
              forall row :: row in r.rows ==> row[ColumnIndex(t.header, field)] in pat
    ensures field != "" && field in t.header ==>
              var k := ColumnIndex(t.header, field);
              forall row :: multiset(r.rows)[row] == if k < |row| && row[k] in pat then multiset(t.rows)[row] else 0
  {
    if field != "" && field in t.header then
      var rows := KeepSubjects(t.rows, ColumnIndex(t.header, field), pat);
      RowsFrom(t, rows);
      Table(t.header, rows)
    else
      SubseqRefl(t.rows);
      t
  }

  /** The row filters of the file, if it has any; None when one raises. */
  function FilterStep(t: Table, exprs: Option<seq<string>>, eval: Evaluator): (r: Option<Table>)
    requires WellFormed(t)
    ensures exprs.None? ==> r == Some(t)
    ensures r.Some? ==> WellFormed(r.value) && r.value.header == t.header && IsSubseq(r.value.rows, t.rows)
    ensures exprs.Some? && r.Some? ==> r.value.rows == Filter(t.rows, PassesAll(exprs.value, t.header, eval))
  {
    if exprs.None? then SubseqRefl(t.rows); Some(t)
    else
      match ApplyFilters(t.rows, t.header, exprs.value, eval)
      case None => None
      case Some(rows) =>
        ApplyFiltersAllPass(t.rows, t.header, exprs.value, eval);
        FilterMembers(t.rows, PassesAll(exprs.value, t.header, eval));
        RowsFrom(t, rows);
        Some(Table(t.header, rows))
  }

  /** Column pruning, when the file has a KEEP entry. */
  function ProjectStep(t: Table, keepSet: Option<set<string>>): (r: Table)
    requires WellFormed(t)
    ensures WellFormed(r) && |r.rows| == |t.rows|
    ensures keepSet.None? ==> r == t
    ensures keepSet.Some? ==> r.header == Filter(t.header, InKeep(keepSet.value))
    ensures keepSet.Some? ==>
              |r.header| == |KeptIndices(t.header, keepSet.value)| &&
              forall i, j :: 0 <= i < |r.rows| && 0 <= j < |r.header| ==>
                r.rows[i][j] == t.rows[i][KeptIndices(t.header, keepSet.value)[j]]
  {
    if keepSet.Some? then Project(t, keepSet.value) else t
  }

  /** The blank-row drop, only when the subject column survives next to others. */
  function BlankStep(t: Table, field: string): (r: Table)
    requires WellFormed(t)
    ensures WellFormed(r) && r.header == t.header && IsSubseq(r.rows, t.rows)
    ensures !(field != "" && field in t.header && |t.header| > 1) ==> r == t
    ensures field != "" && field in t.header && |t.header| > 1 ==>
              forall row :: row in r.rows ==> !BlankApartFrom(t.header, row, field)
    ensures field != "" && field in t.header && |t.header| > 1 ==>
              forall row :: multiset(r.rows)[row] == if !BlankApartFrom(t.header, row, field) then multiset(t.rows)[row] else 0
  {
    if field != "" && field in t.header && |t.header| > 1 then DropBlankRows(t, field)
    else SubseqRefl(t.rows); t
  }

  function Lookup<V>(m: map<string, V>, k: string): Option<V>
  {
    if k in m then Some(m[k]) else None
  }

  // ---------------------------------------------------------------- one pass

  /** The subject test of clean_csv_file: `isin(PAT)` on the subject-id
      column when it is configured and present, else every row passes. */
  function SubjectTest(header: seq<string>, field: string, pat: set<string>): seq<string> -> bool
  {
    if field != "" && field in header then InPat(ColumnIndex(header, field), pat) else row => true
  }

  /** The header after pruning, when the file has a KEEP entry. */
  function KeptHeader(header: seq<string>, keepSet: Option<set<string>>): seq<string>
  {
    if keepSet.Some? then Filter(header, InKeep(keepSet.value)) else header
  }

  /** What pruning does to one row. */
  function RowProjection(header: seq<string>, keepSet: Option<set<string>>): seq<string> -> seq<string>
  {
    if keepSet.Some? then ProjectRow(KeptIndices(header, keepSet.value)) else row => row
  }

  /** The blank-row test, only when the subject column survives next to others. */
  function BlankTest(header: seq<string>, field: string): seq<string> -> bool
  {
    if field != "" && field in header && |header| > 1 then NotBlankRow(header, field) else row => true
  }

  /** An input row that ends up in the output: its subject is selected,
      every filter accepts it, and once pruned it is not blank apart from
      the subject id. */
  function Wanted(header: seq<string>, field: string, pat: set<string>, exprs: seq<string>, eval: Evaluator,
                  keepSet: Option<set<string>>): seq<string> -> bool
  {
    row => SubjectTest(header, field, pat)(row) && AllPass(exprs, header, row, eval) &&
           BlankTest(KeptHeader(header, keepSet), field)(RowProjection(header, keepSet)(row))
  }

  /** The table clean_csv_file writes, read off the input in one pass: the
      wanted rows, in input order, each pruned to the kept columns. */
  function Expected(t: Table, field: string, pat: set<string>, exprs: seq<string>, eval: Evaluator,
                    keepSet: Option<set<string>>): Table
  {
    Table(KeptHeader(t.header, keepSet),
          MapSeq(Filter(t.rows, Wanted(t.header, field, pat, exprs, eval, keepSet)), RowProjection(t.header, keepSet)))
  }

  lemma SubjectStepRows(t: Table, field: string, pat: set<string>)
    requires WellFormed(t)
    ensures SubjectStep(t, field, pat).rows == Filter(t.rows, SubjectTest(t.header, field, pat))
  {
    if !(field != "" && field in t.header) {
      FilterAll(t.rows, SubjectTest(t.header, field, pat));
    }
  }

  lemma FilterStepRows(t: Table, exprs: Option<seq<string>>, eval: Evaluator)
    requires WellFormed(t) && FilterStep(t, exprs, eval).Some?
    ensures var es := if exprs.Some? then exprs.value else [];
            FilterStep(t, exprs, eval).value.rows == Filter(t.rows, PassesAll(es, t.header, eval))
  {
    if exprs.None? {
      FilterAll(t.rows, PassesAll([], t.header, eval));
    }
  }

  lemma ProjectStepRows(t: Table, keepSet: Option<set<string>>)
    requires WellFormed(t)
    ensures ProjectStep(t, keepSet).header == KeptHeader(t.header, keepSet)
    ensures ProjectStep(t, keepSet).rows == MapSeq(t.rows, RowProjection(t.header, keepSet))
  {
    if keepSet.None? {
      MapSeqId(t.rows, RowProjection(t.header, keepSet));
    }
  }

  lemma BlankStepRows(t: Table, field: string)
    requires WellFormed(t)
    ensures BlankStep(t, field).rows == Filter(t.rows, BlankTest(t.header, field))
  {
    if !(field != "" && field in t.header && |t.header| > 1) {
      FilterAll(t.rows, BlankTest(t.header, field));
    }
  }

  /** The four steps of clean_csv_file, when no filter raises, leave
      exactly the one-pass table. */
  lemma {:induction false} CleanPipeline(t: Table, field: string, pat: set<string>, exprs: Option<seq<string>>,
                                         eval: Evaluator, keepSet: Option<set<string>>)
    requires WellFormed(t)
    requires FilterStep(SubjectStep(t, field, pat), exprs, eval).Some?
    ensures var es := if exprs.Some? then exprs.value else [];
            BlankStep(ProjectStep(FilterStep(SubjectStep(t, field, pat), exprs, eval).value, keepSet), field)
              == Expected(t, field, pat, es, eval, keepSet)
  {
    var es := if exprs.Some? then exprs.value else [];
    var a := SubjectTest(t.header, field, pat);
    var b := PassesAll(es, t.header, eval);
    var p := RowProjection(t.header, keepSet);
    var c := BlankTest(KeptHeader(t.header, keepSet), field);
    var t1 := SubjectStep(t, field, pat);
    SubjectStepRows(t, field, pat);
    var t2 := FilterStep(t1, exprs, eval).value;
    FilterStepRows(t1, exprs, eval);
    var t3 := ProjectStep(t2, keepSet);
    ProjectStepRows(t2, keepSet);
    BlankStepRows(t3, field);
    FilterMap(Filter(Filter(t.rows, a), b), p, c);
    FilterFilter(t.rows, a, b);
    FilterFilter(t.rows, Both(a, b), Compose(p, c));
    WantedIsSteps(t.header, field, pat, es, eval, keepSet);
    FilterExt(t.rows, Both(Both(a, b), Compose(p, c)), Wanted(t.header, field, pat, es, eval, keepSet));
  }

  /** The one-pass row test is the conjunction of the step tests. */
  lemma WantedIsSteps(header: seq<string>, field: string, pat: set<string>, es: seq<string>, eval: Evaluator,
                      keepSet: Option<set<string>>)
    ensures var a := SubjectTest(header, field, pat);
            var b := PassesAll(es, header, eval);
            var c := BlankTest(KeptHeader(header, keepSet), field);
            forall row :: Both(Both(a, b), Compose(RowProjection(header, keepSet), c))(row)
                          == Wanted(header, field, pat, es, eval, keepSet)(row)
  {
  }

  /** The whole pipeline of clean_csv_file. When nothing raises, the output
      is written iff the one-pass table has rows and columns, and then it is
      that table. */
  function Clean(path: string, t: Table, eval: Evaluator, outputPath: Option<string>,
                 pat: set<string>, keep: map<string, set<string>>, rowFilters: map<string, seq<string>>,
                 subjidFields: map<string, string>): (r: Outcome)
    requires WellFormed(t)
    ensures r.Written? ==> WellFormed(r.table) && !IsEmpty(r.table)
    ensures r.Failed? ==> Stem(Basename(path)) in rowFilters
    ensures var filename := Stem(Basename(path));
            var field := if filename in subjidFields then subjidFields[filename] else "";
            var es := if filename in rowFilters then rowFilters[filename] else [];
            var e := Expected(t, field, pat, es, eval, Lookup(keep, filename));
            !r.Failed? ==> (r.Written? <==> !IsEmpty(e)) && (r.Written? ==> r.table == e)
  ensures var filename := Stem(Basename(path));
          var field := if filename in subjidFields then subjidFields[filename] else "";
          r.Failed? <==> filename in rowFilters &&
                         ApplyFilters(SubjectStep(t, field, pat).rows, t.header, rowFilters[filename], eval).None?
  {
    var filename := Stem(Basename(path));
    var field := if filename in subjidFields then subjidFields[filename] else "";
    var t1 := SubjectStep(t, field, pat);
    match FilterStep(t1, Lookup(rowFilters, filename), eval)
    case None => Failed
    case Some(t2) =>
      var t4 := BlankStep(ProjectStep(t2, Lookup(keep, filename)), field);
      CleanPipeline(t, field, pat, Lookup(rowFilters, filename), eval, Lookup(keep, filename));
      if IsEmpty(t4) then NoOutput else Written(OutputDir(path, outputPath), "C-" + Basename(path), t4)
  }

  // ---------------------------------------------------------------- cleaner

  class DataCleaner {
    var pat: set<string>
    var keep: map<string, set<string>>
    var rowFilters: map<string, seq<string>>
    var subjidFields: map<string, string>

    predicate Valid()
      reads this
    {
      FiltersValid(rowFilters)
    }

    constructor()
      ensures pat == {} && keep == map[] && rowFilters == map[] && subjidFields == map[]
      ensures Valid()
    {
      pat := {};
      keep := map[];
      rowFilters := map[];
      subjidFields := map[];
    }

    /** select_rule_file on the three sheets already read; `files` is None
        when the Files sheet cannot be read, which leaves the row filters and
        subject-id fields as they were. */
    method SelectRuleFile(patients: seq<PatientRow>, process: seq<ProcessRow>, files: Option<seq<FileRuleRow>>)
      requires Valid()
      modifies this
      ensures Valid()
      ensures pat == Patients(patients)
      ensures keep == KeepOf(Filter(process, ProcessFlagged))
      ensures files.None? ==> rowFilters == old(rowFilters) && subjidFields == old(subjidFields)
      ensures files.Some? ==>
                rowFilters == RowFiltersOf(Filter(files.value, FileFlagged)) &&
                subjidFields == Assign(map[], SubjidPairs(Filter(files.value, FileFlagged)))
    {
      pat := Patients(patients);
      keep := BuildKeep(Filter(process, ProcessFlagged));
      if files.Some? {
        var fileRows := Filter(files.value, FileFlagged);
        rowFilters, subjidFields := BuildFileRules(fileRows);
        RowFiltersValid(fileRows);
      }
    }

    /** The KEEP loop. */
    static method BuildKeep(flagged: seq<ProcessRow>) returns (keep: map<string, set<string>>)
      ensures keep == KeepOf(flagged)
    {
      keep := map[];
      for i := 0 to |flagged|
        invariant keep == KeepOf(flagged[..i])
      {
        assert flagged[..i + 1][..i] == flagged[..i];
        var filename := flagged[i].filename;
        var fieldname := flagged[i].fieldname;
        if filename !in keep {
          keep := keep[filename := {}];
        }
        keep := keep[filename := keep[filename] + {fieldname}];
      }
      TakeAll(flagged, |flagged|);
    }

    /** The loop over the flagged Files rows. */
    static method BuildFileRules(fileRows: seq<FileRuleRow>) returns (rowFilters: map<string, seq<string>>, subjidFields: map<string, string>)
      ensures rowFilters == RowFiltersOf(fileRows)
      ensures subjidFields == Assign(map[], SubjidPairs(fileRows))
    {
      rowFilters := map[];
      subjidFields := map[];
      for i := 0 to |fileRows|
        invariant rowFilters == RowFiltersOf(fileRows[..i])
        invariant subjidFields == Assign(map[], SubjidPairs(fileRows[..i]))
      {
        RowFiltersSnoc(fileRows, i);
        FlatMapSnoc(fileRows, SubjidEntry, i);
        var row := fileRows[i];
        var filename := row.filename;
        if row.subjidField.Some? && filename != "" {
          subjidFields := subjidFields[filename := row.subjidField.value];
        } else {
          assert SubjidPairs(fileRows[..i]) + [] == SubjidPairs(fileRows[..i]);
        }
        AssignConcat(map[], SubjidPairs(fileRows[..i]), SubjidEntry(row));
        if row.logic.Some? && filename != "" {
          var logic := Strip(row.logic.value);
          if logic != "" {
            var existing := if filename in rowFilters then rowFilters[filename] else [];
            rowFilters := rowFilters[filename := existing + [logic]];
          }
        }
      }
      TakeAll(fileRows, |fileRows|);
    }

    /** clean_csv_file on a table already read from `path`. */
    method CleanCsvFile(path: string, t: Table, eval: Evaluator, outputPath: Option<string>) returns (outcome: Outcome)
      requires WellFormed(t)
      ensures outcome == Clean(path, t, eval, outputPath, pat, keep, rowFilters, subjidFields)
      ensures outcome.Written? ==> outcome.name == "C-" + Basename(path) && outcome.dir == OutputDir(path, outputPath)
    {
      var filename := Stem(Basename(path));
      var subjidField := if filename in subjidFields then subjidFields[filename] else "";
      var df := SubjectStep(t, subjidField, pat);
      if filename in rowFilters {
        var filtered := RunFilters(df, rowFilters[filename], eval);
        if filtered.None? {
          return Failed;
        }
        df := filtered.value;
      }
      df := ProjectStep(df, Lookup(keep, filename));
      df := BlankStep(df, subjidField);
      if IsEmpty(df) {
        outcome := NoOutput;
      } else {
        outcome := Written(OutputDir(path, outputPath), "C-" + Basename(path), df);
      }
    }

    /** The loop applying the row filters in order; it stops at the first
        filter that raises. */
    static method RunFilters(t: Table, exprs: seq<string>, eval: Evaluator) returns (r: Option<Table>)
      requires WellFormed(t)
      ensures r == FilterStep(t, Some(exprs), eval)
    {
      var rows := t.rows;
      for j := 0 to |exprs|
        invariant ApplyFilters(t.rows, t.header, exprs[..j], eval) == Some(rows)
      {
        assert exprs[..j + 1][..j] == exprs[..j];
        var mask := FilterOnce(rows, t.header, exprs[j], eval);
        if mask.None? {
          ApplyFiltersFail(t.rows, t.header, exprs, j, eval);
          return None;
        }
        rows := mask.value;
      }
      TakeAll(exprs, |exprs|);
      r := Some(Table(t.header, rows));
    }
  }

  /** Once a filter raises, applying more filters still raises. */
  lemma {:induction false} ApplyFiltersFail(rows: seq<seq<string>>, header: seq<string>, exprs: seq<string>, j: nat, eval: Evaluator)
    requires j < |exprs|
    requires ApplyFilters(rows, header, exprs[..j + 1], eval).None?
    ensures ApplyFilters(rows, header, exprs, eval).None?
    decreases |exprs|
  {
    if j + 1 < |exprs| {
      var front := exprs[..|exprs| - 1];
      assert front[..j + 1] == exprs[..j + 1];
      ApplyFiltersFail(rows, header, front, j, eval);
    } else {
      assert exprs[..j + 1] == exprs;
    }
  }
}
