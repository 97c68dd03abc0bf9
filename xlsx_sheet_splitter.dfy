/** Splitting a workbook into one CSV per worksheet: safe and unique file
    names for the sheets, the sheet read as a trimmed grid of strings, and
    date cells printed after their Excel number format. */
module XlsxSheetSplitter {
  import opened Wrappers
  import opened Text
  import opened Seqs

  // ---------------------------------------------------------------- file names

  /** Characters Windows refuses in file names. */
  const InvalidChars: set<char> := {'<', '>', ':', '"', '/', '\\', '|', '?', '*'}

  predicate IsControl(c: char) { c as int < 0x20 }

  predicate Unsafe(c: char) { c in InvalidChars || IsControl(c) }

  /** Windows device names. */
  const ReservedNames: set<string> := {
    "CON", "PRN", "AUX", "NUL",
    "COM1", "COM2", "COM3", "COM4", "COM5", "COM6", "COM7", "COM8", "COM9",
    "LPT1", "LPT2", "LPT3", "LPT4", "LPT5", "LPT6", "LPT7", "LPT8", "LPT9"
  }

  function ReplaceUnsafe(s: string): (r: string)
    ensures |r| == |s|
    ensures forall k :: 0 <= k < |s| ==> r[k] == if Unsafe(s[k]) then '_' else s[k]
  {
    seq(|s|, k requires 0 <= k < |s| => if Unsafe(s[k]) then '_' else s[k])
  }

  /** A name that needs no sanitising apart from the device-name check. */
  predicate Clean(name: string)
  {
    name != [] && name[|name| - 1] != ' ' && name[|name| - 1] != '.' &&
    forall k :: 0 <= k < |name| ==> !Unsafe(name[k])
  }

  /** No device name ends with an underscore. */
  lemma NotReservedWithUnderscore(s: string)
    requires |s| >= 1 && s[|s| - 1] == '_'
    ensures s !in ReservedNames
  {
  }

  /** The name before the device-name check: unsafe characters replaced,
      trailing spaces and dots removed, "Sheet" when nothing is left. */
  function Cleaned(name: string): (r: string)
    ensures Clean(r)
  {
    var trimmed := TrimRightOf(ReplaceUnsafe(name), {' ', '.'});
    if trimmed in {"", ".", ".."} then "Sheet" else trimmed
  }

  /** _sanitize_sheet_name. */
  function SanitizeSheetName(name: string): (r: string)
    ensures Clean(r)
    ensures Upper(r) !in ReservedNames
    ensures Upper(Cleaned(name)) in ReservedNames ==> r == Cleaned(name) + "_"
    ensures Upper(Cleaned(name)) !in ReservedNames ==> r == Cleaned(name)
  {
    var named := Cleaned(name);
    if Upper(named) in ReservedNames then
      NotReservedWithUnderscore(Upper(named + "_"));
      named + "_"
    else named
  }

  /** A clean name only gets the device-name suffix. */
  lemma SanitizeClean(name: string)
    requires Clean(name)
    ensures SanitizeSheetName(name) == if Upper(name) in ReservedNames then name + "_" else name
  {
    assert ReplaceUnsafe(name) == name;
    TrimRightUnchanged(name, {' ', '.'});
  }

  lemma TrimRightUnchanged(s: string, cs: set<char>)
    requires s != [] && s[|s| - 1] !in cs
    ensures TrimRightOf(s, cs) == s
  {
  }

  /** Sanitising a sanitised name changes nothing. */
  lemma SanitizeIdempotent(name: string)
    ensures SanitizeSheetName(SanitizeSheetName(name)) == SanitizeSheetName(name)
  {
    var r := SanitizeSheetName(name);
    SanitizeClean(r);
  }

  /** The k-th alternative: f"{name}_{k}". */
  function Candidate(name: string, k: nat): string { name + "_" + NatToString(k) }

  lemma CandidateInjective(name: string, j: nat, k: nat)
    requires Candidate(name, j) == Candidate(name, k)
    ensures j == k
  {
    assert Candidate(name, j)[|name| + 1..] == NatToString(j);
    assert Candidate(name, k)[|name| + 1..] == NatToString(k);
    NatToStringInjective(j, k);
  }

  /** At most |used| alternatives can be taken already. */
  lemma CandidatesBound(name: string, used: set<string>, n: nat)
    requires forall j :: 1 <= j <= n ==> Candidate(name, j) in used
    ensures n <= |used|
  {
    var f := (k: nat) => Candidate(name, k);
    forall i, j | 1 <= i < j < n + 1
      ensures f(i) != f(j)
    {
      if f(i) == f(j) {
        CandidateInjective(name, i, j);
      }
    }
    ManyTaken(f, 1, n + 1, used);
  }

  /** The smallest k from `k` on whose alternative is free. */
  function FirstFree(name: string, used: set<string>, k: nat): (r: nat)
    requires k >= 1 && forall j :: 1 <= j < k ==> Candidate(name, j) in used
    ensures r >= k && Candidate(name, r) !in used
    ensures forall j :: 1 <= j < r ==> Candidate(name, j) in used
    decreases |used| + 1 - k
  {
    if Candidate(name, k) !in used then k
    else
      CandidatesBound(name, used, k);
      FirstFree(name, used, k + 1)
  }

  /** _make_unique_name: the name itself when free, else name_k for the
      smallest free k >= 1. */
  function UniqueName(name: string, used: set<string>): (r: string)
    ensures r !in used
    ensures name !in used ==> r == name
    ensures name in used ==> exists k :: k >= 1 && r == Candidate(name, k) &&
                                   forall j :: 1 <= j < k ==> Candidate(name, j) in used
  {
    if name !in used then name else Candidate(name, FirstFree(name, used, 1))
  }

  /** The set of names taken so far while a workbook is split. */
  class NameRegistry {
    var used: set<string>

    constructor()
      ensures used == {}
    {
      used := {};
    }

    /** _make_unique_name with its counter loop; the name is recorded. */
    method MakeUniqueName(name: string) returns (r: string)
      modifies this
      ensures r == UniqueName(name, old(used))
      ensures r !in old(used) && used == old(used) + {r}
    {
      if name !in used {
        used := used + {name};
        return name;
      }
      var counter := 1;
      while true
        invariant counter >= 1 && used == old(used)
        invariant forall j :: 1 <= j < counter ==> Candidate(name, j) in used
        invariant FirstFree(name, used, counter) == FirstFree(name, used, 1)
        decreases |used| + 1 - counter
      {
        var candidate := Candidate(name, counter);
        if candidate !in used {
          used := used + {candidate};
          return candidate;
        }
        CandidatesBound(name, used, counter);
        counter := counter + 1;
      }
    }
  }

  /** The output names split_file gives the sheets, in order. */
  function OutputNames(sheets: seq<string>, used: set<string>): seq<string>
  {
    if sheets == [] then []
    else
      var n := UniqueName(SanitizeSheetName(sheets[0]), used);
      [n] + OutputNames(sheets[1..], used + {n})
  }

  /** The naming part of split_file's loop: each sheet name sanitised, then
      made unique against the names given so far. */
  method NameSheets(sheets: seq<string>) returns (names: seq<string>)
    ensures names == OutputNames(sheets, {})
  {
    var registry := new NameRegistry();
    names := [];
    assert sheets[0..] == sheets;
    for i := 0 to |sheets|
      invariant names + OutputNames(sheets[i..], registry.used) == OutputNames(sheets, {})
    {
      var safeName := SanitizeSheetName(sheets[i]);
      ghost var before := registry.used;
      var unique := registry.MakeUniqueName(safeName);
      NamesStep(sheets, i, before, names);
      names := names + [unique];
    }
    assert sheets[|sheets|..] == [];
  }

  /** The loop invariant of NameSheets carried over one sheet. */
  lemma NamesStep(sheets: seq<string>, i: nat, used: set<string>, names: seq<string>)
    requires i < |sheets|
    requires names + OutputNames(sheets[i..], used) == OutputNames(sheets, {})
    ensures var n := UniqueName(SanitizeSheetName(sheets[i]), used);
            (names + [n]) + OutputNames(sheets[i + 1..], used + {n}) == OutputNames(sheets, {})
  {
    var n := UniqueName(SanitizeSheetName(sheets[i]), used);
    OutputNamesStep(sheets, i, used);
    var rest := OutputNames(sheets[i + 1..], used + {n});
    assert names + [n] + rest == names + ([n] + rest);
  }

  /** One step of OutputNames, from index `i`. */
  lemma OutputNamesStep(sheets: seq<string>, i: nat, used: set<string>)
    requires i < |sheets|
    ensures var n := UniqueName(SanitizeSheetName(sheets[i]), used);
            OutputNames(sheets[i..], used) == [n] + OutputNames(sheets[i + 1..], used + {n})
  {
    assert sheets[i..][1..] == sheets[i + 1..];
  }

  /** Every sheet gets a distinct name, none of them taken before. */
  lemma {:induction false} OutputNamesDistinct(sheets: seq<string>, used: set<string>)
    ensures |OutputNames(sheets, used)| == |sheets|
    ensures NoDup(OutputNames(sheets, used))
    ensures forall x :: x in OutputNames(sheets, used) ==> x !in used
  {
    if sheets != [] {
      var n := UniqueName(SanitizeSheetName(sheets[0]), used);
      OutputNamesDistinct(sheets[1..], used + {n});
      var r := OutputNames(sheets, used);
      assert r == [n] + OutputNames(sheets[1..], used + {n});
      assert forall i :: 1 <= i < |r| ==> r[i] in OutputNames(sheets[1..], used + {n});
    }
  }

  // -------------------------------------------------------------- sheet grid

  /** A worksheet cell as the workbook reader hands it over: no value, a
      value printed by str(), or a date cell with its number format. */
  datatype Cell = NoValue | Plain(text: string) | Dated(when: Moment, numberFormat: string)

  /** _cell_to_string. */
  function CellToString(cell: Cell): string
  {
    match cell
    case NoValue => ""
    case Plain(text) => text
    case Dated(when, numberFormat) => FormatExcelDate(when, numberFormat)
  }

  /** Only a cell without value or with an empty text prints empty; a date
      cell always prints something. */
  lemma CellToStringEmpty(cell: Cell)
    ensures CellToString(cell) == "" <==> cell.NoValue? || cell == Plain("")
  {
    if cell.Dated? {
      FormatExcelDateNotEmpty(cell.when, cell.numberFormat);
    }
  }

  function StringRow(row: seq<Cell>): (r: seq<string>)
    ensures |r| == |row| && forall k :: 0 <= k < |row| ==> r[k] == CellToString(row[k])
  {
    seq(|row|, k requires 0 <= k < |row| => CellToString(row[k]))
  }

  predicate AllEmpty(row: seq<string>) { forall k :: 0 <= k < |row| ==> row[k] == "" }

  /** Index of the last non-empty cell, -1 when there is none. */
  function LastFilled(row: seq<string>): (r: int)
    ensures -1 <= r < |row|
    ensures r >= 0 ==> row[r] != ""
    ensures forall k :: r < k < |row| ==> row[k] == ""
  {
    if row == [] then -1
    else if row[|row| - 1] != "" then |row| - 1
    else LastFilled(row[..|row| - 1])
  }

  lemma LastFilledAt(row: seq<string>, i: int)
    requires -1 <= i < |row| && (i >= 0 ==> row[i] != "")
    requires forall k :: i < k < |row| ==> row[k] == ""
    ensures LastFilled(row) == i
  {
  }

  /** The rightmost non-empty column over all rows, -1 when every cell is empty. */
  function MaxFilled(rows: seq<seq<string>>): (r: int)
    ensures r >= -1
  {
    if rows == [] then -1
    else
      var m := MaxFilled(rows[..|rows| - 1]);
      var last := LastFilled(rows[|rows| - 1]);
      if last > m then last else m
  }

  /** The column tracked is the largest last-filled index of any row. */
  lemma {:induction false} MaxFilledIsMax(rows: seq<seq<string>>)
    ensures forall i :: 0 <= i < |rows| ==> LastFilled(rows[i]) <= MaxFilled(rows)
    ensures MaxFilled(rows) >= 0 ==> exists i :: 0 <= i < |rows| && LastFilled(rows[i]) == MaxFilled(rows)
  {
    if rows != [] {
      var init := rows[..|rows| - 1];
      MaxFilledIsMax(init);
      assert forall i :: 0 <= i < |init| ==> init[i] == rows[i];
    }
  }

  /** row[:w] */
  function Cut(row: seq<string>, w: nat): seq<string>
  {
    if w <= |row| then row[..w] else row
  }

  function CutAll(rows: seq<seq<string>>, w: nat): (r: seq<seq<string>>)
    ensures |r| == |rows| && forall i :: 0 <= i < |rows| ==> r[i] == Cut(rows[i], w)
  {
    seq(|rows|, i requires 0 <= i < |rows| => Cut(rows[i], w))
  }

  /** Drops the trailing rows whose cells are all empty. */
  function DropTrailingEmpty(rows: seq<seq<string>>): (r: seq<seq<string>>)
    ensures |r| <= |rows| && r == rows[..|r|]
    ensures r == [] || !AllEmpty(r[|r| - 1])
    ensures forall i :: |r| <= i < |rows| ==> AllEmpty(rows[i])
  {
    if rows != [] && AllEmpty(rows[|rows| - 1]) then DropTrailingEmpty(rows[..|rows| - 1]) else rows
  }

  lemma MaxFilledSnoc(rows: seq<seq<string>>, i: nat)
    requires i < |rows|
    ensures MaxFilled(rows[..i + 1]) ==
      if LastFilled(rows[i]) > MaxFilled(rows[..i]) then LastFilled(rows[i]) else MaxFilled(rows[..i])
  {
    assert rows[..i + 1][..i] == rows[..i];
  }

  /** What _read_sheet_as_strings returns for a grid of printed cells. */
  function SheetGrid(rows: seq<seq<string>>): seq<seq<string>>
  {
    DropTrailingEmpty(CutToFilled(rows))
  }

  /** Every row cut after the rightmost non-empty column of the grid. */
  function CutToFilled(rows: seq<seq<string>>): seq<seq<string>>
  {
    var m := MaxFilled(rows);
    if m >= 0 then CutAll(rows, m + 1) else rows
  }

  lemma CutToFilledWidth(rows: seq<seq<string>>, w: nat)
    requires w == MaxFilled(rows) + 1 && w > 0
    ensures CutToFilled(rows) == CutAll(rows, w)
  {
  }

  /** Every row of `r` is a prefix of the row of `rows` at the same place. */
  predicate RowsWithin(r: seq<seq<string>>, rows: seq<seq<string>>)
  {
    |r| <= |rows| && forall i :: 0 <= i < |r| ==> r[i] <= rows[i]
  }

  /** Every non-empty cell of `rows` still has its place in `r`. */
  predicate CellsKept(r: seq<seq<string>>, rows: seq<seq<string>>)
  {
    forall i, k :: 0 <= i < |rows| && 0 <= k < |rows[i]| && rows[i][k] != "" ==>
      i < |r| && k < |r[i]|
  }

  /** The grid loses only empty cells: every row is a prefix of its input row,
      every non-empty cell keeps its place, and no trailing row is empty. */
  lemma SheetGridKeepsValues(rows: seq<seq<string>>)
    ensures RowsWithin(SheetGrid(rows), rows) && CellsKept(SheetGrid(rows), rows)
    ensures SheetGrid(rows) == [] || !AllEmpty(SheetGrid(rows)[|SheetGrid(rows)| - 1])
  {
    CutKeeps(rows);
    DropKeeps(rows, CutToFilled(rows));
  }

  /** Cutting every row after the rightmost non-empty column keeps every
      non-empty cell. */
  lemma CutKeeps(rows: seq<seq<string>>)
    ensures |CutToFilled(rows)| == |rows|
    ensures RowsWithin(CutToFilled(rows), rows) && CellsKept(CutToFilled(rows), rows)
  {
    var m := MaxFilled(rows);
    if m < 0 {
      return;
    }
    MaxFilledIsMax(rows);
    var cut := CutAll(rows, m + 1);
    forall i | 0 <= i < |rows|
      ensures cut[i] <= rows[i]
    {
      assert cut[i] == Cut(rows[i], m + 1);
    }
    forall i, k | 0 <= i < |rows| && 0 <= k < |rows[i]| && rows[i][k] != ""
      ensures k < |cut[i]|
    {
      assert LastFilled(rows[i]) >= k;
      assert cut[i] == Cut(rows[i], m + 1);
    }
  }

  /** Dropping the empty rows at the end of a grid whose rows are prefixes
      keeping every non-empty cell. */
  lemma DropKeeps(rows: seq<seq<string>>, cut: seq<seq<string>>)
    requires |cut| == |rows| && RowsWithin(cut, rows) && CellsKept(cut, rows)
    ensures RowsWithin(DropTrailingEmpty(cut), rows) && CellsKept(DropTrailingEmpty(cut), rows)
  {
    var r := DropTrailingEmpty(cut);
    forall i | 0 <= i < |r|
      ensures r[i] == cut[i]
    {
      assert r[i] == cut[..|r|][i];
    }
    forall i, k | 0 <= i < |rows| && 0 <= k < |rows[i]| && rows[i][k] != ""
      ensures i < |r|
    {
      assert cut[i][k] == rows[i][k];
    }
  }

  /** A sheet without any value becomes an empty grid. */
  lemma SheetGridEmpty(rows: seq<seq<string>>)
    ensures SheetGrid(rows) == [] <==> forall i :: 0 <= i < |rows| ==> AllEmpty(rows[i])
  {
    SheetGridKeepsValues(rows);
    MaxFilledIsMax(rows);
    if forall i :: 0 <= i < |rows| ==> AllEmpty(rows[i]) {
      assert forall i :: 0 <= i < |rows| ==> LastFilled(rows[i]) == -1;
      assert MaxFilled(rows) == -1;
    }
  }

  /** Every cell of the sheet printed. */
  function Printed(rows: seq<seq<Cell>>): (r: seq<seq<string>>)
    ensures |r| == |rows| && forall i :: 0 <= i < |rows| ==> r[i] == StringRow(rows[i])
  {
    seq(|rows|, i requires 0 <= i < |rows| => StringRow(rows[i]))
  }

  /** _read_sheet_as_strings with its loops: the cells are printed, the
      rightmost non-empty column is tracked row by row, the rows are cut to
      it and the empty rows at the end are popped. */
  method ReadSheetAsStrings(rows: seq<seq<Cell>>) returns (out: seq<seq<string>>)
    ensures out == SheetGrid(Printed(rows))
  {
    var outputRows, maxCol := PrintRows(rows);
    if maxCol >= 0 {
      var width := maxCol + 1;
      CutToFilledWidth(outputRows, width);
      outputRows := CutAll(outputRows, width);
    }
    out := PopEmptyRows(outputRows);
  }

  lemma PrintedStep(rows: seq<seq<Cell>>, i: nat)
    requires i < |rows|
    ensures Printed(rows)[i] == StringRow(rows[i])
    ensures Printed(rows)[..i + 1] == Printed(rows)[..i] + [StringRow(rows[i])]
  {
  }

  /** The loop over the rows: each row printed, and the rightmost non-empty
      column seen so far. */
  method PrintRows(rows: seq<seq<Cell>>) returns (outputRows: seq<seq<string>>, maxCol: int)
    ensures outputRows == Printed(rows) && maxCol == MaxFilled(outputRows)
  {
    ghost var printed := Printed(rows);
    outputRows := [];
    maxCol := -1;
    for i := 0 to |rows|
      invariant outputRows == printed[..i]
      invariant maxCol == MaxFilled(printed[..i])
    {
      var row := StringRow(rows[i]);
      PrintedStep(rows, i);
      MaxFilledSnoc(printed, i);
      var idx := LastNonEmpty(row);
      if idx > maxCol {
        maxCol := idx;
      }
      outputRows := outputRows + [row];
    }
    assert printed[..|rows|] == printed;
  }

  /** The scan from the right for the last non-empty cell of a row. */
  method LastNonEmpty(row: seq<string>) returns (idx: int)
    ensures idx == LastFilled(row)
  {
    idx := |row| - 1;
    while idx >= 0 && row[idx] == ""
      invariant -1 <= idx < |row|
      invariant forall k :: idx < k < |row| ==> row[k] == ""
    {
      idx := idx - 1;
    }
    LastFilledAt(row, idx);
  }

  /** The loop popping the empty rows at the end of the grid. */
  method PopEmptyRows(rows: seq<seq<string>>) returns (out: seq<seq<string>>)
    ensures out == DropTrailingEmpty(rows)
  {
    out := rows;
    while out != [] && AllEmpty(out[|out| - 1])
      invariant DropTrailingEmpty(out) == DropTrailingEmpty(rows)
      decreases |out|
    {
      out := out[..|out| - 1];
    }
  }

  // ------------------------------------------------------------ date cells

  /** A cell's date value; `time` is None for a date, Some for a datetime. */
  datatype Clock = Clock(hour: nat, minute: nat, second: nat, micro: nat)
  datatype Moment = Moment(year: nat, month: nat, day: nat, time: Option<Clock>)

  /** No opener is followed, anywhere later, by a closer. */
  predicate NoPair(s: string, open: char, close: char)
    decreases |s|
  {
    s == [] || ((s[0] == open ==> close !in s[1..]) && NoPair(s[1..], open, close))
  }

  /** re.sub that removes every `open ... close` span (the regex
      open [^close]* close), scanning from the left. */
  function RemoveDelimited(s: string, open: char, close: char): (r: string)
    ensures forall k :: 0 <= k < |r| ==> r[k] in s
    ensures NoPair(r, open, close)
    decreases |s|
  {
    if s == [] then []
    else if s[0] == open && close in s[1..] then
      RemoveDelimited(s[1..][IndexOf(s[1..], close) + 1..], open, close)
    else
      var rest := RemoveDelimited(s[1..], open, close);
      NoPairCons(s[0], rest, s[1..], open, close);
      assert forall k :: 1 <= k < |[s[0]] + rest| ==> ([s[0]] + rest)[k] == rest[k - 1];
      [s[0]] + rest
  }

  /** What follows a span-free string is span-free. */
  lemma {:induction false} NoPairDrop(s: string, d: nat, o: char, c: char)
    requires d <= |s| && NoPair(s, o, c)
    ensures NoPair(s[d..], o, c)
    decreases d
  {
    if d > 0 {
      NoPairDrop(s[1..], d - 1, o, c);
      assert s[1..][d - 1..] == s[d..];
    }
  }

  lemma NoPairCons(x: char, rest: string, t: string, o: char, c: char)
    requires NoPair(rest, o, c)
    requires forall k :: 0 <= k < |rest| ==> rest[k] in t
    requires x == o ==> c !in t
    ensures NoPair([x] + rest, o, c)
  {
    assert ([x] + rest)[1..] == rest;
  }

  /** Removing one kind of span keeps the other kind's absence. */
  lemma {:induction false} RemoveKeepsNoPair(s: string, open: char, close: char, o: char, c: char)
    requires NoPair(s, o, c)
    ensures NoPair(RemoveDelimited(s, open, close), o, c)
    decreases |s|
  {
    if s != [] {
      NoPairDrop(s, 1, o, c);
      if s[0] == open && close in s[1..] {
        var d := IndexOf(s[1..], close) + 1;
        NoPairDrop(s[1..], d, o, c);
        RemoveKeepsNoPair(s[1..][d..], open, close, o, c);
      } else {
        RemoveKeepsNoPair(s[1..], open, close, o, c);
        NoPairCons(s[0], RemoveDelimited(s[1..], open, close), s[1..], o, c);
      }
    }
  }

  /** A format without the opening character is left alone. */
  lemma {:induction false} RemoveWithoutOpener(s: string, open: char, close: char)
    requires open !in s
    ensures RemoveDelimited(s, open, close) == s
    decreases |s|
  {
    if s != [] {
      assert open !in s[1..];
      RemoveWithoutOpener(s[1..], open, close);
    }
  }

  /** The number format reduced to what the date rendering looks at: lower
      case, first section only, without [..] codes and "..." literals. */
  function NormalizeFormat(numberFormat: string): (r: string)
    ensures ';' !in r
    ensures NoPair(r, '[', ']') && NoPair(r, '"', '"')
  {
    var section := Split(Lower(numberFormat), ';')[0];
    var noCodes := RemoveDelimited(section, '[', ']');
    RemoveKeepsNoPair(noCodes, '"', '"', '[', ']');
    var r := RemoveDelimited(noCodes, '"', '"');
    assert forall k :: 0 <= k < |r| ==> r[k] in section;
    r
  }

  /** fmt.split("h", 1): the date part before the first 'h' and the time
      part from it on. */
  function SplitAtHour(fmt: string): (r: (string, string))
    ensures r.0 + r.1 == fmt
    ensures 'h' !in r.0
    ensures r.1 == [] || r.1[0] == 'h'
  {
    if 'h' in fmt then (fmt[..IndexOf(fmt, 'h')], fmt[IndexOf(fmt, 'h')..]) else (fmt, "")
  }

  predicate IsDateLetter(c: char) { c == 'y' || c == 'm' || c == 'd' }

  /** End of the run of `c` starting at j. */
  function RunEnd(s: string, c: char, j: nat): (r: nat)
    requires j <= |s|
    ensures j <= r <= |s|
    ensures forall k :: j <= k < r ==> s[k] == c
    ensures r == |s| || s[r] != c
    decreases |s| - j
  {
    if j < |s| && s[j] == c then RunEnd(s, c, j + 1) else j
  }

  /** The runs of y, m and d letters of s from position i on. */
  function Runs(s: string, i: nat): (r: seq<string>)
    requires i <= |s|
    decreases |s| - i
  {
    if i == |s| then []
    else if IsDateLetter(s[i]) then
      var j := RunEnd(s, s[i], i + 1);
      [s[i..j]] + Runs(s, j)
    else Runs(s, i + 1)
  }

  /** A token: a non-empty run of one date letter. */
  predicate IsRun(t: string)
  {
    t != [] && IsDateLetter(t[0]) && forall k :: 0 <= k < |t| ==> t[k] == t[0]
  }

  function Flatten(ts: seq<string>): string
  {
    if ts == [] then [] else ts[0] + Flatten(ts[1..])
  }

  lemma FilterRun(s: string, i: nat, j: nat)
    requires i < j <= |s| && IsDateLetter(s[i]) && forall k :: i < k < j ==> s[k] == s[i]
    ensures IsRun(s[i..j]) && Filter(s[i..], IsDateLetter) == s[i..j] + Filter(s[j..], IsDateLetter)
  {
    var run := s[i..j];
    RunSlice(s, i, j);
    FilterAll(run, IsDateLetter);
    assert s[i..] == run + s[j..];
    FilterConcat(run, s[j..], IsDateLetter);
  }

  lemma RunSlice(s: string, i: nat, j: nat)
    requires i < j <= |s| && IsDateLetter(s[i]) && forall k :: i < k < j ==> s[k] == s[i]
    ensures IsRun(s[i..j]) && forall x :: x in s[i..j] ==> IsDateLetter(x)
  {
    var run := s[i..j];
    assert forall k :: 0 <= k < |run| ==> run[k] == s[i];
  }

  lemma FilterSkip(s: string, i: nat)
    requires i < |s| && !IsDateLetter(s[i])
    ensures Filter(s[i..], IsDateLetter) == Filter(s[i + 1..], IsDateLetter)
  {
    assert s[i..] == [s[i]] + s[i + 1..];
    FilterConcat([s[i]], s[i + 1..], IsDateLetter);
    assert Filter([s[i]], IsDateLetter) == [] by {
      assert [s[i]][..0] == [];
    }
  }

  lemma FlattenCons(t: string, ts: seq<string>)
    ensures Flatten([t] + ts) == t + Flatten(ts)
  {
    assert ([t] + ts)[1..] == ts;
  }

  /** The tokens are runs, and together they are exactly the date letters of
      the format, in order. */
  lemma {:induction false} RunsAreLetters(s: string, i: nat)
    requires i <= |s|
    ensures forall t :: t in Runs(s, i) ==> IsRun(t)
    ensures Flatten(Runs(s, i)) == Filter(s[i..], IsDateLetter)
    decreases |s| - i
  {
    if i == |s| {
      assert s[i..] == [];
    } else if IsDateLetter(s[i]) {
      var j := RunEnd(s, s[i], i + 1);
      RunsAreLetters(s, j);
      FilterRun(s, i, j);
      FlattenCons(s[i..j], Runs(s, j));
    } else {
      RunsAreLetters(s, i + 1);
      FilterSkip(s, i);
    }
  }

  /** _extract_date_tokens with its scanning loops. */
  method ExtractDateTokens(datePart: string) returns (tokens: seq<string>)
    ensures tokens == Runs(datePart, 0)
  {
    tokens := [];
    var i := 0;
    while i < |datePart|
      invariant i <= |datePart|
      invariant tokens + Runs(datePart, i) == Runs(datePart, 0)
    {
      var ch := datePart[i];
      if IsDateLetter(ch) {
        var j := i + 1;
        while j < |datePart| && datePart[j] == ch
          invariant i + 1 <= j <= |datePart|
          invariant RunEnd(datePart, ch, j) == RunEnd(datePart, ch, i + 1)
        {
          j := j + 1;
        }
        tokens := tokens + [datePart[i..j]];
        i := j;
      } else {
        i := i + 1;
      }
    }
  }

  /** _detect_date_separator: the first of '/', '-', '.' present, else '-'. */
  function DetectDateSeparator(datePart: string): (r: char)
    ensures r in {'/', '-', '.'}
    ensures r == '/' <==> '/' in datePart
    ensures r == '.' <==> '/' !in datePart && '-' !in datePart && '.' in datePart
  {
    if '/' in datePart then '/'
    else if '-' in datePart then '-'
    else if '.' in datePart then '.'
    else '-'
  }

  /** The field a token prints, and how. */
  function TokenPart(when: Moment, token: string): string
    requires IsRun(token)
  {
    if token[0] == 'y' then
      (if |token| <= 2 then FormatPadded(when.year % 100, 2) else FormatPadded(when.year, 4))
    else if token[0] == 'm' then
      (if |token| >= 2 then FormatPadded(when.month, 2) else NatToString(when.month))
    else
      (if |token| >= 2 then FormatPadded(when.day, 2) else NatToString(when.day))
  }

  /** The value a token's part reads back as. */
  function TokenValue(when: Moment, token: string): nat
    requires IsRun(token)
  {
    if token[0] == 'y' then (if |token| <= 2 then when.year % 100 else when.year)
    else if token[0] == 'm' then when.month
    else when.day
  }

  lemma TokenPartValue(when: Moment, token: string)
    requires IsRun(token)
    ensures AllDigits(TokenPart(when, token)) && TokenPart(when, token) != []
    ensures DigitsValue(TokenPart(when, token)) == TokenValue(when, token)
  {
    if token[0] == 'y' {
      if |token| <= 2 { FormatPaddedValue(when.year % 100, 2); } else { FormatPaddedValue(when.year, 4); }
    } else if token[0] == 'm' {
      if |token| >= 2 { FormatPaddedValue(when.month, 2); } else { NatToStringValue(when.month); }
    } else {
      if |token| >= 2 { FormatPaddedValue(when.day, 2); } else { NatToStringValue(when.day); }
    }
  }

  function DateParts(when: Moment, tokens: seq<string>): (r: seq<string>)
    requires forall t :: t in tokens ==> IsRun(t)
    ensures |r| == |tokens| && forall k :: 0 <= k < |tokens| ==> r[k] == TokenPart(when, tokens[k])
  {
    seq(|tokens|, k requires 0 <= k < |tokens| => TokenPart(when, tokens[k]))
  }

  /** The tokens of a format that has none of y, m, d. */
  const DefaultTokens: seq<string> := ["yyyy", "mm", "dd"]

  /** _render_date_tokens: each token's field joined by the separator; the
      full year, month and day when the format has no date letters. */
  function RenderDateTokens(when: Moment, tokens: seq<string>, sep: char): string
    requires forall t :: t in tokens ==> IsRun(t)
  {
    if tokens == [] then
      FormatPadded(when.year, 4) + [sep] + FormatPadded(when.month, 2) + [sep] + FormatPadded(when.day, 2)
    else Join(DateParts(when, tokens), [sep])
  }

  /** A format without date letters prints like yyyy, mm, dd. */
  lemma RenderNoTokens(when: Moment, sep: char)
    ensures RenderDateTokens(when, [], sep) == RenderDateTokens(when, DefaultTokens, sep)
  {
    DefaultParts(when);
    JoinThree(FormatPadded(when.year, 4), FormatPadded(when.month, 2), FormatPadded(when.day, 2), [sep]);
  }

  /** The parts the default tokens print. */
  lemma DefaultParts(when: Moment)
    ensures forall t :: t in DefaultTokens ==> IsRun(t)
    ensures DateParts(when, DefaultTokens) ==
      [FormatPadded(when.year, 4), FormatPadded(when.month, 2), FormatPadded(when.day, 2)]
  {
    var y, m, d := "yyyy", "mm", "dd";
    assert IsRun(y) && IsRun(m) && IsRun(d);
    assert TokenPart(when, y) == FormatPadded(when.year, 4);
    assert TokenPart(when, m) == FormatPadded(when.month, 2);
    assert TokenPart(when, d) == FormatPadded(when.day, 2);
  }

  /** Splitting the printed date at the separator gives one part per token,
      and each part reads back as the token's field. */
  lemma {:induction false} RenderReadBack(when: Moment, tokens: seq<string>, sep: char)
    requires tokens != [] && forall t :: t in tokens ==> IsRun(t)
    requires !IsDigit(sep)
    ensures |Split(RenderDateTokens(when, tokens, sep), sep)| == |tokens|
    ensures forall k :: 0 <= k < |tokens| ==>
              AllDigits(Split(RenderDateTokens(when, tokens, sep), sep)[k]) &&
              DigitsValue(Split(RenderDateTokens(when, tokens, sep), sep)[k]) == TokenValue(when, tokens[k])
  {
    var parts := DateParts(when, tokens);
    forall k | 0 <= k < |tokens|
      ensures AllDigits(parts[k]) && DigitsValue(parts[k]) == TokenValue(when, tokens[k])
    {
      TokenPartValue(when, tokens[k]);
    }
    forall p | p in parts
      ensures sep !in p
    {
      var k :| 0 <= k < |parts| && parts[k] == p;
      TokenPartValue(when, tokens[k]);
    }
    SplitJoin(parts, sep);
  }

  /** _should_include_time: only for a datetime; always when it is not
      midnight, otherwise when the format shows hours or seconds. */
  function ShouldIncludeTime(when: Moment, timePart: string): (r: bool)
    ensures when.time.None? ==> !r
    ensures when.time.Some? && when.time.value != Clock(0, 0, 0, 0) ==> r
  {
    match when.time
    case None => false
    case Some(clock) =>
      clock != Clock(0, 0, 0, 0) || (timePart != [] && ('h' in timePart || 's' in timePart))
  }

  /** strftime("%H:%M:%S") or "%H:%M", seconds when the format has an 's'. */
  function RenderTime(clock: Clock, timePart: string): (r: string)
  {
    FormatPadded(clock.hour, 2) + ":" + FormatPadded(clock.minute, 2) +
    (if 's' in timePart then ":" + FormatPadded(clock.second, 2) else "")
  }

  /** The fields the printed time shows, in order. */
  function TimeFields(clock: Clock, timePart: string): seq<nat>
  {
    if 's' in timePart then [clock.hour, clock.minute, clock.second] else [clock.hour, clock.minute]
  }

  function TimeParts(clock: Clock, timePart: string): (r: seq<string>)
    ensures |r| == |TimeFields(clock, timePart)|
    ensures forall k :: 0 <= k < |r| ==> r[k] == FormatPadded(TimeFields(clock, timePart)[k], 2)
  {
    var fields := TimeFields(clock, timePart);
    seq(|fields|, k requires 0 <= k < |fields| => FormatPadded(fields[k], 2))
  }

  lemma JoinTwo(a: string, b: string, sep: string)
    ensures Join([a, b], sep) == a + sep + b
  {
    assert [a, b][1..] == [b];
  }

  lemma JoinThree(a: string, b: string, c: string, sep: string)
    ensures Join([a, b, c], sep) == a + sep + b + sep + c
  {
    assert [a, b, c][1..] == [b, c];
    JoinTwo(b, c, sep);
  }

  lemma RenderTimeJoin(clock: Clock, timePart: string)
    ensures RenderTime(clock, timePart) == Join(TimeParts(clock, timePart), ":")
  {
    var h := FormatPadded(clock.hour, 2);
    var m := FormatPadded(clock.minute, 2);
    TimePartsListed(clock, timePart);
    if 's' in timePart {
      JoinThree(h, m, FormatPadded(clock.second, 2), ":");
    } else {
      JoinTwo(h, m, ":");
    }
  }

  /** The printed parts written out. */
  lemma TimePartsListed(clock: Clock, timePart: string)
    ensures var h, m := FormatPadded(clock.hour, 2), FormatPadded(clock.minute, 2);
      TimeParts(clock, timePart) ==
        if 's' in timePart then [h, m, FormatPadded(clock.second, 2)] else [h, m]
  {
  }

  /** Splitting the printed time at ':' gives the hour, the minute and, when
      shown, the second back. */
  lemma RenderTimeReadBack(clock: Clock, timePart: string)
    ensures var parts := Split(RenderTime(clock, timePart), ':');
      |parts| == |TimeFields(clock, timePart)| &&
      forall k :: 0 <= k < |parts| ==>
        AllDigits(parts[k]) && DigitsValue(parts[k]) == TimeFields(clock, timePart)[k]
  {
    var fields := TimeFields(clock, timePart);
    var parts := TimeParts(clock, timePart);
    forall k | 0 <= k < |fields|
      ensures AllDigits(parts[k]) && DigitsValue(parts[k]) == fields[k]
    {
      FormatPaddedValue(fields[k], 2);
    }
    forall p | p in parts
      ensures ':' !in p
    {
      var k :| 0 <= k < |parts| && parts[k] == p;
      FormatPaddedValue(fields[k], 2);
    }
    RenderTimeJoin(clock, timePart);
    SplitJoin(parts, ':');
  }

  /** _format_excel_date. */
  function FormatExcelDate(when: Moment, numberFormat: string): (r: string)
  {
    var fmt := NormalizeFormat(numberFormat);
    var (datePart, timePart) := SplitAtHour(fmt);
    var tokens := Runs(datePart, 0);
    RunsAreLetters(datePart, 0);
    var dateStr := RenderDateTokens(when, tokens, DetectDateSeparator(datePart));
    if ShouldIncludeTime(when, timePart) then dateStr + " " + RenderTime(when.time.value, timePart)
    else dateStr
  }

  lemma {:induction false} JoinNotEmpty(parts: seq<string>, sep: string)
    requires parts != [] && parts[0] != []
    ensures Join(parts, sep) != []
  {
    if |parts| > 1 {
      assert Join(parts, sep) == parts[0] + sep + Join(parts[1..], sep);
    }
  }

  lemma FormatExcelDateNotEmpty(when: Moment, numberFormat: string)
    ensures FormatExcelDate(when, numberFormat) != []
  {
    var datePart := SplitAtHour(NormalizeFormat(numberFormat)).0;
    var tokens := Runs(datePart, 0);
    RunsAreLetters(datePart, 0);
    var sep := DetectDateSeparator(datePart);
    if tokens != [] {
      TokenPartValue(when, tokens[0]);
      JoinNotEmpty(DateParts(when, tokens), [sep]);
    }
    assert RenderDateTokens(when, tokens, sep) != [];
  }

  /** A date (not a datetime) never gets a time; the printed date is always
      the start of the cell text. */
  lemma FormatExcelDateShape(when: Moment, numberFormat: string)
    ensures var fmt := NormalizeFormat(numberFormat);
      var datePart := SplitAtHour(fmt).0;
      var tokens := Runs(datePart, 0);
      (forall t :: t in tokens ==> IsRun(t)) &&
      var dateStr := RenderDateTokens(when, tokens, DetectDateSeparator(datePart));
      (when.time.None? ==> FormatExcelDate(when, numberFormat) == dateStr) &&
      (FormatExcelDate(when, numberFormat) == dateStr ||
       FormatExcelDate(when, numberFormat) == dateStr + " " + RenderTime(when.time.value, SplitAtHour(fmt).1))
  {
    RunsAreLetters(SplitAtHour(NormalizeFormat(numberFormat)).0, 0);
  }

  /** A date-only cell prints its date part alone. */
  lemma DateOnly(when: Moment, numberFormat: string, datePart: string, tokens: seq<string>, sep: char)
    requires when.time.None?
    requires SplitAtHour(NormalizeFormat(numberFormat)).0 == datePart
    requires Runs(datePart, 0) == tokens && DetectDateSeparator(datePart) == sep
    requires forall t :: t in tokens ==> IsRun(t)
    ensures FormatExcelDate(when, numberFormat) == RenderDateTokens(when, tokens, sep)
  {
  }

  lemma SlashDateTokens(fmt: string)
    requires fmt == "dd/mm/yyyy"
    ensures Runs(fmt, 0) == ["dd", "mm", "yyyy"]
  {
    assert Runs(fmt, 10) == [];
    assert RunEnd(fmt, 'y', 7) == 10;
    assert fmt[6..10] == "yyyy";
    assert Runs(fmt, 6) == ["yyyy"];
    assert Runs(fmt, 5) == Runs(fmt, 6);
    assert RunEnd(fmt, 'm', 4) == 5;
    assert fmt[3..5] == "mm";
    assert Runs(fmt, 3) == ["mm"] + Runs(fmt, 5);
    assert Runs(fmt, 2) == Runs(fmt, 3);
    assert RunEnd(fmt, 'd', 1) == 2;
    assert fmt[0..2] == "dd";
    assert Runs(fmt, 0) == ["dd"] + Runs(fmt, 2);
  }

  lemma SlashDateParts(when: Moment, tokens: seq<string>)
    requires tokens == ["dd", "mm", "yyyy"]
    ensures forall t :: t in tokens ==> IsRun(t)
    ensures RenderDateTokens(when, tokens, '/') ==
      FormatPadded(when.day, 2) + "/" + FormatPadded(when.month, 2) + "/" + FormatPadded(when.year, 4)
  {
    assert IsRun(tokens[0]) && IsRun(tokens[1]) && IsRun(tokens[2]);
    var parts := DateParts(when, tokens);
    assert parts == [FormatPadded(when.day, 2), FormatPadded(when.month, 2), FormatPadded(when.year, 4)];
    JoinThree(parts[0], parts[1], parts[2], "/");
  }

  lemma SlashDateFormat(fmt: string)
    requires fmt == "dd/mm/yyyy"
    ensures NormalizeFormat(fmt) == fmt && SplitAtHour(fmt).0 == fmt
    ensures DetectDateSeparator(fmt) == '/'
  {
    assert Lower(fmt) == fmt;
    NormalizePlain(fmt);
    assert 'h' !in fmt;
    assert fmt[2] == '/';
  }

  /** A lower-case format without sections, codes or literals is already
      normal. */
  lemma NormalizePlain(fmt: string)
    requires Lower(fmt) == fmt && ';' !in fmt && '[' !in fmt && '"' !in fmt
    ensures NormalizeFormat(fmt) == fmt
  {
    assert Split(fmt, ';') == [fmt];
    RemoveWithoutOpener(fmt, '[', ']');
    RemoveWithoutOpener(fmt, '"', '"');
  }

  /** A day-first format with slashes: a date-only cell prints day, month and
      four-digit year in that order, without a time. */
  lemma ExampleSlashDate(when: Moment, fmt: string)
    requires when.time.None? && fmt == "dd/mm/yyyy"
    ensures FormatExcelDate(when, fmt) ==
      FormatPadded(when.day, 2) + "/" + FormatPadded(when.month, 2) + "/" + FormatPadded(when.year, 4)
  {
    SlashDateFormat(fmt);
    SlashDateTokens(fmt);
    SlashDateParts(when, ["dd", "mm", "yyyy"]);
    DateOnly(when, fmt, fmt, ["dd", "mm", "yyyy"], '/');
  }
}
