/** Removing needless quotes from the fields of a CSV file: each field is
    trimmed, stripped of enclosing quote pairs, and its doubled quotes are
    collapsed. */
module CsvQuoteRemover {
  import opened Wrappers
  import opened Text
  import opened Paths
  import opened Seqs

  predicate Quoted(s: string) { |s| >= 1 && s[0] == '"' && s[|s| - 1] == '"' }

  /** s[1:-1] */
  function Inner(s: string): (r: string)
    ensures |r| == if |s| >= 2 then |s| - 2 else 0
  {
    if |s| <= 2 then [] else s[1..|s| - 1]
  }

  /** Removes enclosing quote pairs while the text both starts and ends
      with a quote. */
  function Peel(s: string): (r: string)
    ensures !Quoted(r)
    ensures |r| <= |s|
    ensures !Quoted(s) ==> r == s
    decreases |s|
  {
    if Quoted(s) then Peel(Inner(s)) else s
  }

  /** One more pair of enclosing quotes is peeled off again. */
  lemma PeelQuote(s: string)
    ensures Peel("\"" + s + "\"") == Peel(s)
  {
    var q := "\"" + s + "\"";
    assert Quoted(q);
    if |s| == 0 {
      assert Inner(q) == s;
    } else {
      assert Inner(q) == q[1..|q| - 1] == s;
    }
  }

  /** `n` quote pairs around a field that is not itself enclosed in quotes. */
  function Enclose(s: string, n: nat): string
  {
    if n == 0 then s else "\"" + Enclose(s, n - 1) + "\""
  }

  /** Any number of enclosing pairs comes off and nothing else. */
  lemma {:induction false} PeelEnclose(s: string, n: nat)
    requires !Quoted(s)
    ensures Peel(Enclose(s, n)) == s
  {
    if n > 0 {
      PeelEnclose(s, n - 1);
      PeelQuote(Enclose(s, n - 1));
    }
  }

  /** str.replace('""', '"'): each non-overlapping pair, from the left,
      becomes one quote. */
  function Undouble(s: string): (r: string)
    ensures |r| <= |s|
    decreases |s|
  {
    if |s| >= 2 && s[0] == '"' && s[1] == '"' then "\"" + Undouble(s[2..])
    else if s == [] then []
    else [s[0]] + Undouble(s[1..])
  }

  /** CSV escaping: every quote doubled. */
  function Double(s: string): string
    decreases |s|
  {
    if s == [] then [] else (if s[0] == '"' then "\"\"" else [s[0]]) + Double(s[1..])
  }

  /** Collapsing doubled quotes undoes the escaping. */
  lemma {:induction false} UndoubleDouble(s: string)
    ensures Undouble(Double(s)) == s
    decreases |s|
  {
    if s != [] {
      UndoubleDouble(s[1..]);
      var d := Double(s);
      if s[0] == '"' {
        assert d == "\"\"" + Double(s[1..]);
        assert d[2..] == Double(s[1..]);
      } else {
        assert d == [s[0]] + Double(s[1..]);
        assert d[1..] == Double(s[1..]);
      }
    }
  }

  /** A field without quotes is left alone. */
  lemma {:induction false} UndoubleNoQuote(s: string)
    requires '"' !in s
    ensures Undouble(s) == s
    decreases |s|
  {
    if s != [] {
      assert '"' !in s[1..];
      UndoubleNoQuote(s[1..]);
    }
  }

  /** The cleaning applied to one field. */
  function CleanField(field: string): (r: string)
    ensures |r| <= |field|
  {
    Undouble(Peel(Strip(field)))
  }

  /** A field stored with escaped quotes inside `n` enclosing pairs comes
      back as the original text. */
  lemma CleanFieldRecovers(s: string, n: nat)
    requires s == [] || (!IsSpace(s[0]) && !IsSpace(s[|s| - 1]))
    requires s == [] || (s[0] != '"' && s[|s| - 1] != '"')
    ensures CleanField(Enclose(Double(s), n)) == s
  {
    assert s != [] ==> Double(s)[0] == s[0] by {
      if s != [] {
        assert Double(s) == [s[0]] + Double(s[1..]);
      }
    }
    DoubleLast(s);
    EncloseEnds(Double(s), n);
    StripUnchanged(Enclose(Double(s), n));
    PeelEnclose(Double(s), n);
    UndoubleDouble(s);
  }

  lemma {:induction false} DoubleLast(s: string)
    ensures |Double(s)| >= |s|
    ensures s != [] ==> Double(s) != [] && Double(s)[|Double(s)| - 1] == s[|s| - 1]
    decreases |s|
  {
    if s != [] {
      DoubleLast(s[1..]);
    }
  }

  lemma {:induction false} EncloseEnds(s: string, n: nat)
    requires s == [] || (!IsSpace(s[0]) && !IsSpace(s[|s| - 1]))
    ensures var e := Enclose(s, n); e == [] || (!IsSpace(e[0]) && !IsSpace(e[|e| - 1]))
  {
    if n > 0 {
      EncloseEnds(s, n - 1);
    }
  }

  /** Every field of a row cleaned, in order. */
  function CleanedRow(row: seq<string>): (r: seq<string>)
    ensures |r| == |row| && forall j :: 0 <= j < |row| ==> r[j] == CleanField(row[j])
  {
    seq(|row|, j requires 0 <= j < |row| => CleanField(row[j]))
  }

  /** Every row cleaned; the row count and order are kept. */
  function CleanedRows(rows: seq<seq<string>>): (r: seq<seq<string>>)
    ensures |r| == |rows| && forall i :: 0 <= i < |rows| ==> r[i] == CleanedRow(rows[i])
  {
    seq(|rows|, i requires 0 <= i < |rows| => CleanedRow(rows[i]))
  }

  /** The field-cleaning loops of process_file. */
  method CleanRows(rows: seq<seq<string>>) returns (cleanedRows: seq<seq<string>>)
    ensures cleanedRows == CleanedRows(rows)
  {
    cleanedRows := [];
    for i := 0 to |rows|
      invariant cleanedRows == CleanedRows(rows)[..i]
    {
      var cleanedRow := CleanRowFields(rows[i]);
      TakeSnoc(CleanedRows(rows), i);
      cleanedRows := cleanedRows + [cleanedRow];
    }
    TakeAll(CleanedRows(rows), |rows|);
  }

  /** The loop over one row's fields. */
  method CleanRowFields(row: seq<string>) returns (cleanedRow: seq<string>)
    ensures cleanedRow == CleanedRow(row)
  {
    cleanedRow := [];
    for j := 0 to |row|
      invariant cleanedRow == CleanedRow(row)[..j]
    {
      var cleanedField := PeelField(row[j]);
      TakeSnoc(CleanedRow(row), j);
      cleanedRow := cleanedRow + [cleanedField];
    }
    TakeAll(CleanedRow(row), |row|);
  }

  /** One field: stripped, the enclosing quote pairs peeled off one at a
      time, then doubled quotes undone. */
  method PeelField(field: string) returns (cleanedField: string)
    ensures cleanedField == CleanField(field)
  {
    cleanedField := Strip(field);
    while Quoted(cleanedField)
      invariant Peel(cleanedField) == Peel(Strip(field))
      decreases |cleanedField|
    {
      cleanedField := Inner(cleanedField);
    }
    cleanedField := Undouble(cleanedField);
  }

  /** Where the cleaned file goes: over the input unless an output folder
      (a non-empty one) is given. */
  function OutputTarget(inputFile: string, outputPath: string): (t: Target)
    ensures outputPath == [] <==> t == Overwrite(inputFile)
    ensures outputPath != [] ==> t == Into(outputPath, Basename(inputFile))
  {
    if outputPath != [] then Into(outputPath, Basename(inputFile)) else Overwrite(inputFile)
  }

  /** process_file over an abstract read and write: `read` is the parsed
      rows or the exception's message, `writeError` the message of a failing
      write. The result is (True, "") or (False, message). */
  method ProcessFile(inputFile: string, outputPath: string, read: Result<seq<seq<string>>, string>,
                     writeError: Option<string>)
    returns (success: bool, message: string, output: Target, written: seq<seq<string>>)
    ensures output == OutputTarget(inputFile, outputPath)
    ensures success <==> read.Ok? && writeError.None?
    ensures success ==> message == "" && written == CleanedRows(read.value)
    ensures read.Err? ==> message == read.error
    ensures read.Ok? && writeError.Some? ==> message == writeError.value
  {
    output := OutputTarget(inputFile, outputPath);
    written := [];
    if read.Err? {
      return false, read.error, output, written;
    }
    var cleaned := CleanRows(read.value);
    if writeError.Some? {
      return false, writeError.value, output, written;
    }
    written := cleaned;
    return true, "", output, written;
  }
}
