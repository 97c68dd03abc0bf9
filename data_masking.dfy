/** The SDTM masking processor: a column-name-driven set of rewrites (study
    id, subject ids, `*DTC` dates two years earlier, and in DM.csv the site,
    investigator and age), applied after an optional filter of the rows
    against a baseline list of USUBJID values taken from DM.csv. */
module DataMasking {
  import opened Wrappers
  import opened Text
  import opened Seqs
  import opened Tables

  const StudyMask: string := "[UAT]CIRCULATE"
  /** "テスト施設" (test site). */
  const SiteMask: string := "\U{30C6}\U{30B9}\U{30C8}\U{65BD}\U{8A2D}"
  /** "テスト医師" (test physician). */
  const InvestigatorMask: string := "\U{30C6}\U{30B9}\U{30C8}\U{533B}\U{5E2B}"
  const SubjectPrefix: string := "SKLT"
  /** How many USUBJID values the baseline keeps. */
  const BaselineSize: nat := 100

  // ---------------------------------------------------------------- per-value rules

  /** _process_subject_id: blank values stay; otherwise the first four
      characters become "SKLT" (a value of four or fewer becomes "SKLT"). */
  function ProcessSubjectId(v: string): (r: string)
    ensures IsBlank(v) ==> r == v
    ensures !IsBlank(v) ==> |r| == (if |v| <= 4 then 4 else |v|) && r[..4] == SubjectPrefix
    ensures !IsBlank(v) && |v| > 4 ==> r[4..] == v[4..]
  {
    if IsBlank(v) then v
    else if |v| <= 4 then SubjectPrefix
    else SubjectPrefix + v[4..]
  }

  lemma PrefixedNotBlank(r: string)
    requires |r| >= 4 && r[..4] == SubjectPrefix
    ensures !IsBlank(r)
  {
    BlankIffAllSpace(r);
    assert r[0] == r[..4][0] == 'S';
  }

  /** Masking a subject id twice is masking it once. */
  lemma ProcessSubjectIdIdempotent(v: string)
    ensures ProcessSubjectId(ProcessSubjectId(v)) == ProcessSubjectId(v)
  {
    var r := ProcessSubjectId(v);
    if !IsBlank(v) {
      PrefixedNotBlank(r);
      if |r| > 4 {
        assert r == SubjectPrefix + r[4..];
      }
    }
  }

  /** The constant rewrites: a non-blank value becomes `mask`. */
  function MaskIfPresent(mask: string, v: string): (r: string)
    ensures IsBlank(v) ==> r == v
    ensures !IsBlank(v) ==> r == mask
  {
    if IsBlank(v) then v else mask
  }

  /** _subtract_ten_from_age for values that read as integers: two less,
      but not below zero, printed as an integer. */
  function AgeMask(v: string): (r: string)
    ensures IsBlank(v) || ParseInt(v).None? ==> r == v
  {
    if IsBlank(v) then v
    else
      match ParseInt(v)
      case None => v
      case Some(n) => IntToString(if n - 2 < 0 then 0 else n - 2)
  }

  /** A masked age reads back as the age less two, floored at zero. */
  lemma AgeMaskValue(v: string)
    requires ParseInt(v).Some?
    ensures var n := ParseInt(v).value;
            ParseInt(AgeMask(v)) == Some(if n - 2 < 0 then 0 else n - 2)
  {
    var n := ParseInt(v).value;
    ParseIntToString(if n - 2 < 0 then 0 else n - 2);
  }

  // ---------------------------------------------------------------- dates

  /** The fields strptime can set. */
  datatype Field = Year | Month | Day | Hour | Minute | Second

  /** A format directive: a literal character or a numeric field. */
  datatype Elem = Lit(c: char) | Num(f: Field)

  type Format = seq<Elem>

  /** The formats tried, in order: %Y-%m-%d, %Y-%m-%dT%H:%M:%S,
      %Y-%m-%dT%H:%M, %d/%m/%Y, %m/%d/%Y, %Y/%m/%d, %Y-%m, %Y. */
  const Formats: seq<Format> := [
    [Num(Year), Lit('-'), Num(Month), Lit('-'), Num(Day)],
    [Num(Year), Lit('-'), Num(Month), Lit('-'), Num(Day), Lit('T'), Num(Hour), Lit(':'), Num(Minute), Lit(':'), Num(Second)],
    [Num(Year), Lit('-'), Num(Month), Lit('-'), Num(Day), Lit('T'), Num(Hour), Lit(':'), Num(Minute)],
    [Num(Day), Lit('/'), Num(Month), Lit('/'), Num(Year)],
    [Num(Month), Lit('/'), Num(Day), Lit('/'), Num(Year)],
    [Num(Year), Lit('/'), Num(Month), Lit('/'), Num(Day)],
    [Num(Year), Lit('-'), Num(Month)],
    [Num(Year)]
  ]

  datatype DateTime = DateTime(year: nat, month: nat, day: nat, hour: nat, minute: nat, second: nat)

  /** What strptime fills in for fields the format does not mention. */
  const Default := DateTime(1900, 1, 1, 0, 0, 0)

  function Get(dt: DateTime, f: Field): nat
  {
    match f
    case Year => dt.year
    case Month => dt.month
    case Day => dt.day
    case Hour => dt.hour
    case Minute => dt.minute
    case Second => dt.second
  }

  function Set(dt: DateTime, f: Field, v: nat): (r: DateTime)
    ensures Get(r, f) == v
  {
    match f
    case Year => dt.(year := v)
    case Month => dt.(month := v)
    case Day => dt.(day := v)
    case Hour => dt.(hour := v)
    case Minute => dt.(minute := v)
    case Second => dt.(second := v)
  }

  /** Whether `fmt` has a directive for `f`. */
  predicate Mentions(fmt: Format, f: Field)
  {
    fmt != [] && (fmt[0] == Num(f) || Mentions(fmt[1..], f))
  }

  lemma {:induction false} MentionsIn(fmt: Format, f: Field)
    ensures Mentions(fmt, f) <==> Num(f) in fmt
  {
    if fmt != [] {
      MentionsIn(fmt[1..], f);
      assert fmt == [fmt[0]] + fmt[1..];
    }
  }

  /** The fields of `fmt` taken from `dt`, the others from `acc`. */
  function Fill(acc: DateTime, fmt: Format, dt: DateTime): DateTime
  {
    DateTime(if Mentions(fmt, Year) then dt.year else acc.year,
             if Mentions(fmt, Month) then dt.month else acc.month,
             if Mentions(fmt, Day) then dt.day else acc.day,
             if Mentions(fmt, Hour) then dt.hour else acc.hour,
             if Mentions(fmt, Minute) then dt.minute else acc.minute,
             if Mentions(fmt, Second) then dt.second else acc.second)
  }

  predicate Leap(y: nat) { y % 4 == 0 && (y % 100 != 0 || y % 400 == 0) }

  function DaysIn(y: nat, m: nat): nat
  {
    if m == 2 then (if Leap(y) then 29 else 28)
    else if m == 4 || m == 6 || m == 9 || m == 11 then 30
    else 31
  }

  /** What the datetime constructor accepts. */
  predicate Valid(dt: DateTime)
  {
    1 <= dt.year <= 9999 && 1 <= dt.month <= 12 && 1 <= dt.day <= DaysIn(dt.year, dt.month) &&
    dt.hour < 24 && dt.minute < 60 && dt.second < 60
  }

  /** The character at `i`, or NUL past the end (which no pattern accepts). */
  function At(s: string, i: nat): char { if i < |s| then s[i] else '\0' }

  predicate Between(c: char, lo: char, hi: char) { lo <= c <= hi }

  function Dv(c: char): nat { if IsDigit(c) then DigitValue(c) else 0 }

  /** The alternatives of the field's pattern that match at `i`, in the
      order the pattern lists them, as (length, value) pairs:
      %Y `\d\d\d\d`, %m `1[0-2]|0[1-9]|[1-9]`,
      %d `3[01]|[12]\d|0[1-9]|[1-9]| [1-9]`, %H `2[0-3]|[0-1]\d|\d`,
      %M `[0-5]\d|\d`, %S `6[0-1]|[0-5]\d|\d`. */
  function Alts(f: Field, s: string, i: nat): seq<(nat, nat)>
  {
    if f == Year then YearAlts(s, i) else ShortAlts(f, At(s, i), At(s, i + 1))
  }

  function YearAlts(s: string, i: nat): seq<(nat, nat)>
  {
    if i + 4 <= |s| && AllDigits(s[i..i + 4]) then [(4, DigitsValue(s[i..i + 4]))] else []
  }

  /** The alternatives of a one- or two-digit field, given the next two
      characters `a` and `b`. */
  function ShortAlts(f: Field, a: char, b: char): seq<(nat, nat)>
    requires f != Year
  {
    match f
    case Month =>
      (if a == '1' && Between(b, '0', '2') then [(2, 10 + Dv(b))] else []) +
      (if a == '0' && Between(b, '1', '9') then [(2, Dv(b))] else []) +
      (if Between(a, '1', '9') then [(1, Dv(a))] else [])
    case Day =>
      (if a == '3' && Between(b, '0', '1') then [(2, 30 + Dv(b))] else []) +
      (if Between(a, '1', '2') && IsDigit(b) then [(2, 10 * Dv(a) + Dv(b))] else []) +
      (if a == '0' && Between(b, '1', '9') then [(2, Dv(b))] else []) +
      (if Between(a, '1', '9') then [(1, Dv(a))] else []) +
      (if a == ' ' && Between(b, '1', '9') then [(2, Dv(b))] else [])
    case Hour =>
      (if a == '2' && Between(b, '0', '3') then [(2, 20 + Dv(b))] else []) +
      (if Between(a, '0', '1') && IsDigit(b) then [(2, 10 * Dv(a) + Dv(b))] else []) +
      (if IsDigit(a) then [(1, Dv(a))] else [])
    case Minute =>
      (if Between(a, '0', '5') && IsDigit(b) then [(2, 10 * Dv(a) + Dv(b))] else []) +
      (if IsDigit(a) then [(1, Dv(a))] else [])
    case Second =>
      (if a == '6' && Between(b, '0', '1') then [(2, 60 + Dv(b))] else []) +
      (if Between(a, '0', '5') && IsDigit(b) then [(2, 10 * Dv(a) + Dv(b))] else []) +
      (if IsDigit(a) then [(1, Dv(a))] else [])
  }

  /** The format's regular expression matched from `i` as Python's re does:
      alternatives in order, backtracking only when what follows fails; the
      match need not reach the end of `s`. Literals match case-insensitively. */
  function Match(fmt: Format, s: string, i: nat, acc: DateTime): Option<(DateTime, nat)>
    decreases |fmt|, 1, 0
  {
    if fmt == [] then Some((acc, i))
    else
      match fmt[0]
      case Lit(c) =>
        if i < |s| && LowerChar(s[i]) == LowerChar(c) then Match(fmt[1..], s, i + 1, acc) else None
      case Num(f) => TryAlts(fmt[1..], f, s, i, acc, Alts(f, s, i))
  }

  function TryAlts(rest: Format, f: Field, s: string, i: nat, acc: DateTime, alts: seq<(nat, nat)>): Option<(DateTime, nat)>
    decreases |rest| + 1, 0, |alts|
  {
    if alts == [] then None
    else
      match Match(rest, s, i + alts[0].0, Set(acc, f, alts[0].1))
      case Some(m) => Some(m)
      case None => TryAlts(rest, f, s, i, acc, alts[1..])
  }

  /** datetime.strptime(s, fmt): the match must cover all of `s` and give a
      valid date and time. */
  function ParseWith(fmt: Format, s: string): Option<DateTime>
  {
    match Match(fmt, s, 0, Default)
    case None => None
    case Some((dt, end)) => if end == |s| && Valid(dt) then Some(dt) else None
  }

  /** The first format of `fmts`, from index `from` on, that parses `s`
      (the code tries Formats in order). */
  function FirstFormat(fmts: seq<Format>, s: string, from: nat): (r: Option<(nat, DateTime)>)
    ensures r.Some? ==> from <= r.value.0 < |fmts|
    decreases |fmts| - from
  {
    if from >= |fmts| then None
    else
      match ParseWith(fmts[from], s)
      case Some(dt) => Some((from, dt))
      case None => FirstFormat(fmts, s, from + 1)
  }

  /** The format found parses the input, giving the date found. */
  lemma {:induction false} FirstFormatParses(fmts: seq<Format>, s: string, from: nat)
    requires FirstFormat(fmts, s, from).Some?
    ensures ParseWith(fmts[FirstFormat(fmts, s, from).value.0], s) == Some(FirstFormat(fmts, s, from).value.1)
    decreases |fmts| - from
  {
    if ParseWith(fmts[from], s).None? {
      FirstFormatParses(fmts, s, from + 1);
    }
  }

  /** No format from `from` on before the one found parses. */
  lemma {:induction false} FirstFormatSpec(fmts: seq<Format>, s: string, from: nat)
    requires FirstFormat(fmts, s, from).Some?
    ensures forall j :: from <= j < FirstFormat(fmts, s, from).value.0 ==> ParseWith(fmts[j], s).None?
    decreases |fmts| - from
  {
    var k := FirstFormat(fmts, s, from).value.0;
    if k != from {
      FirstFormatSpec(fmts, s, from + 1);
    }
  }

  /** When no format is found, no format from `from` on parses. */
  lemma {:induction false} FirstFormatNone(fmts: seq<Format>, s: string, from: nat)
    requires FirstFormat(fmts, s, from).None?
    ensures forall j :: from <= j < |fmts| ==> ParseWith(fmts[j], s).None?
    decreases |fmts| - from
  {
    if from < |fmts| {
      assert ParseWith(fmts[from], s).None?;
      assert FirstFormat(fmts, s, from + 1).None?;
      FirstFormatNone(fmts, s, from + 1);
    }
  }

  /** strftime: %Y as four digits, the other fields as two. */
  function RenderElem(e: Elem, dt: DateTime): string
  {
    match e
    case Lit(c) => [c]
    case Num(f) => FieldText(f, Get(dt, f))
  }

  /** The zero-padded digits of a field: the last four of a year, the last
      two of the others (every value printed here fits). */
  function FieldText(f: Field, v: nat): (r: string)
    ensures |r| == Width(f)
  {
    LastDigits(v, Width(f))
  }

  /** The last `w` decimal digits of `v`, most significant first. */
  function LastDigits(v: nat, w: nat): (r: string)
    ensures |r| == w && AllDigits(r)
  {
    if w == 0 then [] else LastDigits(v / 10, w - 1) + [DigitChar(v % 10)]
  }

  lemma TwoDigits(v: nat)
    requires v < 100
    ensures LastDigits(v, 2) == [DigitChar(v / 10), DigitChar(v % 10)]
  {
    var t := v / 10;
    assert t < 10 && t % 10 == t;
    assert LastDigits(t, 1) == LastDigits(t / 10, 0) + [DigitChar(t % 10)];
  }

  function Pow10(w: nat): nat
  {
    if w == 0 then 1 else 10 * Pow10(w - 1)
  }

  /** The printed digits of a value that fits read back as the value. */
  lemma {:induction false} LastDigitsValue(v: nat, w: nat)
    requires v < Pow10(w)
    ensures DigitsValue(LastDigits(v, w)) == v
    decreases w
  {
    if w > 0 {
      var r := LastDigits(v, w);
      assert r[..w - 1] == LastDigits(v / 10, w - 1);
      LastDigitsValue(v / 10, w - 1);
      assert DigitValue(DigitChar(v % 10)) == v % 10;
    }
  }

  function Render(fmt: Format, dt: DateTime): string
  {
    if fmt == [] then "" else RenderElem(fmt[0], dt) + Render(fmt[1..], dt)
  }

  /** replace(year=year - 2) succeeds: the year stays positive and the day
      exists in that month of the earlier year. */
  predicate ShiftOk(dt: DateTime) { dt.year >= 3 && dt.day <= DaysIn(dt.year - 2, dt.month) }

  function Shifted(dt: DateTime): DateTime
    requires dt.year >= 2
  {
    dt.(year := dt.year - 2)
  }

  /** _subtract_two_years_from_date. */
  function SubtractTwoYears(v: string): (r: string)
    ensures IsBlank(v) ==> r == v
    ensures !IsBlank(v) && FirstFormat(Formats, Strip(v), 0).None? ==> r == v
  {
    if IsBlank(v) then v
    else
      match FirstFormat(Formats, Strip(v), 0)
      case None => v
      case Some((j, dt)) => if ShiftOk(dt) then Render(Formats[j], Shifted(dt)) else v
  }

  // ---------------------------------------------------------------- date lemmas

  /** The field values the renderer can print back. */
  predicate InRange(dt: DateTime)
  {
    dt.year < 10000 && 1 <= dt.month <= 12 && 1 <= dt.day <= 31 && dt.hour < 24 && dt.minute < 60 && dt.second < 60
  }

  function Width(f: Field): nat { if f == Year then 4 else 2 }

  lemma DvDigit(d: nat)
    requires d < 10
    ensures Dv(DigitChar(d)) == d
  {
  }

  /** A printed field is matched first by its full-width alternative, which
      reads back the value. */
  lemma AltsRendered(f: Field, s: string, i: nat, dt: DateTime)
    requires InRange(dt)
    requires PieceAt(s, i, RenderElem(Num(f), dt))
    ensures |Alts(f, s, i)| > 0 && Alts(f, s, i)[0] == (Width(f), Get(dt, f))
  {
    if f == Year {
      assert Pow10(4) == 10000;
      LastDigitsValue(dt.year, 4);
    } else {
      var v := Get(dt, f);
      TwoDigits(v);
      assert s[i] == s[i..i + 2][0] && s[i + 1] == s[i..i + 2][1];
      DvDigit(v / 10);
      DvDigit(v % 10);
      AltsTwo(f, s, i, v);
    }
  }

  /** The two-digit case, one field at a time. */
  lemma AltsTwo(f: Field, s: string, i: nat, v: nat)
    requires f != Year && i + 2 <= |s|
    requires f == Month ==> 1 <= v <= 12
    requires f == Day ==> 1 <= v <= 31
    requires f == Hour ==> v < 24
    requires f == Minute || f == Second ==> v < 60
    requires s[i] == DigitChar(v / 10) && s[i + 1] == DigitChar(v % 10)
    requires Dv(s[i]) == v / 10 && Dv(s[i + 1]) == v % 10
    ensures |Alts(f, s, i)| > 0 && Alts(f, s, i)[0] == (2, v)
  {
    assert At(s, i) == s[i] && At(s, i + 1) == s[i + 1];
    ShortAltsTwo(f, s[i], s[i + 1], v);
  }

  /** The two-digit case, one field at a time. */
  lemma ShortAltsTwo(f: Field, a: char, b: char, v: nat)
    requires f != Year
    requires f == Month ==> 1 <= v <= 12
    requires f == Day ==> 1 <= v <= 31
    requires f == Hour ==> v < 24
    requires f == Minute || f == Second ==> v < 60
    requires a == DigitChar(v / 10) && b == DigitChar(v % 10)
    requires Dv(a) == v / 10 && Dv(b) == v % 10
    ensures |ShortAlts(f, a, b)| > 0 && ShortAlts(f, a, b)[0] == (2, v)
  {
    match f
    case Month =>
      if v >= 10 {
        assert a == '1' && Between(b, '0', '2');
      } else {
        assert a == '0' && Between(b, '1', '9');
      }
    case Day =>
      if v >= 30 {
        assert a == '3' && Between(b, '0', '1');
      } else if v >= 10 {
        assert Between(a, '1', '2') && IsDigit(b);
        assert !(a == '3');
      } else {
        assert a == '0' && Between(b, '1', '9');
      }
    case Hour =>
      if v >= 20 {
        assert a == '2' && Between(b, '0', '3');
      } else {
        assert Between(a, '0', '1') && IsDigit(b) && a != '2';
      }
    case Minute =>
      assert Between(a, '0', '5') && IsDigit(b);
    case Second =>
      assert Between(a, '0', '5') && IsDigit(b) && a != '6';
  }

  /** The printed form of `dt` in `fmt` occurs in `s` at index `i`. */
  predicate RenderedAt(fmt: Format, s: string, i: nat, dt: DateTime)
  {
    PieceAt(s, i, Render(fmt, dt))
  }

  /** `p` occurs in `s` at index `i`. */
  predicate PieceAt(s: string, i: nat, p: string)
  {
    i + |p| <= |s| && s[i..i + |p|] == p
  }

  /** Matching `fmt` at `i` reads the printed fields back and ends after them. */
  predicate MatchesRender(fmt: Format, s: string, i: nat, acc: DateTime, dt: DateTime)
  {
    var m := Match(fmt, s, i, acc);
    m.Some? && m.value.0 == Fill(acc, fmt, dt) && m.value.1 == i + |Render(fmt, dt)|
  }

  lemma {:induction false} MatchRender(fmt: Format, s: string, i: nat, acc: DateTime, dt: DateTime)
    requires InRange(dt) && RenderedAt(fmt, s, i, dt)
    ensures MatchesRender(fmt, s, i, acc, dt)
    decreases |fmt|
  {
    if fmt != [] {
      match fmt[0]
      case Lit(c) =>
        RenderedLit(fmt, s, i, dt);
        MatchRender(fmt[1..], s, i + 1, acc, dt);
        MatchLitThen(fmt, s, i, acc, dt);
      case Num(f) =>
        RenderedNum(fmt, f, s, i, dt);
        MatchRender(fmt[1..], s, i + Width(f), Set(acc, f, Get(dt, f)), dt);
        MatchNumThen(fmt, f, s, i, acc, dt);
    }
  }

  lemma RenderedLit(fmt: Format, s: string, i: nat, dt: DateTime)
    requires fmt != [] && fmt[0].Lit? && RenderedAt(fmt, s, i, dt)
    ensures RenderedAt(fmt[1..], s, i + 1, dt)
  {
    assert RenderElem(fmt[0], dt) == [fmt[0].c];
    RenderSplit(fmt, s, i, dt);
  }

  lemma RenderedNum(fmt: Format, f: Field, s: string, i: nat, dt: DateTime)
    requires fmt != [] && fmt[0] == Num(f) && RenderedAt(fmt, s, i, dt)
    ensures RenderedAt(fmt[1..], s, i + Width(f), dt)
  {
    RenderSplit(fmt, s, i, dt);
  }

  /** The literal stepped over, then the rest of the format as the induction
      gives it. */
  lemma MatchLitThen(fmt: Format, s: string, i: nat, acc: DateTime, dt: DateTime)
    requires fmt != [] && fmt[0].Lit? && RenderedAt(fmt, s, i, dt)
    requires MatchesRender(fmt[1..], s, i + 1, acc, dt)
    ensures MatchesRender(fmt, s, i, acc, dt)
  {
    assert RenderElem(fmt[0], dt) == [fmt[0].c];
    RenderSplit(fmt, s, i, dt);
    assert s[i..i + 1][0] == s[i];
    MatchLit(fmt, s, i, acc);
    FillLit(acc, fmt, dt);
  }

  /** The field read, then the rest of the format as the induction gives it. */
  lemma MatchNumThen(fmt: Format, f: Field, s: string, i: nat, acc: DateTime, dt: DateTime)
    requires fmt != [] && fmt[0] == Num(f) && InRange(dt) && RenderedAt(fmt, s, i, dt)
    requires MatchesRender(fmt[1..], s, i + Width(f), Set(acc, f, Get(dt, f)), dt)
    ensures MatchesRender(fmt, s, i, acc, dt)
  {
    RenderSplit(fmt, s, i, dt);
    assert |RenderElem(fmt[0], dt)| == Width(f);
    MatchNum(fmt, f, s, i, acc, dt);
    FillNum(acc, fmt, f, dt);
  }

  /** A literal that matches is stepped over. */
  lemma MatchLit(fmt: Format, s: string, i: nat, acc: DateTime)
    requires fmt != [] && fmt[0].Lit?
    requires i < |s| && s[i] == fmt[0].c
    ensures Match(fmt, s, i, acc) == Match(fmt[1..], s, i + 1, acc)
  {
  }

  /** A printed field is read by its first alternative when the rest of
      the format then matches. */
  lemma MatchNum(fmt: Format, f: Field, s: string, i: nat, acc: DateTime, dt: DateTime)
    requires fmt != [] && fmt[0] == Num(f) && InRange(dt)
    requires PieceAt(s, i, RenderElem(Num(f), dt))
    requires Match(fmt[1..], s, i + Width(f), Set(acc, f, Get(dt, f))).Some?
    ensures Match(fmt, s, i, acc) == Match(fmt[1..], s, i + Width(f), Set(acc, f, Get(dt, f)))
  {
    AltsRendered(f, s, i, dt);
    TryAltsFirst(fmt[1..], f, s, i, acc, Alts(f, s, i), Width(f), Get(dt, f));
  }

  lemma RenderSplit(fmt: Format, s: string, i: nat, dt: DateTime)
    requires fmt != [] && RenderedAt(fmt, s, i, dt)
    ensures |Render(fmt, dt)| == |RenderElem(fmt[0], dt)| + |Render(fmt[1..], dt)|
    ensures PieceAt(s, i, RenderElem(fmt[0], dt))
    ensures RenderedAt(fmt[1..], s, i + |RenderElem(fmt[0], dt)|, dt)
  {
    SliceConcat(s, i, RenderElem(fmt[0], dt), Render(fmt[1..], dt));
  }

  /** Where the two halves of a piece of `s` lie. */
  lemma SliceConcat(s: string, i: nat, head: string, tail: string)
    requires PieceAt(s, i, head + tail)
    ensures PieceAt(s, i, head) && PieceAt(s, i + |head|, tail)
  {
    var w := s[i..i + |head + tail|];
    assert s[i..i + |head|] == w[..|head|];
    assert s[i + |head|..i + |head| + |tail|] == w[|head|..];
  }

  lemma TryAltsFirst(rest: Format, f: Field, s: string, i: nat, acc: DateTime, alts: seq<(nat, nat)>, w: nat, v: nat)
    requires alts != [] && alts[0] == (w, v) && Match(rest, s, i + w, Set(acc, f, v)).Some?
    ensures TryAlts(rest, f, s, i, acc, alts) == Match(rest, s, i + w, Set(acc, f, v))
  {
  }

  lemma FillLit(acc: DateTime, fmt: Format, dt: DateTime)
    requires fmt != [] && fmt[0].Lit?
    ensures Fill(acc, fmt[1..], dt) == Fill(acc, fmt, dt)
  {
  }

  lemma FillNum(acc: DateTime, fmt: Format, f: Field, dt: DateTime)
    requires fmt != [] && fmt[0] == Num(f)
    ensures Fill(Set(acc, f, Get(dt, f)), fmt[1..], dt) == Fill(acc, fmt, dt)
  {
  }

  /** A match leaves the fields the format does not mention as they were. */
  lemma {:induction false} MatchKeeps(fmt: Format, s: string, i: nat, acc: DateTime)
    requires Match(fmt, s, i, acc).Some?
    ensures Match(fmt, s, i, acc).value.0 == Fill(acc, fmt, Match(fmt, s, i, acc).value.0)
    decreases |fmt|, 1, 0
  {
    if fmt != [] {
      assert fmt == [fmt[0]] + fmt[1..];
      match fmt[0]
      case Lit(c) =>
        MatchKeeps(fmt[1..], s, i + 1, acc);
      case Num(f) =>
        TryAltsKeeps(fmt[1..], f, s, i, acc, Alts(f, s, i));
    }
  }

  lemma {:induction false} TryAltsKeeps(rest: Format, f: Field, s: string, i: nat, acc: DateTime, alts: seq<(nat, nat)>)
    requires TryAlts(rest, f, s, i, acc, alts).Some?
    ensures var dt := TryAlts(rest, f, s, i, acc, alts).value.0;
            dt == Fill(acc, [Num(f)] + rest, dt)
    decreases |rest| + 1, 0, |alts|
  {
    var acc' := Set(acc, f, alts[0].1);
    if Match(rest, s, i + alts[0].0, acc').Some? {
      MatchKeeps(rest, s, i + alts[0].0, acc');
    } else {
      TryAltsKeeps(rest, f, s, i, acc, alts[1..]);
    }
  }

  /** A date the format does not fully determine gets the defaults, so it
      stays valid. */
  lemma FillValid(j: nat, dt: DateTime)
    requires j < |Formats| && Valid(dt)
    ensures Valid(Fill(Default, Formats[j], dt))
  {
    var fmt := Formats[j];
    MentionsIn(fmt, Year);
    MentionsIn(fmt, Month);
    MentionsIn(fmt, Day);
    assert Num(Year) in fmt;
    assert Num(Day) in fmt ==> Num(Month) in fmt;
  }

  /** Every format reads back what it prints. */
  lemma ParseRender(j: nat, dt: DateTime)
    requires j < |Formats| && Valid(dt)
    ensures ParseWith(Formats[j], Render(Formats[j], dt)) == Some(Fill(Default, Formats[j], dt))
  {
    var s := Render(Formats[j], dt);
    assert RenderedAt(Formats[j], s, 0, dt) by { assert s[0..|s|] == s; }
    MatchRender(Formats[j], s, 0, Default, dt);
    FillValid(j, dt);
  }

  /** The shifted value is printed in the format that parsed the input and
      reads back, in that format, as the same date and time two years
      earlier. */
  lemma SubtractTwoYearsReparses(v: string)
    requires !IsBlank(v) && FirstFormat(Formats, Strip(v), 0).Some?
    ensures var (j, dt) := FirstFormat(Formats, Strip(v), 0).value;
            if ShiftOk(dt) then ParseWith(Formats[j], SubtractTwoYears(v)) == Some(Shifted(dt))
            else SubtractTwoYears(v) == v
  {
    var (j, dt) := FirstFormat(Formats, Strip(v), 0).value;
    FirstFormatParses(Formats, Strip(v), 0);
    if ShiftOk(dt) {
      ShiftedReparses(j, Strip(v), dt);
    }
  }

  lemma ShiftedReparses(j: nat, s: string, dt: DateTime)
    requires j < |Formats| && ParseWith(Formats[j], s) == Some(dt) && ShiftOk(dt)
    ensures ParseWith(Formats[j], Render(Formats[j], Shifted(dt))) == Some(Shifted(dt))
  {
    var fmt := Formats[j];
    MatchKeeps(fmt, s, 0, Default);
    assert dt == Fill(Default, fmt, dt);
    MentionsIn(fmt, Year);
    assert Num(Year) in fmt;
    ParseRender(j, Shifted(dt));
    assert Fill(Default, fmt, Shifted(dt)) == Shifted(dt);
  }

  /** The ISO date form of `dt`, as written by %Y-%m-%d. */
  function IsoDate(dt: DateTime): string { Render(Formats[0], dt) }

  lemma RenderElemDigits(f: Field, dt: DateTime)
    ensures var r := RenderElem(Num(f), dt); |r| >= 1 && AllDigits(r)
  {
  }

  /** A format that ends in a field prints a digit last. */
  lemma {:induction false} RenderEndsInDigit(fmt: Format, dt: DateTime)
    requires fmt != [] && fmt[|fmt| - 1].Num?
    ensures var r := Render(fmt, dt); |r| >= 1 && IsDigit(r[|r| - 1])
  {
    if |fmt| == 1 {
      RenderElemDigits(fmt[0].f, dt);
    } else {
      RenderEndsInDigit(fmt[1..], dt);
    }
  }

  lemma IsoDateTrimmed(dt: DateTime)
    ensures !IsBlank(IsoDate(dt)) && Strip(IsoDate(dt)) == IsoDate(dt)
  {
    var s := IsoDate(dt);
    RenderElemDigits(Year, dt);
    RenderEndsInDigit(Formats[0], dt);
    assert IsDigit(s[0]) && IsDigit(s[|s| - 1]);
    StripUnchanged(s);
  }

  lemma LeapTwoBefore(y: nat)
    requires Leap(y) && y >= 2
    ensures !Leap(y - 2)
  {
  }

  /** A date written in ISO form comes back two years earlier, in ISO form. */
  lemma ShiftIsoDate(dt: DateTime)
    requires Valid(dt) && dt.hour == 0 && dt.minute == 0 && dt.second == 0 && ShiftOk(dt)
    ensures SubtractTwoYears(IsoDate(dt)) == IsoDate(Shifted(dt))
  {
    IsoFirstFormat(dt);
    ShiftedWhenShiftable(IsoDate(dt), 0, dt);
  }

  /** An ISO date is read by the first format, as itself. */
  lemma IsoFirstFormat(dt: DateTime)
    requires Valid(dt) && dt.hour == 0 && dt.minute == 0 && dt.second == 0
    ensures !IsBlank(IsoDate(dt)) && FirstFormat(Formats, Strip(IsoDate(dt)), 0) == Some((0, dt))
  {
    IsoDateTrimmed(dt);
    ParseRender(0, dt);
    assert Fill(Default, Formats[0], dt) == dt;
  }

  lemma ShiftedWhenShiftable(v: string, j: nat, dt: DateTime)
    requires !IsBlank(v) && FirstFormat(Formats, Strip(v), 0) == Some((j, dt)) && ShiftOk(dt)
    ensures j < |Formats| && SubtractTwoYears(v) == Render(Formats[j], Shifted(dt))
  {
    FirstFormatParses(Formats, Strip(v), 0);
  }

  /** 29 February is kept as it was: two years before a leap year is not one. */
  lemma LeapDayUnchanged(dt: DateTime)
    requires Valid(dt) && dt.month == 2 && dt.day == 29 && dt.hour == 0 && dt.minute == 0 && dt.second == 0
    ensures SubtractTwoYears(IsoDate(dt)) == IsoDate(dt)
  {
    IsoFirstFormat(dt);
    LeapDayNotShiftable(dt);
    KeptWhenNotShiftable(IsoDate(dt), 0, dt);
  }

  lemma LeapDayNotShiftable(dt: DateTime)
    requires Valid(dt) && dt.month == 2 && dt.day == 29
    ensures !ShiftOk(dt)
  {
    LeapTwoBefore(dt.year);
  }

  lemma KeptWhenNotShiftable(v: string, j: nat, dt: DateTime)
    requires !IsBlank(v) && FirstFormat(Formats, Strip(v), 0) == Some((j, dt)) && !ShiftOk(dt)
    ensures SubtractTwoYears(v) == v
  {
  }

  /** The loop over the formats: the first one that parses, and the date. */
  method FindFormat(s: string) returns (r: Option<(nat, DateTime)>)
    ensures r == FirstFormat(Formats, s, 0)
  {
    for j := 0 to |Formats|
      invariant FirstFormat(Formats, s, 0) == FirstFormat(Formats, s, j)
    {
      var parsed := ParseWith(Formats[j], s);
      if parsed.Some? {
        return Some((j, parsed.value));
      }
    }
    return None;
  }

  /** _subtract_two_years_from_date with its format-trial loop. */
  method SubtractTwoYearsFromDate(v: string) returns (r: string)
    ensures r == SubtractTwoYears(v)
  {
    if IsBlank(v) {
      return v;
    }
    var found := FindFormat(Strip(v));
    if found.None? {
      return v;
    }
    var (j, dt) := found.value;
    if !ShiftOk(dt) {
      return v;
    }
    r := Render(Formats[j], Shifted(dt));
  }

  // ---------------------------------------------------------------- column dispatch

  /** The rule a column gets; Keep when none applies. */
  datatype Rule = Study | Subject | DateShift | Site | Investigator | Age | Keep

  predicate IsDmFile(filename: string) { Upper(filename) == "DM.CSV" }

  /** The elif chain over the upper-cased column name. */
  function RuleFor(column: string, isDm: bool): Rule
  {
    var c := Upper(column);
    if c == "STUDYID" then Study
    else if c == "SUBJID" || c == "USUBJID" then Subject
    else if EndsWith(c, "DTC") then DateShift
    else if c == "SITEID" && isDm then Site
    else if (c == "INVNAM" || c == "ICINVNAM") && isDm then Investigator
    else if c == "AGE" && isDm then Age
    else Keep
  }

  /** Outside DM.csv the site, investigator and age columns are kept; the
      file name only decides those four. */
  lemma DmOnlyRules(column: string)
    ensures RuleFor(column, false) in {Study, Subject, DateShift, Keep}
    ensures RuleFor(column, true) != RuleFor(column, false) ==>
              Upper(column) in {"SITEID", "INVNAM", "ICINVNAM", "AGE"}
  {
  }

  function ApplyRule(rule: Rule, v: string): string
  {
    match rule
    case Study => MaskIfPresent(StudyMask, v)
    case Subject => ProcessSubjectId(v)
    case DateShift => SubtractTwoYears(v)
    case Site => MaskIfPresent(SiteMask, v)
    case Investigator => MaskIfPresent(InvestigatorMask, v)
    case Age => AgeMask(v)
    case Keep => v
  }

  /** No rule touches a blank value. */
  lemma BlankUntouched(rule: Rule, v: string)
    requires IsBlank(v)
    ensures ApplyRule(rule, v) == v
  {
  }

  // ---------------------------------------------------------------- baseline

  /** The first column whose upper-cased name is `name`. */
  function FindUpper(header: seq<string>, name: string): (r: Option<nat>)
    ensures r.Some? ==> r.value < |header| && Upper(header[r.value]) == name
    ensures r.Some? ==> forall j :: 0 <= j < r.value ==> Upper(header[j]) != name
    ensures r.None? ==> forall j :: 0 <= j < |header| ==> Upper(header[j]) != name
  {
    if header == [] then None
    else if Upper(header[0]) == name then Some(0)
    else
      match FindUpper(header[1..], name)
      case None => None
      case Some(k) => Some(k + 1)
  }

  /** The row test of the baseline filter: its USUBJID is in the list. */
  function InBaseline(k: nat, baseline: seq<string>): seq<string> -> bool
  {
    row => k < |row| && row[k] in baseline
  }

  /** The rows kept before masking: with a baseline and a USUBJID column,
      exactly the rows whose USUBJID is in the baseline, in order. */
  function BaselineFilter(t: Table, baseline: seq<string>): (r: Table)
    requires WellFormed(t)
    ensures WellFormed(r) && r.header == t.header && IsSubseq(r.rows, t.rows)
    ensures baseline == [] || FindUpper(t.header, "USUBJID").None? ==> r == t
    ensures baseline != [] && FindUpper(t.header, "USUBJID").Some? ==>
              var k := FindUpper(t.header, "USUBJID").value;
              (forall row :: row in r.rows ==> row[k] in baseline) &&
              (forall row :: row in t.rows && row[k] in baseline ==> row in r.rows)
    ensures baseline != [] && FindUpper(t.header, "USUBJID").Some? ==>
              var k := FindUpper(t.header, "USUBJID").value;
              forall row :: multiset(r.rows)[row] == if k < |row| && row[k] in baseline then multiset(t.rows)[row] else 0
  {
    if baseline != [] && FindUpper(t.header, "USUBJID").Some? then
      var rows := Filter(t.rows, InBaseline(FindUpper(t.header, "USUBJID").value, baseline));
      FilterIsSubseq(t.rows, InBaseline(FindUpper(t.header, "USUBJID").value, baseline));
      FilterMembers(t.rows, InBaseline(FindUpper(t.header, "USUBJID").value, baseline));
      FilterCount(t.rows, InBaseline(FindUpper(t.header, "USUBJID").value, baseline));
      RowsFrom(t, rows);
      Table(t.header, rows)
    else
      SubseqRefl(t.rows);
      t
  }

  function Column(t: Table, k: nat): (c: seq<string>)
    requires WellFormed(t) && k < |t.header|
    ensures |c| == |t.rows| && forall i :: 0 <= i < |t.rows| ==> c[i] == t.rows[i][k]
  {
    seq(|t.rows|, i requires 0 <= i < |t.rows| => t.rows[i][k])
  }

  function NotBlank(): string -> bool { v => !IsBlank(v) }

  /** The baseline taken from DM.csv: the first 100 non-blank values of
      its USUBJID column, in file order. */
  function BaselineOf(t: Table, k: nat): (b: seq<string>)
    requires WellFormed(t) && k < |t.header|
    ensures |b| <= BaselineSize && IsSubseq(b, Column(t, k))
    ensures forall v :: v in b ==> !IsBlank(v)
    ensures |b| < BaselineSize ==> b == Filter(Column(t, k), NotBlank())
    ensures var v := Filter(Column(t, k), NotBlank());
            |b| == (if |v| < BaselineSize then |v| else BaselineSize) && b == v[..|b|]
  {
    var values := Filter(Column(t, k), NotBlank());
    FilterIsSubseq(Column(t, k), NotBlank());
    FilterMembers(Column(t, k), NotBlank());
    var n := if |values| < BaselineSize then |values| else BaselineSize;
    SubseqTake(values, Column(t, k), n);
    assert forall v :: v in values[..n] ==> v in values;
    if n == |values| then TakeAll(values, n); values[..n] else values[..n]
  }

  // ---------------------------------------------------------------- processor

  class MaskingProcessor {
    var baseline: seq<string>

    constructor()
      ensures baseline == []
    {
      baseline := [];
    }

    /** The loop that looks for a column by its upper-cased name. */
    static method FindColumn(header: seq<string>, name: string) returns (r: Option<nat>)
      ensures r == FindUpper(header, name)
    {
      for j := 0 to |header|
        invariant forall i :: 0 <= i < j ==> Upper(header[i]) != name
      {
        if Upper(header[j]) == name {
          FindUpperFirst(header, name, j);
          return Some(j);
        }
      }
      FindUpperNone(header, name);
      return None;
    }

    /** set_baseline_from_dm on the DM table, None when it cannot be read. */
    method SetBaselineFromDm(dm: Option<Table>) returns (ok: bool)
      requires dm.Some? ==> WellFormed(dm.value)
      modifies this
      ensures ok <==> dm.Some? && FindUpper(dm.value.header, "USUBJID").Some?
      ensures !ok ==> baseline == old(baseline)
      ensures ok ==> baseline == BaselineOf(dm.value, FindUpper(dm.value.header, "USUBJID").value)
    {
      if dm.None? {
        return false;
      }
      var k := FindColumn(dm.value.header, "USUBJID");
      if k.None? {
        return false;
      }
      baseline := BaselineOf(dm.value, k.value);
      return true;
    }

    method ClearBaseline()
      modifies this
      ensures baseline == []
    {
      baseline := [];
    }

    /** _apply_masking_rules: the baseline filter, then one rule per column. */
    method ApplyMaskingRules(t: Table, filename: string) returns (r: Table)
      requires WellFormed(t)
      ensures WellFormed(r) && r.header == t.header
      ensures var f := BaselineFilter(t, baseline);
              |r.rows| == |f.rows| &&
              forall i, k :: 0 <= i < |r.rows| && 0 <= k < |t.header| ==>
                r.rows[i][k] == ApplyRule(RuleFor(t.header[k], IsDmFile(filename)), f.rows[i][k])
    {
      var isDm := IsDmFile(filename);
      var masked := t;
      if baseline != [] {
        var k := FindColumn(t.header, "USUBJID");
        if k.Some? {
          masked := BaselineFilter(t, baseline);
        }
      }
      r := MaskAll(masked, isDm);
    }

    /** The loop over the columns, each rewritten by its rule. */
    static method MaskAll(f: Table, isDm: bool) returns (r: Table)
      requires WellFormed(f)
      ensures WellFormed(r) && r.header == f.header && |r.rows| == |f.rows|
      ensures forall i, k :: 0 <= i < |r.rows| && 0 <= k < |f.header| ==>
                r.rows[i][k] == ApplyRule(RuleFor(f.header[k], isDm), f.rows[i][k])
    {
      r := f;
      for k := 0 to |f.header|
        invariant WellFormed(r) && r.header == f.header && |r.rows| == |f.rows|
        invariant forall i, c :: 0 <= i < |f.rows| && 0 <= c < k ==>
                    r.rows[i][c] == ApplyRule(RuleFor(f.header[c], isDm), f.rows[i][c])
        invariant forall i, c :: 0 <= i < |f.rows| && k <= c < |f.header| ==> r.rows[i][c] == f.rows[i][c]
      {
        r := MaskColumn(r, k, RuleFor(f.header[k], isDm));
      }
    }
  }

  lemma FindUpperFirst(header: seq<string>, name: string, j: nat)
    requires j < |header| && Upper(header[j]) == name
    requires forall i :: 0 <= i < j ==> Upper(header[i]) != name
    ensures FindUpper(header, name) == Some(j)
  {
    var r := FindUpper(header, name);
  }

  lemma FindUpperNone(header: seq<string>, name: string)
    requires forall i :: 0 <= i < |header| ==> Upper(header[i]) != name
    ensures FindUpper(header, name) == None
  {
  }

  /** One column rewritten by its rule, the others untouched. */
  function MaskColumn(t: Table, k: nat, rule: Rule): (r: Table)
    requires WellFormed(t) && k < |t.header|
    ensures WellFormed(r) && r.header == t.header && |r.rows| == |t.rows|
    ensures forall i, c :: 0 <= i < |t.rows| && 0 <= c < |t.header| ==>
              r.rows[i][c] == if c == k then ApplyRule(rule, t.rows[i][c]) else t.rows[i][c]
  {
    Table(t.header, seq(|t.rows|, i requires 0 <= i < |t.rows| => t.rows[i][k := ApplyRule(rule, t.rows[i][k])]))
  }
}
