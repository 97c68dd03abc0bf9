/** convert_to_iso8601: turn `Y/M/D` text into `Y-MM-DD`, leaving anything
    else as it is. No range check is made on the parts. */
module DateUtils {
  import opened Wrappers
  import opened Text

  /** The three `/`-separated parts read as integers, if they are exactly three
      and each is an integer. */
  function SlashParts(s: string): Option<(int, int, int)>
  {
    var parts := Split(s, '/');
    if |parts| != 3 then None
    else
      match (ParseInt(parts[0]), ParseInt(parts[1]), ParseInt(parts[2]))
      case (Some(y), Some(m), Some(d)) => Some((y, m, d))
      case _ => None
  }

  /** The hyphenated form: the year as printed by str(), month and day with
      two-digit zero padding. */
  function IsoText(y: int, m: int, d: int): (r: string)
    ensures IsNumeral(r) && |r| >= 5 && '/' !in r
  {
    var a, b, c := IntToString(y), FormatPadded(m, 2), FormatPadded(d, 2);
    NumeralJoin(a, "-");
    NumeralJoin(a + "-", b);
    NumeralJoin(a + "-" + b, "-");
    NumeralJoin(a + "-" + b + "-", c);
    a + "-" + b + "-" + c
  }

  lemma NumeralJoin(a: string, b: string)
    requires IsNumeral(a) && IsNumeral(b)
    ensures IsNumeral(a + b)
  {
    assert forall k :: |a| <= k < |a + b| ==> (a + b)[k] == b[k - |a|];
  }

  function ConvertToIso8601(s: string): (r: string)
    ensures IsBlank(s) ==> r == ""
    ensures !IsBlank(s) && Count(s, '/') != 2 ==> r == s
    ensures !IsBlank(s) && SlashParts(s).None? ==> r == s
    ensures SlashParts(s).Some? && !IsBlank(s) ==>
              r == IsoText(SlashParts(s).value.0, SlashParts(s).value.1, SlashParts(s).value.2)
  {
    SplitCount(s, '/');
    if IsBlank(s) then ""
    else if '/' in s then
      match SlashParts(s)
      case Some((y, m, d)) => IsoText(y, m, d)
      case None => s
    else s
  }

  lemma NumeralNotBlank(s: string)
    requires |s| >= 1 && IsNumeral(s)
    ensures !IsBlank(s)
  {
    BlankIffAllSpace(s);
    assert !IsSpace(s[0]);
  }

  function Printed(y: int, m: int, d: int): string
  {
    IntToString(y) + "/" + IntToString(m) + "/" + IntToString(d)
  }

  lemma SlashPartsPrinted(y: int, m: int, d: int)
    ensures SlashParts(Printed(y, m, d)) == Some((y, m, d))
  {
    ParseIntToString(y);
    ParseIntToString(m);
    ParseIntToString(d);
    SlashPartsOfPieces(IntToString(y), IntToString(m), IntToString(d), y, m, d);
  }

  /** Three integer pieces joined by '/' are read back as those integers. */
  lemma SlashPartsOfPieces(a: string, b: string, c: string, y: int, m: int, d: int)
    requires '/' !in a && '/' !in b && '/' !in c
    requires ParseInt(a) == Some(y) && ParseInt(b) == Some(m) && ParseInt(c) == Some(d)
    ensures SlashParts(a + "/" + b + "/" + c) == Some((y, m, d))
  {
    SplitThree(a, b, c);
  }

  /** Three pieces without '/' joined by '/' split back into themselves. */
  lemma SplitThree(a: string, b: string, c: string)
    requires '/' !in a && '/' !in b && '/' !in c
    ensures Split(a + "/" + b + "/" + c, '/') == [a, b, c]
  {
    var parts := [a, b, c];
    assert Join(parts, "/") == a + "/" + b + "/" + c by {
      assert Join(parts[1..], "/") == b + "/" + c;
    }
    SplitJoin(parts, '/');
  }

  /** Printed integers joined by `/` come back hyphenated and padded. */
  lemma ConvertPrinted(y: int, m: int, d: int)
    ensures ConvertToIso8601(Printed(y, m, d)) == IsoText(y, m, d)
  {
    SlashPartsPrinted(y, m, d);
    PrintedNotBlank(y, m, d);
  }

  lemma PrintedNotBlank(y: int, m: int, d: int)
    ensures !IsBlank(Printed(y, m, d))
  {
    var p := Printed(y, m, d);
    assert p[0] == IntToString(y)[0];
    LeadingNotBlank(p);
  }

  /** A string that starts with a digit or a sign is not blank. */
  lemma LeadingNotBlank(s: string)
    requires |s| >= 1 && (IsDigit(s[0]) || s[0] == '-')
    ensures !IsBlank(s)
  {
    BlankIffAllSpace(s);
  }

  /** Normalising twice is normalising once. */
  lemma ConvertIdempotent(s: string)
    ensures ConvertToIso8601(ConvertToIso8601(s)) == ConvertToIso8601(s)
  {
    var r := ConvertToIso8601(s);
    if !IsBlank(s) && SlashParts(s).Some? {
      NumeralNotBlank(r);
      assert Count(r, '/') == 0;
    }
  }


  function ZeroPadded(k: nat, n: nat): string { Zeros(k) + NatToString(n) }

  function ZeroPaddedDate(ky: nat, y: nat, km: nat, m: nat, kd: nat, d: nat): string
  {
    ZeroPadded(ky, y) + "/" + ZeroPadded(km, m) + "/" + ZeroPadded(kd, d)
  }

  lemma SlashPartsZeroPadded(ky: nat, y: nat, km: nat, m: nat, kd: nat, d: nat)
    ensures SlashParts(ZeroPaddedDate(ky, y, km, m, kd, d)) == Some((y, m, d))
  {
    var a, b, c := ZeroPadded(ky, y), ZeroPadded(km, m), ZeroPadded(kd, d);
    assert AllDigits(a) && AllDigits(b) && AllDigits(c);
    ParseZeroPadded(ky, y);
    ParseZeroPadded(km, m);
    ParseZeroPadded(kd, d);
    SlashPartsOfPieces(a, b, c, y, m, d);
  }

  lemma ZeroPaddedNotBlank(ky: nat, y: nat, km: nat, m: nat, kd: nat, d: nat)
    ensures !IsBlank(ZeroPaddedDate(ky, y, km, m, kd, d))
  {
    var a, p := ZeroPadded(ky, y), ZeroPaddedDate(ky, y, km, m, kd, d);
    assert p[0] == a[0];
    LeadingNotBlank(p);
  }

  /** Leading zeros in the input are dropped: the year comes out as str(int)
      prints it and month and day are re-padded to two digits. */
  lemma ConvertZeroPadded(ky: nat, y: nat, km: nat, m: nat, kd: nat, d: nat)
    ensures ConvertToIso8601(ZeroPaddedDate(ky, y, km, m, kd, d)) == IsoText(y, m, d)
  {
    SlashPartsZeroPadded(ky, y, km, m, kd, d);
    ZeroPaddedNotBlank(ky, y, km, m, kd, d);
  }

  /** The year is not padded back: "0020/1/2" gives "20-01-02". */
  lemma ExampleYearUnpadded(s: string)
    requires s == "0020/1/2"
    ensures ConvertToIso8601(s) == "20-01-02"
  {
    UnpaddedInput(s);
    UnpaddedOutput();
    ConvertZeroPadded(2, 20, 0, 1, 0, 2);
  }

  lemma UnpaddedInput(s: string)
    requires s == "0020/1/2"
    ensures ZeroPaddedDate(2, 20, 0, 1, 0, 2) == s
  {
    assert NatToString(2) == "2" && NatToString(1) == "1";
    assert NatToString(20) == "20";
    assert Zeros(2) == "00";
    assert ZeroPadded(2, 20) == "0020";
  }

  lemma UnpaddedOutput()
    ensures IsoText(20, 1, 2) == "20-01-02"
  {
    assert NatToString(2) == "2" && NatToString(1) == "1";
    assert FormatPadded(1, 2) == "01" && FormatPadded(2, 2) == "02";
    assert NatToString(20) == "20";
    assert IntToString(20) == "20";
  }

  /** No range check: month 13 passes through. */
  lemma ExampleMonthOutOfRange(s: string)
    requires s == "2020/13/05"
    ensures ConvertToIso8601(s) == "2020-13-05"
  {
    MonthExampleIn(s);
    MonthExampleOut();
    ConvertZeroPadded(0, 2020, 0, 13, 1, 5);
  }

  lemma MonthExampleIn(s: string)
    requires s == "2020/13/05"
    ensures ZeroPaddedDate(0, 2020, 0, 13, 1, 5) == s
  {
    Printed2020();
    assert NatToString(13) == "13" && NatToString(5) == "5";
    assert ZeroPadded(1, 5) == "05";
  }

  lemma MonthExampleOut()
    ensures IsoText(2020, 13, 5) == "2020-13-05"
  {
    Printed2020();
    assert NatToString(13) == "13" && NatToString(5) == "5";
    assert FormatPadded(13, 2) == "13" && FormatPadded(5, 2) == "05";
  }

  lemma Printed2020()
    ensures NatToString(2020) == "2020"
  {
    assert NatToString(2) == "2";
    assert NatToString(20) == "20";
    assert NatToString(202) == "202";
  }
}
