/** Character and string helpers with the behaviour of the Python built-ins the
    tools rely on (str.strip, str.lower/upper, str.split, str.join, int(),
    str.zfill and f-string integer formatting), restricted to ASCII. */
module Text {
  import opened Wrappers

  /** The ASCII characters Python's str.strip() removes by default. */
  const Whitespace: set<char> := {' ', '\t', '\n', '\r', '\U{B}', '\U{C}', '\U{1C}', '\U{1D}', '\U{1E}', '\U{1F}'}

  predicate IsSpace(c: char) { c in Whitespace }

  /** str.lstrip(chars): drop leading characters from `cs`. */
  function TrimLeftOf(s: string, cs: set<char>): (r: string)
    ensures |r| <= |s| && r == s[|s| - |r|..]
    ensures r == [] || r[0] !in cs
    ensures forall k :: 0 <= k < |s| - |r| ==> s[k] in cs
  {
    if s != [] && s[0] in cs then TrimLeftOf(s[1..], cs) else s
  }

  /** str.rstrip(chars): drop trailing characters from `cs`. */
  function TrimRightOf(s: string, cs: set<char>): (r: string)
    ensures |r| <= |s| && r == s[..|r|]
    ensures r == [] || r[|r| - 1] !in cs
    ensures forall k :: |r| <= k < |s| ==> s[k] in cs
  {
    if s != [] && s[|s| - 1] in cs then TrimRightOf(s[..|s| - 1], cs) else s
  }

  /** str.strip() on ASCII whitespace. */
  function Strip(s: string): (r: string)
    ensures |r| <= |s|
    ensures r == [] || (!IsSpace(r[0]) && !IsSpace(r[|r| - 1]))
  {
    TrimRightOf(TrimLeftOf(s, Whitespace), Whitespace)
  }

  /** A string that neither starts nor ends with whitespace is its own strip. */
  lemma StripUnchanged(s: string)
    requires s == [] || (!IsSpace(s[0]) && !IsSpace(s[|s| - 1]))
    ensures Strip(s) == s
  {
    assert TrimLeftOf(s, Whitespace) == s;
    assert TrimRightOf(s, Whitespace) == s;
  }

  /** A string is blank when it is made of whitespace only (`not s.strip()`). */
  predicate IsBlank(s: string) { Strip(s) == [] }

  lemma BlankIffAllSpace(s: string)
    ensures IsBlank(s) <==> forall k :: 0 <= k < |s| ==> IsSpace(s[k])
  {
    var l := TrimLeftOf(s, Whitespace);
    if IsBlank(s) {
      BlankTail(s, l);
    }
  }

  /** Once the leading whitespace is gone, a blank string has nothing left. */
  lemma BlankTail(s: string, l: string)
    requires l == TrimLeftOf(s, Whitespace) && TrimRightOf(l, Whitespace) == []
    ensures forall k :: 0 <= k < |s| ==> IsSpace(s[k])
  {
    assert l == [];
  }

  lemma StripIdempotent(s: string)
    ensures Strip(Strip(s)) == Strip(s)
  {
    StripUnchanged(Strip(s));
  }

  function LowerChar(c: char): char
  {
    if 'A' <= c <= 'Z' then (c as int + 32) as char else c
  }

  function UpperChar(c: char): char
  {
    if 'a' <= c <= 'z' then (c as int - 32) as char else c
  }

  /** str.lower() on ASCII letters. */
  function Lower(s: string): (r: string)
    ensures |r| == |s| && forall k :: 0 <= k < |s| ==> r[k] == LowerChar(s[k])
  {
    seq(|s|, k requires 0 <= k < |s| => LowerChar(s[k]))
  }

  /** str.upper() on ASCII letters. */
  function Upper(s: string): (r: string)
    ensures |r| == |s| && forall k :: 0 <= k < |s| ==> r[k] == UpperChar(s[k])
  {
    seq(|s|, k requires 0 <= k < |s| => UpperChar(s[k]))
  }

  /** str.endswith(suffix). */
  predicate EndsWith(s: string, suffix: string)
  {
    |suffix| <= |s| && s[|s| - |suffix|..] == suffix
  }

  /** Number of occurrences of `c` in `s`. */
  function Count(s: string, c: char): (n: nat)
    ensures n <= |s|
    ensures n == 0 <==> c !in s
  {
    if s == [] then 0 else Count(s[..|s| - 1], c) + (if s[|s| - 1] == c then 1 else 0)
  }

  /** Position of the first `c` in `s` (str.index). */
  function IndexOf(s: string, c: char): (i: nat)
    requires c in s
    ensures i < |s| && s[i] == c && c !in s[..i]
  {
    if s[0] == c then 0 else IndexOf(s[1..], c) + 1
  }

  /** str.split(sep) for a one-character separator. */
  function Split(s: string, c: char): (parts: seq<string>)
    ensures |parts| >= 1
    ensures forall p :: p in parts ==> c !in p
    decreases |s|
  {
    if c !in s then [s]
    else
      var i := IndexOf(s, c);
      [s[..i]] + Split(s[i + 1..], c)
  }

  /** sep.join(parts). */
  function Join(parts: seq<string>, sep: string): string
  {
    if |parts| == 0 then ""
    else if |parts| == 1 then parts[0]
    else parts[0] + sep + Join(parts[1..], sep)
  }

  lemma CountAppend(a: string, b: string, c: char)
    ensures Count(a + b, c) == Count(a, c) + Count(b, c)
    decreases |b|
  {
    if b == [] {
      assert a + b == a;
    } else {
      assert (a + b)[..|a + b| - 1] == a + b[..|b| - 1];
      CountAppend(a, b[..|b| - 1], c);
    }
  }

  /** str.split gives one more part than there are separators. */
  lemma {:induction false} SplitCount(s: string, c: char)
    ensures |Split(s, c)| == Count(s, c) + 1
    decreases |s|
  {
    if c in s {
      var i := IndexOf(s, c);
      assert s == s[..i] + [c] + s[i + 1..];
      CountAppend(s[..i] + [c], s[i + 1..], c);
      CountAppend(s[..i], [c], c);
      SplitCount(s[i + 1..], c);
    }
  }

  /** Joining the parts with the separator gives the original string back. */
  lemma {:induction false} JoinSplit(s: string, c: char)
    ensures Join(Split(s, c), [c]) == s
    decreases |s|
  {
    if c in s {
      var i := IndexOf(s, c);
      var rest := Split(s[i + 1..], c);
      assert Split(s, c) == [s[..i]] + rest;
      assert ([s[..i]] + rest)[1..] == rest;
      JoinSplit(s[i + 1..], c);
      assert s == s[..i] + [c] + s[i + 1..];
    }
  }

  /** Splitting a join of separator-free parts recovers the parts. */
  lemma {:induction false} SplitJoin(parts: seq<string>, c: char)
    requires |parts| >= 1
    requires forall p :: p in parts ==> c !in p
    ensures Split(Join(parts, [c]), c) == parts
    decreases |parts|
  {
    if |parts| > 1 {
      var rest := Join(parts[1..], [c]);
      assert Join(parts, [c]) == parts[0] + [c] + rest;
      SplitHead(parts[0], c, rest);
      SplitJoin(parts[1..], c);
      assert parts == [parts[0]] + parts[1..];
    }
  }

  /** The first piece of a split ends at the first separator. */
  lemma SplitHead(a: string, c: char, rest: string)
    requires c !in a
    ensures Split(a + [c] + rest, c) == [a] + Split(rest, c)
  {
    var s := a + [c] + rest;
    assert s[|a|] == c;
    var i := IndexOf(s, c);
    assert s[..|a|] == a;
    assert forall k :: 0 <= k < i ==> s[k] != c by {
      assert forall k :: 0 <= k < i ==> s[k] == s[..i][k];
    }
    assert forall k :: 0 <= k < |a| ==> s[k] != c by {
      assert forall k :: 0 <= k < |a| ==> s[k] == a[k];
    }
    assert i == |a|;
    assert s[i + 1..] == rest;
  }

  predicate IsDigit(c: char) { '0' <= c <= '9' }

  predicate AllDigits(s: string) { forall k :: 0 <= k < |s| ==> IsDigit(s[k]) }

  /** Made of digits and minus signs only, as printed integers are. */
  predicate IsNumeral(s: string) { forall k :: 0 <= k < |s| ==> IsDigit(s[k]) || s[k] == '-' }

  function DigitChar(d: nat): (c: char)
    requires d < 10
    ensures IsDigit(c)
  {
    ('0' as int + d) as char
  }

  function DigitValue(c: char): (d: nat)
    requires IsDigit(c)
    ensures d < 10 && DigitChar(d) == c
  {
    c as int - '0' as int
  }

  /** Value of a string of decimal digits. */
  function DigitsValue(s: string): nat
    requires AllDigits(s)
  {
    if s == [] then 0 else 10 * DigitsValue(s[..|s| - 1]) + DigitValue(s[|s| - 1])
  }

  /** Decimal rendering of a natural number, as str(n) prints it. */
  function NatToString(n: nat): (r: string)
    ensures |r| >= 1 && AllDigits(r)
    ensures |r| > 1 ==> r[0] != '0'
  {
    if n < 10 then [DigitChar(n)] else NatToString(n / 10) + [DigitChar(n % 10)]
  }

  /** Reading back a printed number gives the number. */
  lemma {:induction false} NatToStringValue(n: nat)
    ensures DigitsValue(NatToString(n)) == n
  {
    if n >= 10 {
      var s := NatToString(n);
      assert s[..|s| - 1] == NatToString(n / 10);
      NatToStringValue(n / 10);
    }
  }

  lemma NatToStringInjective(a: nat, b: nat)
    requires NatToString(a) == NatToString(b)
    ensures a == b
  {
    NatToStringValue(a);
    NatToStringValue(b);
  }

  /** f"{i}" for an integer. */
  function IntToString(i: int): (r: string)
    ensures i >= 0 ==> r == NatToString(i)
    ensures i < 0 ==> r == "-" + NatToString(-i)
    ensures |r| >= 1 && IsNumeral(r)
  {
    if i < 0 then "-" + NatToString(-i) else NatToString(i)
  }

  function Zeros(n: nat): (r: string)
    ensures |r| == n && forall k :: 0 <= k < n ==> r[k] == '0'
  {
    if n == 0 then "" else Zeros(n - 1) + "0"
  }

  /** str.zfill(width) for a string of digits. */
  function ZFill(s: string, width: nat): (r: string)
    ensures |r| == if |s| < width then width else |s|
    ensures EndsWith(r, s)
    ensures forall k :: 0 <= k < |r| - |s| ==> r[k] == '0'
  {
    if |s| < width then Zeros(width - |s|) + s else s
  }

  /** f"{i:0<width>d}": the sign, then zeros, then the digits of |i|. */
  function FormatPadded(i: int, width: nat): (r: string)
    ensures |r| >= width && |r| >= 1 && IsNumeral(r)
    ensures i >= 0 ==> r == ZFill(NatToString(i), width)
  {
    if i < 0 then
      var digits := NatToString(-i);
      "-" + ZFill(digits, if width > 0 then width - 1 else 0)
    else ZFill(NatToString(i), width)
  }

  /** int(s) restricted to ASCII: surrounding whitespace, an optional sign and
      at least one decimal digit; anything else is the ValueError case. */
  function ParseInt(s: string): (r: Option<int>)
    ensures r.Some? ==> Strip(s) != []
  {
    var t := Strip(s);
    if t == [] then None else ParseSigned(t)
  }

  /** The stripped text: an optional sign, then at least one digit. */
  function ParseSigned(t: string): Option<int>
    requires t != []
  {
    var digits := if t[0] == '-' || t[0] == '+' then t[1..] else t;
    if digits == [] || !AllDigits(digits) then None
    else if t[0] == '-' then Some(-(DigitsValue(digits) as int))
    else Some(DigitsValue(digits) as int)
  }

  lemma DigitsNoSpace(s: string)
    requires AllDigits(s)
    ensures forall k :: 0 <= k < |s| ==> !IsSpace(s[k])
  {
  }

  /** int() reads back every integer str() prints. */
  lemma ParseIntToString(i: int)
    ensures ParseInt(IntToString(i)).Some? && ParseInt(IntToString(i)).value == i
  {
    if i < 0 {
      NegatedValue(i);
      ParseNegative(NatToString(-i));
    } else {
      NatToStringValue(i);
      ParseDigits(NatToString(i));
    }
  }

  lemma NegatedValue(i: int)
    requires i < 0
    ensures DigitsValue(NatToString(-i)) == -i
  {
    NatToStringValue(-i);
  }

  /** int() of a minus sign and digits is the negated value. */
  lemma ParseNegative(d: string)
    requires |d| >= 1 && AllDigits(d)
    ensures ParseInt("-" + d).Some? && ParseInt("-" + d).value == -(DigitsValue(d) as int)
  {
    var s := "-" + d;
    assert !IsSpace(s[0]) && !IsSpace(s[|s| - 1]) by {
      assert s[|s| - 1] == d[|d| - 1];
    }
    StripUnchanged(s);
    NegativeSigned(d);
  }

  lemma NegativeSigned(d: string)
    requires |d| >= 1 && AllDigits(d)
    ensures ParseSigned("-" + d).Some? && ParseSigned("-" + d).value == -(DigitsValue(d) as int)
  {
    assert ("-" + d)[1..] == d;
  }

  /** Reading a zero-padded string of digits ignores the padding. */
  lemma {:induction false} ZerosPrefixValue(n: nat, s: string)
    requires AllDigits(s)
    ensures AllDigits(Zeros(n) + s) && DigitsValue(Zeros(n) + s) == DigitsValue(s)
    decreases |s|, n
  {
    if s == [] {
      if n > 0 {
        assert Zeros(n) + s == Zeros(n - 1) + "0";
        assert (Zeros(n) + s)[..n - 1] == Zeros(n - 1) + [];
        ZerosPrefixValue(n - 1, []);
      }
    } else {
      var t := Zeros(n) + s;
      assert t[..|t| - 1] == Zeros(n) + s[..|s| - 1];
      ZerosPrefixValue(n, s[..|s| - 1]);
    }
  }

  /** int() ignores leading zeros: "0020" reads as 20. */
  lemma ParseZeroPadded(k: nat, n: nat)
    ensures ParseInt(Zeros(k) + NatToString(n)) == Some(n)
  {
    var s := Zeros(k) + NatToString(n);
    ZerosPrefixValue(k, NatToString(n));
    NatToStringValue(n);
    ParseDigits(s);
  }

  /** int() of a non-empty digit string is its value. */
  lemma ParseDigits(s: string)
    requires |s| >= 1 && AllDigits(s)
    ensures ParseInt(s) == Some(DigitsValue(s))
  {
    assert !IsSpace(s[0]) && !IsSpace(s[|s| - 1]);
    StripUnchanged(s);
  }

  /** A digit string with a non-zero first digit has value at least 1. */
  lemma {:induction false} DigitsValuePositive(s: string)
    requires |s| >= 1 && AllDigits(s) && s[0] != '0'
    ensures DigitsValue(s) >= 1
  {
    if |s| > 1 {
      DigitsValuePositive(s[..|s| - 1]);
    }
  }

  /** str(int(s)) == s for digit strings without a leading zero. */
  lemma {:induction false} NatToStringDigits(s: string)
    requires |s| >= 1 && AllDigits(s)
    requires |s| == 1 || s[0] != '0'
    ensures NatToString(DigitsValue(s)) == s
  {
    if |s| > 1 {
      var s' := s[..|s| - 1];
      DigitsValuePositive(s');
      NatToStringDigits(s');
      assert s == s' + [s[|s| - 1]];
    }
  }

  /** f"{int(s):02d}" is s.zfill(2) for one or two digits. */
  lemma PadTwoDigits(s: string)
    requires 1 <= |s| <= 2 && AllDigits(s)
    ensures FormatPadded(DigitsValue(s), 2) == ZFill(s, 2)
  {
    if |s| == 2 && s[0] == '0' {
      LeadingZero(s);
      NatToStringDigits(s[1..]);
    } else {
      NatToStringDigits(s);
    }
  }

  /** "0d" reads as d and is d zero-filled to two places. */
  lemma LeadingZero(s: string)
    requires |s| == 2 && AllDigits(s) && s[0] == '0'
    ensures DigitsValue(s) == DigitsValue(s[1..]) && ZFill(s[1..], 2) == s
  {
    LeadingZeroValue(s);
    assert Zeros(1) == "0";
    assert "0" + s[1..] == s;
  }

  lemma LeadingZeroValue(s: string)
    requires |s| == 2 && AllDigits(s) && s[0] == '0'
    ensures DigitsValue(s) == DigitsValue(s[1..])
  {
    var h := s[..1];
    assert h[..0] == [] && h[0] == '0';
    var t := s[1..];
    assert t[..0] == [] && t[0] == s[1];
  }

  lemma ZFillDigits(s: string, width: nat)
    requires AllDigits(s)
    ensures AllDigits(ZFill(s, width))
  {
    var r := ZFill(s, width);
    if |s| < width {
      var n := width - |s|;
      assert r == Zeros(n) + s;
      assert forall k :: n <= k < |r| ==> r[k] == s[k - n];
    }
  }

  /** Zero padding does not change the value read back. */
  lemma FormatPaddedValue(n: nat, width: nat)
    ensures AllDigits(FormatPadded(n, width)) && DigitsValue(FormatPadded(n, width)) == n
  {
    NatToStringValue(n);
    ZFillValue(NatToString(n), width);
  }

  lemma ZFillValue(s: string, width: nat)
    requires AllDigits(s)
    ensures AllDigits(ZFill(s, width)) && DigitsValue(ZFill(s, width)) == DigitsValue(s)
  {
    if |s| < width {
      ZerosPrefixValue(width - |s|, s);
    }
  }
}
