/** Full-width to half-width conversion of cell text: a fixed table of
    full-width forms and the ideographic space, applied to every character. */
module FullwidthConverter {
  import opened Seqs

  const IdeographicSpace: char := '\U{3000}'

  /** The full-width forms U+FF01 to U+FF5E sit 0xFEE0 above ASCII '!' to '~'. */
  const Offset: int := 0xFEE0

  predicate InFormsBlock(c: char) { 0xFF01 <= c as int <= 0xFF5E }

  /** A character the table has a key for. */
  predicate IsKey(c: char) { c == IdeographicSpace || InFormsBlock(c) }

  /** Table entries for `n` consecutive full-width forms starting at `lo`. */
  function Block(lo: int, n: nat): (r: seq<(char, char)>)
    requires 0xFF01 <= lo && lo + n <= 0xFF5F
    ensures |r| == n
    ensures forall k :: 0 <= k < n ==> r[k].0 as int == lo + k && r[k].1 as int == lo + k - Offset
  {
    seq(n, k requires 0 <= k < n => ((lo + k) as char, (lo + k - Offset) as char))
  }

  /** The conversion table in its insertion order: digits, upper-case
      letters, lower-case letters, the ideographic space, then the symbols
      ！ to ／, ： to ＠, ［ to ｀ and ｛ to ～. */
  const CharMap: seq<(char, char)> :=
    Block(0xFF10, 10) + Block(0xFF21, 26) + Block(0xFF41, 26) + [(IdeographicSpace, ' ')] +
    Block(0xFF01, 15) + Block(0xFF1A, 7) + Block(0xFF3B, 6) + Block(0xFF5B, 4)

  /** The half-width form of a character, or the character itself. */
  function Half(c: char): (h: char)
    ensures !IsKey(h)
    ensures IsKey(c) <==> h != c
  {
    if c == IdeographicSpace then ' '
    else if InFormsBlock(c) then (c as int - Offset) as char
    else c
  }

  function Keys(items: seq<(char, char)>): set<char>
  {
    set p | p in items :: p.0
  }

  /** Every entry maps a key to its half-width form. */
  predicate HalfEntries(table: seq<(char, char)>)
  {
    forall i :: 0 <= i < |table| ==> IsKey(table[i].0) && table[i].1 == Half(table[i].0)
  }

  /** Every entry maps a key to its half-width form, and every key has an
      entry: the table is the per-character function Half. */
  lemma CharMapIsHalf()
    ensures |CharMap| == 95
    ensures HalfEntries(CharMap)
    ensures forall c :: c in Keys(CharMap) <==> IsKey(c)
  {
    CharMapEntries();
    forall c | IsKey(c)
      ensures c in Keys(CharMap)
    {
      var code := c as int;
      var i :=
        if c == IdeographicSpace then 62
        else if 0xFF10 <= code <= 0xFF19 then code - 0xFF10
        else if 0xFF21 <= code <= 0xFF3A then 10 + code - 0xFF21
        else if 0xFF41 <= code <= 0xFF5A then 36 + code - 0xFF41
        else if code <= 0xFF0F then 63 + code - 0xFF01
        else if code <= 0xFF20 then 78 + code - 0xFF1A
        else if code <= 0xFF40 then 85 + code - 0xFF3B
        else 91 + code - 0xFF5B;
      assert CharMap[i].0 == c;
      assert CharMap[i] in CharMap;
    }
  }

  lemma CharMapEntries()
    ensures |CharMap| == 95 && HalfEntries(CharMap)
  {
    var space: seq<(char, char)> := [(IdeographicSpace, ' ')];
    BlockHalf(0xFF10, 10);
    BlockHalf(0xFF21, 26);
    BlockHalf(0xFF41, 26);
    BlockHalf(0xFF01, 15);
    BlockHalf(0xFF1A, 7);
    BlockHalf(0xFF3B, 6);
    BlockHalf(0xFF5B, 4);
    var t := Block(0xFF10, 10);
    HalfEntriesConcat(t, Block(0xFF21, 26));
    t := t + Block(0xFF21, 26);
    HalfEntriesConcat(t, Block(0xFF41, 26));
    t := t + Block(0xFF41, 26);
    HalfEntriesConcat(t, space);
    t := t + space;
    HalfEntriesConcat(t, Block(0xFF01, 15));
    t := t + Block(0xFF01, 15);
    HalfEntriesConcat(t, Block(0xFF1A, 7));
    t := t + Block(0xFF1A, 7);
    HalfEntriesConcat(t, Block(0xFF3B, 6));
    t := t + Block(0xFF3B, 6);
    HalfEntriesConcat(t, Block(0xFF5B, 4));
  }

  lemma BlockHalf(lo: int, n: nat)
    requires 0xFF01 <= lo && lo + n <= 0xFF5F
    ensures HalfEntries(Block(lo, n))
  {
  }

  lemma HalfEntriesConcat(a: seq<(char, char)>, b: seq<(char, char)>)
    requires HalfEntries(a) && HalfEntries(b)
    ensures HalfEntries(a + b)
  {
    forall i | 0 <= i < |a + b|
      ensures IsKey((a + b)[i].0) && (a + b)[i].1 == Half((a + b)[i].0)
    {
      if i >= |a| {
        assert (a + b)[i] == b[i - |a|];
      }
    }
  }

  /** str.replace(a, b) for single characters. */
  function Replace(s: string, a: char, b: char): (r: string)
    ensures |r| == |s|
    ensures forall k :: 0 <= k < |s| ==> r[k] == if s[k] == a then b else s[k]
  {
    seq(|s|, k requires 0 <= k < |s| => if s[k] == a then b else s[k])
  }

  /** The text with every character replaced by its half-width form. */
  function Converted(text: string): (r: string)
    ensures |r| == |text|
    ensures forall k :: 0 <= k < |text| ==> r[k] == Half(text[k])
  {
    seq(|text|, k requires 0 <= k < |text| => Half(text[k]))
  }

  /** A cell value: text, or anything else (a number, None, NaN). */
  datatype Value = Text(text: string) | NotText

  /** convert_text: the table's replacements applied one after another. */
  method ConvertText(value: Value) returns (r: Value)
    ensures value.NotText? ==> r == value
    ensures value.Text? ==> r == Text(Converted(value.text))
  {
    if value.NotText? {
      return value;
    }
    CharMapIsHalf();
    var result := ReplaceEach(value.text, CharMap);
    assert result == Converted(value.text);
    return Text(result);
  }

  /** The loop of convert_text: `text.replace(fullwidth, halfwidth)` for
      each table entry in turn. */
  method ReplaceEach(text: string, table: seq<(char, char)>) returns (result: string)
    requires HalfEntries(table)
    ensures |result| == |text|
    ensures forall k :: 0 <= k < |text| ==>
      result[k] == if text[k] in Keys(table) then Half(text[k]) else text[k]
  {
    result := text;
    for i := 0 to |table|
      invariant |result| == |text|
      invariant forall k :: 0 <= k < |text| ==>
        result[k] == if text[k] in Keys(table[..i]) then Half(text[k]) else text[k]
    {
      var (fullwidth, halfwidth) := table[i];
      KeysSnoc(table, i);
      result := Replace(result, fullwidth, halfwidth);
    }
    TakeAll(table, |table|);
  }

  lemma KeysSnoc(table: seq<(char, char)>, i: nat)
    requires i < |table|
    ensures Keys(table[..i + 1]) == Keys(table[..i]) + {table[i].0}
  {
    assert table[..i + 1] == table[..i] + [table[i]];
  }

  /** No table key is left after conversion. */
  lemma ConvertedHasNoKey(text: string)
    ensures forall k :: 0 <= k < |text| ==> !IsKey(Converted(text)[k])
  {
  }

  /** Converting twice is converting once. */
  lemma ConvertIdempotent(text: string)
    ensures Converted(Converted(text)) == Converted(text)
  {
  }

  /** Text without keys is left alone. */
  lemma ConvertUnchanged(text: string)
    requires forall k :: 0 <= k < |text| ==> !IsKey(text[k])
    ensures Converted(text) == text
  {
  }

  /** Number of positions where two equally long strings differ. */
  function Differences(a: string, b: string): nat
    requires |a| == |b|
  {
    if a == [] then 0
    else Differences(a[..|a| - 1], b[..|b| - 1]) + (if a[|a| - 1] != b[|b| - 1] then 1 else 0)
  }

  /** The key count is the number of characters the conversion changes. */
  lemma {:induction false} KeyCountIsChanges(text: string)
    ensures CountIf(text, IsKey) == Differences(text, Converted(text))
  {
    if text != [] {
      var front := text[..|text| - 1];
      KeyCountIsChanges(front);
      assert Converted(text)[..|text| - 1] == Converted(front);
    }
  }

  /** get_conversion_stats: both counters step on every key character. */
  method GetConversionStats(value: Value) returns (fullwidthCount: nat, convertedCount: nat)
    ensures value.NotText? ==> fullwidthCount == 0 && convertedCount == 0
    ensures value.Text? ==> fullwidthCount == CountIf(value.text, IsKey) && convertedCount == fullwidthCount
  {
    if value.NotText? {
      return 0, 0;
    }
    var text := value.text;
    CharMapIsHalf();
    fullwidthCount, convertedCount := 0, 0;
    for i := 0 to |text|
      invariant fullwidthCount == CountIf(text[..i], IsKey) && convertedCount == fullwidthCount
    {
      CountIfSnoc(text, i, IsKey);
      if text[i] in Keys(CharMap) {
        fullwidthCount := fullwidthCount + 1;
        convertedCount := convertedCount + 1;
      }
    }
    TakeAll(text, |text|);
  }
}
