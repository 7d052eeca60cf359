/** The parts of Python's `str` behaviour the notifier depends on: the
    whitespace and line-break classes, `strip`, `lower`, `splitlines`,
    `split`, `join`, decimal rendering and `int()` parsing. */
module Strings {
  import opened Wrappers

  /** Characters for which Python's `str.isspace()` holds. */
  predicate IsSpace(c: char) {
    || c == ' '
    || '\t' <= c <= '\r'
    || '\U{1c}' <= c <= '\U{1f}'
    || c == '\U{85}' || c == '\U{a0}' || c == '\U{1680}'
    || '\U{2000}' <= c <= '\U{200a}'
    || c == '\U{2028}' || c == '\U{2029}' || c == '\U{202f}' || c == '\U{205f}'
    || c == '\U{3000}'
  }

  /** Characters at which `str.splitlines()` ends a line (every one of them is
      also whitespace). */
  predicate IsLineBreak(c: char) {
    || '\n' <= c <= '\r'
    || '\U{1c}' <= c <= '\U{1e}'
    || c == '\U{85}' || c == '\U{2028}' || c == '\U{2029}'
  }

  predicate HasNoBreak(s: string) {
    forall k :: 0 <= k < |s| ==> !IsLineBreak(s[k])
  }

  predicate HasNoSpace(s: string) {
    forall k :: 0 <= k < |s| ==> !IsSpace(s[k])
  }

  /** True when `s` neither starts nor ends with whitespace: what `strip` leaves. */
  predicate IsStripped(s: string) {
    |s| == 0 || (!IsSpace(s[0]) && !IsSpace(s[|s| - 1]))
  }

  /** `s.lstrip()`: drops the whitespace prefix and nothing else. */
  function LStrip(s: string): (r: string)
    ensures |r| <= |s| && r == s[|s| - |r|..]
    ensures |r| == 0 || !IsSpace(r[0])
    ensures forall k :: 0 <= k < |s| - |r| ==> IsSpace(s[k])
  {
    if |s| == 0 || !IsSpace(s[0]) then s else LStrip(s[1..])
  }

  /** `s.rstrip()`: drops the whitespace suffix and nothing else. */
  function RStrip(s: string): (r: string)
    ensures |r| <= |s| && r == s[..|r|]
    ensures |r| == 0 || !IsSpace(r[|r| - 1])
    ensures forall k :: |r| <= k < |s| ==> IsSpace(s[k])
  {
    if |s| == 0 || !IsSpace(s[|s| - 1]) then s else RStrip(s[..|s| - 1])
  }

  /** `s.strip()`: drops whitespace at both ends. */
  function Strip(s: string): (r: string)
    ensures IsStripped(r)
    ensures |r| <= |s|
  {
    var l := LStrip(s);
    var r := RStrip(l);
    assert IsStripped(r) by {
      if |r| > 0 {
        assert r[0] == l[0];
      }
    }
    r
  }

  /** What `strip` keeps is the slice of `s` between a whitespace prefix and
      a whitespace suffix. */
  lemma StripIsSlice(s: string) returns (lo: nat)
    ensures lo + |Strip(s)| <= |s| && Strip(s) == s[lo..lo + |Strip(s)|]
    ensures forall k :: 0 <= k < lo ==> IsSpace(s[k])
    ensures forall k :: lo + |Strip(s)| <= k < |s| ==> IsSpace(s[k])
  {
    var l := LStrip(s);
    var r := RStrip(l);
    lo := |s| - |l|;
    assert Strip(s) == r;
    SpaceAfterSlice(s, lo, l, |r|);
  }

  /** A prefix of a suffix of `s` is a slice of `s`, and the spaces that
      follow the prefix in the suffix follow the slice in `s`. */
  lemma SpaceAfterSlice(s: string, lo: nat, l: string, n: nat)
    requires lo <= |s| && l == s[lo..] && n <= |l|
    requires forall k :: n <= k < |l| ==> IsSpace(l[k])
    ensures lo + n <= |s| && l[..n] == s[lo..lo + n]
    ensures forall k :: lo + n <= k < |s| ==> IsSpace(s[k])
  {
    forall k | lo + n <= k < |s|
      ensures IsSpace(s[k])
    {
      assert s[k] == l[k - lo];
    }
  }

  /** `c.lower()` for ASCII letters and the basic Cyrillic alphabet. */
  function LowerChar(c: char): char {
    if 'A' <= c <= 'Z' || '\U{410}' <= c <= '\U{42f}' then (c as int + 32) as char
    else if '\U{400}' <= c <= '\U{40f}' then (c as int + 80) as char
    else c
  }

  function Lower(s: string): string {
    seq(|s|, k requires 0 <= k < |s| => LowerChar(s[k]))
  }

  /** Index of the first character satisfying `p`, or `|s|` when there is none. */
  function FirstIndex(s: string, p: char -> bool): (i: nat)
    ensures i <= |s|
    ensures forall k :: 0 <= k < i ==> !p(s[k])
    ensures i < |s| ==> p(s[i])
  {
    if |s| == 0 || p(s[0]) then 0 else 1 + FirstIndex(s[1..], p)
  }

  /** `s.splitlines()`: "\r\n" counts as one break, and a break at the very
      end opens no further (empty) line. */
  function SplitLines(s: string): (lines: seq<string>)
    ensures |lines| == 0 <==> |s| == 0
    ensures forall k :: 0 <= k < |lines| ==> HasNoBreak(lines[k])
    decreases |s|
  {
    if |s| == 0 then []
    else
      var i := FirstIndex(s, IsLineBreak);
      if i == |s| then [s]
      else
        var next := if s[i] == '\r' && i + 1 < |s| && s[i + 1] == '\n' then i + 2 else i + 1;
        [s[..i]] + SplitLines(s[next..])
  }

  /** `sep.join(parts)`. */
  function Join(parts: seq<string>, sep: string): string {
    if |parts| == 0 then ""
    else if |parts| == 1 then parts[0]
    else parts[0] + sep + Join(parts[1..], sep)
  }

  /** Joining non-empty break-free lines with "\n" and splitting them again
      gives the lines back. */
  lemma {:induction false} SplitLinesOfJoin(lines: seq<string>)
    requires forall k :: 0 <= k < |lines| ==> |lines[k]| > 0 && HasNoBreak(lines[k])
    ensures SplitLines(Join(lines, "\n")) == lines
  {
    if |lines| == 1 {
      var s := lines[0];
      assert FirstIndex(s, IsLineBreak) == |s|;
    } else if |lines| > 1 {
      var a := lines[0];
      var rest := Join(lines[1..], "\n");
      var s := a + "\n" + rest;
      var i := FirstIndex(s, IsLineBreak);
      assert s[|a|] == '\n';
      assert forall k :: 0 <= k < |a| ==> s[k] == a[k];
      assert i == |a|;
      assert s[..i] == a;
      assert s[i + 1..] == rest;
      SplitLinesOfJoin(lines[1..]);
    }
  }

  /** `s.split(sep)` for a one-character separator; it never returns an
      empty list. */
  function Split(s: string, sep: char): (parts: seq<string>)
    ensures |parts| >= 1
    ensures forall k :: 0 <= k < |parts| ==> sep !in parts[k]
    decreases |s|
  {
    var i := FirstIndex(s, c => c == sep);
    if i == |s| then [s] else [s[..i]] + Split(s[i + 1..], sep)
  }

  /** Splitting and re-joining with the same separator loses nothing. */
  lemma {:induction false} JoinOfSplit(s: string, sep: char)
    ensures Join(Split(s, sep), [sep]) == s
    decreases |s|
  {
    var i := FirstIndex(s, c => c == sep);
    if i < |s| {
      var rest := Split(s[i + 1..], sep);
      JoinOfSplit(s[i + 1..], sep);
      var parts := [s[..i]] + rest;
      assert Split(s, sep) == parts;
      assert parts[0] == s[..i] && parts[1..] == rest;
      assert Join(parts, [sep]) == s[..i] + [sep] + Join(rest, [sep]);
      assert s == s[..i] + [sep] + s[i + 1..];
    }
  }

  predicate IsDigit(c: char) {
    '0' <= c <= '9'
  }

  predicate AllDigits(s: string) {
    forall k :: 0 <= k < |s| ==> IsDigit(s[k])
  }

  function DigitChar(d: nat): (c: char)
    requires d < 10
    ensures IsDigit(c)
  {
    ('0' as int + d) as char
  }

  /** The number a string of decimal digits denotes. */
  function DecimalValue(s: string): nat
    requires AllDigits(s)
  {
    if |s| == 0 then 0
    else 10 * DecimalValue(s[..|s| - 1]) + (s[|s| - 1] as int - '0' as int)
  }

  /** `str(n)` for a natural number. */
  function NatToDecimal(n: nat): (s: string)
    ensures |s| > 0 && AllDigits(s)
    ensures DecimalValue(s) == n
    ensures |s| > 1 ==> s[0] != '0'
    ensures n < 10 <==> |s| == 1
    ensures n < 100 ==> |s| <= 2
    decreases n
  {
    if n < 10 then [DigitChar(n)]
    else
      var prefix := NatToDecimal(n / 10);
      var s := prefix + [DigitChar(n % 10)];
      assert s[..|s| - 1] == prefix;
      s
  }

  /** `str(n)` for any integer. */
  function IntToDecimal(n: int): string {
    if n < 0 then "-" + NatToDecimal(-n) else NatToDecimal(n)
  }

  /** `f"{n:02d}"`: at least two digits, zero-padded on the left. */
  function TwoDigits(n: nat): (s: string)
    ensures AllDigits(s) && DecimalValue(s) == n
    ensures n < 100 ==> |s| == 2
  {
    var d := NatToDecimal(n);
    if n < 10 then
      var s := "0" + d;
      assert s[..1] == "0";
      s
    else d
  }

  /** Digits with single underscores between them, as `int()` accepts:
      digits and underscores only, a digit at each end, and no two
      underscores in a row. */
  predicate IsDigitGroups(s: string) {
    && |s| > 0
    && IsDigit(s[0]) && IsDigit(s[|s| - 1])
    && (forall k :: 0 <= k < |s| ==> IsDigit(s[k]) || s[k] == '_')
    && (forall j :: 0 < j < |s| ==> !UnderscorePairAt(s, j))
  }

  predicate UnderscorePairAt(s: string, j: int)
    requires 0 < j < |s|
  {
    s[j - 1] == '_' && s[j] == '_'
  }

  /** The digits of `s` in order: the underscores of a digit group dropped. */
  function KeepDigits(s: string): (r: string)
    ensures AllDigits(r)
  {
    if |s| == 0 then ""
    else (if IsDigit(s[0]) then [s[0]] else "") + KeepDigits(s[1..])
  }

  /** Python's `int(text)` in base 10 over ASCII digits: surrounding
      whitespace, one optional sign, underscores between digits. */
  function ParseInt(text: string): Option<int> {
    ParseStripped(Strip(text))
  }

  /** `int()` once the surrounding whitespace is gone. */
  function ParseStripped(t: string): Option<int> {
    var negative := |t| > 0 && t[0] == '-';
    var body := if |t| > 0 && (t[0] == '+' || t[0] == '-') then t[1..] else t;
    if !IsDigitGroups(body) then None
    else
      var v: int := DecimalValue(KeepDigits(body));
      Some(if negative then -v else v)
  }

  lemma KeepDigitsOfDigits(s: string)
    requires AllDigits(s)
    ensures KeepDigits(s) == s
  {
  }

  lemma StripOfStripped(s: string)
    requires IsStripped(s)
    ensures Strip(s) == s
  {
    LStripOfUnpadded(s);
    RStripOfUnpadded(s);
  }

  lemma LStripOfUnpadded(s: string)
    requires |s| == 0 || !IsSpace(s[0])
    ensures LStrip(s) == s
  {
  }

  lemma RStripOfUnpadded(s: string)
    requires |s| == 0 || !IsSpace(s[|s| - 1])
    ensures RStrip(s) == s
  {
  }

  /** `int(str(n)) == n`. */
  lemma ParseIntOfDecimal(n: int)
    ensures ParseInt(IntToDecimal(n)) == Some(n)
  {
    var s := IntToDecimal(n);
    var d := NatToDecimal(if n < 0 then -n else n);
    assert s[|s| - 1] == d[|d| - 1];
    StripOfStripped(s);
    if n < 0 {
      assert s[1..] == d;
    }
    assert IsDigitGroups(d);
    KeepDigitsOfDigits(d);
  }

  /** `int(s)` of a plain run of digits is its decimal value, leading zeros
      and all. */
  lemma ParseIntOfDigits(s: string)
    requires |s| > 0 && AllDigits(s)
    ensures ParseInt(s) == Some(DecimalValue(s))
  {
    assert IsStripped(s) by {
      assert IsDigit(s[0]) && IsDigit(s[|s| - 1]);
    }
    assert !(s[0] == '+' || s[0] == '-') by {
      assert IsDigit(s[0]);
    }
    assert IsDigitGroups(s);
    KeepDigitsOfDigits(s);
    assert ParseStripped(s) == Some(DecimalValue(s));
    StripOfStripped(s);
  }

  /** Splitting text free of the separator gives the text back whole. */
  lemma SplitWithoutSeparator(s: string, sep: char)
    requires sep !in s
    ensures Split(s, sep) == [s]
  {
    assert FirstIndex(s, c => c == sep) == |s|;
  }

  /** Splitting `a + [sep] + b`, where `a` is free of the separator, splits
      off `a` first. */
  lemma SplitAtFirst(a: string, sep: char, b: string)
    requires sep !in a
    ensures Split(a + [sep] + b, sep) == [a] + Split(b, sep)
  {
    var s := a + [sep] + b;
    var i := FirstIndex(s, c => c == sep);
    assert forall k :: 0 <= k < |a| ==> s[k] == a[k];
    assert s[|a|] == sep;
    assert i == |a|;
    assert s[..i] == a && s[i + 1..] == b;
  }

  /** Stripping takes a slice, so it adds no line break. */
  lemma StripKeepsNoBreak(s: string)
    requires HasNoBreak(s)
    ensures HasNoBreak(Strip(s))
  {
    var r := Strip(s);
    var lo := StripIsSlice(s);
    forall k | 0 <= k < |r| ensures !IsLineBreak(r[k]) {
      assert r[k] == s[lo + k];
    }
  }

  /** Joining separator-free parts and splitting again gives the parts back. */
  lemma {:induction false} SplitOfJoin(parts: seq<string>, sep: char)
    requires |parts| > 0
    requires forall k :: 0 <= k < |parts| ==> sep !in parts[k]
    ensures Split(Join(parts, [sep]), sep) == parts
  {
    if |parts| == 1 {
      SplitWithoutSeparator(parts[0], sep);
    } else {
      SplitOfJoin(parts[1..], sep);
      SplitAtFirst(parts[0], sep, Join(parts[1..], [sep]));
      assert parts == [parts[0]] + parts[1..];
    }
  }

  /** Two digit runs around a colon read back as their two values. */
  lemma ColonFieldsReadBack(h: string, m: string)
    requires |h| > 0 && AllDigits(h) && |m| > 0 && AllDigits(m)
    ensures Split(h + ":" + m, ':') == [h, m]
    ensures ParseInt(h) == Some(DecimalValue(h)) && ParseInt(m) == Some(DecimalValue(m))
  {
    assert ':' !in h by {
      assert forall k :: 0 <= k < |h| ==> IsDigit(h[k]);
    }
    assert ':' !in m by {
      assert forall k :: 0 <= k < |m| ==> IsDigit(m[k]);
    }
    SplitAtFirst(h, ':', m);
    SplitWithoutSeparator(m, ':');
    ParseIntOfDigits(h);
    ParseIntOfDigits(m);
  }
}
