/** Telegram MarkdownV2 escaping, its inverse, block quotes and the
    `hours:minutes` duration text. */
module Formatting {
  import opened Wrappers
  import opened Strings

  /** The characters MarkdownV2 reserves; each is written with a backslash
      in front of it. */
  predicate IsReserved(c: char) {
    || c == '_' || c == '*' || c == '[' || c == ']' || c == '(' || c == ')'
    || c == '~' || c == '`' || c == '>' || c == '#' || c == '+' || c == '-'
    || c == '=' || c == '|' || c == '{' || c == '}' || c == '.' || c == '!'
    || c == '\\'
  }

  function ReservedCount(s: string): nat {
    if |s| == 0 then 0 else (if IsReserved(s[0]) then 1 else 0) + ReservedCount(s[1..])
  }

  /** `str.translate` with the escape table: reserved characters get a
      backslash, all others are copied. */
  function EscapeMarkdownV2(s: string): (r: string)
    ensures |r| == |s| + ReservedCount(s)
    ensures HasNoBreak(s) ==> HasNoBreak(r)
  {
    if |s| == 0 then ""
    else (if IsReserved(s[0]) then ['\\', s[0]] else [s[0]]) + EscapeMarkdownV2(s[1..])
  }

  /** Drops the backslash in front of every escaped character. */
  function UnescapeMarkdownV2(s: string): string {
    if |s| == 0 then ""
    else if s[0] == '\\' && |s| > 1 then [s[1]] + UnescapeMarkdownV2(s[2..])
    else [s[0]] + UnescapeMarkdownV2(s[1..])
  }

  /** Every reserved character of `s` is the second half of a backslash
      pair, read from the left. */
  predicate IsEscaped(s: string) {
    if |s| == 0 then true
    else if s[0] == '\\' then |s| > 1 && IsReserved(s[1]) && IsEscaped(s[2..])
    else !IsReserved(s[0]) && IsEscaped(s[1..])
  }

  lemma {:induction false} EscapeRoundTrip(s: string)
    ensures IsEscaped(EscapeMarkdownV2(s))
    ensures UnescapeMarkdownV2(EscapeMarkdownV2(s)) == s
  {
    if |s| > 0 {
      var head := if IsReserved(s[0]) then ['\\', s[0]] else [s[0]];
      var r := EscapeMarkdownV2(s);
      EscapeRoundTrip(s[1..]);
      assert r == head + EscapeMarkdownV2(s[1..]);
      if IsReserved(s[0]) {
        assert r[2..] == EscapeMarkdownV2(s[1..]);
      } else {
        assert r[1..] == EscapeMarkdownV2(s[1..]);
      }
    }
  }

  lemma {:induction false} UnescapeRoundTrip(s: string)
    requires IsEscaped(s)
    ensures EscapeMarkdownV2(UnescapeMarkdownV2(s)) == s
  {
    if |s| > 0 {
      if s[0] == '\\' {
        UnescapeRoundTrip(s[2..]);
        assert s == [s[0], s[1]] + s[2..];
      } else {
        UnescapeRoundTrip(s[1..]);
        assert s == [s[0]] + s[1..];
      }
    }
  }

  /** Text without reserved characters is left alone, and only such text. */
  lemma {:induction false} EscapeIdentity(s: string)
    ensures EscapeMarkdownV2(s) == s <==> ReservedCount(s) == 0
    ensures ReservedCount(s) == 0 <==> forall k :: 0 <= k < |s| ==> !IsReserved(s[k])
  {
    if |s| > 0 {
      EscapeIdentity(s[1..]);
      assert s == [s[0]] + s[1..];
      assert forall k :: 1 <= k < |s| ==> s[k] == s[1..][k - 1];
    }
  }

  // ---------------------------------------------------------------------
  // Durations

  /** `format_duration`: whole minutes between the two instants, clamped at
      zero, as hours, a colon and two-digit minutes. Instants are whole UTC
      seconds. */
  function FormatDuration(startUtc: int, endUtc: int): string {
    var seconds := if endUtc - startUtc < 0 then 0 else endUtc - startUtc;
    var totalMinutes := seconds / 60;
    NatToDecimal(totalMinutes / 60) + ":" + TwoDigits(totalMinutes % 60)
  }

  /** Reading the text back: two fields around the colon, minutes always two
      digits below 60, and together the whole minutes of the clamped span. */
  lemma FormatDurationReadsBack(startUtc: int, endUtc: int)
    ensures var parts := Split(FormatDuration(startUtc, endUtc), ':');
      && |parts| == 2
      && |parts[1]| == 2
      && |parts[0]| > 0 && AllDigits(parts[0]) && AllDigits(parts[1])
      && ParseInt(parts[0]).Some? && ParseInt(parts[1]).Some?
      && 0 <= ParseInt(parts[1]).value < 60
      && 60 * ParseInt(parts[0]).value + ParseInt(parts[1]).value
         == (if endUtc < startUtc then 0 else endUtc - startUtc) / 60
  {
    var seconds := if endUtc - startUtc < 0 then 0 else endUtc - startUtc;
    var totalMinutes := seconds / 60;
    var hours, minutes := totalMinutes / 60, totalMinutes % 60;
    var h, m := NatToDecimal(hours), TwoDigits(minutes);
    ColonFieldsReadBack(h, m);
    assert 60 * hours + minutes == totalMinutes;
  }

  /** A span that ends before it starts is shown as no time at all. */
  lemma {:induction false} NegativeDurationIsZero(startUtc: int, endUtc: int)
    requires endUtc <= startUtc
    ensures FormatDuration(startUtc, endUtc) == "0:00"
  {
    assert NatToDecimal(0) == "0";
    assert TwoDigits(0) == "00";
  }

  // ---------------------------------------------------------------------
  // Block quotes

  /** Each line escaped and put behind the quote marker "> ". */
  function QuoteLines(lines: seq<string>): (quoted: seq<string>)
    ensures |quoted| == |lines|
    ensures forall k :: 0 <= k < |lines| ==> quoted[k] == "> " + EscapeMarkdownV2(lines[k])
  {
    seq(|lines|, k requires 0 <= k < |lines| => "> " + EscapeMarkdownV2(lines[k]))
  }

  /** `format_markdown_quote`. */
  function FormatMarkdownQuote(text: string): (r: string)
    ensures r == "" <==> text == ""
  {
    if text == "" then ""
    else
      var lines := SplitLines(text);
      if |lines| == 0 then ""
      else
        var quoted := QuoteLines(lines);
        assert |quoted[0]| > 0;
        Join(quoted, "\n")
  }

  /** The quote has one line per line of the text, and each of them, with
      the marker removed and unescaped, is that line of the text. */
  lemma QuoteKeepsLines(text: string)
    ensures |SplitLines(FormatMarkdownQuote(text))| == |SplitLines(text)|
    ensures forall k :: 0 <= k < |SplitLines(text)| ==>
      var q := SplitLines(FormatMarkdownQuote(text))[k];
      |q| >= 2 && q[..2] == "> " && UnescapeMarkdownV2(q[2..]) == SplitLines(text)[k]
  {
    var lines := SplitLines(text);
    if text != "" {
      var quoted := QuoteLines(lines);
      forall k | 0 <= k < |quoted| ensures |quoted[k]| > 0 && HasNoBreak(quoted[k]) {
        assert HasNoBreak(lines[k]);
        var e := EscapeMarkdownV2(lines[k]);
        assert forall i :: 2 <= i < |quoted[k]| ==> quoted[k][i] == e[i - 2];
      }
      SplitLinesOfJoin(quoted);
      forall k | 0 <= k < |lines|
        ensures UnescapeMarkdownV2(quoted[k][2..]) == lines[k]
      {
        assert quoted[k][2..] == EscapeMarkdownV2(lines[k]);
        EscapeRoundTrip(lines[k]);
      }
    }
  }
}
