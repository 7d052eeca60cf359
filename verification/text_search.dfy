/** The searches the notifier runs over text: case-insensitive matching of
    ASCII pattern letters (as regular expressions with IGNORECASE do it),
    keyword containment, and the first link of a meeting body. */
module TextSearch {
  import opened Wrappers
  import opened Strings

  /** Whether text character `c` matches the lower-case pattern character
      `p` under IGNORECASE: the character itself, its ASCII upper case, and
      the two non-ASCII letters that fold to `i` and the one that folds to `s`. */
  predicate MatchesIgnoreCase(c: char, p: char) {
    || c == p
    || ('a' <= p <= 'z' && c as int == p as int - 32)
    || (p == 'i' && (c == '\U{130}' || c == '\U{131}'))
    || (p == 's' && c == '\U{17f}')
  }

  /** `word` (lower case) matches the text `s` from index `i` on. */
  predicate WordAt(s: string, i: int, word: string) {
    0 <= i && i + |word| <= |s| && forall k :: 0 <= k < |word| ==> MatchesIgnoreCase(s[i + k], word[k])
  }

  // ---------------------------------------------------------------------
  // Keywords

  /** `p` occurs in `s` at index `i`. */
  predicate OccursAt(p: string, s: string, i: int) {
    0 <= i && i + |p| <= |s| && s[i..i + |p|] == p
  }

  ghost predicate IsSubstring(p: string, s: string) {
    exists i :: OccursAt(p, s, i)
  }

  /** The first index at or after `from` where `p` occurs in `s`. */
  function FirstOccurrence(p: string, s: string, from: nat): (r: Option<nat>)
    ensures r.Some? ==> from <= r.value && OccursAt(p, s, r.value)
    ensures r.Some? ==> forall i :: from <= i < r.value ==> !OccursAt(p, s, i)
    ensures r.None? ==> forall i :: from <= i ==> !OccursAt(p, s, i)
    decreases |s| - from
  {
    if from + |p| > |s| then None
    else if s[from..from + |p|] == p then Some(from)
    else FirstOccurrence(p, s, from + 1)
  }

  /** `p in s`. */
  function Contains(p: string, s: string): (r: bool)
    ensures r <==> IsSubstring(p, s)
  {
    FirstOccurrence(p, s, 0).Some?
  }

  /** `contains_keyword`: some keyword, lower-cased, occurs in the
      lower-cased text. */
  function ContainsKeyword(text: string, keywords: seq<string>): (r: bool)
    ensures r <==> exists k :: 0 <= k < |keywords| && IsSubstring(Lower(keywords[k]), Lower(text))
  {
    if |keywords| == 0 then false
    else
      var found := Contains(Lower(keywords[0]), Lower(text));
      var rest := ContainsKeyword(text, keywords[1..]);
      assert forall k :: 1 <= k < |keywords| ==> keywords[k] == keywords[1..][k - 1];
      assert rest ==> exists k :: 1 <= k < |keywords| && IsSubstring(Lower(keywords[k]), Lower(text)) by {
        if rest {
          var k :| 0 <= k < |keywords[1..]| && IsSubstring(Lower(keywords[1..][k]), Lower(text));
          assert keywords[k + 1] == keywords[1..][k];
        }
      }
      found || rest
  }

  /** An empty keyword occurs in every text, so it always asks for a
      mention; an empty keyword list never does. */
  lemma EmptyKeywordAlwaysMatches(text: string, keywords: seq<string>)
    ensures "" in keywords ==> ContainsKeyword(text, keywords)
    ensures ContainsKeyword(text, []) == false
  {
    if "" in keywords {
      var k :| 0 <= k < |keywords| && keywords[k] == "";
      assert Lower(keywords[k]) == "";
      assert OccursAt("", Lower(text), 0);
    }
  }

  /** Matching ignores the case of ASCII and basic Cyrillic letters. */
  lemma KeywordIgnoresCase(text: string, keyword: string)
    ensures ContainsKeyword(text, [keyword]) == ContainsKeyword(Lower(text), [Lower(keyword)])
  {
    LowerIdempotent(text);
    LowerIdempotent(keyword);
  }

  lemma LowerIdempotent(s: string)
    ensures Lower(Lower(s)) == Lower(s)
  {
    forall k | 0 <= k < |s| ensures LowerChar(LowerChar(s[k])) == LowerChar(s[k]) {
    }
  }

  // ---------------------------------------------------------------------
  // Links

  /** The scheme of `https?://` matches at `i` and is `n` characters long. */
  predicate SchemeAt(s: string, i: int, n: int) {
    && WordAt(s, i, "http")
    && (|| (n == 7 && WordAt(s, i + 4, "://"))
        || (n == 8 && WordAt(s, i + 4, "s://")))
  }

  /** `https?://\S+` matches starting at `i`: a scheme followed by at least
      one non-whitespace character. */
  ghost predicate UrlStartsAt(s: string, i: int) {
    exists n :: (n == 7 || n == 8) && SchemeAt(s, i, n) && i + n < |s| && !IsSpace(s[i + n])
  }

  /** The match starting at `i` ends at `e`: after the scheme comes the
      longest run of non-whitespace. */
  ghost predicate UrlSpan(s: string, i: int, e: int) {
    exists n :: (n == 7 || n == 8) && SchemeAt(s, i, n) && i + n < e <= |s|
      && (forall k :: i + n <= k < e ==> !IsSpace(s[k]))
      && (e == |s| || IsSpace(s[e]))
  }

  /** Length of the scheme matching at `i`, or 0 when none does. */
  function SchemeLength(s: string, i: nat): (n: nat)
    ensures n == 0 || n == 7 || n == 8
    ensures n > 0 ==> SchemeAt(s, i, n)
    ensures n == 0 ==> !SchemeAt(s, i, 7) && !SchemeAt(s, i, 8)
  {
    if !WordAt(s, i, "http") then 0
    else if WordAt(s, i + 4, "s://") then 8
    else if WordAt(s, i + 4, "://") then 7
    else 0
  }

  /** At most one scheme length matches at an index: after `http` comes
      either a colon or an `s`. */
  lemma SchemesExclusive(s: string, i: int)
    ensures !(SchemeAt(s, i, 7) && SchemeAt(s, i, 8))
  {
    if SchemeAt(s, i, 7) {
      assert MatchesIgnoreCase(s[i + 4 + 0], "://"[0]);
      assert !MatchesIgnoreCase(s[i + 4 + 0], "s://"[0]);
    }
  }

  /** Index of the first whitespace at or after `j`, or `|s|`. */
  function RunEnd(s: string, j: nat): (e: nat)
    requires j <= |s|
    ensures j <= e <= |s|
    ensures forall k :: j <= k < e ==> !IsSpace(s[k])
    ensures e == |s| || IsSpace(s[e])
    decreases |s| - j
  {
    if j == |s| || IsSpace(s[j]) then j else RunEnd(s, j + 1)
  }

  /** The leftmost match at or after `from`, as a start and end index. */
  function FindUrl(s: string, from: nat): (r: Option<(nat, nat)>)
    ensures r.Some? ==> from <= r.value.0 && UrlStartsAt(s, r.value.0) && UrlSpan(s, r.value.0, r.value.1)
    ensures r.Some? ==> forall i :: from <= i < r.value.0 ==> !UrlStartsAt(s, i)
    ensures r.None? ==> forall i :: from <= i ==> !UrlStartsAt(s, i)
    decreases |s| - from
  {
    if from >= |s| then
      assert forall i :: from <= i ==> !UrlStartsAt(s, i);
      None
    else
      var n := SchemeLength(s, from);
      if n > 0 && from + n < |s| && !IsSpace(s[from + n]) then
        Some((from, RunEnd(s, from + n)))
      else
        assert !UrlStartsAt(s, from) by {
          SchemesExclusive(s, from);
        }
        FindUrl(s, from + 1)
  }

  /** `extract_url`: nothing for a missing or empty text, otherwise the text
      of the leftmost match, if there is one. */
  function ExtractUrl(text: Option<string>): (r: Option<string>)
    ensures text.None? || text == Some("") ==> r.None?
    ensures text.Some? ==> (r.None? <==> forall i :: !UrlStartsAt(text.value, i))
    ensures r.Some? ==> exists i, e ::
              && UrlStartsAt(text.value, i) && UrlSpan(text.value, i, e)
              && r.value == text.value[i..e]
              && forall j :: 0 <= j < i ==> !UrlStartsAt(text.value, j)
  {
    if text.None? || text.value == "" then None
    else
      match FindUrl(text.value, 0)
      case None => None
      case Some((i, e)) => Some(text.value[i..e])
  }
}
