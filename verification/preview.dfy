/** The mail preview: the first non-blank, non-noise lines of the cleaned
    mail text, stripped, at most `maxLines` of them, joined with newlines
    and cut to `maxChars`. The HTML and link cleaning that produces the
    text is not part of this model. */
module Preview {
  import opened Strings
  import opened TextSearch

  /** `^\[?(cid|image|img):` under IGNORECASE: an inline-image reference
      at the head of the line, optionally behind an opening bracket. */
  predicate IsNoise(line: string) {
    var j := if |line| > 0 && line[0] == '[' then 1 else 0;
    WordAt(line, j, "cid:") || WordAt(line, j, "image:") || WordAt(line, j, "img:")
  }

  /** `s[:n]` with Python's reading of a negative bound as counted from the
      end. */
  function SliceTo<T>(s: seq<T>, n: int): (r: seq<T>)
    ensures |r| <= |s| && r == s[..|r|]
    ensures n >= 0 ==> |r| == if n < |s| then n else |s|
    ensures n < 0 ==> |r| == if |s| + n < 0 then 0 else |s| + n
  {
    if n >= 0 then (if n < |s| then s[..n] else s)
    else if |s| + n < 0 then [] else s[..|s| + n]
  }

  /** The lines worth showing: each line stripped, the blank and noise
      ones dropped. */
  function Candidates(raw: seq<string>): (r: seq<string>)
    ensures forall k :: 0 <= k < |r| ==> r[k] != "" && IsStripped(r[k]) && !IsNoise(r[k])
  {
    if |raw| == 0 then []
    else
      var s := Strip(raw[0]);
      (if s == "" || IsNoise(s) then [] else [s]) + Candidates(raw[1..])
  }

  /** The loop of `build_preview`: a kept line is appended, and the loop
      stops once `maxLines` lines are held. */
  function CollectLines(raw: seq<string>, maxLines: int, acc: seq<string>): seq<string> {
    if |raw| == 0 then acc
    else
      var s := Strip(raw[0]);
      if s == "" || IsNoise(s) then CollectLines(raw[1..], maxLines, acc)
      else if |acc + [s]| >= maxLines then acc + [s]
      else CollectLines(raw[1..], maxLines, acc + [s])
  }

  /** `build_preview` after the cleaning step. */
  function BuildPreview(cleaned: string, maxChars: int, maxLines: int): string {
    var kept := SliceTo(CollectLines(SplitLines(cleaned), maxLines, []), maxLines);
    var preview := Join(kept, "\n");
    if |preview| > maxChars then RStrip(SliceTo(preview, maxChars)) else preview
  }

  /** How many candidate lines the preview keeps. */
  function KeptCount(candidates: nat, maxLines: int): nat {
    if maxLines <= 0 then 0 else if maxLines < candidates then maxLines else candidates
  }

  /** The first `n` elements, or all of them when there are fewer. */
  function Take<T>(s: seq<T>, n: nat): seq<T> {
    if n < |s| then s[..n] else s
  }

  lemma TakeCons<T>(x: T, rest: seq<T>, n: nat)
    requires n >= 1
    ensures Take([x] + rest, n) == [x] + Take(rest, n - 1)
  {
    if n - 1 < |rest| {
      assert ([x] + rest)[..n] == [x] + rest[..n - 1];
    }
  }

  /** Lines the loop may still add while holding `held`: one at least, since
      the stop test runs only after appending. */
  function Room(maxLines: int, held: nat): nat {
    if maxLines - held < 1 then 1 else maxLines - held
  }

  /** The same loop over lines already filtered. */
  function CollectKept(kept: seq<string>, maxLines: int, acc: seq<string>): seq<string> {
    if |kept| == 0 then acc
    else if |acc + [kept[0]]| >= maxLines then acc + [kept[0]]
    else CollectKept(kept[1..], maxLines, acc + [kept[0]])
  }

  /** Skipping blank and noise lines first changes nothing. */
  lemma {:induction false} CollectFiltersFirst(raw: seq<string>, maxLines: int, acc: seq<string>)
    ensures CollectLines(raw, maxLines, acc) == CollectKept(Candidates(raw), maxLines, acc)
  {
    if |raw| > 0 {
      var s := Strip(raw[0]);
      var rest := Candidates(raw[1..]);
      if s == "" || IsNoise(s) {
        CollectFiltersFirst(raw[1..], maxLines, acc);
        assert Candidates(raw) == rest;
      } else {
        CollectFiltersFirst(raw[1..], maxLines, acc + [s]);
        var c := [s] + rest;
        assert Candidates(raw) == c;
        assert c[0] == s && c[1..] == rest;
      }
    }
  }

  /** Over filtered lines the loop takes as many as it has room for. */
  lemma {:induction false} CollectKeptTakes(kept: seq<string>, maxLines: int, acc: seq<string>)
    requires acc == [] || |acc| < maxLines
    ensures CollectKept(kept, maxLines, acc) == acc + Take(kept, Room(maxLines, |acc|))
  {
    var room := Room(maxLines, |acc|);
    if |kept| == 0 {
      assert acc + [] == acc;
    } else {
      assert kept == [kept[0]] + kept[1..];
      TakeCons(kept[0], kept[1..], room);
      if |acc + [kept[0]]| < maxLines {
        CollectKeptTakes(kept[1..], maxLines, acc + [kept[0]]);
        assert Room(maxLines, |acc + [kept[0]]|) == room - 1;
      } else {
        assert room == 1;
      }
    }
  }

  lemma CollectTakesCandidates(raw: seq<string>, maxLines: int)
    ensures CollectLines(raw, maxLines, []) == Take(Candidates(raw), Room(maxLines, 0))
  {
    CollectFiltersFirst(raw, maxLines, []);
    CollectKeptTakes(Candidates(raw), maxLines, []);
    assert [] + Take(Candidates(raw), Room(maxLines, 0)) == Take(Candidates(raw), Room(maxLines, 0));
  }

  /** The preview's lines are exactly the first `maxLines` candidates. */
  lemma PreviewLinesAreCandidates(cleaned: string, maxLines: int)
    ensures var c := Candidates(SplitLines(cleaned));
      SliceTo(CollectLines(SplitLines(cleaned), maxLines, []), maxLines) == c[..KeptCount(|c|, maxLines)]
  {
    var c := Candidates(SplitLines(cleaned));
    CollectTakesCandidates(SplitLines(cleaned), maxLines);
  }

  /** The preview is a prefix of the joined lines, never longer than
      `maxChars` when that is not negative, and untouched when it fits. */
  lemma PreviewIsBoundedPrefix(cleaned: string, maxChars: int, maxLines: int)
    ensures var joined := Join(SliceTo(CollectLines(SplitLines(cleaned), maxLines, []), maxLines), "\n");
      var p := BuildPreview(cleaned, maxChars, maxLines);
      && |p| <= |joined| && p == joined[..|p|]
      && (maxChars >= 0 ==> |p| <= maxChars)
      && (|joined| <= maxChars ==> p == joined)
  {
  }

  /** Candidate lines hold no line break: they come from `splitlines`. */
  lemma {:induction false} CandidatesHaveNoBreak(raw: seq<string>)
    requires forall k :: 0 <= k < |raw| ==> HasNoBreak(raw[k])
    ensures forall k :: 0 <= k < |Candidates(raw)| ==> HasNoBreak(Candidates(raw)[k])
  {
    if |raw| > 0 {
      CandidatesHaveNoBreak(raw[1..]);
      var s := Strip(raw[0]);
      StripKeepsNoBreak(raw[0]);
      var head := if s == "" || IsNoise(s) then [] else [s];
      assert Candidates(raw) == head + Candidates(raw[1..]);
    }
  }

  /** A preview that fits splits back into the lines it was made of. */
  lemma PreviewSplitsBack(cleaned: string, maxChars: int, maxLines: int)
    requires var c := Candidates(SplitLines(cleaned));
      |Join(c[..KeptCount(|c|, maxLines)], "\n")| <= maxChars
    ensures var c := Candidates(SplitLines(cleaned));
      SplitLines(BuildPreview(cleaned, maxChars, maxLines)) == c[..KeptCount(|c|, maxLines)]
  {
    var c := Candidates(SplitLines(cleaned));
    var kept := c[..KeptCount(|c|, maxLines)];
    PreviewLinesAreCandidates(cleaned, maxLines);
    CandidatesHaveNoBreak(SplitLines(cleaned));
    assert forall k :: 0 <= k < |kept| ==> kept[k] == c[k];
    SplitLinesOfJoin(kept);
  }
}
