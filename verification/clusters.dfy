/** The collision check: meetings sorted by start are cut into runs where each
    meeting starts before the latest end seen so far in its run; runs of two
    or more meetings are the reported overlaps. */
module Clusters {
  import opened Models
  import Sorting

  function StartKey(m: Meeting): int { m.startUtc }

  /** `sorted(meetings, key=start)`: meetings with the same start keep their
      input order. */
  function SortByStart(ms: seq<Meeting>): (r: seq<Meeting>)
    ensures Sorting.SortedBy(r, StartKey)
    ensures multiset(r) == multiset(ms)
    ensures forall t :: Sorting.WithKey(r, StartKey, t) == Sorting.WithKey(ms, StartKey, t)
  {
    Sorting.SortBy(ms, StartKey)
  }

  /** The latest end among the meetings of a non-empty run. */
  function MaxEnd(g: seq<Meeting>): int
    requires |g| > 0
  {
    if |g| == 1 then g[0].endUtc
    else
      var e := MaxEnd(g[..|g| - 1]);
      if g[|g| - 1].endUtc > e then g[|g| - 1].endUtc else e
  }

  /** Every meeting after the first starts before the latest end of the
      meetings ahead of it in the run. */
  ghost predicate Chained(g: seq<Meeting>) {
    forall k :: 0 < k < |g| ==> g[k].startUtc < MaxEnd(g[..k])
  }

  /** Every run is non-empty and chained. */
  ghost predicate AllChained(runs: seq<seq<Meeting>>) {
    forall i :: 0 <= i < |runs| ==> |runs[i]| > 0 && Chained(runs[i])
  }

  /** Each run begins at or after the latest end of the run before it. */
  ghost predicate Separated(runs: seq<seq<Meeting>>) {
    forall j :: 0 < j < |runs| ==> SeparatedAt(runs, j)
  }

  /** Run `j` begins at or after the latest end of run `j - 1`. */
  ghost predicate SeparatedAt(runs: seq<seq<Meeting>>, j: int)
    requires 0 < j < |runs|
  {
    |runs[j - 1]| > 0 && |runs[j]| > 0 && runs[j][0].startUtc >= MaxEnd(runs[j - 1])
  }

  function Flatten<T>(groups: seq<seq<T>>): seq<T> {
    if |groups| == 0 then [] else groups[0] + Flatten(groups[1..])
  }

  /** The sweep over `rest` with the run `group` open and `groupEnd` its
      latest end: a meeting joins the run when it starts before `groupEnd`,
      and otherwise closes the run and opens the next. */
  function Sweep(rest: seq<Meeting>, group: seq<Meeting>, groupEnd: int): (runs: seq<seq<Meeting>>)
    ensures |runs| > 0
    decreases |rest|
  {
    if |rest| == 0 then [group]
    else
      var m := rest[0];
      if m.startUtc < groupEnd then
        Sweep(rest[1..], group + [m], if m.endUtc > groupEnd then m.endUtc else groupEnd)
      else
        [group] + Sweep(rest[1..], [m], m.endUtc)
  }

  lemma ExtendRun(group: seq<Meeting>, m: Meeting)
    requires |group| > 0 && Chained(group) && m.startUtc < MaxEnd(group)
    ensures Chained(group + [m])
    ensures MaxEnd(group + [m]) == if m.endUtc > MaxEnd(group) then m.endUtc else MaxEnd(group)
  {
    var g := group + [m];
    assert g[..|group|] == group;
    forall k | 0 < k < |g| ensures g[k].startUtc < MaxEnd(g[..k]) {
      if k < |group| {
        assert g[..k] == group[..k];
      }
    }
  }

  lemma FlattenCons<T>(g: seq<T>, groups: seq<seq<T>>)
    ensures Flatten([g] + groups) == g + Flatten(groups)
  {
    assert ([g] + groups)[1..] == groups;
  }

  /** The first run of the sweep begins with the open run. */
  lemma {:induction false} SweepKeepsOpenRun(rest: seq<Meeting>, group: seq<Meeting>, groupEnd: int)
    ensures |Sweep(rest, group, groupEnd)[0]| >= |group|
    ensures Sweep(rest, group, groupEnd)[0][..|group|] == group
    decreases |rest|
  {
    if |rest| > 0 {
      var m := rest[0];
      if m.startUtc < groupEnd {
        var g := group + [m];
        var newEnd := if m.endUtc > groupEnd then m.endUtc else groupEnd;
        SweepKeepsOpenRun(rest[1..], g, newEnd);
        var runs := Sweep(rest[1..], g, newEnd);
        assert runs[0][..|group|] == runs[0][..|g|][..|group|];
        assert g[..|group|] == group;
      }
    }
  }

  /** The runs, put back together, are the input: every meeting is in exactly
      one run, in order. */
  lemma {:induction false} SweepPartitions(rest: seq<Meeting>, group: seq<Meeting>, groupEnd: int)
    ensures Flatten(Sweep(rest, group, groupEnd)) == group + rest
    decreases |rest|
  {
    if |rest| == 0 {
      FlattenCons(group, []);
    } else {
      var m := rest[0];
      assert rest == [m] + rest[1..];
      if m.startUtc < groupEnd {
        var newEnd := if m.endUtc > groupEnd then m.endUtc else groupEnd;
        SweepPartitions(rest[1..], group + [m], newEnd);
        assert group + rest == (group + [m]) + rest[1..];
      } else {
        SweepPartitions(rest[1..], [m], m.endUtc);
        FlattenCons(group, Sweep(rest[1..], [m], m.endUtc));
      }
    }
  }

  /** Every run is non-empty and chained. */
  lemma {:induction false} SweepChains(rest: seq<Meeting>, group: seq<Meeting>, groupEnd: int)
    requires |group| > 0 && groupEnd == MaxEnd(group) && Chained(group)
    ensures AllChained(Sweep(rest, group, groupEnd))
    decreases |rest|
  {
    if |rest| > 0 {
      var m := rest[0];
      if m.startUtc < groupEnd {
        ExtendRun(group, m);
        var newEnd := if m.endUtc > groupEnd then m.endUtc else groupEnd;
        SweepChains(rest[1..], group + [m], newEnd);
      } else {
        SweepChains(rest[1..], [m], m.endUtc);
        var tail := Sweep(rest[1..], [m], m.endUtc);
        assert forall i :: 0 < i < |[group] + tail| ==> ([group] + tail)[i] == tail[i - 1];
        assert AllChained([group] + tail);
      }
    }
  }

  /** A run begins with a meeting that starts at or after the latest end of
      the run before it. */
  lemma {:induction false} SweepSeparates(rest: seq<Meeting>, group: seq<Meeting>, groupEnd: int)
    requires |group| > 0 && groupEnd == MaxEnd(group) && Chained(group)
    ensures Separated(Sweep(rest, group, groupEnd))
    decreases |rest|
  {
    if |rest| > 0 {
      var m := rest[0];
      if m.startUtc < groupEnd {
        ExtendRun(group, m);
        var newEnd := if m.endUtc > groupEnd then m.endUtc else groupEnd;
        SweepSeparates(rest[1..], group + [m], newEnd);
      } else {
        SweepSeparates(rest[1..], [m], m.endUtc);
        SweepKeepsOpenRun(rest[1..], [m], m.endUtc);
        var tail := Sweep(rest[1..], [m], m.endUtc);
        var runs := [group] + tail;
        assert tail[0][..1] == [m];
        assert runs[1][0] == m;
        forall j | 0 < j < |runs| ensures SeparatedAt(runs, j) {
          if j > 1 {
            assert SeparatedAt(tail, j - 1);
            assert runs[j - 1] == tail[j - 2] && runs[j] == tail[j - 1];
          }
        }
      }
    }
  }

  /** The runs of a start-sorted list of meetings. */
  function Runs(sorted: seq<Meeting>): (runs: seq<seq<Meeting>>)
    ensures Flatten(runs) == sorted
    ensures AllChained(runs) && Separated(runs)
  {
    if |sorted| == 0 then []
    else
      assert sorted == [sorted[0]] + sorted[1..];
      SweepPartitions(sorted[1..], [sorted[0]], sorted[0].endUtc);
      SweepChains(sorted[1..], [sorted[0]], sorted[0].endUtc);
      SweepSeparates(sorted[1..], [sorted[0]], sorted[0].endUtc);
      Sweep(sorted[1..], [sorted[0]], sorted[0].endUtc)
  }

  /** Keeps the runs of at least two meetings, in order. */
  function KeepOverlaps(runs: seq<seq<Meeting>>): (r: seq<seq<Meeting>>)
    ensures forall i :: 0 <= i < |r| ==> |r[i]| >= 2 && r[i] in runs
    ensures forall g :: g in runs && |g| >= 2 ==> g in r
    ensures multiset(Flatten(r)) <= multiset(Flatten(runs))
  {
    if |runs| == 0 then []
    else
      var rest := KeepOverlaps(runs[1..]);
      if |runs[0]| >= 2 then [runs[0]] + rest else rest
  }

  /** Every meeting of the open run starts no later than any meeting still to
      come, and ends by the run's latest end. */
  ghost predicate OpenRunAhead(rest: seq<Meeting>, group: seq<Meeting>, groupEnd: int) {
    && Sorting.SortedBy(rest, StartKey)
    && (forall x, y :: x in group && y in rest ==> x.startUtc <= y.startUtc)
    && (forall x :: x in group ==> x.endUtc <= groupEnd)
  }

  /** A meeting still to come that starts before the open run's end joins
      the open run: every meeting ahead of it starts no later, so joins too. */
  lemma {:induction false} JoinsOpenRun(rest: seq<Meeting>, group: seq<Meeting>, groupEnd: int, b: Meeting)
    requires Sorting.SortedBy(rest, StartKey)
    requires b in rest && b.startUtc < groupEnd
    ensures b in Sweep(rest, group, groupEnd)[0]
    decreases |rest|
  {
    var m := rest[0];
    assert m.startUtc <= b.startUtc by {
      var j :| 0 <= j < |rest| && rest[j] == b;
      if j > 0 {
        assert StartKey(rest[0]) <= StartKey(rest[j]);
      }
    }
    var g := group + [m];
    var newEnd := if m.endUtc > groupEnd then m.endUtc else groupEnd;
    assert Sweep(rest, group, groupEnd) == Sweep(rest[1..], g, newEnd);
    if b == m {
      SweepKeepsOpenRun(rest[1..], g, newEnd);
      assert g[|group|] == b;
      assert Sweep(rest[1..], g, newEnd)[0][|group|] == b;
    } else {
      assert b in rest[1..] by {
        var j :| 0 <= j < |rest| && rest[j] == b;
        assert j > 0 && rest[1..][j - 1] == b;
      }
      JoinsOpenRun(rest[1..], g, newEnd, b);
    }
  }

  lemma OpenRunInFirst(rest: seq<Meeting>, group: seq<Meeting>, groupEnd: int, a: Meeting)
    requires a in group
    ensures a in Sweep(rest, group, groupEnd)[0]
  {
    SweepKeepsOpenRun(rest, group, groupEnd);
    var i :| 0 <= i < |group| && group[i] == a;
    assert Sweep(rest, group, groupEnd)[0][..|group|][i] == a;
  }

  /** Sorting facts about what follows the first meeting still to come. */
  lemma RestAfterFirst(rest: seq<Meeting>)
    requires Sorting.SortedBy(rest, StartKey) && |rest| > 0
    ensures Sorting.SortedBy(rest[1..], StartKey)
    ensures forall y :: y in rest[1..] ==> rest[0].startUtc <= y.startUtc
  {
    var tail := rest[1..];
    forall y | y in tail ensures rest[0].startUtc <= y.startUtc {
      var j :| 0 <= j < |tail| && tail[j] == y;
      assert rest[j + 1] == y && StartKey(rest[0]) <= StartKey(rest[j + 1]);
    }
    forall i, j | 0 <= i < j < |tail| ensures StartKey(tail[i]) <= StartKey(tail[j]) {
      assert tail[i] == rest[i + 1] && tail[j] == rest[j + 1];
    }
  }

  /** The sweep's invariant survives a meeting joining the open run. */
  lemma AheadAfterJoin(rest: seq<Meeting>, group: seq<Meeting>, groupEnd: int)
    requires OpenRunAhead(rest, group, groupEnd) && |rest| > 0
    ensures OpenRunAhead(rest[1..], group + [rest[0]],
                         if rest[0].endUtc > groupEnd then rest[0].endUtc else groupEnd)
  {
    RestAfterFirst(rest);
    assert forall y :: y in rest[1..] ==> y in rest;
  }

  /** The sweep's invariant holds for a run opened by the next meeting. */
  lemma AheadAfterClose(rest: seq<Meeting>)
    requires Sorting.SortedBy(rest, StartKey) && |rest| > 0
    ensures OpenRunAhead(rest[1..], [rest[0]], rest[0].endUtc)
  {
    RestAfterFirst(rest);
  }

  /** When the earlier meeting is in the open run, both end up in the first
      run of the sweep. */
  lemma OverlapInOpenRun(rest: seq<Meeting>, group: seq<Meeting>, groupEnd: int, a: Meeting, b: Meeting)
    requires OpenRunAhead(rest, group, groupEnd)
    requires a in group && b in group + rest && b.startUtc < a.endUtc
    ensures a in Sweep(rest, group, groupEnd)[0] && b in Sweep(rest, group, groupEnd)[0]
  {
    OpenRunInFirst(rest, group, groupEnd, a);
    if b in group {
      OpenRunInFirst(rest, group, groupEnd, b);
    } else {
      JoinsOpenRun(rest, group, groupEnd, b);
    }
  }

  /** Two meetings where the later-starting one starts before the other ends
      land in the same run of the sweep. */
  lemma {:induction false} OverlapsShareRun(rest: seq<Meeting>, group: seq<Meeting>, groupEnd: int,
                                            a: Meeting, b: Meeting)
    requires OpenRunAhead(rest, group, groupEnd)
    requires a in group + rest && b in group + rest
    requires a.startUtc < b.startUtc < a.endUtc
    ensures exists r :: r in Sweep(rest, group, groupEnd) && a in r && b in r
    decreases |rest|, 1
  {
    if a in group {
      var runs := Sweep(rest, group, groupEnd);
      OverlapInOpenRun(rest, group, groupEnd, a, b);
      assert runs[0] in runs;
    } else {
      OverlapsShareLaterRun(rest, group, groupEnd, a, b);
    }
  }

  /** The case of the above where the earlier meeting is still to come: the
      sweep takes one step and the claim follows for the rest. */
  lemma {:induction false} OverlapsShareLaterRun(rest: seq<Meeting>, group: seq<Meeting>, groupEnd: int,
                                                 a: Meeting, b: Meeting)
    requires OpenRunAhead(rest, group, groupEnd)
    requires a in rest && b in group + rest
    requires a.startUtc < b.startUtc < a.endUtc
    ensures exists r :: r in Sweep(rest, group, groupEnd) && a in r && b in r
    decreases |rest|, 0
  {
    var runs := Sweep(rest, group, groupEnd);
    var m := rest[0];
    var tail := rest[1..];
    assert rest == [m] + tail;
    if m.startUtc < groupEnd {
      var g := group + [m];
      var newEnd := if m.endUtc > groupEnd then m.endUtc else groupEnd;
      assert runs == Sweep(tail, g, newEnd);
      assert g + tail == group + rest;
      AheadAfterJoin(rest, group, groupEnd);
      OverlapsShareRun(tail, g, newEnd, a, b);
    } else {
      var next := Sweep(tail, [m], m.endUtc);
      assert runs == [group] + next;
      assert b in rest;
      AheadAfterClose(rest);
      OverlapsShareRun(tail, [m], m.endUtc, a, b);
      var r :| r in next && a in r && b in r;
      assert r in runs;
    }
  }

  /** Overlapping meetings of a start-sorted list share one of its runs. */
  lemma OverlapsShareSortedRun(sorted: seq<Meeting>, a: Meeting, b: Meeting)
    requires Sorting.SortedBy(sorted, StartKey)
    requires a in sorted && b in sorted
    requires a.startUtc < b.startUtc < a.endUtc
    ensures exists r :: r in Runs(sorted) && a in r && b in r
  {
    assert sorted == [sorted[0]] + sorted[1..];
    AheadAfterClose(sorted);
    assert Runs(sorted) == Sweep(sorted[1..], [sorted[0]], sorted[0].endUtc);
    OverlapsShareRun(sorted[1..], [sorted[0]], sorted[0].endUtc, a, b);
  }

  /** The overlap groups of the collision check. Every group holds two or
      more chained meetings, and any two meetings where one starts while the
      other is running are reported together. */
  function OverlapGroups(meetings: seq<Meeting>): (groups: seq<seq<Meeting>>)
    ensures forall i :: 0 <= i < |groups| ==> |groups[i]| >= 2 && Chained(groups[i])
    ensures multiset(Flatten(groups)) <= multiset(meetings)
  {
    KeepOverlaps(Runs(SortByStart(meetings)))
  }

  /** Overlapping meetings are never missed: they share a reported group. */
  lemma OverlapsAreReported(meetings: seq<Meeting>, a: Meeting, b: Meeting)
    requires a in meetings && b in meetings
    requires a.startUtc < b.startUtc < a.endUtc
    ensures exists g :: g in OverlapGroups(meetings) && a in g && b in g
  {
    var sorted := SortByStart(meetings);
    assert a in multiset(sorted) && b in multiset(sorted);
    OverlapsShareSortedRun(sorted, a, b);
    var r :| r in Runs(sorted) && a in r && b in r;
    assert a != b;
    assert |r| >= 2;
    assert r in OverlapGroups(meetings);
  }
}
