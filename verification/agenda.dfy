/** The structure of the `/today` reply: a header, an optional free window
    from the start of the working day to the first meeting, then one entry per
    meeting in start order, each followed by a free window when the next
    meeting starts strictly after it ends. Dates, wall-clock text and the
    escaping of each line are rendering and stay outside the model. */
module Agenda {
  import opened Models
  import Sorting
  import Clusters

  datatype Line =
    | Header
    | FreeWindow(from: int, until: int)
    | Entry(meeting: Meeting)
    | NoMeetingsNotice

  /** The meetings of the entry lines, in order. */
  function Entries(lines: seq<Line>): seq<Meeting> {
    if |lines| == 0 then []
    else (if lines[0].Entry? then [lines[0].meeting] else []) + Entries(lines[1..])
  }

  lemma {:induction false} EntriesConcat(a: seq<Line>, b: seq<Line>)
    ensures Entries(a + b) == Entries(a) + Entries(b)
  {
    if |a| == 0 {
      assert a + b == b;
    } else {
      assert (a + b)[0] == a[0] && (a + b)[1..] == a[1..] + b;
      EntriesConcat(a[1..], b);
    }
  }

  /** Every free window after the first line sits between two entries and
      spans exactly the time from the end of the one before to the start of
      the one after. */
  ghost predicate WindowsBetweenEntries(lines: seq<Line>) {
    forall k :: 1 <= k < |lines| && lines[k].FreeWindow? ==>
      && k < |lines| - 1
      && lines[k - 1].Entry? && lines[k - 1].meeting.endUtc == lines[k].from
      && lines[k + 1].Entry? && lines[k + 1].meeting.startUtc == lines[k].until
      && lines[k].from < lines[k].until
  }

  /** Two entries with no window between them: the first has not ended when
      the second starts. */
  ghost predicate AdjacentEntriesTouch(lines: seq<Line>) {
    forall k, j :: 0 <= k && j == k + 1 && j < |lines| && lines[k].Entry? && lines[j].Entry? ==>
      lines[k].meeting.endUtc >= lines[j].meeting.startUtc
  }

  ghost predicate OnlyEntriesAndWindows(lines: seq<Line>) {
    forall k :: 0 <= k < |lines| ==> lines[k].Entry? || lines[k].FreeWindow?
  }

  /** The free window after `m` when `next` starts strictly after it ends. */
  function GapAfter(m: Meeting, next: Meeting): (gap: seq<Line>)
    ensures |gap| <= 1
    ensures |gap| == 1 <==> m.endUtc < next.startUtc
    ensures |gap| == 1 ==> gap[0] == FreeWindow(m.endUtc, next.startUtc)
  {
    if m.endUtc < next.startUtc then [FreeWindow(m.endUtc, next.startUtc)] else []
  }

  /** The lines of the meeting loop over a start-sorted list. */
  function EntryLines(sorted: seq<Meeting>): (lines: seq<Line>)
    ensures |sorted| > 0 ==> |lines| > 0 && lines[0] == Entry(sorted[0])
  {
    if |sorted| == 0 then []
    else if |sorted| == 1 then [Entry(sorted[0])]
    else [Entry(sorted[0])] + GapAfter(sorted[0], sorted[1]) + EntryLines(sorted[1..])
  }

  lemma {:induction false} EntryLinesListsMeetings(sorted: seq<Meeting>)
    ensures Entries(EntryLines(sorted)) == sorted
  {
    if |sorted| == 1 {
      assert [Entry(sorted[0])][1..] == [];
    } else if |sorted| > 1 {
      var m := sorted[0];
      var gap := GapAfter(m, sorted[1]);
      EntryLinesListsMeetings(sorted[1..]);
      EntriesConcat([Entry(m)] + gap, EntryLines(sorted[1..]));
      EntriesConcat([Entry(m)], gap);
      assert Entries([Entry(m)]) == [m] by {
        assert [Entry(m)][1..] == [];
      }
      assert Entries(gap) == [] by {
        if |gap| > 0 {
          assert gap[1..] == [];
        }
      }
      assert sorted == [m] + sorted[1..];
    }
  }

  lemma {:induction false} EntryLinesShape(sorted: seq<Meeting>)
    ensures OnlyEntriesAndWindows(EntryLines(sorted))
    ensures WindowsBetweenEntries(EntryLines(sorted))
    ensures AdjacentEntriesTouch(EntryLines(sorted))
  {
    if |sorted| > 1 {
      var m := sorted[0];
      var gap := GapAfter(m, sorted[1]);
      var rest := EntryLines(sorted[1..]);
      var lines := EntryLines(sorted);
      EntryLinesShape(sorted[1..]);
      assert lines == [Entry(m)] + gap + rest;
      assert rest[0] == Entry(sorted[1]);
      forall k | 1 + |gap| <= k < |lines|
        ensures lines[k] == rest[k - 1 - |gap|]
      {
      }
      forall k | 1 <= k < |lines| && lines[k].FreeWindow?
        ensures k < |lines| - 1
        ensures lines[k - 1].Entry? && lines[k - 1].meeting.endUtc == lines[k].from
        ensures lines[k + 1].Entry? && lines[k + 1].meeting.startUtc == lines[k].until
        ensures lines[k].from < lines[k].until
      {
        if k > 1 + |gap| {
          assert lines[k - 1] == rest[k - 2 - |gap|];
          assert 1 <= k - 1 - |gap| && rest[k - 1 - |gap|].FreeWindow?;
          assert lines[k + 1] == rest[k - |gap|];
        }
      }
      forall k, j | 0 <= k && j == k + 1 && j < |lines| && lines[k].Entry? && lines[j].Entry?
        ensures lines[k].meeting.endUtc >= lines[j].meeting.startUtc
      {
        if k >= 1 + |gap| {
          assert lines[k] == rest[k - 1 - |gap|] && lines[j] == rest[j - 1 - |gap|];
        }
      }
    }
  }

  /** The first meeting of the sorted list starts no later than any other. */
  lemma SortedFirstIsEarliest(meetings: seq<Meeting>)
    requires |meetings| > 0
    ensures |Clusters.SortByStart(meetings)| > 0
    ensures Clusters.SortByStart(meetings)[0] in meetings
    ensures forall m :: m in meetings ==> Clusters.SortByStart(meetings)[0].startUtc <= m.startUtc
  {
    var sorted := Clusters.SortByStart(meetings);
    assert meetings[0] in multiset(sorted);
    assert sorted[0] in multiset(meetings);
    forall m | m in meetings ensures sorted[0].startUtc <= m.startUtc {
      assert m in multiset(sorted);
      var k :| 0 <= k < |sorted| && sorted[k] == m;
      assert k == 0 || Clusters.StartKey(sorted[0]) <= Clusters.StartKey(sorted[k]);
    }
  }

  /** The window from the start of the working day to the first meeting,
      when the day starts before it. */
  function LeadWindow(sorted: seq<Meeting>, workdayStart: int): (lead: seq<Line>)
    ensures |lead| <= 1
    ensures |lead| == 1 <==> |sorted| > 0 && workdayStart < sorted[0].startUtc
    ensures |lead| == 1 ==> lead[0] == FreeWindow(workdayStart, sorted[0].startUtc)
  {
    if |sorted| > 0 && workdayStart < sorted[0].startUtc then [FreeWindow(workdayStart, sorted[0].startUtc)] else []
  }

  /** The header, the window before the first meeting when the working day
      (`workdayStart`, 09:00 local time on the first meeting's date) begins
      before it, and the meeting lines. */
  function TodayLines(meetings: seq<Meeting>, workdayStart: int): (lines: seq<Line>)
    ensures |lines| > 0 && lines[0] == Header
  {
    var sorted := Clusters.SortByStart(meetings);
    var lead := LeadWindow(sorted, workdayStart);
    [Header] + lead + EntryLines(sorted)
  }

  /** The entries of the reply are the meetings in start order: a
      rearrangement of the input, sorted by start. */
  lemma TodayListsEveryMeeting(meetings: seq<Meeting>, workdayStart: int)
    ensures Entries(TodayLines(meetings, workdayStart)) == Clusters.SortByStart(meetings)
    ensures multiset(Entries(TodayLines(meetings, workdayStart))) == multiset(meetings)
  {
    var sorted := Clusters.SortByStart(meetings);
    var lead := LeadWindow(sorted, workdayStart);
    EntryLinesListsMeetings(sorted);
    EntriesConcat([Header] + lead, EntryLines(sorted));
    EntriesConcat([Header], lead);
    assert Entries([Header]) == [] by {
      assert [Header][1..] == [];
    }
    assert Entries(lead) == [] by {
      if |lead| > 0 {
        assert lead[1..] == [];
      }
    }
  }

  lemma LeadKeepsShape(lead: seq<Line>, body: seq<Line>)
    requires |lead| <= 1
    requires |lead| == 1 ==> lead[0].FreeWindow? && |body| > 0 && body[0].Entry?
    requires OnlyEntriesAndWindows(body) && WindowsBetweenEntries(body) && AdjacentEntriesTouch(body)
    ensures OnlyEntriesAndWindows(lead + body)
    ensures WindowsBetweenEntries(lead + body)
    ensures AdjacentEntriesTouch(lead + body)
  {
    if |lead| == 1 {
      var lines := lead + body;
      forall k | 1 <= k < |lines| ensures lines[k] == body[k - 1] {
      }
      forall k | 1 <= k < |lines| && lines[k].FreeWindow?
        ensures k < |lines| - 1
        ensures lines[k - 1].Entry? && lines[k - 1].meeting.endUtc == lines[k].from
        ensures lines[k + 1].Entry? && lines[k + 1].meeting.startUtc == lines[k].until
        ensures lines[k].from < lines[k].until
      {
        assert body[k - 1].FreeWindow?;
      }
    } else {
      assert lead + body == body;
    }
  }

  /** After the header come only entries and windows; every window but a
      leading one lies between the two meetings it separates, and two
      entries with nothing between them overlap or abut. */
  lemma TodayShape(meetings: seq<Meeting>, workdayStart: int)
    ensures OnlyEntriesAndWindows(TodayLines(meetings, workdayStart)[1..])
    ensures WindowsBetweenEntries(TodayLines(meetings, workdayStart)[1..])
    ensures AdjacentEntriesTouch(TodayLines(meetings, workdayStart)[1..])
  {
    var sorted := Clusters.SortByStart(meetings);
    TodayTail(meetings, workdayStart);
    SortedLinesShape(sorted, workdayStart);
  }

  /** Past the header, the reply is the leading window and the entries. */
  lemma TodayTail(meetings: seq<Meeting>, workdayStart: int)
    ensures var sorted := Clusters.SortByStart(meetings);
      TodayLines(meetings, workdayStart)[1..] == LeadWindow(sorted, workdayStart) + EntryLines(sorted)
  {
  }

  /** The leading window and the entries, for any order of meetings. */
  lemma SortedLinesShape(sorted: seq<Meeting>, workdayStart: int)
    ensures OnlyEntriesAndWindows(LeadWindow(sorted, workdayStart) + EntryLines(sorted))
    ensures WindowsBetweenEntries(LeadWindow(sorted, workdayStart) + EntryLines(sorted))
    ensures AdjacentEntriesTouch(LeadWindow(sorted, workdayStart) + EntryLines(sorted))
  {
    EntryLinesShape(sorted);
    LeadKeepsShape(LeadWindow(sorted, workdayStart), EntryLines(sorted));
  }

  /** There is a window before the first meeting exactly when the working
      day starts before every meeting, and it then runs from the start of
      the day to the earliest meeting. */
  lemma TodayLeadingWindow(meetings: seq<Meeting>, workdayStart: int)
    ensures var lines := TodayLines(meetings, workdayStart);
      |lines| > 1 && lines[1].FreeWindow? <==>
        |meetings| > 0 && forall m :: m in meetings ==> workdayStart < m.startUtc
    ensures var lines := TodayLines(meetings, workdayStart);
      |lines| > 1 && lines[1].FreeWindow? ==>
        && lines[1].from == workdayStart
        && (exists m :: m in meetings && m.startUtc == lines[1].until)
        && (forall m :: m in meetings ==> lines[1].until <= m.startUtc)
  {
    var sorted := Clusters.SortByStart(meetings);
    var lines := TodayLines(meetings, workdayStart);
    if |sorted| > 0 {
      SortedFirstIsEarliest(meetings);
      assert |meetings| > 0 by {
        assert sorted[0] in meetings;
      }
    } else {
      assert |meetings| == |multiset(meetings)| == |multiset(sorted)| == 0;
    }
    if |LeadWindow(sorted, workdayStart)| == 0 && |sorted| > 0 {
      assert lines[1] == Entry(sorted[0]);
    }
  }

  /** The reply as the code builds it: the "no meetings today" notice stands
      in for an empty line list, which never occurs because the list starts
      with the header. */
  function TodayReplyAsWritten(meetings: seq<Meeting>, workdayStart: int): seq<Line> {
    var lines := TodayLines(meetings, workdayStart);
    if |lines| == 0 then [NoMeetingsNotice] else lines
  }

  /** The notice is unreachable: a day without meetings gets the bare header. */
  lemma NoticeNeverSent(meetings: seq<Meeting>, workdayStart: int)
    ensures NoMeetingsNotice !in TodayReplyAsWritten(meetings, workdayStart)
    ensures TodayReplyAsWritten([], workdayStart) == [Header]
  {
    var lines := TodayLines(meetings, workdayStart);
    TodayShape(meetings, workdayStart);
    forall k | 0 <= k < |lines| ensures lines[k] != NoMeetingsNotice {
      if k > 0 {
        assert lines[k] == lines[1..][k - 1];
      }
    }
    assert Clusters.SortByStart([]) == [];
    assert EntryLines([]) == [] && LeadWindow([], workdayStart) == [];
  }

  /** The reply with the evident intent restored: the notice when there are
      no meetings, the agenda otherwise. */
  function TodayReply(meetings: seq<Meeting>, workdayStart: int): (reply: seq<Line>)
    ensures reply == [NoMeetingsNotice] <==> |meetings| == 0
    ensures NoMeetingsNotice in reply <==> |meetings| == 0
    ensures |meetings| > 0 ==> |reply| > 0 && reply[0] == Header && multiset(Entries(reply)) == multiset(meetings)
  {
    if |meetings| == 0 then [NoMeetingsNotice]
    else
      var lines := TodayLines(meetings, workdayStart);
      NoticeNeverSent(meetings, workdayStart);
      TodayListsEveryMeeting(meetings, workdayStart);
      lines
  }
}
