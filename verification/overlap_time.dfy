/** The overlap minutes of one collision group: a sweep over the start and end
    events of its meetings, sorted as the tuples (time, delta) compare, that
    adds up the time during which two or more meetings are running. Proved
    equal to a plain count of the seconds at which at least two meetings are
    running. */
module OverlapTime {
  import opened Wrappers
  import opened Models
  import Sorting

  /** At `time`, one meeting begins (`delta` 1) or ends (`delta` -1). */
  datatype Event = Event(time: int, delta: int)

  /** The events of the meetings that last a positive time, in group order;
      meetings ending at or before their start are skipped. */
  function EventsOf(group: seq<Meeting>): seq<Event> {
    if |group| == 0 then []
    else
      var m := group[0];
      (if m.endUtc <= m.startUtc then [] else [Event(m.startUtc, 1), Event(m.endUtc, -1)])
        + EventsOf(group[1..])
  }

  /** Orders events as the tuple (time, delta) does: by time, and at one
      instant an end (-1) ahead of a start (+1). */
  function EventKey(e: Event): int {
    2 * e.time + (if e.delta > 0 then 1 else 0)
  }

  lemma EventKeyIsTupleOrder(a: Event, b: Event)
    requires a.delta == 1 || a.delta == -1
    requires b.delta == 1 || b.delta == -1
    ensures EventKey(a) <= EventKey(b) <==> a.time < b.time || (a.time == b.time && a.delta <= b.delta)
  {
  }

  /** The loop of `_overlap_minutes`: before applying an event, the time since
      the previous event is added when two or more meetings were running. */
  function SweepSeconds(events: seq<Event>, active: int, last: Option<int>): int
    decreases |events|
  {
    if |events| == 0 then 0
    else
      var e := events[0];
      var gained := if last.Some? && active >= 2 then e.time - last.value else 0;
      gained + SweepSeconds(events[1..], active + e.delta, Some(e.time))
  }

  function SortedEvents(group: seq<Meeting>): seq<Event> {
    Sorting.SortBy(EventsOf(group), EventKey)
  }

  function OverlapSeconds(group: seq<Meeting>): int {
    SweepSeconds(SortedEvents(group), 0, None)
  }

  /** `max(0, overlap_seconds // 60)`; floor and Euclidean division agree for
      a positive divisor. */
  function OverlapMinutes(group: seq<Meeting>): int {
    var minutes := OverlapSeconds(group) / 60;
    if minutes < 0 then 0 else minutes
  }

  // ---------------------------------------------------------------------
  // The reference: how many meetings run at a second, and how many seconds
  // of a window have at least two running.

  /** The meetings of `group` running at second `t`. */
  function ActiveAt(group: seq<Meeting>, t: int): nat {
    if |group| == 0 then 0
    else (if group[0].startUtc <= t < group[0].endUtc then 1 else 0) + ActiveAt(group[1..], t)
  }

  /** The seconds `t` with `lo <= t < hi` at which two or more meetings run. */
  function OverlapCount(group: seq<Meeting>, lo: int, hi: int): nat
    decreases hi - lo
  {
    if hi <= lo then 0
    else OverlapCount(group, lo, hi - 1) + (if ActiveAt(group, hi - 1) >= 2 then 1 else 0)
  }

  lemma {:induction false} OverlapCountSplit(group: seq<Meeting>, lo: int, mid: int, hi: int)
    requires lo <= mid <= hi
    ensures OverlapCount(group, lo, hi) == OverlapCount(group, lo, mid) + OverlapCount(group, mid, hi)
    decreases hi - mid
  {
    if mid < hi {
      OverlapCountSplit(group, lo, mid, hi - 1);
    }
  }

  lemma {:induction false} OverlapCountConstant(group: seq<Meeting>, lo: int, hi: int, c: int)
    requires lo <= hi
    requires forall t :: lo <= t < hi ==> ActiveAt(group, t) == c
    ensures OverlapCount(group, lo, hi) == if c >= 2 then hi - lo else 0
    decreases hi - lo
  {
    if lo < hi {
      OverlapCountConstant(group, lo, hi - 1, c);
    }
  }

  // ---------------------------------------------------------------------
  // Sums of event deltas.

  function Net(es: seq<Event>): int {
    if |es| == 0 then 0 else Net(es[..|es| - 1]) + es[|es| - 1].delta
  }

  /** The deltas of the events at or before `t`. */
  function NetUpTo(es: seq<Event>, t: int): int {
    if |es| == 0 then 0
    else NetUpTo(es[..|es| - 1], t) + (if es[|es| - 1].time <= t then es[|es| - 1].delta else 0)
  }

  lemma NetUpToSingle(x: Event, t: int)
    ensures NetUpTo([x], t) == if x.time <= t then x.delta else 0
  {
    assert [x][..0] == [];
  }

  lemma {:induction false} NetUpToConcat(a: seq<Event>, b: seq<Event>, t: int)
    ensures NetUpTo(a + b, t) == NetUpTo(a, t) + NetUpTo(b, t)
    decreases |b|
  {
    if |b| == 0 {
      assert a + b == a;
    } else {
      assert (a + b)[..|a + b| - 1] == a + b[..|b| - 1];
      NetUpToConcat(a, b[..|b| - 1], t);
    }
  }

  lemma NetUpToSplit(es: seq<Event>, j: int, t: int)
    requires 0 <= j <= |es|
    ensures NetUpTo(es, t) == NetUpTo(es[..j], t) + NetUpTo(es[j..], t)
  {
    assert es == es[..j] + es[j..];
    NetUpToConcat(es[..j], es[j..], t);
  }

  lemma {:induction false} NetUpToPermutation(a: seq<Event>, b: seq<Event>, t: int)
    requires multiset(a) == multiset(b)
    ensures NetUpTo(a, t) == NetUpTo(b, t)
    decreases |a|
  {
    if |a| > 0 {
      var x := a[|a| - 1];
      var init := a[..|a| - 1];
      assert a == init + [x];
      assert x in multiset(b);
      var i :| 0 <= i < |b| && b[i] == x;
      var front, back := b[..i], b[i + 1..];
      assert b == front + [x] + back;
      assert multiset(init) == multiset(a) - multiset{x};
      assert multiset(front + back) == multiset(front) + multiset(back) == multiset(b) - multiset{x};
      NetUpToPermutation(init, front + back, t);
      NetUpToConcat(front + [x], back, t);
      NetUpToConcat(front, [x], t);
      NetUpToConcat(front, back, t);
      NetUpToConcat(init, [x], t);
    }
  }

  lemma {:induction false} NetUpToAllBefore(es: seq<Event>, t: int)
    requires forall k :: 0 <= k < |es| ==> es[k].time <= t
    ensures NetUpTo(es, t) == Net(es)
  {
    if |es| > 0 {
      NetUpToAllBefore(es[..|es| - 1], t);
    }
  }

  lemma {:induction false} NetUpToAllAfter(es: seq<Event>, t: int)
    requires forall k :: 0 <= k < |es| ==> es[k].time > t
    ensures NetUpTo(es, t) == 0
  {
    if |es| > 0 {
      NetUpToAllAfter(es[..|es| - 1], t);
    }
  }

  /** Summing the deltas of the events at or before `t` counts the meetings
      running at `t`. */
  lemma {:induction false} NetUpToCountsActive(group: seq<Meeting>, t: int)
    ensures NetUpTo(EventsOf(group), t) == ActiveAt(group, t)
  {
    if |group| > 0 {
      var m := group[0];
      var own := if m.endUtc <= m.startUtc then [] else [Event(m.startUtc, 1), Event(m.endUtc, -1)];
      assert EventsOf(group) == own + EventsOf(group[1..]);
      NetUpToConcat(own, EventsOf(group[1..]), t);
      NetUpToCountsActive(group[1..], t);
      if m.startUtc < m.endUtc {
        assert own == [Event(m.startUtc, 1)] + [Event(m.endUtc, -1)];
        NetUpToConcat([Event(m.startUtc, 1)], [Event(m.endUtc, -1)], t);
        NetUpToSingle(Event(m.startUtc, 1), t);
        NetUpToSingle(Event(m.endUtc, -1), t);
      }
    }
  }

  predicate TimesSorted(es: seq<Event>) {
    forall i, j :: 0 <= i < j < |es| ==> es[i].time <= es[j].time
  }

  /** Sorted by key, events are sorted by time. */
  lemma SortedTimes(es: seq<Event>)
    requires Sorting.SortedBy(es, EventKey)
    ensures TimesSorted(es)
  {
    forall i, j | 0 <= i < j < |es| ensures es[i].time <= es[j].time {
      assert EventKey(es[i]) <= EventKey(es[j]);
    }
  }

  /** Cut between two events of a time-sorted list, the deltas up to `t`
      are those of the events before the cut. */
  lemma NetUpToAtCut(es: seq<Event>, j: int, t: int)
    requires TimesSorted(es)
    requires 0 <= j <= |es|
    requires j == 0 || es[j - 1].time <= t
    requires j == |es| || t < es[j].time
    ensures NetUpTo(es, t) == Net(es[..j])
  {
    var front, back := es[..j], es[j..];
    assert forall k :: 0 <= k < |front| ==> front[k].time <= t by {
      forall k | 0 <= k < |front| ensures front[k].time <= t {
        assert front[k] == es[k];
      }
    }
    assert forall k :: 0 <= k < |back| ==> back[k].time > t by {
      forall k | 0 <= k < |back| ensures back[k].time > t {
        assert back[k] == es[j + k];
      }
    }
    NetUpToSplit(es, j, t);
    NetUpToAllBefore(front, t);
    NetUpToAllAfter(back, t);
  }

  /** Between two consecutive events of the sorted list, the running count
      equals the deltas of the events before the cut. */
  lemma ActiveIsPrefixNet(group: seq<Meeting>, es: seq<Event>, j: int, t: int)
    requires TimesSorted(es) && multiset(es) == multiset(EventsOf(group))
    requires 0 <= j <= |es|
    requires j == 0 || es[j - 1].time <= t
    requires j == |es| || t < es[j].time
    ensures ActiveAt(group, t) == Net(es[..j])
  {
    NetUpToAtCut(es, j, t);
    NetUpToPermutation(es, EventsOf(group), t);
    NetUpToCountsActive(group, t);
  }

  /** From event `j` on, the sweep adds exactly the overlap seconds between
      event `j - 1` and the last event. */
  lemma {:induction false} SweepCountsFrom(group: seq<Meeting>, es: seq<Event>, j: int)
    requires TimesSorted(es) && multiset(es) == multiset(EventsOf(group))
    requires 1 <= j <= |es|
    ensures SweepSeconds(es[j..], Net(es[..j]), Some(es[j - 1].time))
            == OverlapCount(group, es[j - 1].time, es[|es| - 1].time)
    decreases |es| - j
  {
    if j < |es| {
      var before, at, final := es[j - 1].time, es[j].time, es[|es| - 1].time;
      var active := Net(es[..j]);
      assert before <= at <= final;
      assert es[j..][0] == es[j] && es[j..][1..] == es[j + 1..];
      assert es[..j + 1][..j] == es[..j];
      assert Net(es[..j + 1]) == active + es[j].delta;
      SweepCountsFrom(group, es, j + 1);
      OverlapCountSplit(group, before, at, final);
      forall t | before <= t < at ensures ActiveAt(group, t) == active {
        ActiveIsPrefixNet(group, es, j, t);
      }
      OverlapCountConstant(group, before, at, active);
    }
  }

  lemma {:induction false} EventsWithin(group: seq<Meeting>, lo: int, hi: int)
    requires forall m :: m in group && m.startUtc < m.endUtc ==> lo <= m.startUtc && m.endUtc <= hi
    ensures forall e :: e in EventsOf(group) ==> lo <= e.time <= hi
  {
    if |group| > 0 {
      assert forall m :: m in group[1..] ==> m in group;
      EventsWithin(group[1..], lo, hi);
    }
  }

  lemma {:induction false} NoEventsNoneActive(group: seq<Meeting>, t: int)
    requires EventsOf(group) == []
    ensures ActiveAt(group, t) == 0
  {
    if |group| > 0 {
      NoEventsNoneActive(group[1..], t);
    }
  }

  lemma {:induction false} AfterAllEndsNoneActive(group: seq<Meeting>, t: int)
    requires forall e :: e in EventsOf(group) ==> e.time <= t
    ensures ActiveAt(group, t) == 0
  {
    if |group| > 0 {
      var m := group[0];
      if m.startUtc < m.endUtc {
        assert Event(m.endUtc, -1) in EventsOf(group);
      }
      assert forall e :: e in EventsOf(group[1..]) ==> e in EventsOf(group);
      AfterAllEndsNoneActive(group[1..], t);
    }
  }

  /** Outside the span of the sorted events nothing overlaps. */
  lemma OutsideEventsNoOverlap(group: seq<Meeting>, es: seq<Event>, lo: int, hi: int)
    requires TimesSorted(es) && multiset(es) == multiset(EventsOf(group)) && |es| > 0
    requires lo <= es[0].time && es[|es| - 1].time <= hi
    ensures OverlapCount(group, lo, es[0].time) == 0
    ensures OverlapCount(group, es[|es| - 1].time, hi) == 0
  {
    var first, final := es[0].time, es[|es| - 1].time;
    forall t | lo <= t < first ensures ActiveAt(group, t) == 0 {
      ActiveIsPrefixNet(group, es, 0, t);
    }
    OverlapCountConstant(group, lo, first, 0);
    forall e | e in EventsOf(group) ensures e.time <= final {
      assert e in multiset(es);
      var k :| 0 <= k < |es| && es[k] == e;
    }
    forall t | final <= t < hi ensures ActiveAt(group, t) == 0 {
      AfterAllEndsNoneActive(group, t);
    }
    OverlapCountConstant(group, final, hi, 0);
  }

  /** The first event only records its time: nothing was running before it. */
  lemma SweepFirstEvent(es: seq<Event>)
    requires |es| > 0
    ensures SweepSeconds(es, 0, None) == SweepSeconds(es[1..], Net(es[..1]), Some(es[0].time))
  {
    assert es[..1][..0] == [];
  }

  lemma SortedEventsWithin(group: seq<Meeting>, lo: int, hi: int)
    requires forall m :: m in group && m.startUtc < m.endUtc ==> lo <= m.startUtc && m.endUtc <= hi
    requires |SortedEvents(group)| > 0
    ensures lo <= SortedEvents(group)[0].time
    ensures SortedEvents(group)[|SortedEvents(group)| - 1].time <= hi
  {
    var es := SortedEvents(group);
    EventsWithin(group, lo, hi);
    assert es[0] in multiset(EventsOf(group));
    assert es[|es| - 1] in multiset(EventsOf(group));
  }

  /** The sweep's total is the number of seconds of any window holding all
      the group's meetings at which two or more of them run. */
  lemma OverlapSecondsIsCount(group: seq<Meeting>, lo: int, hi: int)
    requires lo <= hi
    requires forall m :: m in group && m.startUtc < m.endUtc ==> lo <= m.startUtc && m.endUtc <= hi
    ensures OverlapSeconds(group) == OverlapCount(group, lo, hi)
  {
    var es := SortedEvents(group);
    if |es| == 0 {
      assert EventsOf(group) == [];
      forall t | lo <= t < hi ensures ActiveAt(group, t) == 0 {
        NoEventsNoneActive(group, t);
      }
      OverlapCountConstant(group, lo, hi, 0);
    } else {
      SortedTimes(es);
      SortedEventsWithin(group, lo, hi);
      var first, final := es[0].time, es[|es| - 1].time;
      SweepFirstEvent(es);
      SweepCountsFrom(group, es, 1);
      OverlapCountSplit(group, lo, first, hi);
      OverlapCountSplit(group, first, final, hi);
      OutsideEventsNoOverlap(group, es, lo, hi);
    }
  }

  /** Whole minutes of overlap, by the same count. */
  lemma OverlapMinutesIsCount(group: seq<Meeting>, lo: int, hi: int)
    requires lo <= hi
    requires forall m :: m in group && m.startUtc < m.endUtc ==> lo <= m.startUtc && m.endUtc <= hi
    ensures OverlapMinutes(group) == OverlapCount(group, lo, hi) / 60
  {
    OverlapSecondsIsCount(group, lo, hi);
  }

  /** Two meetings where the second starts while the first runs and ends
      after it overlap for exactly the time between the second's start and
      the first's end. */
  lemma StaggeredPairOverlap(a: Meeting, b: Meeting)
    requires a.startUtc <= b.startUtc < a.endUtc <= b.endUtc
    ensures OverlapSeconds([a, b]) == a.endUtc - b.startUtc
  {
    var g := [a, b];
    assert g[1..] == [b] && g[1..][1..] == [];
    forall t ensures ActiveAt(g, t) == (if a.startUtc <= t < a.endUtc then 1 else 0)
                                      + (if b.startUtc <= t < b.endUtc then 1 else 0) {
      assert ActiveAt(g[1..][1..], t) == 0;
    }
    OverlapSecondsIsCount(g, a.startUtc, b.endUtc);
    OverlapCountSplit(g, a.startUtc, b.startUtc, b.endUtc);
    OverlapCountSplit(g, b.startUtc, a.endUtc, b.endUtc);
    OverlapCountConstant(g, a.startUtc, b.startUtc, 1);
    OverlapCountConstant(g, b.startUtc, a.endUtc, 2);
    OverlapCountConstant(g, a.endUtc, b.endUtc, 1);
  }

  /** Meetings from 0 to 3600 and from 1800 to 5400 overlap for 30 minutes. */
  lemma HalfHourOverlap(a: Meeting, b: Meeting)
    requires a.startUtc == 0 && a.endUtc == 3600
    requires b.startUtc == 1800 && b.endUtc == 5400
    ensures OverlapMinutes([a, b]) == 30
  {
    StaggeredPairOverlap(a, b);
  }
}
