/** The trigger of the daily digest loop. The loop polls at a fixed interval;
    each poll sees the local date (as a day number), the weekday (Monday is 0)
    and the local wall clock in whole seconds since midnight. Time zones and
    calendars stay outside the model: these arrive as inputs. */
module Digest {
  import opened Wrappers

  /** The configured digest time, as `datetime.time(hour, minute)`. */
  datatype TimeOfDay = TimeOfDay(hour: int, minute: int)

  /** Seconds since midnight at which `t` begins. A wall clock with seconds and
      microseconds compares at least `t` exactly when its whole seconds since
      midnight reach this number, because `t` has none of either. */
  function StartSecond(t: TimeOfDay): int {
    t.hour * 3600 + t.minute * 60
  }

  /** One poll of the digest loop. */
  datatype Poll = Poll(today: int, weekday: int, secondOfDay: int)

  /** A poll that may send: a working day, at or after the digest time. */
  predicate Eligible(agendaTime: Option<TimeOfDay>, p: Poll) {
    agendaTime.Some? && p.weekday < 5 && p.secondOfDay >= StartSecond(agendaTime.value)
  }

  /** What one poll decides: whether the digest is built and sent now, and
      the new "last sent" date. */
  datatype Decision = Decision(send: bool, lastSent: Option<int>)

  /** One poll. The date recorded is the one read before sending. */
  function DigestPoll(agendaTime: Option<TimeOfDay>, lastSent: Option<int>, p: Poll): Decision {
    if agendaTime.None? then Decision(false, lastSent)
    else if p.weekday < 5 && lastSent != Some(p.today) && p.secondOfDay >= StartSecond(agendaTime.value)
    then Decision(true, Some(p.today))
    else Decision(false, lastSent)
  }

  /** The dates on which a run of polls sends the digest, in order. */
  function SentDates(agendaTime: Option<TimeOfDay>, lastSent: Option<int>, polls: seq<Poll>): seq<int>
    decreases |polls|
  {
    if |polls| == 0 then []
    else
      var dec := DigestPoll(agendaTime, lastSent, polls[0]);
      (if dec.send then [polls[0].today] else []) + SentDates(agendaTime, dec.lastSent, polls[1..])
  }

  /** Some poll of the run falls on date `d` and may send. */
  predicate EligibleOn(agendaTime: Option<TimeOfDay>, polls: seq<Poll>, d: int) {
    exists i :: 0 <= i < |polls| && polls[i].today == d && Eligible(agendaTime, polls[i])
  }

  predicate DatesNonDecreasing(polls: seq<Poll>) {
    forall i, j :: 0 <= i < j < |polls| ==> polls[i].today <= polls[j].today
  }

  /** With the clock moving forward, a date is a digest date exactly when some
      poll on that date was eligible and it is not the date already served. */
  lemma {:induction false} SentDatesExactly(agendaTime: Option<TimeOfDay>, lastSent: Option<int>, polls: seq<Poll>)
    requires DatesNonDecreasing(polls)
    requires lastSent.Some? ==> forall i :: 0 <= i < |polls| ==> lastSent.value <= polls[i].today
    ensures forall d :: d in SentDates(agendaTime, lastSent, polls) <==>
              EligibleOn(agendaTime, polls, d) && lastSent != Some(d)
    decreases |polls|
  {
    if |polls| > 0 {
      var dec := DigestPoll(agendaTime, lastSent, polls[0]);
      var send, last := dec.send, dec.lastSent;
      var rest := polls[1..];
      SentDatesExactly(agendaTime, last, rest);
      forall d
        ensures EligibleOn(agendaTime, polls, d) <==>
                (polls[0].today == d && Eligible(agendaTime, polls[0])) || EligibleOn(agendaTime, rest, d)
      {
        if EligibleOn(agendaTime, polls, d) {
          var i :| 0 <= i < |polls| && polls[i].today == d && Eligible(agendaTime, polls[i]);
          if i > 0 {
            assert rest[i - 1] == polls[i];
          }
        }
        if EligibleOn(agendaTime, rest, d) {
          var i :| 0 <= i < |rest| && rest[i].today == d && Eligible(agendaTime, rest[i]);
          assert polls[i + 1] == rest[i];
        }
      }
    }
  }

  predicate StrictlyIncreasing(s: seq<int>) {
    forall i, j :: 0 <= i < j < |s| ==> s[i] < s[j]
  }

  /** The digest dates strictly increase, so no date gets two digests. */
  lemma {:induction false} AtMostOncePerDate(agendaTime: Option<TimeOfDay>, lastSent: Option<int>, polls: seq<Poll>)
    requires DatesNonDecreasing(polls)
    requires lastSent.Some? ==> forall i :: 0 <= i < |polls| ==> lastSent.value <= polls[i].today
    ensures StrictlyIncreasing(SentDates(agendaTime, lastSent, polls))
    ensures lastSent.Some? ==> forall d :: d in SentDates(agendaTime, lastSent, polls) ==> lastSent.value < d
    decreases |polls|
  {
    if |polls| > 0 {
      var dec := DigestPoll(agendaTime, lastSent, polls[0]);
      var send, last := dec.send, dec.lastSent;
      var rest := polls[1..];
      assert last.Some? ==> forall i :: 0 <= i < |rest| ==> last.value <= rest[i].today by {
        if last.Some? {
          forall i | 0 <= i < |rest| ensures last.value <= rest[i].today {
            assert rest[i] == polls[i + 1];
          }
        }
      }
      AtMostOncePerDate(agendaTime, last, rest);
      var tail := SentDates(agendaTime, last, rest);
      if send {
        assert last == Some(polls[0].today);
        var sent := SentDates(agendaTime, lastSent, polls);
        assert sent == [polls[0].today] + tail;
        assert forall d :: d in tail ==> polls[0].today < d;
        forall i, j | 0 <= i < j < |sent| ensures sent[i] < sent[j] {
          assert sent[j] == tail[j - 1] && tail[j - 1] in tail;
          if i > 0 {
            assert sent[i] == tail[i - 1];
            assert StrictlyIncreasing(tail);
          }
        }
      } else {
        assert SentDates(agendaTime, lastSent, polls) == tail;
      }
    }
  }

  /** Without a configured digest time the loop returns at once: nothing is
      ever sent. */
  lemma {:induction false} NoTimeNoDigest(lastSent: Option<int>, polls: seq<Poll>)
    ensures SentDates(None, lastSent, polls) == []
    decreases |polls|
  {
    if |polls| > 0 {
      NoTimeNoDigest(lastSent, polls[1..]);
    }
  }
}
