/** The selection blocks of the appointment and mail loops. Each locked block
    picks the due items and marks them announced in the same step, before any
    sending happens, so a later scan cannot pick them again. */
module Schedulers {
  import opened Models
  import opened SharedCache
  import Reconciler

  /** An appointment is due when it is not yet announced and starts between
      now and now plus the notify interval, both ends included. */
  predicate IsDue(notified: set<string>, m: Meeting, now: int, interval: int) {
    m.id !in notified && now <= m.startUtc <= now + interval
  }

  function DueMeetings(c: Cache, now: int, interval: int): set<Meeting> {
    set k | k in c.meetings && IsDue(c.notifiedMeetings, c.meetings[k], now, interval) :: c.meetings[k]
  }

  function MeetingIds(ms: set<Meeting>): set<string> {
    set m | m in ms :: m.id
  }

  /** The appointment loop's locked block as one transition: the due meetings,
      and the cache with all of them marked. */
  function AppointmentScan(c: Cache, now: int, interval: int): (r: (set<Meeting>, Cache))
    ensures forall m :: m in r.0 <==> m in c.meetings.Values && IsDue(c.notifiedMeetings, m, now, interval)
    ensures r.1.notifiedMeetings == c.notifiedMeetings + MeetingIds(r.0)
    ensures r.1.meetings == c.meetings && r.1.mail == c.mail && r.1.notifiedMail == c.notifiedMail
    ensures DueMeetings(r.1, now, interval) == {}
    ensures Valid(c) ==> Valid(r.1)
  {
    var due := DueMeetings(c, now, interval);
    (due, c.(notifiedMeetings := c.notifiedMeetings + MeetingIds(due)))
  }

  /** The loop of the appointment block over the cached meetings, one key at a
      time, checking each id against the marks made so far. */
  method ScanAppointments(c: Cache, now: int, interval: int) returns (due: seq<Meeting>, r: Cache)
    requires KeyedBy(c.meetings, MeetingId)
    ensures (set m | m in due) == AppointmentScan(c, now, interval).0
    ensures r == AppointmentScan(c, now, interval).1
    ensures forall i, j :: 0 <= i < j < |due| ==> due[i].id != due[j].id
  {
    var remaining := c.meetings.Keys;
    var notified := c.notifiedMeetings;
    due := [];
    while remaining != {}
      invariant remaining <= c.meetings.Keys
      invariant forall m :: m in due ==> m.id in c.meetings && m.id !in remaining
      invariant notified == c.notifiedMeetings + MeetingIds(set m | m in due)
      invariant (set m | m in due) ==
        set k | k in c.meetings && k !in remaining && IsDue(c.notifiedMeetings, c.meetings[k], now, interval)
              :: c.meetings[k]
      invariant forall i, j :: 0 <= i < j < |due| ==> due[i].id != due[j].id
      decreases remaining
    {
      var k :| k in remaining;
      var m := c.meetings[k];
      assert m.id == k;
      assert m.id !in MeetingIds(set m' | m' in due);
      ghost var before := set m' | m' in due;
      if m.id !in notified && now <= m.startUtc && m.startUtc <= now + interval {
        due := due + [m];
        notified := notified + {m.id};
        assert (set m' | m' in due) == before + {m};
      } else {
        assert !IsDue(c.notifiedMeetings, m, now, interval);
      }
      remaining := remaining - {k};
    }
    r := c.(notifiedMeetings := notified);
  }

  function NewMail(c: Cache): set<MailItem> {
    set k | k in c.mail && c.mail[k].id !in c.notifiedMail :: c.mail[k]
  }

  function MailIds(ms: set<MailItem>): set<string> {
    set m | m in ms :: m.id
  }

  /** The mail loop's locked block as one transition: every cached mail not yet
      announced, and the cache with all of them marked. */
  function MailScan(c: Cache): (r: (set<MailItem>, Cache))
    ensures forall m :: m in r.0 <==> m in c.mail.Values && m.id !in c.notifiedMail
    ensures r.1.notifiedMail == c.notifiedMail + MailIds(r.0)
    ensures r.1.meetings == c.meetings && r.1.mail == c.mail && r.1.notifiedMeetings == c.notifiedMeetings
    ensures KeyedBy(c.mail, MailId) ==> c.mail.Keys <= r.1.notifiedMail
    ensures NewMail(r.1) == {}
    ensures Valid(c) ==> Valid(r.1)
  {
    var unseen := NewMail(c);
    (unseen, c.(notifiedMail := c.notifiedMail + MailIds(unseen)))
  }

  /** The loop of the mail block over the cached mail, one key at a time. */
  method ScanMail(c: Cache) returns (unseen: seq<MailItem>, r: Cache)
    requires KeyedBy(c.mail, MailId)
    ensures (set m | m in unseen) == MailScan(c).0
    ensures r == MailScan(c).1
    ensures forall i, j :: 0 <= i < j < |unseen| ==> unseen[i].id != unseen[j].id
  {
    var remaining := c.mail.Keys;
    var notified := c.notifiedMail;
    unseen := [];
    while remaining != {}
      invariant remaining <= c.mail.Keys
      invariant forall m :: m in unseen ==> m.id in c.mail && m.id !in remaining
      invariant notified == c.notifiedMail + MailIds(set m | m in unseen)
      invariant (set m | m in unseen) ==
        set k | k in c.mail && k !in remaining && c.mail[k].id !in c.notifiedMail :: c.mail[k]
      invariant forall i, j :: 0 <= i < j < |unseen| ==> unseen[i].id != unseen[j].id
      decreases remaining
    {
      var k :| k in remaining;
      var m := c.mail[k];
      assert m.id == k;
      assert m.id !in MailIds(set m' | m' in unseen);
      ghost var before := set m' | m' in unseen;
      if m.id !in notified {
        unseen := unseen + [m];
        notified := notified + {m.id};
        assert (set m' | m' in unseen) == before + {m};
      }
      remaining := remaining - {k};
    }
    r := c.(notifiedMail := notified);
  }

  /** One locked block of any loop; the loops interleave only between blocks. */
  datatype Step =
    | Update(fetch: Reconciler.FetchOutcome)
    | AppointmentTick(now: int, interval: int)
    | MailTick

  function Apply(c: Cache, s: Step): Cache {
    match s
    case Update(fetch) => Reconciler.UpdateCycle(c, fetch).0
    case AppointmentTick(now, interval) => AppointmentScan(c, now, interval).1
    case MailTick => MailScan(c).1
  }

  function Run(c: Cache, steps: seq<Step>): Cache
    decreases |steps|
  {
    if |steps| == 0 then c else Run(Apply(c, steps[0]), steps[1..])
  }

  /** The cache invariant holds however the loops' blocks interleave. */
  lemma {:induction false} RunPreservesValid(c: Cache, steps: seq<Step>)
    requires Valid(c)
    ensures Valid(Run(c, steps))
    decreases |steps|
  {
    if |steps| > 0 {
      RunPreservesValid(Apply(c, steps[0]), steps[1..]);
    }
  }

  /** No block ever un-marks a mail, so each mail id is announced at most once
      for the life of the process. */
  lemma {:induction false} NotifiedMailOnlyGrows(c: Cache, steps: seq<Step>)
    ensures c.notifiedMail <= Run(c, steps).notifiedMail
    decreases |steps|
  {
    if |steps| > 0 {
      NotifiedMailOnlyGrows(Apply(c, steps[0]), steps[1..]);
    }
  }

  /** Between two update cycles no meeting mark is lost, so an appointment scan
      never returns a meeting an earlier scan already returned. */
  lemma {:induction false} MarksSurviveScans(c: Cache, steps: seq<Step>)
    requires forall k :: 0 <= k < |steps| ==> !steps[k].Update?
    ensures c.notifiedMeetings <= Run(c, steps).notifiedMeetings
    ensures forall now: int, interval: int, m: Meeting :: m.id in c.notifiedMeetings ==>
              m !in DueMeetings(Run(c, steps), now, interval)
    decreases |steps|
  {
    if |steps| > 0 {
      MarksSurviveScans(Apply(c, steps[0]), steps[1..]);
    }
  }
}
