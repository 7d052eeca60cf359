/** The reconcile block of the update loop: merges a freshly fetched snapshot
    into the cache under the lock, re-arming meetings moved to a later start and
    dropping announcement marks of meetings that disappeared. */
module Reconciler {
  import opened Models
  import opened SharedCache

  /** Ids of snapshot meetings whose start moved strictly later than the start
      `previous` recorded for them. */
  ghost function MovedLater(previous: map<string, Meeting>, snapshot: seq<Meeting>): set<string> {
    set m | m in snapshot && m.id in previous && m.startUtc > previous[m.id].startUtc :: m.id
  }

  /** The re-arm pass, one snapshot meeting at a time: an announced meeting
      that was present before and now starts strictly later is un-marked. */
  function Rearm(notified: set<string>, previous: map<string, Meeting>, snapshot: seq<Meeting>): (r: set<string>)
    ensures r == notified - MovedLater(previous, snapshot)
    decreases |snapshot|
  {
    if |snapshot| == 0 then notified
    else
      var m := snapshot[0];
      var marked :=
        if m.id in previous && m.id in notified && m.startUtc > previous[m.id].startUtc
        then notified - {m.id} else notified;
      assert snapshot == [m] + snapshot[1..];
      assert MovedLater(previous, snapshot) ==
        MovedLater(previous, [m]) + MovedLater(previous, snapshot[1..]);
      Rearm(marked, previous, snapshot[1..])
  }

  /** One reconcile step. The previous meetings are the cache's own map, which
      only this step ever replaces. */
  function Reconcile(c: Cache, snap: Snapshot): (r: Cache)
    ensures Valid(r)
    ensures r.meetings.Keys == set m | m in snap.meetings :: m.id
    ensures forall id :: id in r.meetings ==> r.meetings[id] in snap.meetings
    ensures r.mail.Keys == set m | m in snap.mails :: m.id
    ensures forall id :: id in r.mail ==> r.mail[id] in snap.mails
    ensures r.notifiedMail == c.notifiedMail
    ensures forall id :: id in r.notifiedMeetings <==>
      && id in c.notifiedMeetings
      && id in r.meetings
      && !(exists m :: m in snap.meetings && m.id == id && id in c.meetings
                       && m.startUtc > c.meetings[id].startUtc)
  {
    var meetings := IndexBy(snap.meetings, MeetingId);
    var mail := IndexBy(snap.mails, MailId);
    var rearmed := Rearm(c.notifiedMeetings, c.meetings, snap.meetings);
    Cache(meetings, mail, rearmed * meetings.Keys, c.notifiedMail)
  }

  /** A meeting that was announced, was present, and now starts strictly later
      is eligible for a new alert. */
  lemma RescheduleLaterRearms(c: Cache, snap: Snapshot, m: Meeting)
    requires m in snap.meetings && m.id in c.notifiedMeetings && m.id in c.meetings
    requires m.startUtc > c.meetings[m.id].startUtc
    ensures m.id !in Reconcile(c, snap).notifiedMeetings
  {
  }

  /** An announced meeting that is still present and did not move later keeps
      its mark: an earlier warning stays valid. */
  lemma RescheduleEarlierKeeps(c: Cache, snap: Snapshot, m: Meeting)
    requires m in snap.meetings && m.id in c.notifiedMeetings
    requires forall m' :: m' in snap.meetings && m'.id == m.id && m.id in c.meetings ==>
               m'.startUtc <= c.meetings[m.id].startUtc
    ensures m.id in Reconcile(c, snap).notifiedMeetings
  {
  }

  /** What the directory source's fetch produced in one update cycle. */
  datatype FetchOutcome = Fetched(snapshot: Snapshot) | AuthFailure | OtherFailure

  /** One update cycle: an authentication failure ends the update loop, any
      other failure leaves the cache as it was until the next cycle. */
  function UpdateCycle(c: Cache, fetch: FetchOutcome): (r: (Cache, bool))
    ensures r.1 <==> !fetch.AuthFailure?
    ensures !fetch.Fetched? ==> r.0 == c
    ensures fetch.Fetched? ==> r.0.meetings.Keys == set m | m in fetch.snapshot.meetings :: m.id
    ensures Valid(c) ==> Valid(r.0)
  {
    match fetch
    case Fetched(snap) => (Reconcile(c, snap), true)
    case AuthFailure => (c, false)
    case OtherFailure => (c, true)
  }
}
