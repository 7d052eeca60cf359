/** The shared cache: the latest meetings and mail keyed by id, and the ids
    already announced. The single lock that guards it is not state here: every
    locked block of the notifier becomes one function from cache to cache, so
    nothing can interleave inside a block. */
module SharedCache {
  import opened Models

  datatype Cache = Cache(
    meetings: map<string, Meeting>,
    mail: map<string, MailItem>,
    notifiedMeetings: set<string>,
    notifiedMail: set<string>)

  /** Every entry of `m` is stored under its own id, so an id names at most
      one item. */
  ghost predicate KeyedBy<T>(m: map<string, T>, key: T -> string) {
    forall k :: k in m ==> key(m[k]) == k
  }

  /** The cache invariant: both maps are keyed by id, and only meetings that
      are present can be marked as announced. */
  ghost predicate Valid(c: Cache) {
    && KeyedBy(c.meetings, MeetingId)
    && KeyedBy(c.mail, MailId)
    && c.notifiedMeetings <= c.meetings.Keys
  }

  /** The cache as the process creates it. */
  function Empty(): (c: Cache)
    ensures Valid(c)
    ensures |c.meetings| == 0 && |c.mail| == 0
    ensures |c.notifiedMeetings| == 0 && |c.notifiedMail| == 0
  {
    Cache(map[], map[], {}, {})
  }

  /** No item after position `i` shares its key. */
  ghost predicate LastWithKey<T>(items: seq<T>, key: T -> string, i: int)
    requires 0 <= i < |items|
  {
    forall j :: i < j < |items| ==> key(items[j]) != key(items[i])
  }

  /** `{key(x): x for x in items}`: a later item overwrites an earlier one
      with the same key. */
  function IndexBy<T>(items: seq<T>, key: T -> string): (m: map<string, T>)
    ensures m.Keys == set x | x in items :: key(x)
    ensures KeyedBy(m, key)
    ensures forall k :: k in m ==> m[k] in items
    ensures forall i :: 0 <= i < |items| && LastWithKey(items, key, i) ==> m[key(items[i])] == items[i]
  {
    if |items| == 0 then map[]
    else
      var init := items[..|items| - 1];
      var last := items[|items| - 1];
      assert items == init + [last];
      IndexBy(init, key)[key(last) := last]
  }
}
