/** The two delivery policies. The messenger is abstract: `answer(k)` is how
    it answers the k-th attempt (counting from 0) for one chat. Pauses are
    data, in seconds, rather than waits. */
module Delivery {

  /** One attempt's result: delivered, a transport error worth retrying
      (a timeout or network error), or any other error. */
  datatype Outcome = Delivered | Transient | OtherError

  /** What happened for one chat: attempts made, pauses taken between them,
      and whether a message got through. */
  datatype ChatReport = ChatReport(attempts: nat, sleeps: seq<int>, delivered: bool)

  const SendRetries: nat := 3
  const RetryBaseDelay: int := 1
  const AgendaMaxAttempts: nat := 10
  const AgendaSendInterval: int := 60

  function Pow2(n: nat): nat {
    if n == 0 then 1 else 2 * Pow2(n - 1)
  }

  /** Best-effort delivery from attempt `attempt` on, `delay` being the pause
      before the next retry. */
  function BestEffortFrom(answer: nat -> Outcome, attempt: nat, delay: int): (r: ChatReport)
    requires attempt < SendRetries
    ensures attempt < r.attempts <= SendRetries
    ensures forall k :: attempt <= k < r.attempts - 1 ==> answer(k) == Transient
    ensures r.attempts < SendRetries ==> answer(r.attempts - 1) != Transient
    ensures r.delivered <==> answer(r.attempts - 1) == Delivered
    ensures |r.sleeps| == r.attempts - 1 - attempt
    ensures forall i :: 0 <= i < |r.sleeps| ==> r.sleeps[i] == delay * Pow2(i)
    decreases SendRetries - attempt
  {
    match answer(attempt)
    case Delivered => ChatReport(attempt + 1, [], true)
    case OtherError => ChatReport(attempt + 1, [], false)
    case Transient =>
      if attempt < SendRetries - 1 then
        var rest := BestEffortFrom(answer, attempt + 1, delay * 2);
        assert forall i :: 0 < i <= |rest.sleeps| ==> delay * Pow2(i) == delay * 2 * Pow2(i - 1);
        rest.(sleeps := [delay] + rest.sleeps)
      else ChatReport(attempt + 1, [], false)
  }

  /** Best-effort delivery to one chat: at most three attempts, retrying only
      transport errors, pausing 1 s and then 2 s. */
  function BestEffortChat(answer: nat -> Outcome): (r: ChatReport)
    ensures 1 <= r.attempts <= 3
    ensures forall k :: 0 <= k < r.attempts - 1 ==> answer(k) == Transient
    ensures r.attempts < 3 ==> answer(r.attempts - 1) != Transient
    ensures r.delivered <==> answer(r.attempts - 1) == Delivered
    ensures r.sleeps == [1, 2][..r.attempts - 1]
  {
    var r := BestEffortFrom(answer, 0, RetryBaseDelay);
    assert |r.sleeps| > 0 ==> r.sleeps[0] == 1;
    assert |r.sleeps| > 1 ==> r.sleeps[1] == 2;
    r
  }

  /** Guaranteed delivery from attempt `attempt` on: any error is retried
      after the fixed interval until the attempt cap. */
  function UntilSuccessFrom(answer: nat -> Outcome, attempt: nat): (r: ChatReport)
    requires attempt < AgendaMaxAttempts
    ensures attempt < r.attempts <= AgendaMaxAttempts
    ensures forall k :: attempt <= k < r.attempts - 1 ==> answer(k) != Delivered
    ensures r.delivered <==> answer(r.attempts - 1) == Delivered
    ensures r.attempts < AgendaMaxAttempts ==> r.delivered
    ensures |r.sleeps| == r.attempts - 1 - attempt
    ensures forall i :: 0 <= i < |r.sleeps| ==> r.sleeps[i] == AgendaSendInterval
    decreases AgendaMaxAttempts - attempt
  {
    if answer(attempt) == Delivered then ChatReport(attempt + 1, [], true)
    else if attempt + 1 < AgendaMaxAttempts then
      var rest := UntilSuccessFrom(answer, attempt + 1);
      rest.(sleeps := [AgendaSendInterval] + rest.sleeps)
    else ChatReport(attempt + 1, [], false)
  }

  /** Guaranteed delivery to one chat: up to ten attempts, 60 s apart,
      stopping at the first success. */
  function UntilSuccessChat(answer: nat -> Outcome): (r: ChatReport)
    ensures 1 <= r.attempts <= 10
    ensures forall k :: 0 <= k < r.attempts - 1 ==> answer(k) != Delivered
    ensures r.delivered <==> answer(r.attempts - 1) == Delivered
    ensures !r.delivered ==> r.attempts == 10
    ensures |r.sleeps| == r.attempts - 1 && forall i :: 0 <= i < |r.sleeps| ==> r.sleeps[i] == 60
  {
    UntilSuccessFrom(answer, 0)
  }

  /** `send_to_chats`: the chats in order, each one handled on its own, so one
      chat's failures never keep the next from being tried. `answer(i, k)` is
      the messenger's answer to attempt k for the i-th chat. */
  function SendToChats(chats: seq<int>, answer: (nat, nat) -> Outcome): (r: seq<ChatReport>)
    ensures |r| == |chats|
    ensures forall i :: 0 <= i < |r| ==> r[i] == BestEffortChat((k: nat) => answer(i, k))
    ensures forall i :: 0 <= i < |r| ==> 1 <= r[i].attempts <= 3 && |r[i].sleeps| < 3
  {
    seq(|chats|, (i: nat) requires i < |chats| => BestEffortChat((k: nat) => answer(i, k)))
  }

  /** `send_to_chats_until_success`: the same walk over the chats with the
      guaranteed policy. */
  function SendToChatsUntilSuccess(chats: seq<int>, answer: (nat, nat) -> Outcome): (r: seq<ChatReport>)
    ensures |r| == |chats|
    ensures forall i :: 0 <= i < |r| ==> r[i] == UntilSuccessChat((k: nat) => answer(i, k))
    ensures forall i :: 0 <= i < |r| ==> 1 <= r[i].attempts <= 10 && |r[i].sleeps| < 10
  {
    seq(|chats|, (i: nat) requires i < |chats| => UntilSuccessChat((k: nat) => answer(i, k)))
  }

  /** Chats do not influence each other: a chat's report depends only on the
      messenger's answers for that chat, wherever it sits in the list. */
  lemma ChatsAreIndependent(chats: seq<int>, answer: (nat, nat) -> Outcome,
                            other: (nat, nat) -> Outcome, i: nat)
    requires i < |chats|
    requires forall k: nat :: answer(i, k) == other(i, k)
    ensures SendToChats(chats, answer)[i] == SendToChats(chats, other)[i]
    ensures SendToChatsUntilSuccess(chats, answer)[i] == SendToChatsUntilSuccess(chats, other)[i]
  {
    BestEffortAgrees((k: nat) => answer(i, k), (k: nat) => other(i, k), 0, RetryBaseDelay);
    UntilSuccessAgrees((k: nat) => answer(i, k), (k: nat) => other(i, k), 0);
  }

  /** Two messengers that answer alike get the same best-effort report. */
  lemma {:induction false} BestEffortAgrees(f: nat -> Outcome, g: nat -> Outcome, attempt: nat, delay: int)
    requires attempt < SendRetries
    requires forall k: nat :: f(k) == g(k)
    ensures BestEffortFrom(f, attempt, delay) == BestEffortFrom(g, attempt, delay)
    decreases SendRetries - attempt
  {
    if f(attempt) == Transient && attempt < SendRetries - 1 {
      BestEffortAgrees(f, g, attempt + 1, delay * 2);
    }
  }

  /** Two messengers that answer alike get the same until-success report. */
  lemma {:induction false} UntilSuccessAgrees(f: nat -> Outcome, g: nat -> Outcome, attempt: nat)
    requires attempt < AgendaMaxAttempts
    requires forall k: nat :: f(k) == g(k)
    ensures UntilSuccessFrom(f, attempt) == UntilSuccessFrom(g, attempt)
    decreases AgendaMaxAttempts - attempt
  {
    if f(attempt) != Delivered && attempt + 1 < AgendaMaxAttempts {
      UntilSuccessAgrees(f, g, attempt + 1);
    }
  }

  /** A chat whose transport fails twice and then works gets exactly one
      message, after pauses of 1 s and 2 s, and no further attempt. */
  lemma TwoTimeoutsThenDelivered(answer: nat -> Outcome)
    requires answer(0) == Transient && answer(1) == Transient && answer(2) == Delivered
    ensures BestEffortChat(answer) == ChatReport(3, [1, 2], true)
  {
  }

  /** A chat whose transport always fails is tried exactly three times. */
  lemma AlwaysTransientGivesUp(answer: nat -> Outcome)
    requires forall k :: answer(k) == Transient
    ensures BestEffortChat(answer) == ChatReport(3, [1, 2], false)
  {
  }

  /** Any other error ends the attempts for that chat at once. */
  lemma OtherErrorIsNotRetried(answer: nat -> Outcome)
    requires answer(0) == OtherError
    ensures BestEffortChat(answer) == ChatReport(1, [], false)
  {
  }
}
