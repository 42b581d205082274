/** The token bucket of sends: per chat, delayed when over the limit. Credit is counted in
    time, as for presses; a bucket in debt is a reservation of the time to come. */
module SendLimits {
  import opened RuleModel
  import opened PressLimits

  /** wait's reservation: the new bucket, and how long to sleep. Credit below zero is queued
      sends. */
  function Reserved(b: Option<Bucket>, full: int, every: int, now: int): (Bucket, int) {
    var r := Refilled(if b.Some? then b.value else Bucket(full, now), full, now);
    var left := r.(credit := r.credit - every);
    (left, if left.credit < 0 then -left.credit else 0)
  }

  class ChatLimiter {
    const burst: nat
    const every: nat
    var chats: map<int, Bucket>

    constructor (burst: nat, every: nat)
      ensures this.burst == burst && this.every == every && chats == map[]
    {
      this.burst, this.every := burst, every;
      chats := map[];
    }

    ghost function Get(chat: int): Option<Bucket>
      reads this
    {
      if chat in chats then Some(chats[chat]) else None
    }

    /** wait, up to the sleep: reserving under the lock keeps callers in order. */
    method Reserve(chat: int, now: int) returns (delay: int)
      modifies this`chats
      ensures (Get(chat), delay) == (Some(Reserved(old(Get(chat)), burst * every, every, now).0),
                                     Reserved(old(Get(chat)), burst * every, every, now).1)
      ensures forall c :: c != chat ==> Get(c) == old(Get(c))
    {
      var full := burst * every;
      var b := if chat in chats then chats[chat] else Bucket(full, now);
      b := Refilled(b, full, now);
      b := b.(credit := b.credit - every);
      chats := chats[chat := b];
      delay := 0;
      if b.credit < 0 {
        delay := -b.credit;
      }
    }

    /** A cancelled sleep gives its reservation back. */
    method GiveBack(chat: int)
      requires chat in chats
      modifies this`chats
      ensures Get(chat) == Some(old(chats[chat]).(credit := old(chats[chat]).credit + every))
      ensures forall c :: c != chat ==> Get(c) == old(Get(c))
    {
      chats := chats[chat := chats[chat].(credit := chats[chat].credit + every)];
    }
  }

  /** A send that was not cancelled. */
  datatype Send = Send(chat: int, at: int)

  predicate InOrder(h: seq<Send>) {
    forall i, j :: 0 <= i < j < |h| ==> h[i].at <= h[j].at
  }

  /** A chat's bucket after a history of sends. */
  function ChatBucket(full: int, every: int, h: seq<Send>, chat: int): Option<Bucket> {
    if h == [] then None
    else
      var before := ChatBucket(full, every, h[..|h| - 1], chat);
      if h[|h| - 1].chat == chat then Some(Reserved(before, full, every, h[|h| - 1].at).0) else before
  }

  /** When the i-th send is due. */
  function Due(full: int, every: int, h: seq<Send>, i: nat): int
    requires i < |h|
  {
    h[i].at + Reserved(ChatBucket(full, every, h[..i], h[i].chat), full, every, h[i].at).1
  }

  /** What the chat's sends after index a cost. */
  function SendsCost(every: int, h: seq<Send>, chat: int, a: nat): int {
    if |h| <= a + 1 then 0
    else SendsCost(every, h[..|h| - 1], chat, a) + (if h[|h| - 1].chat == chat then every else 0)
  }

  /** The time a bucket's queue reaches to: it never goes back, and each send moves it on. */
  function Horizon(b: Bucket): int {
    b.last - b.credit
  }

  lemma {:induction false} ChatBucketAge(full: int, every: int, h: seq<Send>, chat: int, now: int)
    requires InOrder(h) && (h != [] ==> h[|h| - 1].at <= now)
    ensures var b := ChatBucket(full, every, h, chat); b.Some? ==> b.value.last <= now
    decreases |h|
  {
    if h != [] {
      ChatBucketAge(full, every, h[..|h| - 1], chat, h[|h| - 1].at);
    }
  }

  lemma {:induction false} ReservedMovesHorizon(b: Option<Bucket>, full: int, every: int, now: int)
    requires every >= 0 && (b.Some? ==> b.value.last <= now)
    ensures var (r, delay) := Reserved(b, full, every, now);
            && r.last == now
            && now + delay == Max(now, Horizon(r))
            && (b.Some? ==> Horizon(r) >= Horizon(b.value) + every)
            && (b.None? || b.value.credit <= full - every || now > b.value.last ==> r.credit <= full - every)
  {
  }

  lemma {:induction false} ChatCreditBound(full: int, every: int, h: seq<Send>, chat: int)
    requires every >= 0
    ensures var b := ChatBucket(full, every, h, chat); b.Some? ==> b.value.credit <= full - every
  {
    if h != [] {
      ChatCreditBound(full, every, h[..|h| - 1], chat);
    }
  }

  lemma {:induction false} HorizonGrows(full: int, every: int, h: seq<Send>, a: nat)
    requires InOrder(h) && every >= 0 && a < |h|
    ensures var chat := h[a].chat;
            && ChatBucket(full, every, h[..a + 1], chat).Some? && ChatBucket(full, every, h, chat).Some?
            && Horizon(ChatBucket(full, every, h, chat).value) >=
               Horizon(ChatBucket(full, every, h[..a + 1], chat).value) + SendsCost(every, h, chat, a)
    decreases |h|
  {
    var n := |h| - 1;
    if a == n {
      assert h[..a + 1] == h;
      assert h[..a + 1][..a] == h[..a];
    } else {
      var init := h[..n];
      assert init[..a + 1] == h[..a + 1] && init[a] == h[a];
      HorizonGrows(full, every, init, a);
      ChatBucketAge(full, every, init, h[a].chat, h[n].at);
      ReservedMovesHorizon(ChatBucket(full, every, init, h[a].chat), full, every, h[n].at);
    }
  }

  lemma {:induction false} DueIsHorizon(full: int, every: int, h: seq<Send>, i: nat)
    requires InOrder(h) && every >= 0 && i < |h|
    ensures var b := ChatBucket(full, every, h[..i + 1], h[i].chat);
            && b.Some? && b.value.last == h[i].at && b.value.credit <= full - every
            && Due(full, every, h, i) == Max(h[i].at, Horizon(b.value))
  {
    var p := h[..i + 1];
    assert p[..i] == h[..i] && p[i] == h[i];
    ChatBucketAge(full, every, h[..i], h[i].chat, h[i].at);
    ChatCreditBound(full, every, h[..i], h[i].chat);
    ReservedMovesHorizon(ChatBucket(full, every, h[..i], h[i].chat), full, every, h[i].at);
  }

  /** A chat's due times never go back, and in the time from one due send to another the
      sends from the one to the other cost at most a full bucket and the time between:
      burst + L / every of them in a window of length L. */
  lemma {:induction false} SendsAreSpaced(full: int, every: int, h: seq<Send>, i: nat, j: nat)
    requires InOrder(h) && every >= 0 && i < j < |h| && h[i].chat == h[j].chat
    ensures Due(full, every, h, i) <= Due(full, every, h, j)
    ensures every + SendsCost(every, h[..j + 1], h[i].chat, i) <=
            Max(full, every) + (Due(full, every, h, j) - Due(full, every, h, i))
  {
    DueIsHorizon(full, every, h, i);
    DueIsHorizon(full, every, h, j);
    var p := h[..j + 1];
    assert p[..i + 1] == h[..i + 1] && p[i] == h[i];
    HorizonGrows(full, every, p, i);
    CostIsNotNegative(every, p, h[i].chat, i);
  }

  lemma {:induction false} CostIsNotNegative(every: int, h: seq<Send>, chat: int, a: nat)
    requires every >= 0
    ensures SendsCost(every, h, chat, a) >= 0
    decreases |h|
  {
    if |h| > a + 1 {
      CostIsNotNegative(every, h[..|h| - 1], chat, a);
    }
  }

  // ---- Delayed no more than needed ----

  lemma {:induction false} NoSendYet(full: int, every: int, h: seq<Send>, chat: int)
    requires ChatBucket(full, every, h, chat).None?
    ensures forall a :: 0 <= a < |h| ==> h[a].chat != chat
    decreases |h|
  {
    if h != [] {
      NoSendYet(full, every, h[..|h| - 1], chat);
      assert forall a :: 0 <= a < |h| - 1 ==> h[..|h| - 1][a] == h[a];
    }
  }

  /** A bucket's credit is what is left, since the send that leaves least, of a full bucket and the time. */
  lemma {:induction false} CreditIsLeft(full: int, every: int, h: seq<Send>, chat: int) returns (k: nat)
    requires InOrder(h) && every >= 0
    ensures var b := ChatBucket(full, every, h, chat);
            b.Some? ==>
              && (forall a :: 0 <= a < |h| && h[a].chat == chat ==>
                    b.value.credit <= full + (b.value.last - h[a].at) - every - SendsCost(every, h, chat, a))
              && k < |h| && h[k].chat == chat
              && b.value.credit == full + (b.value.last - h[k].at) - every - SendsCost(every, h, chat, k)
    decreases |h|
  {
    k := 0;
    if h != [] {
      var n := |h| - 1;
      var init := h[..n];
      ChatBucketAge(full, every, init, chat, h[n].at);
      ChatCreditBound(full, every, init, chat);
      k := CreditIsLeft(full, every, init, chat);
      forall a | 0 <= a < n
        ensures SendsCost(every, h, chat, a) == SendsCost(every, init, chat, a) + (if h[n].chat == chat then every else 0)
      {
      }
      assert forall a :: 0 <= a < n ==> init[a] == h[a];
      var before := ChatBucket(full, every, init, chat);
      if before.None? {
        NoSendYet(full, every, init, chat);
      }
      if h[n].chat == chat && (before.None? || before.value.credit + (h[n].at - before.value.last) >= full) {
        k := n;
      }
    }
  }

  /** A send is due when it is made, or as soon as the chat's sends from some one on to it cost no more than
      a full bucket and the time since that one. */
  lemma {:induction false} DueExactly(full: int, every: int, h: seq<Send>, i: nat)
    requires InOrder(h) && every >= 0 && i < |h|
    ensures var chat, p := h[i].chat, h[..i + 1];
            && Due(full, every, h, i) >= h[i].at
            && (forall a :: 0 <= a <= i && h[a].chat == chat ==>
                  Due(full, every, h, i) >= h[a].at + every + SendsCost(every, p, chat, a) - full)
            && (Due(full, every, h, i) == h[i].at
                || exists a :: 0 <= a <= i && h[a].chat == chat
                     && Due(full, every, h, i) == h[a].at + every + SendsCost(every, p, chat, a) - full)
  {
    hide Due, ChatBucket;
    var chat, p := h[i].chat, h[..i + 1];
    assert InOrder(p) && p[i] == h[i];
    DueIsHorizon(full, every, h, i);
    var k := CreditIsLeft(full, every, p, chat);
    assert forall a :: 0 <= a <= i ==> p[a] == h[a];
  }
}
