/** The token bucket of button presses: per actor, refused when over the limit. Credit is
    counted in time: one press costs `every`, and a full bucket is `burst` of them. */
module PressLimits {
  import opened RuleModel

  function Min(a: int, b: int): int {
    if a <= b then a else b
  }

  function Max(a: int, b: int): int {
    if a >= b then a else b
  }

  datatype Bucket = Bucket(credit: int, last: int)

  /** refill: credit grows with time, up to a full bucket; a clock that went back adds none. */
  function Refilled(b: Bucket, full: int, now: int): Bucket {
    if now > b.last then Bucket(Min(full, b.credit + (now - b.last)), now) else b
  }

  /** A user id. */
  datatype Actor = Actor(id: int)

  datatype Presses = Presses(full: int, every: int, actors: map<Actor, Bucket>)

  /** The buckets that have not refilled, refilled to now. */
  function Waiting(p: Presses, now: int): map<Actor, Bucket> {
    map a | a in p.actors && Refilled(p.actors[a], p.full, now).credit < p.full :: Refilled(p.actors[a], p.full, now)
  }

  function BucketOf(actors: map<Actor, Bucket>, actor: Actor, full: int, now: int): Bucket {
    if actor in actors then actors[actor] else Bucket(full, now)
  }

  /** allow: the new table, and whether the press may run. */
  function Allowed(p: Presses, actor: Actor, now: int): (Presses, bool) {
    var table := Waiting(p, now);
    var b := BucketOf(table, actor, p.full, now);
    if b.credit < p.every then (p.(actors := table[actor := b]), false)
    else (p.(actors := table[actor := b.(credit := b.credit - p.every)]), true)
  }

  class PressLimiter {
    const burst: nat
    const every: nat
    var actors: map<Actor, Bucket>

    constructor (burst: nat, every: nat)
      ensures P() == Presses(burst * every, every, map[])
    {
      this.burst, this.every := burst, every;
      actors := map[];
    }

    ghost function P(): Presses
      reads this
    {
      Presses(burst * every, every, actors)
    }

    method Allow(actor: Actor, now: int) returns (ok: bool)
      modifies this
      ensures (P(), ok) == Allowed(old(P()), actor, now)
    {
      hide Waiting;
      DropRefilled(now);
      var b := if actor in actors then actors[actor] else Bucket(burst * every, now);
      if b.credit < every {
        actors := actors[actor := b];
        return false;
      }
      actors := actors[actor := b.(credit := b.credit - every)];
      return true;
    }

    /** The loop of allow: buckets that have refilled are dropped. */
    method DropRefilled(now: int)
      modifies this
      ensures actors == Waiting(old(P()), now)
    {
      var full := burst * every;
      ghost var waiting := Waiting(P(), now);
      ghost var before := actors;
      var todo := actors.Keys;
      while todo != {}
        invariant todo <= before.Keys
        invariant forall a :: a in actors <==> a in todo || (a in before && a in waiting)
        invariant forall a :: a in todo ==> a in actors && actors[a] == before[a]
        invariant forall a :: a in actors && a !in todo ==> a in waiting && actors[a] == waiting[a]
        decreases todo
      {
        var a :| a in todo;
        todo := todo - {a};
        var b := Refilled(actors[a], full, now);
        if b.credit >= full {
          actors := actors - {a};
        } else {
          actors := actors[a := b];
        }
      }
      assert actors.Keys == waiting.Keys;
    }
  }

  datatype Press = Press(actor: Actor, at: int)

  predicate Ordered(h: seq<Press>) {
    forall i, j :: 0 <= i < j < |h| ==> h[i].at <= h[j].at
  }

  function Table(full: int, every: int, h: seq<Press>): Presses {
    if h == [] then Presses(full, every, map[])
    else Allowed(Table(full, every, h[..|h| - 1]), h[|h| - 1].actor, h[|h| - 1].at).0
  }

  /** One actor's own bucket, never dropped and never disturbed by other actors; None before
      its first press. */
  function OwnBucket(full: int, every: int, h: seq<Press>, actor: Actor): Option<Bucket> {
    if h == [] then None
    else
      var last := h[|h| - 1];
      var own := OwnBucket(full, every, h[..|h| - 1], actor);
      if last.actor != actor then own
      else
        var b := if own.Some? then Refilled(own.value, full, last.at) else Bucket(full, last.at);
        Some(if b.credit < every then b else b.(credit := b.credit - every))
  }

  /** What that bucket says to a press at now. */
  predicate OwnAllows(full: int, every: int, h: seq<Press>, actor: Actor, now: int) {
    var own := OwnBucket(full, every, h, actor);
    (if own.Some? then Refilled(own.value, full, now).credit else full) >= every
  }

  /** The table and the actor's own bucket promise the same credit from now on. */
  predicate SameCredit(p: Presses, own: Option<Bucket>, actor: Actor, now: int) {
    && (actor in p.actors ==> p.actors[actor].last <= now)
    && (own.Some? ==> own.value.last <= now)
    && (if actor in p.actors then Refilled(p.actors[actor], p.full, now).credit else p.full)
       == (if own.Some? then Refilled(own.value, p.full, now).credit else p.full)
  }

  lemma {:induction false} TableSettings(full: int, every: int, h: seq<Press>)
    ensures Table(full, every, h).full == full && Table(full, every, h).every == every
  {
    if h != [] {
      TableSettings(full, every, h[..|h| - 1]);
    }
  }

  /** No bucket is over-full, in the table or out of it. */
  lemma {:induction false} NeverOverFull(full: int, every: int, h: seq<Press>, actor: Actor)
    requires every >= 0
    ensures var p := Table(full, every, h); actor in p.actors ==> p.actors[actor].credit <= full
    ensures var own := OwnBucket(full, every, h, actor); own.Some? ==> own.value.credit <= full
  {
    TableSettings(full, every, h);
    if h != [] {
      TableSettings(full, every, h[..|h| - 1]);
      NeverOverFull(full, every, h[..|h| - 1], actor);
    }
  }

  lemma {:induction false} SameCreditLater(p: Presses, own: Option<Bucket>, actor: Actor, now: int, later: int)
    requires SameCredit(p, own, actor, now) && now <= later
    requires actor in p.actors ==> p.actors[actor].credit <= p.full
    requires own.Some? ==> own.value.credit <= p.full
    ensures SameCredit(p, own, actor, later)
  {
  }

  lemma {:induction false} PressKeepsCredit(p: Presses, own: Option<Bucket>, x: Press, actor: Actor)
    requires SameCredit(p, own, actor, x.at) && p.every >= 0
    requires actor in p.actors ==> p.actors[actor].credit <= p.full
    requires own.Some? ==> own.value.credit <= p.full
    ensures var b := if own.Some? then Refilled(own.value, p.full, x.at) else Bucket(p.full, x.at);
            var next := if x.actor != actor then own else Some(if b.credit < p.every then b else b.(credit := b.credit - p.every));
            SameCredit(Allowed(p, x.actor, x.at).0, next, actor, x.at)
    ensures x.actor == actor ==>
              (Allowed(p, x.actor, x.at).1 <==>
                 (if own.Some? then Refilled(own.value, p.full, x.at).credit else p.full) >= p.every)
  {
  }

  lemma {:induction false} TableTracksBuckets(full: int, every: int, h: seq<Press>, actor: Actor, now: int)
    requires Ordered(h) && every >= 0 && (h != [] ==> h[|h| - 1].at <= now)
    ensures SameCredit(Table(full, every, h), OwnBucket(full, every, h, actor), actor, now)
    decreases |h|
  {
    hide Allowed, SameCredit;
    TableSettings(full, every, h);
    NeverOverFull(full, every, h, actor);
    if h == [] {
      EmptySameCredit(full, every, actor, now);
    } else {
      var init, last := h[..|h| - 1], h[|h| - 1];
      TableSettings(full, every, init);
      NeverOverFull(full, every, init, actor);
      TableTracksBuckets(full, every, init, actor, last.at);
      PressKeepsCredit(Table(full, every, init), OwnBucket(full, every, init, actor), last, actor);
      SameCreditLater(Table(full, every, h), OwnBucket(full, every, h, actor), actor, last.at, now);
    }
  }

  lemma {:induction false} EmptySameCredit(full: int, every: int, actor: Actor, now: int)
    ensures SameCredit(Presses(full, every, map[]), None, actor, now)
  {
  }

  /** Dropping refilled buckets changes no answer: for times that never go back, every press
      is answered as by the actor's own bucket, kept for ever. */
  lemma {:induction false} DroppingIsInvisible(full: int, every: int, h: seq<Press>, x: Press)
    requires Ordered(h) && every >= 0 && (h != [] ==> h[|h| - 1].at <= x.at)
    ensures Allowed(Table(full, every, h), x.actor, x.at).1 == OwnAllows(full, every, h, x.actor, x.at)
  {
    hide Allowed, SameCredit;
    TableSettings(full, every, h);
    NeverOverFull(full, every, h, x.actor);
    TableTracksBuckets(full, every, h, x.actor, x.at);
    PressKeepsCredit(Table(full, every, h), OwnBucket(full, every, h, x.actor), x, x.actor);
  }

  predicate Admitted(full: int, every: int, h: seq<Press>, i: nat)
    requires i < |h|
  {
    Allowed(Table(full, every, h[..i]), h[i].actor, h[i].at).1
  }

  /** The cost of the actor's admitted presses from index a on. */
  function Spent(full: int, every: int, h: seq<Press>, actor: Actor, a: nat): int {
    if |h| <= a then 0
    else
      var n := |h| - 1;
      Spent(full, every, h[..n], actor, a) + (if h[n].actor == actor && Admitted(full, every, h, n) then every else 0)
  }

  /** What the actor's own bucket holds at now. */
  function Held(full: int, every: int, h: seq<Press>, actor: Actor, now: int): int {
    var own := OwnBucket(full, every, h, actor);
    if own.Some? then Refilled(own.value, full, now).credit else full
  }

  /** One press: what it spends, the bucket loses. */
  lemma {:induction false} PressSpendsHeld(full: int, every: int, h: seq<Press>, actor: Actor)
    requires Ordered(h) && every >= 0 && full >= 0 && h != []
    ensures var n := |h| - 1;
            && Held(full, every, h, actor, h[n].at) + (if h[n].actor == actor && Admitted(full, every, h, n) then every else 0)
               == Held(full, every, h[..n], actor, h[n].at)
            && 0 <= Held(full, every, h, actor, h[n].at) && Held(full, every, h[..n], actor, h[n].at) <= full
  {
    hide Table, Allowed;
    var n := |h| - 1;
    DroppingIsInvisible(full, every, h[..n], h[n]);
    NeverOverFull(full, every, h[..n], actor);
    OwnBucketAge(full, every, h[..n], actor, h[n].at);
    OwnCredit(full, every, h[..n], actor);
  }

  /** Waiting earns at most the time waited. */
  lemma {:induction false} HeldGrows(full: int, every: int, h: seq<Press>, actor: Actor, now: int, later: int)
    requires now <= later
    ensures Held(full, every, h, actor, later) <= Held(full, every, h, actor, now) + (later - now)
  {
    hide OwnBucket;
  }

  lemma {:induction false} SpentIsEarned(full: int, every: int, h: seq<Press>, actor: Actor, a: nat)
    requires Ordered(h) && every >= 0 && full >= 0 && a < |h|
    ensures Spent(full, every, h, actor, a) + Held(full, every, h, actor, h[|h| - 1].at) <= full + (h[|h| - 1].at - h[a].at)
    decreases |h|
  {
    hide Held, Admitted;
    var n := |h| - 1;
    PressSpendsHeld(full, every, h, actor);
    if a < n {
      SpentIsEarned(full, every, h[..n], actor, a);
      HeldGrows(full, every, h[..n], actor, h[n - 1].at, h[n].at);
    }
  }

  lemma {:induction false} OwnBucketAge(full: int, every: int, h: seq<Press>, actor: Actor, now: int)
    requires Ordered(h) && (h != [] ==> h[|h| - 1].at <= now)
    ensures var own := OwnBucket(full, every, h, actor); own.Some? ==> own.value.last <= now
    decreases |h|
  {
    if h != [] {
      OwnBucketAge(full, every, h[..|h| - 1], actor, h[|h| - 1].at);
    }
  }

  lemma {:induction false} OwnCredit(full: int, every: int, h: seq<Press>, actor: Actor)
    requires full >= 0 && every >= 0
    ensures var own := OwnBucket(full, every, h, actor); own.Some? ==> own.value.credit >= 0
  {
    if h != [] {
      OwnCredit(full, every, h[..|h| - 1], actor);
    }
  }

  /** In the time from one press to another, an actor's admitted presses cost at most a full
      bucket and the time between: burst + (t - s) / every of them. */
  lemma {:induction false} PressesAreBounded(full: int, every: int, h: seq<Press>, actor: Actor, a: nat)
    requires Ordered(h) && every >= 0 && full >= 0 && a < |h|
    ensures Spent(full, every, h, actor, a) <= full + (h[|h| - 1].at - h[a].at)
  {
    SpentIsEarned(full, every, h, actor, a);
    PressSpendsHeld(full, every, h, actor);
  }

  // ---- Refused only when the limit is reached ----

  lemma {:induction false} HeldLater(full: int, every: int, h: seq<Press>, actor: Actor, now: int, later: int)
    requires Ordered(h) && every >= 0 && now <= later && (h != [] ==> h[|h| - 1].at <= now)
    ensures Held(full, every, h, actor, later) == Min(full, Held(full, every, h, actor, now) + (later - now))
  {
    hide OwnBucket;
    NeverOverFull(full, every, h, actor);
    OwnBucketAge(full, every, h, actor, now);
  }

  lemma {:induction false} SpentNothing(full: int, every: int, h: seq<Press>, actor: Actor, a: nat)
    requires a >= |h|
    ensures Spent(full, every, h, actor, a) == 0
  {
  }

  /** A bucket that is not full is short by what the actor spent since some press and time has not
      earned back. */
  lemma {:induction false} ShortBySpending(full: int, every: int, h: seq<Press>, actor: Actor, now: int) returns (a: nat)
    requires Ordered(h) && every >= 0 && full >= 0 && (h != [] ==> h[|h| - 1].at <= now)
    ensures Held(full, every, h, actor, now) == full
            || (a < |h| && Held(full, every, h, actor, now) == full + (now - h[a].at) - Spent(full, every, h, actor, a))
    decreases |h|
  {
    hide Held, Admitted, Ordered;
    a := 0;
    if h == [] {
      FirstHolds(full, every, actor, now);
    } else {
      var n := |h| - 1;
      var init := h[..n];
      ShorterOrder(h);
      PressSpendsHeld(full, every, h, actor);
      HeldLater(full, every, h, actor, h[n].at, now);
      a := ShortBySpending(full, every, init, actor, h[n].at);
      if Held(full, every, init, actor, h[n].at) == full {
        a := n;
        SpentNothing(full, every, init, actor, n);
      }
    }
  }

  lemma {:induction false} ShorterOrder(h: seq<Press>)
    requires Ordered(h) && h != []
    ensures var n := |h| - 1; Ordered(h[..n]) && (n > 0 ==> h[..n][n-1].at <= h[n].at)
  {
  }

  lemma {:induction false} FirstHolds(full: int, every: int, actor: Actor, now: int)
    ensures Held(full, every, [], actor, now) == full
  {
  }

  /** A press is admitted if and only if with it the actor's admitted presses since any press would cost
      no more than a full bucket and the time since. */
  lemma {:induction false} PressIsAdmittedExactly(full: int, every: int, h: seq<Press>, x: Press)
    requires Ordered(h) && every >= 0 && full >= every && (h != [] ==> h[|h| - 1].at <= x.at)
    ensures Allowed(Table(full, every, h), x.actor, x.at).1 <==>
            forall a :: 0 <= a < |h| ==> Spent(full, every, h, x.actor, a) + every <= full + (x.at - h[a].at)
  {
    hide Allowed, Table, OwnBucket, Ordered;
    DroppingIsInvisible(full, every, h, x);
    var held := Held(full, every, h, x.actor, x.at);
    assert Allowed(Table(full, every, h), x.actor, x.at).1 <==> held >= every;
    hide Held, Spent;
    forall a | 0 <= a < |h|
      ensures held <= full + (x.at - h[a].at) - Spent(full, every, h, x.actor, a)
    {
      SpentIsEarned(full, every, h, x.actor, a);
      HeldGrows(full, every, h, x.actor, h[|h| - 1].at, x.at);
    }
    var a := ShortBySpending(full, every, h, x.actor, x.at);
  }
}
