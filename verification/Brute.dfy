/** The brute-force detector: a sliding window per address that forgets quiet addresses, and
    a detector that never forgets anything, which it cannot be told from. */
module Brute {
  import opened RuleModel

  // ---- The detector ----

  /** lastSweep is None before the first Record, standing for the zero time. */
  datatype Detector = Detector(window: nat, threshold: int,
                               attempts: map<string, seq<int>>, fired: map<string, int>, lastSweep: Option<int>)

  function Recent(times: seq<int>, cutoff: int): seq<int> {
    if times == [] then []
    else (if times[0] > cutoff then [times[0]] else []) + Recent(times[1..], cutoff)
  }

  function AttemptsOf(d: Detector, ip: string): seq<int> {
    if ip in d.attempts then d.attempts[ip] else []
  }

  /** Some attempt is newer than the cutoff; for a non-empty list, the newest one is. */
  predicate AnyAfter(times: seq<int>, cutoff: int) {
    exists i :: 0 <= i < |times| && times[i] > cutoff
  }

  function Pruned(d: Detector, now: int): Detector {
    var stale := set ip | ip in d.attempts && !AnyAfter(d.attempts[ip], now - d.window);
    d.(attempts := d.attempts - stale, fired := d.fired - stale)
  }

  predicate SweepDue(d: Detector, at: int) {
    d.lastSweep.None? || at - d.lastSweep.value >= d.window
  }

  function Swept(d: Detector, at: int): Detector {
    if SweepDue(d, at) then Pruned(d, at).(lastSweep := Some(at)) else d
  }

  /** Record: the new state, and whether to alert. */
  function Recorded(d: Detector, ip: string, at: int): (Detector, bool) {
    var s := Swept(d, at);
    var kept := Recent(AttemptsOf(s, ip), at - d.window) + [at];
    var t := s.(attempts := s.attempts[ip := kept]);
    if |kept| < d.threshold then (t, false)
    else (t.(fired := t.fired[ip := at]), !(ip in t.fired && at - t.fired[ip] < d.window))
  }

  function CountIn(d: Detector, ip: string, now: int): nat {
    |Recent(AttemptsOf(d, ip), now - d.window)|
  }

  class BruteDetector {
    const window: nat
    const threshold: int
    var attempts: map<string, seq<int>>
    var fired: map<string, int>
    var lastSweep: Option<int>

    constructor (window: nat, threshold: int)
      ensures D() == Detector(window, threshold, map[], map[], None)
    {
      this.window, this.threshold := window, threshold;
      attempts, fired, lastSweep := map[], map[], None;
    }

    ghost function D(): Detector
      reads this
    {
      Detector(window, threshold, attempts, fired, lastSweep)
    }

    method Record(ip: string, at: int) returns (alert: bool)
      modifies this
      ensures (D(), alert) == Recorded(old(D()), ip, at)
    {
      hide Recent, Pruned;
      if lastSweep.None? || at - lastSweep.value >= window {
        Prune(at);
        lastSweep := Some(at);
      }
      var cutoff := at - window;
      var kept := KeepRecent(if ip in attempts then attempts[ip] else [], cutoff);
      kept := kept + [at];
      attempts := attempts[ip := kept];
      if |kept| < threshold {
        return false;
      }
      if ip in fired && at - fired[ip] < window {
        fired := fired[ip := at];
        return false;
      }
      fired := fired[ip := at];
      return true;
    }

    /** The compaction of one address's attempts. */
    static method KeepRecent(times: seq<int>, cutoff: int) returns (kept: seq<int>)
      ensures kept == Recent(times, cutoff)
    {
      kept := [];
      assert times[0..] == times;
      for i := 0 to |times|
        invariant kept + Recent(times[i..], cutoff) == Recent(times, cutoff)
      {
        assert times[i..][0] == times[i] && times[i..][1..] == times[i+1..];
        if times[i] > cutoff {
          kept := kept + [times[i]];
        }
      }
      assert times[|times|..] == [];
    }

    method Count(ip: string, now: int) returns (n: nat)
      ensures n == CountIn(D(), ip, now)
    {
      var cutoff := now - window;
      var times := if ip in attempts then attempts[ip] else [];
      n := 0;
      assert times[0..] == times;
      for i := 0 to |times|
        invariant n + |Recent(times[i..], cutoff)| == |Recent(times, cutoff)|
      {
        assert times[i..][0] == times[i] && times[i..][1..] == times[i+1..];
        if times[i] > cutoff {
          n := n + 1;
        }
      }
    }

    /** prune: forgets every address whose newest attempt has left the window. */
    method Prune(now: int)
      modifies this`attempts, this`fired
      ensures D() == Pruned(old(D()), now)
    {
      var cutoff := now - window;
      ghost var before := D();
      ghost var gone: set<string> := {};
      var todo := attempts.Keys;
      while todo != {}
        invariant todo <= before.attempts.Keys && todo !! gone
        invariant forall ip :: ip in gone <==> ip in before.attempts.Keys - todo && !AnyAfter(before.attempts[ip], cutoff)
        invariant attempts == before.attempts - gone && fired == before.fired - gone
        decreases todo
      {
        var ip :| ip in todo;
        todo := todo - {ip};
        var stale := true;
        if |attempts[ip]| > 0 {
          var newest := NewestAttempt(attempts[ip]);
          stale := newest <= cutoff;
        }
        if stale {
          attempts := attempts - {ip};
          fired := fired - {ip};
          gone := gone + {ip};
        }
      }
      assert gone == set ip | ip in before.attempts && !AnyAfter(before.attempts[ip], cutoff);
    }

    /** newestAttempt: the list need not be in order. */
    static method NewestAttempt(times: seq<int>) returns (newest: int)
      requires times != []
      ensures newest in times && forall i :: 0 <= i < |times| ==> times[i] <= newest
    {
      newest := times[0];
      for i := 1 to |times|
        invariant newest in times && forall k :: 0 <= k < i ==> times[k] <= newest
      {
        if times[i] > newest {
          newest := times[i];
        }
      }
    }
  }

  // ---- A detector that never forgets ----

  datatype Attempt = Attempt(ip: string, at: int)

  /** The times of ip's attempts, oldest first. */
  function TimesOf(h: seq<Attempt>, ip: string): seq<int> {
    if h == [] then []
    else TimesOf(h[..|h| - 1], ip) + (if h[|h| - 1].ip == ip then [h[|h| - 1].at] else [])
  }

  /** The attempts of ip in the window that ends at now. */
  function InWindow(h: seq<Attempt>, ip: string, window: nat, now: int): nat {
    |Recent(TimesOf(h, ip), now - window)|
  }

  /** Whether one more attempt of ip at `at` fills the window. */
  predicate Fills(h: seq<Attempt>, ip: string, at: int, window: nat, threshold: int) {
    InWindow(h, ip, window, at) + 1 >= threshold
  }

  /** When ip last filled the window. */
  function LastOver(h: seq<Attempt>, ip: string, window: nat, threshold: int): Option<int> {
    if h == [] then None
    else
      var init, last := h[..|h| - 1], h[|h| - 1];
      if last.ip == ip && Fills(init, ip, last.at, window, threshold) then Some(last.at)
      else LastOver(init, ip, window, threshold)
  }

  /** Alert when the window holds threshold attempts and the previous time it did is at least
      a window old. */
  predicate ShouldAlert(h: seq<Attempt>, ip: string, at: int, window: nat, threshold: int) {
    && Fills(h, ip, at, window, threshold)
    && match LastOver(h, ip, window, threshold)
       case None => true
       case Some(t) => at - t >= window
  }

  predicate Ordered(h: seq<Attempt>) {
    forall i, j :: 0 <= i < j < |h| ==> h[i].at <= h[j].at
  }

  /** The detector after a history. */
  function After(window: nat, threshold: int, h: seq<Attempt>): Detector {
    if h == [] then Detector(window, threshold, map[], map[], None)
    else Recorded(After(window, threshold, h[..|h| - 1]), h[|h| - 1].ip, h[|h| - 1].at).0
  }

  // ---- Filters ----

  lemma {:induction false} RecentConcat(a: seq<int>, b: seq<int>, cutoff: int)
    ensures Recent(a + b, cutoff) == Recent(a, cutoff) + Recent(b, cutoff)
  {
    if a == [] {
      assert a + b == b;
    } else {
      assert (a + b)[0] == a[0] && (a + b)[1..] == a[1..] + b;
      RecentConcat(a[1..], b, cutoff);
    }
  }

  lemma {:induction false} RecentOfRecent(times: seq<int>, c: int, d: int)
    requires c <= d
    ensures Recent(Recent(times, c), d) == Recent(times, d)
  {
    if times != [] {
      RecentOfRecent(times[1..], c, d);
      RecentConcat(if times[0] > c then [times[0]] else [], Recent(times[1..], c), d);
    }
  }

  lemma {:induction false} RecentIs(times: seq<int>, c: int)
    ensures forall t :: t in Recent(times, c) <==> t in times && t > c
  {
    if times != [] {
      RecentIs(times[1..], c);
    }
  }

  lemma {:induction false} RecentEmpty(times: seq<int>, c: int)
    ensures Recent(times, c) == [] <==> !AnyAfter(times, c)
  {
    RecentIs(times, c);
    if i :| 0 <= i < |times| && times[i] > c {
      assert times[i] in Recent(times, c);
    }
    if Recent(times, c) != [] {
      var t := Recent(times, c)[0];
      assert t in Recent(times, c);
      var i :| 0 <= i < |times| && times[i] == t;
    }
  }

  // ---- The detector tracks the whole history ----

  /** For decisions at `now` or later, the detector knows all that matters about ip. */
  predicate Knows(d: Detector, h: seq<Attempt>, ip: string, now: int) {
    && Recent(AttemptsOf(d, ip), now - d.window) == Recent(TimesOf(h, ip), now - d.window)
    && match LastOver(h, ip, d.window, d.threshold)
       case None => ip !in d.fired
       case Some(t) => if ip in d.fired then d.fired[ip] == t else t <= now - d.window
  }

  /** Memory: every remembered address has an attempt newer than two windows ago. */
  predicate Bounded(d: Detector, now: int) {
    && d.fired.Keys <= d.attempts.Keys
    && d.lastSweep.Some? && now - d.lastSweep.value <= d.window && d.lastSweep.value <= now
    && (d.window > 0 ==> now - d.lastSweep.value < d.window)
    && forall ip :: ip in d.attempts ==> AnyAfter(d.attempts[ip], d.lastSweep.value - d.window) || d.window == 0
  }

  lemma {:induction false} LastOverIsAttempt(h: seq<Attempt>, ip: string, window: nat, threshold: int)
    ensures var t := LastOver(h, ip, window, threshold); t.Some? ==> t.value in TimesOf(h, ip)
  {
    if h != [] {
      LastOverIsAttempt(h[..|h| - 1], ip, window, threshold);
    }
  }

  /** Knowledge does not age. */
  lemma {:induction false} KnowsLater(d: Detector, h: seq<Attempt>, ip: string, now: int, later: int)
    requires Knows(d, h, ip, now) && now <= later
    ensures Knows(d, h, ip, later)
  {
    RecentOfRecent(AttemptsOf(d, ip), now - d.window, later - d.window);
    RecentOfRecent(TimesOf(h, ip), now - d.window, later - d.window);
  }

  /** Forgetting what left the window loses nothing. */
  lemma {:induction false} PruneKnows(d: Detector, h: seq<Attempt>, ip: string, now: int)
    requires Knows(d, h, ip, now)
    ensures Knows(Pruned(d, now), h, ip, now)
  {
    hide Recent, TimesOf, LastOver, AnyAfter;
    var cutoff := now - d.window;
    NothingRecent(cutoff);
    if ip in d.attempts && !AnyAfter(d.attempts[ip], cutoff) {
      RecentEmpty(d.attempts[ip], cutoff);
      LastOverIsAttempt(h, ip, d.window, d.threshold);
      RecentIs(TimesOf(h, ip), cutoff);
    }
  }

  lemma {:induction false} NothingRecent(c: int)
    ensures Recent([], c) == []
  {
  }

  lemma {:induction false} SweptKnows(d: Detector, h: seq<Attempt>, ip: string, now: int)
    requires Knows(d, h, ip, now)
    ensures Knows(Swept(d, now), h, ip, now)
  {
    PruneKnows(d, h, ip, now);
  }

  lemma {:induction false} OneMore(h: seq<Attempt>, x: Attempt, ip: string, window: nat, threshold: int)
    ensures TimesOf(h + [x], ip) == TimesOf(h, ip) + (if x.ip == ip then [x.at] else [])
    ensures LastOver(h + [x], ip, window, threshold) ==
            if x.ip == ip && Fills(h, ip, x.at, window, threshold) then Some(x.at) else LastOver(h, ip, window, threshold)
  {
    var more := h + [x];
    assert more[..|more| - 1] == h && more[|more| - 1] == x;
  }

  /** The kept attempts of one more Record, and what they say about the window. */
  lemma {:induction false} KeptAttempts(d: Detector, h: seq<Attempt>, ip: string, at: int)
    requires Knows(d, h, ip, at)
    ensures var kept := Recent(AttemptsOf(Swept(d, at), ip), at - d.window) + [at];
            && |kept| == InWindow(h, ip, d.window, at) + 1
            && Recent(kept, at - d.window) == Recent(TimesOf(h, ip) + [at], at - d.window)
  {
    hide Swept, LastOver;
    SweptKnows(d, h, ip, at);
    SweptSettings(d, at);
    var cutoff := at - d.window;
    var times := AttemptsOf(Swept(d, at), ip);
    RecentOfRecent(times, cutoff, cutoff);
    RecentConcat(Recent(times, cutoff), [at], cutoff);
    RecentConcat(TimesOf(h, ip), [at], cutoff);
  }

  lemma {:induction false} SweptSettings(d: Detector, at: int)
    ensures Swept(d, at).window == d.window && Swept(d, at).threshold == d.threshold
  {
  }

  lemma {:induction false} RecordAlerts(d: Detector, h: seq<Attempt>, ip: string, at: int)
    requires Knows(d, h, ip, at)
    ensures Recorded(d, ip, at).1 == ShouldAlert(h, ip, at, d.window, d.threshold)
  {
    hide Swept, LastOver, Recent, TimesOf;
    SweptKnows(d, h, ip, at);
    SweptSettings(d, at);
    KeptAttempts(d, h, ip, at);
  }

  lemma {:induction false} RecordKnowsSame(d: Detector, h: seq<Attempt>, ip: string, at: int)
    requires Knows(d, h, ip, at)
    ensures Knows(Recorded(d, ip, at).0, h + [Attempt(ip, at)], ip, at)
  {
    hide Swept, LastOver, Recent, TimesOf;
    SweptKnows(d, h, ip, at);
    SweptSettings(d, at);
    KeptAttempts(d, h, ip, at);
    OneMore(h, Attempt(ip, at), ip, d.window, d.threshold);
  }

  lemma {:induction false} RecordKnowsOther(d: Detector, h: seq<Attempt>, ip: string, at: int, other: string)
    requires Knows(d, h, other, at) && other != ip
    ensures Knows(Recorded(d, ip, at).0, h + [Attempt(ip, at)], other, at)
  {
    hide Swept, LastOver, Recent, TimesOf;
    SweptKnows(d, h, other, at);
    SweptSettings(d, at);
    OneMore(h, Attempt(ip, at), other, d.window, d.threshold);
    assert TimesOf(h, other) + [] == TimesOf(h, other);
  }

  lemma {:induction false} RecordBounded(d: Detector, ip: string, at: int, before: Option<int>)
    requires if before.Some? then Bounded(d, before.value) && before.value <= at
             else d.attempts == map[] && d.fired == map[] && d.lastSweep == None
    ensures Bounded(Recorded(d, ip, at).0, at)
  {
    var s, t := Swept(d, at), Recorded(d, ip, at).0;
    var kept := Recent(AttemptsOf(s, ip), at - d.window) + [at];
    assert kept[|kept| - 1] == at;
    assert t.attempts[ip] == kept;
    forall x | x in t.attempts && d.window > 0
      ensures AnyAfter(t.attempts[x], t.lastSweep.value - d.window)
    {
      if x != ip {
        assert x in s.attempts;
      }
    }
  }

  lemma {:induction false} AfterKeepsSettings(window: nat, threshold: int, h: seq<Attempt>)
    ensures After(window, threshold, h).window == window && After(window, threshold, h).threshold == threshold
  {
    if h != [] {
      AfterKeepsSettings(window, threshold, h[..|h| - 1]);
    }
  }

  lemma {:induction false} Tracks(window: nat, threshold: int, h: seq<Attempt>, ip: string, now: int)
    requires Ordered(h) && (h != [] ==> h[|h| - 1].at <= now)
    ensures Knows(After(window, threshold, h), h, ip, now)
    decreases |h|
  {
    hide Recorded, Knows, LastOver, TimesOf;
    AfterKeepsSettings(window, threshold, h);
    if h == [] {
      KnowsNothing(window, threshold, ip, now);
    } else {
      var init, last := h[..|h| - 1], h[|h| - 1];
      AfterKeepsSettings(window, threshold, init);
      Tracks(window, threshold, init, ip, last.at);
      if ip == last.ip {
        RecordKnowsSame(After(window, threshold, init), init, ip, last.at);
      } else {
        RecordKnowsOther(After(window, threshold, init), init, last.ip, last.at, ip);
      }
      assert init + [Attempt(last.ip, last.at)] == h;
      KnowsLater(After(window, threshold, h), h, ip, last.at, now);
    }
  }

  lemma {:induction false} KnowsNothing(window: nat, threshold: int, ip: string, now: int)
    ensures Knows(Detector(window, threshold, map[], map[], None), [], ip, now)
  {
  }

  /** Pruning is invisible: for times that never go back, every Record answers as a detector
      that never forgets, and so does every Count. */
  lemma {:induction false} PruningIsInvisible(window: nat, threshold: int, h: seq<Attempt>, ip: string, at: int)
    requires Ordered(h) && (h != [] ==> h[|h| - 1].at <= at)
    ensures Recorded(After(window, threshold, h), ip, at).1 == ShouldAlert(h, ip, at, window, threshold)
    ensures CountIn(After(window, threshold, h), ip, at) == InWindow(h, ip, window, at)
  {
    hide Recorded, Recent, TimesOf, LastOver, After;
    AfterKeepsSettings(window, threshold, h);
    Tracks(window, threshold, h, ip, at);
    RecordAlerts(After(window, threshold, h), h, ip, at);
  }

  /** After each Record every remembered address has an attempt newer than two windows ago. */
  lemma {:induction false} MemoryIsBounded(window: nat, threshold: int, h: seq<Attempt>)
    requires Ordered(h) && h != [] && window > 0
    ensures var d, now := After(window, threshold, h), h[|h| - 1].at;
            forall ip :: ip in d.attempts ==> AnyAfter(d.attempts[ip], now - 2 * window)
    ensures After(window, threshold, h).fired.Keys <= After(window, threshold, h).attempts.Keys
  {
    AfterKeepsSettings(window, threshold, h);
    AfterBounded(window, threshold, h);
    var d, now := After(window, threshold, h), h[|h| - 1].at;
    forall ip | ip in d.attempts
      ensures AnyAfter(d.attempts[ip], now - 2 * window)
    {
      var i :| 0 <= i < |d.attempts[ip]| && d.attempts[ip][i] > d.lastSweep.value - window;
    }
  }

  lemma {:induction false} AfterBounded(window: nat, threshold: int, h: seq<Attempt>)
    requires Ordered(h) && h != []
    ensures Bounded(After(window, threshold, h), h[|h| - 1].at)
    decreases |h|
  {
    hide Recorded, Bounded;
    var init, last := h[..|h| - 1], h[|h| - 1];
    if init != [] {
      AfterBounded(window, threshold, init);
      RecordBounded(After(window, threshold, init), last.ip, last.at, Some(init[|init| - 1].at));
    } else {
      RecordBounded(After(window, threshold, init), last.ip, last.at, None);
    }
  }

  /** The same address never alerts twice within a window. */
  lemma {:induction false} AlertsAreAWindowApart(window: nat, threshold: int, h: seq<Attempt>, i: nat, j: nat)
    requires Ordered(h) && i < j < |h| && h[i].ip == h[j].ip
    requires Recorded(After(window, threshold, h[..i]), h[i].ip, h[i].at).1
    requires Recorded(After(window, threshold, h[..j]), h[j].ip, h[j].at).1
    ensures h[j].at - h[i].at >= window
  {
    hide Recorded;
    PruningIsInvisible(window, threshold, h[..i], h[i].ip, h[i].at);
    PruningIsInvisible(window, threshold, h[..j], h[j].ip, h[j].at);
    assert h[..j][..i] == h[..i] && h[..j][i] == h[i];
    OverSince(window, threshold, h[..j], i);
  }

  /** An attempt that filled the window is no later than the last one that did. */
  lemma {:induction false} OverSince(window: nat, threshold: int, h: seq<Attempt>, i: nat)
    requires Ordered(h) && i < |h| && Fills(h[..i], h[i].ip, h[i].at, window, threshold)
    ensures var t := LastOver(h, h[i].ip, window, threshold); t.Some? && t.value >= h[i].at
    decreases |h|
  {
    var init := h[..|h| - 1];
    if i == |h| - 1 {
      assert h[..i] == init;
    } else {
      assert init[..i] == h[..i] && init[i] == h[i];
      OverSince(window, threshold, init, i);
    }
  }

  /** Addresses are forgotten at most once a window: between two sweeps a Record leaves what is remembered of
      every other address alone. */
  lemma {:induction false} SweepsAreAWindowApart(d: Detector, ip: string, at: int)
    ensures var t := Recorded(d, ip, at).0;
            if d.lastSweep.Some? && at - d.lastSweep.value < d.window then
              && t.lastSweep == d.lastSweep
              && forall other :: other != ip ==>
                   (other in t.attempts <==> other in d.attempts) && (other in t.attempts ==> t.attempts[other] == d.attempts[other])
            else t.lastSweep == Some(at)
  {
    hide Recent;
  }
}
