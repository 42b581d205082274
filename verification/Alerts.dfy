/** The alert engine, and the history specification its runs refine: what it fires and
    resolves is decided by the operations and answers so far. */
module Alerts {
  import opened RuleModel

  // ---- The engine ----

  datatype Engine = Engine(cooldown: int, active: map<string, bool>, streak: map<string, int>,
                           lastFired: map<string, int>, snoozedUntil: map<string, int>)

  datatype Answer = Quiet | Fires | Resolves

  /** One sample of a threshold or a check; an event; what a watcher's first look finds; and
      the snooze buttons. An event's override 0 keeps the engine's cooldown. */
  datatype Op =
    | Sample(key: string, violating: bool, recovered: bool, sustain: int, now: int)
    | Event(key: string, now: int, override: int)
    | Seed(key: string, failing: bool)
    | Snooze(key: string, until: int)
    | Unsnooze(key: string)

  function Max(a: int, b: int): int {
    if a >= b then a else b
  }

  function IsActive(e: Engine, key: string): bool {
    key in e.active && e.active[key]
  }

  function StreakOf(e: Engine, key: string): int {
    if key in e.streak then e.streak[key] else 0
  }

  predicate SnoozedAt(e: Engine, key: string, now: int) {
    key in e.snoozedUntil && now < e.snoozedUntil[key]
  }

  predicate CoolAt(e: Engine, key: string, now: int, cooldown: int) {
    key in e.lastFired ==> now - e.lastFired[key] >= cooldown
  }

  function DoSample(e: Engine, key: string, violating: bool, recovered: bool, sustain: int, now: int): (Engine, Answer) {
    var streak := if violating then StreakOf(e, key) + 1 else 0;
    var c := e.(streak := e.streak[key := streak]);
    var sustained := violating && streak >= Max(sustain, 1);
    if SnoozedAt(e, key, now) then
      (if recovered then c.(active := c.active[key := false]) else c, Quiet)
    else if sustained && !IsActive(e, key) then
      if !CoolAt(e, key, now, e.cooldown) then (c, Quiet)
      else (c.(active := c.active[key := true], lastFired := c.lastFired[key := now]), Fires)
    else if recovered && IsActive(e, key) then (c.(active := c.active[key := false]), Resolves)
    else (c, Quiet)
  }

  function EventCooldown(e: Engine, override: int): int {
    if override != 0 then override else e.cooldown
  }

  function Do(e: Engine, op: Op): (Engine, Answer) {
    match op
    case Sample(key, violating, recovered, sustain, now) => DoSample(e, key, violating, recovered, sustain, now)
    case Event(key, now, override) =>
      var cd := EventCooldown(e, override);
      if SnoozedAt(e, key, now) || (cd > 0 && !CoolAt(e, key, now, cd)) then (e, Quiet)
      else (e.(lastFired := e.lastFired[key := now]), Fires)
    case Seed(key, failing) => (e.(active := e.active[key := failing], streak := e.streak[key := 0]), Quiet)
    case Snooze(key, until) => (e.(snoozedUntil := e.snoozedUntil[key := until]), Quiet)
    case Unsnooze(key) => (e.(snoozedUntil := e.snoozedUntil - {key}), Quiet)
  }

  class AlertEngine {
    const cooldown: int
    var active: map<string, bool>
    var streak: map<string, int>
    var lastFired: map<string, int>
    var snoozedUntil: map<string, int>

    constructor (cooldown: int)
      ensures E() == Engine(cooldown, map[], map[], map[], map[])
    {
      this.cooldown := cooldown;
      active, streak, lastFired, snoozedUntil := map[], map[], map[], map[];
    }

    ghost function E(): Engine
      reads this
    {
      Engine(cooldown, active, streak, lastFired, snoozedUntil)
    }

    /** step: moves key's firing state for one sample. */
    method Step(key: string, violating: bool, recovered: bool, sustain: int, now: int) returns (fire: bool, resolve: bool)
      modifies this
      ensures E() == DoSample(old(E()), key, violating, recovered, sustain, now).0
      ensures DoSample(old(E()), key, violating, recovered, sustain, now).1 ==
              if fire then Fires else if resolve then Resolves else Quiet
      ensures !(fire && resolve)
    {
      var was := if key in streak then streak[key] else 0;
      if violating {
        streak := streak[key := was + 1];
      } else {
        streak := streak[key := 0];
      }
      var sustained := violating && streak[key] >= Max(sustain, 1);
      if key in snoozedUntil && now < snoozedUntil[key] {
        if recovered {
          active := active[key := false];
        }
        return false, false;
      }
      var isActive := key in active && active[key];
      if sustained && !isActive {
        if key in lastFired && now - lastFired[key] < cooldown {
          return false, false;
        }
        active := active[key := true];
        lastFired := lastFired[key := now];
        return true, false;
      }
      if recovered && isActive {
        active := active[key := false];
        return false, true;
      }
      return false, false;
    }

    /** Threshold: hysteresis around a value. */
    method Threshold(key: string, value: real, threshold: real, margin: real, below: bool, sustain: int, now: int)
      returns (answer: Answer)
      modifies this
      ensures var violating := if below then value <= threshold else value >= threshold;
              var recovered := if below then value > threshold + margin else value < threshold - margin;
              (E(), answer) == Do(old(E()), Sample(key, violating, recovered, sustain, now))
    {
      var violating := value >= threshold;
      var recovered := value < threshold - margin;
      if below {
        violating := value <= threshold;
        recovered := value > threshold + margin;
      }
      var fire, resolve := Step(key, violating, recovered, sustain, now);
      return if fire then Fires else if resolve then Resolves else Quiet;
    }

    /** Check: a failing or passing check. */
    method Check(key: string, failing: bool, now: int) returns (fire: bool, resolve: bool)
      modifies this
      ensures (E(), if fire then Fires else if resolve then Resolves else Quiet) ==
              Do(old(E()), Sample(key, failing, !failing, 1, now))
    {
      fire, resolve := Step(key, failing, !failing, 1, now);
    }

    method Seeded(key: string, failing: bool)
      modifies this
      ensures E() == Do(old(E()), Seed(key, failing)).0
    {
      active := active[key := failing];
      streak := streak[key := 0];
    }

    method Snoozes(key: string, until: int)
      modifies this
      ensures E() == Do(old(E()), Snooze(key, until)).0
    {
      snoozedUntil := snoozedUntil[key := until];
    }

    method Unsnoozes(key: string)
      modifies this
      ensures E() == Do(old(E()), Unsnooze(key)).0
    {
      snoozedUntil := snoozedUntil - {key};
    }

    /** Event: deduplicated by key and cooldown only. */
    method Emit(key: string, now: int, override: int) returns (emitted: bool)
      modifies this
      ensures (E(), if emitted then Fires else Quiet) == Do(old(E()), Event(key, now, override))
    {
      var cd := cooldown;
      if override != 0 {
        cd := override;
      }
      if key in snoozedUntil && now < snoozedUntil[key] {
        return false;
      }
      if key in lastFired && cd > 0 && now - lastFired[key] < cd {
        return false;
      }
      lastFired := lastFired[key := now];
      return true;
    }
  }

  // ---- Histories ----

  datatype Entry = Entry(op: Op, answer: Answer)

  /** The engine and the history after a run. */
  function Run(cooldown: int, ops: seq<Op>): (Engine, seq<Entry>)
    decreases |ops|
  {
    if ops == [] then (Engine(cooldown, map[], map[], map[], map[]), [])
    else
      var (e, h) := Run(cooldown, ops[..|ops| - 1]);
      var op := ops[|ops| - 1];
      (Do(e, op).0, h + [Entry(op, Do(e, op).1)])
  }

  /** Consecutive violating samples of key, since its last Seed. */
  function Streak(h: seq<Entry>, key: string): nat {
    if h == [] then 0
    else
      var op, before := h[|h| - 1].op, Streak(h[..|h| - 1], key);
      if op.Sample? && op.key == key then (if op.violating then before + 1 else 0)
      else if op.Seed? && op.key == key then 0
      else before
  }

  /** When key last fired, by a sample or an event. */
  function LastFire(h: seq<Entry>, key: string): Option<int> {
    if h == [] then None
    else
      var x := h[|h| - 1];
      if x.answer.Fires? && x.op.key == key && (x.op.Sample? || x.op.Event?) then Some(x.op.now)
      else LastFire(h[..|h| - 1], key)
  }

  /** Until when the last snooze of key lasts; None when there is none or it was lifted. */
  function SnoozeEnd(h: seq<Entry>, key: string): Option<int> {
    if h == [] then None
    else
      var op := h[|h| - 1].op;
      if op.Snooze? && op.key == key then Some(op.until)
      else if op.Unsnooze? && op.key == key then None
      else SnoozeEnd(h[..|h| - 1], key)
  }

  predicate Snoozed(h: seq<Entry>, key: string, now: int) {
    SnoozeEnd(h, key).Some? && now < SnoozeEnd(h, key).value
  }

  /** key is firing: after a fire or a failing Seed, until a resolve, a passing Seed or a
      recovery while snoozed. */
  function Firing(h: seq<Entry>, key: string): bool {
    if h == [] then false
    else
      var x, init := h[|h| - 1], h[..|h| - 1];
      if x.op.key != key then Firing(init, key)
      else if x.op.Seed? then x.op.failing
      else if !x.op.Sample? then Firing(init, key)
      else if x.answer.Fires? then true
      else if x.answer.Resolves? then false
      else Firing(init, key) && !(x.op.recovered && Snoozed(init, key, x.op.now))
  }

  predicate Sustained(h: seq<Entry>, op: Op)
    requires op.Sample?
  {
    op.violating && Streak(h, op.key) + 1 >= op.sustain
  }

  predicate Cool(h: seq<Entry>, key: string, now: int, cooldown: int) {
    LastFire(h, key).Some? ==> now - LastFire(h, key).value >= cooldown
  }

  /** The answer the history calls for. */
  function Due(cooldown: int, h: seq<Entry>, op: Op): Answer {
    match op
    case Sample(key, violating, recovered, sustain, now) =>
      if Snoozed(h, key, now) then Quiet
      else if Sustained(h, op) && !Firing(h, key) then (if Cool(h, key, now, cooldown) then Fires else Quiet)
      else if recovered && Firing(h, key) then Resolves
      else Quiet
    case Event(key, now, override) =>
      var cd := if override != 0 then override else cooldown;
      if Snoozed(h, key, now) || (cd > 0 && !Cool(h, key, now, cd)) then Quiet else Fires
    case _ => Quiet
  }

  /** The engine's maps hold what the history says, for every key. */
  predicate Mirrors(e: Engine, h: seq<Entry>, key: string) {
    && IsActive(e, key) == Firing(h, key)
    && StreakOf(e, key) == Streak(h, key)
    && (if key in e.lastFired then LastFire(h, key) == Some(e.lastFired[key]) else LastFire(h, key) == None)
    && (if key in e.snoozedUntil then SnoozeEnd(h, key) == Some(e.snoozedUntil[key]) else SnoozeEnd(h, key) == None)
  }

  lemma {:induction false} MirrorAnswers(e: Engine, h: seq<Entry>, op: Op)
    requires Mirrors(e, h, op.key)
    ensures Do(e, op).1 == Due(e.cooldown, h, op)
  {
    hide Streak, LastFire, SnoozeEnd, Firing;
  }

  /** What one more entry does to each part of the history. */
  lemma {:induction false} OneMore(h: seq<Entry>, x: Entry, key: string)
    ensures var more, op := h + [x], x.op;
            && Streak(more, key) == (if op.Sample? && op.key == key then (if op.violating then Streak(h, key) + 1 else 0)
                                     else if op.Seed? && op.key == key then 0 else Streak(h, key))
            && LastFire(more, key) == (if x.answer.Fires? && op.key == key && (op.Sample? || op.Event?) then Some(op.now)
                                       else LastFire(h, key))
            && SnoozeEnd(more, key) == (if op.Snooze? && op.key == key then Some(op.until)
                                        else if op.Unsnooze? && op.key == key then None else SnoozeEnd(h, key))
  {
    var more := h + [x];
    assert more[..|more| - 1] == h && more[|more| - 1] == x;
  }

  lemma {:induction false} OneMoreFiring(h: seq<Entry>, x: Entry, key: string)
    ensures var op := x.op;
            Firing(h + [x], key) == (if op.key != key then Firing(h, key)
                                     else if op.Seed? then op.failing
                                     else if !op.Sample? then Firing(h, key)
                                     else if x.answer.Fires? then true
                                     else if x.answer.Resolves? then false
                                     else Firing(h, key) && !(op.recovered && Snoozed(h, key, op.now)))
  {
    var more := h + [x];
    assert more[..|more| - 1] == h && more[|more| - 1] == x;
  }

  lemma {:induction false} MirrorOther(e: Engine, h: seq<Entry>, op: Op, key: string)
    requires Mirrors(e, h, key) && op.key != key
    ensures Mirrors(Do(e, op).0, h + [Entry(op, Do(e, op).1)], key)
  {
    hide Streak, LastFire, SnoozeEnd, Firing;
    OneMore(h, Entry(op, Do(e, op).1), key);
    OneMoreFiring(h, Entry(op, Do(e, op).1), key);
  }

  lemma {:induction false} MirrorSample(e: Engine, h: seq<Entry>, op: Op)
    requires Mirrors(e, h, op.key) && op.Sample?
    ensures Mirrors(Do(e, op).0, h + [Entry(op, Do(e, op).1)], op.key)
  {
    hide Streak, LastFire, SnoozeEnd, Firing;
    OneMore(h, Entry(op, Do(e, op).1), op.key);
    OneMoreFiring(h, Entry(op, Do(e, op).1), op.key);
  }

  lemma {:induction false} MirrorRest(e: Engine, h: seq<Entry>, op: Op)
    requires Mirrors(e, h, op.key) && !op.Sample?
    ensures Mirrors(Do(e, op).0, h + [Entry(op, Do(e, op).1)], op.key)
  {
    hide DoSample, Streak, LastFire, SnoozeEnd, Firing;
    OneMore(h, Entry(op, Do(e, op).1), op.key);
    OneMoreFiring(h, Entry(op, Do(e, op).1), op.key);
  }

  lemma {:induction false} MirrorStep(e: Engine, h: seq<Entry>, op: Op, key: string)
    requires Mirrors(e, h, key)
    ensures Mirrors(Do(e, op).0, h + [Entry(op, Do(e, op).1)], key)
  {
    hide Mirrors, Do;
    if op.key != key {
      MirrorOther(e, h, op, key);
    } else if op.Sample? {
      MirrorSample(e, h, op);
    } else {
      MirrorRest(e, h, op);
    }
  }

  lemma {:induction false} RunMirrors(cooldown: int, ops: seq<Op>, key: string)
    ensures var (e, h) := Run(cooldown, ops); Mirrors(e, h, key) && e.cooldown == cooldown && |h| == |ops|
    decreases |ops|
  {
    if ops != [] {
      RunMirrors(cooldown, ops[..|ops| - 1], key);
      var (e, h) := Run(cooldown, ops[..|ops| - 1]);
      MirrorStep(e, h, ops[|ops| - 1], key);
    }
  }

  /** Every answer of a run is the one its history calls for. */
  lemma {:induction false} RunsRefineHistory(cooldown: int, ops: seq<Op>, i: nat)
    requires i < |ops|
    ensures |Run(cooldown, ops).1| == |ops|
    ensures var h := Run(cooldown, ops).1; h[i].op == ops[i] && h[i].answer == Due(cooldown, h[..i], ops[i])
    decreases |ops|
  {
    hide Do, Due;
    var init := ops[..|ops| - 1];
    var (e, h) := Run(cooldown, init);
    RunMirrors(cooldown, ops, "");
    if i < |init| {
      RunsRefineHistory(cooldown, init, i);
      assert Run(cooldown, ops).1[..i] == h[..i];
    } else {
      RunMirrors(cooldown, init, ops[i].key);
      MirrorAnswers(e, h, ops[i]);
      assert Run(cooldown, ops).1[..i] == h;
    }
  }

  /** A history every answer of which is due: what runs produce. */
  predicate Proper(cooldown: int, h: seq<Entry>) {
    forall i :: 0 <= i < |h| ==> h[i].answer == Due(cooldown, h[..i], h[i].op)
  }

  lemma {:induction false} RunsAreProper(cooldown: int, ops: seq<Op>)
    ensures Proper(cooldown, Run(cooldown, ops).1)
  {
    hide Due;
    RunMirrors(cooldown, ops, "");
    forall i | 0 <= i < |ops|
      ensures var h := Run(cooldown, ops).1; h[i].answer == Due(cooldown, h[..i], h[i].op)
    {
      RunsRefineHistory(cooldown, ops, i);
    }
  }

  // ---- What follows over whole runs ----

  predicate FiresAt(h: seq<Entry>, i: nat, key: string)
    requires i < |h|
  {
    h[i].answer.Fires? && (h[i].op.Sample? || h[i].op.Event?) && h[i].op.key == key
  }

  /** The n-th sample of key from the end of h is violating, with no Seed of key after it. */
  predicate ViolatedFor(h: seq<Entry>, key: string, n: nat)
    decreases |h|
  {
    n == 0 ||
    (h != [] &&
     var op, init := h[|h| - 1].op, h[..|h| - 1];
     if op.Sample? && op.key == key then op.violating && ViolatedFor(init, key, n - 1)
     else !(op.Seed? && op.key == key) && ViolatedFor(init, key, n))
  }

  lemma {:induction false} StreakIsViolations(h: seq<Entry>, key: string, n: nat)
    ensures ViolatedFor(h, key, n) <==> Streak(h, key) >= n
    decreases |h|
  {
    if h != [] && n > 0 {
      StreakIsViolations(h[..|h| - 1], key, n);
      StreakIsViolations(h[..|h| - 1], key, n - 1);
    }
  }

  lemma {:induction false} LastFireIsLatest(h: seq<Entry>, key: string, i: nat)
    requires i < |h| && FiresAt(h, i, key)
    requires forall k :: i < k < |h| ==> !FiresAt(h, k, key)
    ensures LastFire(h, key) == Some(h[i].op.now)
    decreases |h|
  {
    var n := |h| - 1;
    if i < n {
      assert !FiresAt(h, n, key);
      forall k | i < k < n
        ensures !FiresAt(h[..n], k, key)
      {
        assert !FiresAt(h, k, key);
      }
      LastFireIsLatest(h[..n], key, i);
    }
  }

  /** In every run, a threshold or a check fires only un-snoozed, after at least `sustain`
      violating samples in a row since the last Seed, and at least the cooldown after the
      key's last fire of any kind. */
  lemma {:induction false} SampleFiresOnlyWhenDue(cooldown: int, ops: seq<Op>, j: nat)
    requires j < |ops| && ops[j].Sample?
    requires |Run(cooldown, ops).1| == |ops| && Run(cooldown, ops).1[j].answer.Fires?
    ensures var h, op := Run(cooldown, ops).1, ops[j];
            && !Snoozed(h[..j], op.key, op.now)
            && ViolatedFor(h[..j + 1], op.key, Max(op.sustain, 1))
            && forall i :: 0 <= i < j && FiresAt(h, i, op.key) && (forall k :: i < k < j ==> !FiresAt(h, k, op.key)) ==>
                 op.now - h[i].op.now >= cooldown
  {
    hide Streak, LastFire, SnoozeEnd, Firing, Run;
    RunsRefineHistory(cooldown, ops, j);
    var h, op := Run(cooldown, ops).1, ops[j];
    StreakNow(h, j);
    StreakIsViolations(h[..j + 1], op.key, Max(op.sustain, 1));
    forall i | 0 <= i < j && FiresAt(h, i, op.key) && forall k :: i < k < j ==> !FiresAt(h, k, op.key)
      ensures op.now - h[i].op.now >= cooldown
    {
      forall k | i < k < j
        ensures !FiresAt(h[..j], k, op.key)
      {
        assert !FiresAt(h, k, op.key);
      }
      LastFireIsLatest(h[..j], op.key, i);
    }
  }

  lemma {:induction false} StreakNow(h: seq<Entry>, j: nat)
    requires j < |h| && h[j].op.Sample? && h[j].op.violating
    ensures Streak(h[..j + 1], h[j].op.key) == Streak(h[..j], h[j].op.key) + 1
  {
    assert h[..j + 1][..j] == h[..j];
  }

  /** Nothing is emitted for a key while it is snoozed. */
  lemma {:induction false} SnoozedIsSilent(cooldown: int, ops: seq<Op>, j: nat)
    requires j < |ops| && (ops[j].Sample? || ops[j].Event?)
    ensures |Run(cooldown, ops).1| == |ops|
    ensures Snoozed(Run(cooldown, ops).1[..j], ops[j].key, ops[j].now) ==> Run(cooldown, ops).1[j].answer == Quiet
  {
    hide Run, Snoozed;
    RunsRefineHistory(cooldown, ops, j);
  }

  predicate ResolvesAt(h: seq<Entry>, i: nat, key: string)
    requires i < |h|
  {
    h[i].op.Sample? && h[i].op.key == key && h[i].answer.Resolves?
  }

  /** A sample fire or a failing Seed. */
  predicate Starts(h: seq<Entry>, i: nat, key: string)
    requires i < |h|
  {
    h[i].op.key == key && ((h[i].op.Sample? && h[i].answer.Fires?) || (h[i].op.Seed? && h[i].op.failing))
  }

  lemma {:induction false} FiringHasStart(h: seq<Entry>, key: string) returns (i: nat)
    requires Firing(h, key)
    ensures i < |h| && Starts(h, i, key)
    ensures forall k :: i < k < |h| ==> !ResolvesAt(h, k, key) && !(h[k].op.Seed? && h[k].op.key == key)
    decreases |h|
  {
    var n := |h| - 1;
    if Starts(h, n, key) {
      i := n;
    } else {
      i := FiringHasStart(h[..n], key);
      forall k | i < k < |h|
        ensures !ResolvesAt(h, k, key) && !(h[k].op.Seed? && h[k].op.key == key)
      {
        if k < n {
          assert !ResolvesAt(h[..n], k, key) && h[..n][k] == h[k];
        }
      }
    }
  }

  /** Every resolve is preceded by a fire or a failing Seed with no resolve in between. */
  lemma {:induction false} ResolveHasStart(cooldown: int, ops: seq<Op>, j: nat) returns (i: nat)
    requires j < |ops| && ops[j].Sample?
    requires |Run(cooldown, ops).1| == |ops| && Run(cooldown, ops).1[j].answer.Resolves?
    ensures var h, key := Run(cooldown, ops).1, ops[j].key;
            i < j && Starts(h, i, key) && forall k :: i < k < j ==> !ResolvesAt(h, k, key)
  {
    hide Run, Firing, Streak, LastFire, SnoozeEnd;
    RunsRefineHistory(cooldown, ops, j);
    var h, key := Run(cooldown, ops).1, ops[j].key;
    i := FiringHasStart(h[..j], key);
    assert h[..j][i] == h[i];
    forall k | i < k < j
      ensures !ResolvesAt(h, k, key)
    {
      assert h[..j][k] == h[k] && !ResolvesAt(h[..j], k, key);
    }
  }

  /** A violation still in progress when a snooze ends fires then only if the key was not
      firing already: a key that fired before the snooze and never recovered stays silent,
      whatever Snooze's own comment says. */
  lemma {:induction false} AfterSnoozeFires(cooldown: int, ops: seq<Op>, j: nat)
    requires j < |ops| && ops[j].Sample? && ops[j].violating && !ops[j].recovered
    requires |Run(cooldown, ops).1| == |ops|
    requires var h, op := Run(cooldown, ops).1[..j], ops[j];
             !Snoozed(h, op.key, op.now) && Sustained(h, op) && Cool(h, op.key, op.now, cooldown)
    ensures Run(cooldown, ops).1[j].answer == Fires <==> !Firing(Run(cooldown, ops).1[..j], ops[j].key)
  {
    hide Run, Firing, Streak, LastFire, SnoozeEnd;
    RunsRefineHistory(cooldown, ops, j);
  }

  /** Such a run: fire, snooze, and still violating when it is over. */
  lemma {:induction false} StillViolatingStaysSilent(cooldown: int, key: string, now: int, until: int, later: int)
    requires until <= later
    ensures var s := Sample(key, true, false, 1, now);
            var h := Run(cooldown, [s, Snooze(key, until), Sample(key, true, false, 1, later)]).1;
            |h| == 3 && h[0].answer == Fires && !Snoozed(h[..2], key, later) && h[2].answer == Quiet
  {
    hide Do, Due;
    var s, z := Sample(key, true, false, 1, now), Snooze(key, until);
    var ops := [s, z, Sample(key, true, false, 1, later)];
    var h := Run(cooldown, ops).1;
    RunMirrors(cooldown, ops, key);
    RunsRefineHistory(cooldown, ops, 0);
    RunsRefineHistory(cooldown, ops, 1);
    RunsRefineHistory(cooldown, ops, 2);
    assert h[..0] == [] && h[..1][..0] == [] && h[..2][..1] == h[..1];
    FirstSampleFires(cooldown, s);
    assert h[0] == Entry(s, Fires);
    assert Firing(h[..1], key) && Firing(h[..2], key);
    assert SnoozeEnd(h[..2], key) == Some(until);
    FiringStaysQuiet(cooldown, h[..2], Sample(key, true, false, 1, later));
  }

  lemma {:induction false} FirstSampleFires(cooldown: int, s: Op)
    requires s.Sample? && s.violating && s.sustain == 1
    ensures Due(cooldown, [], s) == Fires
  {
  }

  lemma {:induction false} FiringStaysQuiet(cooldown: int, h: seq<Entry>, s: Op)
    requires s.Sample? && !s.recovered && Firing(h, s.key)
    ensures Due(cooldown, h, s) == Quiet
  {
    hide Firing, Streak, LastFire, SnoozeEnd;
  }
}
