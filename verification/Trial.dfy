/** The dead-man switch as a state machine: what is on disk, what each locked operation does
    at each of its steps, and what every run keeps, with crashes between any two steps. */
module Trial {
  import opened RuleModel

  type Id = nat

  /** Rule files by name, as their bytes. A digest is injective, so it is the files themselves. */
  type Files = map<string, string>

  const USER_RULES := "user.rules"
  const USER6_RULES := "user6.rules"
  const KEEP_SNAPSHOTS := 5
  const KEEP_SECONDS := 24 * 60 * 60
  const NO_TIMER_CAP := 60

  /** current.json. post is None until the plan was applied. */
  datatype Rec = Rec(id: Id, pre: Files, post: Option<Files>, deadline: int, layer1: bool, evidence: bool)

  datatype Snap = Snap(files: Files, at: int)

  /** Where the holder of the trial lock is. other: the process of the systemd timer. */
  datatype Pc =
    | Unlocked
    | Snapped(rec: Rec, start: int)
    | Recorded(rec: Rec, start: int)
    | Applying(rec: Rec)
    | Posted(rec: Rec)
    | Rolling(rec: Rec, other: bool)
    | PutBack(rec: Rec, other: bool)
    | Keeping(rec: Rec)

  datatype How = Kept | RolledBack | Aborted

  /** How a trial ended: undisturbed, and the files before it and at its end. */
  datatype End = End(id: Id, how: How, undisturbed: bool, before: Files, after: Files)

  /** files, cur and snaps are on disk; timers are the trials with an armed systemd timer (layer
      1) and live is the one with an armed timer in the agent (layer 2); pc holds the lock. The
      rest is history: the files the latest trial began with, whether the files can no longer be
      told from someone else's, the ids ever drawn and the trials that ended. */
  datatype Sys = Sys(
    files: Files,
    cur: Option<Rec>,
    snaps: map<Id, Snap>,
    live: Option<Id>,
    timers: set<Id>,
    pc: Pc,
    origin: Files,
    disturbed: bool,
    used: set<Id>,
    log: seq<End>)

  /** How writing the snapshot's files back goes: nothing written, only the first file
      written, all written but the reload failed, or done. */
  datatype Restore = WriteFails | Torn | ReloadFails | Done

  /** What revertForeign does: the files its own undoing leaves, and whether SSH is at risk. */
  datatype Revert = Revert(files: Files, risky: bool)

  /** The outcomes one rollback meets. */
  datatype Luck = Luck(loads: bool, hashes: bool, revert: Revert, restore: Restore)

  datatype Event =
    | Begin(id: Id, now: int, window: int, evidence: bool)
    | Record(saved: bool)
    | Arm(layer1: bool, saved: bool, removed: bool)
    | Touch(files: Files)
    | Post(hashed: bool, saved: bool)
    | GoOnTrial
    | GiveUp
    | StartRollback(id: Id, other: bool)
    | Roll(luck: Luck)
    | Finish(removed: bool)
    | StartKeep(id: Id, seen: bool, committed: bool)
    | FinishKeep(removed: bool)
    | Resume(now: int)
    | Expire(id: Id, other: bool)
    | Prune(now: int, order: seq<Id>)
    | Foreign(files: Files)
    | CrashAgent
    | CrashOther
    | Reboot

  // ---- One step ----

  function Overlay(files: Files, snap: Files): Files {
    files + snap
  }

  function FirstFile(files: Files, snap: Files): Files {
    if USER_RULES in snap then files[USER_RULES := snap[USER_RULES]] else files
  }

  function RestoreFrom(s: Sys, rec: Rec, other: bool, restore: Restore): Sys
    requires rec.id in s.snaps
  {
    var snap := s.snaps[rec.id].files;
    match restore
    case WriteFails => s.(pc := Unlocked)
    case Torn =>
      var torn := FirstFile(s.files, snap);
      s.(files := torn, pc := Unlocked, disturbed := s.disturbed || Misread(torn, s.cur))
    case ReloadFails => s.(files := Overlay(s.files, snap), pc := Unlocked)
    case Done => s.(files := Overlay(s.files, snap), pc := PutBack(rec, other))
  }

  /** The three cases of rollbackLocked, by the hash of the rule files. */
  datatype Branch = CleanUp | TheirEdit | Back

  function BranchOf(files: Files, rec: Rec, hashes: bool): Branch {
    if hashes && files == rec.pre then CleanUp
    else if hashes && rec.post.Some? && files != rec.post.value then TheirEdit
    else Back
  }

  /** The next rollback, by the record on disk, will take the files for someone else's edit. */
  predicate Misread(files: Files, cur: Option<Rec>) {
    cur.Some? && BranchOf(files, cur.value, true).TheirEdit?
  }

  function RollStep(s: Sys, rec: Rec, other: bool, luck: Luck): Sys {
    if !luck.loads || rec.id !in s.snaps then s.(pc := Unlocked)
    else
      match BranchOf(s.files, rec, luck.hashes)
      case CleanUp => s.(pc := PutBack(rec, other))
      case TheirEdit =>
        var reverted := s.(files := luck.revert.files, disturbed := true);
        if luck.revert.risky then RestoreFrom(reverted, rec, other, luck.restore)
        else reverted.(pc := PutBack(rec, other))
      case Back => RestoreFrom(s, rec, other, luck.restore)
  }

  function EndTrial(s: Sys, id: Id, how: How): Sys {
    s.(cur := None, pc := Unlocked, log := s.log + [End(id, how, !s.disturbed, s.origin, s.files)])
  }

  function StopTimers(live: Option<Id>, id: Id): Option<Id> {
    if live == Some(id) then None else live
  }

  /** stopLayer1 */
  function StopLayer1(timers: set<Id>, rec: Rec): set<Id> {
    if rec.layer1 then timers - {rec.id} else timers
  }

  /** The snapshots listed newest first: every one once, by the time it was taken. */
  predicate NewestFirst(snaps: map<Id, Snap>, order: seq<Id>) {
    && (forall i :: 0 <= i < |order| ==> order[i] in snaps)
    && (forall id :: id in snaps ==> id in order)
    && (forall i, j :: 0 <= i < j < |order| ==> order[i] != order[j] && snaps[order[i]].at >= snaps[order[j]].at)
  }

  predicate Stale(snaps: map<Id, Snap>, order: seq<Id>, keep: Option<Id>, now: int, i: nat)
    requires i < |order|
  {
    order[i] in snaps && Some(order[i]) != keep && i >= KEEP_SNAPSHOTS && now - snaps[order[i]].at > KEEP_SECONDS
  }

  function Pruned(snaps: map<Id, Snap>, order: seq<Id>, keep: Option<Id>, now: int): map<Id, Snap> {
    snaps - (set i | 0 <= i < |order| && Stale(snaps, order, keep, now, i) :: order[i])
  }

  /** Pruning takes only snapshots older than a day that five newer ones outlive, never the one to keep. */
  lemma {:induction false} PruneKeepsNewest(snaps: map<Id, Snap>, order: seq<Id>, keep: Option<Id>, now: int, id: Id)
    requires NewestFirst(snaps, order) && id in snaps
    ensures id !in Pruned(snaps, order, keep, now) <==>
            && Some(id) != keep && now - snaps[id].at > 24 * 60 * 60
            && |order| > 5 && id !in order[..5]
    ensures |order| > 5 && id !in order[..5] ==> forall k :: 0 <= k < 5 ==> snaps[order[k]].at >= snaps[id].at
  {
    var i :| 0 <= i < |order| && order[i] == id;
    if id !in Pruned(snaps, order, keep, now) {
      var j :| 0 <= j < |order| && Stale(snaps, order, keep, now, j) && order[j] == id;
      assert i == j;
    }
    if i >= 5 {
      assert forall k :: 0 <= k < 5 ==> order[..5][k] == order[k] != id;
      if Some(id) != keep && now - snaps[id].at > KEEP_SECONDS {
        assert Stale(snaps, order, keep, now, i);
      }
    }
  }

  /** The record after systemd-run worked or did not: without it the window is capped. */
  function ArmedRec(s: Sys, layer1: bool): (rec: Rec)
    requires s.pc.Recorded?
    ensures rec == s.pc.rec.(layer1 := layer1, deadline := rec.deadline)
  {
    var capped := !layer1 && s.pc.rec.deadline - s.pc.start > NO_TIMER_CAP;
    s.pc.rec.(layer1 := layer1, deadline := if capped then s.pc.start + NO_TIMER_CAP else s.pc.rec.deadline)
  }

  function CurId(s: Sys): Option<Id> {
    if s.cur.Some? then Some(s.cur.value.id) else None
  }

  function Step(s: Sys, e: Event): Sys {
    match e
    case Begin(id, now, window, evidence) =>
      if !s.pc.Unlocked? || s.cur.Some? || id in s.used || USER_RULES !in s.files then s
      else
        s.(snaps := s.snaps[id := Snap(s.files, now)],
           used := s.used + {id},
           pc := Snapped(Rec(id, s.files, None, now + window, false, evidence), now),
           origin := s.files, disturbed := false)
    case Record(saved) =>
      if !s.pc.Snapped? then s
      else if saved then s.(cur := Some(s.pc.rec), pc := Recorded(s.pc.rec, s.pc.start))
      else s.(snaps := s.snaps - {s.pc.rec.id}, pc := Unlocked)
    case Arm(layer1, saved, removed) =>
      if !s.pc.Recorded? then s
      else
        var rec := ArmedRec(s, layer1);
        var armed := s.(timers := if layer1 then s.timers + {rec.id} else s.timers);
        var stopped := armed.(timers := StopLayer1(armed.timers, rec));
        if saved then armed.(cur := Some(rec), pc := Applying(rec))
        else if removed then EndTrial(stopped, rec.id, Aborted)
        else stopped.(pc := Unlocked)
    case Touch(files) =>
      if !s.pc.Applying? then s
      else s.(files := files, disturbed := s.disturbed || !(files.Keys <= s.pc.rec.pre.Keys))
    case Post(hashed, saved) =>
      if !s.pc.Applying? then s
      else
        var rec := if hashed then s.pc.rec.(post := Some(s.files)) else s.pc.rec;
        s.(cur := if hashed && saved then Some(rec) else s.cur, pc := Posted(rec))
    case GoOnTrial =>
      if !s.pc.Posted? then s else s.(live := Some(s.pc.rec.id), pc := Unlocked)
    case GiveUp =>
      if !s.pc.Posted? then s else s.(pc := Rolling(s.pc.rec, false))
    case StartRollback(id, other) =>
      if !s.pc.Unlocked? || CurId(s) != Some(id) then s else s.(pc := Rolling(s.cur.value, other))
    case Roll(luck) =>
      if !s.pc.Rolling? then s else RollStep(s, s.pc.rec, s.pc.other, luck)
    case Finish(removed) =>
      if !s.pc.PutBack? then s
      else
        var id := s.pc.rec.id;
        var stopped := s.(timers := StopLayer1(s.timers, s.pc.rec), live := if s.pc.other then s.live else StopTimers(s.live, id));
        if removed then EndTrial(stopped, id, RolledBack) else stopped.(pc := Unlocked)
    case StartKeep(id, seen, committed) =>
      if !s.pc.Unlocked? || CurId(s) != Some(id) || (s.cur.value.evidence && !seen) then s
      else s.(timers := StopLayer1(s.timers, s.cur.value), pc := if committed then Keeping(s.cur.value) else Unlocked)
    case FinishKeep(removed) =>
      if !s.pc.Keeping? then s
      else if removed then EndTrial(s.(live := StopTimers(s.live, s.pc.rec.id)), s.pc.rec.id, Kept)
      else s.(pc := Unlocked)
    case Resume(now) =>
      if !s.pc.Unlocked? || s.cur.None? then s
      else if now >= s.cur.value.deadline then s.(pc := Rolling(s.cur.value, false))
      else s.(live := Some(s.cur.value.id))
    case Expire(id, other) =>
      if other then s.(timers := s.timers - {id}) else s.(live := StopTimers(s.live, id))
    case Prune(now, order) =>
      if !s.pc.Unlocked? || !NewestFirst(s.snaps, order) then s
      else s.(snaps := Pruned(s.snaps, order, CurId(s), now))
    case Foreign(files) => s.(files := files, disturbed := true)
    case CrashAgent =>
      s.(live := None, pc := if (s.pc.Rolling? || s.pc.PutBack?) && s.pc.other then s.pc else Unlocked)
    case CrashOther =>
      if (s.pc.Rolling? || s.pc.PutBack?) && s.pc.other then s.(pc := Unlocked) else s
    case Reboot => s.(live := None, timers := {}, pc := Unlocked)
  }

  function Run(s: Sys, events: seq<Event>): Sys
    decreases |events|
  {
    if events == [] then s else Step(Run(s, events[..|events| - 1]), events[|events| - 1])
  }

  lemma {:induction false} RunSnoc(s: Sys, events: seq<Event>, e: Event)
    ensures Run(s, events + [e]) == Step(Run(s, events), e)
  {
    assert (events + [e])[..|events|] == events;
  }

  // ---- Steps, one at a time ----

  lemma {:induction false} TwoSteps(s: Sys, a: Event, b: Event)
    ensures Run(s, [a, b]) == Step(Step(s, a), b)
  {
    hide Step;
    RunSnoc(s, [a], b);
    RunSnoc(s, [], a);
    assert [a] + [b] == [a, b] && [] + [a] == [a];
  }

  lemma {:induction false} ThreeSteps(s: Sys, a: Event, b: Event, c: Event)
    ensures Run(s, [a, b, c]) == Step(Step(Step(s, a), b), c)
  {
    hide Step;
    TwoSteps(s, a, b);
    RunSnoc(s, [a, b], c);
    assert [a, b] + [c] == [a, b, c];
  }

  lemma {:induction false} FourSteps(s: Sys, a: Event, b: Event, c: Event, d: Event)
    ensures Run(s, [a, b, c, d]) == Step(Step(Step(Step(s, a), b), c), d)
  {
    hide Step;
    ThreeSteps(s, a, b, c);
    RunSnoc(s, [a, b, c], d);
    assert [a, b, c] + [d] == [a, b, c, d];
  }

  lemma {:induction false} RollOf(s: Sys, luck: Luck)
    requires s.pc.Rolling?
    ensures Step(s, Roll(luck)) == RollStep(s, s.pc.rec, s.pc.other, luck)
  {
    hide RollStep;
  }

  lemma {:induction false} FinishIs(s: Sys, removed: bool)
    ensures Step(s, Finish(removed)) ==
            if !s.pc.PutBack? then s
            else
              var id := s.pc.rec.id;
              var stopped := s.(timers := StopLayer1(s.timers, s.pc.rec), live := if s.pc.other then s.live else StopTimers(s.live, id));
              if removed then EndTrial(stopped, id, RolledBack) else stopped.(pc := Unlocked)
  {
  }

  lemma {:induction false} FinishKeepIs(s: Sys, removed: bool)
    ensures Step(s, FinishKeep(removed)) ==
            if !s.pc.Keeping? then s
            else if removed then EndTrial(s.(live := StopTimers(s.live, s.pc.rec.id)), s.pc.rec.id, Kept)
            else s.(pc := Unlocked)
  {
    hide EndTrial, StopTimers;
  }

  lemma {:induction false} ExpireIs(s: Sys, id: Id, other: bool)
    ensures Step(s, Expire(id, other)) == if other then s.(timers := s.timers - {id}) else s.(live := StopTimers(s.live, id))
  {
    hide StopTimers;
  }

  lemma {:induction false} ArmIs(s: Sys, layer1: bool, saved: bool, removed: bool)
    requires s.pc.Recorded?
    ensures var rec := ArmedRec(s, layer1);
            var armed := s.(timers := if layer1 then s.timers + {rec.id} else s.timers);
            var stopped := armed.(timers := StopLayer1(armed.timers, rec));
            Step(s, Arm(layer1, saved, removed)) ==
            if saved then armed.(cur := Some(rec), pc := Applying(rec))
            else if removed then EndTrial(stopped, rec.id, Aborted)
            else stopped.(pc := Unlocked)
  {
    hide EndTrial, StopLayer1;
  }

  /** The two steps of a Keep. */
  lemma {:induction false} KeepIs(s: Sys, id: Id, seen: bool, committed: bool, removed: bool)
    requires s.pc.Unlocked?
    ensures Run(s, [StartKeep(id, seen, committed), FinishKeep(removed)]) ==
            if CurId(s) != Some(id) || (s.cur.value.evidence && !seen) then s
            else
              var stopped := s.(timers := StopLayer1(s.timers, s.cur.value));
              if committed && removed then EndTrial(stopped.(live := StopTimers(s.live, id)), id, Kept) else stopped
  {
    hide StopLayer1, StopTimers;
    TwoSteps(s, StartKeep(id, seen, committed), FinishKeep(removed));
  }

  lemma {:induction false} StartRollbackIs(s: Sys, id: Id, other: bool)
    requires s.pc.Unlocked? && CurId(s) == Some(id)
    ensures Step(s, StartRollback(id, other)) == s.(pc := Rolling(s.cur.value, other))
  {
  }

  lemma {:induction false} RestoreEffect(s: Sys, rec: Rec, other: bool, restore: Restore)
    requires rec.id in s.snaps
    ensures var t := RestoreFrom(s, rec, other, restore);
            && t == s.(files := t.files, pc := t.pc, disturbed := t.disturbed)
            && (t.pc == Unlocked || t.pc == PutBack(rec, other)) && (s.disturbed ==> t.disturbed)
  {
    hide Overlay, FirstFile;
  }

  /** A rollback's work changes the rule files and nothing else on disk. */
  lemma {:induction false} RollEffect(s: Sys, rec: Rec, other: bool, luck: Luck)
    ensures var t := RollStep(s, rec, other, luck);
            && t == s.(files := t.files, pc := t.pc, disturbed := t.disturbed)
            && (t.pc == Unlocked || t.pc == PutBack(rec, other)) && (s.disturbed ==> t.disturbed)
  {
    hide RestoreFrom;
    if luck.loads && rec.id in s.snaps {
      RestoreEffect(s, rec, other, luck.restore);
      RestoreEffect(s.(files := luck.revert.files, disturbed := true), rec, other, luck.restore);
    }
  }

  /** rec's snapshot is there, no file was created, and the recorded hash, if any, is the files'. */
  predicate Undoable(s: Sys, rec: Rec) {
    && rec.id in s.snaps && s.snaps[rec.id].files == rec.pre && s.files.Keys <= rec.pre.Keys
    && (rec.post == None || rec.post == Some(s.files))
  }

  predicate Faultless(luck: Luck) {
    luck.loads && luck.restore == Done
  }

  /** Rolling back the change just made: a failure keeps the record, and without one the files are
      those before the change. */
  lemma {:induction false} GivenUp(s: Sys, luck: Luck, removed: bool)
    requires s.pc.Posted?
    ensures var t := Run(s, [GiveUp, Roll(luck), Finish(removed)]);
            && t.snaps == s.snaps && (t.cur == s.cur || t.cur == None)
            && (Undoable(s, s.pc.rec) && Faultless(luck) ==> t.files == s.pc.rec.pre && (removed ==> t.cur == None))
  {
    hide RollStep, Overlay;
    ThreeSteps(s, GiveUp, Roll(luck), Finish(removed));
    var a := Step(s, GiveUp);
    RollOf(a, luck);
    RollEffect(a, s.pc.rec, false, luck);
    if Undoable(s, s.pc.rec) && Faultless(luck) {
      OwnChangeIsUndone(a, luck);
    }
    FinishIs(Step(a, Roll(luck)), removed);
  }

  lemma {:induction false} OwnChangeIsUndone(s: Sys, luck: Luck)
    requires s.pc.Rolling? && Undoable(s, s.pc.rec) && Faultless(luck)
    ensures var t := RollStep(s, s.pc.rec, s.pc.other, luck);
            t.files == s.pc.rec.pre && t.pc == PutBack(s.pc.rec, s.pc.other)
  {
    assert Overlay(s.files, s.pc.rec.pre) == s.pc.rec.pre;
  }

  // ---- What every run keeps ----

  predicate Ended(log: seq<End>, id: Id) {
    exists i :: 0 <= i < |log| && log[i].id == id
  }

  /** r names an intact snapshot of the files the trial began with, and has not ended. */
  predicate Backed(s: Sys, r: Rec) {
    && r.id in s.snaps && s.snaps[r.id].files == r.pre && r.pre == s.origin && USER_RULES in r.pre
    && r.id in s.used && !Ended(s.log, r.id)
  }

  /** The record on disk is mem's, possibly still without its post hash. */
  predicate SameTrial(s: Sys, mem: Rec) {
    s.cur.Some? && s.cur.value.id == mem.id && s.cur.value.pre == mem.pre
    && (s.cur.value.post == None || s.cur.value.post == mem.post)
  }

  /** No one else touched the rules: they are as applied, or put back. */
  predicate AsLeft(s: Sys, post: Option<Files>) {
    && s.files.Keys <= s.origin.Keys
    && (post.Some? ==> s.files == post.value || s.files == s.origin)
  }

  predicate PcGood(s: Sys) {
    match s.pc
    case Unlocked => true
    case Snapped(rec, _) =>
      s.cur == None && Backed(s, rec) && rec.post == None && (s.disturbed || s.files == s.origin)
    case Recorded(rec, _) =>
      s.cur == Some(rec) && rec.post == None && (s.disturbed || s.files == s.origin)
    case Applying(rec) => s.cur == Some(rec) && rec.post == None
    case Posted(rec) => SameTrial(s, rec) && (s.disturbed || AsLeft(s, rec.post))
    case Rolling(rec, _) => SameTrial(s, rec) && (s.disturbed || AsLeft(s, rec.post))
    case PutBack(rec, _) => SameTrial(s, rec) && (s.disturbed || s.files == s.origin)
    case Keeping(rec) => s.cur == Some(rec)
  }

  predicate LogGood(log: seq<End>, used: set<Id>) {
    && (forall i, j :: 0 <= i < j < |log| ==> log[i].id != log[j].id)
    && (forall i :: 0 <= i < |log| ==> log[i].id in used)
    && (forall i :: 0 <= i < |log| && log[i].undisturbed && log[i].how != Kept ==> log[i].after == log[i].before)
  }

  /** The invariant. */
  predicate Good(s: Sys) {
    && (s.cur.Some? ==> Backed(s, s.cur.value) && (s.disturbed || AsLeft(s, s.cur.value.post)))
    && PcGood(s)
    && LogGood(s.log, s.used)
  }

  lemma {:induction false} RestoreKeepsGood(s: Sys, rec: Rec, other: bool, restore: Restore)
    requires Good(s) && SameTrial(s, rec) && rec.id in s.snaps && s.pc == Rolling(rec, other)
    ensures Good(RestoreFrom(s, rec, other, restore))
  {
    assert Backed(s, s.cur.value);
    assert !s.disturbed ==> Overlay(s.files, s.origin) == s.origin;
  }

  lemma {:induction false} RollKeepsGood(s: Sys, luck: Luck)
    requires Good(s) && s.pc.Rolling?
    ensures Good(RollStep(s, s.pc.rec, s.pc.other, luck))
  {
    hide RestoreFrom;
    var rec, other := s.pc.rec, s.pc.other;
    if luck.loads && rec.id in s.snaps {
      match BranchOf(s.files, rec, luck.hashes)
      case CleanUp =>
      case TheirEdit =>
        var reverted := s.(files := luck.revert.files, disturbed := true);
        if luck.revert.risky {
          RestoreKeepsGood(reverted, rec, other, luck.restore);
        }
      case Back => RestoreKeepsGood(s, rec, other, luck.restore);
    }
  }

  lemma {:induction false} EndKeepsGood(s: Sys, id: Id, how: How)
    requires Good(s) && CurId(s) == Some(id)
    requires how == Kept || s.disturbed || s.files == s.origin
    ensures Good(EndTrial(s, id, how))
  {
    var t := EndTrial(s, id, how);
    forall i, j | 0 <= i < j < |t.log|
      ensures t.log[i].id != t.log[j].id
    {
      if j == |s.log| {
        assert s.log[i].id == t.log[i].id;
      }
    }
  }

  lemma {:induction false} PruneKeepsGood(s: Sys, now: int, order: seq<Id>)
    requires Good(s) && s.pc.Unlocked?
    ensures Good(s.(snaps := Pruned(s.snaps, order, CurId(s), now)))
  {
  }

  lemma {:induction false} BeginKeepsGood(s: Sys, e: Event)
    requires Good(s) && (e.Begin? || e.Record?)
    ensures Good(Step(s, e))
  {
  }

  lemma {:induction false} ApplyKeepsGood(s: Sys, e: Event)
    requires Good(s) && (e.Arm? || e.Touch? || e.Post? || e.GoOnTrial? || e.GiveUp?)
    ensures Good(Step(s, e))
  {
    hide EndTrial;
    if e.Arm? && s.pc.Recorded? && !e.saved && e.removed {
      var armed := if e.layer1 then s.timers + {s.pc.rec.id} else s.timers;
      EndKeepsGood(s.(timers := StopLayer1(armed, s.pc.rec.(layer1 := e.layer1))), s.pc.rec.id, Aborted);
    }
  }

  lemma {:induction false} FinishKeepsGood(s: Sys, e: Event)
    requires Good(s) && (e.Roll? || e.Finish? || e.FinishKeep?)
    ensures Good(Step(s, e))
  {
    hide RollStep, EndTrial;
    if e.Roll? && s.pc.Rolling? {
      RollKeepsGood(s, e.luck);
    } else if e.Finish? && s.pc.PutBack? && e.removed {
      var live := if s.pc.other then s.live else StopTimers(s.live, s.pc.rec.id);
      EndKeepsGood(s.(live := live, timers := StopLayer1(s.timers, s.pc.rec)), s.pc.rec.id, RolledBack);
    } else if e.FinishKeep? && s.pc.Keeping? && e.removed {
      EndKeepsGood(s.(live := StopTimers(s.live, s.pc.rec.id)), s.pc.rec.id, Kept);
    }
  }

  lemma {:induction false} PressKeepsGood(s: Sys, e: Event)
    requires Good(s) && (e.StartRollback? || e.StartKeep? || e.Resume?)
    ensures Good(Step(s, e))
  {
    hide LogGood, Ended;
  }

  lemma {:induction false} CrashKeepsGood(s: Sys, e: Event)
    requires Good(s) && (e.CrashAgent? || e.CrashOther? || e.Reboot?)
    ensures Good(Step(s, e))
  {
    hide LogGood, Ended;
  }

  lemma {:induction false} OtherKeepsGood(s: Sys, e: Event)
    requires Good(s) && (e.Expire? || e.Foreign?)
    ensures Good(Step(s, e))
  {
    hide LogGood, Ended;
  }

  /** Every step keeps the invariant, whatever the state it meets. */
  lemma {:induction false} StepKeepsGood(s: Sys, e: Event)
    requires Good(s)
    ensures Good(Step(s, e))
  {
    hide Step, Good, RollStep, NewestFirst;
    if e.Begin? || e.Record? {
      BeginKeepsGood(s, e);
    } else if e.Arm? || e.Touch? || e.Post? || e.GoOnTrial? || e.GiveUp? {
      ApplyKeepsGood(s, e);
    } else if e.Roll? || e.Finish? || e.FinishKeep? {
      FinishKeepsGood(s, e);
    } else if e.Prune? {
      PruneStep(s, e.now, e.order);
      if s.pc.Unlocked? {
        PruneKeepsGood(s, e.now, e.order);
      }
    } else if e.StartRollback? || e.StartKeep? || e.Resume? {
      PressKeepsGood(s, e);
    } else if e.CrashAgent? || e.CrashOther? || e.Reboot? {
      CrashKeepsGood(s, e);
    } else {
      OtherKeepsGood(s, e);
    }
  }

  lemma {:induction false} PruneStep(s: Sys, now: int, order: seq<Id>)
    ensures Step(s, Prune(now, order)) ==
            if !s.pc.Unlocked? || !NewestFirst(s.snaps, order) then s else s.(snaps := Pruned(s.snaps, order, CurId(s), now))
  {
  }

  /** A system no trial has run on yet. */
  predicate Fresh(s: Sys) {
    s.cur == None && s.pc == Unlocked && s.log == []
  }

  lemma {:induction false} FreshIsGood(s: Sys)
    requires Fresh(s)
    ensures Good(s)
  {
  }

  lemma {:induction false} RunsAreGood(s: Sys, events: seq<Event>)
    requires Good(s)
    ensures Good(Run(s, events))
    decreases |events|
  {
    hide Good, Step;
    if events != [] {
      RunsAreGood(s, events[..|events| - 1]);
      StepKeepsGood(Run(s, events[..|events| - 1]), events[|events| - 1]);
    }
  }

  /** Rolling back a trial that is not the pending one changes nothing. */
  lemma {:induction false} StaleRollback(s: Sys, id: Id, other: bool, luck: Luck, removed: bool)
    ensures s.pc.Unlocked? && CurId(s) != Some(id) ==>
              Step(Step(Step(s, StartRollback(id, other)), Roll(luck)), Finish(removed)) == s
  {
    hide RollStep;
  }

  lemma {:induction false} PutBackFiles(s: Sys)
    requires Good(s) && s.pc.PutBack? && !s.disturbed
    ensures s.files == s.origin
  {
  }

  lemma {:induction false} ResumeIs(s: Sys, now: int)
    ensures Step(s, Resume(now)) ==
            if !s.pc.Unlocked? || s.cur.None? then s
            else if now >= s.cur.value.deadline then s.(pc := Rolling(s.cur.value, false))
            else s.(live := Some(s.cur.value.id))
  {
  }

  lemma {:induction false} NothingToRoll(s: Sys, luck: Luck, removed: bool)
    ensures s.pc.Unlocked? ==> Step(Step(s, Roll(luck)), Finish(removed)) == s
  {
    hide RollStep;
  }
}
