/** What holds over every run of trials: the rules are always backed, a trial ends once, and what
    each way of ending it leaves. */
module TrialRuns {
  import opened RuleModel
  import opened Trial

  /** Over every run, any rollback that succeeds, undisturbed by foreign edits, puts the files back to
      what they were when the trial began. */
  lemma {:induction false} RollbackPutsBack(s: Sys, events: seq<Event>, luck: Luck)
    requires Fresh(s)
    requires var t := Run(s, events); t.pc.Rolling? && !t.disturbed && Step(t, Roll(luck)).pc.PutBack?
    ensures var t := Run(s, events); var u := Step(t, Roll(luck));
            u.files == t.origin && t.pc.rec.id in t.snaps && u.files == t.snaps[t.pc.rec.id].files
  {
    hide Step, RollStep, Good;
    FreshIsGood(s);
    RunsAreGood(s, events);
    var t := Run(s, events);
    StepKeepsGood(t, Roll(luck));
    RollOf(t, luck);
    RollEffect(t, t.pc.rec, t.pc.other, luck);
    OwnRollback(t, luck);
    PutBackFiles(Step(t, Roll(luck)));
    RollingFacts(t);
  }

  /** Writing the snapshot back gives its files exactly when no rule file appeared that the
      snapshot does not have. */
  lemma {:induction false} OverlayIsExact(files: Files, snap: Files)
    ensures Overlay(files, snap) == snap <==> files.Keys <= snap.Keys
  {
    if Overlay(files, snap) == snap {
      assert files.Keys <= Overlay(files, snap).Keys;
    }
  }

  /** Each trial ends at most once, by Keep or by rollback, never both; and one that was not
      kept and not disturbed left the files as they were. */
  lemma {:induction false} EachTrialEndsOnce(s: Sys, events: seq<Event>)
    requires Fresh(s)
    ensures var log := Run(s, events).log;
            && (forall i, j :: 0 <= i < j < |log| ==> log[i].id != log[j].id)
            && (forall i :: 0 <= i < |log| && log[i].undisturbed && log[i].how != Kept ==> log[i].after == log[i].before)
  {
    hide Step;
    RunsAreGood(s, events);
  }

  /** An ended trial stays ended: its end is never rewritten, and it is never on disk again. */
  lemma {:induction false} EndsAreFinal(s: Sys, events: seq<Event>, i: nat)
    requires Good(s) && i < |s.log|
    ensures var t := Run(s, events); i < |t.log| && t.log[i] == s.log[i] && CurId(t) != Some(s.log[i].id)
    decreases |events|
  {
    hide Step;
    RunsAreGood(s, events);
    if events != [] {
      EndsAreFinal(s, events[..|events| - 1], i);
      LogGrows(Run(s, events[..|events| - 1]), events[|events| - 1]);
    }
    var t := Run(s, events);
    assert Ended(t.log, s.log[i].id);
  }

  lemma {:induction false} LogGrows(s: Sys, e: Event)
    ensures |s.log| <= |Step(s, e).log| && Step(s, e).log[..|s.log|] == s.log
  {
    hide RollStep;
    if e.Roll? && s.pc.Rolling? {
      RollEffect(s, s.pc.rec, s.pc.other, e.luck);
    }
  }

  /** Once a trial has ended, its buttons and its timers change nothing, at any point of any run. */
  lemma {:induction false} StaleIdDoesNothing(s: Sys, events: seq<Event>, i: nat, other: bool, seen: bool, committed: bool)
    requires Good(s) && i < |s.log|
    ensures var t, id := Run(s, events), s.log[i].id;
            && Step(t, StartRollback(id, other)) == t
            && Step(t, StartKeep(id, seen, committed)) == t
  {
    hide Run, Good;
    EndsAreFinal(s, events, i);
  }

  /** After a crash between putting the files back and removing the record, the next rollback
      only cleans up: it changes no rule file. */
  lemma {:induction false} CrashAfterRestoreLeavesCleanUp(s: Sys, luck: Luck, other: bool)
    requires Good(s) && s.pc.PutBack? && !s.disturbed && luck.loads && luck.hashes
    ensures var events := [if s.pc.other then CrashOther else CrashAgent, StartRollback(s.pc.rec.id, other), Roll(luck)];
            var t := Run(s, events);
            t.pc.PutBack? && t.files == s.files && t.cur == s.cur && !t.disturbed
  {
    hide RollStep, Good;
    var crash := if s.pc.other then CrashOther else CrashAgent;
    var start, rec := StartRollback(s.pc.rec.id, other), s.pc.rec;
    ThreeSteps(s, crash, start, Roll(luck));
    PutBackFacts(s);
    var a := Step(s, crash);
    assert a == s.(live := a.live, pc := Unlocked);
    StartRollbackIs(a, rec.id, other);
    var b := Step(a, start);
    RollOf(b, luck);
    CleanUpOnly(b, b.pc.rec, other, luck);
  }

  lemma {:induction false} PutBackFacts(s: Sys)
    requires Good(s) && s.pc.PutBack? && !s.disturbed
    ensures CurId(s) == Some(s.pc.rec.id) && s.files == s.cur.value.pre && s.cur.value.id in s.snaps
  {
  }

  lemma {:induction false} CleanUpOnly(s: Sys, rec: Rec, other: bool, luck: Luck)
    requires luck.loads && luck.hashes && s.files == rec.pre && rec.id in s.snaps
    ensures RollStep(s, rec, other, luck) == s.(pc := PutBack(rec, other))
  {
  }

  /** Whoever holds the lock while a trial is pending works on that trial. */
  lemma {:induction false} HeldRecord(s: Sys)
    requires Good(s) && s.cur.Some? && !s.pc.Unlocked?
    ensures !s.pc.Snapped? && s.pc.rec.id == s.cur.value.id && s.pc.rec.pre == s.cur.value.pre
  {
    hide LogGood;
  }

  /** The pending trial's record is as it was, or its end has just been logged. */
  predicate OnRecord(s: Sys, t: Sys) {
    if t.cur.Some? then t.log == s.log && s.cur.Some? && t.cur.value.id == s.cur.value.id && t.cur.value.pre == s.cur.value.pre
    else |t.log| == |s.log| + 1 && s.cur.Some? && t.log[|s.log|].id == s.cur.value.id
  }

  predicate Held(s: Sys) {
    s.cur.Some? && (!s.pc.Unlocked? ==> !s.pc.Snapped? && s.pc.rec.id == s.cur.value.id && s.pc.rec.pre == s.cur.value.pre)
  }

  lemma {:induction false} ChangeOnRecord(s: Sys, e: Event)
    requires Held(s) && (e.Begin? || e.Record? || e.Arm? || e.Touch? || e.Post? || e.GoOnTrial? || e.GiveUp?)
    ensures OnRecord(s, Step(s, e))
  {
  }

  lemma {:induction false} EndOnRecord(s: Sys, e: Event)
    requires Held(s) && (e.Roll? || e.Finish? || e.FinishKeep?)
    ensures OnRecord(s, Step(s, e))
  {
    hide RollStep, StopLayer1, StopTimers;
    if e.Roll? && s.pc.Rolling? {
      RollEffect(s, s.pc.rec, s.pc.other, e.luck);
    }
  }

  lemma {:induction false} PressOnRecord(s: Sys, e: Event)
    requires Held(s) && (e.StartRollback? || e.StartKeep? || e.Resume? || e.Prune?)
    ensures OnRecord(s, Step(s, e))
  {
    hide NewestFirst, Pruned, StopLayer1;
  }

  lemma {:induction false} OutsideOnRecord(s: Sys, e: Event)
    requires Held(s) && (e.Expire? || e.Foreign? || e.CrashAgent? || e.CrashOther? || e.Reboot?)
    ensures OnRecord(s, Step(s, e))
  {
    hide StopTimers;
  }

  lemma {:induction false} StepOnRecord(s: Sys, e: Event)
    requires Held(s)
    ensures OnRecord(s, Step(s, e))
  {
    hide Step, Held, OnRecord;
    if e.Begin? || e.Record? || e.Arm? || e.Touch? || e.Post? || e.GoOnTrial? || e.GiveUp? {
      ChangeOnRecord(s, e);
    } else if e.Roll? || e.Finish? || e.FinishKeep? {
      EndOnRecord(s, e);
    } else if e.StartRollback? || e.StartKeep? || e.Resume? || e.Prune? {
      PressOnRecord(s, e);
    } else {
      OutsideOnRecord(s, e);
    }
  }

  /** One step ends a pending trial or leaves its record in place. */
  lemma {:induction false} StepKeepsRecord(s: Sys, e: Event)
    requires Good(s) && s.cur.Some?
    ensures var t, id := Step(s, e), s.cur.value.id;
            if Ended(t.log, id) then t.cur == None
            else t.cur.Some? && t.cur.value.id == id && t.cur.value.pre == s.cur.value.pre
  {
    hide Step, Good;
    PendingHasNotEnded(s);
    if !s.pc.Unlocked? {
      HeldRecord(s);
    }
    StepOnRecord(s, e);
  }

  /** Over every run, whatever fails in it: the record of a pending trial is there, with its id and
      the files it began with, exactly until the trial has ended. */
  lemma {:induction false} FailureKeepsRecord(s: Sys, events: seq<Event>)
    requires Good(s) && s.cur.Some?
    ensures var t, id := Run(s, events), s.cur.value.id;
            && (CurId(t) == Some(id) <==> !Ended(t.log, id))
            && (CurId(t) == Some(id) ==> t.cur.value.pre == s.cur.value.pre)
    decreases |events|
  {
    hide Step, Good;
    if events == [] {
      PendingHasNotEnded(s);
    } else {
      var before, e := events[..|events| - 1], events[|events| - 1];
      var u := Run(s, before);
      FailureKeepsRecord(s, before);
      RunsAreGood(s, before);
      RunsAreGood(s, events);
      if CurId(u) == Some(s.cur.value.id) {
        StepKeepsRecord(u, e);
      } else {
        LogGrows(u, e);
        EndedStays(u.log, Step(u, e).log, s.cur.value.id);
        EndedIsNotPending(Step(u, e), s.cur.value.id);
      }
    }
  }

  lemma {:induction false} PendingHasNotEnded(s: Sys)
    requires Good(s) && s.cur.Some?
    ensures !Ended(s.log, s.cur.value.id)
  {
  }

  lemma {:induction false} EndedIsNotPending(s: Sys, id: Id)
    requires Good(s) && Ended(s.log, id)
    ensures CurId(s) != Some(id)
  {
  }

  lemma {:induction false} EndedStays(log: seq<End>, more: seq<End>, id: Id)
    requires |log| <= |more| && more[..|log|] == log && Ended(log, id)
    ensures Ended(more, id)
  {
    var i :| 0 <= i < |log| && log[i].id == id;
    assert more[i] == log[i];
  }

  /** A pending trial can always be taken back: when nothing fails, three steps end it with
      the files it began with. */
  lemma {:induction false} PendingTrialCanBeUndone(s: Sys, revert: Revert)
    requires Good(s) && s.pc.Unlocked? && s.cur.Some? && !s.disturbed
    ensures var events := [StartRollback(s.cur.value.id, false), Roll(Luck(true, true, revert, Done)), Finish(true)];
            var t := Run(s, events);
            t.cur == None && t.pc == Unlocked && t.files == s.origin && Ended(t.log, s.cur.value.id)
  {
    hide RollStep, Good;
    var luck := Luck(true, true, revert, Done);
    var start, roll, finish := StartRollback(s.cur.value.id, false), Roll(luck), Finish(true);
    ThreeSteps(s, start, roll, finish);
    StartRollbackIs(s, s.cur.value.id, false);
    var a := Step(s, start);
    RollOf(a, luck);
    PendingRollsBack(s, a, revert);
    RollEffect(a, s.cur.value, false, luck);
    var b := Step(a, roll);
    FinishIs(b, true);
    var t := Step(b, finish);
    assert t.log[|b.log|].id == s.cur.value.id;
  }

  /** The systemd process goes on when the agent crashes: its rollback, with no failure of its own, ends
      the trial with the files it began with. */
  lemma {:induction false} SystemdOutlivesTheAgent(s: Sys, luck: Luck)
    requires Good(s) && s.pc.Rolling? && s.pc.other && !s.disturbed && luck.loads && luck.restore == Done
    ensures var t := Run(s, [CrashAgent, Roll(luck), Finish(true)]);
            t.cur == None && t.pc == Unlocked && t.files == s.origin && Ended(t.log, s.pc.rec.id)
  {
    hide RollStep, Good, Step;
    ThreeSteps(s, CrashAgent, Roll(luck), Finish(true));
    CrashSparesOther(s);
    var a := Step(s, CrashAgent);
    StepKeepsGood(s, CrashAgent);
    RollOf(a, luck);
    FaultlessRoll(a, luck);
    RollEffect(a, a.pc.rec, a.pc.other, luck);
    var b := Step(a, Roll(luck));
    FinishIs(b, true);
    var t := Step(b, Finish(true));
    assert t.log[|b.log|].id == s.pc.rec.id;
  }

  lemma {:induction false} CrashSparesOther(s: Sys)
    requires s.pc.Rolling? && s.pc.other
    ensures Step(s, CrashAgent) == s.(live := None)
  {
  }

  lemma {:induction false} PendingRollsBack(s: Sys, a: Sys, revert: Revert)
    requires Good(s) && s.pc.Unlocked? && s.cur.Some? && !s.disturbed && a == s.(pc := Rolling(s.cur.value, false))
    ensures var t := RollStep(a, s.cur.value, false, Luck(true, true, revert, Done));
            t.files == s.origin && t.pc == PutBack(s.cur.value, false)
  {
    assert BranchOf(s.files, s.cur.value, true) != TheirEdit;
    OverlayIsExact(s.files, s.origin);
  }

  // ---- A restore cut in two ----

  /** Restoring pre changes the rule file. */
  predicate Differs(files: Files, pre: Files, name: string) {
    name in pre && (name !in files || files[name] != pre[name])
  }

  /** What a torn restore leaves, by the names of the files. */
  lemma {:induction false} TornIs(files: Files, pre: Files)
    requires USER_RULES in pre && files.Keys <= pre.Keys
    ensures FirstFile(files, pre) != files <==> Differs(files, pre, USER_RULES)
    ensures FirstFile(files, pre) != pre <==> exists k :: k != USER_RULES && Differs(files, pre, k)
  {
    var torn := FirstFile(files, pre);
    if forall k :: k != USER_RULES ==> !Differs(files, pre, k) {
      forall k
        ensures k in torn <==> k in pre
        ensures k in pre ==> torn[k] == pre[k]
      {
        assert !(k != USER_RULES && Differs(files, pre, k));
      }
      assert torn == pre;
    } else {
      var k :| k != USER_RULES && Differs(files, pre, k);
      assert k in pre && (k !in torn || torn[k] != pre[k]);
    }
  }

  /** A restore that crashes between its two writes: the next rollback takes the files for someone
      else's edit if and only if the hash after the change was recorded and the change had touched
      user.rules and the other file too. */
  lemma {:induction false} TornRestoreIsMisread(s: Sys, other: bool, luck: Luck)
    requires Good(s) && s.pc.Unlocked? && !s.disturbed && s.cur.Some? && s.files != s.cur.value.pre
    requires luck.loads && luck.hashes && luck.restore == Torn
    ensures var start, rec := StartRollback(s.cur.value.id, other), s.cur.value;
            var t := Run(s, [start, Roll(luck), start]);
            && t.pc == Rolling(rec, other)
            && (BranchOf(t.files, rec, true) == TheirEdit <==>
                rec.post.Some? && Differs(s.files, rec.pre, USER_RULES)
                && exists k :: k != USER_RULES && Differs(s.files, rec.pre, k))
            && (t.disturbed <==> BranchOf(t.files, rec, true) == TheirEdit)
  {
    hide RollStep, Good, FirstFile;
    var start, rec := StartRollback(s.cur.value.id, other), s.cur.value;
    ThreeSteps(s, start, Roll(luck), start);
    StartRollbackIs(s, rec.id, other);
    var a := Step(s, start);
    RollOf(a, luck);
    PendingFacts(s);
    TearIs(a, rec, other, luck);
    var b := Step(a, Roll(luck));
    StartRollbackIs(b, rec.id, other);
    TornIs(s.files, rec.pre);
  }

  lemma {:induction false} PendingFacts(s: Sys)
    requires Good(s) && s.cur.Some? && !s.disturbed
    ensures var rec := s.cur.value;
            && rec.id in s.snaps && s.snaps[rec.id].files == rec.pre == s.origin && USER_RULES in rec.pre
            && s.files.Keys <= rec.pre.Keys && (rec.post.Some? ==> s.files == rec.post.value || s.files == rec.pre)
  {
  }

  lemma {:induction false} TearIs(s: Sys, rec: Rec, other: bool, luck: Luck)
    requires rec.id in s.snaps && s.snaps[rec.id].files == rec.pre && s.cur == Some(rec)
    requires s.files != rec.pre && (rec.post.Some? ==> s.files == rec.post.value)
    requires luck.loads && luck.hashes && luck.restore == Torn
    ensures RollStep(s, rec, other, luck) ==
            s.(files := FirstFile(s.files, rec.pre), pc := Unlocked,
               disturbed := s.disturbed || BranchOf(FirstFile(s.files, rec.pre), rec, true) == TheirEdit)
    ensures BranchOf(FirstFile(s.files, rec.pre), rec, true) == TheirEdit <==>
            FirstFile(s.files, rec.pre) != rec.pre && rec.post.Some? && FirstFile(s.files, rec.pre) != s.files
  {
    hide FirstFile;
  }

  /** In every other case the next rollback that meets no failure puts the files back. */
  lemma {:induction false} TornRestoreIsFinished(s: Sys, other: bool, torn: Luck, luck: Luck)
    requires Good(s) && s.pc.Unlocked? && !s.disturbed && s.cur.Some? && s.files != s.cur.value.pre
    requires torn.loads && torn.hashes && torn.restore == Torn && luck.loads && luck.restore == Done
    requires var rec := s.cur.value;
             rec.post == None || !Differs(s.files, rec.pre, USER_RULES)
             || forall k :: k != USER_RULES ==> !Differs(s.files, rec.pre, k)
    ensures var start := StartRollback(s.cur.value.id, other);
            var t := Run(s, [start, Roll(torn), start, Roll(luck)]);
            t.files == s.origin && t.pc == PutBack(s.cur.value, other)
  {
    hide RollStep, Good, Step;
    var start, rec := StartRollback(s.cur.value.id, other), s.cur.value;
    var events := [start, Roll(torn), start];
    TornRestoreIsMisread(s, other, torn);
    RunSnoc(s, events, Roll(luck));
    assert events + [Roll(luck)] == [start, Roll(torn), start, Roll(luck)];
    var t := Run(s, events);
    RunsAreGood(s, events);
    SameOrigin(s, other, torn);
    RollOf(t, luck);
    FaultlessRoll(t, luck);
  }

  /** The run that meets the condition: a change of both rule files on trial, from any fresh system that
      has them. */
  function ChangedRun(id: Id, now: int, window: int, layer1: bool, change: Files): seq<Event> {
    [Begin(id, now, window, false), Record(true), Arm(layer1, true, true), Touch(change), Post(true, true), GoOnTrial]
  }

  /** The change is under way: its record is on disk and no rule file is changed yet. */
  predicate UnderWay(s: Sys, id: Id, pre: Files) {
    && s.pc.Applying? && s.cur == Some(s.pc.rec) && !s.disturbed
    && s.pc.rec.id == id && s.pc.rec.pre == pre && s.pc.rec.post == None
  }

  lemma {:induction false} TakenIsUnderWay(s: Sys, id: Id, now: int, window: int, layer1: bool)
    requires Fresh(s) && id !in s.used && USER_RULES in s.files
    ensures UnderWay(Run(s, [Begin(id, now, window, false), Record(true), Arm(layer1, true, true)]), id, s.files)
  {
    var rec := Rec(id, s.files, None, now + window, false, false);
    ThreeSteps(s, Begin(id, now, window, false), Record(true), Arm(layer1, true, true));
    var a := Step(s, Begin(id, now, window, false));
    assert a.pc == Snapped(rec, now) && !a.disturbed;
    RecordIs(a);
    ArmIs(Step(a, Record(true)), layer1, true, true);
  }

  lemma {:induction false} RecordIs(s: Sys)
    requires s.pc.Snapped?
    ensures Step(s, Record(true)) == s.(cur := Some(s.pc.rec), pc := Recorded(s.pc.rec, s.pc.start))
  {
  }

  lemma {:induction false} GoesOnTrial(s: Sys, id: Id, pre: Files, change: Files)
    requires UnderWay(s, id, pre) && change.Keys <= pre.Keys
    ensures var t := Step(Step(Step(s, Touch(change)), Post(true, true)), GoOnTrial);
            && t.pc.Unlocked? && !t.disturbed && t.files == change
            && t.cur.Some? && t.cur.value.id == id && t.cur.value.pre == pre && t.cur.value.post == Some(change)
  {
    var a := Step(s, Touch(change));
    assert a.pc == s.pc && a.files == change && !a.disturbed;
    var b := Step(a, Post(true, true));
    assert b == a.(cur := Some(s.pc.rec.(post := Some(change))), pc := Posted(s.pc.rec.(post := Some(change))));
  }

  lemma {:induction false} ChangedRunIs(s: Sys, id: Id, now: int, window: int, layer1: bool, change: Files)
    requires Fresh(s) && id !in s.used && USER_RULES in s.files && change.Keys <= s.files.Keys
    ensures var t := Run(s, ChangedRun(id, now, window, layer1, change));
            && Good(t) && t.pc.Unlocked? && !t.disturbed && t.files == change
            && t.cur.Some? && t.cur.value.id == id && t.cur.value.pre == s.files && t.cur.value.post == Some(change)
  {
    hide Good, Run, Step, UnderWay, Fresh;
    var events := ChangedRun(id, now, window, layer1, change);
    RunsAreGoodFromFresh(s, events);
    TakenIsUnderWay(s, id, now, window, layer1);
    assert events[..3] == [Begin(id, now, window, false), Record(true), Arm(layer1, true, true)];
    GoesOnTrial(Run(s, events[..3]), id, s.files, change);
    assert events[..3] + [events[3]] == events[..4] && events[..4] + [events[4]] == events[..5];
    assert events[..5] + [events[5]] == events;
    RunSnoc(s, events[..3], events[3]);
    RunSnoc(s, events[..4], events[4]);
    RunSnoc(s, events[..5], events[5]);
  }

  lemma {:induction false} RunsAreGoodFromFresh(s: Sys, events: seq<Event>)
    requires Fresh(s)
    ensures Good(Run(s, events))
  {
    hide Good, Run;
    FreshIsGood(s);
    RunsAreGood(s, events);
  }

  /** After it a torn rollback is taken for an edit by the next one. */
  lemma {:induction false} MisreadHappens(s: Sys, id: Id, now: int, window: int, layer1: bool, change: Files, other: bool, luck: Luck)
    requires Fresh(s) && id !in s.used && change.Keys <= s.files.Keys
    requires Differs(change, s.files, USER_RULES) && Differs(change, s.files, USER6_RULES)
    requires luck.loads && luck.hashes && luck.restore == Torn
    ensures var t := Run(s, ChangedRun(id, now, window, layer1, change));
            var u := Run(t, [StartRollback(id, other), Roll(luck), StartRollback(id, other)]);
            u.pc.Rolling? && u.pc.rec.id == id && BranchOf(u.files, u.pc.rec, true) == TheirEdit
  {
    hide Run, Good, FirstFile, BranchOf;
    ChangedRunIs(s, id, now, window, layer1, change);
    TornRestoreIsMisread(Run(s, ChangedRun(id, now, window, layer1, change)), other, luck);
    assert USER6_RULES != USER_RULES;
  }

  lemma {:induction false} SameOrigin(s: Sys, other: bool, luck: Luck)
    requires s.pc.Unlocked? && s.cur.Some?
    ensures var start := StartRollback(s.cur.value.id, other);
            Run(s, [start, Roll(luck), start]).origin == s.origin
  {
    hide RollStep;
    var start, rec := StartRollback(s.cur.value.id, other), s.cur.value;
    ThreeSteps(s, start, Roll(luck), start);
    StartRollbackIs(s, rec.id, other);
    var a := Step(s, start);
    RollOf(a, luck);
    RollEffect(a, rec, other, luck);
  }

  /** A rollback that meets no failure succeeds, from any point no one else disturbed. */
  lemma {:induction false} FaultlessRoll(s: Sys, luck: Luck)
    requires Good(s) && s.pc.Rolling? && !s.disturbed && luck.loads && luck.restore == Done
    ensures var t := RollStep(s, s.pc.rec, s.pc.other, luck);
            t.files == s.origin && t.pc == PutBack(s.pc.rec, s.pc.other)
  {
    OverlayIsExact(s.files, s.origin);
  }

  lemma {:induction false} RollingFacts(s: Sys)
    requires Good(s) && s.pc.Rolling?
    ensures s.pc.rec.id in s.snaps && s.snaps[s.pc.rec.id].files == s.origin
  {
  }

  lemma {:induction false} OwnRollback(s: Sys, luck: Luck)
    requires Good(s) && s.pc.Rolling? && !s.disturbed
    ensures BranchOf(s.files, s.pc.rec, luck.hashes) != TheirEdit
    ensures Step(s, Roll(luck)).pc.PutBack? ==> !Step(s, Roll(luck)).disturbed
  {
  }

  // ---- Runs nobody else disturbs ----

  /** The event, met in s, is no one else's edit, creates no rule file, and is no restore cut in two
      that would be taken for an edit. */
  predicate Calm(s: Sys, e: Event) {
    && !e.Foreign?
    && (e.Touch? && s.pc.Applying? ==> e.files.Keys <= s.pc.rec.pre.Keys)
    && (e.Roll? && s.pc.Rolling? && e.luck.restore == Torn && s.pc.rec.id in s.snaps ==>
          !Misread(FirstFile(s.files, s.snaps[s.pc.rec.id].files), s.cur))
  }

  ghost predicate CalmRun(s: Sys, events: seq<Event>) {
    forall i :: 0 <= i < |events| ==> Calm(Run(s, events[..i]), events[i])
  }

  lemma {:induction false} CalmStep(s: Sys, e: Event)
    requires Good(s) && !s.disturbed && Calm(s, e)
    ensures !Step(s, e).disturbed
  {
    hide RollStep, Good;
    if e.Roll? && s.pc.Rolling? {
      RollOf(s, e.luck);
      CalmRoll(s, e.luck);
    }
  }

  lemma {:induction false} CalmRoll(s: Sys, luck: Luck)
    requires Good(s) && s.pc.Rolling? && !s.disturbed && Calm(s, Roll(luck))
    ensures !RollStep(s, s.pc.rec, s.pc.other, luck).disturbed
  {
    hide FirstFile, Misread, LogGood;
    OwnBranch(s, luck);
  }

  lemma {:induction false} OwnBranch(s: Sys, luck: Luck)
    requires Good(s) && s.pc.Rolling? && !s.disturbed
    ensures BranchOf(s.files, s.pc.rec, luck.hashes) != TheirEdit
  {
    hide LogGood;
  }

  lemma {:induction false} CalmRunsAreUndisturbed(s: Sys, events: seq<Event>)
    requires Good(s) && !s.disturbed && CalmRun(s, events)
    ensures !Run(s, events).disturbed
    decreases |events|
  {
    hide Step, Good, Calm;
    if events != [] {
      var before := events[..|events| - 1];
      forall i | 0 <= i < |before|
        ensures Calm(Run(s, before[..i]), before[i])
      {
        assert before[..i] == events[..i];
      }
      CalmRunsAreUndisturbed(s, before);
      RunsAreGood(s, before);
      CalmStep(Run(s, before), events[|events| - 1]);
    }
  }

  /** Over every run without a foreign edit, a rule file created or a misread tear, whatever crashes
      and fails in it: a rollback never takes the foreign-edit path, and one that succeeds leaves
      the files the trial began with. */
  lemma {:induction false} UndisturbedRollback(s: Sys, events: seq<Event>, luck: Luck)
    requires Fresh(s) && !s.disturbed && CalmRun(s, events) && Run(s, events).pc.Rolling?
    ensures var t := Run(s, events);
            && BranchOf(t.files, t.pc.rec, luck.hashes) != TheirEdit
            && (Step(t, Roll(luck)).pc.PutBack? ==> Step(t, Roll(luck)).files == t.origin)
  {
    hide Step, Good, Run, CalmRun;
    FreshIsGood(s);
    CalmRunsAreUndisturbed(s, events);
    RunsAreGood(s, events);
    OwnRollback(Run(s, events), luck);
    if Step(Run(s, events), Roll(luck)).pc.PutBack? {
      RollbackPutsBack(s, events, luck);
    }
  }
}
