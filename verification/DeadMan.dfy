/** The dead-man switch as code: the locked operations on the trial's files, each proved to be
    a run of the state machine of module Trial. */
module DeadMan {
  import opened RuleModel
  import opened Trial

  /** Where a test hook may crash the agent while it applies a change. */
  datatype CrashPoint = NoCrash | AfterSnapshot | AfterRecord | AfterLayer1 | AfterApply | AfterPost

  /** What one runTrial meets outside itself. writes are the rule files after each command of
      the plan that ran; applied: none of them failed. */
  datatype Outside = Outside(
    id: Id, now: int, window: int, evidence: bool, order: seq<Id>,
    prepared: bool, snapshotTaken: bool, recorded: bool,
    layer1: bool, recordedAgain: bool, recordRemoved: bool,
    writes: seq<Files>, applied: bool,
    hashed: bool, postSaved: bool, verified: bool,
    luck: Luck, removed: bool,
    crash: CrashPoint)

  datatype TrialResult = Pending | Refused | NotStarted | OnTrial | ChangeFailed | Crashed

  datatype KeepResult = TrialGone | NoEvidence | KeepFailed | NowKept

  datatype RollbackResult = Gone | Failed | Reverted

  /** No event is someone else's. */
  ghost predicate OwnEvents(trace: seq<Event>) {
    forall i :: 0 <= i < |trace| ==> !trace[i].Foreign?
  }

  /** No command creates a rule file. */
  predicate NoneCreated(writes: seq<Files>, files: Files) {
    forall i :: 0 <= i < |writes| ==> writes[i].Keys <= files.Keys
  }

  /** The records run out at the same time and ask for the same evidence. */
  predicate SameTerms(a: Rec, b: Rec) {
    a.deadline == b.deadline && a.layer1 == b.layer1 && a.evidence == b.evidence
  }

  lemma {:induction false} AppliedIs(files: Files, writes: seq<Files>, before: Files)
    requires files == if writes == [] then before else writes[|writes| - 1]
    ensures NoneCreated(writes, before) ==> files.Keys <= before.Keys
  {
  }

  class Switch {
    var files: Files
    var cur: Option<Rec>
    var snaps: map<Id, Snap>
    var live: Option<Id>
    var timers: set<Id>

    // History and the trial lock, for the proofs.
    ghost var pc: Pc
    ghost var origin: Files
    ghost var disturbed: bool
    ghost var used: set<Id>
    ghost var log: seq<End>

    constructor (files: Files)
      ensures this.files == files && Fresh(S()) && Good(S())
    {
      this.files := files;
      cur, snaps, live, timers := None, map[], None, {};
      pc, origin, disturbed, used, log := Unlocked, files, false, {}, [];
    }

    /** The record on disk and its snapshot hold the files before the change. */
    predicate OnDisk(id: Id, before: Files)
      reads this
    {
      cur.Some? && cur.value.id == id && cur.value.pre == before && id in snaps && snaps[id].files == before
    }

    ghost function S(): Sys
      reads this
    {
      Sys(files, cur, snaps, live, timers, pc, origin, disturbed, used, log)
    }

    /** The history part of a step. */
    ghost method Note(next: Sys)
      modifies this`pc, this`origin, this`disturbed, this`used, this`log
      ensures pc == next.pc && origin == next.origin
      ensures disturbed == next.disturbed && used == next.used && log == next.log
    {
      pc, origin, disturbed, used, log := next.pc, next.origin, next.disturbed, next.used, next.log;
    }

    /** pruneSnapshots: old snapshots go, except the pending one and the newest few. */
    method PruneSnapshots(keep: Option<Id>, now: int, order: seq<Id>)
      requires NewestFirst(snaps, order)
      modifies this`snaps
      ensures snaps == Pruned(old(snaps), order, keep, now)
      ensures forall id :: id in snaps ==> id in old(snaps) && snaps[id] == old(snaps)[id]
      ensures forall i :: 0 <= i < |order| ==>
                (order[i] in snaps <==> Some(order[i]) == keep || i < 5 || now - old(snaps)[order[i]].at <= 24 * 60 * 60)
    {
      ghost var before := snaps;
      ghost var gone: set<Id> := {};
      for i := 0 to |order|
        invariant snaps == before - gone
        invariant forall id :: id in gone <==> exists k :: 0 <= k < i && Stale(before, order, keep, now, k) && order[k] == id
      {
        var id := order[i];
        if Some(id) == keep || i < KEEP_SNAPSHOTS {
          continue;
        }
        if now - snaps[id].at > KEEP_SECONDS {
          snaps := snaps - {id};
          gone := gone + {id};
        }
      }
      assert gone == set k | 0 <= k < |order| && Stale(before, order, keep, now, k) :: order[k];
    }

    method StopTrialTimers(id: Id)
      modifies this`live
      ensures live == StopTimers(old(live), id)
    {
      if live == Some(id) {
        live := None;
      }
    }

    /** stopLayer1; that the timer is stopped for certain is the worst case. */
    method StopSystemdTimer(rec: Rec)
      modifies this`timers
      ensures timers == StopLayer1(old(timers), rec)
    {
      if rec.layer1 {
        timers := timers - {rec.id};
      }
    }

    /** Writes the snapshot's files, one after the other, and reloads. */
    method RestoreFiles(snap: Files, restore: Restore) returns (ok: bool)
      modifies this`files
      ensures ok <==> restore == Done
      ensures files == match restore
                       case WriteFails => old(files)
                       case Torn => FirstFile(old(files), snap)
                       case _ => Overlay(old(files), snap)
    {
      if restore.WriteFails? {
        return false;
      }
      if restore.Torn? {
        if USER_RULES in snap {
          files := files[USER_RULES := snap[USER_RULES]];
        }
        return false;
      }
      files := files + snap;
      return restore.Done?;
    }

    /** rollbackLocked, with the lock held by this process or (other) the timer's. */
    method RollbackLocked(rec: Rec, other: bool, luck: Luck, removed: bool) returns (ok: bool)
      requires pc == Rolling(rec, other)
      modifies this
      ensures S() == Run(old(S()), [Roll(luck), Finish(removed)])
      ensures ok <==> Step(old(S()), Roll(luck)).pc.PutBack?
      ensures !ok ==> cur == old(cur)
    {
      hide Step, RollStep, EndTrial;
      ghost var s0 := S();
      TwoSteps(s0, Roll(luck), Finish(removed));
      RollOf(s0, luck);
      FinishIs(Step(s0, Roll(luck)), removed);
      ok := PutRulesBack(rec, other, luck);
      if ok {
        EndRollback(rec, other, removed);
      }
    }

    /** The part of rollbackLocked that ends the trial: the record goes last. */
    method EndRollback(rec: Rec, other: bool, removed: bool)
      requires pc == PutBack(rec, other)
      modifies this
      ensures S() == Step(old(S()), Finish(removed))
    {
      hide Step;
      ghost var s0 := S();
      FinishIs(s0, removed);
      StopSystemdTimer(rec);
      if !other {
        StopTrialTimers(rec.id);
      }
      if removed {
        cur := None;
      }
      Note(Step(s0, Finish(removed)));
    }

    /** The part of rollbackLocked that touches the rules. */
    method PutRulesBack(rec: Rec, other: bool, luck: Luck) returns (ok: bool)
      requires pc == Rolling(rec, other)
      modifies this
      ensures S() == RollStep(old(S()), rec, other, luck)
      ensures ok <==> pc.PutBack?
      ensures pc == if ok then PutBack(rec, other) else Unlocked
      ensures cur == old(cur) && live == old(live)
      // Without the snapshot nothing happens; at the files before the change there is nothing to write.
      ensures !luck.loads || rec.id !in snaps ==> !ok && files == old(files)
      ensures luck.loads && rec.id in snaps && luck.hashes && old(files) == rec.pre ==> ok && files == old(files)
      // At the files after the change, or when that cannot be told, the snapshot is written back.
      ensures luck.loads && rec.id in snaps && !(luck.hashes && old(files) == rec.pre)
              && !(luck.hashes && rec.post.Some? && old(files) != rec.post.value) ==>
                ok == luck.restore.Done? && (ok ==> files == old(files) + snaps[rec.id].files)
      // Anything else is someone else's edit.
      ensures luck.loads && rec.id in snaps && luck.hashes && old(files) != rec.pre
              && rec.post.Some? && old(files) != rec.post.value ==>
                if luck.revert.risky then ok == luck.restore.Done? && (ok ==> files == luck.revert.files + snaps[rec.id].files)
                else ok && files == luck.revert.files
    {
      hide RestoreFrom;
      if !luck.loads || rec.id !in snaps {
        pc := Unlocked;
        return false;
      }
      if luck.hashes && files == rec.pre {
        pc := PutBack(rec, other);
        return true;
      }
      if luck.hashes && rec.post.Some? && files != rec.post.value {
        // revertForeign
        files := luck.revert.files;
        disturbed := true;
        if luck.revert.risky {
          ok := RestoreSnapshot(rec, other, luck.restore);
          return;
        }
        pc := PutBack(rec, other);
        return true;
      }
      ok := RestoreSnapshot(rec, other, luck.restore);
    }

    method RestoreSnapshot(rec: Rec, other: bool, restore: Restore) returns (ok: bool)
      requires pc == Rolling(rec, other) && rec.id in snaps
      modifies this
      ensures S() == RestoreFrom(old(S()), rec, other, restore)
      ensures ok <==> pc.PutBack?
      ensures ok == restore.Done? && (ok ==> files == old(files) + snaps[rec.id].files) && snaps == old(snaps)
      ensures pc == if ok then PutBack(rec, other) else Unlocked
      ensures cur == old(cur) && live == old(live)
    {
      ghost var next := RestoreFrom(S(), rec, other, restore);
      ok := RestoreFiles(snaps[rec.id].files, restore);
      Note(next);
    }

    /** keepTrial: Keep pressed on trial id. */
    method KeepTrial(id: Id, seen: bool, committed: bool, removed: bool) returns (r: KeepResult)
      requires pc.Unlocked?
      modifies this
      ensures S() == Run(old(S()), [StartKeep(id, seen, committed), FinishKeep(removed)])
      ensures r == (if CurId(old(S())) != Some(id) then TrialGone
                    else if old(cur).value.evidence && !seen then NoEvidence
                    else if !committed || !removed then KeepFailed else NowKept)
      ensures files == old(files) && snaps == old(snaps)
      ensures r != NowKept ==> cur == old(cur) && live == old(live)
      ensures timers == if r.NowKept? || r.KeepFailed? then StopLayer1(old(timers), old(cur).value) else old(timers)
    {
      hide Step, Run, StopLayer1, StopTimers;
      ghost var s0 := S();
      KeepIs(s0, id, seen, committed, removed);
      if cur.None? || cur.value.id != id {
        return TrialGone;
      }
      var rec := cur.value;
      if rec.evidence && !seen {
        return NoEvidence;
      }
      StopSystemdTimer(rec);
      if !committed {
        return KeepFailed;
      }
      if !removed {
        return KeepFailed;
      }
      cur := None;
      StopTrialTimers(id);
      Note(Run(s0, [StartKeep(id, seen, committed), FinishKeep(removed)]));
      return NowKept;
    }

    /** The shared part of every rollback that starts from a trial id. */
    method RollbackIfPending(id: Id, other: bool, luck: Luck, removed: bool) returns (r: RollbackResult)
      requires pc.Unlocked?
      modifies this
      ensures S() == Run(old(S()), [StartRollback(id, other), Roll(luck), Finish(removed)])
      ensures r == Gone <==> CurId(old(S())) != Some(id)
      ensures r == Gone ==> S() == old(S())
      ensures r == Failed ==> cur == old(cur)
      ensures Good(old(S())) && r == Reverted && !disturbed && !old(disturbed) ==> files == old(origin)
    {
      hide Step, RollStep, Good;
      ghost var s0 := S();
      ThreeSteps(s0, StartRollback(id, other), Roll(luck), Finish(removed));
      StaleRollback(s0, id, other, luck, removed);
      if cur.None? || cur.value.id != id {
        return Gone;
      }
      StartRollbackIs(s0, id, other);
      ghost var s1 := Step(s0, StartRollback(id, other));
      pc := Rolling(cur.value, other);
      assert S() == s1;
      TwoSteps(s1, Roll(luck), Finish(removed));
      var ok := RollbackLocked(cur.value, other, luck, removed);
      RollOf(s1, luck);
      RollEffect(s1, s1.pc.rec, other, luck);
      FinishIs(Step(s1, Roll(luck)), removed);
      if Good(s0) && ok && !disturbed {
        StepKeepsGood(s0, StartRollback(id, other));
        StepKeepsGood(s1, Roll(luck));
        PutBackFiles(Step(s1, Roll(luck)));
      }
      return if ok then Reverted else Failed;
    }

    /** rollbackTrial: Roll back pressed on trial id. */
    method RollbackTrial(id: Id, luck: Luck, removed: bool) returns (r: RollbackResult)
      requires pc.Unlocked?
      modifies this
      ensures S() == Run(old(S()), [StartRollback(id, false), Roll(luck), Finish(removed)])
      ensures r == Gone ==> S() == old(S())
      ensures r == Failed ==> cur == old(cur)
    {
      r := RollbackIfPending(id, false, luck, removed);
    }

    /** autoRollback: layer 2, in this process. */
    method AutoRollback(id: Id, luck: Luck, removed: bool)
      requires pc.Unlocked?
      modifies this
      ensures S() == Run(old(S()), [Expire(id, false), StartRollback(id, false), Roll(luck), Finish(removed)])
      ensures CurId(old(S())) != Some(id) ==> files == old(files) && cur == old(cur) && live == StopTimers(old(live), id)
    {
      hide RollStep;
      ghost var s0 := S();
      FourSteps(s0, Expire(id, false), StartRollback(id, false), Roll(luck), Finish(removed));
      StopTrialTimers(id);
      ghost var s1 := Step(s0, Expire(id, false));
      assert S() == s1;
      ThreeSteps(s1, StartRollback(id, false), Roll(luck), Finish(removed));
      var r := RollbackIfPending(id, false, luck, removed);
      if r.Gone? {
        StopTrialTimers(id);
      }
    }

    /** RunFwRollback: layer 1, run by the systemd timer in its own process. It reports
        success only when the trial is over. */
    method RunFwRollback(id: Id, luck: Luck, removed: bool) returns (ok: bool)
      requires pc.Unlocked?
      modifies this
      ensures S() == Run(old(S()), [Expire(id, true), StartRollback(id, true), Roll(luck), Finish(removed)])
      ensures ok && CurId(old(S())) == Some(id) ==> cur == None
      ensures CurId(old(S())) != Some(id) ==> ok && S() == Step(old(S()), Expire(id, true))
    {
      hide RollStep;
      ghost var s0 := S();
      FourSteps(s0, Expire(id, true), StartRollback(id, true), Roll(luck), Finish(removed));
      timers := timers - {id};
      ghost var s1 := Step(s0, Expire(id, true));
      assert S() == s1;
      ThreeSteps(s1, StartRollback(id, true), Roll(luck), Finish(removed));
      var r := RollbackIfPending(id, true, luck, removed);
      return r.Gone? || cur.None?;
    }

    /** reconcileFwTrial: layer 3, at startup. A trial past its deadline is rolled back, any
        other gets its timer again. */
    method Reconcile(now: int, order: seq<Id>, luck: Luck, removed: bool)
      requires pc.Unlocked? && NewestFirst(snaps, order)
      modifies this
      ensures S() == Run(old(S()), [Prune(now, order), Resume(now), Roll(luck), Finish(removed)])
      ensures old(cur).Some? && now < old(cur).value.deadline ==> live == Some(old(cur).value.id) && cur == old(cur)
    {
      hide Step, RollStep, Pruned, NewestFirst;
      ghost var s0 := S();
      FourSteps(s0, Prune(now, order), Resume(now), Roll(luck), Finish(removed));
      PruneStep(s0, now, order);
      PruneSnapshots(if cur.Some? then Some(cur.value.id) else None, now, order);
      ghost var s1 := Step(s0, Prune(now, order));
      assert S() == s1;
      ResumeIs(s1, now);
      NothingToRoll(Step(s1, Resume(now)), luck, removed);
      if cur.None? {
        return;
      }
      ghost var s2 := Step(s1, Resume(now));
      if now >= cur.value.deadline {
        pc := Rolling(cur.value, false);
        TwoSteps(s2, Roll(luck), Finish(removed));
        var ok := RollbackLocked(cur.value, false, luck, removed);
        return;
      }
      live := Some(cur.value.id);
    }

    // The steps of runTrial, each one event.

    method TakeSnapshot(o: Outside) returns (rec: Rec)
      requires pc.Unlocked? && cur.None? && o.id !in used && USER_RULES in files
      modifies this
      ensures S() == Step(old(S()), Begin(o.id, o.now, o.window, o.evidence))
      ensures files == old(files) && cur == None && snaps == old(snaps)[o.id := Snap(files, o.now)]
      ensures rec == Rec(o.id, files, None, o.now + o.window, false, o.evidence) && pc == Snapped(rec, o.now)
    {
      ghost var next := Step(S(), Begin(o.id, o.now, o.window, o.evidence));
      snaps := snaps[o.id := Snap(files, o.now)];
      rec := Rec(o.id, files, None, o.now + o.window, false, o.evidence);
      Note(next);
    }

    method RecordTrial(rec: Rec, ghost start: int, saved: bool)
      requires pc == Snapped(rec, start) && cur.None?
      modifies this
      ensures S() == Step(old(S()), Record(saved))
      ensures files == old(files) && cur == (if saved then Some(rec) else None)
      ensures if saved then pc == Recorded(rec, start) && snaps == old(snaps) else pc.Unlocked? && snaps == old(snaps) - {rec.id}
    {
      ghost var next := Step(S(), Record(saved));
      if saved {
        cur := Some(rec);
      } else {
        snaps := snaps - {rec.id};
      }
      Note(next);
    }

    /** armLayer1; without a systemd timer the window is capped. */
    method StartSystemdTimer(before: Rec, start: int, window: int, layer1: bool) returns (rec: Rec)
      requires pc == Recorded(before, start) && before.deadline == start + window
      modifies this`timers
      ensures rec == ArmedRec(old(S()), layer1)
      ensures rec.layer1 == layer1 && rec.deadline == start + (if layer1 || window <= 60 then window else 60)
      ensures timers == if layer1 then old(timers) + {rec.id} else old(timers)
    {
      rec := before.(layer1 := layer1);
      if layer1 {
        timers := timers + {rec.id};
      }
      if !rec.layer1 && window > NO_TIMER_CAP {
        rec := rec.(deadline := start + NO_TIMER_CAP);
      }
    }

    method ArmLayer1(before: Rec, start: int, window: int, layer1: bool, saved: bool, removed: bool) returns (rec: Rec)
      requires pc == Recorded(before, start) && before.deadline == start + window
      modifies this
      ensures S() == Step(old(S()), Arm(layer1, saved, removed))
      ensures files == old(files) && snaps == old(snaps)
      ensures rec.id == before.id && rec.pre == before.pre && rec.post == before.post && rec.evidence == before.evidence
      ensures rec.layer1 == layer1 && rec.deadline == start + (if layer1 || window <= 60 then window else 60)
      ensures if saved then pc == Applying(rec) && cur == Some(rec)
              else pc.Unlocked? && (removed ==> cur == None)
    {
      hide Step, StopLayer1, ArmedRec, EndTrial;
      ghost var s0 := S();
      ghost var next := Step(s0, Arm(layer1, saved, removed));
      ArmIs(s0, layer1, saved, removed);
      rec := StartSystemdTimer(before, start, window, layer1);
      if saved {
        cur := Some(rec);
        Note(next);
        assert S() == next;
        return;
      }
      StopSystemdTimer(rec);
      if removed {
        cur := None;
        ArmFailed(s0.(timers := timers), rec.id);
      }
      Note(next);
      assert S() == next;
    }

    method RunCommand(ghost rec: Rec, result: Files)
      requires pc == Applying(rec)
      modifies this
      ensures S() == Step(old(S()), Touch(result))
      ensures pc == Applying(rec) && cur == old(cur) && snaps == old(snaps)
    {
      ghost var next := Step(S(), Touch(result));
      files := result;
      Note(next);
    }

    method RecordResult(before: Rec, hashed: bool, saved: bool) returns (rec: Rec)
      requires pc == Applying(before) && cur == Some(before)
      modifies this
      ensures S() == Step(old(S()), Post(hashed, saved))
      ensures pc == Posted(rec) && files == old(files) && snaps == old(snaps)
      ensures rec == before.(post := if hashed then Some(files) else before.post)
      ensures cur.Some? && cur.value.id == before.id && cur.value.pre == before.pre
      ensures hashed && saved ==> cur.value.post == Some(files)
      ensures SameTerms(cur.value, before)
    {
      ghost var next := Step(S(), Post(hashed, saved));
      rec := before;
      if hashed {
        rec := rec.(post := Some(files));
        if saved {
          cur := Some(rec);
        }
      }
      Note(next);
    }

    method GiveUpAndRollBack(rec: Rec, luck: Luck, removed: bool)
      requires pc == Posted(rec)
      modifies this
      ensures S() == Run(old(S()), [GiveUp, Roll(luck), Finish(removed)]) && pc.Unlocked?
      ensures snaps == old(snaps) && (cur == old(cur) || cur == None)
      ensures Undoable(old(S()), rec) && Faultless(luck) ==> files == rec.pre && (removed ==> cur == None)
    {
      hide RollStep, Undoable, Faultless;
      GivenUp(S(), luck, removed);
      ghost var s0 := S();
      Note(Step(s0, GiveUp));
      ghost var s1 := S();
      ThreeSteps(s0, GiveUp, Roll(luck), Finish(removed));
      TwoSteps(s1, Roll(luck), Finish(removed));
      RollUnlocks(s1, luck, removed);
      var ok := RollbackLocked(rec, false, luck, removed);
    }

    method StartLayer2(rec: Rec)
      requires pc == Posted(rec)
      modifies this
      ensures S() == Step(old(S()), GoOnTrial)
      ensures pc.Unlocked? && live == Some(rec.id) && cur == old(cur) && files == old(files) && snaps == old(snaps)
    {
      ghost var next := Step(S(), GoOnTrial);
      live := Some(rec.id);
      Note(next);
    }

    /** The agent dies; only what is on disk stays. */
    method Crash()
      requires !((pc.Rolling? || pc.PutBack?) && pc.other)
      modifies this`live, this`pc
      ensures S() == Step(old(S()), CrashAgent) && live == None && pc.Unlocked?
    {
      live := None;
      pc := Unlocked;
    }

    /** runTrial: snapshot, record, arm, apply, record the result, verify. trace is the run of
        the state machine it was. */
    method RunTrial(o: Outside) returns (r: TrialResult, ghost trace: seq<Event>)
      requires pc.Unlocked? && NewestFirst(snaps, o.order) && o.id !in used
      modifies this
      ensures S() == Run(old(S()), trace) && pc.Unlocked?
      ensures Good(old(S())) ==> Good(S())
      ensures r == Pending <==> old(cur).Some?
      ensures r.Pending? || r.Refused? ==> files == old(files) && cur == old(cur)
      ensures r.NotStarted? ==> files == old(files) && (o.recordRemoved ==> cur == None)
      ensures r.OnTrial? ==>
                && cur.Some? && cur.value.id == o.id && live == Some(o.id)
                && cur.value.pre == old(files) && o.id in snaps && snaps[o.id].files == old(files)
                && (o.postSaved && o.hashed ==> cur.value.post == Some(files))
      ensures (r.OnTrial? || r.ChangeFailed?) && cur.Some? ==>
                && cur.value.layer1 == o.layer1 && cur.value.evidence == o.evidence
                && cur.value.deadline == o.now + (if o.layer1 || o.window <= 60 then o.window else 60)
      ensures r.Crashed? ==> live == None
      ensures r.ChangeFailed? ==> cur == None || OnDisk(o.id, old(files))
      ensures r.ChangeFailed? && NoneCreated(o.writes, old(files)) && Faultless(o.luck) ==>
                files == old(files) && (o.removed ==> cur == None)
      ensures OwnEvents(trace)
    {
      hide Step, Good, Pruned, NewestFirst, NoneCreated, Faultless;
      ghost var s0 := S();
      trace := [];
      if cur.Some? {
        return Pending, trace;
      }
      PruneStep(s0, o.now, o.order);
      PruneSnapshots(None, o.now, o.order);
      trace := Extend(s0, trace, Prune(o.now, o.order));
      if !o.prepared {
        return Refused, trace;
      }
      var started, rec;
      started, rec, trace := BeginTrial(o, s0, trace);
      if started.Some? {
        return started.value, trace;
      }
      r, trace := FinishTrial(o, rec, s0, trace);
    }

    /** Steps 1 and 2: the snapshot and the record. */
    method PrepareTrial(o: Outside, ghost s0: Sys, ghost before: seq<Event>)
      returns (r: Option<TrialResult>, rec: Rec, ghost trace: seq<Event>)
      requires S() == Run(s0, before) && (Good(s0) ==> Good(S()))
      requires pc.Unlocked? && cur.None? && o.id !in used
      modifies this
      ensures S() == Run(s0, trace) && (Good(s0) ==> Good(S()))
      ensures files == old(files)
      ensures r.Some? ==> pc.Unlocked? && (r.value.NotStarted? || r.value.Crashed?)
      ensures r == Some(NotStarted) ==> cur == None
      ensures r == Some(Crashed) ==> live == None
      ensures OwnEvents(before) ==> OwnEvents(trace)
      ensures r.None? ==>
                && pc == Recorded(rec, o.now) && cur == Some(rec) && o.id in snaps && snaps[o.id].files == files
                && rec == Rec(o.id, files, None, o.now + o.window, false, o.evidence)
    {
      hide Step, Good, Run, OwnEvents;
      trace := before;
      rec := Rec(o.id, files, None, 0, false, false);
      // 1. Snapshot.
      if !o.snapshotTaken || USER_RULES !in files {
        return Some(NotStarted), rec, trace;
      }
      rec := TakeSnapshot(o);
      trace := Extend(s0, trace, Begin(o.id, o.now, o.window, o.evidence));
      if o.crash.AfterSnapshot? {
        trace := CrashHere(s0, trace);
        return Some(Crashed), rec, trace;
      }

      // 2. Record.
      RecordTrial(rec, o.now, o.recorded);
      trace := Extend(s0, trace, Record(o.recorded));
      if !o.recorded {
        return Some(NotStarted), rec, trace;
      }
      if o.crash.AfterRecord? {
        trace := CrashHere(s0, trace);
        return Some(Crashed), rec, trace;
      }
      return None, rec, trace;
    }

    /** Steps 1 to 3: nothing changes unless they succeed. */
    method BeginTrial(o: Outside, ghost s0: Sys, ghost before: seq<Event>)
      returns (r: Option<TrialResult>, rec: Rec, ghost trace: seq<Event>)
      requires S() == Run(s0, before) && (Good(s0) ==> Good(S()))
      requires pc.Unlocked? && cur.None? && o.id !in used
      modifies this
      ensures S() == Run(s0, trace) && (Good(s0) ==> Good(S()))
      ensures files == old(files)
      ensures r.Some? ==> pc.Unlocked? && (r.value.NotStarted? || r.value.Crashed?)
      ensures r == Some(NotStarted) && o.recordRemoved ==> cur == None
      ensures r == Some(Crashed) ==> live == None
      ensures OwnEvents(before) ==> OwnEvents(trace)
      ensures r.None? ==>
                && pc == Applying(rec) && cur == Some(rec) && rec.id == o.id && rec.pre == files && rec.post == None
                && o.id in snaps && snaps[o.id].files == files
                && rec.layer1 == o.layer1 && rec.evidence == o.evidence
                && rec.deadline == o.now + (if o.layer1 || o.window <= 60 then o.window else 60)
    {
      hide Step, Good, Run, OwnEvents;
      r, rec, trace := PrepareTrial(o, s0, before);
      if r.Some? {
        return;
      }
      // 3. Layer 1.
      rec := ArmLayer1(rec, o.now, o.window, o.layer1, o.recordedAgain, o.recordRemoved);
      trace := Extend(s0, trace, Arm(o.layer1, o.recordedAgain, o.recordRemoved));
      if !o.recordedAgain {
        return Some(NotStarted), rec, trace;
      }
      if o.crash.AfterLayer1? {
        trace := CrashHere(s0, trace);
        return Some(Crashed), rec, trace;
      }
    }

    /** Steps 4 and 5: apply, record what the rules look like now, and go on trial or back. */
    method FinishTrial(o: Outside, before: Rec, ghost s0: Sys, ghost soFar: seq<Event>)
      returns (r: TrialResult, ghost trace: seq<Event>)
      requires S() == Run(s0, soFar) && (Good(s0) ==> Good(S()))
      requires pc == Applying(before) && cur == Some(before) && before.post == None && before.pre == files
      requires before.id in snaps && snaps[before.id].files == files
      modifies this
      ensures S() == Run(s0, trace) && (Good(s0) ==> Good(S()))
      ensures pc.Unlocked? && (r.OnTrial? || r.ChangeFailed? || r.Crashed?)
      ensures r.OnTrial? ==>
                && cur.Some? && cur.value.id == before.id && cur.value.pre == before.pre && live == Some(before.id)
                && snaps == old(snaps) && (o.postSaved && o.hashed ==> cur.value.post == Some(files))
      ensures (r.OnTrial? || r.ChangeFailed?) && cur.Some? ==> SameTerms(cur.value, before)
      ensures r.Crashed? ==> live == None
      ensures r.ChangeFailed? ==>
                snaps == old(snaps) && (cur == None || (cur.Some? && cur.value.id == before.id && cur.value.pre == before.pre))
      ensures r.ChangeFailed? && NoneCreated(o.writes, old(files)) && Faultless(o.luck) ==>
                files == old(files) && (o.removed ==> cur == None)
      ensures OwnEvents(soFar) ==> OwnEvents(trace)
    {
      hide Step, Good, Run, OwnEvents, Undoable, Faultless, NoneCreated;
      // 4. Apply.
      trace := ApplyCommands(s0, soFar, before, o.writes);
      if o.crash.AfterApply? {
        trace := CrashHere(s0, trace);
        return Crashed, trace;
      }
      AppliedIs(files, o.writes, old(files));
      r, trace := Settle(o, before, s0, trace);
    }

    /** From the applied change on: the hash goes into the record, then the trial is settled. */
    method Settle(o: Outside, before: Rec, ghost s0: Sys, ghost soFar: seq<Event>)
      returns (r: TrialResult, ghost trace: seq<Event>)
      requires S() == Run(s0, soFar) && (Good(s0) ==> Good(S()))
      requires pc == Applying(before) && cur == Some(before) && before.post == None
      requires before.id in snaps && snaps[before.id].files == before.pre
      modifies this
      ensures S() == Run(s0, trace) && (Good(s0) ==> Good(S()))
      ensures pc.Unlocked? && (r.OnTrial? || r.ChangeFailed? || r.Crashed?)
      ensures r.OnTrial? ==>
                && cur.Some? && cur.value.id == before.id && cur.value.pre == before.pre && live == Some(before.id)
                && snaps == old(snaps) && (o.postSaved && o.hashed ==> cur.value.post == Some(files))
      ensures (r.OnTrial? || r.ChangeFailed?) && cur.Some? ==> SameTerms(cur.value, before)
      ensures r.Crashed? ==> live == None
      ensures r.ChangeFailed? ==>
                snaps == old(snaps) && (cur == None || (cur.Some? && cur.value.id == before.id && cur.value.pre == before.pre))
      ensures r.ChangeFailed? && old(files).Keys <= before.pre.Keys && Faultless(o.luck) ==>
                files == before.pre && (o.removed ==> cur == None)
      ensures OwnEvents(soFar) ==> OwnEvents(trace)
    {
      hide Step, Good, Run, OwnEvents, Faultless;
      var rec := RecordResult(before, o.hashed, o.postSaved);
      trace := Extend(s0, soFar, Post(o.hashed, o.postSaved));
      if o.crash.AfterPost? {
        trace := CrashHere(s0, trace);
        return Crashed, trace;
      }
      r, trace := Conclude(o, rec, s0, trace);
    }

    /** The end of runTrial: back at once after a failure, or on trial with layer 2. */
    method Conclude(o: Outside, rec: Rec, ghost s0: Sys, ghost soFar: seq<Event>)
      returns (r: TrialResult, ghost trace: seq<Event>)
      requires S() == Run(s0, soFar) && (Good(s0) ==> Good(S()))
      requires pc == Posted(rec)
      modifies this
      ensures S() == Run(s0, trace) && (Good(s0) ==> Good(S()))
      ensures pc.Unlocked? && snaps == old(snaps) && (cur == old(cur) || cur == None)
      ensures r == if o.applied && o.verified then OnTrial else ChangeFailed
      ensures r.OnTrial? ==> live == Some(rec.id) && files == old(files) && cur == old(cur)
      ensures r.ChangeFailed? && Undoable(old(S()), rec) && Faultless(o.luck) ==>
                files == rec.pre && (o.removed ==> cur == None)
      ensures OwnEvents(soFar) ==> OwnEvents(trace)
    {
      hide Step, Good, Run, OwnEvents, Undoable, Faultless;
      if !o.applied || !o.verified {
        ghost var s1 := S();
        GiveUpAndRollBack(rec, o.luck, o.removed);
        trace := ExtendBy3(s0, s1, soFar, GiveUp, Roll(o.luck), Finish(o.removed));
        return ChangeFailed, trace;
      }
      // 5. Layer 2.
      StartLayer2(rec);
      trace := Extend(s0, soFar, GoOnTrial);
      return OnTrial, trace;
    }

    method CrashHere(ghost s0: Sys, ghost before: seq<Event>) returns (ghost trace: seq<Event>)
      requires S() == Run(s0, before) && !((pc.Rolling? || pc.PutBack?) && pc.other)
      modifies this
      ensures S() == Run(s0, trace) && (Good(s0) ==> Good(S()))
      ensures live == None && pc.Unlocked? && files == old(files) && cur == old(cur)
      ensures OwnEvents(before) ==> OwnEvents(trace)
    {
      Crash();
      trace := Extend(s0, before, CrashAgent);
    }

    method ApplyCommands(ghost s0: Sys, ghost before: seq<Event>, rec: Rec, writes: seq<Files>) returns (ghost trace: seq<Event>)
      requires S() == Run(s0, before) && pc == Applying(rec) && cur == Some(rec) && (Good(s0) ==> Good(S()))
      modifies this
      ensures S() == Run(s0, trace) && (Good(s0) ==> Good(S()))
      ensures pc == Applying(rec) && cur == Some(rec) && snaps == old(snaps)
      ensures files == if writes == [] then old(files) else writes[|writes| - 1]
      ensures OwnEvents(before) ==> OwnEvents(trace)
    {
      hide Step, Good;
      trace := before;
      for i := 0 to |writes|
        invariant S() == Run(s0, trace) && (Good(s0) ==> Good(S()))
        invariant pc == Applying(rec) && cur == Some(rec) && snaps == old(snaps)
        invariant files == if i == 0 then old(files) else writes[i - 1]
        invariant OwnEvents(before) ==> OwnEvents(trace)
      {
        ghost var now := S();
        RunCommand(rec, writes[i]);
        TouchIs(now, writes[i]);
        trace := Extend(s0, trace, Touch(writes[i]));
      }
    }

    ghost method ExtendBy3(s0: Sys, s1: Sys, trace: seq<Event>, a: Event, b: Event, c: Event) returns (more: seq<Event>)
      requires s1 == Run(s0, trace) && S() == Run(s1, [a, b, c])
      ensures S() == Run(s0, more) && (Good(s0) ==> Good(S()))
      ensures OwnEvents(trace) && !a.Foreign? && !b.Foreign? && !c.Foreign? ==> OwnEvents(more)
    {
      hide Step, Good;
      ThreeSteps(s1, a, b, c);
      RunSnoc(s0, trace, a);
      RunSnoc(s0, trace + [a], b);
      RunSnoc(s0, trace + [a] + [b], c);
      more := trace + [a] + [b] + [c];
      if Good(s0) {
        RunsAreGood(s0, more);
      }
    }

    /** One more event of a run, when the state now is what the step makes. */
    ghost method Extend(s0: Sys, trace: seq<Event>, e: Event) returns (more: seq<Event>)
      requires S() == Step(Run(s0, trace), e)
      ensures more == trace + [e] && S() == Run(s0, more)
      ensures Good(s0) ==> Good(S())
      ensures OwnEvents(trace) && !e.Foreign? ==> OwnEvents(more)
    {
      hide Step, Good;
      more := trace + [e];
      RunSnoc(s0, trace, e);
      if Good(s0) {
        RunsAreGood(s0, more);
      }
    }
  }

  lemma {:induction false} TouchIs(s: Sys, files: Files)
    requires s.pc.Applying?
    ensures Step(s, Touch(files)).files == files
  {
  }

  lemma {:induction false} RollUnlocks(s: Sys, luck: Luck, removed: bool)
    requires s.pc.Rolling?
    ensures Step(Step(s, Roll(luck)), Finish(removed)).pc.Unlocked?
  {
    hide Step, RollStep;
    RollOf(s, luck);
    RollEffect(s, s.pc.rec, s.pc.other, luck);
    FinishIs(Step(s, Roll(luck)), removed);
  }

  lemma {:induction false} ArmFailed(s: Sys, id: Id)
    ensures var t := EndTrial(s, id, Aborted);
            t.pc == Unlocked && t == s.(cur := None, pc := Unlocked, log := t.log)
  {
  }
}
