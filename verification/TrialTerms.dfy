/** The latest trial by the events alone. Over every run the record's deadline follows from the window
    the trial began with, startup rolls it back exactly from then on, and files it has changed are
    backed until someone keeps them. */
module TrialTerms {
  import opened RuleModel
  import opened Trial
  import opened TrialRuns

  /** How the latest trial began and with which files, whether systemd-run worked (None before layer 1
      is recorded), whether it has changed the rule files, and whether it was kept. */
  datatype Terms = Terms(id: Id, start: int, window: int, layer1: Option<bool>, files: Files, changed: bool, kept: bool)

  function TermsAfter(s: Sys, e: Event, terms: Option<Terms>): Option<Terms> {
    match e
    case Begin(id, now, window, _) => if Step(s, e) != s then Some(Terms(id, now, window, None, s.files, false, false)) else terms
    case Arm(layer1, saved, _) =>
      if s.pc.Recorded? && saved && terms.Some? then Some(terms.value.(layer1 := Some(layer1))) else terms
    case Touch(files) =>
      if s.pc.Applying? && files != s.files && terms.Some? then Some(terms.value.(changed := true)) else terms
    case FinishKeep(removed) =>
      if s.pc.Keeping? && removed && terms.Some? then Some(terms.value.(kept := true)) else terms
    case _ => terms
  }

  function TermsOf(s: Sys, events: seq<Event>): Option<Terms>
    decreases |events|
  {
    if events == [] then None
    else TermsAfter(Run(s, events[..|events| - 1]), events[|events| - 1], TermsOf(s, events[..|events| - 1]))
  }

  /** The record says what the terms say. */
  predicate Keeps(rec: Rec, terms: Terms) {
    && rec.id == terms.id && (rec.layer1 <==> terms.layer1 == Some(true))
    && rec.deadline == terms.start + (if terms.layer1 != Some(false) || terms.window <= 60 then terms.window else 60)
  }

  predicate OnTerms(s: Sys, terms: Option<Terms>) {
    && (terms.Some? ==> s.origin == terms.value.files)
    && (s.cur.Some? ==> terms.Some? && Keeps(s.cur.value, terms.value))
    && (s.pc.Snapped? || s.pc.Recorded? ==>
          && terms.Some? && Keeps(s.pc.rec, terms.value)
          && s.pc.start == terms.value.start && terms.value.layer1 == None)
    && (s.pc.Applying? ==> s.cur == Some(s.pc.rec))
    && (s.pc.Posted? || s.pc.Rolling? || s.pc.PutBack? || s.pc.Keeping? ==> s.cur.Some?)
  }

  lemma {:induction false} BeginOnTerms(s: Sys, e: Event, terms: Option<Terms>)
    requires Good(s) && OnTerms(s, terms) && (e.Begin? || e.Record?)
    ensures OnTerms(Step(s, e), TermsAfter(s, e, terms))
  {
    hide LogGood, Backed;
    if e.Begin? && Step(s, e) != s {
      assert e.id in Step(s, e).used;
    }
  }

  lemma {:induction false} ArmOnTerms(s: Sys, e: Event, terms: Option<Terms>)
    requires OnTerms(s, terms) && e.Arm?
    ensures OnTerms(Step(s, e), TermsAfter(s, e, terms))
  {
    hide Step, StopLayer1;
    if s.pc.Recorded? {
      ArmIs(s, e.layer1, e.saved, e.removed);
    } else {
      NotRecorded(s, e);
    }
  }

  lemma {:induction false} NotRecorded(s: Sys, e: Event)
    requires !s.pc.Recorded? && e.Arm?
    ensures Step(s, e) == s
  {
  }

  lemma {:induction false} ChangeOnTerms(s: Sys, e: Event, terms: Option<Terms>)
    requires OnTerms(s, terms) && (e.Touch? || e.Post? || e.GoOnTrial? || e.GiveUp?)
    ensures OnTerms(Step(s, e), TermsAfter(s, e, terms))
  {
  }

  lemma {:induction false} EndOnTerms(s: Sys, e: Event, terms: Option<Terms>)
    requires OnTerms(s, terms) && (e.Roll? || e.Finish? || e.FinishKeep?)
    ensures OnTerms(Step(s, e), TermsAfter(s, e, terms))
  {
    hide RollStep, StopLayer1, StopTimers;
    if e.Roll? && s.pc.Rolling? {
      RollEffect(s, s.pc.rec, s.pc.other, e.luck);
    }
  }

  lemma {:induction false} PressOnTerms(s: Sys, e: Event, terms: Option<Terms>)
    requires OnTerms(s, terms) && (e.StartRollback? || e.StartKeep? || e.Resume? || e.Prune?)
    ensures OnTerms(Step(s, e), TermsAfter(s, e, terms))
  {
    hide NewestFirst, Pruned, StopLayer1;
  }

  lemma {:induction false} OutsideOnTerms(s: Sys, e: Event, terms: Option<Terms>)
    requires OnTerms(s, terms) && (e.Expire? || e.Foreign? || e.CrashAgent? || e.CrashOther? || e.Reboot?)
    ensures OnTerms(Step(s, e), TermsAfter(s, e, terms))
  {
    hide StopTimers;
  }

  lemma {:induction false} StepOnTerms(s: Sys, e: Event, terms: Option<Terms>)
    requires Good(s) && OnTerms(s, terms)
    ensures OnTerms(Step(s, e), TermsAfter(s, e, terms))
  {
    hide Step, Good, OnTerms, TermsAfter;
    if e.Begin? || e.Record? {
      BeginOnTerms(s, e, terms);
    } else if e.Arm? {
      ArmOnTerms(s, e, terms);
    } else if e.Touch? || e.Post? || e.GoOnTrial? || e.GiveUp? {
      ChangeOnTerms(s, e, terms);
    } else if e.Roll? || e.Finish? || e.FinishKeep? {
      EndOnTerms(s, e, terms);
    } else if e.StartRollback? || e.StartKeep? || e.Resume? || e.Prune? {
      PressOnTerms(s, e, terms);
    } else {
      OutsideOnTerms(s, e, terms);
    }
  }

  lemma {:induction false} RunOnTerms(s: Sys, events: seq<Event>)
    requires Fresh(s)
    ensures OnTerms(Run(s, events), TermsOf(s, events))
    decreases |events|
  {
    hide Step, Good, TermsAfter;
    if events != [] {
      var before := events[..|events| - 1];
      RunOnTerms(s, before);
      FreshIsGood(s);
      RunsAreGood(s, before);
      hide OnTerms, Fresh;
      StepOnTerms(Run(s, before), events[|events| - 1], TermsOf(s, before));
    }
  }

  /** Over every run, whatever fails in it: a pending trial runs out when its window has passed since it
      began, or, once it is recorded that there is no systemd timer, after a minute at the latest. */
  lemma {:induction false} DeadlineFollowsWindow(s: Sys, events: seq<Event>)
    requires Fresh(s) && Run(s, events).cur.Some?
    ensures var rec, terms := Run(s, events).cur.value, TermsOf(s, events);
            && terms.Some? && terms.value.id == rec.id
            && rec.deadline == terms.value.start
                               + (if terms.value.layer1 == Some(false) && terms.value.window > 60 then 60 else terms.value.window)
  {
    hide Run, TermsOf;
    RunOnTerms(s, events);
  }

  /** So startup rolls a pending trial back exactly from that time on, and before it gives the trial
      its timer back. */
  lemma {:induction false} StartupKeepsTime(s: Sys, events: seq<Event>, now: int)
    requires Fresh(s) && Run(s, events).cur.Some? && Run(s, events).pc.Unlocked?
    ensures var t, terms := Run(s, events), TermsOf(s, events);
            && terms.Some?
            && var length := if terms.value.layer1 == Some(false) && terms.value.window > 60 then 60 else terms.value.window;
               Run(s, events + [Resume(now)]) ==
               if now - terms.value.start >= length then t.(pc := Rolling(t.cur.value, false)) else t.(live := Some(t.cur.value.id))
  {
    hide Run, TermsOf;
    DeadlineFollowsWindow(s, events);
    RunSnoc(s, events, Resume(now));
    ResumeIs(Run(s, events), now);
  }

  // ---- What it changed is backed ----

  /** A trial that has changed the files and is not pending has ended. */
  predicate OnRecordWhileChanged(s: Sys, terms: Option<Terms>) {
    terms.Some? && terms.value.changed && s.cur.None? ==> s.pc.Unlocked? && Ended(s.log, terms.value.id)
  }

  lemma {:induction false} ChangeOnRecord(s: Sys, e: Event, terms: Option<Terms>)
    requires OnTerms(s, terms) && OnRecordWhileChanged(s, terms)
    requires e.Begin? || e.Record? || e.Touch? || e.Post? || e.GoOnTrial? || e.GiveUp?
    ensures OnRecordWhileChanged(Step(s, e), TermsAfter(s, e, terms))
  {
    hide Ended, Keeps;
    if e.Begin? && Step(s, e) != s {
      assert e.id in Step(s, e).used;
    }
  }

  lemma {:induction false} LastHasEnded(log: seq<End>)
    ensures log != [] ==> Ended(log, log[|log| - 1].id)
  {
  }

  lemma {:induction false} ArmOnRecord(s: Sys, e: Event, terms: Option<Terms>)
    requires OnTerms(s, terms) && OnRecordWhileChanged(s, terms) && e.Arm?
    ensures OnRecordWhileChanged(Step(s, e), TermsAfter(s, e, terms))
  {
    hide Step, StopLayer1;
    if s.pc.Recorded? {
      ArmIs(s, e.layer1, e.saved, e.removed);
      LastHasEnded(Step(s, e).log);
    } else {
      NotRecorded(s, e);
    }
  }

  lemma {:induction false} EndOnRecord(s: Sys, e: Event, terms: Option<Terms>)
    requires Good(s) && OnTerms(s, terms) && OnRecordWhileChanged(s, terms) && (e.Roll? || e.Finish? || e.FinishKeep?)
    ensures OnRecordWhileChanged(Step(s, e), TermsAfter(s, e, terms))
  {
    hide Step, RollStep, StopLayer1, StopTimers, LogGood, Backed, AsLeft;
    if e.FinishKeep? {
      FinishKeepIs(s, e.removed);
      LastHasEnded(Step(s, e).log);
    } else if e.Finish? {
      FinishIs(s, e.removed);
      LastHasEnded(Step(s, e).log);
    } else if s.pc.Rolling? {
      RollOf(s, e.luck);
      RollEffect(s, s.pc.rec, s.pc.other, e.luck);
    } else {
      NotRolling(s, e);
    }
  }

  lemma {:induction false} NotRolling(s: Sys, e: Event)
    requires !s.pc.Rolling? && e.Roll?
    ensures Step(s, e) == s
  {
  }

  lemma {:induction false} OutsideOnRecord(s: Sys, e: Event, terms: Option<Terms>)
    requires OnRecordWhileChanged(s, terms)
    requires e.StartRollback? || e.StartKeep? || e.Resume? || e.Prune? || e.Expire? || e.Foreign? || e.CrashAgent? || e.CrashOther? || e.Reboot?
    ensures OnRecordWhileChanged(Step(s, e), TermsAfter(s, e, terms))
  {
    hide NewestFirst, Pruned, StopLayer1, StopTimers, Ended;
  }

  lemma {:induction false} RunOnRecord(s: Sys, events: seq<Event>)
    requires Fresh(s)
    ensures OnRecordWhileChanged(Run(s, events), TermsOf(s, events))
    decreases |events|
  {
    hide Step, Good, TermsAfter;
    if events != [] {
      var before, e := events[..|events| - 1], events[|events| - 1];
      RunOnRecord(s, before);
      RunOnTerms(s, before);
      FreshIsGood(s);
      RunsAreGood(s, before);
      hide OnTerms, Fresh, OnRecordWhileChanged;
      var u, terms := Run(s, before), TermsOf(s, before);
      if e.Begin? || e.Record? || e.Touch? || e.Post? || e.GoOnTrial? || e.GiveUp? {
        ChangeOnRecord(u, e, terms);
      } else if e.Arm? {
        ArmOnRecord(u, e, terms);
      } else if e.Roll? || e.Finish? || e.FinishKeep? {
        EndOnRecord(u, e, terms);
      } else {
        OutsideOnRecord(u, e, terms);
      }
    }
  }

  /** Over every run, with crashes, failures, restarts and other people's edits between any two steps: once
      the latest trial has changed the rule files and until it ends, its record is on disk and names an
      intact snapshot, not pruned, of the files it began with. */
  lemma {:induction false} ChangedRulesAreBacked(s: Sys, events: seq<Event>)
    requires Fresh(s)
    ensures var t, terms := Run(s, events), TermsOf(s, events);
            terms.Some? && terms.value.changed && !Ended(t.log, terms.value.id) ==>
              && t.cur.Some? && t.cur.value.id == terms.value.id && t.cur.value.pre == terms.value.files
              && terms.value.id in t.snaps && t.snaps[terms.value.id].files == terms.value.files
  {
    hide Run, TermsOf;
    RunOnTerms(s, events);
    RunOnRecord(s, events);
    FreshIsGood(s);
    RunsAreGood(s, events);
  }

  // ---- What no one kept is put back ----

  /** With no trial pending the files are those the latest one began with, unless it was kept. */
  predicate AtRest(s: Sys, terms: Option<Terms>) {
    terms.Some? && !s.disturbed && s.cur.None? && !terms.value.kept ==> s.files == terms.value.files
  }

  lemma {:induction false} ChangeAtRest(s: Sys, e: Event, terms: Option<Terms>)
    requires Good(s) && OnTerms(s, terms) && AtRest(s, terms)
    requires e.Begin? || e.Record? || e.Touch? || e.Post? || e.GoOnTrial? || e.GiveUp?
    ensures AtRest(Step(s, e), TermsAfter(s, e, terms))
  {
    hide LogGood, Ended, Keeps;
    if e.Begin? && Step(s, e) != s {
      assert Step(s, e).files == s.files;
    }
  }

  lemma {:induction false} ArmAtRest(s: Sys, e: Event, terms: Option<Terms>)
    requires Good(s) && OnTerms(s, terms) && AtRest(s, terms) && e.Arm?
    ensures AtRest(Step(s, e), TermsAfter(s, e, terms))
  {
    hide Step, StopLayer1, LogGood, Ended, Keeps;
    if s.pc.Recorded? {
      ArmIs(s, e.layer1, e.saved, e.removed);
    } else {
      NotRecorded(s, e);
    }
  }

  lemma {:induction false} EndAtRest(s: Sys, e: Event, terms: Option<Terms>)
    requires Good(s) && OnTerms(s, terms) && AtRest(s, terms) && (e.Roll? || e.Finish? || e.FinishKeep?)
    ensures AtRest(Step(s, e), TermsAfter(s, e, terms))
  {
    hide RollStep, StopLayer1, StopTimers, LogGood, Ended, Keeps;
    if e.Roll? && s.pc.Rolling? {
      RollEffect(s, s.pc.rec, s.pc.other, e.luck);
    }
  }

  lemma {:induction false} OutsideAtRest(s: Sys, e: Event, terms: Option<Terms>)
    requires AtRest(s, terms)
    requires e.StartRollback? || e.StartKeep? || e.Resume? || e.Prune? || e.Expire? || e.Foreign? || e.CrashAgent? || e.CrashOther? || e.Reboot?
    ensures AtRest(Step(s, e), TermsAfter(s, e, terms))
  {
    hide NewestFirst, Pruned, StopLayer1, StopTimers;
  }

  lemma {:induction false} RunAtRest(s: Sys, events: seq<Event>)
    requires Fresh(s)
    ensures AtRest(Run(s, events), TermsOf(s, events))
    decreases |events|
  {
    hide Step, Good, TermsAfter;
    if events != [] {
      var before, e := events[..|events| - 1], events[|events| - 1];
      RunAtRest(s, before);
      RunOnTerms(s, before);
      FreshIsGood(s);
      RunsAreGood(s, before);
      hide OnTerms, Fresh, AtRest;
      var u, terms := Run(s, before), TermsOf(s, before);
      if e.Begin? || e.Record? || e.Touch? || e.Post? || e.GoOnTrial? || e.GiveUp? {
        ChangeAtRest(u, e, terms);
      } else if e.Arm? {
        ArmAtRest(u, e, terms);
      } else if e.Roll? || e.Finish? || e.FinishKeep? {
        EndAtRest(u, e, terms);
      } else {
        OutsideAtRest(u, e, terms);
      }
    }
  }

  /** Over every calm run, whatever crashes and fails in it: files that are not those the latest trial
      began with are pending, and then an intact snapshot named by the record gives those back, or they
      were kept. */
  lemma {:induction false} ChangesAreBackedOrKept(s: Sys, events: seq<Event>)
    requires Fresh(s) && !s.disturbed && CalmRun(s, events)
    ensures var t, terms := Run(s, events), TermsOf(s, events);
            terms.Some? && t.files != terms.value.files && !terms.value.kept ==>
              && t.cur.Some? && t.cur.value.id == terms.value.id && t.cur.value.pre == terms.value.files
              && t.cur.value.id in t.snaps && t.snaps[t.cur.value.id].files == terms.value.files
  {
    hide Run, TermsOf, CalmRun;
    RunOnTerms(s, events);
    RunAtRest(s, events);
    FreshIsGood(s);
    RunsAreGood(s, events);
    CalmRunsAreUndisturbed(s, events);
  }

  lemma {:induction false} ChangeKeepsTheRecord(s: Sys, e: Event)
    requires s.cur.Some? && (e.Begin? || e.Record? || e.Touch? || e.Post? || e.GoOnTrial? || e.GiveUp?)
    ensures Step(s, e).cur.Some?
  {
  }

  lemma {:induction false} OthersKeepTheRecord(s: Sys, e: Event)
    requires s.cur.Some?
    requires e.StartRollback? || e.StartKeep? || e.Resume? || e.Prune? || e.Expire? || e.Foreign? || e.CrashAgent? || e.CrashOther? || e.Reboot?
    ensures Step(s, e).cur.Some?
  {
    hide StopLayer1, StopTimers, NewestFirst, Pruned;
  }

  lemma {:induction false} RollKeepsTheRecord(s: Sys, e: Event)
    requires s.cur.Some? && e.Roll?
    ensures Step(s, e).cur.Some?
  {
    hide RollStep;
    if s.pc.Rolling? {
      RollEffect(s, s.pc.rec, s.pc.other, e.luck);
    }
  }

  /** A step that ends the pending trial, and how. */
  lemma {:induction false} StepLogsTheEnd(s: Sys, e: Event)
    requires Good(s) && s.cur.Some? && Step(s, e).cur.None?
    ensures var t := Step(s, e);
            var how := if e.FinishKeep? then Kept else if e.Finish? then RolledBack else Aborted;
            && (e.FinishKeep? || e.Finish? || e.Arm?)
            && t.log == s.log + [End(s.cur.value.id, how, !s.disturbed, s.origin, t.files)]
  {
    hide Step, RollStep, StopLayer1, StopTimers, LogGood, Backed, Ended, AsLeft;
    if e.FinishKeep? {
      FinishKeepIs(s, e.removed);
    } else if e.Finish? {
      FinishIs(s, e.removed);
    } else if e.Arm? && s.pc.Recorded? {
      ArmIs(s, e.layer1, e.saved, e.removed);
    } else if e.Arm? {
      NotRecorded(s, e);
    } else if e.Roll? {
      RollKeepsTheRecord(s, e);
    } else if e.Begin? || e.Record? || e.Touch? || e.Post? || e.GoOnTrial? || e.GiveUp? {
      ChangeKeepsTheRecord(s, e);
    } else {
      OthersKeepTheRecord(s, e);
    }
  }

  /** The log is the run's: a step of a calm run that ends the pending trial adds its end, undisturbed, with
      the files it began with, how it ended, and the files left: unless it was kept, those it began with. */
  lemma {:induction false} TheLogTellsTheEnd(s: Sys, events: seq<Event>, e: Event)
    requires Fresh(s) && !s.disturbed && CalmRun(s, events)
    requires Run(s, events).cur.Some? && Step(Run(s, events), e).cur.None?
    ensures var u, t, terms := Run(s, events), Step(Run(s, events), e), TermsOf(s, events);
            var how := if e.FinishKeep? then Kept else if e.Finish? then RolledBack else Aborted;
            && terms.Some? && (e.FinishKeep? || e.Finish? || e.Arm?)
            && t.log == u.log + [End(terms.value.id, how, true, terms.value.files, t.files)]
            && (!e.FinishKeep? ==> t.files == terms.value.files)
  {
    hide Run, TermsOf, CalmRun, Step, Good;
    RunOnTerms(s, events);
    FreshIsGood(s);
    RunsAreGood(s, events);
    CalmRunsAreUndisturbed(s, events);
    StepLogsTheEnd(Run(s, events), e);
    RunsAreGood(s, events + [e]);
    RunSnoc(s, events, e);
    if !e.FinishKeep? {
      LastEnd(Step(Run(s, events), e));
    }
  }

  lemma {:induction false} LastEnd(s: Sys)
    requires Good(s) && s.log != [] && s.log[|s.log| - 1].undisturbed && s.log[|s.log| - 1].how != Kept
    ensures s.log[|s.log| - 1].after == s.log[|s.log| - 1].before
  {
    hide Ended;
  }
}
