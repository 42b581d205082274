/** The timers behind a trial: the systemd timer outlives the agent, the agent's own covers hosts
    without systemd-run, and startup arms it again. When a pending trial has one, exactly. */
module TrialTimers {
  import opened RuleModel
  import opened Trial

  /** A timer will roll the pending trial back. */
  predicate Armed(s: Sys) {
    s.cur.Some? && (s.cur.value.id in s.timers || s.live == Some(s.cur.value.id))
  }

  // ---- What has happened to the timers of the latest trial ----

  /** The press begins a Keep of the pending trial. */
  predicate BeginsKeep(s: Sys, e: Event) {
    e.StartKeep? && s.pc.Unlocked? && CurId(s) == Some(e.id) && (s.cur.value.evidence ==> e.seen)
  }

  function SystemdAfter(s: Sys, e: Event, systemd: bool): bool {
    match e
    case Record(_) => systemd && !s.pc.Snapped?
    case Arm(layer1, saved, _) => if s.pc.Recorded? then layer1 && saved else systemd
    case Expire(id, other) => systemd && !(other && CurId(s) == Some(id))
    case StartKeep(_, _, _) => systemd && !BeginsKeep(s, e)
    case Finish(_) => systemd && !s.pc.PutBack?
    case Reboot => false
    case _ => systemd
  }

  /** systemd-run worked for the latest trial, and since then its timer has not gone off, the host has
      not rebooted, no Keep has begun and no rollback has got past putting the files back. */
  function Systemd(s: Sys, events: seq<Event>): bool
    decreases |events|
  {
    if events == [] then false
    else SystemdAfter(Run(s, events[..|events| - 1]), events[|events| - 1], Systemd(s, events[..|events| - 1]))
  }

  function AttendedAfter(s: Sys, e: Event, attended: bool): bool {
    match e
    case Record(_) => attended && !s.pc.Snapped?
    case GoOnTrial => attended || s.pc.Posted?
    case Resume(now) => attended || (s.pc.Unlocked? && s.cur.Some? && now < s.cur.value.deadline)
    case Expire(id, other) => attended && !(!other && CurId(s) == Some(id))
    case Finish(_) => attended && !(s.pc.PutBack? && !s.pc.other)
    case CrashAgent => false
    case Reboot => false
    case _ => attended
  }

  /** The latest trial went on trial or startup found it, and since then the agent's timer has not gone
      off, neither the agent has crashed nor the host rebooted, and no rollback of the agent's own has
      got past putting the files back. */
  function Attended(s: Sys, events: seq<Event>): bool
    decreases |events|
  {
    if events == [] then false
    else AttendedAfter(Run(s, events[..|events| - 1]), events[|events| - 1], Attended(s, events[..|events| - 1]))
  }

  predicate Watched(s: Sys, systemd: bool, attended: bool) {
    && s.timers <= s.used && (s.live.Some? ==> s.live.value in s.used)
    && (s.pc.Snapped? || s.pc.Recorded? ==> !s.pc.rec.layer1)
    && (s.pc.Snapped? ==> s.pc.rec.id !in s.timers && s.live != Some(s.pc.rec.id))
    && (s.pc.Posted? || s.pc.Rolling? || s.pc.PutBack? ==> s.cur.Some? ==> s.pc.rec.layer1 == s.cur.value.layer1)
    && (s.cur.Some? ==>
          && (s.cur.value.id in s.timers <==> systemd) && (systemd ==> s.cur.value.layer1)
          && (s.live == Some(s.cur.value.id) <==> attended))
  }

  predicate WatchedAfter(s: Sys, e: Event, systemd: bool, attended: bool) {
    Watched(Step(s, e), SystemdAfter(s, e, systemd), AttendedAfter(s, e, attended))
  }

  lemma {:induction false} BeginIsWatched(s: Sys, e: Event, systemd: bool, attended: bool)
    requires Good(s) && Watched(s, systemd, attended) && (e.Begin? || e.Record?)
    ensures WatchedAfter(s, e, systemd, attended)
  {
    hide LogGood, Ended;
  }

  lemma {:induction false} ArmIsWatched(s: Sys, e: Event, systemd: bool, attended: bool)
    requires Good(s) && Watched(s, systemd, attended) && e.Arm?
    ensures WatchedAfter(s, e, systemd, attended)
  {
    hide LogGood, Ended;
  }

  lemma {:induction false} ChangeIsWatched(s: Sys, e: Event, systemd: bool, attended: bool)
    requires Good(s) && Watched(s, systemd, attended)
    requires e.Touch? || e.Post? || e.GoOnTrial? || e.GiveUp?
    ensures WatchedAfter(s, e, systemd, attended)
  {
    hide LogGood, Ended;
  }

  lemma {:induction false} RollIsWatched(s: Sys, luck: Luck, systemd: bool, attended: bool)
    requires Watched(s, systemd, attended)
    ensures WatchedAfter(s, Roll(luck), systemd, attended)
  {
    hide RollStep;
    if s.pc.Rolling? {
      RollEffect(s, s.pc.rec, s.pc.other, luck);
    }
  }

  lemma {:induction false} HeldAtEnd(s: Sys)
    requires Good(s) && (s.pc.PutBack? || s.pc.Keeping?)
    ensures s.cur.Some? && s.cur.value.id == s.pc.rec.id
  {
    hide LogGood, Backed, AsLeft;
  }

  lemma {:induction false} FinishIsWatched(s: Sys, removed: bool, systemd: bool, attended: bool)
    requires Good(s) && Watched(s, systemd, attended)
    ensures WatchedAfter(s, Finish(removed), systemd, attended)
  {
    hide Step, Good;
    FinishIs(s, removed);
    if s.pc.PutBack? {
      HeldAtEnd(s);
    }
  }

  lemma {:induction false} FinishKeepIsWatched(s: Sys, removed: bool, systemd: bool, attended: bool)
    requires Good(s) && Watched(s, systemd, attended)
    ensures WatchedAfter(s, FinishKeep(removed), systemd, attended)
  {
    hide Step, Good;
    FinishKeepIs(s, removed);
    if s.pc.Keeping? {
      HeldAtEnd(s);
    }
  }

  lemma {:induction false} PressIsWatched(s: Sys, e: Event, systemd: bool, attended: bool)
    requires Good(s) && Watched(s, systemd, attended)
    requires e.StartRollback? || e.StartKeep? || e.Resume? || e.Prune?
    ensures WatchedAfter(s, e, systemd, attended)
  {
    hide LogGood, Ended, NewestFirst, Pruned;
  }

  lemma {:induction false} ExpiryIsWatched(s: Sys, id: Id, other: bool, systemd: bool, attended: bool)
    requires Watched(s, systemd, attended)
    ensures WatchedAfter(s, Expire(id, other), systemd, attended)
  {
    hide Step;
    ExpireIs(s, id, other);
  }

  lemma {:induction false} EditIsWatched(s: Sys, files: Files, systemd: bool, attended: bool)
    requires Watched(s, systemd, attended)
    ensures WatchedAfter(s, Foreign(files), systemd, attended)
  {
  }

  lemma {:induction false} CrashIsWatched(s: Sys, e: Event, systemd: bool, attended: bool)
    requires Watched(s, systemd, attended) && (e.CrashAgent? || e.CrashOther? || e.Reboot?)
    ensures WatchedAfter(s, e, systemd, attended)
  {
  }

  lemma {:induction false} StepIsWatched(s: Sys, e: Event, systemd: bool, attended: bool)
    requires Good(s) && Watched(s, systemd, attended)
    ensures WatchedAfter(s, e, systemd, attended)
  {
    hide Good, Watched, WatchedAfter;
    if e.Begin? || e.Record? {
      BeginIsWatched(s, e, systemd, attended);
    } else if e.Arm? {
      ArmIsWatched(s, e, systemd, attended);
    } else if e.Touch? || e.Post? || e.GoOnTrial? || e.GiveUp? {
      ChangeIsWatched(s, e, systemd, attended);
    } else if e.Roll? {
      RollIsWatched(s, e.luck, systemd, attended);
    } else if e.Finish? {
      FinishIsWatched(s, e.removed, systemd, attended);
    } else if e.FinishKeep? {
      FinishKeepIsWatched(s, e.removed, systemd, attended);
    } else if e.StartRollback? || e.StartKeep? || e.Resume? || e.Prune? {
      PressIsWatched(s, e, systemd, attended);
    } else if e.Expire? {
      ExpiryIsWatched(s, e.id, e.other, systemd, attended);
    } else if e.Foreign? {
      EditIsWatched(s, e.files, systemd, attended);
    } else {
      CrashIsWatched(s, e, systemd, attended);
    }
  }

  lemma {:induction false} RunIsWatched(s: Sys, events: seq<Event>)
    requires Good(s) && Watched(s, false, false)
    ensures Watched(Run(s, events), Systemd(s, events), Attended(s, events))
    decreases |events|
  {
    hide Step, Good, Watched, SystemdAfter, AttendedAfter;
    if events != [] {
      var before := events[..|events| - 1];
      RunIsWatched(s, before);
      RunsAreGood(s, before);
      StepIsWatched(Run(s, before), events[|events| - 1], Systemd(s, before), Attended(s, before));
    }
  }

  /** A system no trial has run on yet, and no timer of one is armed. */
  predicate Untimed(s: Sys) {
    Fresh(s) && s.timers <= s.used && s.live == None
  }

  /** Over every run, whatever goes off, reboots, crashes and fails in it: a pending trial has an armed
      timer if and only if its systemd timer is still to go off or the agent still attends to it. */
  lemma {:induction false} PendingTrialIsWatched(s: Sys, events: seq<Event>)
    requires Untimed(s) && Run(s, events).cur.Some?
    ensures Armed(Run(s, events)) <==> Systemd(s, events) || Attended(s, events)
    ensures Run(s, events).cur.value.id in Run(s, events).timers <==> Systemd(s, events)
  {
    hide Step, Good, Run, Systemd, Attended;
    FreshIsGood(s);
    RunIsWatched(s, events);
  }

  // ---- Runs that spend no timer of the pending trial ----

  /** The event, met in s, takes no timer from the pending trial: none of its timers goes off, the
      host does not reboot while it is pending, and a Keep or a rollback that has stopped the timers
      goes through. */
  predicate Spares(s: Sys, e: Event) {
    && (e.Expire? ==> CurId(s) != Some(e.id))
    && (e.Reboot? ==> s.cur.None?)
    && (e.Finish? && s.pc.PutBack? ==> e.removed)
    && (BeginsKeep(s, e) ==> e.committed)
    && (e.FinishKeep? && s.pc.Keeping? ==> e.removed)
    && (e.CrashAgent? ==> !s.pc.Keeping?)
  }

  ghost predicate SparingRun(s: Sys, events: seq<Event>) {
    forall i :: 0 <= i < |events| ==> Spares(Run(s, events[..i]), events[i])
  }

  /** The systemd timer of a recorded trial that has one is still to go off. */
  predicate TimerKept(s: Sys, systemd: bool) {
    && (s.pc.Snapped? || s.pc.Recorded? ==> !s.pc.rec.layer1)
    && (s.cur.Some? && !s.pc.Keeping? && s.cur.value.layer1 ==> systemd)
  }

  lemma {:induction false} ChangeKeepsTimer(s: Sys, e: Event, systemd: bool)
    requires Good(s) && TimerKept(s, systemd)
    requires e.Begin? || e.Record? || e.Arm? || e.Touch? || e.Post? || e.GoOnTrial? || e.GiveUp?
    requires s.pc.Posted? && s.cur.Some? ==> s.pc.rec.layer1 == s.cur.value.layer1
    ensures TimerKept(Step(s, e), SystemdAfter(s, e, systemd))
  {
    hide LogGood, Ended;
  }

  lemma {:induction false} OtherKeepsTimer(s: Sys, e: Event, systemd: bool)
    requires Good(s) && TimerKept(s, systemd) && Spares(s, e)
    requires !(e.Begin? || e.Record? || e.Arm? || e.Touch? || e.Post? || e.GoOnTrial? || e.GiveUp?)
    ensures TimerKept(Step(s, e), SystemdAfter(s, e, systemd))
  {
    hide RollStep, LogGood, Ended, NewestFirst, Pruned;
    if e.Roll? && s.pc.Rolling? {
      RollEffect(s, s.pc.rec, s.pc.other, e.luck);
    }
  }

  lemma {:induction false} RunKeepsTimer(s: Sys, events: seq<Event>)
    requires Good(s) && Watched(s, false, false) && TimerKept(s, false) && SparingRun(s, events)
    ensures TimerKept(Run(s, events), Systemd(s, events))
    decreases |events|
  {
    hide Step, Good, TimerKept, Spares, SystemdAfter;
    if events != [] {
      var before, e := events[..|events| - 1], events[|events| - 1];
      forall i | 0 <= i < |before|
        ensures Spares(Run(s, before[..i]), before[i])
      {
        assert before[..i] == events[..i];
      }
      RunKeepsTimer(s, before);
      RunsAreGood(s, before);
      RunIsWatched(s, before);
      if e.Begin? || e.Record? || e.Arm? || e.Touch? || e.Post? || e.GoOnTrial? || e.GiveUp? {
        ChangeKeepsTimer(Run(s, before), e, Systemd(s, before));
      } else {
        OtherKeepsTimer(Run(s, before), e, Systemd(s, before));
      }
    }
  }

  /** Over every run that spends no timer of the pending trial, whatever else crashes and fails in it: a
      pending trial no one works on has an armed timer if and only if systemd-run worked or the agent
      attends to it. So the exceptions are, on a host without systemd-run: an immediate rollback that
      failed, and a crash until the next startup. */
  lemma {:induction false} SparedTrialIsWatched(s: Sys, events: seq<Event>)
    requires Untimed(s) && SparingRun(s, events)
    requires Run(s, events).cur.Some? && Run(s, events).pc.Unlocked?
    ensures Armed(Run(s, events)) <==> Run(s, events).cur.value.layer1 || Attended(s, events)
  {
    hide Step, Good, Run, SparingRun, Attended, Systemd;
    FreshIsGood(s);
    RunIsWatched(s, events);
    RunKeepsTimer(s, events);
  }

  // ---- What arms a timer again ----

  /** A pending trial without a timer gets one again from a startup before its deadline and from
      nothing else. */
  lemma {:induction false} OnlyStartupRearms(s: Sys, e: Event)
    requires s.pc.Unlocked? && s.cur.Some? && !Armed(s)
    ensures Armed(Step(s, e)) <==> e.Resume? && e.now < s.cur.value.deadline
  {
    hide NewestFirst, Pruned;
  }

  /** A reboot takes every timer, and the startup after it arms one again, or past the deadline begins
      the rollback: at the end of any run with a pending trial. */
  lemma {:induction false} StartupFollowsUp(s: Sys, events: seq<Event>, now: int)
    requires Run(s, events).cur.Some?
    ensures var t := Run(s, events);
            && !Armed(Run(s, events + [Reboot]))
            && var u := Run(s, events + [Reboot, Resume(now)]);
               if now < t.cur.value.deadline then Armed(u) else u.pc == Rolling(t.cur.value, false)
  {
    hide Run;
    RunSnoc(s, events, Reboot);
    RunSnoc(s, events + [Reboot], Resume(now));
    assert events + [Reboot] + [Resume(now)] == events + [Reboot, Resume(now)];
  }
}
