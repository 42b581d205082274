# Verified model of the agent's firewall engine

The agent manages a host's firewall from a chat. This project models the parts of it that are hard
to get right and proves what they keep, over every input and every run:

- **The rule model** (`RuleModel`, `Packets`, `RuleSpecs`): the rows of `ufw status`, the first-match
  verdict on one TCP port for one family and one peer, and what that verdict says about packets; the
  words of `ufw show added`, read as rules, and the words the bot's commands write.
- **The planner** (`UfwListed`, `Simulation`, `SimOrder`, `Planning`, `Consistency`, `Effects`, `Restoring`,
  `SshPort`, `SshEffect`, `Guard`): the lines of `ufw show added`, simulating ordered edits of the list, inverting them, planning specs,
  opening and closing port 22, and the guard that refuses to lock SSH out. `Simulation` proves that
  a list of rows and the specs `ufw show added` prints for it are two views of one table from
  traffic to action, and that an edit of the list is an edit of the table; every result about undo
  and about planning is then a result about tables.
- **The firewalld backend** (`FwdRich`, `FwdZone`, `FwdStages`, `FwdListed`, `FwdOrder`, `FwdRestore`): rich rules
  read and written, every rule of firewalld's grammar and what is made of it, a zone as rows of the rule model, firewalld's staged evaluation as an
  independent reference, when the order of a zone's lists matters, taking a zone back to a snapshot,
  and taking back a Keep that failed.
- **The dead-man switch** (`Trial`, `TrialRuns`, `TrialTerms`, `TrialTimers`, `DeadMan`): snapshot, record, arm,
  apply, record the hash, verify, then Keep or roll back, by two processes sharing a lock, with crashes and
  restarts at any step. `Trial` is the protocol as a state machine with one invariant, `TrialRuns` what follows
  over every run, `TrialTerms` how long a trial lasts and what it leaves, `TrialTimers` when a timer stands behind it; `DeadMan`
  is the object whose methods are runs of that machine.
- **Small stateful algorithms**: the message splitter (`SplitMessage`, `SplitProperties`, `SplitTags`,
  `SplitCuts`, `SplitShown`), the brute-force window (`Brute`), the confirm tokens (`Tokens`, `TokenAnswers`),
  the two token buckets (`PressLimits`, `SendLimits`) and the alert engine (`Alerts`). Each method is proved equal to a function of the state before it, and
  the runs of those functions are proved against a history that forgets nothing.

`Consistent(st, added, v6)` (module `Simulation`) is the one hypothesis about the firewall that most
planner results carry: the rows are exactly those the added specs are listed as, one spec for each
traffic. `Consistency` proves that every plan keeps it. `Rows`, `Ids` and undo speak of rows up to
their order and their numbers, as `sameRow` does.

An address prefix is a family and an interval of addresses; the zero prefix and the zero address are
`None`. A port word of a spec is kept parsed, so it has one spelling. Digests are injective, ids and
nonces never repeat. What a command, a file or the clock does is a parameter of the step it happens
in. The rule model's `raw` is the words of the printed row.

Where the code and its comments disagree the model follows the code:

- `internal/alert/alert.go:71` says that a violation still in progress when a snooze ends fires again,
  which holds only of a key that was not firing already (`Alerts.AfterSnoozeFires`,
  `Alerts.StillViolatingStaysSilent`).
- `internal/telegram/telegram.go:581-583` speaks of characters within the limit, where the code counts
  bytes and lets one rune exceed the limit (`SplitProperties.ChunksFit`), and of open tags reopened,
  which holds exactly when no cut falls inside a tag it loses (`SplitTags.ReopensWhatIsOpen`); a
  newline inside a tag can lose it at any limit (`SplitTags.NewlineInATagLosesIt`).
- `internal/agent/fwplan.go:442-447` promises that an SSH port open to anywhere stays open; after a guard
  on the rules read back that holds for an arbitrary IPv6 host exactly when the IPv6 question was asked or the policies
  answer it (`Guard.GuardIsSound`, `Guard.SkipCanBeUnsafe`).
- `internal/agent/fwdeadman.go:600-606` calls files that match neither hash an edit by someone else,
  which a restore cut in two can also leave (`TrialRuns.TornRestoreIsMisread`, `TrialRuns.MisreadHappens`).
- `internal/agent/fwbackend.go:533-534` adds rather than inserts when no IPv4 rule is left; a deleted rule for a
  source port is still counted, so the insert can be planned for an empty list (`SshEffect.InsertExactly`,
  `SshEffect.InsertIntoNothing`).
- `internal/agent/fwfirewalld.go:398-401` calls a negated source or a set narrower than the model; a destination
  address in the same rule takes that mark back, which changes no verdict, as a destination restricts the rule
  itself (`FwdListed.Narrower`).

`dafny verify dfyconfig.toml` checks the project.

## Model

| member | source | states |
|---|---|---|
| `RuleModel.Evaluate` | internal/agent/fwufw.go:266-300 | the loop over the rows gives the first deciding row, with the admitting rows it may not decide by and the unresolved rows above it |
| `Packets.FirstHitVersusVerdict` | internal/agent/fwufw.go:266-313 | the row that decides a packet in the real firewall is the verdict's, unless a loose row (partial, bound, unresolved, or restricted by source for an arbitrary host) hits first; if that row lets the packet in, it is on one of the verdict's lists |
| `Packets.VerdictIsExact` | internal/agent/fwufw.go:266-313 | a packet that no loose row hits is let in exactly when the verdict, or the policy it leaves the port to, says so |
| `Packets.ClosedRefusesEveryPacket` | internal/agent/fwufw.go:266-313 | a closed verdict with both lists empty refuses every packet it concerns, whatever the qualifiers the rows do not show |
| `RuleModel.VerdictOfConcat` | internal/agent/fwufw.go:266-300 | the deciding row of two lists one after the other is the first list's, or else the second's |
| `Packets.VerdictLists` | internal/agent/fwufw.go:266-300 | the lists of a verdict are exactly the admitting rows above the deciding one that show less than they match, and those whose ports are unknown |
| `RuleSpecs.SameMatchIsSameKey` | internal/agent/fwplan.go:283-291 | sameMatch is equality of keys |
| `RuleSpecs.SameMatchSays` | internal/agent/fwplan.go:283-291 | rules over the same traffic agree on the direction, both addresses, the interface, hidden qualifiers, and the app or the protocol and ports |
| `RuleSpecs.ArgsReadBack` | internal/agent/fwplan.go:61-77 | reading the words a command writes gives back its action, ports, protocol, source and family, for every spec the commands can build |
| `UfwListed.AddedLineReadsBack` | internal/agent/fwplan.go:190-280 | every line of ufw show added, with any direction, interface, logging, comment, port list or app, and either end of the extended form, reads as exactly the rule it means, or not at all when its ports do not parse |
| `RuleSpecs.ReadersAgree` | internal/agent/fwbackend.go:427-486 | the planner's reader and the narrower reader of the port 22 plan agree, word by word, on the ports, the protocol, the app and whether the rule is for anyone and anywhere |
| `Simulation.SimulateInPlace` | internal/agent/fwplan.go:319-365 | the loops over changes, families and rows compute the functional simulation |
| `Simulation.SimulateKeepsListing` | internal/agent/fwplan.go:319-365 | after any plan IPv4 rows come before IPv6 rows, one row per traffic and family, numbered 1 to n; the policy stays |
| `SimOrder.ChangeOrder` | internal/agent/fwplan.go:319-365 | family by family: new traffic goes last by an add and first by an insert or prepend, an existing rule is left alone, an add changes an action where it stands, an insert moves the row to the front, a deletion takes one row out; all other rows keep their order |
| `SimOrder.AddYields` | internal/agent/fwplan.go:348-358 | an add over traffic the list does not know changes no verdict that a row decides, and decides what it matches where none did |
| `SimOrder.PrintTellsRows` | internal/agent/fwplan.go:367-379 | rows that show all there is to them print alike only when they are alike |
| `Simulation.ApplyChangeEdits` | internal/agent/fwplan.go:319-365 | a change edits the rows exactly as it edits the table from traffic to action, in every family the rule is listed in |
| `Simulation.ApplyPlanEdits` | internal/agent/fwplan.go:319-365 | the same for a whole plan |
| `Simulation.RowsDetermineTable` | internal/agent/fwplan.go:300-310 | the rows of a table determine it |
| `Simulation.ConsistentRows` | internal/agent/fwplan.go:593-604 | the rows of a consistent list are exactly those of its specs' table, and the specs are as many as the table's entries |
| `Simulation.RowHasOneSpec` | internal/agent/fwplan.go:593-604 | in a consistent list every row lists exactly one added spec |
| `Simulation.SpecHasRow` | internal/agent/fwplan.go:295-310 | in a consistent list every added spec is listed in each of its families |
| `Planning.InverseOf` | internal/agent/fwbackend.go:105-116 | the loop builds the inverse plan: every change undone by spec, last first |
| `Planning.InverseRestores` | internal/agent/fwbackend.go:105-116 | the inverse of a plan of exact changes gives back the table |
| `Planning.ExactPlanUndone` | internal/agent/fwbackend.go:105-116 | simulating a plan of exact changes and then its inverse gives back the rows |
| `Planning.ScanTheAdded` | internal/agent/fwplan.go:524-541 | the inner loop over the added specs computes the functional scan and keeps the rule count |
| `Planning.PlanTheSpecs` | internal/agent/fwplan.go:517-561 | the loop over the specs computes the functional planner, count limit and no-change answer included |
| `Planning.PlanSpecsAnswers` | internal/agent/fwplan.go:517-561 | for pairwise non-matching specs: refused exactly when the rules with every spec in place are more than 64, nothing to do exactly when they all hold already, and otherwise a plan of exact changes after which every spec holds and nothing else changed |
| `SimOrder.PlannedPlace` | internal/agent/fwplan.go:541-552 | a planned deny is inserted where there is an IPv4 rule, prepended for an IPv6 source and added to an empty list; anything else is added |
| `SimOrder.PlannedAllowYields` | internal/agent/fwplan.go:517-561 | a planned allow or limit comes last: it keeps every verdict a row decides, and decides what it matches where none does |
| `Planning.PlannedSpecsUndone` | internal/agent/fwplan.go:517-561 | simulating a plan of planSpecs and then its inverse gives back the rows |
| `Planning.PlansSettle` | internal/agent/fwplan.go:517-561 | planning the same specs on any listing of the resulting rules answers that there is nothing to do |
| `Consistency.ChangeKeepsConsistency` | internal/agent/fwplan.go:319-365 | a change, and what `ufw show added` prints after it, keep list and specs consistent |
| `Consistency.PlansKeepConsistency` | internal/agent/fwplan.go:319-365 | so does every simulated plan, exact or not |
| `Consistency.RunsAreConsistent` | internal/agent/fwplan.go:319-365 | so does every run of plans |
| `Consistency.PlansSettleOnTheirOwn` | internal/agent/fwplan.go:517-561 | once a plan of planSpecs is in place, planning the same specs again finds nothing to do |
| `Effects.FirstOfFamilyDecides` | internal/agent/fwufw.go:266-300 | a row put first in its family decides all that it matches and leaves the verdict's lists empty |
| `Effects.PlannedDenyCloses` | internal/agent/fwplan.go:517-561 | from a consistent list, a planned deny with a source gives every address of that source a closed verdict, with nothing excepted and nothing unsure, on every TCP port it covers |
| `Effects.PlannedDenyRefusesPackets` | internal/agent/fwplan.go:517-561 | no packet from that source to those ports is let in after it |
| `Effects.RowSpecIsAdded` | internal/agent/fwplan.go:593-604 | the spec found for a row is an added one that lists the row |
| `Effects.FindSpec` | internal/agent/fwplan.go:593-604 | the loop over the added specs finds the first that lists the row |
| `Effects.DeleteBuild` | internal/agent/fwrules.go:523-546 | which row a button names and what becomes of it: gone, outgoing and unlisted rows are refused, any other is deleted by its spec |
| `Effects.RowsAreNamed` | internal/agent/fwplan.go:608-617 | in a consistent list every row has a spec and no two rows have one name |
| `Effects.DeleteBySpec` | internal/agent/fwrules.go:523-546 | every row of a consistent list has a spec; deleting by it takes out all rows of that traffic and no others, and its inverse gives the rows back |
| `Effects.DeletesExact` | internal/agent/fwbackend.go:535-565 | deleting specs that are in the table, one per traffic, is exact and removes exactly their traffic |
| `Effects.AddsExact` | internal/agent/fwplan.go:566-579 | adding specs over traffic the table does not know is exact and adds exactly theirs |
| `Restoring.BuildRestorePlan` | internal/agent/fwplan.go:566-579 | the two loops compute the functional restore plan |
| `Restoring.RestorePlanReaches` | internal/agent/fwplan.go:566-579 | the plan turns the current rules into the snapshot's by exact changes |
| `Restoring.RestoreUndone` | internal/agent/fwplan.go:566-579 | from the snapshot's rows, the plan's inverse gives back the rows there were before the restore |
| `SshPort.IsSshOnly` | internal/agent/fwbackend.go:492-510 | the loop decides whether a rule is about port 22 and nothing else |
| `SshPort.CountLeft` | internal/agent/fwbackend.go:554-564 | the count of IPv4 rows left is zero exactly when every IPv4 row is one of a deleted spec's |
| `SshPort.BuildSshPortPlan` | internal/agent/fwbackend.go:535-565 | the loop over the added specs computes the functional plan |
| `SshPort.PlainSpecsRead` | internal/agent/fwbackend.go:427-486 | a spec the narrower reader calls plain reads as a rule for anyone and anywhere with the same ports or app, or as one with a source port, which never decides |
| `SshPort.ReadersAgreeOnPlainRules` | internal/agent/fwbackend.go:427-486 | every spec that reads as a rule for anyone and anywhere is plain to the narrower reader too |
| `SshPort.OtherPortsUntouched` | internal/agent/fwbackend.go:535-565 | opening or closing port 22 changes the state of no other port, in either family, for any peer, whatever the list and the specs |
| `SshEffect.SshPortPlanWorks` | internal/agent/fwbackend.go:535-565 | from a consistent list the simulated plan leaves port 22 open (or closed) for an arbitrary host in every family ufw has, also when add replaces insert |
| `SshEffect.NoV6Decides` | internal/agent/fwbackend.go:535-565 | when no IPv4 row is left for insert, no IPv6 row decides port 22 either, so add is enough |
| `SshEffect.NoOpponentLeft` | internal/agent/fwbackend.go:528-565 | after opening no rule about port 22 alone refuses, after closing none admits, app rules included |
| `SshEffect.OnlySshIsDeleted` | internal/agent/fwbackend.go:488-510 | only rules about TCP port 22 alone are deleted that say the opposite or are the new rule already, source-port rules apart |
| `SshEffect.UnknownAppStays` | internal/agent/fwbackend.go:497-509 | an app rule is deleted only when the list shows the app with exactly port 22 |
| `SshEffect.InsertExactly` | internal/agent/fwbackend.go:554-565 | insert 1 is planned exactly when an IPv4 row is left or a deleted IPv4 row has a source port |
| `SshEffect.InsertIntoNothing` | internal/agent/fwbackend.go:554-565 | the latter happens: one source-port rule alone, and the insert is planned for an empty list |
| `SshEffect.SshPortPlanUndone` | internal/agent/fwbackend.go:105-116 | the plan and then its inverse give back the rows if and only if no limit (opening) or reject (closing) rule of exactly 22/tcp is in the list |
| `SshEffect.LeftoverIsLost` | internal/agent/fwbackend.go:535-565 | that happens from any consistent list: once such a rule is added, opening (or closing) port 22 cannot be taken back |
| `Guard.SshGuard` | internal/agent/fwplan.go:448-471 | the loops refuse exactly when an SSH port is kept from an admin peer, or closed to an arbitrary host in a family asked about; a refusal names a true instance |
| `Guard.GuardPassesExactly` | internal/agent/fwplan.go:448-471 | the guard passes exactly when every peer reaches each port after the change, or did not before and is decided by the same rows as printed, and no port closes for an arbitrary host in a family asked about |
| `Guard.GuardIsSound` | internal/agent/fwplan.go:448-471 | after a passed guard, whatever the policies before and after: every admin peer that reached an SSH port still does, and every arbitrary host does, in both families, if and only if the IPv6 question was asked or the policies answer it |
| `Guard.SkipCanBeUnsafe` | internal/agent/fwplan.go:461-463 | that exception is real: with the policy turned from allow to deny and one IPv4 rule left, the guard passes for any ports and IPv4 peers and IPv6 hosts lose SSH |
| `Guard.GuardKeepsDelivery` | internal/agent/fwplan.go:448-471 | the same for packets that no loose row hits: one let in before is let in after exactly when it is an admin peer's, or IPv4, or that condition holds |
| `Guard.RunPlan` | internal/agent/fwrules.go:713-759 | each answer is given exactly in its case: a plan that has expired or run already, other rules, an unreadable snapshot, a refused guard, a failed change, rules that cannot be read back, a guard refused on the rules read back, or on trial; on trial, what the guard promises holds of the rules read back, their policy included |
| `Guard.SimulatedPlanKeepsSsh` | internal/agent/fwrules.go:713-747 | a guard passed on the simulated list keeps SSH for all of them, as simulating keeps the policy |
| `FwdRich.ReadRich` | internal/agent/fwfirewalld.go:339-451 | the loop over the words of a rich rule computes the functional reader |
| `FwdListed.ListedLineReadsBack` | internal/agent/fwfirewalld.go:339-451 | every rule of firewalld's grammar reads back with exactly its own priority, family, addresses, port, protocol or service, action and limit, narrower when its source is negated or a set or it has a source port; it is refused exactly when its port does not parse or its family is not its source's |
| `FwdListed.HarmlessNeverDecides` | internal/agent/fwfirewalld.go:365-366 | an ICMP, masquerade or forward-port rule decides nothing |
| `FwdRich.RichRuleReadsBack` | internal/agent/fwfirewalld.go:497-512 | a rich rule the agent writes reads back as the same action, source, ports, protocol and family, and as one the agent could have written |
| `FwdRich.RichSpecReadsBack` | internal/agent/fwfirewalld.go:455-468 | the spec of such a rule reads back as the same rule |
| `FwdRich.RichRuleRoundTrip` | internal/agent/fwfirewalld.go:519-566 | for every allow, deny or reject with at most one tcp or udp port range: the written rich rule reads as a spec whose one argument is that rich rule again, to the word |
| `FwdRich.BuildFwdArgs` | internal/agent/fwfirewalld.go:519-566 | the checks and loops compute the functional argument list |
| `FwdRich.FwdArgsExactly` | internal/agent/fwfirewalld.go:519-566 | a change becomes its app's argument, or one for each of its ports and protocols, and none exactly when firewalld cannot be told the rule |
| `FwdRich.BuiltRuleIsNamed` | internal/agent/fwfirewalld.go:519-566 | every rule the bot builds becomes one argument for each protocol, the port itself or a rich rule that reads back as it, unless it is a limit |
| `FwdRich.ListedIsWritable` | internal/agent/fwfirewalld.go:339-451 | every listed rich rule that has a spec means what a rule the agent writes means |
| `FwdRich.ListedRuleIsNamed` | internal/agent/fwfirewalld.go:472-566 | the argument that deletes a listed rich rule by its spec names a rule that reads the same |
| `FwdRich.ListedPortIsNamed` | internal/agent/fwfirewalld.go:472-566 | the spec of a listed tcp or udp port entry becomes the one argument that names that entry |
| `FwdRich.ListedServiceIsNamed` | internal/agent/fwfirewalld.go:472-566 | the spec of a listed service becomes the argument that names it if and only if the name is one firewalld prints and no keyword of a spec |
| `FwdZone.ListService` | internal/agent/fwfirewalld.go:245-269 | the loop with its map from protocol to row computes the functional merge |
| `FwdZone.MergeCovers` | internal/agent/fwfirewalld.go:245-269 | some row of a service covers a TCP port exactly when some entry of the service does |
| `FwdZone.StableSortSorts` | internal/agent/fwfirewalld.go:222-224 | the sorted entries are the zone's, none lost or repeated, in order of group and priority, those of one group and priority in the order they had |
| `FwdZone.Gather` | internal/agent/fwfirewalld.go:173-221 | the loops over the zone's lists gather the functional entries |
| `FwdZone.BuildStatus` | internal/agent/fwfirewalld.go:173-240 | the loops over families and sorted entries give IPv4 rows and then IPv6 rows, numbered in order |
| `FwdStages.ServiceRowsHit` | internal/agent/fwfirewalld.go:245-269 | a row of a service decides for a peer exactly when the service is known, offers the port and the rule is certain to concern the peer |
| `FwdStages.RichEntriesHit` | internal/agent/fwfirewalld.go:199-221 | the entries of a rich rule decide exactly when the rule does, in its group, at its priority, with its action |
| `FwdStages.VerdictOfFirst` | internal/agent/fwfirewalld.go:222-240 | the state of the verdict on the zone's rows is that of the first entry hit in the sorted list, which is of the least group and priority hit, and unmanaged when none is |
| `FwdStages.StagedEvaluation` | internal/agent/fwfirewalld.go:173-240 | the verdict on the rows is firewalld's staged evaluation of the zone: negative priorities in order, any refusing rule, any port, protocol, service or accepting rule, positive priorities in order, and else the target |
| `FwdListed.ListedZoneIsStaged` | internal/agent/fwfirewalld.go:173-240 | for a zone of any rules of firewalld's grammar, the verdict is firewalld's staged evaluation of those rules themselves, and its target does the rest |
| `FwdListed.ListedLineIsShown` | internal/agent/fwfirewalld.go:199-240 | every rule that decides at all is shown in its families with exactly its own fields |
| `FwdStages.ZoneShowsTheUncertain` | internal/agent/fwfirewalld.go:186-198 | a service whose ports are unknown and a source port are shown in both families as what they may open |
| `FwdOrder.StagedHasOneAnswer` | internal/agent/fwfirewalld.go:173-240 | when the foremost rules of the deciding stage agree, the staged evaluation has one answer |
| `FwdOrder.OrderMattersExactly` | internal/agent/fwfirewalld.go:128-240 | for every zone and query: every other order of the zone's lists, each with the same hash, gives the same answer if and only if the foremost rules of the deciding stage agree |
| `FwdOrder.MovedDecides` | internal/agent/fwfirewalld.go:222-240 | a foremost rule of the deciding stage decides once it is moved before the others, and as it stands when it is listed first |
| `FwdOrder.SettledIsAgreed` | internal/agent/fwfirewalld.go:198-224 | distinct priorities of the deciding rules settle every query |
| `FwdOrder.OrderDoesNotMatter` | internal/agent/fwfirewalld.go:128-138 | two zones with the same lists, even only as sets, and the same target and service ports answer alike when the foremost rules of the deciding stage of one agree |
| `FwdOrder.UnsettledOrderMatters` | internal/agent/fwfirewalld.go:222-224 | wherever two foremost rules of the deciding stage disagree, one order of the zone's own lists opens the port and another closes it |
| `FwdOrder.TwoRulesDisagree` | internal/agent/fwfirewalld.go:198-224 | two rules for everyone of one negative priority, one accepting and one dropping, are such rules for every query |
| `FwdRestore.BuildZoneDiff` | internal/agent/fwfirewalld.go:906-934 | the loops over the five kinds give removals and then additions, of entries in their listed form only |
| `FwdRestore.RemovalsComeFirst` | internal/agent/fwfirewalld.go:906-934 | all removals come before any addition |
| `FwdRestore.PortFormIs` | internal/agent/fwfirewalld.go:57-58 | the port entries in form are exactly one number or two with a dash, of up to five digits, a slash and a transport protocol |
| `FwdRestore.FormsAre` | internal/agent/fwfirewalld.go:54-58 | what form each kind of entry must have |
| `FwdRestore.AfterDiff` | internal/agent/fwfirewalld.go:906-934 | after the difference has run, an entry in its listed form is there exactly when it is wanted, and any other exactly when it was there |
| `FwdRestore.DiffRestores` | internal/agent/fwfirewalld.go:906-934 | running the difference gives the wanted zone's hash if and only if name, target and other settings agree and every entry the zones do not share is in its listed form |
| `FwdRestore.UndoIsEnough` | internal/agent/fwfirewalld.go:880-901 | when no command fails, Restore does without a reload exactly under those conditions |
| `FwdRestore.Backend.Restore` | internal/agent/fwfirewalld.go:880-901 | it succeeds only with the snapshot's hash in place and no note, or after a reload with the note set; the zone and the note it leaves are stated in every case |
| `FwdRestore.Backend.Commit` | internal/agent/fwfirewalld.go:855-872 | the permanent zone after a Keep: every command run, or the commands before the first to fail run and then taken back, as far as their opposites go through |
| `FwdRestore.FailedKeepIsTakenBack` | internal/agent/fwfirewalld.go:863-868 | when every opposite goes through, taking back a failed Keep restores the permanent zone if and only if the first command about each entry changed something |
| `Trial.StepKeepsGood` | internal/agent/fwdeadman.go:325-449 | every step of either process, crash or restart keeps the invariant, whatever the step meets |
| `Trial.RunsAreGood` | internal/agent/fwdeadman.go:325-1009 | so does every run |
| `TrialRuns.RollbackPutsBack` | internal/agent/fwdeadman.go:608-640 | from any such point a rollback that succeeds leaves the files the trial began with, unless someone edited them, a command created a rule file, or a torn restore is misread |
| `TrialRuns.UndisturbedRollback` | internal/agent/fwdeadman.go:608-640 | over every run without a foreign edit, a created rule file or a misread tear, whatever crashes and fails in it: a rollback never takes the foreign-edit path, and one that succeeds leaves the files the trial began with |
| `TrialRuns.OverlayIsExact` | internal/agent/fwbackend.go:349-363 | writing a snapshot back gives exactly its files if and only if no rule file has appeared that it lacks |
| `TrialRuns.EachTrialEndsOnce` | internal/agent/fwdeadman.go:798-872 | over every interleaving of presses, timers and startups each trial ends at most once, by Keep or by rollback; one that was neither kept nor disturbed left the files as they were |
| `TrialRuns.EndsAreFinal` | internal/agent/fwdeadman.go:798-872 | an ended trial keeps its end, and its id is never pending again |
| `TrialRuns.StaleIdDoesNothing` | internal/agent/fwdeadman.go:798-872 | at any later point of any run, Keep, Roll back or a timer of a trial that has ended changes nothing |
| `TrialRuns.CrashAfterRestoreLeavesCleanUp` | internal/agent/fwdeadman.go:617-640 | after a crash between putting the files back and removing the record, the next rollback changes no rule file and only cleans up |
| `TrialRuns.FailureKeepsRecord` | internal/agent/fwdeadman.go:608-640 | over every run, whatever fails in it, a pending trial's record is on disk, with its id and the files it began with, exactly until the trial has ended |
| `TrialRuns.PendingTrialCanBeUndone` | internal/agent/fwdeadman.go:835-872 | from every reachable pending trial there are three steps that end it with the files it began with |
| `TrialRuns.SystemdOutlivesTheAgent` | internal/agent/fwdeadman.go:30-32 | a rollback by the systemd process goes on when the agent crashes, and ends the trial with its files |
| `TrialRuns.TornRestoreIsMisread` | internal/agent/fwbackend.go:349-363 | after a crash between the two writes of a restore the next rollback takes the foreign-edit path if and only if the hash after the change was recorded and the change had touched user.rules and the other file too |
| `TrialRuns.MisreadHappens` | internal/agent/fwbackend.go:349-363 | that happens from any fresh system: a trial that changes both rule files, a rollback cut between them, and the next rollback takes the foreign-edit path |
| `TrialRuns.TornRestoreIsFinished` | internal/agent/fwdeadman.go:608-640 | in every other case the next rollback that meets no failure puts the files back |
| `TrialTerms.DeadlineFollowsWindow` | internal/agent/fwdeadman.go:376-408 | over every run: a pending trial runs out when its window has passed since it began, or after a minute at the latest once it is recorded that there is no systemd timer |
| `TrialTerms.StartupKeepsTime` | internal/agent/fwdeadman.go:907-936 | startup rolls a pending trial back exactly from that time on and before it gives the trial its timer back |
| `TrialTerms.ChangedRulesAreBacked` | internal/agent/fwdeadman.go:325-449 | by the events alone, over every run, with crashes, failures and other people's edits in it: once the latest trial has changed the rule files and until it ends, its record is there and names an unpruned snapshot of exactly the files it began with |
| `TrialTerms.ChangesAreBackedOrKept` | internal/agent/fwdeadman.go:325-449 | by the events alone, over every run nobody else disturbs, whatever crashes and fails in it: files that are not those the latest trial began with were kept, or its record is there and names an intact snapshot of those |
| `TrialTerms.TheLogTellsTheEnd` | internal/agent/fwdeadman.go:608-853 | in such a run a step that ends the pending trial is a Keep, a finished rollback or an arming that failed, and unless it is a Keep it leaves exactly the files the trial began with |
| `TrialTimers.PendingTrialIsWatched` | internal/agent/fwdeadman.go:26-39 | over every run, whatever goes off, reboots, crashes or fails in it: a pending trial has an armed timer if and only if its systemd timer was armed and is still to go off or the agent still attends to it |
| `TrialTimers.SparedTrialIsWatched` | internal/agent/fwdeadman.go:26-39 | over every run in which nothing takes a timer from the pending trial: it has an armed timer, while no one works on it, if and only if systemd-run worked or the agent attends to it |
| `TrialTimers.OnlyStartupRearms` | internal/agent/fwdeadman.go:907-936 | a pending trial without a timer gets one again from a startup before its deadline and from no other step |
| `TrialTimers.StartupFollowsUp` | internal/agent/fwdeadman.go:907-936 | after any run with a pending trial, a reboot takes every timer, and the startup after it arms one again or, past the deadline, begins the rollback |
| `DeadMan.Switch.RunTrial` | internal/agent/fwdeadman.go:325-449 | what it did is a run of the state machine, none of its events someone else's, with a crash possible at each numbered step; refused or never started, it changed no rule file; on trial, record and snapshot hold the files before it and the record has the hash after it, when that could be taken; after a failed change whose rollback meets no failure the files are as before and the record is gone, and otherwise the record stays |
| `DeadMan.Switch.BeginTrial` | internal/agent/fwdeadman.go:365-409 | snapshot, record and arming come before any change of the rules, and each failure before that leaves them alone |
| `DeadMan.Switch.FinishTrial` | internal/agent/fwdeadman.go:411-449 | apply, record the hash, verify, and go on trial or back; back without a failure means the files as before |
| `DeadMan.Switch.Conclude` | internal/agent/fwdeadman.go:427-449 | a failed or unverified change is rolled back at once, any other goes on trial with the in-process timer |
| `DeadMan.Switch.StartSystemdTimer` | internal/agent/fwdeadman.go:395-400 | the deadline is the start and the whole window with a systemd timer, and at most a minute without one |
| `DeadMan.Switch.ArmLayer1` | internal/agent/fwdeadman.go:395-409 | the timer and the record of it, with that deadline; a record that cannot be written stops the timer again |
| `DeadMan.Switch.RollbackLocked` | internal/agent/fwdeadman.go:608-640 | a rollback is the two steps of the machine, and keeps the record when it fails |
| `DeadMan.Switch.PutRulesBack` | internal/agent/fwdeadman.go:608-672 | by the hash of the files now: nothing to do, restore the snapshot, or the foreign-edit path |
| `DeadMan.Switch.KeepTrial` | internal/agent/fwdeadman.go:798-832 | which answer Keep gives in which state; it never touches rule files or snapshots, stops the systemd timer before it can fail, and leaves record and in-process timer unless it succeeds |
| `DeadMan.Switch.RollbackTrial` | internal/agent/fwdeadman.go:835-854 | a Roll back press is a run of the machine |
| `DeadMan.Switch.AutoRollback` | internal/agent/fwdeadman.go:857-872 | so is the in-process timer |
| `DeadMan.Switch.RunFwRollback` | internal/agent/fwdeadman.go:981-1009 | so is the systemd run; success with the pending id means the record is gone, any other id changes nothing |
| `DeadMan.Switch.Reconcile` | internal/agent/fwdeadman.go:907-936 | startup prunes, then rolls an expired trial back or arms its timer again |
| `DeadMan.Switch.PruneSnapshots` | internal/agent/fwdeadman.go:966-975 | the snapshots left are the newest five, those of the last day, and the pending one |
| `Trial.PruneKeepsNewest` | internal/agent/fwdeadman.go:945-975 | a snapshot goes exactly when it is older than a day, not the one to keep and not among the newest five |
| `DeadMan.Switch.Crash` | internal/agent/fwdeadman.go:213-217 | a crash keeps what is on disk and drops lock, timers and the trial in memory |
| `SplitMessage.ApplyHtmlTags` | internal/telegram/telegram.go:683-720 | the scan with its stack edited in place computes the functional scan |
| `SplitMessage.SafeCut` | internal/telegram/telegram.go:760-770 | the loop backs the cut off to just before an unfinished tag, an unfinished entity or the start of a rune |
| `SplitMessage.ChooseCut` | internal/telegram/telegram.go:602-647 | the loop that shrinks the cut until chunk, prefix and closing tags fit ends, and computes the functional cut |
| `SplitMessage.HtmlVisibleEmpty` | internal/telegram/telegram.go:774-790 | the loop tells whether the bytes outside the tags are nothing but white-space runes, tags told by position and runes by code point |
| `SplitMessage.SplitIntoChunks` | internal/telegram/telegram.go:584-659 | the loops compute the functional message |
| `SplitShown.MessageIs` | internal/telegram/telegram.go:584-659 | the chunks are those of the pieces in order, left out exactly when a chunk has nothing but white space outside its tags; one empty chunk stands for none |
| `SplitShown.InkIsKept` | internal/telegram/telegram.go:584-659 | when no cut is inside a tag, the chunks stripped of tags and white space are together the UTF-8 text so stripped |
| `SplitShown.CleanInkIsKept` | internal/telegram/telegram.go:584-659 | the same for every clean message with room |
| `SplitCuts.EntitiesStayWhole` | internal/telegram/telegram.go:741-757 | a cut falls inside an entity only when the text left begins with it and a chunk with it would not fit |
| `SplitCuts.NewlineIsPreferred` | internal/telegram/telegram.go:611-616 | the last newline that leaves room is where the text is cut, when it is outside tags and entities and the chunk fits |
| `SplitCuts.TextFillsTheRoom` | internal/telegram/telegram.go:602-626 | text without one is cut as late as the room and its runes allow |
| `SplitProperties.TextIsKept` | internal/telegram/telegram.go:584-659 | the pieces cut concatenate to the text, and none is empty |
| `SplitProperties.ChunksFit` | internal/telegram/telegram.go:584-659 | every chunk, reopened and closing tags included, is within the limit unless it carries no more than the first rune of the text that was left |
| `SplitProperties.RunesStayWhole` | internal/telegram/telegram.go:760-770 | no rune of UTF-8 text is cut in two |
| `SplitProperties.ScanConcat` | internal/telegram/telegram.go:683-720 | scanning a text without an unfinished tag and going on is scanning the whole |
| `SplitTags.ReopensWhatIsOpen` | internal/telegram/telegram.go:584-659 | for every text and limit: the tags the splitter closes and reopens are those open in the text so far, at every position, if and only if every cut is harmless |
| `SplitTags.CutTracks` | internal/telegram/telegram.go:683-720 | one cut: the carried tags are right at every position after it if and only if the cut is harmless |
| `SplitTags.HarmlessIs` | internal/telegram/telegram.go:683-720 | for every text before and after: a cut inside a tag is harmless if and only if the whole tag opens or closes the same tracked name, if any, as the part after the cut does when read by itself, which is none unless that part holds a further < |
| `SplitTags.ReopensAfter` | internal/telegram/telegram.go:584-659 | after harmless cuts a chunk reopens exactly the tags left open by the text before it |
| `SplitProperties.CutIsGood` | internal/telegram/telegram.go:602-647 | in clean text, with room for the deepest nesting twice and the longest tag, no cut falls inside a tag |
| `SplitProperties.PiecesAreWhole` | internal/telegram/telegram.go:584-659 | then no piece ends inside a tag, and every chunk is within the limit |
| `SplitTags.CleanTextReopens` | internal/telegram/telegram.go:584-659 | then each chunk reopens exactly the tags left open by the text before it |
| `SplitTags.ChunksAreBalanced` | internal/telegram/telegram.go:584-659 | then, if the message closes all it opens, so does every chunk |
| `SplitTags.TooSmallALimitLosesTags` | internal/telegram/telegram.go:617-647 | at every limit from 3 on, a tag longer than the limit is cut in two and a later chunk does not reopen it |
| `SplitTags.NewlineInATagLosesIt` | internal/telegram/telegram.go:612-615 | at every limit from 3 on, the one the bot uses included, a newline inside a tag that fits can lose the tag: the first cut falls on the newline |
| `SplitTags.OpenedAgain` | internal/telegram/telegram.go:661-669 | the reopening prefix opens exactly the tags it is given |
| `SplitTags.ClosedAll` | internal/telegram/telegram.go:671-679 | the closing suffix closes exactly those, and nothing under them |
| `SplitTags.CaseIsIgnored` | internal/telegram/telegram.go:697-718 | a tracked tag is known by its name in any case, opening or closing |
| `Brute.BruteDetector.Record` | internal/sshwatch/brute.go:37-65 | the whole new state and the answer, as a function of the state before |
| `Brute.BruteDetector.Count` | internal/sshwatch/brute.go:68-79 | the number of remembered attempts in the window |
| `Brute.BruteDetector.Prune` | internal/sshwatch/brute.go:90-98 | exactly the addresses whose newest attempt has left the window are forgotten |
| `Brute.BruteDetector.NewestAttempt` | internal/sshwatch/brute.go:102-110 | the latest time of a list in any order |
| `Brute.PruningIsInvisible` | internal/sshwatch/brute.go:37-110 | for times that never go back, every Record and every Count answers as a detector that forgets nothing, Record exactly when the window holds the threshold and the last over-threshold attempt is at least a window old |
| `Brute.MemoryIsBounded` | internal/sshwatch/brute.go:37-110 | after each Record every remembered address has an attempt newer than two windows ago |
| `Brute.AlertsAreAWindowApart` | internal/sshwatch/brute.go:37-65 | two alerts for one address are at least a window apart |
| `Brute.SweepsAreAWindowApart` | internal/sshwatch/brute.go:37-65 | what is remembered of other addresses changes at most once a window |
| `Tokens.Book.MintTTL` | internal/tgui/confirm.go:119-135 | the store after a mint, eviction included; no token without a nonce or with one already there |
| `Tokens.Book.Evict` | internal/tgui/confirm.go:139-155 | expired tokens go first and then the oldest, to make room for one |
| `Tokens.Book.Rebind` | internal/tgui/confirm.go:185-191 | only a pending token's message changes |
| `Tokens.Book.Claim` | internal/tgui/confirm.go:196-201 | the answer of the checks in their order, and a winner is running |
| `Tokens.Book.Cancel` | internal/tgui/confirm.go:204-209 | the same checks, and a winner is gone |
| `Tokens.Book.Take` | internal/tgui/confirm.go:213-235 | the store is unchanged unless the press wins |
| `Tokens.Book.Finish` | internal/tgui/confirm.go:239-245 | a running token becomes done |
| `Tokens.TokensAreWonOnceByTheirOwner` | internal/tgui/confirm.go:119-245 | over every sequence of operations with fresh nonces each token is won at most once, by one Yes or one Cancel, and only by its actor, in its chat, on the non-zero message it is bound to then, before it expires |
| `TokenAnswers.PressWinsExactly` | internal/tgui/confirm.go:196-245 | over every sequence with fresh nonces: a press wins if and only if it comes from the user who asked, in place, on its known message, in time, on a token neither won, finished nor removed |
| `TokenAnswers.EveryPressIsAnswered` | internal/tgui/confirm.go:213-235 | every other press is answered by what the run did before: gone, expired, out of place, another user, at work, or done |
| `TokenAnswers.StoreTells` | internal/tgui/confirm.go:119-245 | a token is in the store exactly when it was minted and no late press, won Cancel or eviction has removed it, and its state is what the run made of it |
| `TokenAnswers.EvictedExactly` | internal/tgui/confirm.go:139-155 | a mint evicts a token exactly when the store is full and it has expired, or 255 tokens behind it have not |
| `TokenAnswers.OldestFirst` | internal/tgui/confirm.go:119-155 | the order list has the oldest token first |
| `TokenAnswers.YesNamesItsToken` | internal/tgui/confirm.go:164-201 | a Yes button names its token to the process that made it and to no other |
| `Tokens.NeverMintedNeverWon` | internal/tgui/confirm.go:213-235 | a nonce that was not minted is never won |
| `Tokens.StoreStaysBounded` | internal/tgui/confirm.go:119-161 | over every sequence of operations map and order list hold the same nonces, without duplicates, at most 256 |
| `Tokens.LiveTokensGoOnlyWhenFull` | internal/tgui/confirm.go:139-155 | a token that has not expired is evicted only when unexpired tokens alone fill the store |
| `PressLimits.PressLimiter.Allow` | internal/agent/ratelimit.go:50-71 | answer and new table as a function of the table before |
| `PressLimits.DroppingIsInvisible` | internal/agent/ratelimit.go:50-81 | for times that never go back, every press is answered as by a table that drops no bucket |
| `PressLimits.PressesAreBounded` | internal/agent/ratelimit.go:50-81 | from one press to another an actor's admitted presses cost at most a full bucket and the time between |
| `PressLimits.PressIsAdmittedExactly` | internal/agent/ratelimit.go:50-81 | a press is admitted if and only if with it the actor's admitted presses since any press cost no more than a full bucket and the time since |
| `SendLimits.ChatLimiter.Reserve` | internal/telegram/ratelimit.go:64-82 | the reservation under the lock: the bucket after it, possibly in debt, and the delay |
| `SendLimits.ChatLimiter.GiveBack` | internal/telegram/ratelimit.go:83-94 | a cancelled sleep returns its token |
| `SendLimits.SendsAreSpaced` | internal/telegram/ratelimit.go:64-94 | without a cancelled wait a chat's due times never go back, and the sends due in any window cost at most a full bucket and the window |
| `SendLimits.DueExactly` | internal/telegram/ratelimit.go:64-94 | a send is due at once, or as soon as the chat's sends from some one on to it cost no more than a full bucket and the time since that one |
| `Alerts.AlertEngine.Step` | internal/alert/alert.go:174-205 | the whole new state and which of fire and resolve it is, never both |
| `Alerts.AlertEngine.Threshold` | internal/alert/alert.go:121-149 | the hysteresis around the limit, in both directions, as one sample |
| `Alerts.AlertEngine.Check` | internal/alert/alert.go:156-160 | a failing or passing check, as one sample |
| `Alerts.AlertEngine.Emit` | internal/alert/alert.go:209-224 | an event is deduplicated by its key's last fire and the cooldown, and silent while snoozed |
| `Alerts.RunsRefineHistory` | internal/alert/alert.go:121-224 | over every run each answer is the one a full history of the operations and answers before it calls for |
| `Alerts.SampleFiresOnlyWhenDue` | internal/alert/alert.go:174-205 | a threshold or check fires only un-snoozed, after at least Sustain violating samples in a row since the last Seed, and at least the cooldown after the key's last fire of any kind |
| `Alerts.SnoozedIsSilent` | internal/alert/alert.go:72-116 | nothing is emitted for a snoozed key |
| `Alerts.ResolveHasStart` | internal/alert/alert.go:174-205 | before every resolve there is a fire or a failing Seed with no resolve in between |
| `Alerts.AfterSnoozeFires` | internal/alert/alert.go:71-76 | a sustained violation after a snooze fires if and only if the key was not firing already |
| `Alerts.StillViolatingStaysSilent` | internal/alert/alert.go:71-76 | fire, snooze, still violating: nothing is emitted when the snooze is over |

## Left out

- Live kernel tables and what a reload does to them: the trial is proved about the rule files, their hash and the parsed list. After a failed reload a retry meets the recorded hash and only cleans up.
- Reading `ufw status`, `--list-all`, `ss` and sshd output, and writing specs as text: specs, rows and rich rules are words, with port words, addresses and quoted values already parsed. An address word on its own, and an app, protocol or interface word that is not text, read as nothing; a service whose name is a number is not a name here.
- `TrialRuns.RollbackPutsBack`: a foreign edit, a rule file created during the trial (`TrialRuns.OverlayIsExact`) and a torn restore that is misread (`TrialRuns.TornRestoreIsMisread`) are the exceptions.
- `TrialRuns.EachTrialEndsOnce`: claims nothing about a kept trial having been applied in full; a crash before the hash is recorded leaves a trial that startup arms again and Keep accepts.
- `DeadMan.Switch.PutRulesBack`: on the foreign-edit path what the revert leaves and whether SSH is at risk are parameters; the texts of outcomes and rule diffs are not modelled.
- `DeadMan.Switch.RunTrial`: detecting the backend, the plan's preparation and the verification are single parameters here; `Guard.RunPlan` states what the last two are for a planned change. It models the ufw backend, whose Keep needs no commit.
- `TrialTimers.PendingTrialIsWatched`: deadlines are left out, and starting the systemd timer and recording it are one step.
- Message ids, keyboards, the countdown and `rebindTrial` of a trial: display only.
- `Guard.RunPlan`: its SSH ports and admin peers are parameters; probing them is left out. So is the SSH line that warns about trusted hosts.
- The store of planned changes (`fwPlans`): its expiry and size limit are easy next to the confirm tokens', on which running a plan at most once rests.
- `FwdStages.StagedEvaluation`: is about the state of the verdict; its lists of exceptions and unsure rows are not characterised.
- `FwdZone.StableSortSorts`: the sort is a library call in the program and a function here.
- `FwdRestore.Backend.Restore`: the zone is the one the snapshot names, and nothing but the commands changes it meanwhile.
- `Simulation.SimulateInPlace`: rows are a sequence that the loops reassign; the program edits a cloned slice, so aliasing does not arise.
- `SplitShown.InkIsKept`: is about UTF-8 text; in other bytes a tag can stand inside a white-space rune.
- `SplitTags.CleanTextReopens`: goes one way, from a condition that can be checked before the call; `SplitTags.ReopensWhatIsOpen` is exact, in terms of the cuts made.
- `PressLimits.PressLimiter.Allow`: credit is counted in units of time rather than in fractions of a token, so rounding is left out. The same holds for the chat limiter.
- `SendLimits.SendsAreSpaced`: assumes no cancelled wait, whose returned token lets a later send be due sooner.
- `Tokens.TokensAreWonOnceByTheirOwner`: nonces are taken never to repeat; the random source is a parameter.
- Values of an alert, its text and severity: only whether it fires, resolves or stays quiet.
- Self-update signatures, configuration, procfs parsers, geo-IP, the bot's router and its authorization branches, and key escaping: each is settled by reading one branch or rests on a library.
