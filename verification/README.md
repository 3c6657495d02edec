# The fleet's controllers and protocols, verified

A fleet daemon (the coordinator) runs beside an agent on each host. This project
models the parts of them that keep state over time against an environment that
loses messages, restarts, or changes its mind, and proves what they promise:

- the **night cap**: each tick drains or resumes runners so that at most so many
  are busy, and gives free slots to the oldest queued jobs (`NightCap`, `Slots`,
  `NightCapMemory`, `NightCapLoop`, `NightCapBound`); its window and the wall-clock arithmetic of it
  (`NightHours`, `LocalTime`);
- the **host command queue** with its leases, retries and the agent's cache of
  results (`CommandQueue`, `CommandFates`, `CommandDelivery`, `CommandLease`,
  `CommandBatches`, `CommandStarts`);
- a **commit's checks**: the rollup over copies of runs (`Rollup`, `RollupOrder`,
  `RollupCopies`, `RollupListing`), GitHub's own verdict (`GithubView`), which set a caller means
  (`Targets`), and the loop that waits for an answer (`Waiting`);
- **alerts** as intervals, with debounce, settle timers and dismissals (`Alerts`;
  `AlertHistory` states what the intervals of one key have to be, `AlertTimers` when
  settle timers tell the truth);
- the **admission log**: the lines of a growing file (`LogLines`), read locally
  (`Admission`) and shipped from agent hosts (`Shipping`, `ShippingRuns`,
  `ShippingRepeats`);
- the **sweeps** over job intervals (`Sweep`);
- **confirmations** and their canonical text (`Canonical`, `CanonicalText`,
  `Confirm`);
- **drains**: when one is put back, and who may take a marker away (`Drains`,
  `DrainOwners`, `DrainMarkers`);
- the **history backfill** and its budget (`Backfill`).

Objects whose methods change their fields are classes, loops are loops, and each
such method is proved against a function of its inputs or old state; what the
system promises is then proved of those functions, over every run of a state
machine where the promise is about runs. What comes from outside (clocks, GitHub,
the network, random tokens, tables of another process) is a parameter: an event
chosen freely, or a function of how often it was asked.

Results that differ from what the names, comments or tests suggest, each stated
exactly below:

- idle ephemeral runners, and runners without a directory here, are counted by the
  cap but cannot be parked; a host stays within the plain cap exactly when none of
  them takes jobs, or all its live runners fit under the cap together
  (`PlainCapIff`, `EphemeralRunnersEscapeTheCap`);
- a command runs at most once, within a window of 256 executions, exactly when
  batches are done within the five-minute lease (`AtMostOnceIff`,
  `LateBatchRunsTwice`); and wherever a host stops, a command begins at most three
  times (`StartsAtMostThrice`);
- the latest copy of a run does not depend on their order exactly when one copy
  outranks all others; with attempts missing there may be none
  (`OrderDoesNotMatterIff`, `MissingAttemptsDependOnOrder`);
- a row laid over a view that holds a run twice can hide a copy later than both the
  first one held and the row, and only then (`OverlayIsLatestIff`,
  `OverlayCanLoseALaterCopy`);
- a settle timer outlives a host-wide alert, so a runner that came back meanwhile
  counts as settled as soon as it is seen offline again; it cannot happen exactly when
  there is no settle window, or one runner offline is already a host-wide alert, or
  the fleet is smaller than such an alert takes (`TimersStayTrueIff`,
  `TimerOutlivesHostAlert`);
- dismissing a failing workflow also dismisses the workflows of that repository
  named alike up to the first colon, and only these (`DismissalCovers`,
  `DismissalHidesAnother`);
- asked for a time the clock skips, `localInstant` may never return: exactly when the
  jump is a minute or more, not whole minutes, and ends late in the span searched
  (`SkippedEndsIff`, `LiberiaStandsStill`);
- outside the window no next opening is given exactly when a clock set back since has
  already read tomorrow's (`NightHours.NightWindow`, `SetBackHidesNextStart`);
- a line longer than one read stops all shipping after it (`ProgressIff`);
- the lines of an admission log cut short are read from its start only if a pass finds
  it shorter than the cursor and with a complete line; where it grows past the cursor
  first, those before the cursor are lost (`CutLog`, `CutLogIff`);
- a heartbeat's answer that arrives after a later one's sets the shipping offset
  back, and lines whose taking was already saved are shipped again
  (`LateAnswerRepeats`, `RepeatsMeanSetBack`);
- a confirmation is used up only when its token is sent as a string
  (`DeletedHolds`);
- a run list of the backfill counts as read though the rate limit or the twentieth
  page cut it short, unless a page failed (`Backfill.ListPhase`);
- a drain put back late writes the marker again after a resume, and under no owner
  takes over a marker that changed hands after it was looked at (`ReassertLate`,
  `LateReassertTakesOver`, `LateReassertUndoesResume`); on the coordinator's host
  its own controllers are safe from that (`ChainMarkersStay`);
- the histogram of a sweep adds up to the jobs' durations exactly when the running
  count is never negative: a row that ends before it starts breaks that where no
  other runs meanwhile (`Conservation`, `ReversedRowBreaksConservation`,
  `CoveredReversedRowConserves`).

`dafny verify dfyconfig.toml` checks everything.

## Model

| member | source | states |
|---|---|---|
| Slots.AssignFromNone | dashboard/lib/night-cap.js:307-317 | the assignment gives distinct jobs to distinct fitting runners, at most as many as there are slots, each job the best runner not kept for an older job; a job left out lost every slot to older jobs, or every runner it fits |
| NightCap.SortKeepsAll | dashboard/lib/night-cap.js:304-306 | sorting by age loses and repeats no job |
| NightCap.SortKeepsOrder | dashboard/lib/night-cap.js:304-306 | and jobs queued equally long stay in the order they were listed |
| NightCap.DecideNightCap | dashboard/lib/night-cap.js:258-380 | one step, as the code takes it: its memory, slots, held runs, actions, deferred actions and counts are those of the functions the next rows characterise by the runners, jobs, clock and memory alone |
| NightCapMemory.WaitingMeans | dashboard/lib/night-cap.js:304-306 | the jobs that wait are those queued, as often as they are, whose cause a runner would help and that a runner here, not ephemeral and with a directory, could start: of the repository and with the labels, whatever their case |
| NightCapMemory.SlotCountMeans | dashboard/lib/night-cap.js:298-302 | while the cap serves its window there are as many slots as maxBusy leaves over the runners with a job, and else none |
| NightCapMemory.SlotMeans | dashboard/lib/night-cap.js:307-317 | a slot is a waiting job on an idle runner that can take it, and no runner left for it was nearer: online and unmarked, else told to resume less than retryMs ago, else parked by the cap, else listed later |
| NightCapMemory.LeftMeans | dashboard/lib/night-cap.js:307-317 | a job without a slot lost them all to older jobs, or every runner that would do |
| NightCapMemory.HeldMeans | dashboard/lib/night-cap.js:319-322 | a run is held exactly when one of its jobs waits and no slot bears that job's key |
| NightCapMemory.AskedIff | dashboard/lib/night-cap.js:278-346 | a drain or resume is asked for exactly of a runner here of which marker, jobs, slot and cap call for it, and to which it was not sent less than retryMs ago; it is issued unless the host is off |
| NightCapMemory.AskedInOrder | dashboard/lib/night-cap.js:324-346 | the actions come in the order of the runners, one for each at most |
| NightCapMemory.MemoryIff | dashboard/lib/night-cap.js:272-291 | remembered after a step is exactly what was sent in it, as of now, and what was sent less than retryMs before, was not sent anew, and is not of a parked runner idle without a slot |
| NightCapMemory.NotSentAgain | dashboard/lib/night-cap.js:270-291 | over any run of steps, whatever runners and jobs do, an action sent is not asked for again within retryMs, unless a step between showed it in effect, or the runner to resume without its slot |
| NightCapLoop.StepSlotsAreGood | dashboard/lib/night-cap.js:298-322 | the slots of a step are the oldest-first assignment over the jobs a runner here could take, within maxBusy less those busy |
| NightCapLoop.ActionsAreSafe | dashboard/lib/night-cap.js:324-346 | an issued action resumes only a runner the cap drained, drains only an unmarked one, and a busy one only over the cap with its Worker showing; nothing is issued while the host is off |
| NightCapLoop.TickKeepsTruth | dashboard/lib/night-cap.js:272-291 | after a tick that takes effect, a remembered drain is a runner carrying the cap's marker, and a remembered resume one that does not |
| NightCapLoop.LoadNeverRises | dashboard/lib/night-cap.js:258-351 | over any run of ticks, job starts, Workers showing, finishes and runners going offline in an enforcing window, the larger of the load and the cap, plus the unmarked online runners beyond its reach, never rises, and nor do those runners |
| NightCapBound.PlainCapIff | dashboard/lib/night-cap.js:258-351 | from a host within the cap no such run leads past maxBusy if and only if no unmarked online runner is beyond the cap's reach, or the runners that are busy, open or parked by the cap are within maxBusy all together; so too when each queued job has its own key |
| NightCapLoop.EphemeralRunnersEscapeTheCap | dashboard/lib/night-cap.js:265-268 | a concrete host with an idle ephemeral runner whose load passes the cap in one tick |
| NightCapLoop.WindowEndResumesAll | dashboard/lib/night-cap.js:296-299 | outside the window, after one step a runner carries the cap's marker exactly if it did before and the cap may not act on it: no directory here or ephemeral, observe mode, or the host off; no other marker changes |
| NightCapLoop.OverCapDrains | dashboard/lib/night-cap.js:329-336 | over the cap, every working runner the cap may touch carries its marker after the step |
| NightCapLoop.DrainedFinishLowersLoad | scripts/drain-runner.sh:31-37 | the end of a marked runner's job takes one off the load |
| LocalTime.ExactUnlessSkipped | dashboard/lib/night-cap.js:161-164 | near at most one transition, some candidate shows the asked time exactly unless the clock skips it, and the least of them is the first instant at or past it |
| LocalTime.Bisect | dashboard/lib/night-cap.js:170-173 | the bisection ends, at most a minute apart, between an instant too early and one not, for any zone under the condition of the next row |
| LocalTime.BisectionEndsIff | dashboard/lib/night-cap.js:170-173 | where the clock passes the asked time once, the bisection ends if and only if its span is under a minute, or whole minutes, or the clock is past the time already at the last whole minute but one of it |
| LocalTime.SkippedEndsIff | dashboard/lib/night-cap.js:165-174 | for a time the clock skips, the search from the least to the greatest candidate ends if and only if the jump is under a minute, or whole minutes, or comes early enough in that span |
| LocalTime.LiberiaStandsStill | dashboard/lib/night-cap.js:165-174 | a zone whose clock jumps by 44.5 minutes and a time it skips for which no candidate is exact and the search never ends |
| LocalTime.WholeMinutesAnswer | dashboard/lib/night-cap.js:160-174 | with sampled offsets of whole minutes there is always an answer |
| LocalTime.JumpFound | dashboard/lib/night-cap.js:165-174 | in a skipped hour the bisection ends less than a minute past the jump, and at it when the jump is whole minutes into the span |
| LocalTime.LocalInstant | dashboard/lib/night-cap.js:160-175 | the first instant whose wall clock is at or past the asked time, on a plain or repeated hour with any offsets; in a skipped one, where the search ends, the minute of the jump |
| NightHours.NightWindow | dashboard/lib/night-cap.js:190-209 | under a fixed offset, active exactly when the time of day lies in the cyclic window, else startsAt, or endsAt while active, is the next such moment; where the clock changes at most once nearby, active exactly when the window of some local day has opened, as the clock first reads its times, and not closed; endsAt is the first reading of its close and until what the clock then shows; startsAt is the first reading of the next opening, and missing exactly when a clock set back has already read tomorrow's |
| NightHours.HhMmMeans | dashboard/lib/night-cap.js:205-206 | a time of day is told by two digits of the hour, a colon and two of the minute |
| NightHours.SetBackHidesNextStart | dashboard/lib/night-cap.js:197-202 | in the repeated hour before midnight, a clock set back and a window just after midnight give no next opening |
| CommandQueue.Coordinator.QueueCommand | dashboard/fleetd.js:786-791 | a key already queued gives its row's id and changes nothing; otherwise a pending row is added |
| CommandQueue.Coordinator.ClaimLocalCommands | dashboard/fleetd.js:1036-1042 | claims the oldest eight pending rows of the host with attempts left, marking exactly those sent |
| CommandQueue.Coordinator.ReleaseCommandClaim | dashboard/lib/ha.js:219-226 | a sent row goes back to pending with its attempt taken back, and only such a row changes |
| CommandQueue.Coordinator.ResetExpiredCommands | dashboard/lib/ha.js:255-264 | every row sent before the lease fails once its attempts are spent and is offered again otherwise; no other row changes |
| CommandQueue.Coordinator.Heartbeat | dashboard/fleetd.js:3866-3895 | the answer holds the claims whose token could be minted, and the other claims are put back |
| CommandQueue.Coordinator.Result | dashboard/fleetd.js:3929-3956 | a result counts only for the host's own row while it is sent; the outcome and the clipped text are recorded once |
| CommandFates.HeartbeatTakes | dashboard/fleetd.js:1036-1042 | a heartbeat takes exactly the host's waiting commands with fewer than eight older ones waiting; those minted go out, sent now and counted, the others wait on, and nothing else changes |
| CommandFates.LapsedIsSettled | dashboard/fleetd.js:1020-1034 | in every run, once leases are looked at, a command out for longer than its lease failed as not acknowledged if it went out three times, and else waits again; no other command changes, and none is left out past its lease |
| CommandFates.ResultEndsIt | dashboard/fleetd.js:3929-3956 | a result ends exactly a command of the sender's that is out, as done or failed, with the first 4000 characters of its text |
| CommandFates.RunKeepsNoted | dashboard/fleetd.js:1020-1042 | in every run a command has an end and a result noted exactly when it is final, and nothing noted lies in the future |
| CommandFates.EveryCommandEnds | dashboard/fleetd.js:1020-1042 | whatever a host does or fails to do, after more than seven rounds for each command of the table, each a heartbeat and a later look at leases past it, every command queued for it by then is done or failed, when tokens can be minted |
| CommandDelivery.Agent.RememberCommandResult | dashboard/agent.js:193-200 | the result is kept under its key, and the oldest entries beyond 256 go |
| CommandDelivery.Agent.RunBatch | dashboard/agent.js:697-710 | the loop over a batch leaves the cache and results of BatchOf, which the next two rows tie to the whole system and to what was executed |
| CommandBatches.BatchIsRun | dashboard/agent.js:697-710 | in any run in which no other batch takes a step on the host, whatever else happens, a batch that is through leaves exactly the cache, executions and results of that loop |
| CommandBatches.BatchAnswersTruly | dashboard/agent.js:701-703 | over the newest 256 executions a batch keeps the cache the newest 256, runs nothing last executed among them, and answers each command with what an execution of it said |
| CommandDelivery.TableOverRuns | dashboard/fleetd.js:767-791 | in every run attempts is how often the command was put in a response and at most 3, a pending row has an attempt left, done and failed are final, and a key names one row |
| CommandDelivery.SameKeySameCommand | dashboard/lib/ha.js:184-193 | queueing the same key twice, even with other arguments, names the same row |
| CommandDelivery.CommandsSettle | dashboard/fleetd.js:1020-1042 | without releases a command's row changes at most seven times in its life |
| CommandDelivery.AtMostOnce | dashboard/agent.js:185-200 | if batches are done within their lease, whatever is lost or repeated, two executions of one command are at least 256 other executions apart, and a final row tells what an execution said or that none was heard of |
| CommandLease.AtMostOnceIff | dashboard/fleetd.js:1020-1029 | for every limit on how long a batch may last: all runs from an empty queue keep executions of a command apart if and only if the limit is at most the lease |
| CommandDelivery.StartIsSound | dashboard/agent.js:180-184 | an empty queue and cache satisfy all that the runs keep |
| CommandLease.LateBatchRunsTwice | dashboard/agent.js:150-154 | with any longer limit some run from an empty queue executes a command twice in a row |
| CommandStarts.StartsAtMostThrice | dashboard/fleetd.js:1036-1042 | from an empty queue, whatever is lost or late, and wherever the host stops, a command begins to run no more often than it went out, so at most three times |
| Rollup.LatestCopyWins | dashboard/lib/checks.js:27-32 | with attempts present and no ties, the copy kept of each run is the latest one |
| RollupOrder.OrderDoesNotMatter | dashboard/lib/checks.js:81-86 | two listings of the same copies merge to the same rows when each run has a copy that outranks its others |
| RollupOrder.OrderDoesNotMatterIff | dashboard/lib/checks.js:27-32 | every order of the copies merges to the same rows if and only if each run has a copy kept against each other one on either side: the higher attempt, else, where an attempt is missing or equal, the later update |
| RollupOrder.RankedHasWinners | dashboard/lib/checks.js:23-26 | with attempts present and no ties each run has such a copy |
| RollupOrder.MissingAttemptsDependOnOrder | dashboard/lib/checks.js:27-32 | with an attempt missing, the same three copies listed in two orders merge to different rows |
| Rollup.MergeCopies | dashboard/lib/checks.js:82-85 | the loop over active and recent rows keeps the merge of the copies |
| Rollup.ReadPRs | dashboard/lib/checks.js:94-101 | the loop reads off each PR's head, and the newest run of each workflow on any commit of the PR |
| Rollup.HeadMeans | dashboard/lib/checks.js:96-101 | the head of a PR is what the row with the greatest id among those that name one names, and there is none exactly when none does |
| Rollup.SameCommitMeans | dashboard/lib/checks.js:36-43 | two shas are of one commit exactly when both are there and agree, whatever the case, as far as both go |
| Rollup.SupersededMeans | dashboard/lib/checks.js:111-118 | a finished run is superseded exactly when its commit is the one the PR's newest row to name a head names, and the workflow ran later for the PR |
| Rollup.SetMeans | dashboard/lib/checks.js:104-122 | a commit's set is the newest run of each workflow, named after the first with a PR; green exactly when all finished and passed and on the PR's head none ran later; red exactly when all finished, none ran later, and one did not pass; failed are the finished ones that did not pass and did not run later |
| RollupListing.KeptCopy | dashboard/lib/checks.js:27-32 | where attempts are told a run is kept as its latest copy, of equals the first listed |
| RollupListing.LatestMeans | dashboard/lib/checks.js:27-32 | of two copies the higher attempt is kept, else, where an attempt is missing or equal, the later update, else the first |
| RollupListing.AllRunsMean | dashboard/lib/checks.js:81-86 | each run listed has one row, one of its copies, and where attempts are told the latest |
| RollupListing.GroupsMean | dashboard/lib/checks.js:87-92 | runs are one set by repository and commit, without a commit by branch, else each alone |
| RollupListing.WorkflowsMean | dashboard/lib/checks.js:104-106 | named runs are of one workflow by name, each unnamed one is its own |
| RollupListing.RunsByName | dashboard/lib/checks.js:106 | a set's runs are listed by name as names collate, those of one name in the order they first came |
| RollupListing.ListingMeans | dashboard/lib/checks.js:103-142 | a set is listed exactly when it is the rollup of some row's group, each group once; pending sets come first, then those updated last |
| RollupListing.SortKeeps | dashboard/lib/checks.js:138-142 | and sets of one rank stay in the order of their groups |
| RollupOrder.RollupIgnoresOrder | dashboard/lib/checks.js:81-142 | then the whole rollup does not depend on the order copies arrive in |
| RollupCopies.MergeRunPages | dashboard/lib/github.js:78-86 | merging pages keeps the merge of all copies, which without ties is the latest copy of each run |
| RollupCopies.LaidWhere | dashboard/lib/checks.js:253-258 | a laid row stands last among the unfinished runs or first among the recent ones, in place of every copy of it |
| RollupCopies.OverlayIsLatest | dashboard/lib/checks.js:249-260 | rows laid over a view that holds each of those runs at most once give the rollup what listing them after it would |
| RollupCopies.OverlayIsLatestIff | dashboard/lib/checks.js:249-260 | with attempts present and no ties, for any view and rows, they do if and only if of no such run the view holds a copy later than both the first copy held and the fresher rows |
| RollupCopies.OverlayCanLoseALaterCopy | dashboard/lib/checks.js:253-256 | with two copies of a run in the view a later copy can be lost |
| GithubView.LatestRuns | dashboard/lib/checks.js:288-295 | the loop keeps each workflow's run with the greatest id, the first of equals |
| GithubView.NewestMeans | dashboard/lib/checks.js:288-295 | the run kept for a workflow is one no other run of it is newer than |
| GithubView.GreenMeans | dashboard/lib/checks.js:298-333 | GitHub's green holds exactly when there is something to pass, every newest run with its jobs and every other check finished and passed, and nothing changed for settleMs before the answer |
| GithubView.RedMeans | dashboard/lib/checks.js:314-322 | red exactly when there is something, every newest run with its jobs and every other check finished, and not all of them passed; all else is pending |
| GithubView.SameWorkflow | dashboard/lib/checks.js:288-293 | runs are of one workflow by GitHub's number for it, where a run has none by name, else by themselves |
| Targets.FoundMeans | dashboard/lib/checks.js:154-169 | where the commit is known, found is the first listed set of that repository, PR, branch, sha and commit, as far as they are given, and nothing exactly when there is none |
| Targets.StandInMeans | dashboard/lib/checks.js:167-169 | where no row of the PR names a head, the first of the matching sets with the newest run stands in |
| Targets.CommitMeans | dashboard/lib/checks.js:160-166 | the commit asked for is the head given, else what the PR's row with the greatest id that names a head names, the first of equals |
| Targets.DecisionMeans | dashboard/lib/checks.js:193-195 | green and red are the found set's own and beat whatever makes waiting pointless; the rest is pending |
| Targets.SettledHidesNoPending | dashboard/lib/checks.js:138-142 | a settled answer about a commit hides no pending set of that commit, though it be listed under shas of different lengths |
| Targets.SettledMeans | dashboard/lib/checks.js:193-195 | a listed set that is green has only finished, passed runs; a red one only finished runs, one of them failed |
| Waiting.ReadFailed | dashboard/lib/checks.js:525-530 | each failed run with a positive id is asked of GitHub, and its answers are laid over the rows in the order they came |
| Waiting.RefreshedHolds | dashboard/lib/checks.js:525-530 | of the rows asked for, each answered run is held by its last answer, and nothing is held GitHub did not say |
| Waiting.WeighFleet | dashboard/lib/checks.js:503-569 | the first half of a round ends only on what was judged of this round's view and, for a green, on an answer of GitHub for the head it judged; it leaves the wait open only when the view is not red, is called pointless by a stale view at most, no orphan holds it up, and for a green GitHub has not finished; it repeats exactly when the head moved |
| Waiting.ConfirmGreen | dashboard/lib/checks.js:532-536 | for a green GitHub is asked exactly when it was not within confirmMs, and the head moved exactly when it now names another commit |
| Waiting.WeighGitHub | dashboard/lib/checks.js:570-596 | the second half ends on GitHub's finished answer, or pending once the time is up; it leaves the wait open only when GitHub has no finished answer, and then sleeps at least ten milliseconds and no longer than is left |
| Waiting.CrossCheck | dashboard/lib/checks.js:570-577 | GitHub is asked exactly when the next cross-check is due, sooner for a stale or empty view, and not while a green is held |
| Waiting.EndHolds | dashboard/lib/checks.js:532-596 | what the loop rests an end on implies what the answer claims: of the runs and checks of GitHub's last answer, of the runs of the set, of the view, and for pending that none of them was finished |
| Waiting.WaitForChecks | dashboard/lib/checks.js:483-598 | green only if GitHub's last answer in this call shows all passed and quiet, and the fleet's set, if handed on, is green for the same head; red only if that answer shows all finished and one not passed, or a finished run of the fleet's set did not pass; pointless as well founded; pending only when the time is up and neither had finished; with a clock that moves only in sleep it ends by itself, within ten milliseconds of its limit |
| AlertHistory.RunRecordsIntervals | dashboard/lib/alerts.js:669-708 | after any run of evaluations and restarts the rows of a key are the intervals its history calls for, ended at the first moment gone of the absence that closed them |
| AlertHistory.IntervalsInOrder | dashboard/lib/db.js:258-274 | with a clock that does not go back a key's intervals are disjoint and in order, each closed no earlier than opened, only the last open |
| AlertHistory.ShortAbsenceNeverSplits | dashboard/lib/alerts.js:691-699 | an absence shorter than the debounce, not superseded, starts no new interval, restarts or not |
| AlertHistory.LongAbsenceClosesAtFirstGone | dashboard/lib/alerts.js:690-705 | an absence that reaches the debounce, or is superseded, closes the interval at the first moment it was gone |
| AlertHistory.TimerMeans | dashboard/lib/alerts.js:185-196 | a settle timer runs exactly when the runner was seen offline and not seen back since, from the first such look |
| AlertTimers.TimersStayTrueIff | dashboard/lib/alerts.js:566-598 | over every run from an empty table, for a fleet of any size: a running timer means offline at every look since it was set, and a runner's alert opens only after a whole window offline, if and only if there is no settle window, or one runner offline is host-wide, or the fleet has fewer runners than that takes |
| AlertTimers.TimerOutlivesHostAlert | dashboard/lib/alerts.js:576-581 | otherwise some run, through a host-wide alert that opens, clears and closes, opens a runner's alert though it was back at the look before |
| AlertHistory.HeldMeans | dashboard/lib/alerts.js:185-196 | over any calls, a condition counts exactly when it was true at an earlier call and ever since, the first of them that long ago |
| Alerts.ScopeOfNewFail | dashboard/lib/alerts.js:145-149 | the scope of a failing workflow does not depend on the run: it is the repository with the workflow's name up to its first colon |
| Alerts.DismissalCovers | dashboard/lib/alerts.js:145-149 | two failing workflows share a scope exactly when they are of one repository and named alike up to the first colon |
| Alerts.DismissalHidesAnother | dashboard/lib/alerts.js:145-149 | two workflows of different names that do |
| Alerts.Engine.constructor | dashboard/lib/alerts.js:151-170 | an engine over an empty table records an empty past |
| Alerts.Engine.Sustained | dashboard/lib/alerts.js:185-196 | one call: the entry takes the step of the timer that HeldMeans characterises over all calls, and the answer is whether it is old enough |
| Alerts.Engine.Carry | dashboard/lib/alerts.js:674-684 | a finding opens its interval, never a second one, or carries on the one open |
| Alerts.Engine.Clear | dashboard/lib/alerts.js:686-705 | an alert not found waits out its debounce or closes at the moment it was first gone |
| Alerts.Engine.Reconcile | dashboard/lib/alerts.js:669-708 | every key takes the step its finding calls for; what is clearing is what is open and not found, all debounced and within the window |
| Alerts.Engine.OfflineFindings | dashboard/lib/alerts.js:558-598 | with several runners offline or the host's alert open, the host's alert stands for them and replaces theirs; else each settled runner has its own; timers step accordingly |
| Alerts.Engine.Evaluate | dashboard/lib/alerts.js:248-549 | leaves maps, rows and timers as the whole past calls for, and never the host's alert and a runner's both open |
| Alerts.OfflineAlertsMean | dashboard/lib/alerts.js:558-598 | after an evaluation the host's alert is open exactly while enough runners are offline and for the debounce after; a runner's own exactly while it is offline, nothing stands for it, and it was open already or offline for the settle window, and for the debounce after |
| Alerts.OtherAlertsMean | dashboard/lib/alerts.js:669-708 | any other alert is open exactly while its condition is found |
| Alerts.Engine.Reload | dashboard/lib/alerts.js:176-181 | a new process opens exactly the alerts that were open, and what was clearing or settling starts over |
| Alerts.Engine.Dismiss | dashboard/lib/alerts.js:209-216 | only an open alert can be dismissed, by its scope, and nothing is closed |
| Alerts.Engine.Restore | dashboard/lib/alerts.js:218-222 | takes back the dismissal of an open alert's scope, and says whether there was one |
| Alerts.Engine.ForgetClearedDismissals | dashboard/lib/alerts.js:228-237 | exactly the dismissals of scopes with an open alert remain |
| Alerts.Engine.Run | dashboard/lib/alerts.js:798-818 | announces the alerts opened and closed whose scope was not dismissed when the tick began, and forgets cleared dismissals |
| Alerts.TableOverRuns | dashboard/lib/db.js:258-274 | after any run the open map is the open rows, one a key, the rows are the history's intervals, and clearing tells since when an open condition is gone |
| Alerts.TimersOverRuns | dashboard/lib/alerts.js:585-596 | a running settle timer started when the runner was seen offline, and no look since saw it back |
| LogLines.SplitMeans | dashboard/lib/admission.js:245-251 | the lines, joined, with what follows them, are the text, and no line holds a newline |
| LogLines.LinesAppend | dashboard/lib/admission-ship.js:59-70 | text cut where a line ends is split piece by piece |
| LogLines.TakeLines | dashboard/lib/admission-ship.js:76-78 | the bytes of the first n lines end a line, and split into those n lines |
| Shipping.OffsetFile.LoadOffset | dashboard/lib/admission-ship.js:24-32 | an offset on file is kept; else the end of the log is taken and written down |
| Shipping.ReadPending | dashboard/lib/admission-ship.js:45-73 | the scan finds the complete lines among the bytes read, up to the limit, with their sizes |
| Shipping.ReadFollows | dashboard/lib/admission-ship.js:45-78 | read from between two lines, a batch is the lines that follow, and taking any number of them leads between two lines again |
| Shipping.ProgressIff | dashboard/lib/admission-ship.js:52-71 | a full read moves on exactly when a line is complete and no longer than the limit |
| Shipping.BatchIsFull | dashboard/lib/admission-ship.js:52-73 | a full read takes the first complete lines after the cursor, and one more would be over the limit of lines or bytes |
| Shipping.LostLogStartsOver | dashboard/lib/admission-ship.js:45-50 | without a log nothing is read, and one shorter than the cursor is read from its start |
| Shipping.AdvanceStays | dashboard/lib/admission-ship.js:76-79 | an answered count below none moves nowhere, and one above the batch's no further than the batch |
| ShippingRuns.NothingIsSkipped | dashboard/agent.js:666-696 | through any overlap, loss or failure the saved offset ends a line whose whole prefix was taken, what was taken is whole lines of the log, and lines come first in the log's order |
| ShippingRepeats.TakenExactlyWhen | dashboard/agent.js:668-696 | in any run a line is taken at a step exactly when a delivered batch is accepted that far which was read while the saved offset was at or before the line |
| ShippingRepeats.RepeatsMeanSetBack | dashboard/agent.js:693 | a line below an offset once saved goes out in a batch read later only if a save in between set the offset back |
| ShippingRepeats.LateAnswerRepeats | dashboard/lib/admission-ship.js:76-78 | a run of two overlapping heartbeats whose older answer comes last takes a line again after its taking was saved |
| ShippingRuns.TripKeepsOnce | dashboard/fleetd.js:3897-3910 | a heartbeat that makes its whole trip takes its lines once more, in order, and moves past exactly them |
| ShippingRuns.CalmTakesOnce | dashboard/lib/admission-ship.js:10-15 | however growth and whole trips alternate, each line up to the cursor is taken once, in order |
| ShippingRuns.OnceIsSplit | dashboard/lib/admission-ship.js:45-78 | those lines are the lines of splitting the log once, up to the cursor |
| ShippingRuns.EverythingShips | dashboard/lib/admission-ship.js:45-78 | once the log rests, as many heartbeats as lines are left take every line, when none is longer than one read |
| Admission.Importer.Ingest | dashboard/lib/admission.js:225-254 | the complete lines among the bytes read make rows, and the cursor moves past exactly them |
| Admission.Importer.IngestLines | dashboard/lib/admission.js:261-277 | a line that makes no row does not stop the rest |
| Admission.PassKeepsImport | dashboard/lib/admission.js:225-254 | whatever was appended between passes, the rows are those of splitting the log once, and a full pass leaves no complete line behind |
| Admission.RunsKeepImport | dashboard/lib/admission.js:225-254 | in any run of growth and passes from an empty log, the rows are those of splitting once what lies before the cursor, and after a full pass those of all that was appended |
| Admission.RowOfOne | dashboard/lib/admission.js:261-277 | a line makes its own row or none, which with the rows of appended lines being appended fixes the rows of any |
| Admission.CutLog | dashboard/lib/admission.js:225-254 | over any run on a log cut short of the cursor, its lines are taken from its start once a pass found it shorter than the cursor with a complete line in it, and else from the byte the cursor stood at |
| Admission.CutLogIff | dashboard/lib/admission.js:225-254 | so no line of it is lost exactly when it holds none or a pass found it so |
| Sweep.CollectEvents | dashboard/lib/analytics.js:268-273 | the endpoints of the rows that ran and carry both times, in the rows' order |
| Sweep.TimedOne | dashboard/lib/analytics.js:268-272 | a row is an interval exactly when it ran and carries both times |
| Sweep.TimedAppend | dashboard/lib/analytics.js:268-272 | and rows that follow others give their intervals after theirs |
| Sweep.NetIsOverlap | dashboard/lib/forecast.js:259-261 | for intervals that do not run backwards, starts less ends at an instant is the number of half-open intervals there |
| Sweep.PeakOverlap | dashboard/lib/forecast.js:262-278 | the greatest net count of any instant, reached at one |
| Sweep.PeakIsGreatestOverlap | dashboard/lib/forecast.js:262-278 | which for intervals that do not run backwards is the greatest number of half-open intervals sharing an instant |
| Sweep.PeakIsGreatestOverlapIff | dashboard/lib/forecast.js:262-278 | and for any list is that number exactly when so many share an instant over which no row runs backwards, and else less |
| Sweep.PeakIgnoresOrder | dashboard/lib/forecast.js:272-277 | the peak does not depend on the order of the intervals |
| Sweep.Concurrency | dashboard/lib/analytics.js:268-284 | the greatest net count, and for each count the milliseconds spent at it |
| Sweep.Conservation | dashboard/lib/analytics.js:274-284 | the buckets add up to the time with something running, and weighted by their counts to the jobs' durations exactly when the count is never negative |
| Sweep.ReversedRowBreaksConservation | dashboard/lib/analytics.js:270-272 | with a row that ends before it starts the weighted buckets of a concrete list exceed the durations |
| Sweep.CoveredReversedRowConserves | dashboard/lib/analytics.js:270-284 | where another row runs over its span they do not |
| Canonical.StringReadsBack | dashboard/lib/confirm.js:22 | a quoted string, with whole surrogate pairs or halves, reads back as itself by section 7 of RFC 8259 |
| Canonical.EscapeMeans | dashboard/lib/confirm.js:22 | a unit by itself is written as it is unless it is a quote, a backslash, a control character or half of a pair |
| CanonicalText.SortAscends | dashboard/lib/confirm.js:20 | the keys of an object end up in code unit order |
| CanonicalText.ReadsBack | dashboard/lib/confirm.js:17-23 | the text of any argument tree, whatever follows it, reads back as what the tree means |
| CanonicalText.SameMeaningSameText | dashboard/lib/confirm.js:16-23 | trees equal with objects read as maps have the same text |
| CanonicalText.CanonIsMeaning | dashboard/lib/confirm.js:16-23 | two trees have the same text exactly when they are equal with objects read as maps |
| Confirm.PurgedHolds | dashboard/lib/confirm.js:25-28 | what is left is unexpired, fewer than 500, and all of it when there was room |
| Confirm.DeletedHolds | dashboard/lib/confirm.js:45 | after a delete the token is gone exactly when it was given as the string it is |
| Confirm.RunsForItsRequest | dashboard/lib/confirm.js:38-44 | what may run was issued to that caller, for that action and arguments of that meaning, and has not expired |
| Confirm.RefusedMeans | dashboard/lib/confirm.js:38-44 | a token is unknown exactly when no confirmation that bears it is pending and in time; otherwise the answer is whether caller, action and the meaning of the arguments are those it was issued for, and it runs when they are |
| Confirm.GoodTokenRuns | dashboard/lib/confirm.js:25-47 | through any calls, a token not used up, issued less than five minutes before now and any issue since, with fewer than 500 issued from it on, is accepted |
| Confirm.Confirmations.Purge | dashboard/lib/confirm.js:25-28 | the expired go, then the oldest until there is room for one more |
| Confirm.Confirmations.Issue | dashboard/lib/confirm.js:30-35 | adds the confirmation after a purge; at most 500 are ever pending |
| Confirm.Confirmations.Consume | dashboard/lib/confirm.js:38-47 | the answer is the one RefusedMeans states; the token is used up when it is a string, and with string tokens none ever runs twice |
| Drains.DrainsToReassert | dashboard/lib/host-switch.js:61-77 | what is seen and due of each runner depends on that runner alone, and nothing unlisted is remembered or due |
| Drains.DrainedAgain | dashboard/lib/host-switch.js:61-77 | over many looks at a host a runner is drained again exactly when it is drained and runs without a job it is finishing, has been for graceMs, and was not drained again within retryMs |
| Drains.WatchMeans | dashboard/lib/host-switch.js:67-74 | what is remembered is when the unbroken episode began, and when in it the runner was last drained again |
| Drains.DueMeans | dashboard/lib/host-switch.js:67-75 | within an episode a runner is drained again exactly when graceMs passed since it began and retryMs since every re-drain in it |
| DrainOwners.OwnersKeepTheirs | scripts/drain-runner.sh:92-101 | through any interleaving an owner's marker stays its own until the owner resumes the runner, a command or re-assertion under no name comes, or, for the tiers, the agent releases it |
| DrainOwners.OperatorsKeepTheirs | scripts/drain-runner.sh:92-101 | an operator's marker is touched by no owned command, re-assertion or release; only an operator's resume takes it away |
| DrainOwners.ReassertLate | dashboard/agent.js:470-499 | a re-assertion leaves the marker with its holder exactly when there still is one and it looked under a name or the marker bears none; else it writes the marker again, under the name it looked under |
| DrainOwners.ChainMarkersStay | dashboard/fleetd.js:2746-2785 | on the coordinator's host, where re-assertions run in the chain of its controllers, none ever takes over a marker of the tiers or the night cap |
| DrainOwners.LateReassertTakesOver | dashboard/agent.js:470-499 | a run in which a re-assertion takes over a marker: under the host switch on either host, under the tiers on an agent's host and there only |
| DrainOwners.LateReassertUndoesResume | dashboard/agent.js:470-499 | a run in which it drains a runner the tiers just resumed, on an agent's host and there only |
| DrainOwners.AutonomyFrees | dashboard/lib/agent-autonomy.js:29-39 | the agent decides to release a runner exactly after the silence, with the host on and the marker the tiers'; the release takes exactly a marker that still is |
| DrainOwners.ReleaseHadCause | dashboard/agent.js:602-628 | in any run a release goes back to a look that found all that |
| DrainMarkers.WrittenIsHeld | dashboard/lib/host-switch.js:87-93 | a marker as the script writes it is still held by its owner, and by nobody else |
| DrainMarkers.StillHeldMeans | dashboard/lib/host-switch.js:87-93 | any marker text is held under a name exactly when its first line, trimmed, says drained or draining and its first by= line gives that name, and under none when that line is missing or empty |
| DrainMarkers.TrimMeans | dashboard/lib/host-switch.js:89 | a trimmed line is the line without the white space around it |
| DrainMarkers.SplitJoins | dashboard/lib/host-switch.js:89 | the lines, free of newlines, are the text when joined |
| Backfill.AnswerClearsRun | dashboard/lib/backfill.js:180-202 | whatever comes back about a pending run, jobs, an empty list or a failure, the run has a job on record and leaves the pending runs, and no other does or joins them |
| Backfill.AnswerIsRecorded | dashboard/lib/backfill.js:180-202 | each job listed is recorded as it was said last, a run with none to show by its marker, a row already there keeps its run and cause, and no other row is touched |
| Backfill.EmptyListLeavesPending | dashboard/lib/backfill.js:185-190 | without the marker an empty list would leave the run pending |
| Backfill.Backfill.RunsFor | dashboard/lib/backfill.js:103-120 | page after page until a short one, a failed one, the twentieth, or no rate limit; a run is completed exactly if the pages said so last, or did not mention it and it was |
| Backfill.Backfill.ListPhase | dashboard/lib/backfill.js:152-171 | the lists are read one after the other; counted as read are exactly those without a failed page, and one is left out only when the budget or the rate limit is spent |
| Backfill.Backfill.JobPhase | dashboard/lib/backfill.js:177-206 | asks about each pending run at most once, whatever fails, within the calls left, and with rate limit left stops only when no run is pending or the calls are spent |
| Backfill.Backfill.Settle | dashboard/lib/settle.js:62-84 | one call for each job of the batch in turn, until the calls allowed, the rate limit or GitHub's own limit stops it; its rows are those the next row states |
| Backfill.SettlingsMean | dashboard/lib/settle.js:62-84 | each job asked about has the conclusion and time GitHub told, one that is gone is marked seen, no other row changes, and none freezes |
| Backfill.Backfill.SettlePhase | dashboard/lib/backfill.js:219-231 | ends, within the calls left, trying each frozen job at most once |
| Backfill.Backfill.CausePhase | dashboard/lib/backfill.js:241-256 | one call for each failure, none asked twice, within the calls left, and nothing but causes is written; with rate limit left stops only when no failure is unexplained, the calls are spent or a call throws |
| Backfill.Backfill.Pass | dashboard/lib/backfill.js:145-272 | spends at most the larger of maxCalls and the list budget plus 19, says done exactly when the tables hold no completed run without a job, no frozen job and no unexplained failure, and does nothing while a pass is running |
| Backfill.WorkMeans | dashboard/lib/backfill.js:83-87 | there is no work left exactly when every completed run has a row of its jobs, none of which was last seen unfinished before it completed, and every failure has its cause |

## Left out

- LoadNeverRises: offline runners stay offline unless resumed, a resumed runner comes up online, and nobody else writes markers; DistinctNames stands for the runner's name being the table's key.
- LocalInstant: which instant it gives is said for at most one transition within 36 hours, and an answer is required where the search runs (`BisectionEnds`).
- NightWindow: right for zones that keep one offset or change it once within six days of now, by at most a day, on a whole minute and to whole minutes; queuedJobs and the parsing of the configuration are not modelled.
- NotSentAgain: one retryMs throughout, and a clock that does not go back.
- EveryCommandEnds: for hosts whose tokens can be minted; a claim released every time goes out never.
- GoodTokenRuns: sufficient, not necessary: of 500 issued from it on some may have expired or been used.
- AtMostOnce: an execution is one the agent remembered; a host that stops before it remembers one is covered by StartsAtMostThrice alone, and a heartbeat's claim and answer are one step.
- Rollup: localeCompare is a parameter, and titles, queue rows, progress texts and estimates are not modelled.
- Targets: which states of the fleet make a wait pointless, and what the night cap holds, are one predicate of the set found.
- WaitForChecks: takes the number of rounds it may use, the abort signal and the texts of reasons and hints are not modelled, and the label that names GitHub for a fleet set refreshed by GitHub is not told apart.
- Alerts: the rules other than offline ones are one map of findings, a key tells whether its rule is debounced, and titles, severities, storm summaries and notifications are not modelled.
- Shipping: lines are bytes; decoding is taken as lossless, as it is for valid UTF-8, and a log that shrinks starts over, which the runs exclude.
- Admission: what a line makes of the table is a parameter, and the cursor counts bytes where the code counts the bytes of the decoded text.
- Confirm: tokens are never repeated, a number is given by the text it prints as, so 0 and -0 are one, and numbers that are not finite and missing values read as null.
- Drains: launchctl and the service itself are not modelled, a runner that cannot be drained is simply seen running again, and one run of drain-runner.sh is one step.
- Backfill: times, steps and texts are not modelled, so whether a row was last seen late is told with it; rate limit changes only between requests, and GitHub lists under a run only jobs of that run.
- buildBaseline and evaluateGate of dashboard/lib/forecast.js: sums over windows, with nothing to prove beyond their definitions.
- OAuth grants and devices: a code map and a token store with single-step rules, which would add easy members.
- switchOffImpact of dashboard/lib/host-switch.js: two filters over a list.
- The standby tiers controller, settle rules, sizing, simulator, HTTP, pages, notifications and shell plumbing are not part of this model.
