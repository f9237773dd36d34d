# SongBird verification

A Dafny model of the stateful policies and guarded asynchronous protocols of SongBird, a desktop
proxy client, and of two of the guard scripts that watch over its sources. The Qt program keeps its
decisions in small objects whose methods update a few fields; each of those is a class here with
the same fields, and each method is proved equal to a step of a value-level specification. What the
program promises is then proved about whole runs of those steps: every interleaving of callbacks,
timers, late workers and cancels that the surrounding program can produce is a sequence of events.

| module | what it models |
|---|---|
| `Basics` | an option type, the two ends of a list, trimming, division that truncates toward zero |
| `BackgroundTasks` | the single background-task slot and its tokens |
| `CoreUpdate`, `CoreUpdateRuns` | the two-phase core update on top of the slot; its runs |
| `SwitchGroup`, `SwitchGroupLaws` | the decisions of auto switch inside a location group |
| `AutoSwitch`, `AutoSwitchLaws`, `ProbeRunner`, `AutoSwitchRuns` | the auto-switch coordinator and what each of its handlers does, the runner of its probe batches, and their composed runs |
| `SwitchCoverage` | which members one streak of failures tries |
| `LivenessProbe` | the bounded-concurrency walk over the probe hosts |
| `HealthStrip` | the 24-hour strip, its incremental history and its text form |
| `HealthWatchPolicy`, `HealthWatchdog` | the health watch: when it warns, and the timers and probes that drive it |
| `CrashRestart` | restart budgets after core crashes |
| `SubscriptionBackoff` | which subscriptions a tick refreshes |
| `DelimiterScan`, `DelimiterGrammar`, `DelimiterLaws` | the delimiter matcher and the masker of the member-order guard, the grammar of what they recognise, and how they agree |
| `IncludeScope` | the include-closure walk of the Q_OS guard |

Throughout: server ids are arbitrary strings where the code trims them, and distinct only where a
contract says so; times are integers (non-negative only where a contract says so, since the
source's division truncates); latencies are reals; generations are 64 bits wide and wrap.

## Where an expected property fails

The model follows the code. In each case below the property is refuted by a concrete case, and the exact
condition under which it holds is proved. Four of them are promised by comments of the source; that a
core update always gives its task slot back is promised nowhere, but the next background task counts on it.

- `src/app/AutoSwitchGroupLogic.h:216-218` says every other member gets exactly one auto-switch. That
  holds for the round robin. With warm results a streak bounces between the two best members, because
  a failed session does not invalidate its own warm entry (`SwitchCoverage.WarmStreakSkipsMembers`).
  `SwitchCoverage.CoversExactlyWhen` gives the condition, in terms of who is fresh and reachable, their
  latencies and places, for a streak whose failures are all decided on one such view of the group, be it
  the view that the first probe of a cold group ends with; clock and measurements may change under it.
  `SwitchCoverage.CoversExactlyWhileFresh` shows that the clock alone never changes that view before a
  fresh result expires.
- `src/appcore/ProxyHealthWatchdog.h:99-101` says a probe already on a worker is dropped by
  `cancel()`. Its answer can be counted by the next activation
  (`HealthWatchdog.CancelDoesNotDropTheProbe`), unless no probe was out when that one was armed
  (`HealthWatchdog.CountsOwnExactlyWhenNoneOutstanding`). Nor are both in-flight flags
  forgotten: the one of the direct recheck stays until the next fresh activation.
- `src/appcore/HealthStripPolicy.h:53-54` calls the history bounded-size. No number bounds it
  (`HealthStrip.KeptIsNotBoundedByCount`): it is the part of the whole history inside the last window
  (`HealthStrip.KeptIsTheWindow`), so it stays within n records if and only if no prefix of the
  arrivals has more than n in its own last window (`HealthStrip.BoundedExactlyWhen`). Probes a fixed
  time apart do bound it (`HealthStrip.SpacedProbesBoundTheHistory`).
- `src/app/CoreUpdateCoordinator.cpp:53-141` takes the task slot before a confirmation dialog whose
  event loop lets other events in. If the task is cancelled meanwhile and another update parks its
  token, confirming the first dialog overwrites the parked token, and the slot stays taken until
  somebody cancels (`CoreUpdateRuns.LateConfirmationLeaks`). `CoreUpdateRuns.Clean` names this step (and
  a worker whose window is gone), and `CoreUpdateRuns.CleanIffNotLeaked` shows that exactly these steps
  leak: a run never leaks if and only if it takes none of them (`CoreUpdateRuns.LeaksExactlyWhenUnclean`).
  Runs in which dialogs are answered at once take none (`CoreUpdateRuns.PromptRunsAreClean`).
- `src/appcore/OutboundLivenessProbeService.h:22-24` promises every host's own reason when the answer is
  no. `src/appcore/OutboundLivenessProbeService.cpp:150-203` does not give one reason per asked host.
  The model separates `finished`, which the network sets, from `handled`, which the completion handler
  sets, and lets handlers run until the event loop returns; whether the network layer can
  separate the two, and whether events follow the quit, is not visible in the source. A host finished
  but unhandled when the timer fires gets no reason
  (`LivenessProbe.FinishedButUnhandledIsNotReported`), one whose handler still runs after the timeout
  gets two (`LivenessProbe.LateCompletionIsReportedTwice`), and `LivenessProbe.VerdictIsRight` has the
  exact condition.

## Model

| member | source | states |
|---|---|---|
| `BackgroundTasks.BackgroundTaskCoordinator.TryBegin` | src/appcore/BackgroundTaskCoordinator.cpp:32-52 | a real task on an idle slot that startup does not block takes the slot under the next generation and gets its token; any other start changes nothing and gets no token; the "blocked" signal goes out exactly for a blocked user task, "busy" exactly when the slot is taken and the task not refused before, naming the task that holds it, and "running" exactly when the state changed |
| `BackgroundTasks.BackgroundTaskCoordinator.Finish` | src/appcore/BackgroundTaskCoordinator.cpp:54-64 | succeeds exactly for the current token; a stale one changes nothing and signals nothing |
| `BackgroundTasks.BackgroundTaskCoordinator.CancelActive` | src/appcore/BackgroundTaskCoordinator.cpp:66-76 | frees a taken slot and advances the generation; an idle slot is left alone |
| `BackgroundTasks.AcceptsExactlyWhen` | src/appcore/BackgroundTaskCoordinator.cpp:34-51 | a start is accepted if and only if the task is a real one, the slot idle and it is no user task blocked by core startup; refused, it leaves the slot and yields no token |
| `BackgroundTasks.BlockedStartLeavesNoTrace` | src/appcore/BackgroundTaskCoordinator.cpp:38-41 | a user task asked for while core startup blocks it can be struck from any run: every later state and every token issued stay the same |
| `BackgroundTasks.AtMostOneCurrent` | src/appcore/BackgroundTaskCoordinator.cpp:93-98 | two tokens that are current at the same time are the same token |
| `BackgroundTasks.RunKeepsConsistent` | src/appcore/BackgroundTaskCoordinator.cpp:32-76 | over every run the slot is idle with generation 0 or taken under a live generation, and the counter never goes back |
| `BackgroundTasks.IssuedGenerationsIncrease` | src/appcore/BackgroundTaskCoordinator.cpp:48-51 | along any run of begins, finishes and cancels, issued generations strictly increase and are newer than any known before |
| `BackgroundTasks.StaleStaysStale` | src/appcore/BackgroundTaskCoordinator.cpp:54-64 | a token that is neither current nor newer than the counter never becomes current and never finishes successfully |
| `BackgroundTasks.NeverCurrentAgain` | src/appcore/BackgroundTaskCoordinator.cpp:32-98 | a token that stopped being current is never current again, whatever happens afterwards |
| `BackgroundTasks.FinishSucceedsAtMostOnce` | src/appcore/BackgroundTaskCoordinator.cpp:54-64 | over a whole run with any number of late workers, `finish` returns true at most once per token |
| `BackgroundTasks.OnlyOwnerOrCancelFrees` | src/appcore/BackgroundTaskCoordinator.cpp:54-76 | a current task keeps its slot through every run that holds neither its own finish nor a cancel |
| `BackgroundTasks.WrapTakesSlotWithoutToken` | src/appcore/BackgroundTaskCoordinator.cpp:48-51 | an accepted start yields a usable token exactly when the 64-bit counter is not at its maximum |
| `BackgroundTasks.UnnamedTaskIsNeverFinished` | src/appcore/BackgroundTaskCoordinator.cpp:54-76 | a slot taken under generation 0 survives every run without a cancel |
| `CoreUpdate.CoreUpdatePendingState.Store` | src/app/CoreUpdatePendingState.cpp:10-30 | the snapshot is exactly the order and token given |
| `CoreUpdate.CoreUpdatePendingState.Take` | src/app/CoreUpdatePendingState.cpp:32-37 | hands over the snapshot and leaves nothing pending, so it can be taken once |
| `CoreUpdate.CoreUpdatePendingState.ClearIfGeneration` | src/app/CoreUpdatePendingState.cpp:44-49 | clears exactly when the stored generation equals the argument after sign extension |
| `CoreUpdate.NarrowingKeepsGeneration` | src/app/CoreUpdatePendingState.cpp:44-49 | passing a 64-bit generation through a 32-bit signed argument compares equal to itself if and only if it lies below 2^31 or at the top of the range |
| `CoreUpdate.ComparesLowHalves` | src/app/CoreUpdatePendingState.cpp:44-49 | for any two generations the narrowed comparison holds exactly if their low halves agree and the stored one is a value a sign-extended 32-bit number can have |
| `CoreUpdate.CoreUpdateCoordinator.OpenUpdate` | src/app/CoreUpdateCoordinator.cpp:53-91 | up to the dialog: without a window or a token nothing happens; otherwise the slot is taken and the token is with the dialog |
| `CoreUpdate.CoreUpdateCoordinator.AnswerUpdate` | src/app/CoreUpdateCoordinator.cpp:92-141 | declined: the slot is freed and completion reported; confirmed: the token is parked and the core stopped, or one worker starts |
| `CoreUpdate.CoreUpdateCoordinator.ContinuePendingCoreUpdate` | src/app/CoreUpdateCoordinator.cpp:143-176 | takes the parked token out and starts a worker exactly if it is still current |
| `CoreUpdate.CoreUpdateCoordinator.FinalizeCoreUpdate` | src/app/CoreUpdateCoordinator.cpp:273-350 | a stale worker changes nothing; a current one frees the slot, clears its snapshot and has the specified report, aftermath and closing message, none while shutting down |
| `CoreUpdate.OpensExactlyWhen` | src/app/CoreUpdateCoordinator.cpp:53-91 | a dialog opens exactly for a window and an idle, unblocked slot, with the token that took it |
| `CoreUpdate.AnswersAre` | src/app/CoreUpdateCoordinator.cpp:92-141 | declined: only the slot is freed, if still its own; confirmed: the token is parked and the core stopped, or a worker starts, exactly one of the two |
| `CoreUpdate.ContinuesExactlyWhen` | src/app/CoreUpdateCoordinator.cpp:143-176 | a parked update is taken out whenever there is a window and goes on exactly if it still owns the slot, as one that stopped the core |
| `CoreUpdate.FinalizeBringsAbout` | src/app/CoreUpdateCoordinator.cpp:282-350 | for each outcome which of refresh, report, start, restore, proxy-state clear, status sync and closing message happens, that nothing else does, and in which order: after a stop a failure restores the previous core, a success that needs a restart and is to start the core starts it, and the rest clears the proxy state; without a stop the core is started exactly after a success that is to start it; nothing for a stale worker or during shutdown |
| `CoreUpdate.FinalizeClears` | src/app/CoreUpdateCoordinator.cpp:287 | the pending snapshot is cleared exactly if its generation compares equal after narrowing |
| `CoreUpdateRuns.StepKeepsInv` | src/app/CoreUpdateCoordinator.cpp:106-328 | every clean step keeps: no token is held twice among dialogs, snapshot and outstanding workers, a token that owns the slot is held, and the books of stops, launches, finals, restarts and clears agree with where the token is |
| `CoreUpdateRuns.CleanIffNotLeaked` | src/app/CoreUpdateCoordinator.cpp:106-141 | a step from a sound state leaves no live token unheld if and only if it is clean, a condition on the snapshot or the window that can be read off before the step |
| `CoreUpdateRuns.LeaksExactlyWhenUnclean` | src/app/CoreUpdateCoordinator.cpp:53-328 | over every run from the start and short of the generation wrap: no state on the way has its slot taken for a token that nothing will present again if and only if every step is clean |
| `CoreUpdateRuns.LeakPersists` | src/app/CoreUpdateCoordinator.cpp:143-328 | a leaked slot stays taken through every run in which nobody cancels |
| `CoreUpdateRuns.LateConfirmationLeaks` | src/app/CoreUpdateCoordinator.cpp:92-141 | the concrete run of five events that leaks |
| `CoreUpdateRuns.PromptAnswerIsClean` | src/app/CoreUpdateCoordinator.cpp:92-141 | if the dialog is answered before anything else happens, or skipped, an update step is always clean and keeps the invariant |
| `CoreUpdateRuns.PromptRunsAreClean` | src/app/CoreUpdateCoordinator.cpp:92-141 | every run in which each dialog is answered before anything else happens and each worker finds its window is clean, whatever other tasks, cancels and late workers do |
| `CoreUpdateRuns.PassedGateIsClosed` | src/app/CoreUpdateCoordinator.cpp:282-350 | a worker that passes the finalize gate after a stop, outside shutdown, has exactly one of restore, start and clear booked: restore exactly after a failure, start exactly after a success that calls for it |
| `CoreUpdateRuns.CoreUpdateIsSafe` | src/app/CoreUpdateCoordinator.cpp:106-328 | in every clean run: the current token of an update has exactly one holder; each token stops, launches and passes the gate at most once; a core stopped for install is restored after a failed update, started after a successful one that calls for it, and otherwise its proxy state is cleared, one of the three; until then its token is parked or with the worker that will do so |
| `CoreUpdateRuns.PromptUpdatesAreSafe` | src/app/CoreUpdateCoordinator.cpp:53-328 | so that safety holds in all such runs from the start, with no condition on states |
| `SwitchGroup.ScanLocationGroup` | src/app/AutoSwitchGroupLogic.h:40-65 | the members are the trimmed ids of the location's servers in order, with the position of the current server's last occurrence |
| `SwitchGroup.MembersAreTheGroup` | src/app/AutoSwitchGroupLogic.h:40-65 | an id is a member exactly when a server of that location with a non-empty trimmed id has it |
| `SwitchGroup.MembersKeepListOrder` | src/app/AutoSwitchGroupLogic.h:50-63 | the members are in the order of the server list, none left out or listed twice |
| `SwitchGroup.MembersAreDistinct` | src/app/AutoSwitchGroupLogic.h:40-65 | distinct server ids give distinct members |
| `SwitchGroup.HarvestProbeResult` | src/app/AutoSwitchGroupLogic.h:86-101 | an answer replaces exactly its own trimmed id's entry, an unparsable one with an unreachable latency |
| `SwitchGroup.HarvestLeavesOthers` | src/app/AutoSwitchGroupLogic.h:86-101 | an answer changes no other id's entry, dates its own with the current time, and gives it the parsed latency, or a negative one if unparsable |
| `SwitchGroup.PruneWarmResults` | src/app/AutoSwitchGroupLogic.h:109-128 | what stays is exactly what is young enough and, when a group is given, a member |
| `SwitchGroup.PickWarmSwitchTarget` | src/app/AutoSwitchGroupLogic.h:134-164 | the single scan answers another member that was measured, no longer ago than the limit, and answered, none such being faster; it answers nothing exactly if no other member has such a measurement |
| `SwitchGroup.TargetIsBest` | src/app/AutoSwitchGroupLogic.h:131-164 | the same of the specified target, and that those before it in the list are slower |
| `SwitchGroup.UnparsableIsNeverATarget` | src/app/AutoSwitchGroupLogic.h:71-101 | a member whose last answer was no measurement is never the target, whatever was known of it before |
| `SwitchGroup.ProbeRankingIsRanked` | src/app/AutoSwitchGroupLogic.h:170-206 | the stable insertion sorts: fresh reachable members by latency with ties in list order, then the rest in list order, holding exactly the listed positions |
| `SwitchGroup.PickWarmProbeCandidates` | src/app/AutoSwitchGroupLogic.h:170-206 | the loops compute the first `maxCount` ids of that ranking |
| `SwitchGroupLaws.RankingIsUnique` | src/app/AutoSwitchGroupLogic.h:166-206 | being sorted that way and holding the same positions determines the list |
| `SwitchGroupLaws.RankingIsPermutation` | src/app/AutoSwitchGroupLogic.h:170-206 | for distinct members the ranking is a permutation and the probe list has min(maxCount, n) entries |
| `SwitchGroupLaws.ProbeListIsRanked` | src/app/AutoSwitchGroupLogic.h:166-206 | of two members the one listed first, or alone, has a usable measurement at most as slow if the other has one; equal latencies, and members without a usable measurement, keep the group's order |
| `SwitchGroupLaws.TargetIsHeadOfRanking` | src/app/AutoSwitchGroupLogic.h:134-206 | the switch target is the head of the ranking of the other members when that head is fresh and reachable, and empty otherwise |
| `SwitchGroupLaws.PruningIsInvisible` | src/app/AutoSwitchGroupLogic.h:109-206 | pruning at a time changes neither the target nor the probe list of any part of the group then or later |
| `SwitchGroupLaws.PruningShowsAfterClockStepsBack` | src/app/AutoSwitchGroupLogic.h:109-128 | the clock condition is needed: after any step back some pruned entry would have been chosen |
| `SwitchGroupLaws.PrunedKeysAreMembers` | src/app/AutoSwitchGroupLogic.h:109-128 | after a prune against a group every key is a group member and young enough |
| `AutoSwitch.AutoSwitchCoordinator.HandleSessionFailure` | src/app/AutoSwitchCoordinator.cpp:57-123 | the fields, the notice, the probe asked for and the switch are those of the specified reaction |
| `AutoSwitch.AutoSwitchCoordinator.BeginFailoverProbe` | src/app/AutoSwitchCoordinator.cpp:125-180 | a probe is pending exactly if it was accepted; otherwise the round robin switches at once |
| `AutoSwitch.AutoSwitchCoordinator.FinishFailoverProbe` | src/app/AutoSwitchCoordinator.cpp:182-227 | the pending flag is cleared first, then preference, group and ceiling are checked anew |
| `AutoSwitch.AutoSwitchCoordinator.RunWarmRound` | src/app/AutoSwitchCoordinator.cpp:229-279 | prunes and asks as specified, and never touches the switch counter |
| `AutoSwitch.AutoSwitchCoordinator.NoteSessionActivated` | src/app/AutoSwitchCoordinator.cpp:281-285 | resets the switch counter, then runs a warm round |
| `AutoSwitch.AutoSwitchCoordinator.HandleProbeResultReady` | src/app/AutoSwitchCoordinator.cpp:287-296 | prunes by age, then records the answer |
| `AutoSwitchLaws.FailureIsAnswered` | src/app/AutoSwitchCoordinator.cpp:57-180 | every failure, guard by guard: silence, the two notices, else the switch to the fastest other member measured and answering within six minutes, else a probe of the measurable members or, where none gets started, the next member in order; with the counter and the pending flag each time |
| `AutoSwitchLaws.ProbeIsFollowedUp` | src/app/AutoSwitchCoordinator.cpp:182-227 | a finished failover probe is no longer pending, and the same choice is made without another probe |
| `AutoSwitchLaws.RankableExactlyWhen` | src/app/AutoSwitchCoordinator.cpp:131-141 | a member can be ranked exactly if the first server with its id has no custom configuration |
| `AutoSwitchLaws.MeasurableAre` | src/app/AutoSwitchCoordinator.cpp:131-144 | a failover probe asks exactly the rankable members for which a request can be built, in the group's order |
| `AutoSwitchLaws.WarmRoundAsksTheBest` | src/app/AutoSwitchCoordinator.cpp:229-279 | past its guards a warm round asks the best five of the rankable members, as far as requests can be built for them, and it makes no difference that it prunes first |
| `AutoSwitchLaws.ActivationIsAWarmRound` | src/app/AutoSwitchCoordinator.cpp:281-285 | an activation zeroes the switch counter and is otherwise a warm round |
| `AutoSwitchLaws.AnswerIsRecorded` | src/app/AutoSwitchCoordinator.cpp:287-296 | afterwards the answer's trimmed id has the parsed latency, or a negative one, dated now; every other entry no older than six minutes is kept as it was, and the older ones are gone |
| `AutoSwitchLaws.UnparsableIsNotUsable` | src/app/AutoSwitchCoordinator.cpp:287-296 | so a member whose last answer was no measurement is no choice for a failure until it answers again |
| `AutoSwitch.EverySwitchIsSafe` | src/app/AutoSwitchCoordinator.cpp:57-227 | every switch is made with the preference on and the proxy free, to another member of the group just scanned, below the ceiling, and is counted; warm rounds and activations never switch |
| `AutoSwitch.WarmRoundKeepsTheGroup` | src/app/AutoSwitchCoordinator.cpp:229-279 | a warm round that passes its guards in a group of two or more leaves exactly the young results of members, unchanged and never more than members; any other leaves the results as they were |
| `AutoSwitch.WarmRoundAsksTheGroup` | src/app/AutoSwitchCoordinator.cpp:229-279 | a warm round asks only for rankable members with a buildable request, one to five of them, and never while a failover probe is pending |
| `ProbeRunner.AutoSwitchProbeRunner.Run` | src/app/AppBootstrapUiWiring.cpp:223-245 | a batch starts exactly if no activation is going on, the slot gives a token and the controller is free; otherwise the token is given back |
| `ProbeRunner.AutoSwitchProbeRunner.BatchFinished` | src/app/AppBootstrapUiWiring.cpp:247-261 | the batch's token is finished and its completion reported once |
| `ProbeRunner.RefusalKeepsTheSlot` | src/app/AppBootstrapUiWiring.cpp:230-245 | a refused probe leaves the slot as it was, for every token issued before |
| `AutoSwitchRuns.FailureAsksOnce` | src/app/AutoSwitchCoordinator.cpp:117-165 | while a failover probe is pending a failure asks for none, and one is pending afterwards exactly if it was before or one was accepted |
| `AutoSwitchRuns.WarmRoundWaits` | src/app/AutoSwitchCoordinator.cpp:229-233 | while a failover probe is pending no warm round starts |
| `AutoSwitchRuns.FailoverProbesAreExclusive` | src/app/AutoSwitchCoordinator.cpp:117-233 | in every run composed with the runner and other task owners: a probe is pending exactly while one started probe is unfinished, with a running batch or a queued completion behind it; each started probe is closed by one finish; and the slot is held by auto switch only through its one running batch |
| `AutoSwitchRuns.ProbesAreExclusiveFromStart` | src/app/AutoSwitchCoordinator.cpp:117-233 | the same for every run of the program from its initial state |
| `AutoSwitchRuns.SwitchesAreBounded` | src/app/AutoSwitchCoordinator.cpp:57-227 | in every run, if no scanned group exceeds n members, a stretch without activation holds at most n - 1 switches, each to another member of the group scanned for it |
| `SwitchCoverage.StreakWalks` | src/app/AutoSwitchCoordinator.cpp:86-227 | in one group, whatever clock, measurements and probe answers the failures of a streak meet, the handlers switch from member to member until the ceiling and not after it |
| `SwitchCoverage.RoundRobinTriesEveryone` | src/app/AutoSwitchGroupLogic.h:211-222 | if no failure of a streak finds a fresh reachable member, n failures in a row make n - 1 switches, one to every other member, and the n-th none |
| `SwitchCoverage.CoversExactlyWhen` | src/app/AutoSwitchGroupLogic.h:216-222 | for a streak whose failures are decided on one view of the group (who is fresh and reachable, at which latency) the handlers switch exactly once to every other member if and only if nobody is warm, or the group has two members, or it has three and the leader did not fail first and hands on to the remaining one, which is warm and ahead of the failed one or, with neither warm, next in list order |
| `SwitchCoverage.CoversExactlyWhileFresh` | src/app/AutoSwitchGroupLogic.h:134-222 | the same for a streak on unchanged measurements whose clock moves in any way within a span in which no fresh result expires |
| `SwitchCoverage.WarmStreakSkipsMembers` | src/app/AutoSwitchGroupLogic.h:216-218 | in any group of four with two warm members, failures at any times before the two results expire switch to one, the other and the first again, and never to the fourth |
| `LivenessProbe.ProbeRun.StartMore` | src/appcore/OutboundLivenessProbeService.cpp:167-177 | asks the pool hosts from the next index on, one request each, until two are in flight or the pool is used up |
| `LivenessProbe.ProbeRun.OnMetaDataChanged` | src/appcore/OutboundLivenessProbeService.cpp:178-187 | the first sight of 200 or 204 decides the verdict and ends the loop |
| `LivenessProbe.ProbeRun.OnFinished` | src/appcore/OutboundLivenessProbeService.cpp:188-203 | counts the host, records its reason while undecided, and refills or ends the loop |
| `LivenessProbe.ProbeRun.OnTimeout` | src/appcore/OutboundLivenessProbeService.cpp:150-161 | while undecided every host the network has not finished is reported as timed out |
| `LivenessProbe.ProbeRun.Verdict` | src/appcore/OutboundLivenessProbeService.cpp:222-228 | reasons and shape are reported only for an undecided walk, and the attempted count is of hosts asked |
| `LivenessProbe.Prepare` | src/appcore/OutboundLivenessProbeService.cpp:111-116 | an empty pool or a non-positive budget is answered without asking anyone, with the pool size as count |
| `LivenessProbe.RefillFills` | src/appcore/OutboundLivenessProbeService.cpp:167-177 | refilling only appends fresh requests to the next hosts of the pool in order, and brings exactly min(2, hosts left) in flight |
| `LivenessProbe.StepKeepsInv` | src/appcore/OutboundLivenessProbeService.cpp:128-205 | every event in any order, before or after the quit, keeps: hosts asked in pool order and once, at most two in flight, exactly min(2, hosts left) until a reachable status is seen, reasons accounted for, the shape the worst one reported |
| `LivenessProbe.RunKeepsInv` | src/appcore/OutboundLivenessProbeService.cpp:105-231 | the same over whole runs, and the probe is reachable exactly when some handler looked at a request showing 200 or 204 |
| `LivenessProbe.VerdictIsRight` | src/appcore/OutboundLivenessProbeService.cpp:105-231 | under any order of events: hosts are asked in pool order, each once, never more than two in flight, and exactly min(2, hosts left) until decided; reachable exactly when some handler ran on a reply with status 200 or 204, and then without reasons; otherwise one reason per handled completion and one per request unfinished at the timeout, each saying the reply's status, else its error, else that nothing came, or that time ran out; the shape is a certificate mismatch if any reason shows one, else a broken tunnel, else unreachable |
| `LivenessProbe.FinishedButUnhandledIsNotReported` | src/appcore/OutboundLivenessProbeService.cpp:150-161 | a run whose unreachable verdict has no reason for an asked host |
| `LivenessProbe.LateCompletionIsReportedTwice` | src/appcore/OutboundLivenessProbeService.cpp:150-203 | a run whose unreachable verdict has two reasons for one host |
| `HealthStrip.BuildCells` | src/appcore/HealthStripPolicy.cpp:13-52 | each cell is the verdict on its hour's records: failed if any failed, else passed if any, else unknown |
| `HealthStrip.AppendAndPrune` | src/appcore/HealthStripPolicy.cpp:54-72 | keeps, in order, exactly the records inside the window, the new one included |
| `HealthStrip.WindowIs` | src/appcore/HealthStripPolicy.cpp:26-27 | the window is a day of whole hours that ends with the hour of the clock, before the epoch up to an hour later |
| `HealthStrip.StripShows` | src/appcore/HealthStripPolicy.cpp:28-49 | a cell has failed exactly if a failed probe is dated in its hour, and is unknown exactly if none is dated there |
| `HealthStrip.WithinKeepsOrder` | src/appcore/HealthStripPolicy.cpp:60-71 | the kept records are exactly those dated in the window, as often as they occur and in their order |
| `HealthStrip.OrderDoesNotMatter` | src/appcore/HealthStripPolicy.cpp:28-49 | the strip depends only on which records there are, not on order or repetition |
| `HealthStrip.HourLater` | src/appcore/HealthStripPolicy.cpp:25-26 | one hour later the window has moved by one hour if and only if the clock is not inside the two hours that truncating division joins at the epoch |
| `HealthStrip.HourLaterShifts` | src/appcore/HealthStripPolicy.cpp:22-49 | advancing the clock by an hour shifts cells 1..23 to 0..22 unchanged |
| `HealthStrip.IncrementalEqualsBatch` | src/appcore/HealthStripPolicy.cpp:13-72 | folding the pruning append over any arrivals with a clock that never goes back, none dated past its hour, gives at any later time the strip of the whole history |
| `HealthStrip.FutureRecordIsLost` | src/appcore/HealthStripPolicy.cpp:54-72 | the dating condition is exact: a record is shown at all later times as if kept if and only if it was not dated past its hour |
| `HealthStrip.KeptIsTheWindow` | src/appcore/HealthStripPolicy.cpp:54-72 | with a clock that never goes back and records not dated past their hour, the kept history is, in order, the records of the whole one inside the last window |
| `HealthStrip.KeptIsNotBoundedByCount` | src/appcore/HealthStripPolicy.cpp:54-72 | for every n there is a history of n records that is kept whole |
| `HealthStrip.BoundedExactlyWhen` | src/appcore/HealthStripPolicy.cpp:54-72 | the kept history never exceeds n records if and only if no prefix of the arrivals has more than n inside its own last window |
| `HealthStrip.SpacedProbesBoundTheHistory` | src/appcore/HealthStripPolicy.cpp:54-72 | measurements at least `gap` apart keep the history below a day divided by `gap`, plus one |
| `HealthStrip.Encode` | src/appcore/HealthStripPolicy.cpp:74-93 | one character per cell, in order |
| `HealthStrip.Decode` | src/appcore/HealthStripPolicy.cpp:95-121 | 24 known characters are read cell by cell; anything else reads as no strip |
| `HealthStrip.DecodeOfEncode` | src/appcore/HealthStripPolicy.cpp:74-121 | reading back what was written gives the list again if and only if it has 24 cells or none |
| `HealthStrip.EncodeOfDecode` | src/appcore/HealthStripPolicy.cpp:74-121 | a text reads as a strip exactly when well formed, and then it is the text that strip is written as |
| `HealthWatchPolicy.ProxyHealthWatchPolicy.constructor` | src/appcore/ProxyHealthWatchPolicy.cpp:35-38 | starts without failures or warning, with a threshold of at least one |
| `HealthWatchPolicy.ProxyHealthWatchPolicy.RecordResult` | src/appcore/ProxyHealthWatchPolicy.cpp:40-63 | the fields and the decision are those of the specified step |
| `HealthWatchPolicy.CountsTheRun` | src/appcore/ProxyHealthWatchPolicy.cpp:40-69 | after any results since a reset the counter is the length of the run of failures they end with |
| `HealthWatchPolicy.ShownExactlyAfterFailures` | src/appcore/ProxyHealthWatchPolicy.cpp:40-69 | the warning is up exactly when the last N results all failed |
| `HealthWatchPolicy.AlertsExactly` | src/appcore/ProxyHealthWatchPolicy.cpp:40-63 | Warn fires exactly when a failure run reaches N and reports N; Clear exactly when an answer ends a run of at least N |
| `HealthWatchPolicy.AlertsAlternate` | src/appcore/ProxyHealthWatchPolicy.cpp:40-63 | Warn and Clear strictly alternate, Warn first |
| `HealthWatchdog.ProxyHealthWatchdog.Arm` | src/appcore/ProxyHealthWatchdog.cpp:48-56 | the policy starts over, the watch is active, and its timer runs if a check is installed |
| `HealthWatchdog.ProxyHealthWatchdog.Cancel` | src/appcore/ProxyHealthWatchdog.cpp:58-69 | both timers stop and the policy starts over; the waived warning and the recheck flag stay |
| `HealthWatchdog.ProxyHealthWatchdog.NotifyFreshActivation` | src/appcore/ProxyHealthWatchdog.cpp:77-86 | the waived warning, its timer and its flag are cleared |
| `HealthWatchdog.ProxyHealthWatchdog.NotifyWaivedOutboundWarningShown` | src/appcore/ProxyHealthWatchdog.cpp:71-75 | the warning stands and, while active, its timer runs |
| `HealthWatchdog.ProxyHealthWatchdog.RunWatch` | src/appcore/ProxyHealthWatchdog.cpp:138-170 | a probe goes out exactly if active, not shutting down, none marked in flight and a check installed |
| `HealthWatchdog.ProxyHealthWatchdog.FinishWatch` | src/appcore/ProxyHealthWatchdog.cpp:172-201 | an answer is counted only while active, signals what the policy decides, and rearms the timer |
| `HealthWatchdog.ProxyHealthWatchdog.RunDirectRecheck` | src/appcore/ProxyHealthWatchdog.cpp:203-237 | a recheck goes out exactly while the waived warning stands, active, and none is marked in flight |
| `HealthWatchdog.ProxyHealthWatchdog.FinishDirectRecheck` | src/appcore/ProxyHealthWatchdog.cpp:239-260 | a success retracts the warning, a failure rearms the timer, anything late does nothing |
| `HealthWatchdog.NeverStalls` | src/appcore/ProxyHealthWatchdog.cpp:88-201 | in every reachable active state before shutdown: a watch armed with a check that stays installed has its timer armed or a probe out, and a standing waived warning has its timer armed or a recheck out |
| `HealthWatchdog.ArmingWithoutCheckStalls` | src/appcore/ProxyHealthWatchdog.cpp:88-99 | armed without a check and with nothing out, the watch is stalled at once |
| `HealthWatchdog.ArmedWithoutCheckNeverWatches` | src/appcore/ProxyHealthWatchdog.cpp:88-99 | a stalled watch stays so for the whole activation, even if a check is installed meanwhile |
| `HealthWatchdog.ArmAloneStrandsTheWarning` | src/appcore/ProxySession.cpp:455-465 | why the session announces the fresh activation before arming: arming alone leaves a standing warning without a timer |
| `HealthWatchdog.SilentWhileInactive` | src/appcore/ProxyHealthWatchdog.cpp:172-260 | no step emits anything while inactive or shutting down |
| `HealthWatchdog.WarningMeansRecentFailures` | src/appcore/ProxyHealthWatchdog.cpp:48-201 | over any run from the start, in an active state the warning is up exactly when the last N results counted since arming all failed, and the alerts since arming alternate starting with Warn |
| `HealthWatchdog.CountsOwnExactlyWhenNoneOutstanding` | src/appcore/ProxyHealthWatchdog.cpp:48-69 | in every inactive state reachable from the initial one: no run of the next activation counts an older probe's answer if and only if no probe is out when it is armed |
| `HealthWatchdog.CancelDoesNotDropTheProbe` | src/appcore/ProxyHealthWatchdog.cpp:58-69 | the run of six events, from the initial state, in which a probe of one activation is counted for the next |
| `HealthWatchdog.RunStaysOwn` | src/appcore/ProxyHealthWatchdog.cpp:138-201 | from such a start at most one probe is in flight, and every counted result was launched in this activation |
| `HealthWatchdog.OlderProbeMakesTwoInFlight` | src/appcore/ProxyHealthWatchdog.cpp:58-69 | with an older probe out, the first timeout of the new activation puts a second one in flight |
| `CrashRestart.ProxyCrashRestartPolicy.Decide` | src/appcore/ProxyCrashRestartPolicy.cpp:80-137 | the counters and the decision are those of the specified step |
| `CrashRestart.CrashDecisionIsItsNumber` | src/appcore/ProxyCrashRestartPolicy.cpp:117-136 | over any trace a crash is answered by its number since that core's last long run: up to five a restart after three seconds times the number (never the cap), beyond that none |
| `CrashRestart.AtMostFiveRestarts` | src/appcore/ProxyCrashRestartPolicy.cpp:117-136 | between two long runs of a core at most five of its crashes are answered by a restart, whatever else happens meanwhile |
| `CrashRestart.OnlyALongRunReenables` | src/appcore/ProxyCrashRestartPolicy.cpp:118-128 | once disabled, a core's next crash is answered by "disabled" again if and only if its run was not long |
| `CrashRestart.BudgetsDoNotInterfere` | src/appcore/ProxyCrashRestartPolicy.cpp:80-147 | a crash decision is the same as if the trace held only that core's crashes: not the other core's, no conflicts, no resets |
| `CrashRestart.ConflictRetriedOncePerReset` | src/appcore/ProxyCrashRestartPolicy.cpp:89-115 | a main-core conflict is retried after one second exactly when it is the first retryable one since the last reset, and otherwise disables restarting |
| `SubscriptionBackoff.DueSubscriptionIds` | src/app/SubscriptionAutoUpdateLogic.h:62-90 | the loop computes the specified due list |
| `SubscriptionBackoff.DueHoldsTheEligible` | src/app/SubscriptionAutoUpdateLogic.h:75-89 | the due list holds exactly the ids of eligible subscriptions, each once |
| `SubscriptionBackoff.DueKeepsListOrder` | src/app/SubscriptionAutoUpdateLogic.h:75-89 | the due ids come from eligible subscriptions at strictly increasing places of the list, each from the first place that has it |
| `SubscriptionBackoff.DueExactlyWhenEligible` | src/app/SubscriptionAutoUpdateLogic.h:62-90 | a subscription with an id of its own is due exactly when it is eligible |
| `SubscriptionBackoff.EligibleExactlyWhen` | src/app/SubscriptionAutoUpdateLogic.h:37-89 | switched on, with an address and an id, never updated or not for the interval held between an hour and a week, and after s failures on every 2^s-th tick of five minutes, from six failures on on every 64th |
| `SubscriptionBackoff.DueOncePerPeriod` | src/app/SubscriptionAutoUpdateLogic.h:37-83 | on ticks one interval apart, a failing, enabled, overdue subscription is due on exactly one of any 2^min(streak, 6) consecutive ticks, wherever they start |
| `SubscriptionBackoff.LongerStreakThins` | src/app/SubscriptionAutoUpdateLogic.h:37-83 | a tick that is due at a streak one longer is due at this one |
| `DelimiterScan.FindMatchingDelimiter` | scripts/python/check_appbootstrap_member_order.py:25-77 | the flag loop computes the mode-by-mode scan over comments, literals and code |
| `DelimiterScan.FindLambdaBodyBrace` | scripts/python/check_appbootstrap_member_order.py:80-127 | the loops find the specified opening brace of a lambda body, or none |
| `DelimiterScan.CodeOnly` | scripts/python/check_appbootstrap_member_order.py:130-199 | overwriting the buffer in place, with its nested loops, yields the masker's text |
| `DelimiterGrammar.CodeOnlyBlanksExactly` | scripts/python/check_appbootstrap_member_order.py:130-199 | every text can be cut into comments, literals, lambdas and other characters as the grammar has them, and however it is cut, the mask blanks exactly the former three, all but line breaks that no backslash escapes, and keeps the rest |
| `DelimiterGrammar.RecognisesExactlyLambdas` | scripts/python/check_appbootstrap_member_order.py:78-125 | a body brace is found at a place if and only if there a capture list, perhaps a parameter list, and then an arrow and return type within the bound or any list of the five specifiers lead to it |
| `DelimiterGrammar.LambdasAreBlanked` | scripts/python/check_appbootstrap_member_order.py:184-196 | such a lambda is blanked from the bracket to the end of its body, or of the text, line breaks excepted |
| `DelimiterGrammar.CommentsAreBlanked` | scripts/python/check_appbootstrap_member_order.py:145-166 | a line comment up to its line break and a block comment up to its first closing mark are blanked, line breaks excepted |
| `DelimiterGrammar.LiteralsAreBlanked` | scripts/python/check_appbootstrap_member_order.py:168-182 | a literal up to the quote that closes it is blanked, line breaks that no backslash escapes excepted |
| `DelimiterGrammar.TheRestIsKept` | scripts/python/check_appbootstrap_member_order.py:138-199 | where no comment, literal or lambda begins the character is kept |
| `DelimiterGrammar.MatcherPassesOver` | scripts/python/check_appbootstrap_member_order.py:25-62 | comments and literals leave the matcher's depth alone, whatever they hold |
| `DelimiterGrammar.MatcherCounts` | scripts/python/check_appbootstrap_member_order.py:63-76 | elsewhere it counts the two delimiters and answers where the depth returns to zero |
| `DelimiterLaws.MaskKeepsOffsets` | scripts/python/check_appbootstrap_member_order.py:130-199 | from any point, in any text: the mask keeps the length, every character is kept or becomes a space, and a line break is lost exactly if the masker reads a backslash inside a literal just before it |
| `DelimiterLaws.CodeOnlyKeepsOffsets` | scripts/python/check_appbootstrap_member_order.py:131-137 | the same for the whole text, which is what "offsets preserved" means |
| `DelimiterLaws.EscapedLineBreakIsLost` | scripts/python/check_appbootstrap_member_order.py:171-176 | a text whose escaped line break does become a space |
| `DelimiterLaws.MatcherRefinesMasking` | scripts/python/check_appbootstrap_member_order.py:25-199 | in text without lambdas, matching from any code position of the raw text gives the same index, or -1, as plain bracket counting over the mask |
| `DelimiterLaws.MatcherAgreesExactlyWhen` | scripts/python/check_appbootstrap_member_order.py:25-255 | from an opening bracket, past lambdas the matcher leaves in code: the two agree if and only if the raw depth, inside lambdas too, stays positive up to the counter's answer and, if it has one, the lambdas before it open as many delimiters as they close |
| `DelimiterLaws.PlainLambdasLand` | scripts/python/check_appbootstrap_member_order.py:25-125 | the matcher leaves a lambda in code, exactly where the masker does, whenever no comment or literal can begin between its parameter list and the brace of its body |
| `DelimiterLaws.MatcherCrossesBalancedLambdas` | scripts/python/check_appbootstrap_member_order.py:241-255 | so from an opening bracket the two agree whenever every lambda between it and the counter's answer is itself balanced |
| `DelimiterLaws.ImbalancesCanCancel` | scripts/python/check_appbootstrap_member_order.py:184-196 | balance of each is not necessary: two lambdas whose imbalances cancel leave the answers equal |
| `DelimiterLaws.UnbalancedLambdaDisagrees` | scripts/python/check_appbootstrap_member_order.py:186-196 | the two can differ: an unfinished lambda hides a bracket that the matcher sees |
| `IncludeScope.Scanner.IncludeTargets` | scripts/python/check_q_os_include_scope.py:70-92 | cached or not, the answer is the specified list of targets |
| `IncludeScope.Scanner.FileLines` | scripts/python/check_q_os_include_scope.py:65-68 | cached or not, the answer is the file's lines |
| `IncludeScope.Scanner.QtHeadersReached` | scripts/python/check_q_os_include_scope.py:94-114 | the worklist loop terminates on every finite tree and computes the specified walk |
| `IncludeScope.VisitsExactlyTheReachable` | scripts/python/check_q_os_include_scope.py:94-114 | the visited files are exactly those some chain of includes reaches from the entry, and a hit is reported exactly for each unanswered Qt-named include of such a file |
| `IncludeScope.WalkIsDepthFirst` | scripts/python/check_q_os_include_scope.py:94-114 | the worklist loop visits the same files and reports the same includes in the same order as the recursive depth-first walk that takes the last include first |
| `IncludeScope.QtIncludesKeepOrder` | scripts/python/check_q_os_include_scope.py:103-113 | the reports of one file come in the order of its lines |
| `IncludeScope.LinksExact` | scripts/python/check_q_os_include_scope.py:103-111 | a file leads to another exactly if an include line of it has the other among its targets |
| `IncludeScope.TargetsAre` | scripts/python/check_q_os_include_scope.py:70-92 | the targets are exactly the file beside, the files under the roots, and every header of the bare name |
| `IncludeScope.SegmentsSplit` | scripts/python/check_q_os_include_scope.py:40-43 | splitting a path at its slashes leaves none in a part, and joined the parts are the path |
| `IncludeScope.BareNameIsLast` | scripts/python/check_q_os_include_scope.py:85-86 | the bare name is the last part that is neither empty nor a dot |
| `IncludeScope.UniqueKeepsOrder` | scripts/python/check_q_os_include_scope.py:90 | removing repeats commutes with prefixes, so first occurrences keep their order |
| `IncludeScope.OwnDirectoryFirstAndNoCopyHidden` | scripts/python/check_q_os_include_scope.py:77-90 | the including file's own directory comes first, and every header of that bare name is followed |
| `IncludeScope.QtHeaderWhereItStarts` | scripts/python/check_q_os_include_scope.py:30-33 | splitting into segments finds a Qt name exactly where one starts: at the front or after a slash of either kind |

## Left out

- `ProxySession` phases and `StartupResourceBroker`: beyond the order in which the session calls the watchdog, their step bodies are not part of this model.
- Qt plumbing (network replies, threads, queued calls, dialogs, tray, main window): present only as events and sets of outstanding completions. A callback whose lifetime guard has expired belongs to the end of the program and ends the run.
- Callbacks that re-enter a coordinator synchronously, such as a switch that fails at once inside the switch: every handler is one atomic step, except that an update's confirmation dialog is split in two.
- `AppUpdateCheckCoordinator`, `GeoResourceUpdateCoordinator`, `SubscriptionWorkflowCoordinator`, `SpeedTestCoordinator`: the same token pattern as the core update.
- The speed-test progress counters of `BackgroundTaskCoordinator`, the core update's cancel flag and progress callbacks, and payloads of completion notices beyond success.
- `CoreStartupChecklist`, `SettingsDialogApplyPlan`, `LocationCatalog`, `SystemProxyCoordinator`: not part of this model.
- Message wording, translation, log lines, result entries and their severity; a log line is modelled only where the watchdog emits nothing else.
- `inferCountryCodeFromNodeName`, `classifyOutboundFailure` and `tryParseUrlProbeLatency` are arbitrary total functions or their results are parameters.
- Characters outside ASCII when trimming, and when classifying spaces and identifier characters in the scanners.
- 32-bit counters that would overflow only after 2^31 failures, crashes or switches are unbounded here; only the generation keeps its width.
- How long timers run: a timer that is armed may fire at any moment.
- The regular expression that recognises an include line, and how the header index is gathered from disk: a file is a list of lines, each an include of a target or something else, and the lookups are maps.
- BackgroundTasks.IssuedGenerationsIncrease: like the other run lemmas over tokens it covers runs shorter than 2^64 steps; what happens at the wrap is `WrapTakesSlotWithoutToken`.
- CoreUpdateRuns.CoreUpdateIsSafe: is about clean runs, because the unclean steps do leak; `LeaksExactlyWhenUnclean` is the exact boundary.
- HealthWatchdog.NeverStalls: needs the check installed at arming and left installed, because without it the watch does stall (`ArmingWithoutCheckStalls`).
- DelimiterLaws.MatcherRefinesMasking: leaves out text with lambdas, for which the claim fails in general (`UnbalancedLambdaDisagrees`); `MatcherAgreesExactlyWhen` is the exact condition from an opening bracket.
- DelimiterLaws.MatcherAgreesExactlyWhen: leaves out lambdas that the matcher leaves in a comment or a literal, because from there on the two scanners read different text; `PlainLambdasLand` says which cannot be such.
- SwitchCoverage.CoversExactlyWhen: leaves out streaks in the middle of which a result expires or a probe changes who is fresh and how fast; `StreakWalks` says where any streak goes.
- SubscriptionBackoff.DueOncePerPeriod: the fail streak and the time of the last update stay fixed over the window, and the clock is not negative.
