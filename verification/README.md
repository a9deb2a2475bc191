# Scheduler and state machines of the monitoring daemon, verified

The daemon watches hosts and services. It reads a graph of hosts and refuses one with cycles; it
keeps a time-ordered list of checks to run; every check result moves a state machine that counts
attempts, decides between soft and hard states and asks for notifications; operators acknowledge
problems, switch notifications and schedule downtime for everything "beyond" a host; and objects
that change state too often are held to be flapping. This project models those five parts in
Dafny and proves what they are for.

| module | models |
|---|---|
| `Graphs` | graphs of ordered child links: reachability, cycles, descendants |
| `HostConfig` | the depth-first search for parent/child cycles (base/config.c) |
| `Propagation` | switching notifications and scheduling downtime beyond a host (base/commands.c) |
| `Common` | notions shared by several modules |
| `Timeline`, `EventQueue` | the timed-event list: a doubly linked list refining a stable priority sequence (base/events.c) |
| `CheckScheduling`, `ScheduleOrder`, `SchedulerRuns` | scheduling, running and postponing checks, with the back-pointer from every object to its queued check (base/checks.c, base/events.c) |
| `AutoReschedule`, `ClockChange`, `Interleave` | spreading checks, clock changes, the first check times (base/events.c) |
| `CheckStates`, `ServiceChecks`, `HostChecks` | results of service and host checks (base/checks.c) |
| `Outages` | down and unreachable hosts in the graph of parents (base/checks.c) |
| `ProblemIds`, `Acknowledgements` | problem ids and acknowledgements over whole runs (base/checks.c, base/commands.c) |
| `Flapping` | flap detection (base/flapping.c) |
| `Dependencies` | service and host dependencies (base/checks.c) |
| `PluginOutput`, `OutputParser` | parsing of plugin output (base/checks.c, common/shared.c) |

Objects that the program updates in place are classes; each method is proved against a function or
relation on values, and the laws are lemmas about those. Abstract values are ghost: a sequence of
events stands for a linked list, a map of colours for the search marks. Every class holds the
fields its component uses, so a host is a different class in every module. A `double` is a `real`,
and casts to integers truncate. Clock readings, time-period lookups, route results and the outcome
of a started check are parameters. A notification *request* is a normal notification that the handler
of the host or service itself asks for when it deals with a result, recorded in a field; whether one
goes out is decided in base/notifications.c, which is not part of this model.

## What the code turns out to do

- The cycle check complains about every host on a cycle, and also about hosts that merely lead into
  one, as long as they have a parent, although the message says "is part of a circular parent/child chain"
  (base/config.c:2979). `HostConfig.BystanderReported` is the smallest such graph,
  `HostConfig.ReportedExactly` the exact rule.
- Automatic re-spreading of checks never moves anything. The guard compares whole seconds after
  truncating the 0.1 second overhead away, and the list is always in order; so no check ever
  "bumps" (`AutoReschedule.OrderedNeverBumps`, `SchedulerRuns.RespreadChecks`). What the second pass
  would do on a list out of order is proved as well.
- Problem ids tell problems, in every run, exactly when the counter starts at 1 or higher and no
  object is configured with an `initial_state` that is a problem. The counter starts at 0
  (base/icinga.c:168), so the first problem of a fresh program has the id that means none; and a
  problem from the configuration has that id whatever the counter is (common/objects.c:770-783,
  common/objects.c:1693-1701). `ProblemIds.IdsTellProblemsExactly` and
  `ProblemIds.ConfiguredProblemHasNoId` say so, `ProblemIds.LiveIdsDifferExactly` says when two
  problems can have the same id.
- A recovery notification can be asked for although no problem notification was: when the host was
  not up at the last problem (`ServiceChecks.RecoveryWithoutProblem`, one check), or was not up
  earlier and the recovery comes in place of the last attempt (`ServiceChecks.RecoveryAtLastAttempt`,
  two checks). `ServiceChecks.RecoveryExactly` has all cases.
- A dependency outside its period is to be skipped according to the comment at base/checks.c:2115; in
  fact it ends the whole check with success, and a failure behind it can be lost
  (`Dependencies.FailureLost`). For which configurations none is lost in any state is exact
  (`Dependencies.EndingIsSkippingExactly`).
- An acknowledgement with an end time leaves its expiry event in the event list when a recovery or a
  change of state ends it, and that event takes away whatever acknowledgement it finds
  (`Acknowledgements.ExpiryEventLeftBehind`, `Acknowledgements.ExpiresInTimeExactly`).
- Plugin output that holds a backslash and an n of its own is cut there once more after unescaping
  (`OutputParser.EscapedOutputKeepsLines`).

## Model

| member | source | states |
|---|---|---|
| Graphs.ReachesCycleByChild | base/config.c:2929-2933 | a node reaches a cycle iff one of its children does: why "OK iff all children are OK" is the right rule |
| Graphs.DescendantsShrink | base/commands.c:4101-4108 | below an acyclic host the set of descendants shrinks with every link, so recursion over links ends |
| Graphs.AcyclicEverywhere | base/config.c:2972-2975 | on a graph that passes the check no host reaches a cycle: what the recursive commands rely on |
| HostConfig.DfsHostPath | base/config.c:2891-2937 | the search ends and keeps the colour invariant although it repaints other hosts on the way; OK and LOOPY are final; its root is checked afterwards, and its colour is returned |
| HostConfig.SearchChild | base/config.c:2904-2927 | one turn of the loop, with the recursive search of an unchecked child: the invariant is kept, and all children looked at end OK or LOOPY |
| HostConfig.PaintTroubledChild | base/config.c:2911-2926 | one troubled child: exactly root and child are repainted |
| HostConfig.PaintChildKeepsInvariant | base/config.c:2911-2926 | repainting a finished or active child keeps everything known about all other hosts |
| HostConfig.ActiveChildClosesCycle | base/config.c:2911-2916 | a link to a host still being searched closes a cycle through both |
| HostConfig.LeaveHost | base/config.c:2929-2936 | a host whose children have all been looked at can leave the search: painted OK if it was never suspected, it then reaches no cycle, and all other hosts stay right |
| HostConfig.FinalColours | base/config.c:2875-2880 | after the pass: OK iff no cycle is reached, LOOPY iff a cycle is reached and there is a parent, NEAR_LOOP iff a cycle is reached and there is none |
| HostConfig.OnCycleIsLoopy | base/config.c:2972-2975 | a host on a cycle is LOOPY by the time its own search returns, so the error is not missed |
| HostConfig.FlagDone | base/config.c:2972-2975 | the error flag is set iff the graph has a cycle |
| HostConfig.SearchAll | base/config.c:2967-2975 | the colours of all hosts afterwards, and the error flag |
| HostConfig.ReportAndClear | base/config.c:2977-2982 | the hosts complained about, in list order; all marks are cleared |
| HostConfig.PreFlightHostCircularCheck | base/config.c:2952-2982 | the whole pass: error iff the graph has a cycle, and the complaints of ReportedExactly |
| HostConfig.ReportedExactly | base/config.c:2977-2979 | a host is complained about iff it reaches a cycle and has a parent |
| HostConfig.CycleMembersReported | base/config.c:2977-2979 | every host on a cycle is complained about |
| HostConfig.BystanderReported | base/config.c:2979-2979 | a host that is on no cycle can be complained about |
| Propagation.SwitchHostNotifications | base/commands.c:4101-4102 | the flag of this host becomes the value asked for, the attribute is recorded only if the flag moves, and no other host changes |
| Propagation.PropagateNotifications | base/commands.c:4090-4165 | enabling and disabling end on every accepted graph. On the fields: the flag of every proper descendant, of the top host and of the descendants' services becomes the value asked for, as far as each is asked for; the attribute is recorded only for a flag that moves; all other objects keep both |
| Propagation.SwitchBeyond | base/commands.c:4104-4122 | the loop over the children with its recursion switches exactly what is beyond them, on the fields |
| Propagation.OnThenOff | base/commands.c:4042-4075 | enabling and then disabling the same objects leaves exactly these off, with the attribute recorded |
| Propagation.SwitchTwice | base/commands.c:4107-4120 | a host reached by several paths is switched as if by one |
| Propagation.BeyondFirstExactly | base/commands.c:4104-4122 | the recursion over the first children reaches exactly what is behind their links |
| Propagation.ScheduleAndPropagateDowntime | base/commands.c:4278-4296 | the entries added, one for a visited host each, in order, with its name and the data given; the entries there were stay in front |
| Propagation.VisitsStep | base/commands.c:4278-4296 | everything beyond a child gets its entry before the child does, and children come in the order of the links |
| Propagation.PathsToExactly | base/commands.c:4278-4296 | the set that is counted is the set of all link paths from one host to another |
| Propagation.DowntimePerLinkPath | base/commands.c:4278-4296 | a descendant gets as many downtime entries as there are distinct link paths to it |
| Propagation.VisitsAreDescendants | base/commands.c:4278-4296 | a host gets an entry iff it is a proper descendant |
| Timeline.InsertByTimePosition | base/events.c:1057-1077 | an event goes behind all events due no later and before all others |
| Timeline.InsertedSorted | base/events.c:1031-1078 | insertion keeps the order and adds just the one event |
| Timeline.InsertedDueAt | base/events.c:1062-1070 | events due at the same time keep the order in which they came |
| Timeline.SortIsStable | base/events.c:2025-2047 | re-sorting gives an ordered permutation that keeps the order of events due together |
| Timeline.StableSortIsUnique | base/events.c:2025-2047 | only one list is that, so the re-sort is any stable sort |
| Timeline.SortSorted | base/events.c:2025-2047 | re-sorting a list in order changes nothing |
| EventQueue.AddEvent | base/events.c:1032-1086 | links, head and tail stay consistent and the list becomes the insertion by time |
| EventQueue.FindPlace | base/events.c:1060-1077 | the search from the tail finds the place; it never runs off the front |
| EventQueue.RemoveEvent | base/events.c:1091-1139 | exactly this node leaves the list, its neighbours are linked |
| EventQueue.PopHead | base/events.c:1381-1394 | the first event leaves; the tail may go stale, which the list invariant allows for an empty list |
| EventQueue.ResortEventList | base/events.c:2025-2047 | the same nodes, stably sorted, linked again both ways |
| CheckScheduling.IndexAgreesWithScan | base/checks.c:1906-1914 | the back-pointer is what a scan of the whole list finds: nothing, or the only check of the object |
| CheckScheduling.IndexReplaced | base/checks.c:1975-2005 | replacing a queued check keeps every back-pointer right |
| CheckScheduling.IndexPopped | base/events.c:1381-1394 | taking a check out and clearing its back-pointer keeps every back-pointer right |
| CheckScheduling.RescheduleEvent | base/events.c:1000-1028 | on the fields: a one-time event keeps its run time, a timing function sets it, and otherwise it is an interval later but not in the past; the place in the list |
| CheckScheduling.ReplaceQueued | base/checks.c:1973-2014 | the old check is gone, a new one queued and pointed to |
| CheckScheduling.ScheduleCheck | base/checks.c:1893-2021 | which of the request and the queued check wins; `next_check` is the time of the check left; order and back-pointers are kept |
| CheckScheduling.ScheduleNewEvent | base/events.c:905-954 | the event is queued in order and, for a check, pointed to |
| CheckScheduling.RunScheduledCheck | base/checks.c:395-483 | the back-pointer is cleared; a check that could not be launched is queued again, for the next valid time from the preferred time, or from now if that is past, and a week later if there is none |
| CheckScheduling.PutOffAhead | base/checks.c:424-476 | a check that could not be launched is put off into the future, so the loop does not spin on it |
| CheckScheduling.RunHead | base/events.c:1377-1399 | a check that is due leaves the list and is run; if it is not launched it comes back with its new time |
| CheckScheduling.HandOverHead | base/events.c:1380-1390 | any other event leaves the list before its handler runs; order and back-pointers are kept |
| CheckScheduling.TakeBack | base/events.c:1392-1398 | after its handler it comes back with its new run time, if it recurs |
| CheckScheduling.PostponeHead | base/events.c:1306-1374 | a check put off stays queued, with the next check time of its object, moved by the delay |
| CheckScheduling.LowPriorityTurn | base/events.c:1267-1399 | from the turn and the fields of the first event: nothing changes at all before it is due; then a host check is put off iff host checks are switched off and it is not forced, a service check iff service checks are switched off or the limit is reached and it is not forced; one that is put off is due at its old `next_check` plus the nudge or the delay; any other check is run, any other event handed to its handler; order and back-pointers are kept |
| CheckScheduling.ResortChecks | base/events.c:2025-2047 | sorting again leaves all back-pointers right |
| CheckScheduling.PlanNextCheck | base/checks.c:1748-1776 | after a result: whether the object is to be scheduled; then a queued check that is forced or not later stays, otherwise a new one is queued for the time asked for, and `next_check` is the time of the check left; otherwise `next_check` is written and the queued check stays |
| CheckScheduling.EnableChecks | base/commands.c:3847-3876 | the same when active checks are enabled; nothing if they are |
| CheckScheduling.DisableChecks | base/commands.c:3818-3830 | the object is not to be scheduled any more, a queued check stays queued |
| SchedulerRuns.PerformTurn | base/events.c:1377-1399 | a whole turn, with a handler that itself does anything to the list while its event is out of it |
| SchedulerRuns.Perform | base/events.c:1267-1399 | any operation on the list keeps the invariant |
| SchedulerRuns.PerformOnTarget | base/checks.c:1748-1776 | requests, plans and commands for one object keep it in step with its queued check as long as it is to be scheduled |
| SchedulerRuns.RunScheduler | base/events.c:1144-1399 | from an empty list and null back-pointers, after any sequence of operations the list is in order, every back-pointer equals the full scan, every object whose next check time has not been written directly has `next_check` equal to the run time of its queued check, and so has every object that is to be scheduled; a run in which checks are switched on and the limit is never reached puts off no check |
| SchedulerRuns.RespreadChecks | base/events.c:1705-1900 | within a run, re-spreading changes nothing |
| ScheduleOrder.ReplacesIsBefore | base/checks.c:1916-1970 | the branches decide by one order: forced first, then earlier |
| ScheduleOrder.SurvivorIsFirstMinimum | base/checks.c:1906-2014 | what is left after any sequence of requests is the first minimal one |
| ScheduleOrder.SurvivorIs | base/checks.c:1906-2014 | in plain terms: forced iff any request is forced, of the earliest time among those, and the first of these |
| ScheduleOrder.OrderIndependent | base/checks.c:1906-2014 | whether it is forced and its time do not depend on the order of the requests |
| ScheduleOrder.ScheduleOne | base/checks.c:1906-2014 | one more request leaves the survivor of it and all before, unless checks are disabled and it is not forced |
| ScheduleOrder.ScheduleAll | base/checks.c:2395-2498 | requests made in turn leave the survivor of the check queued before and the accepted requests, with `next_check` its time |
| AutoReschedule.Survey | base/events.c:1738-1797 | the first pass counts exactly the picked checks, a tenth of a second for each, and finds whether any two bump |
| AutoReschedule.SpreadChecks | base/events.c:1830-1895 | the second pass picks the same checks; forced, other and out-of-window events keep their time; each object is told |
| AutoReschedule.AdjustCheckScheduling | base/events.c:1705-1900 | the whole operation: nothing at all, or every moved check has its computed time, its object knows it, and the list is a stable sort of the same events; other events, forced checks and checks outside the window always keep their time |
| AutoReschedule.PickedExactly | base/events.c:1738-1760 | which checks are picked: in the window, not forced, and not behind an event that is due after the window |
| AutoReschedule.BumpsExactly | base/events.c:1762-1785 | checks bump iff a picked check is due before one that is picked earlier |
| AutoReschedule.GapOrSqueeze | base/events.c:1806-1828 | with at least 10(window + 1) checks there is no gap and the checks fill the window squeezed; with fewer the gaps fill what the checks leave of it |
| AutoReschedule.VisitEvent | base/events.c:1830-1892 | one event, on its fields: its new time and that of its object, and where the next one goes |
| AutoReschedule.MovedAndTold | base/events.c:1868-1888 | under the scheduler invariant every object with a moved check has that check's run time as `next_check` |
| AutoReschedule.OrderedNeverBumps | base/events.c:1762-1785 | in a list in order no two checks bump |
| AutoReschedule.NewRunTimesOrdered | base/events.c:1830-1885 | new times keep the queue order and are never before now, even when the first offset is negative |
| AutoReschedule.ServicesStayInWindow | base/events.c:1806-1885 | with service checks only, all stay within the window |
| AutoReschedule.StaysNearWindow | base/events.c:1830-1888 | any moved check stays within the window but for the squeezed execution times of the host checks picked before it |
| AutoReschedule.OffsetSplit | base/events.c:1831-1892 | where a check goes: half a gap, as many equal steps as checks picked before it, and the time of the hosts among them |
| AutoReschedule.ServiceStep | base/events.c:1806-1828 | squeezed or not, service checks end up the n-th part of the window apart |
| AutoReschedule.ToldTheirOwn | base/events.c:1862-1885 | every object with a moved check knows the new time of that check |
| ClockChange.AdjustedMonotone | base/events.c:2052-2074 | adjustment keeps the order of timestamps and the epoch |
| ClockChange.AgeKept | base/events.c:2052-2074 | a timestamp keeps its age through a clock change, unless it was never set or would come to lie before the epoch: then it is 0 |
| ClockChange.ForwardThenBack | base/events.c:2052-2074 | a jump forwards is undone by the same jump backwards |
| ClockChange.BackThenForward | base/events.c:2061-2068 | a jump backwards is undone iff the timestamp was 0 or greater than the difference |
| ClockChange.OrdinaryEventsStaySorted | base/events.c:1953-1976 | events without a timing function stay in order, and the sort that follows changes nothing |
| ClockChange.CompensateList | base/events.c:1953-1976 | one list: an event that is not compensated keeps its run time, a timing function sets it, any other run time is adjusted; then the list is stably sorted |
| ClockChange.AdjustTarget | base/events.c:1978-2011 | each timestamp is adjusted by itself, the last state history update for hosts only; when contacts are notified again is worked out from the adjusted last notification |
| ClockChange.AdjustTargets | base/events.c:1978-2011 | all timestamps of all hosts and services, and when contacts are notified again |
| ClockChange.CompensateForTimeChange | base/events.c:1905-2020 | both lists, all timestamps of hosts, services and the program; the back-pointers are kept |
| Interleave.CountScheduled | base/events.c:148-186 | counts the services worth scheduling, those with an interval, checks enabled and a valid time, and marks the others |
| Interleave.InterleaveChecks | base/events.c:334-393 | both loops end; every eligible service gets the slot of its rank, the others keep their time |
| Interleave.PlaceCheck | base/events.c:356-372 | a service is due at its preferred time, or at the next valid time if that is outside its check period |
| Interleave.OccupantOfMultiplier | base/events.c:352-356 | a slot tells its service, so slots are distinct |
| Interleave.MultiplierOfOccupant | base/events.c:352-356 | and every slot between the bounds belongs to a service |
| Interleave.MultiplierBounds | base/events.c:313-356 | slots lie between B and B(F+1)-1 |
| Interleave.BlockNumberBelow | base/events.c:313-338 | block numbers stay below the number of blocks |
| Interleave.EverySlotOnce | base/events.c:336-393 | in a whole pass no two services get one slot, even when some are passed over |
| Interleave.ScheduleFirstChecks | base/events.c:148-393 | counting, dividing into blocks and handing out: all services that get a time have different slots within bounds, by their rank, and are due at the time of the slot; the others keep theirs |
| Interleave.NeighboursFarApart | base/events.c:335-356 | neighbours within a block are as many slots apart as there are blocks; from one block to the next it goes back to the slot behind the first of the block |
| Interleave.OffsetWithinSpread | base/events.c:270-289 | with the smart delay no check is put off beyond 60 * spread * (n + F + B - 2) / n seconds |
| Interleave.SmartDelayIs | base/events.c:270-289 | a round of n checks, one delay apart, takes the average check interval, or the spread if that is less |
| Interleave.DistinctSeconds | base/events.c:356-360 | with a delay of a second or more no two services share a second |
| ServiceChecks.Service.HandleAsyncCheckResult | base/checks.c:1054-1737 | the state is the return code of a check that exited normally with 0 to 3, and CRITICAL otherwise; the attempt, last hard state, acknowledgement, ids and notification request after it; dropped results change nothing |
| ServiceChecks.Service.NoteChanges | base/checks.c:1268-1320 | the attempt counted and the soft and hard changes found |
| ServiceChecks.Service.HandleOk | base/checks.c:1381-1490 | an OK result settles the service; a notification of the recovery is asked for iff the change is hard |
| ServiceChecks.Service.HandleProblem | base/checks.c:1576-1737 | a problem with and without a route to the host, below and at the last attempt |
| ServiceChecks.Service.AcknowledgeProblem | base/commands.c:4344-4384 | only a problem is acknowledged: flag, type, end time, comment, notification, and an expiry event if it is to end |
| ServiceChecks.Service.RemoveAcknowledgement | base/commands.c:4406-4424 | flag, end time and the comments that do not persist go, with the first expiry event of the object if there is an end time; the type stays |
| ServiceChecks.Service.ExpireAcknowledgement | base/events.c:1648-1665 | an expiry event leaves the list and takes the acknowledgement along that is there |
| ServiceChecks.NextConsistent | base/checks.c:1268-1737 | every step keeps: 1 <= attempt <= max; OK is hard, with attempt 1 and last hard state OK; soft means a problem with attempts left; a problem out of attempts is hard and the last hard state |
| ServiceChecks.RunConsistent | base/checks.c:1268-1737 | so does every run, over any routes |
| ServiceChecks.EveryRunConsistent | common/objects.c:1693-1701 | and every configured service starts that way, so it holds in every run there is |
| ServiceChecks.ProblemsAreCounted | base/checks.c:1268-1271 | with the host up, after k problems of any kind the attempt is min(k, max), the state is hard iff k >= max, and that is when notifications are asked for |
| ServiceChecks.EpisodeShows | base/checks.c:1576-1737 | how notifications and lost routes of an episode show in the state at its end |
| ServiceChecks.RecoveryIffProblem | base/checks.c:1412-1450 | with the host up, a recovery request is made iff a problem request was |
| ServiceChecks.PairedInEveryRun | base/checks.c:1412-1450 | the same between any two OK results of a run |
| ServiceChecks.RecoveryExactly | base/checks.c:1281-1294 | over any routes: a problem request is always followed by a recovery request, and exactly when a recovery request comes without one |
| ServiceChecks.RecoveryWithoutProblem | base/checks.c:1281-1284 | one problem with the host down: a recovery request without a problem request |
| ServiceChecks.RecoveryAtLastAttempt | base/checks.c:1290-1294 | two problems, the host down at the first only: another one, in place of the last attempt |
| ServiceChecks.AcknowledgementLasts | base/checks.c:1308-1326 | a sticky acknowledgement lasts as long as there is a problem, a normal one as long as the problem stays the same |
| HostChecks.Host.AdjustCheckAttempt | base/checks.c:4240-4264 | the attempt a check counts as |
| HostChecks.Host.DetermineReachability | base/checks.c:4270-4317 | from the parents' states: UNREACHABLE iff not up, with parents and none of them up; DOWN iff not up, and without parents or with one up |
| HostChecks.Host.CheckParentsInTurn | base/checks.c:3905-3935 | the same decision from the states that serial checks of the parents report |
| HostChecks.Host.DecideState | base/checks.c:3751-4040 | the new state and state type in the four cases of down or up, before and now |
| HostChecks.Host.HandleHostState | base/checks.c:4326-4470 | ids, acknowledgement, attempt and notification request after a result |
| HostChecks.Host.ProcessCheckResult | base/checks.c:3712-4049 | all of that for one result |
| HostChecks.Host.HandleAsyncCheckResult | base/checks.c:3525-3688 | an active check is up iff there is no command, or it exited normally with 0, or with 1 unless checking is aggressive; a failed one leaves the host UNREACHABLE iff it has parents and none was up; dropped results change nothing |
| Outages.UnreachableBehindDown | base/checks.c:4288-4313 | on an acyclic graph of parents evaluated by this rule, every UNREACHABLE host is behind a DOWN one, with nothing up on the way |
| Outages.UnreachableHasDownAncestor | base/checks.c:4288-4313 | so an UNREACHABLE host always has a DOWN ancestor |
| Outages.CycleOfUnreachables | base/checks.c:4288-4313 | on a cycle it need not: two hosts that are each other's parents can both be UNREACHABLE |
| HostChecks.Host.AcknowledgeProblem | base/commands.c:4300-4340 | only a problem is acknowledged: flag, type, end time, comment, notification, and an expiry event if it is to end |
| CheckStates.AckDataIs | base/commands.c:4300-4340 | an end time that is still to come is kept and brings an expiry event for the second after it, any other none; one comment more, and a notification iff asked for |
| HostChecks.Host.RemoveAcknowledgement | base/commands.c:4385-4402 | flag, end time and the comments that do not persist go, with the first expiry event of the object if there is an end time; the type stays |
| CheckStates.PersistentStay | base/commands.c:4385-4402 | of the comments exactly the persistent ones stay, in their order |
| HostChecks.Host.ExpireAcknowledgement | base/events.c:1648-1665 | an expiry event leaves the list and takes the acknowledgement along that is there |
| HostChecks.NextConsistent | base/checks.c:3811-3831 | a hard outage counts as the first or the last attempt; a soft state has not been hard since the host was up |
| HostChecks.RunConsistent | base/checks.c:3712-4470 | so after any interleaving of launches and results |
| HostChecks.EveryRunConsistent | common/objects.c:770-784 | and every configured host starts that way, so it holds in every run there is |
| HostChecks.HardOutageLasts | base/checks.c:3821-3831 | a hard outage stays hard until the host is up, however launches and results interleave |
| HostChecks.OutagesAreCounted | base/checks.c:4240-4264 | from hard up, after k failed checks the outage is hard iff k >= max; the attempt is k up to max and 1 after that; the state is never UP |
| HostChecks.HardOutageNotifies | base/checks.c:4432-4462 | a failed result makes a notification request iff it leaves a hard outage |
| HostChecks.NotifiedIffHard | base/checks.c:4432-4462 | an episode has made a problem request iff the outage is hard |
| HostChecks.RecoveryExactly | base/checks.c:3763-3768 | a recovery request is made iff a problem request was, or the recovery comes by a passive result that counts as hard |
| HostChecks.PairedInEveryRun | base/checks.c:4432-4462 | in any run of soft results, between two results that say up, the second makes a request iff the outage in between did |
| ProblemIds.ServiceStep | base/checks.c:1347-1368 | what a service result does to the ids is a step of the model |
| ProblemIds.HostStep | base/checks.c:4397-4421 | what a host result does to the ids is one as well |
| ProblemIds.SystemRunShown | base/checks.c:1347-1368 | every run of any number of services and hosts that share the counters is a run of the model |
| ProblemIds.SystemIdsTellProblems | base/checks.c:4397-4421 | so in such a run an id means a problem and a problem has its own id, for services and hosts together |
| ProblemIds.StayingUpDrawsNothing | base/checks.c:4358-4421 | a host that stays up uses up no id |
| ProblemIds.RunConsistent | base/checks.c:1347-1368 | over every run from any configuration: fine objects have id 0, problems from the configuration keep 0, all others have distinct ids below the counter |
| ProblemIds.IdsTellProblemsExactly | base/icinga.c:168-168 | "non-zero id iff problem" holds in all runs iff the counter starts at 1 or more and no object is configured with a problem |
| ProblemIds.ConfiguredProblemHasNoId | common/objects.c:1693-1701 | an object configured with a problem has it without an id, before anything has happened |
| ProblemIds.LiveIdsDifferExactly | base/checks.c:4397-4421 | problems at the same time have different ids in all runs iff at most one object is configured with a problem and, if one is, the counter does not start at 0 or it is the only object |
| ProblemIds.IdKeptThroughProblem | base/checks.c:1354-1368 | a problem keeps its id until it is over |
| ProblemIds.IdsIncrease | base/checks.c:1355-1361 | later problems have higher ids |
| Acknowledgements.InForceExactly | base/commands.c:4344-4424 | over any run: an acknowledgement is in force iff somebody acknowledged a problem and since then nobody took that back or replaced it, no expiry event came, and the problem lasted |
| Acknowledgements.ServiceInForceExactly | base/checks.c:1308-1326 | that holds of a service, from its configuration on, over results, commands and expiry events |
| Acknowledgements.HostInForceExactly | base/checks.c:4363-4391 | and of a host, over launches, results of any kind, commands and expiry events |
| Acknowledgements.ServiceRunShown | base/checks.c:1308-1326 | what every run of a service does to its acknowledgement is a run of the common model |
| Acknowledgements.HostRunShown | base/checks.c:4363-4391 | the same for hosts |
| Acknowledgements.RunOrdered | base/commands.c:4368-4371 | the expiry events of an object stay in order over every run |
| Acknowledgements.ExpiresInTimeExactly | base/commands.c:4406-4415 | an acknowledgement expires right after its end time iff no earlier expiry event of the object is left; one without an end time is taken away iff one is left |
| Acknowledgements.ExpiryEventLeftBehind | base/events.c:1648-1665 | a recovery leaves the event behind, and a later acknowledgement is taken away early |
| Flapping.WindowIsLastStates | base/flapping.c:104-113 | the window holds the states recorded last |
| Flapping.Monitored.RecordState | base/flapping.c:104-113 | writing the ring slides the window |
| Flapping.Monitored.CurvedPercentChange | base/flapping.c:115-140 | the loop around the ring computes the percentage of the window, wherever the ring starts |
| Flapping.WeightsSum | base/flapping.c:126-127 | the weights add up to N-1 |
| Flapping.PercentBounds | base/flapping.c:138-140 | the percentage is in [0, 100]; 100 iff all neighbours differ, 0 iff all are the same |
| Flapping.RepeatCalms | base/flapping.c:115-140 | recording the newest state again never raises it, and lowers it unless it is 0 |
| Flapping.RepeatsSettle | base/flapping.c:115-140 | N-1 repeats bring it to 0 |
| Flapping.Hysteresis | base/flapping.c:146-176 | the run law: flapping iff some percentage was at the high threshold or above and all later ones above the low one, or it was flapping before and all were above the low one |
| Flapping.PerformChecks | base/flapping.c:146-176 | any run of service and host flap checks: the flag follows the run law for the percentages of the window, and the start and stop notices sent take turns, beginning with a start iff it was not flapping |
| Flapping.StableStateStops | base/flapping.c:154-176 | a state that stays ends flapping within N-1 records |
| Flapping.StableStateNeverStarts | base/flapping.c:154-176 | and does not start it |
| Flapping.Monitored.SetFlap | base/flapping.c:325-362 | flag, comment, recovery flag and notice of a start |
| Flapping.Monitored.ClearFlap | base/flapping.c:366-404 | the comment added at the start goes; a recovery that was held back is sent |
| Flapping.Monitored.Detect | base/flapping.c:115-176 | percentage and decision by the thresholds of the object, or those of the program where it has none: at most the low one stops, at least the high one starts, anything between changes nothing; the notices of a start, a stop and a recovery held back; a comment exists iff the object is flapping |
| Flapping.Monitored.CheckForServiceFlapping | base/flapping.c:56-179 | soft problems are not looked at; which states are recorded |
| Flapping.Monitored.CheckForHostFlapping | base/flapping.c:183-316 | without an actual check states are recorded only after the wait |
| Dependencies.CheckDependencies | base/checks.c:2093-2145 | the recursion ends on an acyclic graph, and fails iff a chain of dependencies handed on by `inherits_parent` ends at one whose master's effective state is in its fail set |
| Dependencies.RecursionShrinks | base/checks.c:2138-2141 | every inherited step gets closer to the end |
| Dependencies.ChainsThrough | base/checks.c:2119-2141 | a dependency fails directly or through its master's dependencies |
| Dependencies.DirectFailures | base/checks.c:2115-2136 | on the fields: a dependency of the kind with none excluded up to it fails the check if the master's state, the last hard one for a soft state unless soft ones are to be used, is in its fail set, or it is pending in state 0 and that fails; without inheritance nothing else does |
| Dependencies.EndingIsSkippingExactly | base/checks.c:2115-2118 | ending the check at an excluded dependency comes to the same as skipping it, in every state, iff all that skipping catches is also caught by ending, or some master is caught in whatever state |
| Dependencies.EndingAddsNoFailure | base/checks.c:2533-2536 | it never adds a failure |
| Dependencies.ExcludedLastIsCovered | base/checks.c:2533-2536 | it loses none when only excluded dependencies come behind an excluded one |
| Dependencies.FailsByMaster | base/checks.c:2119-2136 | the check fails iff some master is in a state that some chain catches |
| Dependencies.FailureLost | base/checks.c:2115-2118 | otherwise a failure can be lost |
| PluginOutput.UnescapeEscape | base/checks.c:4506-4519 | unescaping the escaped form of any string gives it back |
| PluginOutput.EscapeUnescape | base/checks.c:4506-4519 | the other way round iff every newline and backslash was escaped |
| PluginOutput.EscapeByCharacter | base/checks.c:4626-4638 | escaping goes character by character: a newline becomes backslash-n, a backslash two of them, anything else stays |
| PluginOutput.UnescapeByPair | base/checks.c:4507-4519 | backslash-n becomes a newline and two backslashes one |
| PluginOutput.UnescapeOther | base/checks.c:4507-4519 | any other character stands for itself, a single backslash too |
| PluginOutput.EscapeFits | base/checks.c:4623-4625 | the escaped form has at most twice the length |
| PluginOutput.UnescapeInPlace | base/checks.c:4506-4519 | compaction in place is the unescaping |
| PluginOutput.EscapeNewlines | base/checks.c:4623-4641 | the escaping loop stays within its buffer |
| PluginOutput.Strip | common/shared.c:301-349 | stripping in place is trimming |
| PluginOutput.TrimStrips | common/shared.c:301-349 | blanks go at both ends and nothing else does |
| OutputParser.LinesJoin | base/checks.c:4521-4535 | splitting at newlines loses nothing and leaves none |
| OutputParser.LinesSplit | base/checks.c:4524-4535 | a newline ends a line, and with escaped newlines a backslash and an n do; what comes behind is split by itself |
| OutputParser.OneLineExactly | base/checks.c:4524-4535 | text is one line iff it holds neither |
| OutputParser.BackslashNMatters | base/checks.c:4527-4530 | looking for backslash-n as well makes a difference iff there is one |
| OutputParser.EscapedOutputKeepsLines | base/checks.c:4506-4535 | escaped output has the lines of the original iff it holds no backslash-n of its own |
| OutputParser.OneToken | common/shared.c:33-64 | a token without delimiter is the rest of the text; of nothing there is none |
| OutputParser.LineAdded | base/checks.c:4546-4602 | what one more line adds to short output, long output and performance data |
| OutputParser.HandleLine | base/checks.c:4541-4602 | one line keeps the three texts equal to those of the lines so far |
| OutputParser.TakeLine | base/checks.c:4606-4612 | the line leaves the buffer, the rest moves to the front, with whatever unescaping has left behind it |
| OutputParser.GatherLines | base/checks.c:4521-4613 | the shifting loop yields the short output, long output and performance data of the split text |
| OutputParser.ParseCheckOutput | base/checks.c:4475-4659 | the whole parser, with and without escaped newlines. Of a first line of bars, text without a bar and perhaps a bar and performance data, the text without blanks at its ends is the short output; with no further line there is no long output, and performance data iff the bar has something behind it, which it is without blanks at its ends |
| OutputParser.ShortOutputIs | base/checks.c:4546-4556 | the short output for any further lines; a first line of nothing but bars gives none |
| OutputParser.OutputWithoutBars | base/checks.c:4596-4602 | further lines without a bar are the long output and nothing else |
| OutputParser.OutputWithBar | base/checks.c:4559-4594 | with a bar in a further line: what is in front of the bar goes to the long output only, what is behind it and all lines after it to the performance data only, with a blank behind each |
| OutputParser.LongOutputReadBack | base/checks.c:4623-4641 | the saved long output can be read back |
| OutputParser.TextsKeepBackslashes | base/checks.c:4546-4602 | no backslash of a line gets lost between short output, long output and performance data |
| OutputParser.LinesBackslashes | base/checks.c:4524-4530 | splitting at newlines drops no backslash, splitting at backslash-n drops some |
| OutputParser.EscapedOutputParsedAlike | base/checks.c:4506-4641 | escaped and plain output are parsed alike iff there is no backslash-n |

## Left out

- Forking, pipes, temporary files, signals, running out of memory, embedded Perl, macros, logging, the event broker, status updates and obsessive processors.
- Reading the configuration, the command dispatcher and the one-flag commands: only branch-local facts.
- Null links: a child, parent, service or event-data pointer that is null is skipped by the program and not modelled, except where a method takes one.
- The circularity checks of dependencies and the time-period functions: acyclicity is required, periods are arbitrary functions.
- What `run_sync_host_check_3x` reports for a parent: an input, as the program writes it only on some paths.
- Passive host results with a code that is no host state.
- Checks of other hosts and services that a result sets off, event handlers, and which interval the next check time is computed from after a result.
- Notifications that are not requests of a host's or service's own handler: stalking notifications (base/checks.c:1799-1836, base/checks.c:4078-4104), and the host notification that a service result asks for again while the host is not up, also in a soft outage (base/checks.c:1572).
- The turns of the high-priority list (its first event is handed to a handler the same way), sleeping, and the broker's and event handlers' own queues.
- The time a check is put off by when it may not run now: the random nudge and the check or retry interval are parameters, and so is the delay after a check that could not be launched.
- Recording of the first and last check time, and the spreading of host checks (base/events.c:362-366): a single running multiplier.
- The text and the author of acknowledgement comments, their own expiry, and what retention restores.
- Flap detection switched off for one object (base/flapping.c:626, base/flapping.c:743): it clears the flag before the cleanup looks at it, so comments and flag can part there.
- A change of the maximum number of attempts during a run.
- Timestamps beyond 2^64 and the 32-bit width of counters.
- HostConfig.BystanderReported: one graph is enough to show it; ReportedExactly is the general rule.
