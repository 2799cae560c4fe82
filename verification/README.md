# A verified model of aker

aker blocks MAC addresses by schedule. A schedule has absolute events (Unix times) and weekly
events (seconds since Sunday 00:00:00); each event names exactly the MACs that are blocked from
then on. One thread enforces the schedule through a firewall command and announces, per MAC, when
a blocking period is about to start, starts, is about to end and ends. This project models that
program in Dafny and proves what its parts promise, and where they do not keep the promise, exactly
when they do.

Code that works in place is modelled in place: the event lists are linked nodes whose `next`
pointers are rewritten, the periods are objects whose sent flags are set, the MD5 context is an
object over a 64-byte array, and the scheduler is an object whose methods are the steps taken under
its mutex. Every such method is proved equal to a function of its inputs or of the old state; the
properties are then lemmas about those functions.

| files | part of the program |
|---|---|
| `Time`, `Arithmetic` | weekly and Unix time under a fixed UTC offset (`src/time.c`) |
| `Lists`, `Schedule`, `ScheduleProperties` | event lists, who is blocked, next wake-up (`src/schedule.c`) |
| `Oversleeping` | sleeping until the next wake-up when there are absolute events |
| `Timeline`, `TimelineProperties` | expansion, merging and pruning of events (`src/aker_notification.c`) |
| `Periods`, `PeriodProperties`, `PeriodTies`, `PeriodExactness` | the state machine that makes periods of events |
| `Agreement` | the timeline against the firewall's view of the same schedule |
| `Dispatch` | what one dispatch and the next-wake search compute |
| `DispatchProperties`, `DispatchLedger`, `DispatchRoom`, `DispatchRuns`, `RuleMatrix` | batches, flags, whole runs, the rule matrix |
| `PruningRuns` | pruning past events and the notifications that follow |
| `Notifier` | the period objects and the dispatcher's loops |
| `Scheduler` | the thread's loop and schedule updates (`src/scheduler.c`) |
| `SchedulerRuns`, `EnforcementRuns` | what whole runs of the scheduler send, across replaced timelines, and tell the firewall |
| `SleepRuns` | the same for a thread that sleeps until the times that it computes |
| `Md5Transform`, `Md5` | MD5 (`src/md5.c`) against RFC 1321 |
| `Md5Alphabet` | one digest of appendix A.5 of RFC 1321, step by step |

The strongest results:

- dispatching only at the computed wake-up times, or at any times that are no later, sends exactly
  what dispatching every second sends (`DispatchRuns.WakingEqualsPolling`, `PromptRunsEqualPolling`),
  which is what the scheduler's runs record as sent (`SchedulerRuns.ScheduleSendsWhatPollingSends`)
  when the thread sleeps until the times that it computes itself
  (`SleepRuns.SleepingSendsWhatPollingSends`);
- each period gets exactly the notifications its control and length call for, by kind and time,
  whatever is open when the run starts (`RuleMatrix.RunFollowsKinds`), and so does each blocked run
  of the schedule (`SchedulerRuns.BuiltTimelineFollowsMatrix`, `ReportsFollowSchedule`);
- for every event list, ties included, a run of the union of the two schedules becomes a period
  exactly if no time in it is lossy (`PeriodExactness.RunIsPeriodUnlessLossy`,
  `CompleteUnlessLossy`); without ties nothing is lost (`PeriodsAreExact`), and with any ties the
  periods are sound and attributed by rules about the events alone
  (`PeriodProperties.PeriodsAreSound`, `PeriodTies.PeriodsAreAttributed`);
- the notification side and the enforcement side agree, with the exact condition
  (`Agreement.TimelineIsEnforcementWithEnd`, `DifferBetweenAbsolutes`);
- sleeping until the next event misses no change of the block list: always between two absolute
  events or without weekly ones, and otherwise exactly under the stated conditions, for schedules
  with weekly events only (`ScheduleProperties.WakesAreOnTime`), before the first absolute event
  (`Oversleeping.SteadyBeforeAbsolutes`) and after the last (`SteadyAfterAbsolutes`); where it
  misses none, the firewall is told what polling would tell it, at the same seconds
  (`EnforcementRuns.FirewallLogIsPolled`, `SleepRuns.SleepingTellsWhatPollingTells`);
- the unrolled, streaming MD5 equals RFC 1321 for every chunking (`Md5.DigestOfChunks`), and that
  specification gives the RFC's digest of the alphabet (`Md5Alphabet.DigestOfAlphabet`);
- every interleaving of updates and wake-ups is safe (`Scheduler.RunsAreSafe`), a removed schedule
  blocks and sends nothing more (`Scheduler.NothingAfterRemoval`), and the code's loop is that state
  machine (`Scheduler.Scheduler.WakeUp`, `SleepRuns.Loop`).

Where the code and its comments differ, the model follows the code:

- `insert_event` calls a repeated time a mistake but looks only at the head of the list
  (`src/schedule.c:135`): `ScheduleProperties.DuplicateCheck`, `DuplicateAccepted`.
- `get_next_unixtime` never waits for a weekly event at Sunday 00:00:00 (`src/schedule.c:344`):
  `WakesAreOnTime` says exactly when that is harmless.
- `get_next_unixtime` returns a future absolute event even if a weekly one comes first
  (`src/schedule.c:328-333`): `Oversleeping.WeeklyEventMissed` is a case, and
  `SteadyBeforeAbsolutes` says exactly when it is harmless.
- Outside the absolute events the last (or first) of them is compared by its time of the week
  only (`src/schedule.c:244`, `src/schedule.c:265`): `TailIsMostRecent` says exactly when that
  picks the more recent event, and `FutureAbsoluteDecidesNow` is a case where it does not. The
  event so comes into force again every week, and the scheduler sleeps through that:
  `Oversleeping.FuturePauseOversleeps` and `PastPauseOversleeps` are cases, and
  `SteadyBeforeAbsolutes` and `SteadyAfterAbsolutes` say exactly when nothing is missed.
- A weekly event that ties an absolute one is skipped, and a weekly end closes a period that a pause
  without control of its own would go on with (`src/aker_notification.c:518-524`,
  `src/aker_notification.c:638-780`). So ties lose whole runs (`PeriodExactness.NightSkipped`) or
  parts of them (`PauseCutShort`); `Lossy` says at which times, in terms of the events.
- The carried-over event before this week's first one is not expanded
  (`src/aker_notification.c:1213`) and a blocked stretch without an expanded end gets no period:
  both are conditions in `Agreement.TimelineIsEnforcementWithEnd`, and `CarryOverMissed` is a case.
- Rebuilding a timeline after ten days clears every flag (`src/scheduler.c:322-345`), so what was
  sent at most five seconds before the next dispatch is sent again: `RuleMatrix.RebuildRepeats` says
  exactly what, and `SchedulerRuns.StartAnnouncedTwice` is a run of the scheduler, waking when it
  should, that sends one STARTED twice.
- Pruning past absolute events can make a running period start later than it did. That changes two
  kinds of notification that were due by the time the timeline was built, and no others: STARTED may
  be sent needlessly (`PruningRuns.PruningAnnouncesStart`) and ENDING_SOON may be missed
  (`PruningSilencesEnd`); `MergedReports` says exactly when.
- The branch that marks a late ENDED (`src/aker_notification.c:2005-2007`) cannot be reached, as
  periods that ended before now are passed over: `Notifier.CheckEnded`.

## Model

| member | source | states |
|---|---|---|
| Time.WeeklyIsRemainder | src/time.c:50-65 | the weekday, hour, minute and second sum is the remainder modulo one week, Sunday first |
| Time.WeeksAreAligned | src/time.c:50-65 | weekly time lies in [0, one week), week starts are whole weeks apart, and equal for all instants of a week |
| Time.WeeklyToUnixIsWeekStart | src/aker_notification.c:168-195 | the result is Sunday 00:00:00 of the base time's local week plus the weekly time |
| Time.RoundTrip | src/aker_notification.c:168-195 | converting any Unix time to weekly and back in the same week gives it again |
| Time.RoundTripWeekly | src/time.c:50-65 | converting a weekly time in [0, one week) to Unix time in any week and back gives it again |
| Lists.List.Link | src/schedule.c:138-142 | the pointer writes leave an acyclic list that is the old one with the node in place k |
| Schedule.InsertEvent | src/schedule.c:120-145 | the list becomes the old one with the event behind all earlier ones; unchanged and -1 exactly if its time is the head's |
| ScheduleProperties.InsertKeepsOrder | src/schedule.c:120-145 | a sorted list stays sorted and is a permutation of the old one plus the event, or unchanged if refused |
| ScheduleProperties.DuplicateCheck | src/schedule.c:135-137 | a list without repeated times stays so if and only if the new time is not that of an event behind the head |
| ScheduleProperties.DuplicateAccepted | src/schedule.c:135-137 | a concrete repeated time that is not refused |
| Schedule.FinalizeSchedule | src/schedule.c:149-177 | the weekly list becomes the one with last week's last event in front, if its first time is positive; -1 exactly if that event would have the head's time, and 0 otherwise |
| ScheduleProperties.FinalizedAddsLastWeek | src/schedule.c:149-177 | for weekly times in [0, one week) the list starts at or before 0, stays strictly sorted, and a second finalize changes nothing |
| ScheduleProperties.WeeklyRepeats | src/schedule.c:250-260 | after finalizing, the weekly event found at any time is the latest one at or before it of the endless weekly repetition |
| Schedule.GetBlockedAtTime | src/schedule.c:211-280 | the two pointer walks find the event chosen by Choose and return its MACs as a string |
| ScheduleProperties.LatestAbsoluteDecides | src/schedule.c:270-274 | without weekly events the latest absolute event at or before the time decides, after the last one too, and nothing if and only if there is none yet |
| Schedule.Walk | src/schedule.c:223-232 | the trailing pointer stops at the last event that is due, or at the head if none is |
| Schedule.ConvertEventToString | src/schedule.c:379-422 | the MACs joined by single spaces, or nothing for an empty list or an unknown MAC |
| ScheduleProperties.TextExists | src/schedule.c:379-422 | there is a string if and only if the list is not empty and every index in it is known |
| ScheduleProperties.TextIsMacs | src/schedule.c:379-422 | the string's length, and that MAC i stands at characters 18i to 18i+16, followed by a space unless it is the last |
| ScheduleProperties.JoinedIsInjective | src/schedule.c:379-422 | two such strings are equal if and only if they name the same MACs in the same order, whatever the MAC tables |
| ScheduleProperties.TailIsMostRecent | src/schedule.c:262-269 | outside the absolute events the choice is the most recent past event if and only if the stated condition on weeks and times of the week holds |
| ScheduleProperties.FutureAbsoluteDecidesNow | src/schedule.c:244-269 | a concrete schedule in which an absolute event of next week already decides |
| Schedule.GetNextUnixtime | src/schedule.c:318-362 | the loops return the first future absolute event, or the least later weekly one, or next week's first positive one, or INT_MAX |
| ScheduleProperties.NextAbsoluteWake | src/schedule.c:327-333 | with an absolute event ahead the wake-up is the next one, whatever the weekly events |
| ScheduleProperties.NothingToWakeFor | src/schedule.c:352-356 | without one and without a positive weekly time it is INT_MAX |
| ScheduleProperties.LeastAfterIsLeast | src/schedule.c:338-342 | the weekly loop yields the least instant of this week's events after now |
| ScheduleProperties.FirstPositiveIsFirst | src/schedule.c:344-349 | the fallback is the first event with a positive time |
| ScheduleProperties.NextWeeklyWake | src/schedule.c:335-356 | on a finalized weekly schedule the wake-up is the successor of the rule in force, across the end of the week |
| ScheduleProperties.WakesAreOnTime | src/schedule.c:318-362 | a weekly schedule has the same block list at every second until the wake-up, at all times, if and only if no event is at time 0 or it blocks what the week's last one does |
| ScheduleProperties.OversleepsMidnight | src/schedule.c:344-349 | otherwise there is a time from which the scheduler sleeps through a change |
| Oversleeping.SteadyBetweenAbsolutes | src/schedule.c:229-242 | between two absolute events the earlier decides at every second and the later is the wake-up |
| Oversleeping.SteadyBeforeAbsolutes | src/schedule.c:327-333 | at any time before the first absolute event the wake-up is that event, and sleeping until it misses no change if and only if until then every weekly event, the pause at its time of the week and last week's rule at midnight block what is blocked already |
| Oversleeping.SteadyAfterAbsolutes | src/schedule.c:335-356 | after the last absolute event the wake-up is the weekly one, and sleeping until it misses no change under the same condition, if and only if |
| Oversleeping.SteadyWithoutWeekly | src/schedule.c:318-362 | without weekly events sleeping never misses a change |
| Oversleeping.OutsideIsSteady | src/schedule.c:262-269 | outside the absolute events the block list is the same at every second of an interval if and only if none of the three things disturbs it |
| Oversleeping.FuturePauseOversleeps | src/schedule.c:327-333 | a concrete schedule that sleeps through a pause of next week coming into force this week |
| Oversleeping.WeeklyEventMissed | src/schedule.c:327-333 | a concrete schedule that sleeps through a weekly event before tonight's pause |
| Oversleeping.PastPauseOversleeps | src/schedule.c:335-356 | a concrete schedule that sleeps through the return of last week's pause |
| Timeline.InsertEventSorted | src/aker_notification.c:267-301 | the list becomes the old one with the event in its place; head and middle cases relink the same nodes |
| Timeline.InsertKeepsOrdered | src/aker_notification.c:267-301 | insertion keeps the order by time with absolute events first at ties, and adds just the event |
| Timeline.InsertAllKeepsOrdered | src/aker_notification.c:267-301 | so does inserting any sequence of events: a sorted permutation |
| Timeline.IsMacIndefinitelyBlocked | src/aker_notification.c:306-342 | true if and only if there are weekly events and every one lists the MAC |
| Timeline.ExpandWeekly | src/aker_notification.c:1181-1241 | the nested loops insert the events of Expansion |
| TimelineProperties.ExpansionIsWeekly | src/aker_notification.c:1181-1241 | an event is expanded if and only if it is a weekly entry in a week ahead that passes that week's inclusion test |
| Timeline.FindCurrentState | src/aker_notification.c:1258-1267 | the loop finds the greatest absolute time at or before now |
| Timeline.AddAbsolute | src/aker_notification.c:1269-1295 | inserts the absolute events within the tolerance or in force, up to the limit |
| TimelineProperties.MergedMembers | src/aker_notification.c:1179-1296 | the merged list is sorted and holds exactly the expanded and the kept events |
| TimelineProperties.MergedFromSchedules | src/aker_notification.c:1179-1296 | an event is in the merged list if and only if it is a weekly entry of this week or of a later week after now, or an absolute event that is at most 60 s old or the latest until now, in each case up to the limit |
| TimelineProperties.KeptMatters | src/aker_notification.c:1247-1295 | an absolute event is kept if and only if it is within 60 s of now or later, or is the latest at or before now |
| TimelineProperties.PruningKeepsMembership | src/aker_notification.c:1247-1295 | from now on the pruned list gives the same latest absolute and latest weekly list as the full one, ties or not |
| TimelineProperties.PruningIsInvisible | src/aker_notification.c:1247-1295 | without ties the instants covered by periods are the same from now on as without pruning |
| PruningRuns.MergedReports | src/aker_notification.c:1247-1295 | what pruning changes of a run's reports, exactly and at every second: the full list sends a STARTED if and only if the pruned one does and it is due after now or no schedule listed the MAC just before it; the pruned list sends an ENDING_SOON if and only if the full one does and it is due after now or the pruned run lasts 900 s; they agree on every other kind |
| PruningRuns.PruningAnnouncesStart | src/aker_notification.c:1247-1295 | a concrete list whose pruned form sends a STARTED, due two seconds before now, that the full form does not |
| PruningRuns.PruningSilencesEnd | src/aker_notification.c:1247-1295 | the same list, whose full form sends an ENDING_SOON that the pruned form does not |
| Timeline.PeriodsForAllMacs | src/aker_notification.c:1308-1330 | every MAC gets its own periods from the shared list, none if indefinitely blocked |
| Timeline.BuildTimelineFromSchedule | src/aker_notification.c:1138-1341 | the whole build: none for no weeks, otherwise for each MAC the periods of the merged list |
| Periods.LooksAheadForList | src/aker_notification.c:559-576 | true if and only if a tied weekly event lists the MAC |
| Periods.LooksAheadForOmission | src/aker_notification.c:697-720 | true if and only if a tied weekly event omits the MAC |
| Periods.PeeksAtWeekly | src/aker_notification.c:646-665 | whether the first tied weekly event holds the MAC, or else the running state |
| Periods.Process | src/aker_notification.c:493-783 | one pass of the loop is Step |
| Periods.BuildPeriodsForMac | src/aker_notification.c:454-786 | the loop returns the periods of the state after all events |
| PeriodProperties.StepEffect | src/aker_notification.c:546-780 | a step leaves the open period alone, opens one at the event or closes it there, and records it only if it ends after now |
| PeriodProperties.RepeatKeeps | src/aker_notification.c:517-524 | the second event at a time changes nothing but what the weekly schedule says |
| PeriodProperties.BuildIsWellFormed | src/aker_notification.c:676-780 | every period has start < end and end > now, and consecutive ones are apart and in order, with any ties between the schedules |
| PeriodProperties.PeriodsAreSound | src/aker_notification.c:493-783 | with any ties no period covers an instant that neither schedule blocks |
| PeriodProperties.BystandersUntouched | src/aker_notification.c:638-674 | an absolute event at a fresh time that omits a MAC not in the absolute list leaves its periods and their attribution as they were |
| PeriodTies.LookAheadSeesAll | src/aker_notification.c:558-576 | looking ahead from the first event at a time finds a tied weekly event wherever it is in the list |
| PeriodTies.ControlLaw | src/aker_notification.c:598-637 | who controls the open period after a timestamp: hand-off at a tie, take-over by a new pause, carried forward otherwise |
| PeriodTies.OnlyFirstCounts | src/aker_notification.c:479-484 | the other events at that time leave the period and its control alone |
| PeriodTies.SoundAfterTimestamp | src/aker_notification.c:485-492 | after every timestamp absolute control implies blocked and in the latest absolute list, and blocked implies in one of the two latest lists |
| PeriodTies.StateControlIsHeld | src/aker_notification.c:558-637 | absolute control of the open period in terms of the events: some absolute event in it opened it or newly listed the MAC, and every later one lists the MAC, none of them tied by a weekly event that does |
| PeriodTies.PeriodsAreAttributed | src/aker_notification.c:553-741 | with any ties a start is absolute if and only if an absolute event lists the MAC there and no weekly one does; an end if and only if an absolute event omits it there and the control was held up to it or no weekly event omits it there |
| PeriodExactness.InStepUnlessLossy | src/aker_notification.c:493-783 | with any ties, after the first event at a time the MAC is blocked if and only if a schedule lists it and the time is not lossy, if that was so before and the open period began with its run |
| PeriodExactness.RunIsPeriodUnlessLossy | src/aker_notification.c:454-786 | with any ties, a run of the union that closes after now is one period if and only if no time in it is lossy, and otherwise some instant of it is in no period |
| PeriodExactness.CompleteUnlessLossy | src/aker_notification.c:454-786 | with any ties, every blocked stretch that ends after now is covered if and only if none begins at a lossy time |
| PeriodExactness.LosslessIsExact | src/aker_notification.c:454-786 | without lossy times the periods are exactly the whole runs of the union that close after now |
| PeriodExactness.TieFreeIsLossless | src/aker_notification.c:517-524 | without ties no time is lossy |
| PeriodExactness.PeriodsAreExact | src/aker_notification.c:454-786 | so without ties the periods are exactly the maximal blocked runs that close after now, each end absolute if and only if an absolute event is there |
| PeriodExactness.NightSkipped | src/aker_notification.c:518-524 | a concrete list in which an absolute event that omits the MAC hides the weekly block that begins with it: no period at all |
| PeriodExactness.PauseCutShort | src/aker_notification.c:598-628 | a concrete list in which a pause that begins with a weekly block ends with it in the periods, though the absolute list goes on |
| Agreement.ExpandedIsOccurrence | src/aker_notification.c:1181-1241 | every expanded event happens at its weekly entry's time of the week and blocks what the entry blocks |
| Agreement.MergedAgrees | src/aker_notification.c:1179-1296 | with distinct times in each part of the schedule no two events of one kind and time differ |
| Agreement.BuiltPeriodsAreWellFormed | src/aker_notification.c:1308-1330 | so the periods built from such a schedule are well formed |
| Agreement.SkippingIndefiniteIsHarmless | src/aker_notification.c:1316-1322 | a MAC that the weekly schedule always blocks would get no period anyway |
| Agreement.SkipsAlwaysListed | src/aker_notification.c:306-342 | the MACs skipped are exactly those that every event of a nonempty weekly schedule lists |
| Agreement.WhoGetsNoPeriod | src/aker_notification.c:1308-1330 | where no tie loses a run a MAC gets no period if and only if every weekly event lists it or no blocked stretch of it closes after now |
| Agreement.TimelineFollowsRule | src/aker_notification.c:1181-1241 | the timeline's weekly list at a time has the MAC if and only if the rule in force does |
| Agreement.TimelineAgreesWithEnforcement | src/schedule.c:211-280 | from this week's first event until some expanded event that omits the MAC, the MAC is in a period if and only if the firewall's event lists it |
| Agreement.TimelineIsEnforcementWithEnd | src/schedule.c:211-280 | at every second from now on the MAC is in a period if and only if the firewall's event lists it, this week's first event is past, and an expanded event to come omits it |
| Agreement.CarryOverMissed | src/aker_notification.c:1199-1217 | a concrete schedule and time at which the firewall blocks a MAC by last week's last event and the timeline has no period |
| Agreement.WeeklyIsRule | src/aker_notification.c:1181-1241 | also beside absolute events the timeline's weekly list has the MAC if and only if the rule in force does |
| Agreement.DifferBetweenAbsolutes | src/aker_notification.c:1247-1330 | between two absolute events, if nothing is lost, both sides say the same of a MAC at any second if and only if it is listed and released later, or is omitted and the weekly list does not hold it or it is never released |
| Agreement.WeeklyAtEnds | src/aker_notification.c:1181-1241 | the weekly list holds nothing before this week's first event, and otherwise what its latest expanded event says, also after the last one |
| Notifier.IsMacBlockedInTimeline | src/aker_notification.c:1459-1485 | the walk with early exit computes BlockedIn |
| DispatchProperties.LookupIsExact | src/aker_notification.c:1459-1485 | on a well-formed list the early exit is exact: true if and only if some period contains the time |
| Notifier.AddToBatch | src/aker_notification.c:1875-1893 | a batch that reports another time is sent first, then the MAC is added if fewer than 256 are in it |
| Notifier.CheckStartingSoon | src/aker_notification.c:1855-1900 | the branches set the flag, send or wait as Judge says |
| Notifier.CheckStarted | src/aker_notification.c:1902-1952 | the branches set the flag, send or wait as Judge says |
| Notifier.CheckEndingSoon | src/aker_notification.c:1954-1997 | the branches set the flag, send or wait as Judge says |
| Notifier.CheckEnded | src/aker_notification.c:1999-2069 | the branches set the flag, send or wait as Judge says, never ENDED for an end that the user set nor NON_RECURRING_UNPAUSED for another; the late branch is dead |
| Notifier.CheckPeriod | src/aker_notification.c:1844-2069 | the four checks in order on one period object, which alone changes; a period that ended is passed over |
| Notifier.CheckAllTimelines | src/aker_notification.c:1829-2073 | the loops over all MACs and periods change the flags and fill the batches as CheckAll says |
| Notifier.Collection.constructor | src/aker_notification.c:347-401 | new periods have every flag clear and share no object |
| Notifier.Collection.SendPendingNotifications | src/aker_notification.c:1805-2135 | the flags become RowsAfter and the notifications sent are LogOf, in order |
| Notifier.Collection.GetNextNotificationTime | src/aker_notification.c:1712-1791 | the loops compute NextTime |
| Notifier.NextOfPeriod | src/aker_notification.c:1727-1777 | the four comparisons for one period |
| DispatchProperties.BatchesConserve | src/aker_notification.c:1816-2134 | per kind, the MACs and times in the sent events are exactly the sending branches taken, in order, across flushes; no event is empty or over 256 MACs |
| DispatchProperties.RemainingInOrder | src/aker_notification.c:2075-2134 | the batches that are left go out last, one event per kind at most, in the order STARTING_SOON, STARTED, ENDING_SOON, ENDED, NON_RECURRING_UNPAUSED |
| DispatchLedger.LedgerIsGenuine | src/aker_notification.c:1855-2069 | every sending branch is for a period of that MAC whose own start or end is the time reported, and sets its flag |
| DispatchLedger.FlagsOnlySet | src/aker_notification.c:1841-1842 | a dispatch only sets flags and never touches a period |
| DispatchLedger.NeverTwice | src/aker_notification.c:1805-2135 | over dispatches at any times each kind goes out at most once per MAC and period, and never both ENDED and NON_RECURRING_UNPAUSED |
| DispatchRoom.OneSendPerSlot | src/aker_notification.c:1855-2069 | one dispatch sends at most one notification of a kind per MAC |
| DispatchRoom.DispatchIsComplete | src/aker_notification.c:1805-2135 | so with at most 256 MACs every due flag is set and every sending branch is taken |
| DispatchRuns.NextIsLeast | src/aker_notification.c:1712-1791 | the next wake-up is no later than any pending notification |
| DispatchRuns.NextIsSought | src/aker_notification.c:1727-1777 | the next wake-up is exactly the least of 900 s before start and end of a period of at least 900 s, its start and its end, from now on, whose flag is clear, those of the start only if the start is not the user's; INT_MAX if there is none |
| DispatchRuns.WakesAdvance | src/aker_notification.c:1712-1791 | after a dispatch the next wake-up lies strictly ahead, or is INT_MAX |
| DispatchRuns.WakesAreAwaited | src/aker_notification.c:1712-1791 | the chain of wake-ups strictly increases up to INT_MAX and visits exactly the times of the notifications that can still be sent |
| DispatchRuns.QuietUntilWake | src/aker_notification.c:1712-1791 | between a dispatch and the wake-up it leads to nothing is due |
| DispatchRuns.WakingEqualsPolling | src/aker_notification.c:1712-2135 | dispatching at each wake-up sends the same notifications at the same seconds as dispatching every second |
| DispatchRuns.PromptRunsEqualPolling | src/scheduler.c:366-384 | so does any run whose dispatches come no later than the wake-ups, whatever else wakes the thread, twice in a second too |
| RuleMatrix.RunReportsWhatIsDue | src/aker_notification.c:1855-2069 | over a run that wakes as computed, a MAC is reported at a second if and only if one of its periods is due then |
| RuleMatrix.MatrixHolds | src/aker_notification.c:759-767 | any period is due exactly at the later of the run's start and the own times of the notifications that its control and its length of 900 s call for, at most five seconds late; STARTING_SOON only if the MAC is not blocked then |
| RuleMatrix.RunFollowsMatrix | src/aker_notification.c:759-767 | the rule matrix over a whole run, both directions, for every kind, MAC and second, whatever periods are open at its start |
| RuleMatrix.RunFollowsKinds | src/aker_notification.c:1855-2069 | the same by kind over a period's own fields: what is reported, at which second and with which time, with 900 s of advance and 5 s of grace; ENDED for an end that is not the user's and NON_RECURRING_UNPAUSED for one that is |
| RuleMatrix.TakesOverAgain | src/scheduler.c:322-345 | what was due by the time a new timeline was built is sent from it if and only if its first dispatch comes at most five seconds after the due time and the period calls for it then; and in that dispatch |
| RuleMatrix.FirstDispatch | src/scheduler.c:283-320 | what the first dispatch of a new timeline sends, both directions |
| RuleMatrix.RebuildRepeats | src/scheduler.c:322-345 | of what the old timeline reported until it was replaced, the new one reports exactly that again |
| Scheduler.RunsAreSafe | src/scheduler.c:160-395 | for every interleaving the last list given to the firewall is the recorded one, it is told only of changes, there is a timeline if and only if there is a schedule, and dispatch uses only timelines of the current one |
| Scheduler.StepsAreSafe | src/scheduler.c:196-390 | every step keeps that invariant |
| Scheduler.WakeEnforces | src/scheduler.c:210-266 | after a wake-up the firewall was last told what the current schedule blocks at that time, or nothing without one |
| Scheduler.MessagesTakeEffect | src/scheduler.c:97-135 | the whole state after a decoded, an empty and a bad message: the current schedule is the new one, none, or as before, and all else stays |
| Scheduler.NothingAfterRemoval | src/scheduler.c:104-110 | after an empty message nothing more is sent until a schedule arrives, and from the first wake-up on there is no timeline and the firewall was last told to block nothing |
| Scheduler.WeeklyScheduleStaysEnforced | src/scheduler.c:366-384 | what the firewall was told stays right at every second of a sleep, for every weekly schedule that is woken for on time |
| SchedulerRuns.BuiltTimelineHasRoom | src/scheduler.c:283-312 | the timeline built from a schedule with distinct times and at most 256 MACs meets what the theorems on runs ask for, so waking equals polling on it |
| SchedulerRuns.BuiltTimelineFollowsMatrix | src/scheduler.c:283-320 | the matrix by kind from a schedule on: what a run over the timeline built from it reports, if and only if, and which starts and ends are the user's in terms of the events |
| SchedulerRuns.ReportsFollowSchedule | src/scheduler.c:283-320 | without ties such a run reports what the matrix calls for on the maximal blocked runs of the schedule that end after now, if and only if, each end being the user's if and only if an absolute event is there |
| SchedulerRuns.ScheduleSendsWhatPollingSends | src/scheduler.c:196-390 | after any run and an update, through any number of timelines that replace each other after ten days, what the scheduler sends in prompt passes is what polling each timeline every second sends |
| SchedulerRuns.OneLife | src/scheduler.c:314-345 | for one timeline: what polling it sends up to the pass that replaces it, which leaves the new one in force |
| SchedulerRuns.StartAnnouncedTwice | src/scheduler.c:322-345 | a concrete schedule and prompt run in which one STARTED is sent twice for the same MAC and time |
| EnforcementRuns.PassesTell | src/scheduler.c:210-266 | what any passes over one schedule tell the firewall: the changes of what it blocks at those times |
| EnforcementRuns.PromptPassesTellLikePolling | src/scheduler.c:366-384 | passes no later than the next event, each finding the schedule steady, tell the firewall the same lists at the same seconds as a pass every second |
| EnforcementRuns.FirewallLogIsPolled | src/scheduler.c:196-390 | so the firewall log of such a run of the scheduler is that of one that never sleeps |
| SleepRuns.SleepingTellsWhatPollingTells | src/scheduler.c:359-384 | so is that of a thread whose passes come no later than the times that it computed itself, where each pass finds the schedule steady |
| SleepRuns.SleepingEnforcesSteadySchedules | src/scheduler.c:359-384 | with no such condition for weekly schedules that are woken for on time and for schedules of absolute events alone |
| SleepRuns.SleepingSendsWhatPollingSends | src/scheduler.c:359-384 | from the arrival of any schedule on, passes no later than the times the thread computed split into lives of timelines, and send exactly what polling each of them every second sends |
| SleepRuns.SleepingIsPossible | src/scheduler.c:359-384 | for every schedule that arrives there is such a run, up to any time that is at most INT_MAX |
| SleepRuns.Loop | src/scheduler.c:196-390 | undisturbed passes of the code's loop have the states of those runs, and each returns a time that the runs allow sleeping to |
| Scheduler.Scheduler.constructor | src/scheduler.c:160-194 | the thread starts with nothing blocked and the firewall told so |
| Scheduler.Scheduler.ProcessScheduleData | src/scheduler.c:97-135 | an empty message removes the schedule, a decoded one replaces it, a bad one keeps it and returns the decoder's error; nothing else changes |
| Scheduler.Scheduler.Enforce | src/scheduler.c:210-266 | the nested comparisons record the new list and call the firewall exactly on a change |
| Scheduler.Scheduler.Observe | src/scheduler.c:203-266 | detection of a new schedule, lookup at the current time and enforcement |
| Scheduler.Scheduler.Refresh | src/scheduler.c:283-312 | a new schedule replaces the timeline by one built now, none without a schedule |
| Scheduler.Scheduler.Notify | src/scheduler.c:314-345 | dispatch, then replacement of a timeline older than ten days |
| Scheduler.Scheduler.NextWake | src/scheduler.c:359-382 | a time no later than the next report, the next event (INT_MAX without a schedule) and the next notification of the timeline if there is one, and equal to one of them |
| Scheduler.Scheduler.WakeUp | src/scheduler.c:196-390 | a pass of the loop is the machine's Wake step on the whole state, and returns that time; for a steady schedule what was told stays right until then |
| Md5Transform.FIsRfc | src/md5.c:53 | the optimised F is the RFC's |
| Md5Transform.GIsRfc | src/md5.c:54 | the optimised G is the RFC's |
| Md5Transform.H2IsRfc | src/md5.c:56 | H2 is the RFC's H |
| Md5Transform.OneStep | src/md5.c:62-65 | one unrolled step, with the macro the source names there, is one table-driven step with the registers moved |
| Md5Transform.Row | src/md5.c:62-65 | four unrolled steps with renamed registers are four steps of RFC 1321 section 3.4 |
| Md5Transform.Round1 | src/md5.c:121-137 | the sixteen unrolled steps of round 1 are steps 0 to 15 of the RFC |
| Md5Transform.Round2 | src/md5.c:139-155 | the sixteen unrolled steps of round 2 are steps 16 to 31 of the RFC |
| Md5Transform.Round3 | src/md5.c:157-173 | the sixteen unrolled steps of round 3, alternating H and H2, are steps 32 to 47 of the RFC |
| Md5Transform.Round4 | src/md5.c:175-191 | the sixteen unrolled steps of round 4 are steps 48 to 63 of the RFC |
| Md5Transform.FoldComposes | src/md5.c:115-199 | transforming some blocks and then others is transforming all of them |
| Md5.Compress | src/md5.c:116-196 | one pass of the loop is the RFC's transform of one block |
| Md5.Context.Init | src/md5.c:209-218 | a context for the empty message |
| Md5.Context.CompressBlock | src/md5.c:115-199 | one pass of the loop adds one block to what is compressed |
| Md5.Context.Body | src/md5.c:102-207 | n blocks are compressed in order: the n-fold transform, and the rest is returned |
| Md5.Context.Update | src/md5.c:220-252 | the message grows by the data, through both partial-block paths |
| Md5.Context.Count | src/md5.c:225-228 | the split counter is the byte count modulo 2^61 |
| Md5.CounterIsBitLength | src/md5.c:279-281 | shifting the low word yields the low 64 bits of the bit length |
| Md5.LengthIsBitCount | src/md5.c:279-281 | the eight length bytes, low-order first, are the number of bits modulo 2^64 |
| Md5.Context.PadToLength | src/md5.c:264-277 | message, 0x80 and the fewest zeros that leave 8 bytes, on both padding paths |
| Md5.Context.FillBlock | src/md5.c:270-275 | the first padding path: zeros up to the end of the block, which is compressed |
| Md5.Context.Final | src/md5.c:260-291 | the result is the digest of RFC 1321 sections 3.1 to 3.5 of everything given to Update |
| Md5.OutputIsRegisters | src/md5.c:285-288 | bytes 0-3, 4-7, 8-11 and 12-15 of the result are registers a, b, c and d, each low-order byte first |
| Md5Alphabet.DigestOfAlphabet | src/md5.c:260-291 | the digest of the 26 letters is the one that appendix A.5 of RFC 1321 gives |
| Md5.StateDependsOnMessageOnly | src/md5.c:220-252 | contexts that have seen the same bytes in any pieces have equal registers, counters and buffered bytes |
| Md5.DigestOfChunks | src/aker_md5.c:51-59 | Init, one Update per chunk and Final give the digest of the concatenation, for every chunking |

## Left out

- Time zones and daylight saving: `localtime`, `mktime` and the TZ variable are foreign calls; the model uses one fixed UTC offset, and the re-reading of TZ by the timeline code is not part of it.
- Allocation failure, freeing, and a new schedule that reuses the address of the old one (`src/scheduler.c:204`): every object is new and every allocation succeeds.
- SchedulerRuns.BuiltTimelineHasRoom: at most 256 MACs and times below INT_MAX, like every theorem on whole runs; a full batch leaves a flag clear and is retried, and no wake-up is computed at or past INT_MAX.
- PruningRuns.MergedReports: for lists without ties, like PruningIsInvisible; with ties a pruned event can also change which times are lossy.
- Agreement.TimelineIsEnforcementWithEnd: weekly schedules only; DifferBetweenAbsolutes covers the time between two absolute events, and before the first or after the last enforcement compares times of the week (see TailIsMostRecent), so the two sides do not follow one rule.
- Agreement.DifferBetweenAbsolutes: for lists in which no time is lossy; where ties lose a run, RunIsPeriodUnlessLossy says which runs, not which instants of them, are missing.
- Scheduler.Scheduler.WakeUp: the thread may wake late or early; a pass is modelled at whatever time it runs, and the report time is a parameter.
- Scheduler.Scheduler.ProcessScheduleData: the decoder's result and error code are parameters.
- Notifier.BlockPeriod: the mac_states array has one entry per MAC but only the period's own MAC is ever read, so its four flags are the object's fields; the list of periods of a MAC, only appended to while it is built, is a sequence.
- Md5.Context.Update: sizes are unbounded and the words are loaded as on little-endian machines; the portable SET that caches words, and the reading of a file in pieces, are not separate members.
- The is_block_start field, blocked_mac_indexes of a period and the time zone strings, which no decision depends on.
- JSON payloads, ISO time stamps, telemetry, RBUS, metrics, report jitter and logging: a sent notification is its kind, time and MACs, and a firewall call is the list it is given.
- is_device_blocked_at and its helpers (`src/aker_notification.c:1350-1453`): the running program does not call them.
- msgpack decoding, WRP and CRUD messages, file storage, command line and signals: plumbing around a list of events.
- MAC address validation and hexadecimal printing of the digest.
