# Verification of the location HAL

The location HAL under `gps/` is a set of adapters that share one modem engine among many client
sessions. Every command, engine answer, timer expiry and framework report is handled as one message
on one queue, so each is modelled as one step. The engine's answers, which of its requests it
refuses, and what foreign code decides are parameters of the step. Calls to the engine, the
framework and the clients are ghost history.

Most components come in two files. One holds the specification as functions on values, with the
lemmas about whole runs of steps. The other holds the class that updates its fields in place; each
of its methods is proved to take the specification's step. The lemmas speak about every run.

| component | specification and properties | class |
|---|---|---|
| trip batching | `TripBatching`, `TripDistance`, `TripSchedule`, `TripDeadline`, `TripFailures` | `BatchingAdapter` |
| AGPS | `AgpsMachine`, `AgpsProperties`, `AgpsTransitions`, `AgpsManagers` | `Agps` |
| tracking | `Tracking`, `TrackingProperties`, `TrackingRequests` | `GnssTracking` |
| data item subscriptions | `SetMap`, `Subscriptions`, `Notifications` | `SetMap`, `OsObserver` |
| GPS lock | `GpsLock` | `GnssLock` |
| SV-id masks | `SvIdCodec` | methods in `SvIdCodec` |
| geofences | `Geofences` | `GeofenceAdapter` |
| coarse position injection | `Odcpi` | `GnssOdcpi` |
| adapter table | `AdapterTable` | `LocApi` |
| bounded history | `History` | `History` |
| debug sentences | `DebugNmea` | `DebugNmea` |
| session ids | `SessionIds` | `SessionIds` |

`KeyOrder` gives the order in which a `std::map` is walked, `Unsigned` the arithmetic of `uint32_t`.

## What the code does not keep

The proofs found these; each has a lemma with a concrete input and, where one is named, a lemma that
says exactly when the property does hold.

- A trip that joins and needs the engine restarted sets all counters back before the engine
  answers. If the engine refuses, the books stay fair exactly if, for every trip, its last reported
  distance and the running batch together are no more than it has travelled, and, where the distance
  query was answered, the batch had not moved (`RefusedJoinRestart`, `FairAllAlongIffHarmless`). Two
  inputs: `RefusedJoinRestartReportsEarly`, where a trip is reported complete after no distance, and
  `RefusalAfterFailedQueryOvercounts`.
- Even when the engine obeys, such a join costs the other trips what they travelled since the last
  report (`JoinForgetsUnreportedDistance`). The books stay exact if and only if every other trip has
  just been reported (`JoinRestartKeepsExactIff`). Otherwise a trip may be told too late
  (`SetbackCompletesLate`: 1000 m are reported after 1300 m), or the engine reaches its target and no
  trip is finished on the books, so that the client hears nothing (`JoinTargetCompletesIff`,
  `SilentIsReachable`, `SilentTripIsOverdue`).
- The restart after a stop ignores the error of its distance query and takes the distance that comes
  with it. The books stay fair exactly if no restart follows or no trip left gets more from it than
  it has travelled (`RestartIsFairIff`, on the counters `RestartIsHarmlessOnTheCounters`); otherwise a
  trip can be reported complete after no distance (`FailedQueryAtStopReportsEarly`).
- The remainders the adapter computes wrap once the engine has run past its target or a trip has been
  reported beyond its distance (`NoRemainderWrapsIff`, `WrappedRemainderTakesOver`).
- A join whose distance query fails is not tracked, though its client may be told that it has
  started; one whose restart is refused is tracked, though its client is told that it has not
  (`ConfirmedIsTrackedIff`, `ConfirmedAndForgotten`).
- A stop may leave the engine with a target beyond what the others have left: one that restarts the
  batch only for its interval asks for the whole old distance again (`StopForIntervalIsLate`,
  `StopMakesTripLate`), one for a new distance goes by the last reports. The trips are told in time
  exactly if each trip's unreported distance is at most its reported remainder less the stretch the
  engine is given (`RestartIsOnTimeIff`), and one of them ends at the target as well exactly under
  the plain conditions of `RestartIsSoundIff`. Joins and stops aside, with a prompt engine nothing goes wrong
  (`SoundAllAlongIffSafe`).
- `LocUnorderedSetMap::update` returns what the old and the new set have in common
  (`gps/utils/LocUnorderedSetMap.h:57-70,176-187`), although its comment and the one at
  `gps/core/SystemStatusOsObserver.cpp:153-169` promise what is removed. The model follows the
  code. `updateSubscription` keeps the two maps transposes exactly if the client had no
  subscription (`UpdateKeepsTransposeIffUnsubscribed`, `TransposesAllAlongIffFresh`,
  `RepeatedUpdateUnsubscribes`); with the
  documented result it always would (`DocumentedUpdateKeepsTranspose`).
- The check for NFW support is made by the caller, not when the message is handled. The modem's
  lock stays right all along exactly if no such message is handled after a lock configuration while
  location is on (`InStepAllAlongIffTimely`, `QueuedNfwLocksMo`).
- An SV id at offset 31 is shifted into the sign of a 32-bit int. Ids survive the masks exactly if
  each such id comes with its constellation's id 0 (`IdsRoundTripIffNoLoneSignBit`).
- An update that raises an interval may leave the engine faster than needed, and only that does
  (`UpdateLosesTheMinimumIffRaised`, `IntervalIsExactIffNobodyGivesUp`,
  `RaisedIntervalIsNotFollowed`). Where the engine has no
  distance tracking, a session that switches to distance is taken from the engine but kept
  (`UnsupportedSwitchServesIffOthersDo`, `UnsupportedSwitchLosesTheEngine`).
- A geofence comes back from an engine restart without its paused flag (`RestartKeepsKeys`).

## Model

| member | source | states |
|---|---|---|
| TripDistance.DistanceNeverOvercounted | gps/batching/BatchingAdapter.cpp:667-696 | over every run with a truthful engine, only harmless refusals and only harmless restarts no trip is credited with more than was travelled since it joined, no distance credited wraps, and every reported completion was due |
| TripDistance.FairAllAlongIffHarmless | gps/batching/BatchingAdapter.cpp:748-1025 | with an engine that may refuse any request, and answer a failed query with anything, the books are fair after every step if and only if every refused restart of a joining trip and every restart after a stop is harmless |
| TripDistance.RestartIsFairIff | gps/batching/BatchingAdapter.cpp:965-1025 | whatever distance a restart takes for the batch's, the books are fair afterwards if and only if no restart follows or no trip left gets more from it than it has travelled |
| TripDistance.RestartIsHarmlessOnTheCounters | gps/batching/BatchingAdapter.cpp:1013-1017 | where the books are exact that is so if and only if, for every trip left, the distance is no more than the batch's and sets the trip back no further than its start, or wraps the sum round |
| TripDistance.AnsweredRestartIsHarmless | gps/batching/BatchingAdapter.cpp:965-1025 | after an answered query it always is |
| TripDistance.NoRemainderWrapsIff | gps/batching/BatchingAdapter.cpp:946-985 | while the books are fair none of the remainders of the target, the batch and the trips wraps if and only if the batch is within its target and no last report beyond its trip's distance |
| TripDistance.ConfirmedIsTrackedIff | gps/batching/BatchingAdapter.cpp:796-857 | a client's answer and the adapter's bookkeeping agree if and only if the trip is the first, or its query was answered exactly when no restart was refused; a joining trip is tracked if and only if its query was answered |
| TripDistance.ConfirmedAndForgotten | gps/batching/BatchingAdapter.cpp:807-853 | a join whose query fails and that needs no restart is answered with success and leaves everything as it was |
| TripDistance.ReportTellsTheLeaving | gps/batching/BatchingAdapter.cpp:667-700 | a report tells, once each and in order, of exactly the trips that leave, with what they asked for and what they have travelled |
| TripDistance.OnlyReportsTell | gps/batching/BatchingAdapter.cpp:748-908 | no other message tells of a completion |
| TripDistance.JoinAsksForTheLesser | gps/batching/BatchingAdapter.cpp:805-853 | a join restarts the batch if and only if it wants a shorter interval or less than is left, and then asks for the lesser of both |
| TripDistance.NoTripCompletesEarly | gps/batching/BatchingAdapter.cpp:674-700 | from power-up, in every such run, every trip ever reported complete had gone the distance its client asked for |
| TripDistance.RestartConservesCredit | gps/batching/BatchingAdapter.cpp:1003-1025 | a restart by `restartTripBatching` given the true distance of the batch leaves every trip and its credited distance exactly as they were, whether the engine obeys or refuses |
| TripDistance.JoinForgetsUnreportedDistance | gps/batching/BatchingAdapter.cpp:834-846 | a join that restarts the batch puts every other trip back to its last reported distance |
| TripDistance.RefusedJoinRestart | gps/batching/BatchingAdapter.cpp:796-850 | after a refused join restart, the query answered or not, the books are fair if and only if for every trip last report plus running batch is no more than it has travelled and, after an answered query, the batch stood at 0 |
| TripDistance.RefusalAfterFailedQueryWhenExact | gps/batching/BatchingAdapter.cpp:807-850 | where the books are exact and the query failed that is so if and only if every trip was there when the batch started and has counted nothing since |
| TripDistance.RefusalAfterFailedQueryOvercounts | gps/batching/BatchingAdapter.cpp:807-850 | 60 m reported and 40 m more become 160 m on the books |
| TripDistance.JoinRestartKeepsExactIff | gps/batching/BatchingAdapter.cpp:834-846 | a join restart the engine carries out keeps exact books exact if and only if every other trip's last report is what it has travelled |
| TripDistance.RefusedIsReachable | gps/batching/BatchingAdapter.cpp:749-857 | three steps from power-up lead to a state after such a refusal |
| TripDistance.RefusedJoinRestartReportsEarly | gps/batching/BatchingAdapter.cpp:667-696 | in that state the next report calls a 50 m trip complete after 0 m |
| TripSchedule.MinRemainingIsMin | gps/batching/BatchingAdapter.cpp:946-963 | once no live trip is finished, the loop with 0 for "not set" finds the exact, positive least remaining distance |
| TripSchedule.MinTbfIsMin | gps/batching/BatchingAdapter.cpp:946-963 | with positive intervals the loop finds the exact least interval |
| TripSchedule.ReportKeepsExactlyTheUnfinished | gps/batching/BatchingAdapter.cpp:667-700 | a report keeps a trip if and only if its credit is below its distance, and leaves every survivor a positive remaining distance |
| TripSchedule.IntervalIsLeast | gps/batching/BatchingAdapter.cpp:748-1001 | over every run in which the engine obeys, the interval on the books and in the engine is the least of all live trips, and the engine runs if and only if there are trips |
| TripSchedule.FlagsTellWhatWasLost | gps/batching/BatchingAdapter.cpp:680-690 | over every run each dropped flag is set if and only if a trip with the distance, or the interval, that the engine ran with has ever gone, stopped or completed |
| TripSchedule.RestartForIntervalIff | gps/batching/BatchingAdapter.cpp:996-1001 | a restart for the interval follows if and only if no trip left has the running one |
| TripSchedule.LastTripStopsTheEngine | gps/batching/BatchingAdapter.cpp:859-905 | with the last trip the engine stops, if it obeys, and the books are cleared |
| TripSchedule.LastCompletionStopsTheEngine | gps/batching/BatchingAdapter.cpp:930-943 | likewise when the last trips complete |
| TripSchedule.RefusedRestartChangesNothing | gps/batching/BatchingAdapter.cpp:1003-1025 | a refused restart leaves trips, books and engine as they were |
| TripSchedule.RefusedFirstTripIsForgotten | gps/batching/BatchingAdapter.cpp:766-791 | a first trip that the engine refuses leaves nothing behind |
| TripDeadline.SoundAllAlongIffSafe | gps/batching/BatchingAdapter.cpp:748-1025 | with a prompt engine the books are exact and the engine's target is where the nearest trip really ends, after every step, if and only if every join that restarts finds nothing unreported and every stop is safe: a restart takes the true distance, one for distance finds a nearest trip with nothing unreported, one for the interval alone a nearest trip with the whole old target left, and without one the nearest trip ends at the target |
| TripDeadline.RestartIsSoundIff | gps/batching/BatchingAdapter.cpp:965-1025 | the same for the restart after a single stop, whatever distance came with its query |
| TripDeadline.StoppedTargetIsReplaced | gps/batching/BatchingAdapter.cpp:885-1025 | right after a report, stopping a trip with the engine's distance, whatever its interval, has the engine start over with exactly what the nearest of the others has left |
| TripDeadline.RestartForDistanceIff | gps/batching/BatchingAdapter.cpp:981-994 | while the trips are on time a restart for distance follows if and only if a trip with the engine's distance has gone or the batch stands at its target |
| TripDeadline.LeastReportedIsNearestIff | gps/batching/BatchingAdapter.cpp:946-954 | the least remainder that the loop finds is what the nearest trip really has left if and only if some nearest trip has nothing unreported |
| TripDeadline.SafeRunsStayWithinBounds | gps/batching/BatchingAdapter.cpp:946-985 | in a safe run no remainder that the adapter computes wraps |
| TripDeadline.TripsCompleteOnTime | gps/batching/BatchingAdapter.cpp:667-700 | in such a run every completion is reported with the distance travelled equal to the distance asked for, neither early nor late |
| TripDeadline.CompletionIffAtTarget | gps/batching/BatchingAdapter.cpp:667-696 | a report completes trips if and only if the batch has reached its target |
| TripDeadline.CompletedAtItsDistance | gps/batching/BatchingAdapter.cpp:674-679 | it completes exactly the trips that have gone their distance on the road |
| TripDeadline.CompletionRearmsForNearest | gps/batching/BatchingAdapter.cpp:946-1001 | after a completion the engine starts over with exactly what the nearest surviving trip really has left |
| TripDeadline.JoinStaysOnTime | gps/batching/BatchingAdapter.cpp:796-846 | a join, restarting or not, leaves the engine's target no later than any trip really ends, and exactly where one does |
| TripDeadline.JoinTargetCompletesIff | gps/batching/BatchingAdapter.cpp:812-846 | after a join that restarts, the adapter will find a trip to complete at the target if and only if the new trip ends there or a trip that ends there had nothing unreported |
| TripDeadline.RestartIsOnTimeIff | gps/batching/BatchingAdapter.cpp:965-1025 | after a stop the others are told in time on the road if and only if each one's unreported distance is at most its reported remainder less the next stretch, for restarts for distance, for the interval alone, and none; and one ends at the target if and only if for one that is an equality |
| TripDeadline.StopForIntervalIsLate | gps/batching/BatchingAdapter.cpp:885-1001 | after a stop that restarts for the interval alone, with a trip that ends at the target, the trips are on time on the road if and only if the batch stood at 0 |
| TripFailures.JoinIsNotSafe | gps/batching/BatchingAdapter.cpp:834-846 | 300 m into an unreported 1000 m trip all is well, and the join of a 500 m trip is not safe |
| TripFailures.SetbackIsRearmed | gps/batching/BatchingAdapter.cpp:667-700 | when the 500 m trip completes, the engine is given 500 m |
| TripFailures.RearmedTooFar | gps/batching/BatchingAdapter.cpp:946-1001 | although the other trip has 200 m left |
| TripFailures.SetbackCompletesLate | gps/batching/BatchingAdapter.cpp:667-1025 | so, from power-up with a prompt engine, the 1000 m trip is reported after 1300 m |
| TripFailures.SilentIsReachable | gps/batching/BatchingAdapter.cpp:748-857 | after a join for the interval alone the engine reports at its target and nobody is told |
| TripFailures.SilentTripIsOverdue | gps/batching/BatchingAdapter.cpp:748-857 | though the 1000 m trip has gone its distance, and the road goes on |
| TripFailures.StopIsMisled | gps/batching/BatchingAdapter.cpp:965-1025 | a stop whose query fails with 0 gives the trip left, 0 m along, a distance that has wrapped |
| TripFailures.FailedQueryAtStopReportsEarly | gps/batching/BatchingAdapter.cpp:662-1025 | so, from power-up, a 2000 m trip is reported complete after 0 m |
| TripFailures.WrappedRemainderTakesOver | gps/batching/BatchingAdapter.cpp:818-826 | once the engine has run 500 m past its target, a 5000 m trip that joins takes it over with its own distance, for the remainder has wrapped |
| TripFailures.SharedIsReachable | gps/batching/BatchingAdapter.cpp:749-857 | two trips share the engine 900 m into a batch |
| TripFailures.StopMakesTripLate | gps/batching/BatchingAdapter.cpp:885-1001 | stopping one of them makes the other, 100 m short, wait another 1000 m |
| Batching.BatchingAdapter.StartTripBatchingMultiplex | gps/batching/BatchingAdapter.cpp:748-857 | the method takes the specified step for any answers of the engine, and what it tells the client |
| Batching.BatchingAdapter.StopTripBatchingMultiplex | gps/batching/BatchingAdapter.cpp:859-908 | likewise for a stop |
| Batching.BatchingAdapter.LeastOfSessions | gps/batching/BatchingAdapter.cpp:946-963 | the loop in key order computes the least remaining distance and interval as specified |
| Batching.BatchingAdapter.RestartTripBatching | gps/batching/BatchingAdapter.cpp:923-1029 | likewise for the restart |
| Batching.BatchingAdapter.ReportCompletedTrips | gps/batching/BatchingAdapter.cpp:662-706 | the loop that erases while it walks removes exactly the finished trips, lists them in key order and sets the dropped flags |
| AgpsProperties.RunsAreConsistent | gps/gnss/Agps.cpp:73-283 | over every run without `dropAllSubscribers`: handles are unique; RELEASED if and only if nobody is listed; PENDING and ACQUIRED have an active subscriber; in ACQUIRED every active one has been granted; in PENDING nobody, in RELEASING no active one has |
| AgpsProperties.LeavingIsAnnouncedOnce | gps/gnss/Agps.cpp:310-380 | in every step a handle gets exactly one close or open-failed callback if it leaves the list and none if it stays |
| AgpsProperties.CommandsStayInStep | gps/gnss/Agps.cpp:289-308 | over every run, `dropAllSubscribers` included, the commands to the framework follow the automaton idle/held and agree with the state |
| AgpsProperties.RequestsAreSeparated | gps/gnss/Agps.cpp:73-308 | between two REQUESTs lies a RELEASE, a DENIED in PENDING or a forced RELEASED in ACQUIRED |
| AgpsProperties.ReleasesAreSeparated | gps/gnss/Agps.cpp:73-308 | between two RELEASEs lies a REQUEST |
| AgpsProperties.LastCommandMatchesState | gps/gnss/Agps.cpp:289-390 | the last command is REQUEST in PENDING and ACQUIRED and RELEASE in RELEASING |
| AgpsTransitions.GrantAcquires | gps/gnss/Agps.cpp:173-194 | a grant in PENDING leads to ACQUIRED with the same list, and exactly the active subscribers are told once that it is open |
| AgpsTransitions.GrantElsewhereIsIgnored | gps/gnss/Agps.cpp:173-194 | elsewhere a grant changes nothing |
| AgpsTransitions.ReleasedClosesForAll | gps/gnss/Agps.cpp:196-241 | a release in ACQUIRED empties the list and tells everybody once that it is closed |
| AgpsTransitions.DeniedFailsForAll | gps/gnss/Agps.cpp:243-287 | a denial in PENDING empties the list and tells everybody once that it failed to open |
| AgpsTransitions.ReleasingEnds | gps/gnss/Agps.cpp:196-287 | a release or denial in RELEASING closes for those that wait; with others listed the connection is requested again, otherwise the machine is RELEASED |
| AgpsTransitions.LateReportsAreIgnored | gps/gnss/Agps.cpp:196-287 | releases and denials in the other states change nothing |
| AgpsTransitions.SubscribersAreServed | gps/gnss/Agps.cpp:73-107 | the first subscriber has the connection requested, one that comes while it is open is told so at once, others wait, and nobody is listed twice |
| AgpsTransitions.LeavingAtOnce | gps/gnss/Agps.cpp:109-171 | who does not wait leaves and is told that it is closed; the connection is given back if and only if no active subscriber is left |
| AgpsTransitions.LeavingLater | gps/gnss/Agps.cpp:109-171 | who waits stays listed as inactive and is told nothing yet |
| AgpsTransitions.CallsAreInOrder | gps/gnss/Agps.cpp:310-343 | callbacks are made in the order of the list |
| AgpsTransitions.OthersAreInOrder | gps/gnss/Agps.cpp:310-343 | those that stay are kept in its order |
| AgpsTransitions.OneExchange | gps/gnss/Agps.cpp:73-308 | from power-up: subscribe, grant and leave give open and close, request and release |
| AgpsManagers.ReleasingIsUnreachable | gps/gnss/Agps.cpp:563-625 | through the manager alone RELEASING is never entered and no subscriber waits for its close |
| AgpsManagers.PlainReleaseIsTheStep | gps/gnss/Agps.cpp:599-625 | in every state the manager reaches, the entry a release finds is one that does not wait for its close |
| AgpsManagers.ReleaseClosesOnce | gps/gnss/Agps.cpp:599-625 | releasing a handle sends one close for it at the first machine that knows it, which forgets it; the other machine, and a manager that does not know the handle, stay as they are |
| AgpsManagers.RequestsAreRouted | gps/gnss/Agps.cpp:537-597 | SUPL, emergency SUPL and untyped requests have their handle listed at the AGNSS machine alone, all others at the internet machine alone; without the machine they are refused |
| AgpsManagers.ReportsAreRouted | gps/gnss/Agps.cpp:627-662 | the framework's reports go the same way |
| AgpsManagers.ModemRestartForgets | gps/gnss/Agps.cpp:664-675 | a modem restart makes both machines forget all handles without a callback |
| Agps.AgpsStateMachine.ProcessAgpsEvent | gps/gnss/Agps.cpp:41-71 | the dispatch to the event handlers takes the specified step |
| Agps.AgpsStateMachine.NotifyAllSubscribers | gps/gnss/Agps.cpp:310-343 | the loop that erases while it walks notifies the chosen subscribers in order and removes them, if asked to, and nobody else |
| Agps.AgpsStateMachine.DeleteSubscriber | gps/gnss/Agps.cpp:413-430 | the erasing loop leaves exactly the entries with other handles, in order |
| Agps.AgpsManager.RequestATL | gps/gnss/Agps.cpp:563-597 | a request subscribes at the machine of its type, or is refused at once if there is none |
| Agps.AgpsManager.ReleaseATL | gps/gnss/Agps.cpp:599-625 | a release goes to the first machine that knows the handle, and in the states the manager reaches is the manager's step |
| TrackingProperties.SmallestIsLeast | gps/gnss/GnssAdapter.cpp:2470-2475 | the loop finds a session, other than the one left out, with the least interval of all others |
| TrackingProperties.SessionsAreServed | gps/gnss/GnssAdapter.cpp:2455-2842 | over every run of start, update, stop and modem restart the engine runs if and only if there are time-based sessions, at an interval no longer than any of theirs, even if requests other than the last stop and a modem restart are refused |
| TrackingProperties.StartsCarryTheMinimum | gps/gnss/GnssAdapter.cpp:2455-2842 | whenever a successful command starts the engine it does so once, with exactly the least interval of the resulting sessions |
| TrackingProperties.IntervalIsExactIffNobodyGivesUp | gps/gnss/GnssAdapter.cpp:2455-2842 | in every run whose requests succeed, updates included, the engine's interval is exactly the least after every step if and only if no update gives up the sole least interval |
| TrackingProperties.WithoutUpdatesTheIntervalIsExact | gps/gnss/GnssAdapter.cpp:2455-2505 | in runs of starts, stops and modem restarts the engine's interval is exactly the least |
| TrackingProperties.UpdateLosesTheMinimumIffRaised | gps/gnss/GnssAdapter.cpp:2676-2738 | an update in place leaves the engine faster than needed if and only if the session alone had the least interval, raises it to the others' or more, and asks for no smaller power mode |
| TrackingProperties.RaisedIntervalIsNotFollowed | gps/gnss/GnssAdapter.cpp:2713-2734 | 1000 ms next to 5000 ms, raised to 9000 ms: the engine stays at 1000 ms |
| TrackingProperties.UnsupportedSwitchServesIffOthersDo | gps/gnss/GnssAdapter.cpp:2607-2621 | without distance tracking a session that switches to distance keeps being served if and only if others keep the engine at its interval or faster |
| TrackingProperties.UnsupportedSwitchLosesTheEngine | gps/gnss/GnssAdapter.cpp:2607-2621 | a lone session that does so is kept while the engine is idle |
| TrackingRequests.PowerIsLeast | gps/gnss/GnssAdapter.cpp:2478-2481 | when every session has a power mode the loop finds the least of the others |
| TrackingRequests.FoldSettlesOnTheFirst | gps/gnss/GnssAdapter.cpp:2470-2475 | among sessions with the same interval the loop settles on the first in key order |
| TrackingRequests.HighestSettlesOnTheFirst | gps/gnss/GnssAdapter.cpp:2159-2172 | among sessions with the same mode so does the loop of restartSessions |
| TrackingRequests.RestartAsksForHighestPower | gps/gnss/GnssAdapter.cpp:2153-2176 | a modem restart asks for the least interval, with power mode and tbm of one session: one with the least valid mode if the first session has a mode, the first otherwise |
| TrackingRequests.RestartAsksForLeastPower | gps/gnss/GnssAdapter.cpp:2153-2176 | when every session has a mode that is the least of all |
| TrackingRequests.JoinAsksIff | gps/gnss/GnssAdapter.cpp:2455-2505 | a joining session has the engine asked if and only if it is the first or wants a shorter interval or a smaller mode than all others, and what for |
| TrackingRequests.JoinAsksForLeastPowerIff | gps/gnss/GnssAdapter.cpp:2483-2493 | the mode asked for is the least of all if and only if the joining session's is smaller than all others', or the session found has the least |
| TrackingRequests.UpdateAsksIff | gps/gnss/GnssAdapter.cpp:2676-2738 | likewise for an update whose interval or mode changes |
| TrackingRequests.StopAsksIff | gps/gnss/GnssAdapter.cpp:2793-2842 | a stop has the engine asked again if and only if the session had a shorter interval or a smaller mode than all others, for the least interval and the least mode of those |
| TrackingRequests.StartIsStored | gps/gnss/GnssAdapter.cpp:2401-2447 | a start that is not refused is stored, clamped to 100 ms and with M2 for M4 beyond 480 s if it is time-based, where its distance belongs; nothing else changes |
| TrackingRequests.RefusedStartIsForgotten | gps/gnss/GnssAdapter.cpp:2420-2429 | a start the engine is asked for and refuses leaves nothing behind |
| TrackingRequests.UpdateIsStored | gps/gnss/GnssAdapter.cpp:2580-2670 | an update that is not refused is stored where its distance belongs; nothing else changes |
| TrackingRequests.RefusedUpdateIsUndone | gps/gnss/GnssAdapter.cpp:2640-2668 | an update the engine is asked for and refuses leaves everything as it was |
| TrackingRequests.RefusedSwitchLosesTheSession | gps/gnss/GnssAdapter.cpp:2607-2621 | a switch to distance whose restart is refused loses the session |
| TrackingRequests.StopIsCarriedOut | gps/gnss/GnssAdapter.cpp:2759-2787 | a stop removes its session and no other, a time-based one whatever the engine says |
| TrackingRequests.RestartKeepsSessions | gps/gnss/GnssAdapter.cpp:2145-2176 | a modem restart touches no session |
| GnssTracking.GnssAdapter.SmallestOfSessions | gps/gnss/GnssAdapter.cpp:2697-2712 | the loop in key order computes the smallest interval and power mode as specified |
| GnssTracking.GnssAdapter.StartTimeBasedTrackingMultiplex | gps/gnss/GnssAdapter.cpp:2455-2505 | the client is answered without waiting if and only if the engine is not asked, and what the engine is asked for |
| GnssTracking.GnssAdapter.UpdateTrackingMultiplex | gps/gnss/GnssAdapter.cpp:2676-2738 | likewise for an update |
| GnssTracking.GnssAdapter.StopTimeBasedTrackingMultiplex | gps/gnss/GnssAdapter.cpp:2793-2842 | likewise for a stop |
| GnssTracking.GnssAdapter.StartTrackingCommand | gps/gnss/GnssAdapter.cpp:2401-2447 | the command takes the specified step, the undo of a refused start included |
| GnssTracking.GnssAdapter.UpdateTrackingCommand | gps/gnss/GnssAdapter.cpp:2580-2670 | likewise for an update, switches between time and distance included |
| GnssTracking.GnssAdapter.StopTrackingCommand | gps/gnss/GnssAdapter.cpp:2759-2787 | likewise for a stop |
| GnssTracking.GnssAdapter.RestartSessions | gps/gnss/GnssAdapter.cpp:2145-2176 | likewise for a modem restart |
| SetMap.LocUnorderedSetMap.Add | gps/utils/LocUnorderedSetMap.h:143-171 | the loop adds the values to every named entry and returns exactly the new keys |
| SetMap.LocUnorderedSetMap.TrimOrRemove | gps/utils/LocUnorderedSetMap.h:80-140 | the loop takes the values from the named entries, drops those left empty, and returns exactly the dropped keys and the values taken |
| SetMap.LocUnorderedSetMap.Update | gps/utils/LocUnorderedSetMap.h:173-187 | the entry is replaced; the result is the common values, and they are taken from the argument |
| SetMap.RemoveAndReturnInterset | gps/utils/LocUnorderedSetMap.h:53-70 | the loop returns the intersection and leaves the difference |
| SetMap.TrimUndoesAdd | gps/utils/LocUnorderedSetMap.h:119-171 | trimming what was newly added restores the map, and drops exactly the keys the addition reported as new |
| Subscriptions.ClientMapIsWhatClientsWant | gps/core/SystemStatusOsObserver.cpp:103-260 | after every run the client map gives each client exactly what its own calls ask for |
| Subscriptions.UpdateKeepsTransposeIffUnsubscribed | gps/core/SystemStatusOsObserver.cpp:149-178 | an update keeps the maps transposes if and only if the client had no subscription |
| Subscriptions.DocumentedUpdateKeepsTranspose | gps/core/SystemStatusOsObserver.cpp:153-169 | with the removed items, as the comments have it, it always would |
| Subscriptions.RepeatedUpdateUnsubscribes | gps/core/SystemStatusOsObserver.cpp:149-198 | a client that updates to the item it has is cut off from it, and the framework unsubscribed |
| Subscriptions.UpdateListsTheDifference | gps/core/SystemStatusOsObserver.cpp:149-178 | an update leaves the client listed for exactly those items that it had or asks for, but not both, and other clients as they were |
| Subscriptions.RequestDataSubscribesNothing | gps/core/SystemStatusOsObserver.cpp:103-124 | a request for data lists the client like a subscription but changes no subscription at the framework |
| Subscriptions.TransposesAllAlongIffFresh | gps/core/SystemStatusOsObserver.cpp:103-281 | the two maps are transposes without empty entries after every prefix of a run if and only if every update in it comes from a client without subscriptions |
| Subscriptions.MapsStayTransposes | gps/core/SystemStatusOsObserver.cpp:103-281 | over every run whose updates come from clients without subscriptions the two maps are transposes without empty entries |
| Subscriptions.FrameworkMirrorsItems | gps/core/SystemStatusOsObserver.cpp:62-281 | over every run, updates included, the framework is subscribed to a subset of the listed items once an object is set, and to all of them if there was no requestData |
| Subscriptions.FrameworkIsSetIff | gps/core/SystemStatusOsObserver.cpp:62-80 | there is a framework object if and only if one has been set |
| Subscriptions.FrameworkServesTheClients | gps/core/SystemStatusOsObserver.cpp:62-281 | while the maps are transposes the framework is subscribed to nothing that no client wants, and without requestData to everything some client wants |
| Notifications.ChangedAreTheDifferent | gps/core/SystemStatusOsObserver.cpp:541-571 | every item whose cached value differs after a message counts as changed, and if no item comes twice, no other does |
| Notifications.CacheHoldsTheLatest | gps/core/SystemStatusOsObserver.cpp:541-571 | the cache ends up with the last accepted value of every item |
| Notifications.ChangedWereNamed | gps/core/SystemStatusOsObserver.cpp:541-571 | only items that can be copied and are handled change the cache |
| Notifications.ReplyAnswers | gps/core/SystemStatusOsObserver.cpp:513-537 | a client is handed exactly the cached items among those asked for, in one call, or not called if there are none |
| Notifications.CutOffClientHearsNothing | gps/core/SystemStatusOsObserver.cpp:308-341 | a client that has updated to the item it had hears nothing when that item changes |
| Notifications.ClientsHearOfWhatTheyWant | gps/core/SystemStatusOsObserver.cpp:308-341 | after every such run one message brings each client exactly the changed items it wants, in one call, and calls nobody for nothing |
| OsObserver.SystemStatusOsObserver.HandleSubscribeReq | gps/core/SystemStatusOsObserver.cpp:103-124 | the handler takes the specified step and hands the client exactly what is cached of its items, in one call or none |
| OsObserver.SystemStatusOsObserver.HandleUpdateSubscriptionReq | gps/core/SystemStatusOsObserver.cpp:149-198 | likewise, with the items that are new to the client |
| OsObserver.SystemStatusOsObserver.HandleUnsubscribeReq | gps/core/SystemStatusOsObserver.cpp:221-240 | the handler takes the specified step |
| OsObserver.SystemStatusOsObserver.HandleUnsubscribeAllReq | gps/core/SystemStatusOsObserver.cpp:260-281 | the handler takes the specified step |
| OsObserver.SystemStatusOsObserver.SetSubscriptionObj | gps/core/SystemStatusOsObserver.cpp:62-80 | a new framework object is subscribed to all listed items |
| OsObserver.SystemStatusOsObserver.Notify | gps/core/SystemStatusOsObserver.cpp:296-341 | the loops update the cache and hand every due client its due items, each client once |
| GpsLock.ModemStaysInStep | gps/gnss/GnssAdapter.cpp:748-752 | over every timely run the lock last sent is the one a restart would inject, and MO is locked if and only if location is off |
| GpsLock.InStepAllAlongIffTimely | gps/gnss/GnssAdapter.cpp:4911-4931 | the modem is in step after every prefix of a run if and only if every NFW message is handled while NFW is supported or location is off |
| GpsLock.QueuedNfwLocksMo | gps/gnss/GnssAdapter.cpp:4911-4931 | enable, lock configuration, late NFW message: MO is locked while location is on |
| GpsLock.LocationFollowsTheRequests | gps/gnss/GnssAdapter.cpp:2985-3044 | location is on under the id of a GNSS enable that came while it was off, until a disable with that id |
| GpsLock.OnUntilDisabled | gps/gnss/GnssAdapter.cpp:2985-3044 | from such an enable it stays on whatever else comes, and the disable with its id turns it off |
| GpsLock.MessagesSendOneLock | gps/gnss/GnssAdapter.cpp:2983-3056 | every message gives the modem one lock, except refused enables, disables with another id, and later configurations while location is on |
| GpsLock.ModemLockInClosedForm | gps/gnss/GnssAdapter.cpp:1097-1127 | from the events alone: MO is locked if and only if no enable is in force; NI follows the latest NFW or lock request, except that a configured mask does not apply while one is |
| GnssLock.GnssAdapter.EnableCommand | gps/gnss/GnssAdapter.cpp:2983-3005 | the method takes the specified step |
| GnssLock.GnssAdapter.DisableCommand | gps/gnss/GnssAdapter.cpp:3036-3056 | the method takes the specified step |
| GnssLock.GnssAdapter.ControlNfwLocationAccess | gps/gnss/GnssAdapter.cpp:4911-4924 | the method takes the specified step |
| GnssLock.GnssAdapter.UpdateConfig | gps/gnss/GnssAdapter.cpp:1097-1127 | the method takes the specified step, the engine update of lines 855-863 included |
| GnssLock.GnssAdapter.SetConfig | gps/gnss/GnssAdapter.cpp:748-752 | the method takes the specified step |
| SvIdCodec.ConvertToGnssSvIdConfig | gps/gnss/GnssAdapter.cpp:1441-1506 | the loop builds all four masks as specified and succeeds if and only if the list is empty or some bit is set |
| SvIdCodec.ConvertGnssSvIdMaskToList | gps/gnss/GnssAdapter.cpp:1538-1563 | the bit loop ends and lists the ids of the bits in order |
| SvIdCodec.ConvertFromGnssSvIdConfig | gps/gnss/GnssAdapter.cpp:1508-1536 | all four masks are decoded, and the flag is set if and only if some mask is not 0 |
| SvIdCodec.BitOfEncoded | gps/gnss/GnssAdapter.cpp:1457-1493 | a bit of a mask is set if and only if some id in the list asks for it: id 0 for all, offset 31 for all from 31 on |
| SvIdCodec.ValidIds | gps/location/LocationDataTypes.h:1166-1183 | the ids that are taken, constellation by constellation |
| SvIdCodec.FirstIds | gps/gnss/GnssAdapter.cpp:1457-1493 | each constellation's first id is the lowest bit of its own mask, and id 0 sets all 64 bits |
| SvIdCodec.DecodingOrder | gps/gnss/GnssAdapter.cpp:1508-1536 | BeiDou comes first, then Galileo, GLONASS and QZSS |
| SvIdCodec.IdsRoundTripIffNoLoneSignBit | gps/gnss/GnssAdapter.cpp:1441-1563 | for every list whose valid offsets are below 32, decoding the encoding gives back exactly the valid ids, id 0 absorbing its constellation, if and only if every id at offset 31 comes with id 0 |
| SvIdCodec.NothingDecodedTwice | gps/gnss/GnssAdapter.cpp:1508-1563 | no id is listed twice, whatever the masks |
| SvIdCodec.MasksRoundTripIffNoSignBit | gps/gnss/GnssAdapter.cpp:1441-1563 | for masks below 2 to the 32 or all ones, encoding the decoding gives them back if and only if no mask other than all ones has bit 31 |
| Geofences.SaveAgreesIffHwIdIsFree | gps/geofence/GeofenceAdapter.cpp:644-661 | a save keeps every key leading to its own fence if and only if no other key leads to the hwId |
| Geofences.SaveKeepsInverseIffPairIsFree | gps/geofence/GeofenceAdapter.cpp:644-661 | it keeps the maps inverse if and only if key and hwId are new or already belong together |
| Geofences.StopKeepsInverseIffAllRemoved | gps/geofence/GeofenceAdapter.cpp:50-78 | stopping a client's sessions keeps the maps inverse if and only if the engine removes all its fences |
| Geofences.RemoveUndoesAdd | gps/geofence/GeofenceAdapter.cpp:644-686 | removing a new fence gives back the maps as they were |
| Geofences.RemoveTakesOne | gps/geofence/GeofenceAdapter.cpp:663-686 | a removal takes one fence and its key, and keeps the maps inverse |
| Geofences.ItemsAreChangedInPlace | gps/geofence/GeofenceAdapter.cpp:688-724 | a pause lasts until a resume, which undoes it; a modification replaces the options alone, and the later one counts; no other fence changes |
| Geofences.UnknownFencesAreIgnored | gps/geofence/GeofenceAdapter.cpp:663-724 | events about unknown hwIds change nothing |
| Geofences.OrphansStay | gps/geofence/GeofenceAdapter.cpp:663-686 | a fence whose key is no longer known is not removed |
| Geofences.StopTakesTheClients | gps/geofence/GeofenceAdapter.cpp:50-78 | a stopped client's keys go, its fences go as far as the engine lets go of them, and nobody else's |
| Geofences.MapsAgree | gps/geofence/GeofenceAdapter.cpp:50-174 | over every run with new keys and hwIds each key leads to a fence that names it; if no removal has failed since the last engine restart the maps are inverse |
| Geofences.RestartRestores | gps/geofence/GeofenceAdapter.cpp:141-176 | after a restart exactly the fences the engine accepts are there with all parameters, and the maps are inverse even if they merely agreed |
| Geofences.RestartKeepsKeys | gps/geofence/GeofenceAdapter.cpp:141-176 | if all are accepted the keys are kept, and each fence but for its paused flag |
| Geofences.PositionsAreTheOwned | gps/geofence/GeofenceAdapter.cpp:786-803 | a client's places in a breach are, in order, exactly those with its fences |
| Geofences.KnownPlacesHaveOneOwner | gps/geofence/GeofenceAdapter.cpp:786-803 | every known place belongs to exactly one client |
| Geofences.OwnedStandInOrder | gps/geofence/GeofenceAdapter.cpp:786-803 | the ids told stand in the order of these places and are their fences' ids |
| Geofences.BreachIdsLeadBack | gps/geofence/GeofenceAdapter.cpp:786-803 | while the maps are inverse the ids told lead back to the engine's ids |
| Geofences.EachOwnerIsCalledOnce | gps/geofence/GeofenceAdapter.cpp:786-818 | each client with a callback and a breached fence is called once with its ids, nobody else is |
| GeofenceTables.GeofenceAdapter.StopClientSessions | gps/geofence/GeofenceAdapter.cpp:50-78 | the erasing loop takes the specified step |
| GeofenceTables.GeofenceAdapter.RestartGeofences | gps/geofence/GeofenceAdapter.cpp:141-176 | the loop takes the specified step |
| GeofenceTables.GeofenceAdapter.RemoveGeofenceItem | gps/geofence/GeofenceAdapter.cpp:663-686 | the method takes the specified step |
| GeofenceTables.GeofenceAdapter.GeofenceBreach | gps/geofence/GeofenceAdapter.cpp:786-818 | the loops call the clients in order with the arrays they fill |
| Odcpi.StateFromEvents | gps/gnss/GnssAdapter.cpp:3969-4012 | the request is active if and only if the modem's latest word is a start, the stored request is the latest start, and an active request has its timer running |
| Odcpi.StartIsPassedOnIff | gps/gnss/GnssAdapter.cpp:3979-4002 | a start is passed on if and only if no timer runs or it is an emergency after a normal one; it is active from then on and the timer runs |
| Odcpi.ExpiryRepeatsTheLatestRequest | gps/gnss/GnssAdapter.cpp:4112-4125 | an expiry repeats the latest start if and only if it was not stopped, and stops the timer otherwise |
| Odcpi.EmergencyIsNotThrottled | gps/gnss/GnssAdapter.cpp:3987-3995 | an emergency request after a normal one reaches the framework at once |
| Odcpi.CallsAreThrottled | gps/gnss/GnssAdapter.cpp:3969-4012 | between expiries the framework is called once for each change from a normal to an emergency request, and at most once more, if no timer runs |
| Odcpi.CallsPerExpiryAreThrottled | gps/gnss/GnssAdapter.cpp:4112-4125 | from an expiry to the next there is at most one call besides those, the expiry's own included |
| Odcpi.QuietAfterStop | gps/gnss/GnssAdapter.cpp:4003-4008 | after a stop without a later start nothing more is heard, and an expiry stops the timer |
| GnssOdcpi.GnssAdapter.RequestOdcpi | gps/gnss/GnssAdapter.cpp:3969-4012 | the method takes the specified step |
| GnssOdcpi.GnssAdapter.OdcpiTimerExpire | gps/gnss/GnssAdapter.cpp:4112-4125 | the method takes the specified step |
| GnssOdcpi.OdcpiTimer.Restart | gps/gnss/GnssAdapter.h:60-74 | a restarted timer is active |
| AdapterTable.TableListsTheRegistered | gps/core/LocApiBase.cpp:230-275 | after any adds and removes the table lists exactly the registered adapters, each once, and the engine was last told to close if and only if none is left |
| AdapterTable.ChangesAreAnnounced | gps/core/LocApiBase.cpp:230-275 | every change of the table, and nothing else, is announced in one message: a new adapter, a removal, or a close when none is left |
| AdapterTable.NewAdaptersComeLast | gps/core/LocApiBase.cpp:230-239 | a new adapter is added at the end, up to ten |
| AdapterTable.WithoutRemoves | gps/core/LocApiBase.cpp:247-267 | moving the last adapter into the hole removes exactly one adapter and repeats none |
| AdapterTable.MaskIsOfTheRegistered | gps/core/LocApiBase.cpp:167-174 | the bits asked for depend on who is registered alone |
| LocApi.LocApiBase.AddAdapter | gps/core/LocApiBase.cpp:230-239 | the array stays a prefix without holes and the step is the specified one |
| LocApi.LocApiBase.RemoveAdapter | gps/core/LocApiBase.cpp:241-275 | likewise for a removal |
| LocApi.LocApiBase.GetEvtMask | gps/core/LocApiBase.cpp:167-174 | a bit is set if and only if some adapter asks for it and it is not excluded |
| History.HistoryIsTheEndOfTheFullOne | gps/core/SystemStatus.cpp:1346-1370 | for any comparison and any collate the stored history is the last five entries of the unbounded one |
| History.FiveAreKept | gps/core/SystemStatus.h:76 | exactly five entries are kept, fewer only as long as there have been fewer |
| History.FullHistoryIsTheChanges | gps/core/SystemStatus.cpp:1346-1370 | for items stored as they come the unbounded history is the stream with repeats dropped, and its last entry carries the latest time |
| History.HistoryIsTheLastChanges | gps/core/SystemStatus.h:76-88 | so the stored values are the last five changes of the stream |
| History.Report.SetIteminReport | gps/core/SystemStatus.cpp:1346-1361 | the method takes the specified step and returns true if and only if the item does not repeat the last |
| History.Report.SetDefaultIteminReport | gps/core/SystemStatus.cpp:1363-1370 | the method takes the specified step |
| DebugNmea.FieldsRebuildTheSentence | gps/core/SystemStatus.cpp:72-83 | the fields with a comma after each, then the rest, give the sentence back |
| DebugNmea.FieldsHaveNoComma | gps/core/SystemStatus.cpp:72-83 | neither a field nor the rest holds a comma |
| DebugNmea.AFieldPerComma | gps/core/SystemStatus.cpp:72-83 | there are as many fields as commas |
| DebugNmea.FieldsOfJoined | gps/core/SystemStatus.cpp:72-83 | cutting what was joined gives the fields back |
| DebugNmea.StarredSentence | gps/core/SystemStatus.cpp:63-83 | a sentence has one field more than commas, and they rebuild it with its first star as a comma |
| DebugNmea.SystemStatusNmeaBase.Tokenize | gps/core/SystemStatus.cpp:72-83 | the loop ends and stores the specified fields |
| DebugNmea.ParsePqwp7 | gps/core/SystemStatus.cpp:669-688 | every field read is there; each satellite's record comes from its own three fields, and those an older engine does not send are zero |
| DebugNmea.ParsePqwm1 | gps/core/SystemStatus.cpp:208-254 | every field read is there, each member takes its own field, narrowed to its width, and a group that is not there in full gives zeros |
| SessionIds.IdInClosedForm | gps/core/LocAdapterBase.cpp:55-63 | the n-th id is 1 + n mod (2^32 - 2), so never 0 or 0xFFFFFFFF |
| SessionIds.IdsAreDistinctWithinAPeriod | gps/core/LocAdapterBase.cpp:55-63 | any 2^32 - 2 consecutive ids are different |
| SessionIds.LocAdapterBase.GenerateSessionId | gps/core/LocAdapterBase.cpp:57-63 | the n-th call returns the n-th id |

## Left out

- Logging, sockets and IPC, threads, timers as such, configuration files, number parsing and floating point: foreign calls, or parameters of the model.
- Client callbacks for responses, capability checks, and commands queued until the engine's capabilities are known.
- TripDeadline.SoundAllAlongIffSafe: asks for positive trip distances, answered queries of joining trips and an engine that obeys; with 0 for a distance the loop's sentinel is a value, and `FairAllAlongIffHarmless` covers engines that do not.
- Batching sessions that are not trips, the batch-full event mask, and `BatchingAdapter::restartSessions`, which resets a copy of the trips; an update of a trip is a stop followed by a start.
- The dropped flags of the batching adapter are never cleared by the code, and not by the model.
- AgpsProperties.RunsAreConsistent: leaves out `dropAllSubscribers`, which empties the list without changing the state; the command trace holds with it. A subscriber that leaves is taken to be the listed one.
- Access point names, bearers, the AGPS type given to the framework and the SUPL mask: carried along without a decision.
- Use after erase in the lists and set-maps: entries are values in the model, so a pointer or iterator to an erased entry is not seen.
- TrackingProperties.SessionsAreServed: leaves out engines without distance tracking, for which `UnsupportedSwitchServesIffOthersDo` says when it holds, and requires that stopping the last session and restarting after a modem restart succeed.
- TrackingRequests.JoinAsksIff: like the other lemmas on what the multiplexer compares asks for a power mode in every session; `RestartAsksForHighestPower` does not.
- `GnssAdapter::stopClientSessions`, which does not erase time-based sessions, and the distance-based starts after a modem restart.
- The order of items within one call of a client's notify, the null entries at the front of its message, the requestData calls themselves, and `turnOn`, `turnOff` and the backhaul requests.
- Subscriptions.MapsStayTransposes: leaves out updates by clients with subscriptions, since `UpdateKeepsTransposeIffUnsubscribed` shows that each of them breaks the property.
- SvIdCodec.IdsRoundTripIffNoLoneSignBit: leaves out offsets of 32 and more, for which the C++ shift has no defined result; the conversion itself takes that result as a parameter.
- A GPS lock is its two named bits and the rest, not one word; event masks are sets of bits; the adapters' own masks are a parameter of `GetEvtMask`.
- Geofence responses, and the pause sent to the engine again after a restart, which the adapter does not record.
- LocApi.LocApiBase.AddAdapter: the null adapter is not passed to the table, as the code never does.
- The parsers of the other debug sentences, which read single fields in the same way, and the result of a PQWP7 sentence that is too short, which the code leaves unset.
- The network table that `SystemStatusNetworkInfo::collate` keeps; collate is a parameter of the history.
- Biometrics, camera, thermal, touch, init, Bluetooth and vendor fixes: thin wrappers and tables.
