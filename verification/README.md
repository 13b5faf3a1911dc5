# ReleaseRadar, modelled and proved in Dafny

ReleaseRadar plans software rollouts in stages, announces them in Teams ahead of time, shows them in a web client
that stays current through a WebSocket, and publishes them as an iCalendar feed. This project models the five places
where its behaviour is hard to see from any single function, and proves what holds of them on every run or for
every input. `dafny verify dfyconfig.toml` checks the whole project with Dafny 4.11.

| area | modules |
|---|---|
| the live-update protocol | `LiveClient`, `LiveHistory`, `LiveObjects`, `LiveRuns`, `Hub`, `Backlog`, `LiveProtocol`, `LiveGuarantees`, `LiveRecovery` |
| the notification queue | `Schedule`, `Notifications`, `Dispatcher`, `Tick`, `Interleaving`, `Fairness` |
| Easter and the Bern holiday rules | `Gregorian`, `Easter`, `Decimals`, `Holidays` |
| the iCalendar feed | `Utf8`, `Folding`, `Escaping`, `Feed`, `FeedReader`, `FeedExactness`, `PhysicalLines`, `Stamps` |
| fast forms: batched hydration, day grouping | `Hydration`, `Grouping`, `DateKeys` |

State that the original updates in place is a class (`LiveObjects.LiveService`, `Hub.Registry`,
`Notifications.Repository`, `Feed.Folder`, the array in `Hydration`); loops are loops. Each such method is specified by a
function on values, and the theorems are about those functions and about whole runs of them. A Go string is a Dafny
string whose characters are octets. Times are integers: milliseconds in the browser, nanoseconds in the scheduler.

## Main results

* **No update is lost** (`LiveGuarantees.NoUpdateIsLost`, `EventuallyUpToDate`). Any number of browsers, mutation handlers,
  link failures, server restarts, out-of-order broadcasts and full buffers are interleaved step by step. Whenever a live
  client is behind the database, a refetch, a frame it will accept, or an unfinished broadcast is on its way. From every
  reachable state, and however settling has begun, the system can settle in a bounded number of steps so that every live
  client shows exactly the database; a client for which no step is left does so whatever the others wait for. Clients that
  lost their link can all come back and catch up (`LiveRecovery.EveryoneCatchesUp`).
* **The condition is exact** (`LiveGuarantees.DroppingIsSafeIff`). The claim in `hub.go` that dropping events for slow
  clients is safe holds if and only if at most 32 broadcasts are ever between taking a revision and enqueueing it, no
  catch-up refetch is served before its link is registered, and every committed change is broadcast. Each failure is shown
  by a concrete run. The reason for the
  bound is a counting argument (`Backlog`): for every frame on its way to a client, the older frames behind it and the
  older revisions still in flight are together fewer than the buffer, so a full buffer cannot be all stale.
* **The client never wedges, and reconnect storms are bounded** (`LiveClient.NeverWedges`, `LiveRuns.Play`,
  `ReconnectStormBounded`). The service object, with events arriving on sockets dead and alive, always follows the run in which
  only its current socket is heard, and every field of its state is determined by the events alone (`LiveHistory.StateIsHistory`).
* **Announcements** (`Dispatcher`, `Fairness`). Over every interleaving of dispatching, planning and deleting, a row is tried at
  most five times with at most one success, ids are never reused and sent rows never change; with N rows due, all N are
  settled within floor(N/20) + 5 ticks. The same announcement is delivered at most once on all runs if and only if no plan
  commits after one of its items has fallen due (`NoDuplicatesIff`), which `TimelyIff` turns into a condition on the windows of
  the stages, the clock reading and the time of the commit.
* **Easter** (`Easter.FormulaIsEaster`, `EasterIsUnique`). The closed formula equals the date defined by golden number, epact
  and paschal full moon, for every year.
* **The feed** (`FeedExactness.FeedRoundTripIff`). Printing the calendar and reading it back with a reader written from
  RFC 5545 returns every event with every field, if and only if no rollout id contains a line break.
* **Fast forms** (`Hydration.HydrationsAgree`, `Grouping.View`). Batched hydration agrees with row-by-row hydration for all table
  contents; one-pass grouping of the sorted, filtered rows is a partition into days.

## Where the code does less than it says

Each of these is a lemma with the exact condition, next to a concrete failing input or run.

* `connect()` is documented as ignored when the channel is up or opening. While a reconnect timer is pending it is not: it
  opens a second channel, and when the timer fires a third socket joins the second, both with handlers. It is safe exactly
  when no timer is pending (`LiveClient.ConnectIsSafeIffNoTimer`, `ConnectWhileReconnecting`, `LiveObjects.ConnectTwice`). The
  application calls it once, at start.
* With 33 broadcasts in flight a buffer can hold 32 stale frames while the fresh one is dropped
  (`LiveGuarantees.LostWith33InFlight`). The hub's own explanation, that a client which misses events reconnects, does not
  apply: nothing makes it reconnect.
* `websocket.Accept` precedes `Register`, so a browser can see its socket open, and refetch, before the hub knows it. Only the
  150 ms debounce stands against that (`LiveGuarantees.LostWhenServedTooEarly`).
* Creating and updating a rollout commits and then reads the rollout back. If that read fails, for instance because the request
  was cancelled, the handler returns without broadcasting and without planning announcements, and the change stays unseen until
  something else is broadcast (`LiveGuarantees.LostWhenNeverAnnounced`).
* The comment on rescheduling says that one transaction prevents duplicate sends. The clock is read before the transaction, so a
  tick in between can deliver a row whose twin is then inserted again (`Dispatcher.DuplicateWithLag`). It takes a window that
  opens, or a catch-up that falls due, in between.
* On 31 December the eve of New Year's Day is looked up in the map of the wrong year, so a 31 December that is not a Friday draws no
  warning (`Holidays.WarnsCorrectlyIff`, `MissedNewYearsEve`).
* Outside the years 0 to 9999 a day key is cut off before the day, so a group of the list view is a month
  (`DateKeys.KeyIsTheDayIff`, `Grouping.GroupsAreDays`).
* UID is the only text of the feed that is printed unescaped (`FeedExactness.BrokenIdIsNotReadBack`).

## Assumptions

* A handler commits before it calls `Broadcast` (`handlers.go`), the enqueue loop runs under the hub's mutex and is one step, and a
  refetch reads the database at one instant. A refetch that fails is not modelled.
* A socket opens once and delivers frames only after that, timers do not fire early, and `connect()` is called from the offline
  state (`frontend/src/app/app.config.ts` lines 31-33); what happens otherwise is `ConnectIsSafeIffNoTimer`.
* In the convergence results attempts to connect succeed, and every committed change is broadcast; what happens otherwise is
  `LostWhenNeverAnnounced`.
* Marking a row commits (its error is discarded by the dispatcher), and a pending query that fails is not a tick.
* Row ids come from a sequence that is never rolled back, `(rollout, stage, fire time, channel)` is unique, and deleting a rollout
  cascades, as in the schema.
* An empty error text counts as delivered, as in the repository code.
* The scheduling rules are stated for years from 1 on in the Gregorian calendar. JavaScript's `new Date(year, ...)` maps the years 0 to 99
  to 1900 to 1999; the model does not follow it there.

## Model

| member | source | states |
|---|---|---|
| `LiveClient.StaysHealthy` | frontend/src/app/core/live.service.ts:89-221 | every event keeps: exactly one of socket and reconnect timer while running, 'live' exactly while a connection is open, backoff one of 500, 1000, 2000, 4000, 8000 |
| `LiveClient.NeverWedges` | frontend/src/app/core/live.service.ts:89-221 | the same in every state reachable from the start; after disconnect neither socket nor any timer is left (that no other socket is heard is `LiveRuns.Play`) |
| `LiveClient.ConnectIsSafeIffNoTimer` | frontend/src/app/core/live.service.ts:88-93 | connect() keeps the client healthy, whatever the factory does, if and only if no reconnect timer is pending |
| `LiveClient.ConnectWhileReconnecting` | frontend/src/app/core/live.service.ts:88-93 | a run after which connect() leaves a socket and a timer side by side |
| `LiveClient.LateDropIsIgnored` | frontend/src/app/core/live.service.ts:162-221 | after disconnect() in any state, a drop reported late starts nothing |
| `LiveClient.DebounceIsTrailing` | frontend/src/app/core/live.service.ts:152-159 | on every run a refetch can happen exactly when the last event that asked for one is 150 ms or more ago, and there are never more refetches than such events |
| `LiveClient.StormStep` | frontend/src/app/core/live.service.ts:119-126 | one event of an outage without a stable connection: backoff is at least the n-th doubling and the next reconnect is no earlier than the n-th bound |
| `LiveClient.ReconnectStormBounded` | frontend/src/app/core/live.service.ts:162-190 | after any drop, whatever happened before: without a connection of 3000 ms, the n-th reconnect comes at least 500*(2^n-1) ms after it for n <= 5 and 15500+8000*(n-5) ms beyond |
| `LiveHistory.StateIsHistory` | frontend/src/app/core/live.service.ts:61-221 | on every run each field is what the events alone tell: backoff 500 ms doubled per failure since the last stable connection, at most four times; timer due that backoff plus jitter after its failure; refetch due 150 ms after it was last asked for; stable after 3000 ms; revision the highest since dialling; indicator by the last of connect, open, drop, disconnect |
| `LiveHistory.RetryDelay` | frontend/src/app/core/live.service.ts:180-190 | the delay before a reconnect is exactly 500, 1000, 2000, 4000 or 8000 ms plus jitter, by the number of failures since the last stable connection |
| `LiveHistory.FastAgainAfterStable` | frontend/src/app/core/live.service.ts:119-126 | once a connection has proved stable, the next failure is retried after 500 ms plus jitter |
| `LiveObjects.LiveService.Connect` | frontend/src/app/core/live.service.ts:89-93 | new state is the specified one; if only the current socket had handlers, that stays so |
| `LiveObjects.LiveService.OpenSocket` | frontend/src/app/core/live.service.ts:95-150 | same for a factory that returns a socket and one that throws; exactly if there was no socket before does only the new one have handlers |
| `LiveObjects.LiveService.OnOpen` | frontend/src/app/core/live.service.ts:116-131 | live, stability timer and catch-up bump armed |
| `LiveObjects.LiveService.OnMessage` | frontend/src/app/core/live.service.ts:133-146 | malformed and stale frames change nothing; a newer revision is remembered and arms the bump |
| `LiveObjects.LiveService.HandleDrop` | frontend/src/app/core/live.service.ts:162-178 | if only the current socket had handlers, none has any now; reconnecting with one timer unless stopped |
| `LiveObjects.LiveService.ScheduleReconnect` | frontend/src/app/core/live.service.ts:180-190 | one timer at a time, backoff doubled up to the cap |
| `LiveObjects.LiveService.ReconnectFires` | frontend/src/app/core/live.service.ts:186-189 | the timer is consumed and a socket opened, or a new timer set and no socket touched; a second channel arises exactly if there was a socket already |
| `LiveObjects.LiveService.BumpFires` | frontend/src/app/core/live.service.ts:155-158 | the debounce timer is consumed and the bus bumped once |
| `LiveObjects.LiveService.StableFires` | frontend/src/app/core/live.service.ts:123-126 | the state takes the step after which, by `LiveHistory.StateIsHistory`, no failure counts any more |
| `LiveObjects.LiveService.Disconnect` | frontend/src/app/core/live.service.ts:193-221 | offline, all timers cleared, the socket closed, no socket keeps handlers |
| `LiveObjects.ConnectTwice` | frontend/src/app/core/live.service.ts:88-93 | drop, connect() before the timer, then the timer: two sockets with handlers on one service |
| `LiveRuns.Handle` | frontend/src/app/core/live.service.ts:89-221 | any possible event on a healthy service: the state takes the specified step, and still only the current socket has handlers |
| `LiveRuns.Play` | frontend/src/app/core/live.service.ts:162-170 | any run, with events arriving on any socket ever opened: only the current socket has handlers at the end, the service is healthy, and its state is that of the run in which all other sockets are ignored |
| `Hub.Offer` | backend/internal/hub/hub.go:106-110 | a non-blocking send never overfills a queue and never disturbs what is queued |
| `Hub.JoinCounted` | backend/internal/hub/hub.go:71-74 | incrementing the entry keeps every user's count equal to its number of clients |
| `Hub.LeaveCounted` | backend/internal/hub/hub.go:87-90 | decrementing, or deleting the entry at zero, does too |
| `Hub.Registry.Register` | backend/internal/hub/hub.go:65-75 | refuses exactly users with 8 clients; otherwise adds one fresh client; counts stay exact, positive and at most 8 |
| `Hub.Registry.Unregister` | backend/internal/hub/hub.go:81-91 | removes the client; a second call changes nothing; counts stay exact |
| `Hub.Registry.TakeRev` | backend/internal/hub/hub.go:97-102 | the next revision |
| `Hub.Registry.Deliver` | backend/internal/hub/hub.go:103-111 | every registered client's queue is offered the event; queues stay within 32 |
| `Hub.Registry.Broadcast` | backend/internal/hub/hub.go:96-112 | both halves in a row |
| `Backlog.BoundedEnqueue` | backend/internal/hub/hub.go:101-111 | with at most 32 in flight, enqueueing keeps: for every frame of a client's history, the older frames behind it and the older revisions still in flight are together fewer than 32 |
| `Backlog.FullBufferHasNews` | backend/internal/hub/hub.go:22-25 | a full queue of distinct frames contains one newer than anything the client has accepted |
| `LiveProtocol.KeepsOnReceive` | frontend/src/app/core/live.service.ts:133-146 | accepting or ignoring a frame keeps the protocol invariant |
| `LiveProtocol.KeepsOnRegister` | backend/internal/api/ws.go:46-65 | so does registration of a link whose catch-up refetch is still due |
| `LiveProtocol.KeepsOnPump` | backend/internal/api/ws.go:83-93 | so does moving a frame from the queue to the socket |
| `LiveProtocol.EnqueueKeeps` | backend/internal/hub/hub.go:103-111 | so does the enqueue step, whether the event fits or is dropped |
| `LiveProtocol.FullBufferIsNews` | backend/internal/hub/hub.go:8-13 | with at most 32 broadcasts in flight a full buffer always holds a frame its client will accept |
| `LiveProtocol.AssignKeeps` | backend/internal/hub/hub.go:97-102 | so does taking a revision |
| `LiveProtocol.StepKeeps` | backend/internal/api/ws.go:36-103 | every step of the whole system keeps the invariant |
| `LiveProtocol.RunKeeps` | backend/internal/api/ws.go:36-103 | and so does every run |
| `LiveGuarantees.NoUpdateIsLost` | backend/internal/hub/hub.go:96-112 | on every run with at most 32 in flight, a live registered client behind the database has a bump, a covering refetch, an acceptable frame or an unfinished broadcast on its way |
| `LiveGuarantees.StaleFramesAreSafe` | frontend/src/app/core/live.service.ts:142-145 | every revision up to the last accepted one announces a committed change that the client shows or is certain to refetch |
| `LiveGuarantees.QuietMeansUpToDate` | frontend/src/app/core/live.service.ts:116-159 | with nothing on its way the view equals the database |
| `LiveGuarantees.SettlingTerminates` | backend/internal/api/ws.go:83-93 | every settling step lowers a finite amount of work |
| `LiveGuarantees.SettlingNeverStuck` | backend/internal/api/ws.go:83-93 | as long as a live client is not quiet, some settling step it depends on is possible within the discipline, at the latest after a wait |
| `LiveGuarantees.CanSettle` | backend/internal/hub/hub.go:8-13 | from every state of the invariant a settling run exists after which every live registered client shows the database, with no client or change lost (lost links are `LiveRecovery.EveryoneCatchesUp`) |
| `LiveGuarantees.SettledMeansUpToDate` | frontend/src/app/core/live.service.ts:116-159 | a client for which no step is left, however long one waits, shows the database, whatever state the other clients are in |
| `LiveGuarantees.EventuallyUpToDate` | backend/internal/hub/hub.go:8-13 | any run followed by any settling: boundedly many steps; a client with no step left shows the database; and the settling can always be completed so that every live client shows the database |
| `LiveGuarantees.LostWith33InFlight` | backend/internal/hub/hub.go:101-111 | a run with 33 broadcasts in flight that loses an update |
| `LiveGuarantees.LostWhenServedTooEarly` | backend/internal/api/ws.go:46-60 | a run in which a refetch served before registration loses an update |
| `LiveGuarantees.LostWhenNeverAnnounced` | backend/internal/api/handlers.go:232-245 | a run in which a committed change is never broadcast, because reading it back failed, loses the update |
| `LiveGuarantees.DroppingIsSafeIff` | backend/internal/hub/hub.go:8-13 | no update is lost on any run if and only if at most 32 broadcasts are in flight, no catch-up refetch is served before registration, and every committed change is broadcast |
| `LiveRecovery.LinkStep` | frontend/src/app/core/live.service.ts:162-190 | a client that is switched on but not live and registered always has a next step towards it, at the latest when its timer is due |
| `LiveRecovery.EveryoneCatchesUp` | backend/internal/hub/hub.go:8-13 | after any run, with links lost and servers restarted, a run of reconnecting and settling exists after which every client that is switched on is live, registered and shows the database |
| `Schedule.ScheduleNotifications` | backend/internal/api/handlers.go:393-431 | the nested loops compute exactly the warranted items |
| `Schedule.ItemsExactly` | backend/internal/api/handlers.go:396-431 | an item is computed if and only if it is for a stage, on TMS_NP for non-prod and TMS_PROD otherwise, and either lies after now at 168, 24 or 1 hours (prod1), 336, 168 or 1 hours (prod2) or 1 hour (others) before the start, or is at now + 1 s while the last hour before the start has begun |
| `Schedule.WindowsOpen` | backend/internal/api/handlers.go:398-412 | the advances of the handler are exactly those hours |
| `Schedule.ItemsInOrder` | backend/internal/api/handlers.go:396-431 | the items come in the order of the stages and within a stage of time, which together with the previous row determines the list |
| `Schedule.StageItemsDistinct` | backend/internal/api/handlers.go:413-430 | each stage has one to three distinct items |
| `Schedule.ItemsDistinctAndAhead` | backend/internal/api/handlers.go:393-431 | all items of a rollout are distinct and lie after now |
| `Schedule.StillAheadIff` | backend/internal/api/handlers.go:393-436 | all items of a plan are still ahead when it commits if and only if no window opened since the clock was read and, where a catch-up is needed, less than a second has passed |
| `Schedule.CascadeExactly` | frontend/src/app/core/stage.ts:98-112 | one stage per entry, in order and with its environment, starting at the anchor plus the delay to the millisecond; without a plan one non-prod stage at the anchor |
| `Schedule.CascadeIsAnnouncedInFull` | frontend/src/app/core/stage.ts:98-112 | a plan respecting the lead times, with whole or fractional delays, anchored over an hour ahead, yields no catch-up, three rows per prod1 or prod2 stage and one per other stage |
| `Notifications.InsertAllFacts` | backend/internal/store/repository.go:649-657 | inserting with ON CONFLICT DO NOTHING: old rows kept, new ones pending and requested, pending keys exactly the old ones and the requested unsent ones |
| `Notifications.RescheduleExactly` | backend/internal/store/repository.go:639-659 | afterwards a rollout's pending rows are exactly the items not already sent; sent rows and other rollouts are untouched |
| `Notifications.NothingSkipped` | backend/internal/store/repository.go:649-657 | distinct items without a sent twin are all inserted, in order |
| `Notifications.Repository.RescheduleNotifications` | backend/internal/store/repository.go:639-659 | the transaction performs the reschedule, or leaves the rows alone if the rollout is gone |
| `Notifications.Repository.MarkNotificationSent` | backend/internal/store/repository.go:692-710 | only a pending row changes: without an error it is sent now, with attempts as before and no error; with one it gains an attempt and that error, and is dead-lettered at the fifth |
| `Notifications.Repository.PendingNotifications` | backend/internal/store/repository.go:669-690 | at most 100 rows that are unsent and due, in order of fire time, none left out before a later one and all of them if fewer than 100 |
| `Notifications.Repository.DeleteRollout` | backend/internal/store/repository.go:521-530 | exactly this rollout and its rows disappear, and every other row stays as it is |
| `Dispatcher.StepKeeps` | backend/internal/store/repository.go:639-710 | every step keeps: a pending row was tried exactly `attempts` times in vain, fewer than five |
| `Dispatcher.AttemptsAreBounded` | backend/internal/store/repository.go:692-710 | on every interleaving: pending rows have at most 4 attempts, each id at most 5 tries and 1 success |
| `Dispatcher.RowsOnlyMoveForward` | backend/internal/store/repository.go:692-710 | on every run: ids are not reused, keys are fixed, attempts do not fall, sent rows are frozen |
| `Dispatcher.StaleTryIsHarmless` | backend/internal/store/repository.go:694-696 | marking an id that was deleted meanwhile changes no row |
| `Dispatcher.TimelyIff` | backend/internal/api/handlers.go:394-436 | a plan is timely if and only if no window of its stages opened, and no catch-up fell due, between clock and commit |
| `Dispatcher.TimelyPlanningNeverDuplicates` | backend/internal/api/handlers.go:432-436 | if every plan commits while its items are still ahead, each key is delivered at most once on every run |
| `Dispatcher.TimelyPlanningInsertsAll` | backend/internal/store/repository.go:639-659 | then ON CONFLICT never skips a row, in any reachable state |
| `Dispatcher.DuplicateWithLag` | backend/internal/api/handlers.go:394-436 | however little a plan may be late, there is a run that delivers a key twice |
| `Dispatcher.NoDuplicatesIff` | backend/internal/store/repository.go:636-638 | no run delivers a key twice if and only if no plan may commit after one of its items has fallen due |
| `Tick.TryRow` | backend/internal/notify/scheduler.go:50-66 | a pending row ends up sent, with attempts unchanged, if and only if the rollout was found with that stage and the post reported no error (or a failed query gave an empty text); otherwise it gains an attempt and the text of the query error, "stage out of range", or the post error |
| `Tick.Dispatch` | backend/internal/notify/scheduler.go:43-68 | without interference: every row of the page of due rows is tried like that with what was looked up and answered for it, and no other row changes |
| `Tick.MarkAllSeparately` | backend/internal/notify/scheduler.go:49-67 | rows of a page do not interfere: each ends as if marked alone, others are unchanged |
| `Tick.UninterruptedTick` | backend/internal/notify/scheduler.go:43-68 | the loop is a run of the interleaved queue, so all results about runs apply to it |
| `Interleaving.PerformAll` | backend/internal/api/handlers.go:203-258 | any series of saving, planning and deleting through the repository is a run of the queue |
| `Interleaving.DispatchAmid` | backend/internal/notify/scheduler.go:43-68 | the loop amid the handlers, which may work before each lookup and between lookup and mark: a run of the queue that starts with the page and tries each of its rows once, in order, as delivered if and only if the rollout had the stage when it was looked up and neither query nor post failed |
| `Fairness.PageServesWaiting` | backend/internal/store/repository.go:669-676 | a page contains every waiting row, or consists of a hundred of them |
| `Fairness.TickLowersQuota` | backend/internal/notify/scheduler.go:43-68 | a completed tick lowers the number of ticks still needed, whatever is planned meanwhile |
| `Fairness.NeverStarves` | backend/internal/notify/scheduler.go:43-68 | with timely planning, if N rows are due between two ticks, all are sent, dead-lettered or deleted within floor(N/20)+5 completed ticks |
| `Gregorian.DayAfter` | frontend/src/app/core/schedule-rules.ts:32-36 | stepping one day forward, across months and leap years, moves the day count by one |
| `Gregorian.DayBefore` | frontend/src/app/core/schedule-rules.ts:32-36 | stepping back undoes it |
| `Gregorian.DayAtOwnCount` | frontend/src/app/core/schedule-rules.ts:32-36 | dates and day counts correspond one to one |
| `Gregorian.AddOneDay` | frontend/src/app/core/schedule-rules.ts:32-36 | adding one day by day count is the next calendar day |
| `Gregorian.DaysBeforeYearClosed` | frontend/src/app/core/schedule-rules.ts:14-30 | the day count of a year in closed form |
| `Gregorian.MonthsByFormula` | frontend/src/app/core/schedule-rules.ts:32-36 | from March on the lengths of the months follow the pattern of 153 days in five months |
| `Gregorian.EpochIs1970` | frontend/src/app/core/stage.ts:114-116 | the day from which time stamps are counted is 1 January 1970 |
| `Gregorian.CivilDayInjective` | frontend/src/app/core/stage.ts:114-116 | in the calendar continued before the year 1, different day counts are different dates |
| `Gregorian.BetweenInMonth` | frontend/src/app/core/stage.ts:114-116 | every day between two days of a month belongs to that month |
| `Easter.OperandsNonNegative` | frontend/src/app/core/schedule-rules.ts:15-27 | no operand of % is negative, so JavaScript's remainder is the mathematical one |
| `Easter.LunarEquationsAgree` | frontend/src/app/core/schedule-rules.ts:20-21 | f and g compute the lunar equation of the reform in every century |
| `Easter.EpactDeterminesH` | frontend/src/app/core/schedule-rules.ts:15-22 | h is the distance of the undisplaced full moon given by the epact |
| `Easter.CorrectionTerm` | frontend/src/app/core/schedule-rules.ts:26 | m is 1 exactly for the displaced full moons that would otherwise push Easter a week too far |
| `Easter.SundayAfterFullMoon` | frontend/src/app/core/schedule-rules.ts:23-25 | 22 March plus h + l is always a Sunday |
| `Easter.FormulaIsEaster` | frontend/src/app/core/schedule-rules.ts:14-30 | for every year the formula is the first Sunday strictly after the paschal full moon, between 22 March and 25 April |
| `Easter.EasterIsUnique` | frontend/src/app/core/schedule-rules.ts:14-30 | a date is that Sunday if and only if it is the date of the formula |
| `Holidays.KeyInjective` | frontend/src/app/core/schedule-rules.ts:6-11 | different dates have different keys |
| `Holidays.KeySays` | frontend/src/app/core/schedule-rules.ts:6-11 | the key reads as year, month and day with dashes between them |
| `Holidays.HolidaysInOrder` | frontend/src/app/core/schedule-rules.ts:44-52 | the nine holidays are listed in calendar order |
| `Holidays.HolidaysInYear` | frontend/src/app/core/schedule-rules.ts:39-54 | all fall in the year asked for |
| `Holidays.HolidaysDiffer` | frontend/src/app/core/schedule-rules.ts:39-54 | all nine dates are different |
| `Holidays.HolidayWeekdays` | frontend/src/app/core/schedule-rules.ts:46-49 | Karfreitag is a Friday, Auffahrt a Thursday, Ostermontag and Pfingstmontag are Mondays |
| `Holidays.ListFollowsRule` | frontend/src/app/core/schedule-rules.ts:44-52 | a date is listed under a name if and only if it is 1 or 2 January, 1 August, 25 or 26 December, or lies 2 days before or 1, 39 or 50 days after the first Sunday after the paschal full moon, each with its name |
| `Holidays.BernHolidays` | frontend/src/app/core/schedule-rules.ts:39-54 | the map has nine entries, and a date is in it under a name if and only if that rule says so |
| `Holidays.LookupFindsHolidays` | frontend/src/app/core/schedule-rules.ts:39-54 | looking a date up finds the name of the holiday celebrated on it by that rule, in that year, and nothing otherwise |
| `Holidays.ScheduleWarnings` | frontend/src/app/core/schedule-rules.ts:60-76 | the pushed sentences are those of the specified warnings, in order |
| `Holidays.SentencesDiffer` | frontend/src/app/core/schedule-rules.ts:64-74 | different warnings are shown as different sentences |
| `Holidays.WarningsMean` | frontend/src/app/core/schedule-rules.ts:64-74 | for every date: the Friday warning exactly on Fridays, a name exactly on the day that holiday is celebrated by the rule, its eve exactly on the day before, except on 31 December |
| `Holidays.WarningsInOrder` | frontend/src/app/core/schedule-rules.ts:60-76 | at most one warning of each kind, Friday first and the eve last |
| `Holidays.WarnsAbout` | frontend/src/app/core/schedule-rules.ts:60-76 | for every date: warned exactly on Fridays, holidays, and eves other than 31 December |
| `Holidays.WarnsCorrectlyIff` | frontend/src/app/core/schedule-rules.ts:56-76 | the promised rule is met if and only if the date is not a 31 December other than a Friday |
| `Holidays.MissedNewYearsEve` | frontend/src/app/core/schedule-rules.ts:62-74 | 31 December 2026 should be warned about and is not |
| `Utf8.CutBetweenRunes` | backend/internal/calendar/ics.go:121 | cutting valid UTF-8 before a rune start leaves two valid texts |
| `Utf8.RuneStartNearby` | backend/internal/calendar/ics.go:121-128 | a rune starts at most three octets before any position of valid text |
| `Folding.SplitLine` | backend/internal/calendar/ics.go:113-134 | the two loops compute the specified chunks, and terminate |
| `Folding.SplitIsLossless` | backend/internal/calendar/ics.go:113-134 | for every text and n >= 1: chunks of at most n octets that concatenate to the text |
| `Folding.FirstCut` | backend/internal/calendar/ics.go:118-131 | for any octets, a text longer than n is cut before the last octet among positions 1 to n that is not a continuation octet, or after n octets if there is none |
| `Folding.ChunksAreFull` | backend/internal/calendar/ics.go:113-134 | for valid UTF-8 and n >= 4 every chunk but the last has at least n - 3 octets |
| `Folding.FoldsOnlyLongLines` | backend/internal/calendar/ics.go:89-100 | a line is printed as it is if and only if it has at most 73 octets |
| `Folding.SplitKeepsUtf8Iff` | backend/internal/calendar/ics.go:109-128 | every valid UTF-8 text is cut into valid chunks if and only if n >= 4 |
| `Folding.ReadingUndoesPrintingIff` | backend/internal/calendar/ics.go:89-100 | for any lines: unfolding and splitting what was printed gives the lines back if and only if none contains a line break and none but the first starts with a blank |
| `Escaping.UnescapeEscape` | backend/internal/calendar/ics.go:68-78 | unescaping returns the text with CRLF, CR and LF normalised; commas, semicolons and line breaks never occur raw |
| `Escaping.EscapeOfNormal` | backend/internal/calendar/ics.go:68-78 | escaping depends only on the normal form |
| `Escaping.EscapeAlikeIff` | backend/internal/calendar/ics.go:68-78 | two texts escape alike if and only if their normal forms agree |
| `Escaping.WellEscapedHasNoLineBreak` | backend/internal/calendar/ics.go:68-78 | escaped text contains no CR or LF |
| `Escaping.EscapeKeepsUtf8` | backend/internal/calendar/ics.go:68-78 | escaping valid UTF-8 gives valid UTF-8 |
| `Feed.Folder.Write` | backend/internal/calendar/ics.go:102-107 | the output is always the intended document up to where the writer failed |
| `Feed.Folder.Line` | backend/internal/calendar/ics.go:89-100 | the folded line is appended; after an error nothing is |
| `Feed.WriteICS` | backend/internal/calendar/ics.go:17-53 | the writer receives the document, or its prefix together with an error, and an error exactly then |
| `PhysicalLines.FeedLinesAreGood` | backend/internal/calendar/ics.go:80-134 | every physical line of the printed feed has at most 74 octets, whatever the rollouts contain, and is valid UTF-8 whenever their texts are |
| `FeedReader.UidLineIff` | backend/internal/calendar/ics.go:30-39 | the UID line is unbroken if and only if the rollout id is |
| `FeedReader.FeedIsLosslessIff` | backend/internal/calendar/ics.go:17-53 | the printed feed unfolds to exactly the lines passed to Line if and only if no id of a rollout with stages contains a line break |
| `FeedReader.ScanCalendar` | backend/internal/calendar/ics.go:28-50 | BEGIN and END balance; one VEVENT per stage, in order |
| `FeedReader.CalendarFrame` | backend/internal/calendar/ics.go:19-25 | the properties before and after the events, read back |
| `FeedReader.DescriptionIff` | backend/internal/calendar/ics.go:44-46 | a description is printed if and only if there is one |
| `FeedReader.ReadEventBody` | backend/internal/calendar/ics.go:30-48 | every field of an event is read back as the stage and rollout demand: id and index, start, start plus duration or plus an hour, environment with product and title, description, and the status mapping |
| `FeedReader.FeedRoundTrip` | backend/internal/calendar/ics.go:17-53 | reading the printed feed returns all events |
| `FeedReader.UidsAreDistinct` | backend/internal/calendar/ics.go:30 | two stages share a UID if and only if rollout id and index are the same |
| `FeedExactness.ReadUidsUnbroken` | backend/internal/calendar/ics.go:30-39 | no document whatever makes the reader return a UID with a line break |
| `FeedExactness.FeedRoundTripIff` | backend/internal/calendar/ics.go:17-53 | the round trip holds if and only if no id of a rollout with stages contains a line break |
| `FeedExactness.BrokenIdIsNotReadBack` | backend/internal/calendar/ics.go:30-39 | a rollout whose event is not read back |
| `FeedExactness.FeedUidsDistinctIff` | backend/internal/calendar/ics.go:28-50 | the UIDs of the events of the feed are pairwise different if and only if the ids of the rollouts with stages are |
| `Stamps.StampIsTheSecond` | backend/internal/calendar/ics.go:55 | any two instants have the same stamp if and only if they lie in the same second |
| `Stamps.StampSays` | backend/internal/calendar/ics.go:55 | a stamp reads as year, month and day of the instant, a T, and the hours, minutes and seconds passed of that day |
| `Stamps.WriteCalendar` | backend/internal/calendar/ics.go:17-55 | the printer with its own stamps: the writer receives the document or its prefix with an error, and without an error reading it returns all events if and only if no id of a rollout with stages contains a line break |
| `Stamps.StartsAreReadBack` | backend/internal/calendar/ics.go:33-42 | with these stamps, the start read back for a stage is the stamp of exactly the instants within the second it starts in |
| `Stamps.EndsAreReadBack` | backend/internal/calendar/ics.go:34-42 | the end read back for a stage is the stamp of exactly the instants within the second of start plus duration, or of start plus an hour if there is no duration |
| `Hydration.HydrateAll` | backend/internal/store/repository.go:236-320 | every rollout of the array receives its rows of the batches, in batch order |
| `Hydration.Hydrate` | backend/internal/store/repository.go:338-400 | the rollout receives all rows of its queries, in order |
| `Hydration.BatchedChildrenAgree` | backend/internal/store/repository.go:250-275 | a rollout's rows picked from the batch are, in order, those of its own query |
| `Hydration.BatchedActorsAgree` | backend/internal/store/repository.go:276-297 | the pair agrees as a multiset |
| `Hydration.HydrationsAgree` | backend/internal/store/repository.go:232-236 | for all tables both forms give the same rollout, the pair up to order |
| `Grouping.Rows` | frontend/src/app/features/list/list-view/list-view.component.ts:242-250 | one row per stage, stably sorted by start |
| `Grouping.EveryStageHasItsRow` | frontend/src/app/features/list/list-view/list-view.component.ts:243-248 | each stage has exactly one row, behind those of all stages before it, with its rollout, index, product, start and status |
| `Grouping.SortFacts` | frontend/src/app/features/list/list-view/list-view.component.ts:249 | sorting orders the rows and neither loses nor adds any |
| `Grouping.SortIsStable` | frontend/src/app/features/list/list-view/list-view.component.ts:249 | rows with the same start keep their order |
| `Grouping.FiltersMean` | frontend/src/app/features/list/list-view/list-view.component.ts:252-262 | the filters are independent, each can be off, and shows exactly the rows with that status, with that product, from now on, or before now |
| `Grouping.FilterCounts` | frontend/src/app/features/list/list-view/list-view.component.ts:252-262 | filtering keeps every shown row as often as it occurred and no other |
| `Grouping.FilterKeepsOrder` | frontend/src/app/features/list/list-view/list-view.component.ts:252-262 | filtering keeps the order |
| `Grouping.FilterAtTime` | frontend/src/app/features/list/list-view/list-view.component.ts:252-262 | filtering keeps the order of rows with the same start |
| `Grouping.Groups` | frontend/src/app/features/list/list-view/list-view.component.ts:264-276 | the groups concatenate to the rows, each is non-empty with one key for all its rows, and no key appears twice |
| `Grouping.GroupsAreDays` | frontend/src/app/features/list/list-view/list-view.component.ts:264-276 | rows of the same day are in the same group; the rows of a group are of one day in the years 0 to 9999, and of one month always |
| `Grouping.View` | frontend/src/app/features/list/list-view/list-view.component.ts:242-276 | the view is a partition by key of exactly the rows that should be shown, in order of time, and in the order of the rollouts where times are equal |
| `DateKeys.SameKeyIff` | frontend/src/app/core/stage.ts:114-116 | two days share a key text if and only if they are the same day, or lie in the same month of a year outside 0 to 9999 |
| `DateKeys.DayOfInstant` | frontend/src/app/core/stage.ts:114-116 | the day of an instant is counted in days of 86400000 ms from 1 January 1970 |
| `DateKeys.NearKeySays` | frontend/src/app/core/stage.ts:114-116 | the key of a day in the years 0 to 9999 reads as four digits of year, two of month and two of day |
| `DateKeys.FarKeySays` | frontend/src/app/core/stage.ts:114-116 | elsewhere it reads as a sign, the year and the month |
| `DateKeys.KeysAreIntervals` | frontend/src/app/core/stage.ts:114-116 | whatever lies between two instants with the same key text has that key text too |
| `DateKeys.KeyIsTheDayIff` | frontend/src/app/core/stage.ts:114-116 | the key text of an instant separates its day from all others if and only if its year is between 0 and 9999 |

## Left out

- OIDC, LDAP, cookies and session signing: foreign libraries and cryptography.
- Teams payloads and the HTTP post: a try succeeds or fails with some text.
- SQL text, pgx and connection errors: tables, transactions, ORDER BY and LIMIT are modelled by what they mean; a query that fails half-way is not.
- Angular templates, modals, the timeline layout, styles, routing and rxjs internals: user interface only. The status counts of the list view are a plain tally.
- Everything under design/, the end-to-end tests, Docker, nginx and scripts.
- Session roles, field redaction, lock windows and their validation: lookups and field checks that would only add easy members.
- Ping, read limit, write timeout and the rejection of a ninth connection in the socket handler: in the protocol they appear only as a link that ends.
- A dropped socket's server session may linger in the hub for a while; in the protocol a client has one link at a time, and the frames of an abandoned one are gone.
- Revisions are unbounded integers: neither the 64-bit counter nor numbers beyond 2^53 in JavaScript are modelled.
- LiveClient.ReconnectStormBounded: jitter is any whole number of milliseconds, not bounded by 0.3 times the backoff, which only widens the set of runs; the bound is a lower one.
- Schedule.ItemsDistinctAndAhead: fire times are exact; the rounding of time stamps to microseconds by the database is not modelled.
- Schedule.CascadeIsAnnouncedInFull: delays are real numbers, without the rounding of floating point; durations of the stages and the text form of time stamps play no role.
- Feed.WriteICS: the rendering of an instant is a parameter, of which only the absence of carriage returns is used; Stamps.WriteCalendar supplies the actual one.
- Holidays.ScheduleWarnings: a date is a calendar day without time of day and time zone.
- Tick.Dispatch: one call without interference on the notifications table, with the answers of each rollout query, each post and the clock as parameters; with interference the same loop is Interleaving.DispatchAmid.
- Instants outside the range of JavaScript time stamps, for which the ISO form is an exception: the key text is continued there with more digits.
