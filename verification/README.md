# Room booking: capacity, rate limits and credentials

A Dafny model of a hotel-style booking service (FastAPI, PostgreSQL, Redis, Celery) and proofs about it.
Three parts of the service are modelled:

1. **The capacity engine and the booking transactions.** `has_available_unit` is a sort-and-sweep over ±1
   events. `create`, `update`, `cancel`, `change_room`, `delete_room_by_id` and `complete_finished_bookings`
   are multi-step transactions that take row locks, read, decide, write and commit.
2. **The rate limiter**: a counter script in Redis with a fixed window.
3. **Credentials**: refresh-token sessions, their rotation and revocation, and the `tokens_valid_after` cut-off.

## How it is organised

The booking part is described three times, and the three descriptions are tied to each other by proof, so a
mistake in one of them makes a proof of another fail:

- `Service.dfy` is the code as it runs on one database session: a class whose fields are the tables, loops that
  group rows and sweep. Each method is proved to do what one atomic operation of `Operations.dfy` does.
- `Operations.dfy` gives each transaction as one step on the database, and histories of such steps.
  `Answers.dfy` says, in terms of the rows alone, exactly when each answer is given and what is written; what
  histories keep is proved in `Lifecycle.dfy`, `Capacity.dfy` and `Admission.dfy`.
- `Protocol.dfy` is the interleaved system: program counters, row locks, snapshots, a clock that only moves
  forward, failures at any point. `Linearization.dfy` proves that every run of it is a history of atomic
  operations. The proof is rely/guarantee: what a transaction knows is stable under whatever a transaction that
  holds other locks may do; a snapshot taken under the room lock can only over-count later.

`Theorems.dfy` states what holds in every reachable state of the interleaved system; `Progress.dfy` and
`Completion.dfy` are about waiting, deadlock and running out of work; `Readings.dfy` says when clocks are
read and `Retirement.dfy` which bookings a sweep completes. `SerialRuns.dfy` and `Lateness.dfy` build concrete
runs that show where guarantees end, and prove where exactly. `Bookings.dfy`, `Sweep.dfy`, `Availability.dfy`,
`Units.dfy` and `Listings.dfy` hold the data, the sweep, its algebra, the assignment of physical units and the
two room listings. `RateLimit.dfy`, `Sessions.dfy` and `Revocations.dfy` (interleaved session transactions),
`Credentials.dfy` and `Endpoints.dfy` (whole endpoints, one at a time) and `CutOff.dfy` (overlapping revocations
and sign-ins of one account) are the other parts.

## Assumptions

- Instants are integers: microseconds UTC for bookings and tokens, milliseconds for the limiter. Clock readings
  and generated ids are parameters; the clock never goes back; generated ids and minted tokens are new.
- PostgreSQL at READ COMMITTED (`app/db/database.py` sets no other level): a statement sees the last committed
  rows; a blocked `FOR UPDATE` or `UPDATE` reads the row again once it is granted and re-checks its filter; a
  failed transaction leaves nothing behind and releases its locks. Taking a lock and reading the row is one
  step, and so are writing and committing, since nobody sees what is not committed. Runs start from empty tables.
- Redis: one script call is atomic and sees one time; a key exists up to and including the millisecond of its
  deadline and not after it; `TTL` rounds to the nearest second. The window and limit of a
  key are fixed and the window is at least one second.
- Signatures cannot be forged and hashing is injective, so a token stands for its hash and for the user, type,
  issue time and expiry that it carries. Expiry follows section 4.1.4 of RFC 7519: not accepted on or after it.

## Where the documentation promises more than the code keeps

- README.md:51 says that `total_units` controls how many overlapping active bookings may coexist. The reduction
  guard looks only at bookings that end after the present, so a booking that is over but not yet swept may sit
  in a room reduced below its occupancy. `SerialRuns.GuaranteeIsExact` gives the exact condition: the bound is
  kept at an instant, in every reachable state, if and only if the instant is not before the last reduction.
- README.md:48 says that a booking cannot start in the past. The comparison uses a clock reading from before the
  commit, in `create` even from before the wait for the room lock. `Lateness.CreateInTimeIff` and
  `Lateness.UpdateInTimeIff` are exact: requests that commit within a given time of the reading never start in the
  past, in any run, if and only if the period starts at least that long after the reading. What always holds is that
  no granted booking starts before its request began (`Theorems.ReadingsAreRecent`).
- README.md:260 promises completion of finished bookings. A sweep completes what was finished when its statement
  found its rows and still is (`Theorems.SweepRetires`); `Theorems.SweepIsSerialIff` says exactly when that is all
  that is finished at its commit, and gives a condition on the moment of finding that ensures it;
  `Lateness.SweepCanMissARow` is a run in which it is not.
- README.md:253 promises a `Retry-After`. The reported number of seconds is rounded, so on a millisecond clock it
  can end before the window does: `RateLimit.RetryAfterOutlastsWindowIff` says exactly when it does not, and
  `RateLimit.RetryAfterCanFallShort` gives requests for which it does.
- README.md:250 says that existing credentials are invalidated. The cut-off is strict: an access token issued at
  the very instant of the cut-off survives. `Credentials.AcceptedIffNotRevokedSince` is exact about it and
  `Credentials.SameInstantSurvives` gives a history. With overlapping revocations of one account, the later commit of
  an earlier reading moves the cut-off back (`CutOff.CutOffCanMoveBack`); `CutOff.PermanentIff` is exact about that,
  and `CutOff.NeverPassesIff` about logins and refreshes that were checked before a revocation and mint after it.
- Waits never form a cycle as long as at most one completion sweep runs at a time. Two sweeps that visit their
  rows in opposite orders can wait for each other until one fails (`SerialRuns.TwoSweepsCanDeadlock`); user requests
  are never in a cycle (`Progress.OnlySweepsDeadlock`).

## Model

| member | source | states |
|---|---|---|
| Sweep.HasAvailableUnit | app/services/booking_service.py:69-93 | For any list of intervals (unordered, repeated, empty or inverted) and any period, the sweep answers true if and only if there is at least one unit and every instant of the half-open period is covered by fewer intervals than there are units |
| Sweep.SortEvents | app/services/booking_service.py:86 | The events come out as a permutation in (time, change) order, so that at equal times releases precede claims |
| Sweep.EventsCountCover | app/services/booking_service.py:78-84 | Clipping loses nothing: inside the period, the changes up to an instant add up to the number of intervals that contain it |
| Sweep.ClaimIsCover | app/services/booking_service.py:88-92 | A running sum reached by a claim is witnessed by at least that many intervals covering the claim's instant, which lies in the period; this is why a refusal is never wrong |
| Sweep.RunningSumBounds | app/services/booking_service.py:86-93 | Over the sorted events the running sum is never negative and ends at zero |
| Availability.OrderIrrelevant | app/services/booking_service.py:69-93 | The answer depends only on the multiset of intervals |
| Availability.SplitsAtAnyPoint | app/services/booking_service.py:69-93 | A period is available exactly when both parts of it, cut anywhere, are |
| Availability.KeptByRelief | app/services/booking_service.py:69-93 | Fewer intervals, more units and a shorter period each keep a period available |
| Availability.CoverMonotone | app/services/booking_service.py:79-84 | A sub-multiset of intervals never covers an instant more often |
| Units.AssignUnits | app/services/booking_service.py:69-93 | If no instant is over capacity, every booking can be given one unit for its whole stay so that no two bookings on a unit overlap |
| Units.AssignableIffWithinCapacity | README.md:51 | Such an assignment exists if and only if no instant is over capacity |
| Service.BookingService.LoadOverlappingIntervals | app/services/booking_service.py:129-149 | One batched query, in any row order, gives each requested room intervals that cover each instant exactly as often as that room's own active overlapping bookings do, the excluded booking left out |
| Service.BookingService.EnsureRoomAvailable | app/services/booking_service.py:45-66 | Passes if and only if at every instant of the period fewer than `total_units` blocking bookings of the room are in use |
| Service.BookingService.FindAvailableRooms | app/services/booking_service.py:96-126 | Returns exactly the active rooms for which the single-room check would pass, ascending by id and without repeats |
| Service.BookingService.Create | app/services/booking_service.py:156-177 | Has the answer and the new tables of the atomic create, which `Answers.CreateAnswersExactly` determines |
| Service.BookingService.Update | app/services/booking_service.py:179-201 | Has the answer and the new tables of the atomic update, which `Answers.UpdateAnswersExactly` determines |
| Service.BookingService.Cancel | app/services/booking_service.py:203-226 | Has the answer and the new tables of the atomic cancel, which `Answers.AnswersExactly` determines, including the idempotent second cancel |
| Service.BookingService.AddRoom | app/api/routers/rooms.py:178-183 | Has the answer and the new tables of the atomic room insertion |
| Service.BookingService.ChangeRoom | app/api/routers/rooms.py:192-230 | Has the answer and the new tables of the atomic change: a reduction is refused while an active booking ends after now |
| Service.BookingService.DeleteRoomById | app/api/routers/rooms.py:238-247 | Has the answer and the new tables of the atomic archive: the room is closed and keeps its units (`Answers.ArchivedForGood`) |
| Service.BookingService.CompleteFinishedBookings | app/workers/tasks.py:174-203 | Completes exactly the active bookings that ended before the clock reading, leaves none of them active, and returns their number |
| Service.BatchIsPerRoom | app/services/booking_service.py:137-144 | The batched overlap filter, restricted to one room, is that room's own overlap filter |
| Service.SameAnswer | app/services/booking_service.py:60-65 | The sweep of a room's interval list decides the plain statement about that room's rows |
| Listings.SearchAgreesWithBooking | app/services/booking_service.py:96-126 | For a valid period, a room is found if and only if booking it now would succeed |
| Listings.BookedOrAvailable | app/api/routers/rooms.py:102-133 | For any resolved period an active room with units is available or booked, and with one unit never both |
| Listings.AvailableMeansUnitFree | app/api/routers/rooms.py:70-73 | A room is listed as available exactly if it is active and a unit is left at every instant of the period |
| Listings.BookedMeansInUse | app/api/routers/rooms.py:116-127 | A room is listed as booked exactly if an active booking of it is in use at some instant of the period |
| Listings.PeriodIsResolved | app/api/routers/rooms.py:23-47 | A missing start is now, a missing end a day after the start, and only a start that is not before its end is refused |
| Operations.EntryAt | app/services/booking_service.py:156-226 | In a legal history each entry answers what the operation answers when run alone on the database just before it, and generated ids are new |
| Answers.CreateAnswersExactly | app/services/booking_service.py:31-42 | A create is refused for its period exactly if it does not start before it ends or starts before the reading, for its room exactly if that is missing or archived, for lack of units exactly if at some instant of the period no unit is left; otherwise exactly the requested booking is added |
| Answers.UpdateAnswersExactly | app/services/booking_service.py:179-201 | The same for an update, over the given or stored ends and with the booking itself left out; on success only its period changes |
| Answers.ChangeRoomAnswersExactly | app/api/routers/rooms.py:203-230 | A change is refused exactly if it lowers the units while an active booking of the room ends after the reading; any other change is granted, whatever is booked, and sets only the units |
| Answers.CompleteAnswersExactly | app/workers/tasks.py:181-196 | Of the rows named, exactly the active ones that ended before the reading become completed and keep everything else; their number is the answer |
| Answers.AnswersExactly | app/services/booking_service.py:203-226 | Every operation answers exactly as its rows determine; a cancel is forbidden exactly if the caller is neither the owner nor staff, and takes effect exactly if the caller is entitled and the booking active |
| Answers.HistoryAnswersExactly | app/services/booking_service.py:156-242 | So does every entry of every history |
| Answers.ArchivedForGood | app/api/routers/rooms.py:246 | Archiving closes the room and keeps its units, and no later entry books the room or moves a booking of it |
| Theorems.EveryAnswerIsExact | app/services/booking_service.py:156-242 | In every interleaved run every request is answered, and writes, exactly as the rows just before its entry determine |
| Theorems.ArchivedStaysClosed | app/api/routers/rooms.py:238-247 | In every interleaved run a room stays closed after it was archived, and nothing is booked or moved in it |
| Lifecycle.PerformWellFormed | app/models/booking.py:17-24 | Every operation keeps the schema's constraints: bookings refer to rooms and start before they end |
| Lifecycle.HistoryWellFormed | app/models/booking.py:17-24 | Every history keeps them |
| Lifecycle.HistoryEvolves | app/services/booking_service.py:179-226 | Between any two points of any history: bookings and rooms are never removed, a booking's room and owner never change, a terminal status freezes the row, no archived room is reactivated or gains an active booking, and those it has keep their period |
| Lifecycle.EndsAtMostOnce | app/workers/tasks.py:181-191 | A booking leaves ACTIVE at most once, whatever cancels, updates and sweeps race |
| Lifecycle.CancelChangesAtMostOnce | app/services/booking_service.py:218-226 | Of all cancel calls for a booking at most one reports that it changed something |
| Lifecycle.WhyItEnded | app/services/booking_service.py:211-224 | A booking became CANCELLED only by a call of its owner or of staff that was told so, and COMPLETED only by a sweep whose clock reading was after its end |
| Lifecycle.ArchivedRoomsStillDrain | app/services/booking_service.py:222 | In an archived room an entitled cancel succeeds and the sweep completes a booking exactly if it is over |
| Lifecycle.GrantedRequestsWrite | app/services/booking_service.py:167-174 | In every history a granted request wrote what was asked: the requested room, owner and period, checked against its clock reading; an update keeps the ends it was not given; a room change keeps what it was not told to change |
| Lifecycle.OthersUntouched | app/services/booking_service.py:156-226 | In every history a refused request changes nothing and a granted one changes no row it does not name |
| Capacity.AdmittedBookingFits | app/services/booking_service.py:189-199 | Writing a booking whose self-excluding check passed keeps the room within capacity at every instant |
| Capacity.ReductionCountsNothing | app/api/routers/rooms.py:209-228 | A permitted change that reduces units leaves no active booking ending after its clock reading, so the bound holds for the new number of units |
| Capacity.PerformKeepsCapacity | app/services/booking_service.py:156-226 | Every other operation keeps the bound, whatever it is and whatever it answers |
| Capacity.HistoryWithinCapacity | app/services/booking_service.py:156-242 | In every history, for every room and instant, the active bookings that end after the room's last reduction and cover the instant number at most its units |
| Capacity.LastReductionIsLast | app/api/routers/rooms.py:209-228 | The instant from which capacity is guaranteed is the clock reading of the last granted change that lowered the room's units, if there was one |
| Capacity.NotOverbookedSinceReduction | README.md:51 | At every instant from the last reduction on, all active bookings together number at most the units |
| Capacity.OwnPeriodIsFree | README.md:40-42 | Any non-empty part of one's own period passes the self-excluding capacity check |
| Capacity.NarrowingSucceeds | app/services/booking_service.py:179-201 | Narrowing an active booking of an open room to a valid sub-period succeeds and changes only the period |
| Capacity.RebookingSucceeds | README.md:40-42 | Right after a cancel anybody can book any valid part of the period it gave back |
| Admission.PeakIsHighest | app/services/booking_service.py:88-93 | The peak is attained inside the period and never exceeded there |
| Admission.AvailableIffBelowPeak | app/services/booking_service.py:60-66 | The check passes if and only if the peak occupancy of the period is below the number of units |
| Admission.AdmissionRaisesPeak | app/services/booking_service.py:167-175 | A booking of a whole period raises the peak of that period by exactly one |
| Admission.HarmlessKeepsRoom | app/services/booking_service.py:137-144 | Operations on other rooms and their bookings, and refused requests of any kind, do not change what the check of this room sees |
| Admission.ExactAdmission | tests/test_bookings.py:484-512 | In a history in which a room sees only identical valid requests from some point on, apart from refused ones, exactly min(attempts, max(0, units − peak)) are admitted, and the peak rises by that number |
| Linearization.SnapshotStaysGood | app/services/booking_service.py:160-175 | A snapshot that covered the room's overlapping bookings under the room lock still covers them after anything other lock holders commit: it can only over-count |
| Linearization.KnowledgeIsStable | app/services/booking_service.py:156-226 | Everything a transaction has read under its locks stays true while others step and time passes |
| Linearization.OthersUndisturbed | app/services/booking_service.py:228-242 | Since locks are exclusive, what one transaction may write nobody else counts on |
| Linearization.CreateIsSound | app/services/booking_service.py:156-177 | Each step of a create fits its locks, and its commit or refusal equals the atomic create at that moment |
| Linearization.UpdateIsSound | app/services/booking_service.py:179-201 | The same for update, which locks the booking and then the room |
| Linearization.CancelLockedIsSound | app/services/booking_service.py:222-226 | The same for a cancel that holds its booking |
| Linearization.ChangeRoomIsSound | app/api/routers/rooms.py:203-228 | The same for a room change: nothing can appear in the room after the guard looked |
| Linearization.CompleteIsSound | app/workers/tasks.py:179-191 | The same for the sweep, which locks finished bookings one by one without any room lock; which rows those are is the subject of `Theorems.SweepRetires` |
| Linearization.NextKeeps | app/services/booking_service.py:156-242 | Every step of every transaction, every failure and every tick keeps the invariant on reads, locks and log |
| Linearization.RunKeeps | app/services/booking_service.py:156-242 | So does every run; the log only grows and the clock never goes back |
| Theorems.EveryRunIsSequential | README.md:31-38 | In every reachable state the database and every answer are those of the finished transactions performed one at a time in log order; each is logged exactly once, as it was asked, with a past clock reading, and a sweep with exactly the rows that were finished in the state in which its statement found them and still are |
| Theorems.OrderRespectsRealTime | app/services/booking_service.py:156-226 | A transaction that starts after others finished comes after them in that order |
| Theorems.ReadingsAreRecent | README.md:48 | A transaction acts only on clock readings from after it began, so no granted booking or update starts before its request began |
| Theorems.SweepRetires | app/workers/tasks.py:181-196 | In every run in which a sweep's statement finds its rows in a state f, its later entry completes exactly those that were finished in f at its clock reading and still are, changes nothing else and answers with their number |
| Theorems.SweepsLookFirst | app/workers/tasks.py:179-191 | Every sweep that commits has found its rows in such a state, after it began and after it read the clock |
| Theorems.SweepIsSerialIff | app/workers/tasks.py:181-191 | A sweep that finds its rows in f does what it would do alone at its commit if and only if everything finished then at its reading was finished in f; this is so in every run in which no create or update in flight in f had read the clock before the sweep |
| Readings.LaterEntriesAreLate | app/services/booking_service.py:41 | If no create or update in flight has read the clock before an instant, none that has is ever granted later |
| Retirement.PassedForGood | app/workers/tasks.py:181-187 | A row that the sweep passes over, being free and not finished, is not finished at the sweep's reading in any later state, whoever locks and rewrites it |
| Retirement.SweepCommitExact | app/workers/tasks.py:181-191 | The rows a sweep marks by its commit are exactly the rows its statement found that are still finished |
| Retirement.SweepsAreExact | app/workers/tasks.py:181-191 | Whatever is interleaved after its statement has found its rows, a sweep's entry is those of them still finished |
| Lateness.CreateInTimeIff | app/services/booking_service.py:157-175 | Creates of a period, valid at a reading, that commit within a given time of it never start in the past at their commit, in any run, if and only if the period starts at least that long after the reading |
| Lateness.UpdateInTimeIff | app/services/booking_service.py:187-199 | The same for updates, whose reading under the locks also precedes the commit |
| Lateness.SweepCanMissARow | app/workers/tasks.py:181-191 | A reachable state in which a sweep answered zero although a booking was finished at its reading when it committed |
| Theorems.NeverOverbooked | app/services/booking_service.py:156-242 | No interleaving overbooks a room at any instant from its last reduction on |
| Theorems.CountedBookingsFit | app/services/booking_service.py:156-242 | In every reachable state, at every instant, past ones included, the active bookings that end after the last reduction fit in the room's units |
| Theorems.UnitsForEverybody | README.md:51 | In every reachable state these bookings can each be given one unit for the whole stay, shared with no overlapping booking |
| Theorems.CanAlwaysNarrow | app/services/booking_service.py:179-201 | In every reachable state an active booking of an open room can be narrowed |
| Theorems.CanAlwaysRebook | README.md:40-42 | In every reachable state what a cancel gives back can be booked again at once |
| Theorems.CrowdGetsExactlyWhatIsLeft | tests/test_bookings.py:484-512 | However a crowd of identical valid requests is interleaved, with itself, with refused requests and with work elsewhere, exactly as many are admitted as were units left at the peak |
| Theorems.RunsOnlyEvolve | app/services/booking_service.py:179-226 | Along every interleaved run bookings, owners and rooms stay, terminal bookings are frozen and archived rooms only drain |
| Theorems.OneCancelWins | app/services/booking_service.py:203-226 | In every reachable state at most one cancel transaction of a booking has been told that it changed it |
| Theorems.CompletedMeansOver | app/workers/tasks.py:179-187 | No interleaving completes a booking before its end has passed on the clock |
| Progress.NotWaitingCanStep | app/services/booking_service.py:228-242 | An unfinished transaction that needs no foreign lock can take a step |
| Progress.WaitingCannotStep | app/services/booking_service.py:228-242 | One that needs a foreign lock cannot |
| Progress.WaitsGoUp | app/services/booking_service.py:180-183 | With at most one sweep, whoever is waited for is unfinished and ranks strictly higher: sweep, then holder of a booking, then holder of a room |
| Progress.NoDeadlock | app/services/booking_service.py:156-226 | With at most one sweep, no reachable state has a cycle of waits, and chains have at most four members |
| Progress.OnlySweepsDeadlock | app/services/booking_service.py:156-226 | However many sweeps run, in every reachable state every member of a cycle of waits is a sweep |
| Progress.SomebodyCanStep | app/workers/tasks.py:181-191 | With at most one sweep, as long as a transaction is unfinished some unfinished transaction can step |
| Completion.StepUsesUpWork | app/services/booking_service.py:156-226 | Every step of every schedule lowers a well-founded measure of the work in flight, so without new requests no schedule goes on for ever |
| Completion.EverybodyCanFinish | app/workers/tasks.py:181-191 | From every reachable state with at most one sweep in flight there is a run in which every unfinished transaction gets its answer: none is rolled back, nothing new starts and no time passes |
| SerialRuns.PastCanBeOverbooked | app/api/routers/rooms.py:209-224 | A reachable state in which an instant before the last reduction is overbooked |
| SerialRuns.GuaranteeIsExact | README.md:51 | The capacity bound holds at an instant in every reachable state if and only if the instant is not before the last reduction |
| SerialRuns.LateCommitStartsInPast | README.md:48 | For any delay there is a run that commits a booking whose start lies that far in the past |
| SerialRuns.TwoSweepsCanDeadlock | app/workers/tasks.py:181-190 | A reachable state in which two sweeps wait for each other and neither can step |
| RateLimit.RateLimiter.Increment | app/services/rate_limit_service.py:11-18 | The script's commands make the step of the counter store, and the returned count and remaining seconds are those of the new store |
| RateLimit.RateLimiter.EnforceRateLimit | app/services/rate_limit_service.py:34-55 | Rejects exactly when the new count exceeds the limit, with at least one second to wait |
| RateLimit.CounterCounts | app/services/rate_limit_service.py:11-18 | In a window the counter is the number of requests since the one that opened it, and the deadline is one window after that one |
| RateLimit.WindowsAreApart | app/services/rate_limit_service.py:11-18 | Two windows of one key start more than one window length apart |
| RateLimit.WindowAdmitsExactly | app/services/rate_limit_service.py:54-55 | Of the requests of one window exactly the first `limit` are admitted |
| RateLimit.AtMostLimitUntilDeadline | app/services/rate_limit_service.py:11-18 | From a counter's creation up to and including its deadline exactly min(requests, limit) are admitted, over any history |
| RateLimit.SpanAdmitsAtMostTwice | app/services/rate_limit_service.py:54-55 | Any span of one window length, both ends included, contains at most 2·limit admitted requests of a key |
| RateLimit.LiveDeadlineStays | app/services/rate_limit_service.py:13-15 | A request on a live counter never moves its deadline, and with a positive limit a rejected request always found its counter live |
| RateLimit.EveryCounterExpires | app/services/rate_limit_service.py:12-15 | Every stored counter has a deadline, at most one window after the last request |
| RateLimit.RetryAfterInRange | app/services/rate_limit_service.py:54-55 | A rejected request is told to wait between one second and one window, the remaining time to the nearest second but at least one |
| RateLimit.RetryAfterOutlastsWindowIff | README.md:253 | Any time longer than the reported wait outlasts the window if and only if the remaining time is at most a second, whole, or rounds up; the wait itself does if and only if the remaining time is below a second or rounds up |
| RateLimit.RetryAfterCanFallShort | README.md:253 | For every window of two seconds or more there are requests for which the window outlasts the reported wait by 400 ms |
| RateLimit.WholeSecondRetrySuffices | README.md:253 | On a whole-second clock any time longer than the reported wait outlasts the window |
| Revocations.RevokeAllEmpties | app/services/refresh_token_service.py:64-69 | Under any interleaving, once a revoke-all has its answer, no session that the user had when its statement started is left, and their tokens are retired; its commit removed exactly those still there, no other, and the answer is their number |
| Revocations.AnswersAreRight | app/services/refresh_token_service.py:35-62 | A rotation succeeds exactly if its user had an unexpired session with its token at some moment of its flight, and a revocation hits exactly if its user had a session with its token |
| Revocations.RevokedMeansGone | app/services/refresh_token_service.py:54-62 | After a revocation that hit no session holds the token |
| Revocations.RotationCommits | app/services/refresh_token_service.py:48-52 | The session that held the spent token keeps its owner and gets the new token for a week; no other session changes |
| Revocations.OpeningCommits | app/services/refresh_token_service.py:24-33 | A login adds one session of its user with a new token for a week; no other session changes |
| Revocations.NotWaitingCanStep | app/services/refresh_token_service.py:35-69 | A session transaction that needs no locked row can take a step |
| Sessions.RotateKeeps | app/services/refresh_token_service.py:35-52 | Every step of a rotation keeps the invariant: each issued token is held by exactly one session or retired, and each rotation spent a different one |
| Sessions.RevokeKeeps | app/services/refresh_token_service.py:54-62 | So does every step of a revocation |
| Sessions.RevokeAllKeeps | app/services/refresh_token_service.py:64-69 | So does every step of the deletion of all sessions of a user |
| Sessions.RedeemedAtMostOnce | README.md:248 | In every interleaving each token is rotated successfully by at most one transaction |
| Sessions.RedeemableIffNotRetired | app/services/refresh_token_service.py:35-69 | In every reachable state an issued token is held by a session if and only if it was not rotated away or deleted |
| Sessions.RetiredForGood | app/services/refresh_token_service.py:35-69 | A spent, logged-out or revoked token is never held again and wins no later rotation |
| Credentials.AuthService.CreateSession | app/services/refresh_token_service.py:24-33 | Adds one session for a newly minted refresh token that expires one lifetime later |
| Credentials.AuthService.Rotate | app/services/refresh_token_service.py:35-52 | Succeeds if and only if the token has an unexpired session of that user; then that session, and no other, moves to the new token |
| Credentials.AuthService.RevokeSession | app/services/refresh_token_service.py:54-62 | Removes the user's session of that token if there is one, says whether it did, and touches no other |
| Credentials.AuthService.RevokeAll | app/services/refresh_token_service.py:64-69 | Removes exactly the sessions of the user and returns their number |
| Credentials.AuthService.UserLogin | app/api/routers/auth.py:183-214 | Has the reply and the new accounts and sessions of the atomic login; if it succeeds, the active user holds a new access token and a new refresh token with a live session |
| Credentials.AuthService.GetRefreshToken | app/api/routers/auth.py:73-107 | Succeeds if and only if the refresh token is accepted; then the user holds two new tokens with a live session and the old token, the new one being another, has none; otherwise nothing changes |
| Credentials.AuthService.LogoutOne | app/api/routers/auth.py:218-224 | Never fails, and from then on the presented token is not accepted |
| Credentials.AuthService.LogoutEverywhere | app/api/routers/auth.py:228-233 | Has the reply and the new state of the atomic logout-all, which needs an accepted access token |
| Credentials.AuthService.SetPassword | app/api/routers/users.py:30-49 | The same for a password change |
| Credentials.AuthService.DeactivateUser | app/api/routers/users.py:148-167 | The same for a deactivation |
| Credentials.AuthService.ActivateUser | app/api/routers/users.py:175-205 | The same for an activation, which leaves the cut-off where it is |
| Endpoints.EveryAnswerIsExact | app/api/routers/auth.py:183-203 | In every history each request is answered exactly as the requests and answers before it determine: a login succeeds exactly with the current password of an open account, a refresh exactly with an unexpired, uncut, unspent token of an open account, a password change exactly with an accepted access token and the current password, and the tokens handed out last a quarter of an hour and a week |
| Endpoints.AccountFollowsRequests | app/api/routers/users.py:46 | What is stored of an account is what its requests tell: the password last set, and whether it was deactivated since its last activation |
| Endpoints.SessionsFollowRequests | app/services/refresh_token_service.py:24-69 | A refresh token has a session exactly if it was handed out and nothing has spent, logged out or revoked it since |
| Credentials.CutOffStep | app/api/routers/users.py:163-165 | A request moves an account's cut-off only by revoking, and then to the present |
| Credentials.CutOffMeansRevoked | app/core/security.py:100-104 | Over any history an account's cut-off is after an instant if and only if a revocation happened after that instant |
| Credentials.RevocationIsPermanent | app/api/routers/auth.py:83-84 | After logout-all, password change or deactivation at T no access or refresh token of the user issued strictly before T is ever accepted again, and no request that presents one gets what it asks for, whatever follows |
| Credentials.AcceptedIffNotRevokedSince | app/api/dependencies.py:40-55 | An unexpired access token of an active account is accepted if and only if no revocation came after its issue |
| Credentials.SameInstantSurvives | app/core/security.py:100-104 | A history in which a login and a logout-all at one instant leave that login's access token accepted |
| Credentials.LostForGood | app/services/refresh_token_service.py:35-69 | Over any history with fresh tokens, a refresh token whose session is gone, by whatever request, never has a session again |
| Credentials.SpentForGood | app/api/routers/auth.py:92-98 | Over any such history, a refresh token that was rotated away or logged out is refused by every later refresh |
| Credentials.RedeemedAtMostOnce | README.md:248 | Over any such history, each refresh token is refreshed with successfully at most once |
| Credentials.NewTokensWork | app/api/routers/auth.py:92-107 | In any history the two tokens that a login or refresh hands out are accepted at once, and the refresh token it was given is not |
| CutOff.PermanentIff | app/api/routers/auth.py:232-233 | Under any interleaving, every token issued before the stored cut-off fails the cut-off check in every later state if and only if no revocation of the account in flight read the clock before it |
| CutOff.CutOffCanMoveBack | app/api/routers/users.py:46-48 | A run of two overlapping revocations after which what was issued between their readings passes the cut-off check again |
| CutOff.NeverPassesIff | app/api/routers/auth.py:83-102 | The access token of a login or refresh that was checked before a revocation committed never passes the cut-off check in any later state if and only if the sign-in is over by the commit, its token was issued before the cut-off, and no revocation in flight has read the clock at or before the issue |
| Credentials.RevocationEmptiesSessions | app/api/routers/auth.py:232-233 | Right after a revocation the user has no session and no refresh token of any age is accepted |

## Left out

- Capacity.HistoryWithinCapacity: does not count bookings that ended by the last reduction, because the code's guard ignores them; `SerialRuns.GuaranteeIsExact` shows that the bound cannot be stretched to the time before it.
- Credentials.RevocationIsPermanent: treats every endpoint as one step; for overlapping requests of one account `CutOff.PermanentIff` and `CutOff.NeverPassesIff` give the exact conditions, and `Sessions` interleaves the session rows.
- RateLimit.AtMostLimitUntilDeadline: does not cover Redis outages, during which the limiter admits everything by design.
- Credentials.AuthService.UserLogin: does not model the lookup by e-mail or username, password hashing, the length limit of passwords or the rate limiter in front of the endpoint; a password is compared as such.
- The order in which PostgreSQL's optimizer visits rows: any order is allowed, as a parameter of a step.
- Locks that foreign keys take on users and rooms for an insert: the room is already locked by the same transaction, and users are not part of the booking model.
- E-mail, reminders, the daily report, the notification queue and retry delays.
- JWT encoding, signatures, Argon2 and SHA-256; abstracted as said under Assumptions.
- HTTP routing, status codes, request parsing and time zones; requests are integer instants. A request with no fields is refused before it reaches the modelled code.
- Room attributes other than units and activity, role checks other than staff cancelling for others, role changes and the deletion of users.
- Pagination and single-row lookups, which filter what is modelled here.
- Migrations, seeding, settings, logging, health probes and containers.
