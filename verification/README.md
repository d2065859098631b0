# Smart parcel locker: verified model

This project models the part of the smart parcel locker backend where several
domains write the same rows at the same time, and proves what those writers keep
in common over whole runs.

**The shared cell table** (`schema`, `cells`, `orders`, `ownership`, `runs`,
`ledger`, `outcomes`, `desk`, `availability`, `marker`, `markerrace`, `store`,
`usecases`, `reclaimer`; `allocationlaws` and `orderlaws` say what each transaction
answers and writes from the columns of the rows alone). The locker domain leases cells by reservation key; the
order domain binds the same cells by order id. Each transaction is a function on the tables (`CellTx`,
`OrderTx`); `Runs` lets any number of them follow each other in any order, with
one clock that never goes back, arbitrary earlier clock readings, and arbitrary
rows skipped by `SKIP LOCKED`. A failed transaction changes nothing and is simply
missing from a run. The classes `Store`, `LockerUseCase`, `OrderUseCase` and
`Reclaimer` write the same operations as the statements the code runs, and each
method is proved to have exactly the effect and result of its transaction
function. Use cases and the drain loop, which run several statements, take what everybody
else does in between as a parameter. `MarkerRace` is the same system with every call
around the Redis marker taken apart. Central to all of it is `Ownership.Inv`, the
joint invariant of both domains: no source file states it, and it is what makes the cell UPDATEs whose
affected-row count nobody reads always hit exactly one row.

**The device command protocol** (`commands`, `commandtheorems`, `commandendings`,
`commandanswers`, `commandfates`, `commandlaws`, `devices`). Every `Execute` has a program counter and its own, possibly
stale, copy of the command; each repository or gateway call is one atomic step that may fail
without effect or take effect and lose its reply; the gateway may answer anything.
`CreateCommand` is two steps, the INSERT and the read-back.

**The reservation race** (`race`, `racelaws`). Concurrent `Reserve` calls interleave at every
statement, hold the locks on their cell, device and site rows to commit, and collide
on the unique reservation key.

**Fees and printing** (`fees`, `printing`). Integer-fen arithmetic with the 64-bit
wrap-around of the code, decimal and fen printing, command numbers.

## Findings

* **Pickup cannot complete.** The pickup UPDATE has three parameter markers and two
  arguments are bound to it (`internal/order/data/repository.go:238`), so the
  driver layer refuses it and the transaction rolls back. The model follows the
  code: the number of bound arguments is part of a run's setup (`pickupArgs`), and
  `OrderTx.PICKUP_ARGS_BOUND` is the number the code binds. All safety theorems
  hold for every value; `Desk.NothingCompletes` gives the consequence of the code's.
  The integration test
  `internal/order/data/repository_integration_test.go:201-208` expects a completed
  order.
* **Buttons the server refuses, orders that cannot end.** Payment and settlement are
  closed outside development (`internal/order/service/service.go:117-119`,
  `internal/order/service/service.go:134-136`), yet the UI offers them. Together with
  the pickup statement these gates are the exact conditions in
  `Desk.ButtonsMatchServer` and `Desk.OrdersCanFinish`. A system that is never a
  development one takes no payment, so no cell is ever occupied
  (`Desk.NothingIsPaid`); one that is redeployed out of development strands its
  overdue orders for as long as it stays so (`Desk.OverdueIsStranded`,
  `Desk.OverdueForever`).
* **A reclaim batch updates rows while its result set is still open**
  (`internal/locker/data/repository.go:168-186`). Whether the driver accepts that is
  part of a run's setup (`openRows`): if not, a batch fails exactly when it has rows
  to free (`Outcomes.ReclaimFreesTheLowest`), and the drain loop ends well exactly
  when there is nothing to drain (`Reclaiming.Reclaimer.RunOnce`). The integration
  test `internal/locker/data/repository_integration_test.go:158` expects it to work.
* **A drain that ends well can leave lapsed locks**: a batch is short as soon as rows
  are locked by somebody else (`Reclaiming.SkippedRowIsLeft`). What is left is exactly
  what the last pass had to skip (`Reclaiming.Reclaimer.RunOnce`).
* **A read can show an order as overdue that is not stored so**: its mark may hit
  nothing because the order has moved on (`Ledger.ShownOverdueNeedNotBeStored`).
  `Ledger.ShownOverdueIsStored` says exactly when the two agree.
* **A marker can outlive the truth** in three ways: a lost DEL
  (`Marker.ReleaseCoherentExactly`, reachable by `Marker.FalseMarkerIsReachable`,
  ended by the marker's deadline, `Marker.FalseMarkerExpires`), a release whose reply
  is lost (`MarkerRace.LostReleaseStaysFalse`), and, with nothing lost, a Release that
  runs between a Reserve's commit and its SET (`MarkerRace.SetAfterDeleteStaysFalse`).
  `MarkerRace.MarkerTruth` is the exact condition for every interleaving.
* **A command whose MarkRunning reply is lost stays RUNNING forever** when no other
  caller holds it (`CommandFates.LostReplyAbandons`,
  `CommandFates.AbandonedIsReachable`, `CommandFates.RunningCanEnd`); repeated
  requests replay it as it stands. A PENDING one is never stranded: once expired, the
  next Execute of its request settles it (`CommandFates.LateExecuteSettles`).
* **A deadline can precede its deposit.** Rentals longer than 153,722,867 minutes
  fit the column but overflow the duration type (`Fees.DeadlineExactness`,
  `Fees.DeadlineCanPrecedeDeposit`).
* **The overdue fee falls back to one hour** once an order is late by more than
  2^63 - 3,600,000,000,000 nanoseconds (`Fees.OverdueFeeExactness`).
* **The availability summary promises too much at a site that is not ACTIVE**: it
  does not look at the site's service status, the allocator does
  (`Availability.SummaryIsAPromise`, `Availability.SuspendedSiteOverpromises`).
* **Large amounts are printed wrong.** `formatFen` divides in doubles, which can
  round up to the next yuan; the first integer it gets wrong is
  100 * 2^49 + 96 fen (`Printing.SafeAmounts`, `Printing.FirstMisreadAmount`,
  `Printing.LargeAmountIsMisread`).
* **Printing the smallest int64 gives a bare sign** (`Printing.ItoaParsesBack`).
* Command numbers outgrow their CHAR(26) column when the sequence reaches 2^24
  (`CommandNumbers.CommandNoFitsColumn`).
* `docs/operations/site-device-api.md:27` says that reusing an idempotency key
  with other parameters is a conflict. `internal/locker/biz/usecase.go:37-40` replays
  the stored reservation whatever the parameters; the model follows the code.

## Model

| member | source | states |
|---|---|---|
| Ownership.InstalledInv | migrations/mysql/000001_site_device.up.sql:51-70 | a fresh installation, with no orders and all cells idle or disabled, satisfies the joint invariant |
| Ownership.FleetInv | internal/device/data/repository.go:47-83 | heartbeats, device maintenance and site changes cannot break the joint invariant |
| Ownership.ReserveInv | internal/locker/data/repository.go:54-130 | reserving, in either pass, with replay or takeover of an expired lock, keeps the joint invariant, unique keys included |
| Ownership.ReleaseInv | internal/locker/data/repository.go:131-158 | releasing keeps the joint invariant |
| Ownership.ReclaimInv | internal/locker/data/repository.go:159-197 | a reclaim batch keeps the joint invariant |
| Ownership.CreateInv | internal/order/data/repository.go:71-138 | creating an order keeps the joint invariant: the new order and its cell point at each other |
| Ownership.DepositInv | internal/order/data/repository.go:210-224 | a deposit keeps the joint invariant |
| Ownership.TransitionsInv | internal/order/data/repository.go:195-274 | cancelling, paying, picking up and settling keep the joint invariant |
| Ownership.MarkOverdueInv | internal/order/data/repository.go:172-193 | the overdue mark keeps the joint invariant |
| Ownership.UncheckedUpdateHitsOneRow | internal/order/data/repository.go:319-326 | for every open order exactly one cell row carries its id, and it is the row the order names; so the cell UPDATEs nobody checks always affect one row |
| Ownership.OrdersAndCellsMatch | internal/order/data/repository.go:114-122 | current_order_id and cell_id are inverse bijections between the cells held by orders and the open orders |
| Ownership.CellsAreConserved | internal/order/data/repository.go:319-326 | idle + reserved + open orders + disabled = all cells |
| LeaseTheorems.StepInv | internal/locker/data/repository.go:54-197 | every step of both domains keeps the joint invariant |
| LeaseTheorems.OwnershipAlways | internal/order/data/repository.go:71-326 | the joint invariant holds in every state of every run |
| LeaseTheorems.StepKeepsLease | internal/locker/data/repository.go:89-104 | no step other than the holder's own release touches a leased cell before its expiry |
| LeaseTheorems.LeaseSafety | internal/locker/data/repository.go:89-104 | a leased cell keeps key, expiry and every other column through any run in which the clock has not passed the expiry and the holder has not released it |
| LeaseTheorems.ReserveReturnsALease | internal/locker/data/repository.go:54-130 | a successful reservation is a lease in the table: a replay of the row that carries the key, or the lowest-numbered suitable cell of the first pass that has one; a refusal changes nothing and means there was none |
| LeaseTheorems.ReservationIsKept | internal/locker/biz/usecase.go:37-53 | the caller's cell and expiry stand, and are what any replay returns, at every later moment of the lease |
| LeaseTheorems.StepCell | internal/locker/data/repository.go:104 | one step writes a cell at most once, and then raises its version by one |
| LeaseTheorems.VersionStamps | internal/order/data/repository.go:114-116 | versions never decrease along a run, and equal versions mean an unchanged cell |
| Ledger.BooksAlways | internal/order/data/repository.go:71-274 | the invariant on order rows, log and pending marks holds in every state of every run from a fresh installation |
| Ledger.LogIsTheHistory | internal/order/biz/model.go:104-113 | an order's log is a chain of declared edges from its creation to its stored status, at most seven rows, with matching time stamps; PAID is logged and never stored |
| Ledger.ChainIsShort | internal/order/biz/model.go:104-113 | along declared edges, rows so far plus edges still possible never exceed seven |
| Ledger.PaidInside | internal/order/data/repository.go:256-260 | no order reaches deposit without a payment in its log |
| Ledger.NoLateParcelLeavesUnsettled | internal/order/data/repository.go:226-246 | a completed order was picked up by its deadline, or its log ends storage, overdue, settled, picked up; OVERDUE is entered only after the deadline |
| Ledger.MoneyAlways | internal/order/biz/usecase.go:154-167 | an overdue fee stands exactly while the order is OVERDUE, and is the fee of a moment after the deadline and no later than the marking row; total = rent + deposit - discount, with the rent of the rented time |
| Ledger.TermsAreFrozen | internal/order/data/repository.go:100-105 | along any run: orders are never deleted, their terms never change, finished orders never change at all, the log only grows |
| Ledger.ShownOverdueIsStored | internal/order/biz/usecase.go:162-166 | a read that judged an order late shows what is stored, whatever happened before its mark, if and only if the order is still in storage at the mark or already marked with the same fee |
| Ledger.ShownOverdueNeedNotBeStored | internal/order/biz/usecase.go:162-166 | a run in which a read shows a fee that is not stored, because another read marked the order first |
| Outcomes.ReclaimFreesTheLowest | internal/locker/data/repository.go:159-197 | a batch frees exactly the lowest-numbered lapsed cells the limit allows, reports their number, and touches nothing else; it fails, changing nothing, if and only if it has rows to free and the driver refuses an UPDATE beside an open result set |
| Outcomes.CreateBindsTheLowest | internal/order/data/repository.go:86-138 | an accepted order binds the lowest idle cell of its size and site and nothing else; a refusal changes nothing |
| Outcomes.TransitionsTouchTheirOwnCell | internal/order/data/repository.go:195-246 | finishing an order frees exactly its own cell, a deposit occupies exactly it, other transitions leave all cells alone |
| Outcomes.ReleaseUndoesReserve | internal/locker/data/repository.go:131-158 | releasing a new reservation restores every row except the cell's lease and version, and the key then finds nothing; another key is refused |
| Outcomes.CancelUndoesCreate | internal/order/data/repository.go:195-208 | cancelling a new order gives its cell back and leaves every other cell and order as before the creation |
| AllocationLaws.ReserveAnswer | internal/locker/data/repository.go:89-104 | in columns: a key a row carries is replayed from that row; a new key is granted exactly if an unlocked row of the size without order, idle or locked until before now, exists on an online, ACTIVE, recently heard device of the ACTIVE site; it gets the first such row, and nothing else changes |
| AllocationLaws.ExpiredLockIsTakenOver | internal/locker/data/repository.go:104 | a run in which a reservation takes over a lock that has expired, and the old key finds nothing |
| AllocationLaws.TakeAnswer | internal/locker/data/repository.go:104-116 | in columns: the guarded UPDATE writes its row exactly if it is open at the reading and no other carries the key |
| AllocationLaws.ReleaseAnswer | internal/locker/data/repository.go:131-158 | in columns: accepted exactly for a cell locked by that key without an order, which is then idle; and which refusal otherwise |
| AllocationLaws.ReclaimAnswer | internal/locker/data/repository.go:159-197 | in columns: a batch frees the first lapsed locks without orders up to the limit, reports their number, and writes nothing else |
| AllocationLaws.SummaryAnswer | internal/site/data/repository.go:142-152 | in columns: the summary counts exactly the idle cells of the size on online, ACTIVE, recently heard devices of the site |
| AllocationLaws.OtherSitesDoNotMatter | internal/site/data/repository.go:142-152 | devices and cells of other sites change neither a site's summary nor what a reservation there is answered |
| AllocationLaws.LeaseLastsItsTtl | internal/locker/biz/usecase.go:23-48 | in numbers: a key that is not blank and a TTL of 30 to 900 seconds are accepted, 300 seconds if none is asked; the lease expires that long after the call read the clock |
| AllocationLaws.ReplayWritesNothing | internal/locker/biz/usecase.go:37-40 | a key the table carries is answered from the table, and neither table nor marker is written |
| AllocationLaws.ReleaseCallAnswer | internal/locker/biz/usecase.go:55-70 | in columns: cell id and key are asked for, the table releases first, and the marker of the key goes exactly if that worked and the DEL does |
| AllocationLaws.BlankByCodePoint | internal/locker/biz/usecase.go:24 | the white space a key must contain more than, by code point |
| OrderLaws.CreateAnswer | internal/order/data/repository.go:71-138 | in columns: accepted exactly for a known site, a positive duration and an unlocked idle cell of the size at the site without an order; it binds the first such cell, writes the order row and one log row and nothing else; and which refusal otherwise |
| OrderLaws.CancelAnswer | internal/order/data/repository.go:195-208 | in columns: which orders are cancelled, the whole new order, cell and log row, and which refusal otherwise |
| OrderLaws.PayAnswer | internal/order/data/repository.go:248-262 | in columns: the same for payment, with its two log rows and no cell written |
| OrderLaws.DepositAnswer | internal/order/data/repository.go:210-224 | in columns: the same for the deposit; the deadline is the rented minutes later, in nanoseconds |
| OrderLaws.PickupAnswer | internal/order/data/repository.go:226-246 | in columns: the same for the pickup, from storage up to the deadline itself, with three arguments bound |
| OrderLaws.SettleAnswer | internal/order/data/repository.go:264-274 | in columns: the same for the settlement, which clears the fee |
| OrderLaws.MarkAnswer | internal/order/data/repository.go:172-193 | in columns: the mark writes an order in storage and one log row, or nothing |
| OrderLaws.ReadAnswer | internal/order/biz/usecase.go:154-167 | in columns: a read marks and shows an order as overdue exactly if it is in storage and past its deadline |
| OrderLaws.RowsAreSigned | internal/order/data/repository.go:311-317 | every log row of every run is one of nine transitions, with its reason and its actor |
| OrderLaws.OrdersLiveOneOfThreeLives | internal/order/biz/model.go:104-113 | in every state of every run an order has gone some way along one of three paths: cancelled unpaid; picked up in time; overdue, settled and picked up |
| OrderLaws.PricesOnEveryOrder | internal/order/biz/model.go:126-172 | in numbers on every order row of every run: 300, 500 or 800 fen for each hour begun of the rented time, and as much for each hour begun after the deadline |
| Desk.ButtonsMatchServer | frontend/packages/domain-ui/src/order.ts:48-66 | for the status a read returns, the offered actions are exactly the accepted ones if and only if every offered one passes its gate: pickup needs its statement bound in full, payment and settlement a development deployment |
| Desk.LateOrderIsSettledAtOnce | internal/order/biz/usecase.go:140-150 | settling an order that is late and not yet marked marks and settles it in one request, with both log rows |
| Desk.PickupButtonIsRefused | internal/order/data/repository.go:238 | as bound in the code, an order awaiting pickup is offered the pickup door and refused |
| Desk.AcceptedRequestsMakeProgress | internal/order/data/repository.go:195-274 | every accepted request strictly lowers its order's rank and changes no other order |
| Desk.Finish | internal/order/data/repository.go:195-274 | an unblocked open order is ended, its cell idle, by at most five requests and reads that are all its own and all at the present clock reading |
| Desk.EngagedForever | internal/order/data/repository.go:226-246 | while the pickup statement is not bound in full, a paid order stays unfinished and keeps its cell through every run |
| Desk.OverdueForever | internal/order/service/service.go:134-136 | from any point on, as long as nothing is redeployed to development, an overdue order outside it stays as it is and keeps its cell |
| Desk.OverdueIsStranded | internal/order/service/service.go:134-136 | a run from an installation that reaches an overdue order outside development, blocked even with the pickup statement bound in full |
| Desk.NothingIsPaid | internal/order/service/service.go:117-119 | in every run that never enters development, every order is unpaid or cancelled and no cell is occupied |
| Desk.BlockedStays | internal/order/data/repository.go:226-274 | no sequence of its own present requests ends an order with a gate in its way |
| Desk.OrdersCanFinish | internal/order/data/repository.go:195-274 | its own present requests can end an open order if and only if it is unpaid, or the pickup statement is bound in full and the order needs no settlement or the deployment is a development one |
| Desk.NothingCompletes | internal/order/data/repository.go:238 | with the arguments the code binds, no run from a fresh installation completes an order |
| Availability.CandidatesAreServed | internal/locker/data/repository.go:89-129 | of any number of reservations with fresh distinct keys at one instant, exactly the first as many as there are candidates succeed, on distinct cells, takeovers included |
| Availability.SummaryIsAPromise | internal/site/data/repository.go:139-171 | as many fresh reservations as the summary counts all succeed, on distinct cells, if and only if the site is ACTIVE or the count is zero |
| Availability.SuspendedSiteOverpromises | internal/site/data/repository.go:142-152 | a suspended site whose summary counts one cell and which refuses every reservation |
| Marker.CoherentAlways | internal/locker/biz/usecase.go:45-69 | with whole calls as steps and no failed DEL, marker coherence and the joint invariant hold after every sequence of calls and other table steps |
| Marker.MarkerAgreesWithTable | internal/locker/data/marker.go:48-92 | with whole calls as steps, a live marker of a key says exactly what the table says of it: cell, size, key and expiry |
| Marker.LostDeleteLeavesAFalseMarker | internal/locker/biz/usecase.go:66-68 | when the DEL after a release fails, a live marker names a reservation the table no longer has |
| Marker.ReleaseCoherentExactly | internal/locker/biz/usecase.go:63-69 | a release keeps table and markers coherent if and only if its DEL works, or it is refused, or no live marker carries the key |
| Marker.FalseMarkerExpires | internal/locker/data/marker.go:52-68 | after a lost DEL everything is coherent again from the false marker's own deadline on, whatever calls follow |
| Marker.FalseMarkerIsReachable | internal/locker/biz/usecase.go:45-68 | from a fresh installation, a reservation and a release with a lost DEL leave an incoherent marker |
| MarkerRace.InvAlways | internal/locker/biz/usecase.go:45-69 | with every call split at its table step and its Redis step, commits of interleaved reservations and lost replies included, an issued reservation stands until its expiry unless it was released, in every state of every run |
| MarkerRace.MarkerTruth | internal/locker/biz/usecase.go:45-69 | in every interleaving, a live marker within its lease agrees with the table if and only if that lease has not been released |
| MarkerRace.SetTruth | internal/locker/data/marker.go:52-68 | a SET makes a true marker if and only if nobody released the lease since its commit; the marker outlives the lease by the age of the reading its TTL was computed from |
| MarkerRace.FalseMarkersAwaitTheirDelete | internal/locker/biz/usecase.go:63-69 | when every release gets its reply, every DEL lands and every SET precedes the release of its lease, a live marker is false only while the DEL of its key is still to come |
| MarkerRace.SetAfterDeleteStaysFalse | internal/locker/biz/usecase.go:45-51 | a release between the commit and the SET of a reservation leaves a false marker nobody will delete, though no Redis command was lost |
| MarkerRace.LostReleaseStaysFalse | internal/locker/biz/usecase.go:63-65 | a release that takes effect and loses its reply leaves a false marker nobody will delete |
| UseCases.ReserveRun | internal/locker/biz/usecase.go:37-53 | what a Reserve call does among others is a run of the split system, so every theorem about those runs holds of it |
| UseCases.ReserveIsOneStep | internal/locker/biz/usecase.go:37-53 | with nobody else, the split call is the whole call in one step |
| UseCases.FaultyCommitIsReported | internal/locker/biz/usecase.go:45-48 | a commit that fails, or takes effect and loses its reply, is reported as unavailable |
| UseCases.FaultyCommitSetsNothing | internal/locker/biz/usecase.go:45-48 | a call whose commit fails or loses its reply reports an error and sets no marker |
| UseCases.ShownAnswer | internal/order/biz/usecase.go:154-167 | in columns: what a read shows of an order, with its own clock reading deciding lateness and fee |
| UseCases.MarkedAnswer | internal/order/biz/usecase.go:154-167 | in columns: what a read stores, after what others did: the mark of an order still in storage, with the fee of the first clock reading and a log row dated by the second |
| UseCases.RaceReturnsAreGrants | internal/locker/data/repository.go:63-130 | every way a reservation succeeds among interleaved statements is one of the grants a Reserve call takes: a replay, or the guarded UPDATE of its row |
| Repositories.Store.constructor | internal/locker/data/repository.go:27-38 | a store starts on given tables that satisfy the joint invariant |
| Repositories.Store.FindReservation | internal/locker/data/repository.go:39-53 | the row carrying the key, whatever its expiry, or not found |
| Repositories.Store.ReserveAvailable | internal/locker/data/repository.go:54-62 | result and tables are those of the reservation transaction; the joint invariant is kept |
| Repositories.Store.ReserveUnlocked | internal/locker/data/repository.go:63-130 | the two-pass recursion ends and does what the reservation transaction says; the checks on its guarded UPDATE never fire when run alone |
| Repositories.Store.TakeRow | internal/locker/data/repository.go:104-116 | the guarded UPDATE alone: it takes the row exactly if the row is free at its reading and no other carries the key |
| Repositories.Store.Release | internal/locker/data/repository.go:131-158 | result and tables are those of the release transaction; the joint invariant is kept |
| Repositories.Store.ReclaimExpired | internal/locker/data/repository.go:159-197 | the row loop frees the whole selected batch and returns its size, or fails with nothing written if the driver refuses its first UPDATE |
| Repositories.Store.FreeRows | internal/locker/data/repository.go:173-186 | every guarded UPDATE of the loop hits, so the count is the number of selected rows; a refused first UPDATE writes nothing |
| Repositories.Store.GetAvailabilitySummary | internal/site/data/repository.go:139-171 | each non-empty size appears once with the number of idle cells of ready devices, smallest first; empty sizes are absent |
| Repositories.Store.CreateOrder | internal/order/data/repository.go:71-138 | result and tables are those of the creation transaction: all of it or nothing |
| Repositories.Store.AppendLog | internal/order/data/repository.go:311-317 | one row is added at the end of the log |
| Repositories.Store.ReleaseCell | internal/order/data/repository.go:319-326 | the cell is freed if it carries the order, else nothing happens silently |
| Repositories.Store.OccupyCell | internal/order/data/repository.go:219 | the cell is occupied if it carries the order, else nothing happens silently |
| Repositories.Store.CancelOrder | internal/order/data/repository.go:195-208 | result and tables are those of the cancellation; its unchecked cell UPDATE affects one row |
| Repositories.Store.OpenDepositDoor | internal/order/data/repository.go:210-224 | result and tables are those of the deposit; its unchecked cell UPDATE affects one row |
| Repositories.Store.OpenPickupDoor | internal/order/data/repository.go:226-246 | result and tables are those of the pickup, refused when the statement is not bound in full; its unchecked cell UPDATE affects one row |
| Repositories.Store.ConfirmDevelopmentPayment | internal/order/data/repository.go:248-262 | result and tables are those of the payment, with its two log rows |
| Repositories.Store.SettleOverdue | internal/order/data/repository.go:264-274 | result and tables are those of the settlement |
| Repositories.Store.MarkOverdue | internal/order/data/repository.go:172-193 | idempotent: marks and logs an order in storage, leaves any other untouched |
| UseCases.LockerUseCase.Reserve | internal/locker/biz/usecase.go:23-53 | refused, failed and replayed calls write nothing; any other is the run of its commit and its SET among everything others do after each statement, however its allocation interleaves, with the commit's result or, if the reply is lost, an error and no SET; alone it is the whole call in one step |
| UseCases.LockerUseCase.Allocate | internal/locker/biz/usecase.go:45-52 | the commit of a call that missed its key, dated before and granted after others have acted, and its SET |
| UseCases.LockerUseCase.CommitAndMark | internal/locker/biz/usecase.go:45-52 | the commit with its fault, and the SET only of a grant whose reply arrived |
| UseCases.LockerUseCase.AllocateRow | internal/locker/data/repository.go:54-130 | the tables and the grant of a whole allocation, of a replay, or of an interleaved guarded UPDATE |
| UseCases.LockerUseCase.SetMarker | internal/locker/data/marker.go:52-68 | the SET of a granted call, with the TTL of an earlier clock reading |
| UseCases.LockerUseCase.Release | internal/locker/biz/usecase.go:55-70 | the marker goes only after the table has released and the reply has arrived, everybody else acting in between; a lost reply is an error that leaves the marker; a refused or failed call writes nothing |
| UseCases.OrderUseCase.ApplyLazyOverdue | internal/order/biz/usecase.go:154-167 | judged late at one reading and marked at another, with others in between; a failed mark leaves the order shown as read |
| UseCases.OrderUseCase.GetOrder | internal/order/biz/usecase.go:53-63 | with nobody in between, what is returned is what is stored; otherwise an order shown overdue is stored so exactly when it was still in storage at its mark or already marked with the same fee |
| UseCases.OrderUseCase.ListOrders | internal/order/biz/usecase.go:67-76 | each row is shown as a read of it shows it; with nobody in between that is what is stored after the whole loop |
| UseCases.OrderUseCase.OpenDepositDoor | internal/order/biz/usecase.go:88-103 | the door is commanded exactly for a stored order awaiting its parcel; the deposit is judged again on what is stored once the door is open |
| UseCases.OrderUseCase.OpenPickupDoor | internal/order/biz/usecase.go:108-126 | the door is commanded exactly for the statuses that offer it, late or not; the pickup is judged again on what is stored once the door is open |
| UseCases.OrderUseCase.SettleOverdue | internal/order/biz/usecase.go:140-150 | a late order is marked and settled in one call, with others before each statement; undisturbed it succeeds exactly for an order that is overdue, or late with a mark that works |
| Reclaiming.Reclaimer.RunOnce | internal/locker/biz/reclaimer.go:32-50 | with releases, order steps and other workers acting before each pass and any rows skipped, the drain loop terminates; every pass but the last is a full batch; the total counts each freed cell once; a run that ends well leaves exactly the lapsed rows its last pass had to skip; undisturbed it is one exact sweep at its last reading; with a driver that refuses its UPDATEs it frees nothing |
| Reclaiming.Reclaimer.RunPass | internal/locker/biz/reclaimer.go:35-41 | one pass: the others, then its transaction with its fault |
| Reclaiming.OthersAddNoLocks | internal/locker/data/repository.go:89-104 | nothing but a reservation adds a reservation-held cell, so full batches use them up |
| Reclaiming.FreedHadLapsed | internal/locker/data/repository.go:168-180 | every freed cell had lapsed at its pass, was not skipped, and is idle without key or expiry |
| Reclaiming.UndisturbedRunIsOneSweep | internal/locker/biz/reclaimer.go:32-50 | with nobody else, passes at any readings free together exactly what has lapsed by the last one, and touch nothing else |
| Reclaiming.SkippedRowIsLeft | internal/locker/data/repository.go:168 | a run from an installation after which a pass with one row skipped reports zero and leaves it lapsed |
| CommandTheorems.StepGrows | internal/device/data/repository.go:206-251 | no step of any caller deletes a command, changes its identity, or writes one that has ended |
| CommandTheorems.TerminalIsFinal | internal/device/data/repository.go:222-251 | once ended, a command never changes again, along every run |
| CommandTheorems.MarkIsFirst | internal/device/data/repository.go:206-220 | a MarkRunning that changes a row is the first to do so for that command |
| CommandTheorems.InvAlways | internal/device/biz/usecase.go:60-177 | the protocol invariant on rows, calls and every caller's stale copy holds in every state of every run |
| CommandTheorems.AtMostOnce | internal/device/biz/usecase.go:60-177 | for every key and interleaving: gateway calls <= attempt count <= 1, and each call was made by the caller whose MarkRunning changed the row, before expiry |
| CommandTheorems.GatewaySeesTheRequest | internal/device/biz/usecase.go:159 | the gateway call carries the device, action and cell of its caller's own request, and a payload with the same text or the same value |
| CommandTheorems.ReturnedEndingIsStored | internal/device/biz/usecase.go:145-186 | an Execute that returns an ended command returns the stored ending, then and forever; without a conflict, of a command with its own request |
| CommandTheorems.ExecuteTerminates | internal/device/biz/usecase.go:60-192 | every step brings its Execute closer to returning, in at most fourteen |
| CommandEndings.EndsAlways | internal/device/biz/usecase.go:130-192 | the invariant behind honest endings holds in every state of every run |
| CommandEndings.EndingsAreHonest | internal/device/biz/usecase.go:159-186 | a gateway ending means exactly one gateway call, PENDING means none, EXPIRED means past the deadline, and code and outcome fit the status |
| CommandAnswers.AnswersDecideWhatIsStored | internal/device/biz/usecase.go:159-172 | in every run, a command ended by the gateway is SUCCEEDED on an answer, TIMED_OUT and retryable on a timeout and FAILED on an error, with the answer's outcome and its code |
| CommandAnswers.AnswersDecideWhatIsReturned | internal/device/biz/usecase.go:172-176 | a caller that called the gateway returns no failure only on an answer, a timeout only on a timeout, a gateway failure only on an error, unless the ending could not be stored; nobody else returns the latter two |
| CommandLaws.DeviceAnswer | internal/device/biz/usecase.go:194-208 | in columns: a device may be commanded exactly if it is online, ACTIVE and heard less than the limit ago; and which refusal otherwise |
| CommandLaws.RequestAnswer | internal/device/biz/usecase.go:221-243 | in columns: a stored command and a request are the same exactly if device, action and cell are equal and the payloads have the same text or the same value |
| CommandLaws.NewRowAnswer | internal/device/biz/usecase.go:95-104 | in columns: the row of a new command, which lasts until the instant asked for, else for the time asked for, else for 60 seconds |
| CommandLaws.InsertAnswer | internal/device/data/repository.go:150-198 | in columns: when the insert writes its row, and which refusal it reports otherwise |
| CommandLaws.MarkAnswer | internal/device/data/repository.go:206-220 | in columns: the compare-and-set changes exactly a pending, unexpired row with the number and fewer than three attempts, and hits if it changed one |
| CommandLaws.CompleteAnswer | internal/device/data/repository.go:222-251 | in columns: an ending is written to a running row with the number, an expiry to a pending one too, and to no other |
| CommandLaws.FaultsAreReported | internal/device/biz/usecase.go:60-192 | a statement that fails or loses its reply ends its call with an error |
| CommandLaws.DeviceReadAnswer | internal/device/biz/usecase.go:84-143 | either reading of the device, before a command is made and before it is run, judges the row as read and reports a missing device as such |
| CommandLaws.LosingMark | internal/device/biz/usecase.go:149-157 | a compare-and-set that changes nothing leads to the expiry, or reports too many attempts or busy |
| CommandFates.RunningCanEnd | internal/device/biz/usecase.go:71-80 | a RUNNING command can still end if and only if a caller that may write its ending still holds it |
| CommandFates.AbandonedForever | internal/device/biz/usecase.go:71-73 | a RUNNING command nobody holds stays as it is through every run, whoever asks for it again |
| CommandFates.LostReplyAbandons | internal/device/biz/usecase.go:145-148 | when MarkRunning takes effect, its reply is lost and nobody else holds the command, it is abandoned |
| CommandFates.AbandonedIsReachable | internal/device/biz/usecase.go:145-148 | a run of one caller from an empty table that abandons its command |
| CommandFates.LateExecuteSettles | internal/device/biz/usecase.go:67-84 | an Execute with the request of an expired command, begun after the expiry, leaves it not PENDING whenever it returns without a lost statement, whatever others do |
| CommandFates.LateExecuteExpires | internal/device/biz/usecase.go:77-79 | undisturbed, it returns a PENDING command as EXPIRED in three steps |
| Devices.CommandRepository.InsertCommand | internal/device/data/repository.go:150-198 | invalid payload, failure, missing device and duplicate key or number write nothing; a lost reply hides a written row |
| Devices.CommandRepository.MarkRunning | internal/device/data/repository.go:206-220 | reports true exactly when its statement changed a row and the reply arrived |
| Devices.CommandRepository.CompleteCommand | internal/device/data/repository.go:222-251 | ends a running command, or a pending one by expiry; anything else is not running |
| Devices.CommandUseCase.Execute | internal/device/biz/usecase.go:60-84 | the call as coded, with others acting and time passing before each of its steps, is the protocol's run of that caller, in every field of rows, history, other callers and result |
| Devices.CommandUseCase.Decide | internal/device/biz/usecase.go:77-80 | the same, from the expiry check of a command found on |
| Devices.CommandUseCase.Create | internal/device/biz/usecase.go:85-104 | the same, from the reading of the device on |
| Devices.CommandUseCase.CheckAndInsert | internal/device/biz/usecase.go:92-104 | the same, from the device check on, at a clock reading of its own |
| Devices.CommandUseCase.InsertAndRun | internal/device/biz/usecase.go:105-123 | the same, from the insert on |
| Devices.CommandUseCase.ReadBackAndRun | internal/device/data/repository.go:199-203 | the same, from the read-back of the new row on |
| Devices.CommandUseCase.Reread | internal/device/biz/usecase.go:107-117 | the same, after losing the key to another caller |
| Devices.CommandUseCase.Run | internal/device/biz/usecase.go:130-144 | the same, from the expiry check of a run on; the device is judged at a later reading |
| Devices.CommandUseCase.CheckAndMark | internal/device/biz/usecase.go:142-144 | the same, from the device check of a run on |
| Devices.CommandUseCase.MarkAndCall | internal/device/biz/usecase.go:145-158 | the same, from the compare-and-set on |
| Devices.CommandUseCase.CallGateway | internal/device/biz/usecase.go:159-177 | the same, from the gateway call on |
| Devices.CommandUseCase.Finish | internal/device/biz/usecase.go:172-176 | the same, from the persisting of the ending on |
| Devices.CommandUseCase.Expire | internal/device/biz/usecase.go:179-186 | the same, for an expiry |
| Devices.LoneCallerExecutesOnce | internal/device/biz/usecase.go:85-177 | with a new key, a device ready when judged, time left when marked and no statement failing, one call is made with what was asked for, and the stored row, which is returned, is that command with the ending the gateway gave it: succeeded, timed out or failed |
| Devices.RepeatIsReplayed | internal/device/biz/usecase.go:67-73 | whatever happened before its lookup, a repeated request gets the command stored then; the call writes nothing and calls nothing |
| Devices.UnreadyDeviceIsRefused | internal/device/biz/usecase.go:85-94 | with a new key and a device that is missing or may not be commanded nothing is written and nothing called, and the caller reports why |
| Devices.BornExpired | internal/device/biz/usecase.go:95-122 | a new command whose deadline has passed is stored and expired at once, and the gateway is not called |
| Devices.LoneRefusal | internal/device/biz/usecase.go:138-144 | a pending command whose device may not be commanded stays as it is, and the caller reports why |
| Devices.PendingIsExecuted | internal/device/biz/usecase.go:74-80 | a pending command in time is run to its end by whoever asks for the same again, also after losing the key to its owner |
| Devices.OtherRequestConflicts | internal/device/biz/usecase.go:68-70 | the same key with another request is a conflict, and nothing is written or called |
| RaceTheorems.StepRefines | internal/locker/data/repository.go:63-130 | under row locks, each statement of the race amounts to one atomic action on the tables or to none |
| RaceTheorems.InvAlways | internal/locker/data/repository.go:63-130 | exclusive row locks, locked rows as selected, pending keys distinct and the joint invariant hold throughout every race |
| RaceTheorems.RaceRefinesRuns | internal/locker/data/repository.go:54-130 | every interleaving, commits with lost replies included, leaves the tables where some run of atomic actions leaves them |
| RaceTheorems.ReturnIsLease | internal/locker/data/repository.go:104-129 | whichever branch a reservation succeeds in, what it returns is a lease in the table and what the key then finds |
| RaceTheorems.ConcurrentReservesAgree | migrations/mysql/000001_site_device.up.sql:66 | concurrent reservations with one key return the same cell and expiry, with different keys never the same cell, while the lease runs unreleased |
| RaceTheorems.LostCommitIsReplayed | internal/locker/data/repository.go:117-125 | a commit that took effect and lost its reply is reported as an error, yet while its lease runs unreleased a retry with the key returns exactly it and no second cell carries the key |
| RaceTheorems.CollisionReturnsTheOwner | internal/locker/data/repository.go:104-112 | an UPDATE that collides on the key writes nothing, and its call returns the reservation of the row that carries the key |
| RaceTheorems.UncommittedKeyIsWaitedFor | migrations/mysql/000001_site_device.up.sql:66 | a locking lookup of a key, and an UPDATE that would write it, wait for the call that has written it and not committed |
| RaceLaws.SelectAnswer | internal/locker/data/repository.go:85-100 | in columns: a locking SELECT goes on with a grantable row no other call has locked through its cell, device or site; the skipping pass is empty-handed if there is none, the waiting one only if no row is grantable |
| RaceLaws.LookupAnswer | internal/locker/data/repository.go:54-100 | in columns: a row with the key ends the call with its reservation; without one the skipping pass comes first, then the waiting one, then the refusal |
| RaceLaws.FaultAnswer | internal/locker/data/repository.go:91-125 | a failed statement ends the call as unavailable, except that a failed second look counts as not found and a failed write that says "duplicate" looks for the key's owner |
| RaceTheorems.ReserveTerminates | internal/locker/data/repository.go:91-100 | every statement waits or brings its call strictly closer to returning; the two-pass recursion ends |
| RaceTheorems.SomeoneMoves | internal/locker/data/repository.go:85-90 | no deadlock on cell, device and site row locks and pending keys: while a call is open, some call can go on |
| RaceTheorems.AloneIsReserveAvailable | internal/locker/data/repository.go:54-130 | a call that meets nobody does exactly what the reservation transaction says |
| Fees.RentIsRateTimesStartedHours | internal/order/biz/model.go:142-156 | for every int32 duration the rent is the rate times the fewest hours that cover it, without overflow |
| Fees.RentIsMonotone | internal/order/biz/model.go:142-156 | a longer rental never costs less |
| Fees.SplittingARental | internal/order/biz/model.go:142-156 | fee(a+b) <= fee(a) + fee(b) <= fee(a+b) + rate |
| Fees.OverdueFeeExactness | internal/order/biz/model.go:161-172 | the overdue fee is the rate times the hours begun (at least one) if and only if the lateness is at most 2^63 ns less one hour; beyond that it is one hour |
| Fees.OverdueFeePositive | internal/order/biz/model.go:161-172 | the overdue fee is always positive |
| Fees.DeadlineExactness | internal/order/data/repository.go:215 | the deadline is deposit plus rental time if and only if the rental is at most 153,722,867 minutes |
| Fees.DeadlineCanPrecedeDeposit | internal/order/data/repository.go:215 | one minute more than that puts the deadline before the deposit |
| Fees.RentPriceList | internal/order/biz/model.go:142-156 | in numbers: 300, 500 and 800 fen for each hour begun, for every int32 duration |
| Fees.OverduePriceList | internal/order/biz/model.go:161-172 | in numbers: the same prices for each hour begun after the deadline, one hour at least, and one hour beyond 9,223,368,436,854,775,808 ns |
| Printing.Itoa | internal/order/biz/usecase.go:199-219 | returns the decimal form of every int64 but the smallest, which gives a bare sign; every buffer write is in bounds |
| Printing.FillDigits | internal/order/biz/usecase.go:207-213 | the end of the buffer holds exactly the digits, leaving room for a sign |
| Printing.ItoaParsesBack | internal/order/biz/usecase.go:199-219 | the text reads back to its number, without leading zeros, if and only if it is not the smallest int64 |
| Printing.FormatFenParsesBack | frontend/packages/domain-ui/src/money.ts:12-19 | the text of an amount reads back as the amount if and only if the double division does not misround, which its size and its fen decide; below 2^53 it never does |
| Printing.QuotientIsNearestDouble | frontend/packages/domain-ui/src/money.ts:16 | from one yuan up, at every size, no double is nearer to the quotient than the one whose floor is printed |
| Printing.SafeAmounts | frontend/packages/domain-ui/src/money.ts:16 | every amount below 2^53 fen, and every integer double below 100 * 2^49 + 96, has its exact yuan |
| Printing.SafeAmountsParseBack | frontend/packages/domain-ui/src/money.ts:12-19 | every integer amount of magnitude below 2^53 reads back from its text |
| Printing.FirstMisreadAmount | frontend/packages/domain-ui/src/money.ts:16 | 100 * 2^49 + 96 fen is an integer double and gets one yuan too many, so the bound is sharp |
| Printing.LargeAmountIsMisread | frontend/packages/domain-ui/src/money.ts:12-19 | 2^60 fen read back as 100 fen more |
| Printing.RoundedQuotientHasTheSameFloor | frontend/packages/domain-ui/src/money.ts:16 | below 2^53 any nearest rounding of the quotient gives the exact number of yuan, which is the number printed |
| Printing.DecimalExamples | internal/order/biz/usecase.go:199-219 | decimal texts of three numbers |
| Printing.FormatFenExamples | frontend/packages/domain-ui/src/money.ts:9-19 | the texts of 1250, -1205 and 7 fen |
| CommandNumbers.CommandNoFitsColumn | internal/device/biz/usecase.go:210-215 | a command number has 26 characters if and only if the sequence is below 2^24 |
| CommandNumbers.CommandNosOrderAsIssued | internal/device/biz/usecase.go:210-215 | command numbers are equal only for equal (time, sequence) and sort as those pairs do |
| CommandNumbers.CommandNoExamples | internal/device/biz/usecase.go:214 | twenty decimal and at least six lower-case hexadecimal digits, zero-padded, at three inputs |
| CommandNumbers.IssuedNumbersDiffer | internal/device/biz/usecase.go:210-215 | any two numbers one process issues before its counter wraps differ, whatever its clock reads; while they fit their column, a later one at a reading not earlier sorts later |
| CommandNumbers.Numbering.NextCommandNo | internal/device/biz/usecase.go:210-215 | a number is none of those its process issued before, until the 64-bit counter wraps, and while numbers fit their column it sorts after all issued at earlier or equal readings |

## Left out

* Services, generated protobuf, error mapping, authentication, configuration, readiness and the frontend pages: wiring around the modelled operations. Of the services only the development gate in front of payment and settlement is modelled.
* SQL text, JSON, SHA-256, collation and DATETIME(6) rounding: a statement is an atomic step, payload equality a canonical parse, key comparison plain equality, time an integer.
* Deadlocks and lock timeouts the database resolves by failing a statement, gap locks among them: in runs they are failed transactions, in the race a statement that fails.
* Commits whose outcome the caller never learns are modelled for device commands, reservations and releases; for the order transactions a caller's error and an applied transaction are separate matters.
* The columns order_no, user_id, names, updated_at, trace_id and idempotency_key of orders and logs, and the order of listed orders, which the query decides.
* The door gateway and the device simulator: a parameter says whether the door opens, and the gateway may answer anything. The pickup door may be commanded for an order the repository then refuses.
* Bounding boxes, distances, candidate caching and the nearby search of the site domain: floating point, and only easy members besides.
* The ticker around the reclaimer, and a batch size of zero, which would never end: `RunOnce` requires a positive batch, as the constructor of the code fixes it at 100.
* The 64-bit wrap of a cell's version: versions are unbounded numbers.
* LeaseTheorems.StepInv: takes the repository's `Release`, a lookup followed by a guarded UPDATE, as one step; the UPDATE repeats every condition of the lookup, so only the choice between two errors could differ.
* RaceTheorems.SomeoneMoves: is about the locks on rows and keys; a deadlock the database finds among gap locks ends with a failing statement, which is one of the inputs of a step.
* Marker.CoherentAlways: takes a use-case call, table and Redis together, as one step; MarkerRace takes the calls apart.
* Marker.MarkerAgreesWithTable: the same.
* Printing.FormatFenParsesBack: how a host prints an integer above 2^53 is a parameter, and non-integer amounts, which the code rejects, are not in the model.
* UseCases.LockerUseCase.AllocateRow: an allocation whose statements interleave with others enters as what it comes down to; the statements themselves are the subject of RaceTheorems.
* Reclaiming.Reclaimer.RunOnce: nobody reserves during a run; against reservations that lapse as fast as they are reclaimed the loop need not end.
* CommandFates.RunningCanEnd: a caller that has died is one that takes no further step, so that it can end a command means only that it might.
* FIFO or fairness of waiting transactions, and the 5-second timeout of the terminal write, which is a failed step.
