# Verified model of the mlai-trade trading engine and its service layer

This project models the stateful algorithms of `mlai-trade` and proves what they promise. Each Dafny
module covers one component:

| module | component |
|---|---|
| `LotBook`, `WashSale`, `BuyFilter`, `Compliance` | FIFO lots, wash-sale windows, candidate selection |
| `Positions`, `PositionStore`, `Lifecycle` | position rows, reconciliation and recovery, all runs of the steps |
| `ExitConfirmation` | stop-loss and take-profit confirmation of one position |
| `CashBuying` | cash-only guard and buying loop |
| `ProviderSync` | paginated order and fill synchronisation |
| `CivilCalendar`, `MarketCalendar` | Easter, exchange holidays, market-day and business-day arithmetic |
| `Admission`, `ConnectionCap`, `RateLimiter` | request permits, connection cap, rate limit |
| `DnsCodec`, `HttpsRdata` | DNS names and HTTPS records in wire format |
| `FixedBatch` | fixed-batch inference driver |
| `LogStore` | JSON-lines logs with rotation |
| `ProviderOrders`, `Common` | order status; options, results, counting |

Where the program updates state step by step, the module has a class or a method with a loop, proved
against a specification function, and the promises are proved about that function. Concurrent parts
are state machines whose steps are the single atomic operations, run under an arbitrary schedule.

Conventions: money, prices and percentages are reals; share quantities of the lot book are positive
whole units, so the source's tests against 0.000001 become tests against zero; dates are day numbers or
civil dates; timestamps are integers and text that does not parse is `None`; the broker, quotes and
clocks are arbitrary inputs. Symbols are taken as already trimmed and upper-cased.

## What the code does where a plain statement of its promise would be wrong

Each point is a lemma: a failing case or the exact condition.

- **Rerun of reconciliation.** Fills whose timestamp does not parse are dated "now", so a rerun inserts
  them again. A rerun adds nothing if and only if all loss sales are dated
  (`WashSale.RerunIsIdempotentIffDated`).
- **Hidden loss sale.** The duplicate test ignores status and window end, so an existing row of a sale
  that does not block hides the sale: for any table, recording a sale makes it block exactly if no row of
  it exists and its window covers the day, or one exists and blocks
  (`WashSale.RecordedSaleBlocksExactlyWhen`). No write of the program leaves such a row
  (`WashSale.EveryTableCoversFloor`), and that is what the guarantee rests on.
- **Purged accounts.** Purging a stale account deletes its window rows, although its loss sales belong to
  the whole paper or real universe. Another account stays blocked if and only if a row of an account that
  was not purged blocks it (`WashSale.PurgeKeepsBlockExactlyWhen`).
- **Reconciled share counts.** The comparison tolerance keeps a row at two shares when the broker holds a
  hair less than two (`Positions.ToleranceKeepsTwoShares`); the count becomes exact if and only if the
  quantity is not in that band below the row's count (`Positions.ReconciledCountIsExactWhen`).
- **Shrinking positions.** Shares are conserved exactly when a provider sell explains the decrease;
  otherwise they leave the table (`Positions.ShrinkConservesShares`, `ShrinkWithoutExitLosesShares`).
- **One active exit order per row.** It holds while submissions report an order identifier and the sync
  that follows stores the order; a second exit passes the guard exactly when one of the two is missing
  (`Lifecycle.SecondExitAllowedExactlyWhen`).
- **One active exit order per symbol.** A row that is closed by reconciliation or untracked leaves its exit
  order active (`Lifecycle.EndedRowLeavesExitWorking`), and a fresh row does not know it. A step keeps the
  symbol safe if and only if it does not open, by buying, tracking or recovering, a symbol that still has
  an active exit order (`Lifecycle.StepIsSafeExactlyWhen`); otherwise the fresh row may exit as well
  (`Lifecycle.OpeningWhileExitWorksAllowsSecond`). Recovery after a snapshot without the symbol is one way
  there (`Lifecycle.CloseThenRecoverForgetsActiveExit`), untrack then track another.
- **Equity bound.** New orders never break it: everything committed stays within equity if and only if it
  was within equity before buying (`CashBuying.BuyingPhase`). An order with status done-for-day stays
  reserved, because the guard's list of final statuses leaves it out.
- **Pagination.** A sync is complete if and only if no run of equal cursors straddles the end of a full
  page (`ProviderSync.CompleteExactlyWithoutTies`).
- **Stale orders.** An incremental sync does not see changes of orders submitted more than a day before the
  latest one: it ends like a full sync if and only if no record at or before its start cursor has changed
  since it was stored (`ProviderSync.IncrementalEqualsFullExactlyWhen`). An old order filled later stays
  "new" locally (`ProviderSync.OldOrderStaysStale`). Fills never change, so for them it always holds.
- **Business days.** Adding a then b equals adding a + b if and only if the two do not have opposite signs
  (`MarketCalendar.AdditionComposesExactlyWhen`).
- **Retry hint.** Waiting as told expires the rejecting window unless the same check opened it, which
  needs a limit of zero (`RateLimiter.WaitingExpiresWindowExactlyWhen`); the configuration clamps the
  limit to at least one (`src/config.rs:650`).
- **Connection cap.** A connection is rejected exactly when admitted connections and rejections not yet
  taken back fill the cap (`ConnectionCap.RejectsExactlyWhen`). With one accept loop that is the cap itself;
  with more, a schedule from the start rejects below it (`ConnectionCap.MoreLoopsCanRejectBelowCap`).
- **Legacy logs.** Text that is already valid JSON but lacks its last line break is not rewritten, and an
  append is glued to its last line. That is the only way a run loses an event: every run from any store
  conserves everything if and only if it does not append to such a text before rotating it away
  (`LogStore.EveryRunConservesExactlyUnlessGlued`).

## Model

| member | source | states |
|---|---|---|
| `Compliance.ForwardBlockDays` | src/compliance.rs:185-205 | a blocking country blocks at least 30 days whatever buffer is configured, even a negative one; the others block none |
| `Compliance.BlockDaysByCountry` | src/compliance.rs:74-205 | the days each country blocks, for every configured buffer: 30 plus a buffer of at least one in the United States, 30 plus any positive buffer in the United Kingdom, none in Brazil and Singapore |
| `LotBook.MatchQueue` | src/auto.rs:2976-2990 | the matching loop over one symbol's queue leaves the lots, loss and unmatched quantity of the recursive matching |
| `LotBook.LotQueues.PushBack` | src/auto.rs:2965-2970 | a buy appends one lot to its symbol's queue and touches no other queue |
| `LotBook.LotQueues.MatchSell` | src/auto.rs:2971-2990 | a sell replaces only its symbol's queue, by what the matching leaves |
| `LotBook.MatchConsumesOldestShares` | src/auto.rs:2976-2990 | written out share by share, a sell of n takes exactly the oldest min(n, available) shares, its loss is the sum of max(0, buy - sell) over them, and the rest is unmatched |
| `LotBook.LotsRefineLedger` | src/auto.rs:2961-3014 | for every history and symbol the open lots are the unconsumed shares of a share-by-share ledger that knows no lots, and all sell outcomes have the ledger's losses and misses |
| `LotBook.LedgerTotals` | src/auto.rs:2961-3014 | in the ledger every bought share appears once, sold = matched + unmatched, and unmatched shares are those of the sell outcomes |
| `LotBook.SharesAreConserved` | src/auto.rs:2961-3014 | for every history and symbol, bought = open lots + matched and sold = matched + unmatched |
| `LotBook.StepSeesOneSymbol` | src/auto.rs:2963-3013 | a fill changes only its own symbol's queue and outcomes, and only by what that queue holds |
| `LotBook.RunDependsOnOwnFillsOnly` | src/auto.rs:2961-3014 | a symbol's lots and sell outcomes are those of replaying its own fills alone |
| `LotBook.InterleavingIsIrrelevant` | src/auto.rs:2961-3014 | two histories with the same fills of a symbol agree on it however the other symbols interleave |
| `WashSale.WashSaleTracker.InsertReconciled` | src/auto.rs:2886-2945 | a window row is added exactly if the country blocks and no row of the same universe, symbol, second and price exists; nothing else changes |
| `WashSale.WashSaleTracker.RecordWashSale` | src/auto.rs:6031-6083 | closing at a loss under a blocking country appends one active row with its full window, and nothing otherwise |
| `WashSale.WashSaleTracker.RecordOutcome` | src/auto.rs:2972-3009 | counts one sell outcome and records it if the loss exceeds the threshold; inserted + existing - losses is unchanged |
| `WashSale.WashSaleTracker.ReplayFill` | src/auto.rs:2963-3013 | one turn of the replay keeps queues, table and summary equal to those of the history so far |
| `WashSale.WashSaleTracker.ReconcileTaxUniverse` | src/auto.rs:2948-3017 | the replay leaves the table of the specification; the summary counts every sell, loss sale and unmatched share, and inserted + existing = loss sales |
| `WashSale.FloorIsKept` | src/auto.rs:2904-2943 | reconciling keeps all rows active with windows of at least 30 days |
| `WashSale.EveryTableCoversFloor` | src/auto.rs:6042-6083 | over any sequence of replays, closings, sales by hand and purges, with any countries and buffers on the way, every row is active and covers at least 30 days from its sale |
| `WashSale.RowsStayUntilPurged` | src/main.rs:3763-3794 | a row stays as it is until its own account is purged, whatever else is written |
| `WashSale.PurgeKeepsBlockExactlyWhen` | src/main.rs:3763-3794 | after a purge a symbol is blocked if and only if a row of another account blocks it |
| `WashSale.LossSaleIsRecorded` | src/auto.rs:2991-3009 | after a replay every loss sale has a row, inserted now or found |
| `WashSale.LossSaleIsInsertedExactlyWhen` | src/auto.rs:2857-2945 | a replayed loss sale gets a row of its own unless one of the same universe, symbol and second is there at nearly the same price; the row carries the loss and the window |
| `WashSale.DirectLossIsRecordedExactlyWhen` | src/auto.rs:6031-6083 | closing below the entry price under a blocking country, and only that, adds a row with that loss and window |
| `WashSale.LossSaleBlocksSymbol` | src/auto.rs:5823-5847 | over any history of writes, each loss sale of a reconciled universe whose row is not purged blocks its symbol for all accounts of it until at least 30 days after the sale |
| `WashSale.BlockedSymbolHasCause` | src/auto.rs:5823-5847 | the converse: over any history of writes a blocked symbol was itself sold at a loss in that universe, by a write under a blocking country whose window covers the day |
| `WashSale.WithoutPurgeEverySaleKeepsItsRow` | src/auto.rs:2990-3009 | while no account of the universe is purged, every reconciled loss sale keeps such a row |
| `WashSale.RerunInsertsNothing` | src/auto.rs:2857-2910 | a rerun on the same fills with parseable timestamps changes no row, at any later time |
| `WashSale.RerunIsIdempotentIffDated` | src/auto.rs:2813-2818 | at a second no row carries yet, a rerun is idempotent if and only if every loss sale's timestamp parses |
| `WashSale.RecordedSaleBlocksExactlyWhen` | src/auto.rs:2857-2945 | for any table: recording a sale makes it block exactly if it has no row yet and its window covers the day, or an existing row of it blocks |
| `BuyFilter.PassesFilters` | src/auto.rs:6197-6238 | the filters, tried one after the other, accept exactly the eligible predictions |
| `BuyFilter.FindBuyCandidates` | src/auto.rs:6146-6253 | the scan with its early stop returns exactly the first 50 eligible predictions, or all if there are fewer, in score order |
| `BuyFilter.EligibleRowsAreEligible` | src/auto.rs:6195-6250 | a prediction is selected if and only if it was predicted and passes every filter |
| `BuyFilter.LossSaleIsNeverACandidate` | src/auto.rs:6195-6250 | end to end: no account of a universe gets a symbol sold at a loss as a candidate from the sale to at least 30 days later, while the sale keeps its row |
| `BuyFilter.OtherFiltersMatch` | src/auto.rs:6197-6238 | a prediction is eligible exactly if each other filter, told one by one, lets it pass and no window blocks it |
| `BuyFilter.SymbolWithoutLossIsEligible` | src/auto.rs:6195-6250 | end to end the other way: a predicted symbol that passes the other filters and has no covering loss of its own is eligible, whatever else was sold at a loss |
| `ExitConfirmation.EvaluateStop` | src/auto.rs:4117-4194 | a breaching cycle: next state, reason, rule, and the cycles and minutes left, which are never negative where it waits |
| `ExitConfirmation.EvaluateTake` | src/auto.rs:4195-4309 | a cycle above the stop: next state, reason, rule, and what is left to wait for |
| `ExitConfirmation.TrackedPosition.RunCycle` | src/auto.rs:4312-4338 | evaluating and persisting a cycle keeps the stored state equal to the replay of all cycles seen |
| `ExitConfirmation.StateIsFunctionOfHistory` | src/auto.rs:4101-4309 | after any history the stop counter and time are the trailing run of breaches and its start, the take-profit ones those of the history without its breaches, and the peak is the maximum over all take-profit cycles |
| `ExitConfirmation.StopExitsExactlyWhen` | src/auto.rs:4117-4194 | when and why a breaching cycle exits, in terms of the unbroken run of breaches in the history |
| `ExitConfirmation.TakeExitsExactlyWhen` | src/auto.rs:4195-4273 | when and why another cycle exits, in terms of the history without breaches: immediate, trailing give-back or confirmed run |
| `ExitConfirmation.EmergencyInPrices` | src/auto.rs:4115-4137 | an emergency is a fall by the configured percentage of the entry price, told in prices |
| `ExitConfirmation.PeakPriceIsHighest` | src/auto.rs:4202-4214 | the stored peak is the highest price of all take-profit cycles outside breaches; there is none exactly without such a cycle |
| `ExitConfirmation.StopExitsInPrices` | src/auto.rs:4117-4194 | the stop decision and its reason from prices, seconds and the run of cycles at or under the stop alone |
| `ExitConfirmation.TakeExitsInPrices` | src/auto.rs:4195-4273 | the take-profit decision and its reason likewise; trailing fires exactly if some take-profit price stood the configured percentage of the entry price above this one |
| `PositionStore.Store.InsertBuy` | src/auto.rs:6922-7019 | a buy appends one open row with its cost unless the symbol is already open |
| `PositionStore.Store.Track` | src/auto.rs:3413-3534 | adopting a position reports the first applicable error or appends one open row, and sets the override |
| `PositionStore.Store.Untrack` | src/auto.rs:3571-3612 | releasing turns exactly the symbol's open rows to manual and sets the override |
| `PositionStore.Store.MarkExit` | src/auto.rs:6698-6715 | submitting an exit marks the row and leaves it open with its shares |
| `PositionStore.Store.SubmitExits` | src/auto.rs:6475-6743 | the sell loop over the open positions leaves the rows of the specification |
| `PositionStore.Store.ReconcileRow` | src/auto.rs:4753-5067 | one open row against the snapshot: closed, split and resized, or kept |
| `PositionStore.Store.Reconcile` | src/auto.rs:4736-5070 | the loop updates every open row of the account in place and appends the closed parts |
| `PositionStore.Store.RecoverSymbol` | src/auto.rs:4623-4730 | one symbol is re-opened exactly if it is recoverable, with the broker's shares and price |
| `PositionStore.Store.Recover` | src/auto.rs:4605-4733 | in whatever order the symbols come, exactly the recoverable ones are re-opened, once each |
| `PositionStore.EachRowExitsAtMostOnce` | src/auto.rs:6475-6743 | in one sell loop a row is changed by its own attempt only, decided on the row as it was found |
| `PositionStore.AttemptSubmitsExactlyWhen` | src/auto.rs:6591-6715 | an exit is submitted exactly if a rule fired on an open row without a working exit order, nothing blocks it and the broker answers; only that row changes, and it stays open with its shares |
| `PositionStore.ExitIsActiveExactlyWhen` | src/auto.rs:4442-4479 | of a stored exit order only the working status makes it active |
| `PositionStore.TracksExactlyWhen` | src/auto.rs:3413-3483 | every outcome of tracking, each told by its exact condition |
| `PositionStore.NewRowsCarry` | src/auto.rs:3485-3534 | what an adopted and a bought row carry, field by field |
| `PositionStore.BuyKeepsConsistent` | src/auto.rs:6922-7019 | a buy keeps at most one open row per account and symbol, each with its true cost |
| `PositionStore.TrackKeepsConsistent` | src/auto.rs:3463-3534 | so does tracking, whatever the snapshot says |
| `PositionStore.UntrackKeepsConsistent` | src/auto.rs:3590-3602 | so does untracking, after which the symbol has no open row |
| `Positions.ReconcileKeepsConsistent` | src/auto.rs:4736-5070 | so does reconciliation, for any snapshot |
| `Positions.RecoveryKeepsConsistent` | src/auto.rs:4605-4733 | so does recovery |
| `Positions.PassReachesBroker` | src/auto.rs:4736-5070 | after reconcile and recover, every open row agrees with the broker or is an untouched row waiting for its entry order |
| `Positions.ReconciledCountIsExactWhen` | src/auto.rs:4887-5050 | told before the pass: reconciling a held row ends with exactly the whole shares held if and only if the quantity is not in the tolerance band just below its count |
| `Positions.ToleranceKeepsTwoShares` | src/auto.rs:4887-4889 | concrete case: a quantity one tolerance below two keeps two shares |
| `Positions.PassOpensRecoverable` | src/auto.rs:4619-4642 | every held symbol with a whole share, a usable closed auto seed and no untrack is open after the pass |
| `Positions.HeldAutoSymbolIsOpenAfterPass` | src/auto.rs:4605-4733 | a symbol held with at least one share, with a closed auto row, a usable price and no override to manual, is open after the pass |
| `Positions.ManualSymbolIsNotRecovered` | src/auto.rs:4535-4552 | a symbol whose override says manual is open after a recovery exactly if it was before |
| `Positions.SeedIsLatestClosedAutoRow` | src/auto.rs:4554-4603 | the seed is the closed auto row with the latest entry, the later row among equals; none only if there is none |
| `Positions.RecoveredRowMatchesBroker` | src/auto.rs:4628-4730 | a recovered row carries the whole shares held, the broker's price if there is one, the seed's entry and no exit order |
| `Positions.ClosedInPassStaysClosed` | src/auto.rs:4605-4733 | nothing closed in a pass is re-opened in it |
| `Positions.ShrinkConservesShares` | src/auto.rs:4887-5018 | a downward adjustment appends a closed part exactly if there is an exit fill, and then closed + open = previous, in shares and in cost |
| `Positions.ShrinkWithoutExitLosesShares` | src/auto.rs:4889-4980 | without an exit fill the missing shares leave the table |
| `Positions.RowIsTreatedBy` | src/auto.rs:4753-5067 | when an open row is closed, kept or resized to the whole shares, told from the broker's quantity |
| `Positions.ClosedRowRecords` | src/auto.rs:4783-4831 | what closing records, with and without an exit fill |
| `Positions.SplitRowRecords` | src/auto.rs:4904-4942 | the closed part records the exit fill and the profit on exactly the shares sold |
| `Positions.EntryIsPendingExactlyWhen` | src/auto.rs:4482-4528 | an entry order is pending if it is unknown, or neither ended without a fill nor is filled completely |
| `Positions.ProfitFollowsPrice` | src/auto.rs:4798-4798 | a sale above the entry price is a profit and below it a loss, and each share adds the difference |
| `Positions.CombinedOrigin` | src/origin.rs:68-79 | origins combine symmetrically: unknown yields, equal ones stay, different ones are mixed |
| `Positions.NothingLeftToRecover` | src/auto.rs:4605-4733 | after recovery no symbol is recoverable any more |
| `Positions.SecondPassChangesNothing` | src/auto.rs:4605-5070 | reconcile then recover is a fixpoint: a second pass on the same snapshot changes no row |
| `Lifecycle.RunsStayConsistent` | src/auto.rs:4605-5070 | over every run of all steps against an adversarial broker: at most one open row per account and symbol, with cost = price times shares |
| `Lifecycle.OnlyReconcileOrUntrackEndsARow` | src/auto.rs:4811-4830 | a row leaves "open" if and only if reconciliation closes it or untrack releases it, never by an exit submission, and never comes back |
| `Lifecycle.ReleasedSymbolIsNotRecovered` | src/auto.rs:4623-4627 | over every run, once a symbol was released no recovery opens it before it is tracked again |
| `Lifecycle.TrackingSetsOverride` | src/auto.rs:3463-3534 | tracking a symbol the broker holds at a known price puts it, and only it, under auto rules |
| `Lifecycle.MayExitMeansNoneActive` | src/auto.rs:4442-4479 | when the guard lets an exit through, no earlier exit order of the row is active at the broker |
| `Lifecycle.NeverTwoActiveExits` | src/auto.rs:6591-6618 | over every run whose submissions are reported and stored, no row ever has two active exit orders, however stale other snapshots get |
| `Lifecycle.NeverTwoActiveExitsPerSymbol` | src/auto.rs:6591-6618 | over every such run that opens no symbol while an exit order of an earlier row of it is active, no account and symbol ever has two active exit orders |
| `Lifecycle.StepIsSafeExactlyWhen` | src/auto.rs:4619-4731 | from a safe world a healthy step leads to a safe world if and only if it opens no symbol with an active exit order, which can be told before the step |
| `Lifecycle.OpeningWhileExitWorksAllowsSecond` | src/auto.rs:4442-4479 | the converse: such an opening gives a fresh row that may exit, and one more healthy submission makes two active exit orders of the symbol |
| `Lifecycle.EndedRowLeavesExitWorking` | src/auto.rs:4811-4830 | a row that is closed or released while its exit order is active leaves the order active and the symbol without an open row |
| `Lifecycle.CloseThenRecoverForgetsActiveExit` | src/auto.rs:4605-4733 | a close on a snapshot without the symbol and a recovery on a later one give an open row that may exit beside an active exit order |
| `Lifecycle.SecondExitAllowedExactlyWhen` | src/auto.rs:4442-4479 | right after a working submission the guard allows another exactly if the identifier or the stored order is missing |
| `Lifecycle.RetrackingForgetsActiveExit` | src/auto.rs:3571-3612 | untrack then track is another such path |
| `CashBuying.PendingValue` | src/auto.rs:3903-3919 | the cash an order still reserves is never negative, is the whole order while unfilled, and nothing once filled |
| `CashBuying.PendingBuyReservations` | src/auto.rs:3922-3962 | the loop sums exactly the orders that are not final |
| `CashBuying.OneMoreOrderReserves` | src/auto.rs:3903-3962 | what one more order adds to the reservations, by status, rest and price |
| `CashBuying.OneMorePositionExposes` | src/auto.rs:3850-3871 | what one more position adds to the exposure, with its fall-backs |
| `CashBuying.DeployableIsTheMost` | src/auto.rs:3965-3986 | an amount is deployable exactly if cash covers it and equity covers it beside reservations and either measure of exposure |
| `CashBuying.CashOnlyGuard` | src/auto.rs:3965-3986 | the guard computes the deployable cash |
| `CashBuying.WholeSharesFillTheBudget` | src/auto.rs:6886-6890 | the share count is the largest whose value fits the position budget |
| `CashBuying.BuyCandidates` | src/auto.rs:6861-7083 | the buying loop with its skips and early stops computes the cycle of the specification |
| `CashBuying.BuyingIsSound` | src/auto.rs:6861-7083 | for all quotes and answers: distinct new symbols, each within budget, no more than the slots, and positive cash stays strictly positive |
| `CashBuying.RunBuysExactlyWhen` | src/auto.rs:6861-7083 | over every run: an attempt reached before the stop is bought if and only if it is accepted, quoted high enough, not open and pays for at least one share within the budget and 95 percent of the cash left, and buying ends exactly at an order above that share |
| `CashBuying.PurchasesAreAcceptedOrders` | src/auto.rs:6970-7081 | the purchases are orders the broker accepted, of increasing attempts, with their symbols and quotes |
| `CashBuying.BuyingPhase` | src/auto.rs:6829-7083 | a whole cycle, whose purchases are accepted orders: it buys nothing when blocked, without cash or without a slot, spends less than deployable cash, keeps exposure + pending + new orders within equity exactly if they were, and never raises the symbol count past the maximum |
| `ProviderSync.LocalStore.LastCursor` | src/auto.rs:1724-1755 | returns the latest cursor among the stored records, or none for an empty store |
| `ProviderSync.LookbackIsOneDay` | src/auto.rs:1711-1755 | a sync starts a day before the latest stored record, to the second, and no stored record lies further ahead |
| `ProviderSync.LocalStore.StorePage` | src/auto.rs:3058-3061 | upserts the page in order up to the first failure |
| `ProviderSync.LocalStore.SyncPage` | src/auto.rs:3052-3072 | one request: the page is the next part of the download and the new cursor leads exactly to the rest |
| `ProviderSync.LocalStore.SyncPages` | src/auto.rs:3050-3074 | the page loop succeeds if and only if the calls that work cover one request per page and one upsert per record; wherever it fails the store holds a prefix of the download |
| `ProviderSync.LocalStore.Sync` | src/auto.rs:3044-3107 | the same from one day before the latest stored record: with n records to fetch it succeeds exactly if n + n / size + 1 calls work, and then, unless a tie straddles a page, every provider record is known |
| `ProviderSync.CompleteExactlyWithoutTies` | src/auto.rs:3050-3074 | the download is everything after the start cursor if and only if no run of equal cursors straddles a full page's end |
| `ProviderSync.EveryCrashPointIsDownClosed` | src/auto.rs:3044-3074 | unless a tie straddles a page, stopping after any upsert leaves no known record with an unknown one before it, whatever versions are stored, and finishing leaves every record known |
| `ProviderSync.EveryRunStaysDownClosed` | src/auto.rs:3044-3107 | over every run in which provider records change, are added and are synced, each sync stopped anywhere, the store stays so |
| `ProviderSync.SyncRefreshesExactlyWhatFollows` | src/auto.rs:2098-2120 | a complete sync makes every record after its start cursor current and leaves every earlier one as it was stored |
| `ProviderSync.IncrementalEqualsFullExactlyWhen` | src/auto.rs:1711-1721 | syncing from latest minus one day ends with the same store as a full sync if and only if no provider record at or before that cursor has changed since it was stored |
| `ProviderSync.IncrementalEqualsFullForFills` | src/auto.rs:3077-3107 | for records that never change, as fills do not, it always does, after any run |
| `ProviderSync.StaleStoreIsReachable` | src/auto.rs:3044-3074 | concrete case: one complete sync and a fill at the provider lead to a store with a stale old order |
| `ProviderSync.OldOrderStaysStale` | src/auto.rs:1711-1721 | from there the incremental sync leaves the order new and the full one stores the fill |
| `ProviderSync.EvolutionKeepsDownClosed` | src/auto.rs:3044-3107 | changed contents of known records and new later records keep the store down-closed |
| `CivilCalendar.Succ` | src/auto.rs:5745-5758 | stepping a date gives the valid date with the next day number |
| `CivilCalendar.DayNumberIsInjective` | src/auto.rs:5745-5758 | valid dates with the same day number are the same date |
| `MarketCalendar.EasterSunday` | src/auto.rs:5643-5659 | the result is a valid date from 22 March to 25 April, for every year from zero |
| `MarketCalendar.EasterIsSundayAfterPaschalMoon` | src/auto.rs:5643-5659 | it is the Sunday strictly after the ecclesiastical full moon, defined on its own, and at most seven days after |
| `MarketCalendar.KnownEasters` | src/auto.rs:5643-5659 | the algorithm gives the known dates of six years, the earliest and the latest possible among them |
| `MarketCalendar.NyseObserved` | src/auto.rs:5663-5670 | the observed date is valid and never on a weekend |
| `MarketCalendar.HolidaysAreWeekdays` | src/auto.rs:5674-5734 | no accepted holiday is on a weekend |
| `MarketCalendar.ObservedNewYearIsHoliday` | src/auto.rs:5676-5683 | New Year's Day is accepted where it is observed, also on the previous 31 December |
| `MarketCalendar.ObservedHolidayIsHoliday` | src/auto.rs:5709-5732 | the other fixed holidays are observed in their own year and accepted |
| `MarketCalendar.FixedHolidaysAreExact` | src/auto.rs:5663-5734 | the fixed part of the test accepts exactly the days on which some fixed date of any year is kept |
| `MarketCalendar.FloatingHolidaysAreExact` | src/auto.rs:5684-5728 | the day ranges accept exactly the n-th and last weekdays of their months, by counting |
| `MarketCalendar.HolidaysAreExactlyTheClosures` | src/auto.rs:5674-5734 | the test accepts exactly the kept fixed dates, the n-th and last weekdays, and the day two before Easter |
| `MarketCalendar.CountMarketDays` | src/auto.rs:5745-5758 | the loop counts the market days after the first date up to and including the second |
| `MarketCalendar.MarketDaysAdd` | src/auto.rs:5745-5758 | counts over adjacent intervals add up |
| `MarketCalendar.MarketDaysAreWeekdaysWithoutClosures` | src/auto.rs:5737-5758 | the count is the weekdays of the interval minus the closures in it |
| `MarketCalendar.StalenessNeverReverts` | src/auto.rs:5763-5791 | predictions once stale stay stale as the date moves on |
| `MarketCalendar.CountBusinessDaysForward` | src/auto.rs:6005-6017 | the loop terminates and steps to the date of the specification |
| `MarketCalendar.LeastDateWithBusinessDays` | src/auto.rs:6005-6017 | the result has exactly the given number of weekdays before and including it, and every earlier date has fewer |
| `MarketCalendar.AdditionComposesExactlyWhen` | src/auto.rs:6005-6017 | adding twice equals adding the sum if and only if the counts do not have opposite signs |
| `Admission.EveryInterleavingRespectsLimits` | src/api.rs:253-345 | under every schedule each counter equals the permits held or in flight and stays within its limit |
| `Admission.QuiescentMeansZero` | src/api.rs:583-593 | a counter is zero exactly when no request holds or is rolling back its permit |
| `Admission.ReleaseNeverUnderflows` | src/api.rs:583-658 | every release finds its permit still counted |
| `Admission.ShortRequestAlone` | src/api.rs:253-266 | without interference a short request is admitted exactly if there is room, and a refusal leaves the counters alone |
| `Admission.LongRequestAlone` | src/api.rs:301-345 | a long request needs room in both counters, and refused by the second it gives the first permit back |
| `Admission.StreamRequestAlone` | src/api.rs:601-610 | a realtime stream is admitted exactly if its counter has room |
| `Admission.ReleasesGiveBack` | src/api.rs:583-658 | dropping, and the roll-back of a refused long request, give back exactly what was taken |
| `ConnectionCap.EveryInterleavingRespectsCap` | src/api.rs:2824-2852 | with any number of accept loops at most 128 connections are admitted; the counter is the admitted ones plus pending roll-backs, never negative |
| `ConnectionCap.AcceptAlone` | src/api.rs:2824-2852 | an undisturbed accept serves and its end gives the count back, or at the cap rejects and leaves everything as it was |
| `ConnectionCap.SingleLoopRejectsExactlyAtCap` | src/api.rs:2824-2837 | one accept loop rejects exactly when 128 connections are being served |
| `ConnectionCap.RejectsExactlyWhen` | src/api.rs:2824-2837 | for any number of loops, in any state a schedule reaches: a loop rejects exactly if the admitted connections and the rejections not yet taken back fill the cap |
| `ConnectionCap.MoreLoopsCanRejectBelowCap` | src/api.rs:4525-4536 | for two or more loops some schedule from the start rejects while fewer than 128 are admitted |
| `RateLimiter.RateState.Check` | src/api.rs:269-298 | one check under the lock: verdict and new window as specified |
| `RateLimiter.AtMostTwiceTheLimit` | src/api.rs:269-298 | over any run with a monotone clock, any half-open 60-second interval contains at most twice the limit |
| `RateLimiter.TwiceTheLimitIsReached` | src/api.rs:269-298 | the factor two is attained for every limit |
| `RateLimiter.RetryAfterIsBetween1And60` | src/api.rs:278-295 | every rejection's hint is between 1 and 60 seconds |
| `RateLimiter.ShorterWaitIsTooShort` | src/api.rs:278-295 | one second less than told does not expire the window |
| `RateLimiter.WaitingExpiresWindowExactlyWhen` | src/api.rs:278-295 | waiting as told expires the rejecting window exactly if the check did not itself open it, which needs a zero limit |
| `DnsCodec.LengthByteMasks` | src/api.rs:764-791 | the bit masks of the length byte are the comparisons used in the model |
| `DnsCodec.EncodeName` | src/api.rs:737-752 | the encoder loop writes the labels of the trimmed domain, or reports an empty domain or a bad label |
| `DnsCodec.TrimmedIsTheDomain` | src/api.rs:737-740 | what is encoded is the domain without surrounding blanks and then without dots at its end, and no more is cut |
| `DnsCodec.EncodesExactlyWhen` | src/api.rs:737-752 | the encoder refuses an empty domain and pieces that are empty or longer than 63 bytes, and nothing else |
| `DnsCodec.ParseName` | src/api.rs:755-801 | the parser loop computes the recursive reading of the name; every access is in bounds |
| `DnsCodec.ParserAcceptsExactlyNames` | src/api.rs:755-801 | it accepts exactly the byte strings that spell a name within the step budget, with that name's labels and end |
| `DnsCodec.EncodedNameParsesBack` | src/api.rs:737-801 | inside any surrounding bytes, parsing an encoded domain returns it and the offset just past it, if and only if its labels leave a step for the terminator |
| `DnsCodec.ThirtyOneLabelsParseBack` | src/api.rs:760-760 | with the program's 32 steps exactly the domains of up to 31 labels parse back |
| `DnsCodec.PointerContinuesAtTarget` | src/api.rs:764-775 | labels followed by a pointer parse to those labels and the target's, with the offset just past the pointer, in the steps that are left |
| `DnsCodec.PointerTargetBits` | src/api.rs:768-768 | a pointer is the fourteen bits behind its marks |
| `HttpsRdata.ParseAlpn` | src/api.rs:831-842 | the inner loop appends exactly the identifiers of the value, or reports truncation |
| `HttpsRdata.ParseHttpsRdata` | src/api.rs:804-861 | the nested loops compute the recursive reading; they make progress and stay inside the record |
| `HttpsRdata.LiteralParams` | src/api.rs:830-850 | one parameter of each kind on literal bytes: key 1 is alpn, 3 a two-byte port, 5 ech, and 2 is ignored |
| `HttpsRdata.AlpnReadsBack` | src/api.rs:831-842 | encoded identifiers read back |
| `HttpsRdata.AlpnAcceptsOnlyEncodings` | src/api.rs:831-842 | every accepted alpn value is the encoding of what was read |
| `HttpsRdata.MeaningIsLastWins` | src/api.rs:818-852 | identifiers of all alpn parameters add up; the last two-byte port and the last ech value count; other parameters are ignored |
| `HttpsRdata.RdataReadsBack` | src/api.rs:804-861 | anywhere in a buffer, encoded record data parses to its priority, target, all alpn identifiers, last port and last ech value, if and only if the target fits the step budget |
| `FixedBatch.PackStep` | src/coreml.rs:148-164 | writes one step at its offset and nothing else, or reports its fault |
| `FixedBatch.OffsetOfStep` | src/coreml.rs:154-156 | the computed offset is behind the earlier samples and steps, and the step fits the buffer |
| `FixedBatch.PackSequence` | src/coreml.rs:142-165 | writes one sequence into its row and nothing else, or reports its first fault |
| `FixedBatch.PackBatch` | src/coreml.rs:141-165 | the buffer starts with the flattened batch, or the first fault is reported |
| `FixedBatch.PackedFeature` | src/coreml.rs:148-163 | place k * features + i of a packed row is feature i of step k, narrowed |
| `FixedBatch.AnswersOfPackedBatch` | src/coreml.rs:166-167 | the first answers of a row-wise model are those of the batch's sequences one by one; padding rows only follow |
| `FixedBatch.ExpectedSucceedsExactlyWhen` | src/coreml.rs:135-173 | success means an empty input, or a loaded model, usable sequences and finite answers, and then exactly those answers in order |
| `FixedBatch.PredictFixedBatches` | src/coreml.rs:128-174 | for any count and batch size the driver returns the plain map over the sequences, in order, or the first thing wrong; nothing else unless the native model itself fails |
| `LogStore.ComponentLog.EnsureJsonLines` | src/logging.rs:85-143 | rewrites the file exactly if some line is blank or not JSON, to the converted lines |
| `LogStore.ComponentLog.NextArchivePath` | src/logging.rs:222-240 | the search terminates for any finite directory with the least free index |
| `LogStore.ComponentLog.RotateIfNeeded` | src/logging.rs:146-219 | rotates exactly when the file is dated before today, into a free name |
| `LogStore.RotatesExactlyWhen` | src/logging.rs:146-167 | a log rotates exactly if it is not empty and its first event, or its last change, is of an earlier day |
| `LogStore.FirstEventDateIs` | src/logging.rs:170-186 | the date of a log is that of its first non-blank line |
| `LogStore.ArchiveIsNamedAfter` | src/logging.rs:156-219 | the archive holds the text and is named after the first event's day if that is over, and else after the last change |
| `LogStore.ComponentLog.AppendEvent` | src/logging.rs:49-68 | converts, rotates, then appends one line |
| `LogStore.FreeIndexExists` | src/logging.rs:222-240 | n taken indices of a date need n archives |
| `LogStore.SanitisedIsValid` | src/logging.rs:85-143 | after conversion all lines are valid JSON, a second conversion changes nothing, and a rewritten text is terminated |
| `LogStore.EveryLineIsConverted` | src/logging.rs:118-137 | no non-blank line is lost: it stands, trimmed or wrapped, behind as many lines as there were non-blank ones before it, and nothing else is written |
| `LogStore.RotationConserves` | src/logging.rs:201-219 | rotation loses, repeats and reorders no line and overwrites no archive |
| `LogStore.OperationConserves` | src/logging.rs:49-219 | each operation on a store of valid, terminated lines adds exactly the appended event at the end and keeps the store so |
| `LogStore.InvalidTextSettles` | src/logging.rs:85-143 | the first operation on a text with an invalid line converts its lines once, or archives them as they are, or changes nothing; an appended event stands behind them |
| `LogStore.EveryRunConservesExactlyUnlessGlued` | src/logging.rs:49-219 | over every run from any store, legacy text included: the starting lines stay, kept or converted once, then exactly the events in order, archives unchanged, the file healthy after an event; if and only if no append meets valid text without last line break before a rotation |
| `LogStore.EventsAreConserved` | src/logging.rs:49-219 | from valid, terminated text: archives plus active file hold every earlier line and every event exactly once and in order |
| `LogStore.RotationIsDeterministic` | src/logging.rs:201-240 | a rotation has exactly one outcome |
| `LogStore.ConvertedAndRotatedIsValid` | src/logging.rs:62-63 | whatever the store was, the text an append meets consists of valid lines |
| `LogStore.UnterminatedAppendMerges` | src/logging.rs:62-66 | behind an unterminated last line the event is glued to it and no line is added |
| `LogStore.AppendIsCleanExactlyWhenTerminated` | src/logging.rs:62-66 | an append adds its event as a line of its own if and only if the text is terminated; otherwise all lines stay valid exactly if the glued one is |

## Left out

- SQL, migrations and account canonicalisation: tables are maps and sequences; the rewriting of account references is not part of this model. The wash-sale table is the migrated one, where a manual insert never replaces a row.
- ProviderSync.LocalStore.LastCursor: every record has a cursor. For such records the stored maximum coalesces to the same time as the page cursor; a row with none of these times would count with its sync time. An order whose only cursor is its update time, and would move, is not modelled.
- Cursors are integers; the source compares them as text, which differs for fractional seconds and time-zone offsets. A record that appears at the provider later than another but with an earlier cursor is not modelled.
- Order snapshots are keyed by order identifier alone: identifiers are taken as unique across accounts, so the per-account filter of the lookups is not modelled.
- The lookup of the latest provider sell of a position is an input of the reconciliation, not computed from stored fills.
- Provider records all carry a cursor; a page whose records have none, which ends the loop, is not modelled, and a page holds the records strictly after the cursor.
- Floating-point rounding: reals throughout; the conversion to single precision in the inference driver is an abstract function.
- Limit-price text formatting, failures after the broker accepted an order, and the day-trade counter of the sell loop, which is one flag of an exit attempt.
- The reasons for an exit other than stop-loss and take-profit (time stop, degraded prediction, asset risk) are one flag of an exit attempt.
- Notes, reasons and log texts; only the kind of decision is modelled.
- Whitespace other than ASCII in logs and domains, and invalid UTF-8 in parsed labels.
- DNS message headers, question sections and time-to-live decoding around the record parser.
- Compression of archives, file permissions, and a crash between writing an archive and truncating the log.
- Archive names as text: a name is a date and an index.
- Dates before year zero and the calendar library's last date.
- Panicking connection tasks, which would never give their slot back.
- HTTP, TLS, QUIC, sessions, the dashboard, status printing and command dispatch: I/O or flat tables without a deep property.
