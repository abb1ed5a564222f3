# Verification model of the trading server

This Dafny project models the parts of the trading server in which a mistake costs money, and proves
what they promise for every input, every schedule and every run. `dafny verify dfyconfig.toml`
checks all of it.

The system places stock orders at two brokers, Korea Investment & Securities (KIS) and Toss
Securities. Each order is a `TradeRecord` row that moves through guarded database writes made by
request handlers, periodic jobs, a cold-start takeover and operators, any of which may crash between
two awaits. Beside the live side there is a paper-trading ledger, the indicators the strategies use,
a backtest that gates them, a byte-level ZIP reader and a cache of cash balances.

## How the model is laid out

| module | what it models |
|---|---|
| `Prelude`, `Text`, `Calendar`, `KstTimestamp` | trimming, digits and decimal printing; days and dates of ECMA-262 section 21.4.1; parsing and printing times in Korea |
| `BrokerTime`, `KisMutation` | six- and fourteen-digit broker times; one order request and the three-way classification of its outcome |
| `Identity`, `Pagination` | rows kept once per identity; complete reads page by page from both brokers |
| `OrderHistory`, `OrderMatcher`, `Collisions` | KIS history rows and the queried range; candidates for a lost submission; records that already stand for them |
| `TradeRecords`, `TradeRecordTable` | the rows, every guarded write as a function, and the table as an object updated in place |
| `OrderProtocol`, `OrderSafety`, `OrderTheorems`, `OrderWrites` | the lifecycle as a state machine over all interleavings, its inductive invariant, the theorems, and every write column by column |
| `NotSubmitted`, `OrderLinking`, `OpenOrders`, `CancellationRecovery`, `StaleClosures` | what operators may decide after a lost answer, when it is right, and what reads of different moments do to it |
| `SimulationLedger`, `SimulationOrders`, `SimulationMetrics`, `SimulationSnapshots` | the paper-trading books, sessions with waiting orders, the profit report, daily snapshots |
| `Indicators`, `DayTradeBacktest` | EMA, MACD and Wilder's ADX; the day-trade backtest |
| `ZipEntry`, `CashCache` | the ZIP reader against a writer of PKWARE APPNOTE.TXT section 4.3; the cash cache against a plain map |

A guarded `updateMany` is a function from the stored row to a `Change`: nothing, or the new row with
its audit entries. The lifecycle is a state machine whose step is one such write, one transaction, one
request to the broker or one answer; handlers carry a program counter, a crash drops all of them, and
a journal per record remembers what really happened (requests sent, answers, values the row has had).
Guards that depend on the world outside (is the live switch on, is the broker reachable) are free
choices, so every real schedule is one of the model's. The automatic order path
(`src/trading/trading-order-execution.service.ts`) and the approved sells make the same writes in the
same order as the manual sell, so the sell handler of the model stands for all of them.

## Results worth knowing

Most promises hold as written. Where one does not, the code is modelled as it is, with a proof of when
it holds and an example of when it does not:

* A cancellation closure can lose a fill between load and commit. Its guard omits `executedQty`: a closure
  that passes the guard can lower the stored quantity if and only if the loaded row had fewer fills than the
  stored one (`ClosureLowersExactlyWhenStale`). It happens in a run from an empty table in which every
  operator's decision is what complete reads prove (`AStaleClosureLosesAFill`).
* It can lose one between its own two reads: the executions are read before the open orders, and the closure
  counts everything if and only if nothing was filled in between (`ClosureIsTrueExactlyWhen`).
* A complete history can hide an order, since rows are kept once per identity. "Not submitted" goes through
  if and only if no row listed first under its identity matches (`NoOrderIsFoundExactlyWhen`). In the list of
  open orders an order is seen if and only if the first exchange that lists its identity as open lists it
  first (`OpenOrderIsSeenExactlyWhen`).
* Closing a partly filled order clears its order number. From then on, and only then, neither the collision
  check nor the unique index knows whose order it was (`OrderIsFreeExactlyWhenNumberCleared`); exactly four
  writes do it (`NumberIsClearedExactlyWhen`).
* The replayed profit credits every possible next sale the ledger's gain, at every moment, if and only if
  every repeated purchase was made at the lifetime average (`ReplayIsExactWhen`), which a history without
  buy-backs satisfies (`NoBuyBackIsEven`). After such a history the report adds up (`ProfitsAddUp`); buying
  back can break it (`BuyingBackBreaksTheReport`).
* The paper ledger does not look at share counts: a purchase that fills keeps the books if and only if the
  position then holds a positive number of shares (`PurchaseKeepsBooksExactlyWhen`). All strategies ask for
  a positive number.
* A second snapshot on the same day measures from the first one, so a day looks without profit
  (`SecondSnapshotHidesTheDay`). The schedule in `src/simulation/simulation.scheduler.ts:106-118` takes two
  a day of every overseas session.
* A six-digit broker time is never accepted for calls in the years 0000 to 0099, which `Date.UTC` moves.
* `remaining` in an overseas history row may be a negative JSON number (`NegativeRemainingPasses`).
* A ZIP comment that holds a second end record hides every file (`ACommentCanHideEveryFile`).

## Model

| member | source | states |
|---|---|---|
| OrderTheorems.AtMostOneOrderPerRecord | src/trade-record/trade-record-manual-order.service.ts:205-279 | Over every schedule of racing handlers, crashes, takeovers and operators, at most one order is POSTed per record, with the stored quantity and no more than was admitted; a record without a start time was never POSTed. |
| OrderTheorems.NothingIsSentBeforeApproval | src/trading/trading-sell-approval-workflow.service.ts:190-204 | A record created to wait for a person is POSTed only after the approval was committed; after a refusal or an expiry nothing is ever sent. |
| OrderTheorems.NoOrderIsLost | src/trade-record/trade-record-manual-order.service.ts:261-366 | A POSTed record whose broker answer is not stored and which no operator decided is SUBMITTING with a start time or SUBMISSION_UNKNOWN. |
| OrderTheorems.TakeoverFindsEveryOpenOrder | src/trading/trading-broker-order-recovery.service.ts:549-619 | After any schedule followed by a crash, both takeover loops and the start of serving: no record is SUBMITTING, every order POSTed before whose answer was not stored is on the recovery list, a never-claimed record is cancelled and was never POSTed, and every outstanding cancel request is listed or accepted. |
| OrderTheorems.TakeoverRuns | src/trading/trading-broker-order-recovery.service.ts:530-619 | The steps of a crash and a takeover, whatever else the loops list, take every row over and change no record's history. |
| OrderTheorems.FailedMeansRefused | src/trade-record/trade-record-manual-order.service.ts:281-304 | FAILED is never a guess: the broker's rejection was stored, an operator decided, or reconciliation saw the broker reject the order. |
| OrderTheorems.FailedMeansNotSentOrRefused | src/kis/kis-base.service.ts:136-194 | End to end on the KIS path, over every schedule: a record no operator decided and reconciliation did not fail is FAILED only if its request never left or the broker refused it in so many words. |
| OrderTheorems.AcceptedOrderIsStored | src/trade-record/trade-record-manual-order.service.ts:331-366 | Over every schedule, an accepted order that was stored keeps the number, date and time of the answer; only closing a partly filled order takes the number away. |
| OrderTheorems.StoredNumberIsTheBrokers | src/kis/kis-mutation.error.ts:24-59 | End to end on the KIS path: the number in the row is the order number of the broker's answer, trimmed. |
| OrderTheorems.HistoryOnlyGrows | src/trade-record/trade-record-manual-order.service.ts:261-279 | No step takes back a request: the order and cancel requests of a record only grow over any run. |
| OrderTheorems.AtMostOneOutstandingCancel | src/trading/trading-order-cancellation.service.ts:72-168 | With manual and automatic cancellers racing, at most one cancel request per record is outstanding, and then its cancellation is SUBMITTING, ACCEPTED or UNKNOWN on an open row with an order number. |
| OrderTheorems.CancelRequestsAreExact | src/trade-record/trade-record-manual-order.service.ts:500-621 | A cancel request names the stored order number and exactly the unfilled remainder, which is positive. |
| OrderTheorems.TerminalIsForever | src/trading/trading-broker-order-recovery.service.ts:400-428 | A filled, cancelled, failed or closed partial record is never written again by any actor. |
| OrderTheorems.ClosureIsFinal | src/trading/trading-broker-cancellation-recovery.service.ts:64-95 | Once a cancellation closure is committed, no later claim of a cancellation succeeds on the record, over every later run. |
| OrderTheorems.AuditBalances | src/trading/trading-broker-order-recovery.service.ts:568-595 | In every reachable state a record has one more "unknown" audit entry than resolving ones exactly while it is unknown, for submissions and for cancellations across repeated attempts. |
| OrderTheorems.ExecutedStaysWithinOrder | src/trading/trading-order-reconciliation.service.ts:90-218 | No schedule executes more than the ordered quantity, and FILLED means all of it. |
| OrderTheorems.ExecutedGoesDownOnlyOnStaleClosure | src/trading/trading-broker-cancellation-recovery.service.ts:291-302 | The stored executed quantity goes down in a step if and only if that step is a closure, its guard holds, and it was computed from fewer fills than are stored. |
| OrderTheorems.ClosureLowersExactlyWhenStale | src/trading/trading-broker-cancellation-recovery.service.ts:291-302 | A closure that passes the guard can lower the stored quantity if and only if the loaded row had fewer fills than the stored one. |
| OrderTheorems.NumberIsClearedExactlyWhen | src/trading/trading-order-reconciliation.service.ts:104-182 | A step clears an order number if and only if it is one of four writes that end a partly filled order, and the row is then terminal. |
| StaleClosures.ClosureIsTrueExactlyWhen | src/trading/trading-broker-cancellation-recovery.service.ts:208-221 | For executions and open orders read at two moments of an order's life: the closure never counts too much, and counts everything if and only if nothing was filled between the reads, which reading the open orders first would ensure. |
| StaleClosures.AFillBetweenTheReadsIsLost | src/trading/trading-broker-cancellation-recovery.service.ts:39-95 | Every fill between the two reads that ends the order is missing from the closure, and the row is terminal. |
| StaleClosures.AStaleClosureLosesAFill | src/trading/trading-broker-cancellation-recovery.service.ts:64-95 | For every admitted order and every partial fill, some run from an empty table, each operator's decision backed by complete reads, ends in a closure that lowers the recorded fills by one. |
| OrderSafety.StepKeepsInv | src/trading/trading-broker-order-recovery.service.ts:400-659 | Every step of every actor keeps the lifecycle invariant of rows, handlers, journals and audit balances. |
| OrderSafety.RunKeepsInv | src/trading/trading-broker-order-recovery.service.ts:400-659 | So does every run. |
| OrderSafety.OutsidersHitUnclaimedRecords | src/trading/trading-order-reconciliation.service.ts:73-297 | However stale the row an operator or the reconciler loaded, a commit of theirs only hits a record no live handler holds. |
| OrderSafety.HandlerStepKeepsInv | src/trade-record/trade-record-manual-order.service.ts:205-668 | Every move of a sell or cancel handler keeps the invariant, other records included. |
| OrderSafety.OutsideStepKeepsInv | src/trading/trading-broker-order-resolution.service.ts:189-244 | Every operator decision, reconciliation, approval and takeover write keeps the invariant. |
| OrderTheorems.TerminalRowUntouched | src/trading/trading-order-reconciliation.service.ts:73-297 | No single enabled step changes a terminal row. |
| TradeRecords.TakeoverSettlesEveryRow | src/trading/trading-broker-order-recovery.service.ts:530-599 | What the takeover leaves of every row: nothing SUBMITTING, started submissions unknown, unstarted ones cancelled, claimed cancellations unknown, all else unchanged. |
| TradeRecords.SettledRowsStay | src/trading/trading-broker-order-recovery.service.ts:530-599 | A row with no claim in progress is left exactly as it is. |
| TradeRecords.TakeoverIsIdempotent | src/trading/trading-broker-order-recovery.service.ts:601-619 | A second takeover changes no row. |
| OrderWrites.LiveWritesAreNeverLost | src/trade-record/trade-record-manual-order.service.ts:205-366 | Over every schedule of everybody else: when a live handler writes the broker's answer or gives its own claim back, the guard of that write holds, and exactly the stated columns change, to the stated values. |
| OrderWrites.SubmissionWritesMoveTheStage | src/trade-record/trade-record-manual-order.service.ts:205-400 | Seen as stages of a submission, every submission write goes through at exactly one stage and leads to one other; at every other stage it writes nothing. |
| OrderWrites.CancellationWritesFollowTheClaim | src/trading/trading-broker-order-recovery.service.ts:400-528 | A claim needs an order at the broker, its number and no cancellation under way; accepting, rejecting and losing a cancellation each need that claim. |
| OrderWrites.RecoveryWritesCompareTheRow | src/trading/trading-broker-order-resolution.service.ts:189-244 | Linking, failing and assigning an account need the submission still lost and exactly the broker and account columns as loaded; then the stated columns and one audit entry are written. |
| OrderWrites.ClosuresCompareTheRow | src/trading/trading-broker-cancellation-recovery.service.ts:64-115 | A closure needs the unknown cancellation and five columns as loaded, executed shares not among them; it leaves an order that is over after that many shares. |
| OrderWrites.ReconciliationComparesTheRow | src/trading/trading-order-reconciliation.service.ts:90-156 | The periodic update needs status, number, cancellation and executed shares as loaded and some news; executed shares only grow, up to the order. |
| OrderWrites.UnlistedOrdersAreOver | src/trading/trading-order-reconciliation.service.ts:158-217 | An order the broker no longer lists is cancelled, or gives its number up when it was filled in part, exactly if it is as loaded and not being cancelled. |
| OrderWrites.AcceptedCancellationsAreOver | src/trading/trading-order-reconciliation.service.ts:219-297 | An accepted cancellation closes its order with all fills seen so far, exactly if status, number and cancellation are as loaded. |
| OrderWrites.ReloadComparesTheRow | src/trade-record/trade-record-manual-order.service.ts:677-705 | A claimed cancel goes on exactly if nothing but the claim has changed in seven columns since the order was first loaded. |
| OrderWrites.OnlyTerminalRowsAreStuck | src/trading/trading-order-reconciliation.service.ts:73-297 | Every record that is not terminal can still be changed by somebody; with `TerminalRowUntouched`, terminal records are exactly the ones nobody can change. |
| OrderWrites.MovesByPosition | src/trade-record/trade-record-manual-order.service.ts:205-621 | From each position of a handler exactly the listed moves lead on; a cancel is sent only after the reload found nothing changed but the claim. |
| OrderWrites.MovesAreRemembered | src/trade-record/trade-record-manual-order.service.ts:261-304 | The history the theorems speak of is kept honestly: requests, answers and storage are recorded by the move that makes them and by no other. |
| OrderWrites.DeedsAreRemembered | src/trading/trading-broker-order-resolution.service.ts:189-244 | So are decisions of operators, later refusals and closures. |
| TradeRecordTable.Table.ClaimCancellation | src/trading/trading-broker-order-recovery.service.ts:400-428 | Claims exactly an open row of the broker with an order number and no cancellation in flight; the table is otherwise unchanged. |
| TradeRecordTable.Table.ReleaseCancellationClaim | src/trading/trading-broker-order-recovery.service.ts:430-449 | Gives a claim up exactly while it is still SUBMITTING. |
| TradeRecordTable.Table.MarkCancellationAccepted | src/trading/trading-broker-order-recovery.service.ts:451-468 | Marks a claimed cancellation accepted, and no other row. |
| TradeRecordTable.Table.MarkCancellationUnknown | src/trading/trading-broker-order-recovery.service.ts:491-528 | Marks a claimed cancellation unknown together with its audit entry, or writes neither. |
| TradeRecordTable.Table.MarkSubmissionUnknown | src/trading/trading-broker-order-recovery.service.ts:621-659 | Marks a started submission unknown together with its audit entry, or writes neither. |
| TradeRecordTable.Table.PersistAcceptedOrder | src/trade-record/trade-record-manual-order.service.ts:331-366 | However each attempt fails, before or after its commit, the accepted order is stored at most once, and the report tells whether it is. |
| TradeRecordTable.Table.ListRecoveryItems | src/trading/trading-broker-order-recovery.service.ts:71-87 | Returns exactly the unknown submissions and the records with an unknown cancellation. |
| TradeRecordTable.Table.TakeOverSubmissionAttempts | src/trading/trading-broker-order-recovery.service.ts:549-599 | The loop takes over every SUBMITTING row, writes one audit entry each in listing order, and its two counters are exact. |
| TradeRecordTable.Table.TakeOverCancellationAttempts | src/trading/trading-broker-order-recovery.service.ts:530-547 | The loop turns every claimed cancellation unknown with one audit entry each, and counts them. |
| TradeRecordTable.Table.TakeOverStartupState | src/trading/trading-broker-order-recovery.service.ts:601-619 | Both loops leave the fully taken-over table, and the number of unresolved records is that of the recovery list. |
| KisMutation.RejectedExactly | src/kis/kis-base.service.ts:136-194 | An order is reported rejected if and only if nothing was sent or the broker refused: a decimal code without leading zero, both message fields present and one of them not blank. Every lost answer is unknown. |
| KisMutation.AcceptedExactly | src/kis/kis-mutation.error.ts:24-59 | Accepted if and only if a success code, an order number and a broker time near the call came back; the number handed on is the one received, trimmed, and date and time are those of the broker time. |
| KisMutation.ResponsesClassifiedExactly | src/kis/kis-mutation.error.ts:24-59 | The same, field by field, for the classification on its own, whatever envelope reaches it. |
| KisMutation.AcceptedOrderCanBeFound | src/kis/kis-mutation.error.ts:82-102 | The date and time an accepted order is stored under are real, complete and parse to an instant within ten minutes of the call. |
| BrokerTime.SixDigitsPickTheNearestDay | src/kis/kis-mutation.error.ts:104-134 | The instant chosen from three days is nearest over all days and within twelve hours, exactly outside the years 0000 to 0099. |
| BrokerTime.SixDigitsAcceptedExactly | src/kis/kis-mutation.error.ts:82-134 | A six-digit time is accepted if and only if some day puts it within ten minutes of the call, and then resolves to that one day. |
| BrokerTime.CloseDayIsUnique | src/kis/kis-mutation.error.ts:82-102 | At most one day puts a time within ten minutes of the call. |
| BrokerTime.FourteenDigitsAreReal | src/kis/kis-mutation.error.ts:136-163 | A fourteen-digit stamp is read if and only if it is a real date from the year 2000 on with a valid time, and as the matcher's parser reads it. |
| BrokerTime.OtherStampsAcceptedExactly | src/kis/kis-mutation.error.ts:82-163 | A stamp of any other length is accepted if and only if it is fourteen digits of a real date and time from the year 2000 on, within ten minutes of the call as the matcher reads it. |
| BrokerTime.SixDigitsReadAsFourteen | src/kis/kis-mutation.error.ts:104-163 | The date and time resolved from six digits, read as fourteen, give the same instant. |
| BrokerTime.AcceptedStampParses | src/kis/kis-mutation.error.ts:82-102 | Every accepted stamp parses back to its own instant. |
| KstTimestamp.ParserAcceptsExactlyRealTimes | src/trading/trading-broker-order-matcher.service.ts:153-183 | The parser accepts exactly the real Gregorian dates of the years 0100 to 9999 with valid times. |
| KstTimestamp.ParseThenFormat | src/trading/trading-broker-order-matcher.service.ts:153-197 | Printing a parsed instant gives back the two strings. |
| KstTimestamp.FormatThenParse | src/trading/trading-broker-order-matcher.service.ts:153-197 | Parsing a printed instant gives back the start of its second, so the instant itself if and only if it is a whole second. |
| KstTimestamp.DatesThatPrintBack | src/trading/trading-broker-cancellation-recovery.service.ts:334-341 | A stored order date is accepted if and only if it is a real date of the years 0100 to 9999. |
| KstTimestamp.StampsSort | src/trading/trading-broker-order-matcher.service.ts:153-197 | Text order of date and time is the order of instants. |
| KstTimestamp.PrintedDatesSort | src/trading/trading-broker-order-matcher.service.ts:185-190 | Text order of printed dates is the order of days. |
| Calendar.DayOfDateOf | src/trading/trading-broker-order-matcher.service.ts:153-183 | The date of every day number maps back to it (ECMA-262 section 21.4.1). |
| Calendar.DateOfDayOf | src/kis/kis-order-history.service.ts:337-349 | Every real date survives the trip through its day number. |
| Pagination.Paginate | src/kis/kis-order-history-pagination.service.ts:10-75 | Succeeds if and only if there are at most 100 cursors, the first empty, each page but the last marked M or F with the next cursor on it and the last marked otherwise; then it fetches exactly those pages and returns the first row of every identity on them, in order. A repeated tuple is reported only for a chain that never ends. |
| Pagination.LoopsNeverEnd | src/kis/kis-order-history-pagination.service.ts:56-62 | A chain that returns to an earlier position never ends, so the loop check rejects no finite chain. |
| Pagination.ReadOrders | src/toss/toss-broker.service.ts:251-288 | The same exactness for Toss cursors, page by page, without dropping any order. |
| Pagination.MergeOrders | src/toss/toss-broker.service.ts:130-148 | Open and closed orders merged by id: the position of the first, the value of the last. |
| Identity.FirstOccurrencesAreExact | src/kis/kis-order-history-pagination.service.ts:33-38 | The kept rows are exactly the first row of every identity, in their order. |
| Identity.FirstOccurrencesKeepEveryKey | src/kis/kis-order-history-pagination.service.ts:33-38 | No identity is lost, none is doubled, and only received rows are kept. |
| OrderHistory.QuantitiesAddUp | src/kis/kis-order-history.service.ts:361-427 | Of every validated row: filled plus remaining is at most ordered, and remaining is negative exactly for a negative overseas JSON number. |
| OrderHistory.ReadsExactlyWhatIsShown | src/kis/kis-order-history.service.ts:480-490 | A column reads as a number if and only if it holds that safe integer, or its decimal digits with any leading zeros and surrounding blanks. |
| OrderHistory.ValidExactlyWhen | src/kis/kis-order-history.service.ts:361-427 | A row is accepted if and only if its columns show an order: number and stock, one of two side codes, quantities that fit, abroad one of nine exchanges, a real date and time. |
| OrderHistory.OrderHoldsWhatIsShown | src/kis/kis-order-history.service.ts:213-287 | The order made of an accepted row holds what its columns show, column by column; what is left open is the remaining column abroad, or ordered minus filled. |
| OrderHistory.BlankRowExactlyWhen | src/kis/kis-order-history.service.ts:501-505 | A row is skipped if and only if no column of it holds anything. |
| OrderHistory.RowKeysIdentify | src/kis/kis-order-history.service.ts:205-260 | Rows share an identity if and only if date, order number and, abroad, exchange agree, although the three are joined into one text. |
| OrderHistory.NegativeRemainingPasses | src/kis/kis-order-history.service.ts:385-427 | Every valid overseas row stays valid with any negative safe integer as its remaining quantity, and becomes an order with that quantity. |
| OrderHistory.KisDatesAreCalendarDates | src/kis/kis-order-history.service.ts:337-349 | The round trip through `Date.UTC` accepts exactly the real dates of the years 0100 to 9999. |
| OrderHistory.ShiftBack | src/kis/kis-order-history.service.ts:507-520 | Shifting a date by days and back is the identity if and only if the shifted year stays in 0100 to 9999. |
| OrderHistory.OrderOfEveryRow | src/kis/kis-order-history.service.ts:213-230 | Every row that is not blank becomes its order, and every order is some row's. |
| OrderHistory.GetOrderExecutions | src/kis/kis-order-history.service.ts:186-287 | A history is returned whole or not at all. |
| OrderHistory.RowOrItsTwinIsRead | src/kis/kis-order-history.service.ts:186-287 | Every row the broker serves is read, or another row of its identity. |
| OrderMatcher.FindSubmissionCandidates | src/trading/trading-broker-order-matcher.service.ts:21-71 | Succeeds exactly in the right account with a start time and a complete history, and returns the matching orders once per identity. |
| OrderMatcher.MatchesExactlyWhenItFits | src/trading/trading-broker-order-matcher.service.ts:92-151 | An order is a candidate if and only if it fits column by column: number, exchange, stock, side, quantity, and a Korean time within ten minutes of the submission; every column of the candidate is then given. |
| OrderMatcher.EmptyExactlyWhenNothingMatches | src/trading/trading-broker-order-matcher.service.ts:33-70 | There is no candidate if and only if no order of the history matches. |
| OrderMatcher.WindowCoversMatches | src/trading/trading-broker-order-matcher.service.ts:33-36 | Every order stamped within ten minutes of the submission is dated inside the queried range. |
| OrderMatcher.CandidatesHaveRealDates | src/trading/trading-broker-order-matcher.service.ts:92-125 | Every candidate carries a real date and time. |
| OrderMatcher.KeysIdentify | src/trading/trading-broker-order-matcher.service.ts:50-70 | Candidates of one request share a key exactly when date and order number agree. |
| Collisions.PrefilterLosesNothing | src/trading/trading-broker-order-resolution.service.ts:31-136 | On normalised rows the two narrow queries give every candidate the annotation a scan of the whole table gives, row by row and column by column; an exact collision wins over a legacy one. |
| Collisions.SingleCandidateRangeIsExact | src/trading/trading-broker-order-resolution.service.ts:69-83 | For a single candidate the queried range is exactly the one-day test. |
| Collisions.LinkedOrderIsFree | src/trading/trading-broker-order-resolution.service.ts:169-184 | A candidate may be linked if and only if no stored record of the account holds its day, exchange and number, and no incomplete one created within a day of it holds its exchange and number. |
| NotSubmitted.ConfirmNotSubmitted | src/trading/trading-broker-order-resolution.service.ts:262-285 | Closes the record as failed if and only if a complete history of the right account held no match and the guard still holds; otherwise the table is unchanged. |
| NotSubmitted.RowsMatchAsTheyHold | src/trading/trading-broker-order-matcher.service.ts:92-151 | A row of the broker's history becomes a matching order if and only if its own columns hold one: stock, side code, quantity, exchange and a time within ten minutes. |
| NotSubmitted.NoOrderIsFoundExactlyWhen | src/trading/trading-broker-order-resolution.service.ts:262-285 | Nothing is found if and only if the account is right, the broker's chain of pages for the window ends, and no row listed first under its identity matches. |
| NotSubmitted.AMatchingOrderBlocksConfirmation | src/trading/trading-broker-order-matcher.service.ts:33-125 | So if a row of the broker's history holds an order of that exchange, stock, side and quantity within ten minutes, and rows of one identity are one order, the confirmation cannot go through, however the answer is paged. |
| NotSubmitted.APostedOrderIsNeverDeclaredNotSubmitted | src/trading/trading-broker-order-resolution.service.ts:262-285 | End to end over every schedule: while some row of the history holds, column by column, the order that was POSTed, "not submitted" can never be confirmed for its record. |
| NotSubmitted.QueriedRange | src/kis/kis-order-history.service.ts:237-260 | The range sent to the broker starts on the first day of the window, overseas the day before, and ends on its last. |
| NotSubmitted.AnEarlierTwinHidesTheOrder | src/kis/kis-order-history-pagination.service.ts:33-38 | For every matching order: a row of its identity with another quantity listed before it makes "not submitted" go through. |
| OrderLinking.LinkCandidate | src/trading/trading-broker-order-resolution.service.ts:138-260 | Links the record if and only if the chosen order is still found and free, the guard holds and the unique index accepts it; otherwise nothing changes, and the index's uniqueness is kept. |
| OrderLinking.ConfirmMatchesExisting | src/trading/trading-broker-order-resolution.service.ts:287-325 | Closes the record as failed if and only if the chosen order is found and collides with exactly the named other record. |
| OrderLinking.IndexKeepsOrdersUnique | prisma/migrations/20260713000000_harden_sell_approval_state/migration.sql:222-231 | A write keeps broker orders unique if and only if the index does not refuse it. |
| OrderLinking.LinkIsSound | src/trading/trading-broker-order-resolution.service.ts:138-187 | A linked order is one the broker really lists for the submission, of its exchange, stock, side and quantity and within ten minutes of it, under the number, exchange and date named, and no stored record stands for it. |
| OrderLinking.LinkStoresTheNamedOrder | src/trading/trading-broker-order-resolution.service.ts:189-227 | A link stores the number and date the operator typed, trimmed, and the broker's time, and does so if and only if the submission is still lost under the same broker and account. |
| OrderLinking.NamedExactlyWhen | src/trading/trading-broker-order-resolution.service.ts:342-353 | What was typed names an order if and only if the date has eight digits and exchange and number are not blank; it names that date, exchange and number. |
| OrderLinking.ReviewedExactlyWhen | src/trading/trading-broker-order-resolution.service.ts:31-136 | Candidates are shown if and only if the record is an unknown submission of the account in use, before and after the broker was asked, and the broker's history can be read. |
| OrderLinking.MatchIsSound | src/trading/trading-broker-order-resolution.service.ts:297-316 | The record named holds the number of an order the broker lists for the submission, on its date or near it. |
| OrderLinking.AnswersExclude | src/trading/trading-broker-order-resolution.service.ts:138-325 | On the same reads, "never submitted", "linked" and "that other record's" exclude each other, and at most one other record can be named. |
| OrderLinking.EveryCandidateHasAnAnswer | src/trading/trading-broker-order-resolution.service.ts:138-325 | On a complete read every candidate can be linked or matched, so recovery is never stuck. |
| OrderLinking.LinksAreDeeds | src/trading/trading-broker-order-resolution.service.ts:189-212 | Both are steps the lifecycle allows an operator. |
| OrderLinking.OrderIsFreeExactlyWhenNumberCleared | src/trading/trading-broker-order-resolution.service.ts:47-116 | A record that collides with an order does so until its number is cleared: then and only then the order may be linked to another record, and the index agrees. |
| OrderLinking.AClosureFreesItsOrderExactlyWhen | src/trading/trading-broker-cancellation-recovery.service.ts:64-95 | Any closure frees the order if and only if it was filled in part. |
| OrderLinking.ADeedFreesTheOrderExactlyWhen | src/trading/trading-order-reconciliation.service.ts:104-182 | Any write of an operator or the reconciler frees the order if and only if it is one of the four that clear the number. |
| OpenOrders.GetUnfilledOrders | src/kis/kis-order-history.service.ts:29-35 | The open orders of a market, whole or not at all. |
| OpenOrders.GetDomesticUnfilledOrders | src/kis/kis-order-history.service.ts:121-140 | One complete read, rows with nothing left dropped. |
| OpenOrders.GetOverseasUnfilledOrders | src/kis/kis-order-history.service.ts:142-184 | All nine exchanges or none, rows stamped with their exchange, each identity once. |
| OpenOrders.OnTheListExactlyWhen | src/kis/kis-order-history.service.ts:121-184 | An order is on the list if and only if some exchange's pages list an open row first under its identity. |
| OpenOrders.ListIsExactly | src/kis/kis-order-history.service.ts:142-184 | Row by row: the list holds exactly the open rows of the first exchange that lists their identity as open. |
| OpenOrders.OpenOrderIsSeenExactlyWhen | src/trading/trading-broker-cancellation-recovery.service.ts:234-244 | An inspection sees the record's order as open if and only if such a row is the record's. |
| OpenOrders.ListedExactlyWhen | src/kis/kis-order-history.service.ts:54-119 | The rows a read returns are exactly the first ones of their identities on the broker's pages. |
| OpenOrders.StampingKeepsIdentity | src/kis/kis-order-history.service.ts:144-165 | Filling in a missing exchange does not change what a row is identified by. |
| OpenOrders.PassesExactlyWhen | src/kis/kis-order-history.service.ts:429-478 | A page of open orders is taken if and only if every row of it is blank, shows nothing left, or shows an order: something left, number, stock, a side code and abroad one of nine exchanges, its own or the one asked. |
| OpenOrders.OpenKeysIdentify | src/kis/kis-order-history.service.ts:121-165 | Rows of orders share an identity if and only if number and, abroad, exchange agree, the one asked standing in for a missing one. |
| OpenOrders.RowIsTheRestExactlyWhen | src/trading/trading-broker-cancellation-recovery.service.ts:234-244 | A row the broker lists is the rest of the record's order if and only if its columns hold that number, exchange, stock and side, and no more is left than was ordered. |
| OpenOrders.OnlyFirstRowsCount | src/kis/kis-order-history.service.ts:121-140 | At home an order number is listed if and only if the first row that carries it is open. |
| OpenOrders.AListedOrderIsNeverClosed | src/trading/trading-broker-cancellation-recovery.service.ts:28-95 | End to end: while the broker lists the record's order as open, on any page of any exchange or of several, no inspection finds the cancellation closable. |
| CancellationRecovery.AggregateExecutions | src/trading/trading-broker-cancellation-recovery.service.ts:246-278 | Succeeds if and only if every row is unambiguous, with the most filled and the least remaining of any row. |
| CancellationRecovery.TotalsKeepTheBound | src/trading/trading-broker-cancellation-recovery.service.ts:246-278 | The totals keep filled plus remaining within the order. |
| CancellationRecovery.TotalsIgnoreOrder | src/trading/trading-broker-cancellation-recovery.service.ts:246-278 | The totals do not depend on the order or repetition of rows. |
| CancellationRecovery.KisRowsAreUnambiguous | src/kis/kis-order-history.service.ts:213-287 | A validated KIS row passes the aggregation exactly when it is not rejected and its remaining quantity is not negative. |
| CancellationRecovery.Judge | src/trading/trading-broker-cancellation-recovery.service.ts:28-68 | Decides what the executions and open orders prove: still open, closable with the most filled of any row, or nothing. |
| CancellationRecovery.VerdictsRestOnTheRecordsOrder | src/trading/trading-broker-cancellation-recovery.service.ts:223-289 | The verdict in the record's own rows: still open if and only if its order is among the open ones, closable with n if and only if it is not and n is the most any execution of its number, date, exchange, stock, side and quantity shows. |
| CancellationRecovery.OtherOrdersDoNotCount | src/trading/trading-broker-cancellation-recovery.service.ts:223-289 | Adding or dropping executions and open orders that differ in any of those columns changes no verdict. |
| CancellationRecovery.InspectableExactlyWhen | src/trading/trading-broker-cancellation-recovery.service.ts:191-206 | An inspection goes on if and only if the record is open with an unknown cancellation, a number, a real date and the account in use, before and after the reads. |
| CancellationRecovery.VerdictIsUnique | src/trading/trading-broker-cancellation-recovery.service.ts:28-68 | The broker's state proves one thing at most. |
| CancellationRecovery.ClosureIsBounded | src/trading/trading-broker-cancellation-recovery.service.ts:56-95 | A closure never lowers the quantity it was computed from, never exceeds the order, and is FILLED if and only if all was executed. |
| CancellationRecovery.InspectionsAreDeeds | src/trading/trading-broker-cancellation-recovery.service.ts:64-115 | What an inspection decides is a step the lifecycle allows an operator. |
| CancellationRecovery.FindOpenOrder | src/trading/trading-broker-cancellation-recovery.service.ts:234-244 | Finds an open order of the record's exchange, stock, side and number if and only if there is one. |
| CancellationRecovery.InspectCancellation | src/trading/trading-broker-cancellation-recovery.service.ts:28-123 | Closes if and only if the account is right before and after the reads, the verdict is closable and the guard holds; otherwise nothing is written. |
| CancellationRecovery.ConfirmNotAccepted | src/trading/trading-broker-cancellation-recovery.service.ts:125-189 | Marks the cancellation not accepted if and only if the order is proved still open and the guard holds. |
| SimulationLedger.LedgerConserves | src/simulation/simulation-tick-engine.service.ts:533-770 | Over every sequence of events: cash is never negative, every position holds shares bought minus sold, invested at its average; cash plus invested is quota plus gains, within half a cent per quota edit since the last reset. |
| SimulationLedger.StepKeepsBooks | src/simulation/simulation-tick-engine.service.ts:533-770 | Every single event keeps the books, and moves the drift by nothing except an edit, by half a cent at most. |
| SimulationLedger.ExecutionExactly | src/simulation/simulation-tick-engine.service.ts:533-770 | One attempt: one row in the log at the limit or the market price, filled if and only if the cash covers it or the log says the shares are held; cash moves by the amount, and no position of another key changes. |
| SimulationLedger.LimitsExactly | src/simulation/simulation-tick-engine.service.ts:520-546 | A limit order fills once the market is at its limit or better and pays the limit; any other fills at once and pays the market. |
| SimulationLedger.QuotaEditExactly | src/simulation/simulation-session-manager.service.ts:360-389 | An edit goes through if and only if it is positive and takes out no more than the cash; cash then moves with the quota, rounded to whole cents. |
| SimulationLedger.AveragingConserves | src/simulation/simulation-tick-engine.service.ts:588-612 | The weighted average spends exactly what was paid. |
| SimulationLedger.RoundingError | src/simulation/simulation-session-manager.service.ts:387-389 | Rounding gives whole cents, errs by half a cent at most, upwards on a tie, and never goes below zero. |
| SimulationLedger.PurchaseKeepsBooksExactlyWhen | src/simulation/simulation-tick-engine.service.ts:546-633 | A purchase that fills keeps the books if and only if the position then holds a positive number of shares. |
| SimulationOrders.EveryOrderIsAccountedFor | src/simulation/simulation-tick-engine.service.ts:428-513 | After any ticks, queue passes, cancellations, stops, edits and resets, every order given since the last reset is exactly one of a logged trade, a waiting order or one thrown out. |
| SimulationOrders.PlacingLosesNothing | src/simulation/simulation-tick-engine.service.ts:264-291 | Each order given to the market is logged once or waits, never both. |
| SimulationOrders.AttemptsRespectLimits | src/simulation/simulation-tick-engine.service.ts:520-546 | Only an order that can fill is attempted, at a price no worse than its limit or the market. |
| SimulationOrders.WaitsExactlyWhen | src/simulation/simulation-tick-engine.service.ts:264-291 | An order waits if and only if it has no quote or its limit is not met. |
| SimulationOrders.SessionKeepsBooks | src/simulation/simulation-tick-engine.service.ts:63-371 | The conservation laws hold for the ledger of a whole session. |
| SimulationOrders.TradingIsRun | src/simulation/simulation-tick-engine.service.ts:264-291 | A session's ledger is the run of the events its actions amount to. |
| SimulationOrders.Session.VirtualExecute | src/simulation/simulation-tick-engine.service.ts:533-770 | Updates cash, position and log in place as the ledger prescribes. |
| SimulationOrders.Session.ExecuteSimulationTick | src/simulation/simulation-tick-engine.service.ts:264-291 | Fills or queues the signals of a tick one after the other; a session that is not running does nothing. |
| SimulationOrders.Session.CheckPendingOrders | src/simulation/simulation-tick-engine.service.ts:428-491 | Rewrites the queue with what cannot fill, in order; a stopped session loses its queue. |
| SimulationOrders.Session.UpdateSettings | src/simulation/simulation-session-manager.service.ts:79-148 | Accepts a quota exactly when it is positive and cash stays at least zero, and moves cash by the difference. |
| SimulationOrders.Session.Reset | src/simulation/simulation-session-manager.service.ts:154-183 | Empties log, positions and queue, restores the quota as cash and runs again. |
| SimulationMetrics.GetMetrics | src/simulation/simulation-metrics.service.ts:94-206 | Total return, replayed profit, unrealised profit, and wins and losses that add up to the sales. |
| SimulationMetrics.ReplayAverage | src/simulation/simulation-metrics.service.ts:135-158 | The nested replay yields the average over every earlier purchase of the stock, or zero once nothing is left. |
| SimulationMetrics.WinsAreCounted | src/simulation/simulation-metrics.service.ts:127-178 | The wins are the sales at no less than the replayed average, break-even included, counted one by one. |
| SimulationMetrics.ReplayIsExactWhen | src/simulation/simulation-metrics.service.ts:130-161 | At every moment since the last reset any next sale is credited the ledger's gain, if and only if every purchase was of a stock held whole in that position or at the lifetime average price. |
| SimulationMetrics.PurchaseKeepsAverages | src/simulation/simulation-tick-engine.service.ts:588-612 | A purchase keeps every position at its lifetime average if and only if it is such a purchase. |
| SimulationMetrics.SalesReplayExactlyWhen | src/simulation/simulation-metrics.service.ts:130-161 | Every possible next sale is replayed right if and only if every position stands at its lifetime average. |
| SimulationMetrics.StepTallies | src/simulation/simulation-tick-engine.service.ts:533-770 | Over all venues, the positions of a stock hold what was bought and not sold. |
| SimulationMetrics.ReplayFollowsTheLedger | src/simulation/simulation-metrics.service.ts:130-189 | After such a history the replayed profit is the sum of the ledger's gains. |
| SimulationMetrics.NoBuyBackIsEven | src/simulation/simulation-metrics.service.ts:130-161 | A history without buy-backs and with one venue per stock is such a history. |
| SimulationMetrics.ProfitsAddUp | src/simulation/simulation-metrics.service.ts:110-192 | Realised plus unrealised profit is the total return, within half a cent per quota edit since the last reset. |
| SimulationMetrics.BuyingBackBreaksTheReport | src/simulation/simulation-metrics.service.ts:142-158 | A stock sold and bought back makes the report claim twice the profit. |
| SimulationSnapshots.SnapshotTable.TakeSnapshot | src/simulation/simulation-metrics.service.ts:25-92 | Upserts the row of the day, measured against the row created last. |
| SimulationSnapshots.RowOfTheDay | src/simulation/simulation-metrics.service.ts:25-92 | Column by column: the row of the day holds portfolio, cash and their sum, the profit since the row created last or the quota and its rate, the running peak and the fall from it; no other row changes. |
| SimulationSnapshots.RowsAreClosings | src/simulation/simulation-metrics.service.ts:38-92 | The table holds one row per day, its last moment, with the running peak over all moments, even overwritten ones. |
| SimulationSnapshots.DailyPnlIsOfTheDayWhen | src/simulation/simulation-metrics.service.ts:38-92 | The profit in the last stored row is the day's if and only if nothing was made before an earlier snapshot of the same day, and its rate is that profit over the value measured against. |
| SimulationSnapshots.SecondSnapshotHidesTheDay | src/simulation/simulation.scheduler.ts:106-118 | A second snapshot after the close stores a day without profit, whatever the day made. |
| SimulationSnapshots.DailyProfitsAddUp | src/simulation/simulation-metrics.service.ts:38-48 | Daily profits add up to the session's profit minus what overwritten snapshots measured; exactly, with one a day. |
| SimulationSnapshots.HighWaterIsHighest | src/simulation/simulation-metrics.service.ts:50-54 | The peak is the highest value so far and is attained, or the quota. |
| SimulationSnapshots.DrawdownIsAFraction | src/simulation/simulation-metrics.service.ts:50-54 | A drawdown lies between zero, exactly at a new high, and one, exactly when all is lost. |
| SimulationSnapshots.MaxDrawdownIsTheDeepestFall | src/simulation/simulation-metrics.service.ts:121-125 | The reported drawdown never exceeds the deepest fall seen, and is it with one snapshot a day. |
| Indicators.CalculateEMA | src/trading/market-analysis.service.ts:651-674 | The loop yields the recursive average after every value, newest first. |
| Indicators.EmaSeriesTail | src/trading/market-analysis.service.ts:651-674 | Without the newest price the series is the same series without its newest value. |
| Indicators.EmaStaysBetween | src/trading/market-analysis.service.ts:651-674 | An average never leaves the range of its prices. |
| Indicators.EmaTrailsATrend | src/trading/market-analysis.service.ts:651-674 | On a steady trend the average trails the newest price by exactly half of `period - 1` steps, from its first value on. |
| Indicators.MacdOfATrend | src/trading/market-analysis.service.ts:720-761 | On a steady trend line and signal are seven steps and the histogram is zero. |
| Indicators.CalculateMACD | src/trading/market-analysis.service.ts:720-761 | Line, signal and histogram are the recursive ones, and from 35 closes on the previous histogram is the histogram without the newest close. |
| Indicators.PreviousHistogram | src/trading/market-analysis.service.ts:720-761 | The second values of line and signal are what both were one close earlier. |
| Indicators.CalculateADXWithATR | src/trading/market-analysis.service.ts:783-853 | The loops compute Wilder's recursive averages, zero below two periods. |
| Indicators.CalculateADXSignalSnapshot | src/trading/market-analysis.service.ts:953-1027 | From two periods and one bar on: `adx` is the series' value, `prevAdx` the value without the newest bar, `plusDi` and `minusDi` the shares of Wilder's sums; on well-formed bars all lie in 0 to 100 and the two shares add up to at most 100. |
| Indicators.AdxOfPrefix | src/trading/market-analysis.service.ts:783-853 | Later bars change no earlier value. |
| Indicators.AdxIsBounded | src/trading/market-analysis.service.ts:783-853 | On bars with the close between low and high the average is a percentage. |
| Indicators.SmoothingIsWildersAverage | src/trading/market-analysis.service.ts:976-1003 | Divided by the period, each of the three sums is an average in which the newest movement counts one part in `period`. |
| Indicators.DirectionsExactly | src/trading/market-analysis.service.ts:985-1003 | The range cancels in the directional index: it is the difference of the two directions over their sum, in percent, and zero when nothing moved. |
| Indicators.SteadyMarketKeepsItsIndex | src/trading/market-analysis.service.ts:783-853 | A market that moves alike every day has the average range and the directional index of one day, however long it is watched. |
| Indicators.RisingBarsPointUp | src/trading/market-analysis.service.ts:953-1027 | Bars that climb steadily have `minusDi` zero and `plusDi` above zero. |
| DayTradeBacktest.RunDayTradeBacktest | src/screening/day-trade-selector.ts:253-330 | The loop's trades, equity, drawdown and verdict are those of the day-by-day definition. |
| DayTradeBacktest.TryTrade | src/screening/day-trade-selector.ts:289-322 | One day's filters, entry and exit. |
| DayTradeBacktest.EnteredExactlyWhen | src/screening/day-trade-selector.ts:283-307 | A day is traded if and only if twenty confirmed bars, turnover, average, range and market let it in and the high reaches (open + half of yesterday's range) * 1.002. |
| DayTradeBacktest.TradeInMoney | src/screening/day-trade-selector.ts:304-318 | One trade in money: entry with fee is paid; 98 percent of the entry comes back if the low reached that, the close otherwise, less slippage and fee. High and low matter in no other way. |
| DayTradeBacktest.ReturnGrowsWithTheClose | src/screening/day-trade-selector.ts:309-318 | Of two days entered alike and not stopped out, the one that closes higher returns more. |
| DayTradeBacktest.TradesExactlyOn | src/screening/day-trade-selector.ts:283-322 | The trades are those of exactly the days from the twenty-first bar on that have one, in order. |
| DayTradeBacktest.PassesExactlyWhen | src/screening/day-trade-selector.ts:253-350 | A backtest passes if and only if it has five trades that gain on average and together; below forty confirmed bars it has none. |
| DayTradeBacktest.MaxDrawdownIsTheDeepest | src/screening/day-trade-selector.ts:320-322 | The drawdown is the deepest fall from the running peak: no point lies deeper and one lies as deep. |
| DayTradeBacktest.ComputeDayTradeIndicators | src/screening/day-trade-selector.ts:95-130 | The true-range loop yields the average range of the fourteen newest confirmed bars. |
| DayTradeBacktest.RangesAddUp | src/screening/day-trade-selector.ts:95-130 | The ranges added up are how far each bar reaches once the previous close is counted in. |
| DayTradeBacktest.CalculateAdx | src/screening/day-trade-selector.ts:132-173 | The three loops compute the late-starting average, with its early exits. |
| DayTradeBacktest.DayAdxIsBounded | src/screening/day-trade-selector.ts:132-173 | There is a value exactly from two periods of bars on, and it is a percentage. |
| DayTradeBacktest.MirroredMarketSwapsTheRegime | src/screening/day-trade-selector.ts:132-216 | The filter treats both directions alike: on prices turned upside down a rising underlying is a falling one and the other way round, so an inverse fund is let in exactly when a long one is on the mirror image. |
| DayTradeBacktest.AlignedMarketsTrend | src/screening/day-trade-selector.ts:175-216 | No market lets in both directions; one that lets any in has sixty bars and its last close beyond the short average, which is beyond the long one. |
| DayTradeBacktest.AlignedExactlyWhen | src/screening/day-trade-selector.ts:175-216 | A market lets a direction in if and only if it has sixty bars, an index of at least 25 and its close beyond the short average beyond the long one, on the fund's side. |
| DayTradeBacktest.RegimeAllowsExactlyWhen | src/screening/day-trade-selector.ts:297-302 | The market asked is that of the day before, found under its date; no later bar of the underlying is seen. |
| DayTradeBacktest.LaterBarsChangeNoTrade | src/screening/day-trade-selector.ts:253-330 | No look-ahead: newer bars of fund and underlying leave every trade found and only add later ones. |
| DayTradeBacktest.FactorIsBounded | src/screening/day-trade-selector.ts:306-318 | On positive quotes no trade returns less than 0.98 * 0.998 * 0.99985 / 1.00015, and a stopped-out trade returns exactly that. |
| DayTradeBacktest.LossIsBounded | src/screening/day-trade-selector.ts:253-330 | After n trades equity is at least that factor to the power n, and the drawdown stays above -100 percent. |
| ZipEntry.ExtractFirstZipEntry | src/opendart/opendart.service.ts:144-188 | Both scans terminate, no read leaves the buffer, and the result is that of the recursive reading. |
| ZipEntry.FindEndRecord | src/opendart/opendart.service.ts:146-153 | The backward loop finds the last place that looks like an end record. |
| ZipEntry.ReaderInvertsWriter | src/opendart/opendart.service.ts:144-188 | Of every archive laid out per PKWARE APPNOTE.TXT section 4.3, with any directories first and any comment that makes no second end record, the first file's content is returned: as it is when stored, inflated when deflated, and an error for any other method. |
| ZipEntry.DirectoriesAloneHoldNoFile | src/opendart/opendart.service.ts:155-188 | An archive of directories alone has no entry. |
| ZipEntry.BytesOfNumbers | src/opendart/opendart.service.ts:144-166 | Numbers are read lowest byte first, and the three signatures are PK followed by two numbers. |
| ZipEntry.EndIsFound | src/opendart/opendart.service.ts:146-153 | The end record is found if and only if nothing behind its start looks like one. |
| ZipEntry.ACommentCanHideEveryFile | src/opendart/opendart.service.ts:146-153 | Behind a comment that is an end record, every non-empty archive reads as having no file. |
| CashCache.CacheIsAMap | src/trading/trading-account-cash-sync.service.ts:43-70 | After any writes each broker's market shows the balances last written there, or what it showed at the start; no write disturbs another section. |
| CashCache.ShownItemByItem | src/trading/trading-account-cash-sync.service.ts:43-70 | Item by item: a written market shows one item per balance of the last write under its broker and market, any other the items it had in order, KIS falling back to the old setting. |
| CashCache.LegacyMirrorsKis | src/trading/trading-account-cash-sync.service.ts:102-146 | The old setting's section of a market holds the balances of the last KIS write, without a broker, or still the original items. |
| CashCache.KeysAreDistinct | src/trading/trading-account-cash-sync.service.ts:148-150 | The four keys differ from each other and from the old one. |
| CashCache.CashSync.WriteCache | src/trading/trading-account-cash-sync.service.ts:102-146 | Writes the scoped setting and, for KIS, rewrites that market's part of the old one. |
| CashCache.CashSync.RefreshMarketCash | src/trading/trading-account-cash-sync.service.ts:19-30 | One write with the market's balances. |
| CashCache.CashSync.ReplaceCache | src/trading/trading-account-cash-sync.service.ts:32-41 | One write per authoritative market, in order, with that market's balances. |
| CashCache.CashSync.GetCache | src/trading/trading-account-cash-sync.service.ts:43-70 | The four sections in order, or nothing when all are empty. |

## Left out

- HTTP, tokens, rate limits, retries of reads, Slack, GraphQL, cron registration, Prisma plumbing and the React client: input, output and glue.
- Hashes and account identities are compared for equality only.
- The approval row of a pending sell (its timeouts, messages and expiry job): only the trade record's side of each decision is modelled.
- Admission guards, live-trading switches, context checks and the exact broker read before a cancel: they are free choices of the state machine, which therefore allows more schedules than the code. For the same reason serving may start at any time, since a failed takeover does not stop the process.
- A load followed by a commit of an operator or of reconciliation is one step that may use any value the row ever had.
- Limit and fill prices, execution times and messages of a record; of an audit entry only action, actor and statuses are kept.
- The unique index of broker orders is modelled for linking; storing an accepted order fails there as one more way for a write to fail.
- NotSubmitted.APostedOrderIsNeverDeclaredNotSubmitted: assumes the broker's rows of one identity are one order, and years 0100 to 9999; `NoOrderIsFoundExactlyWhen` says exactly what holds without the first.
- OpenOrders.AListedOrderIsNeverClosed: assumes that open rows of one identity, on whatever exchanges, agree on being the record's order; `OpenOrderIsSeenExactlyWhen` says exactly what holds without it.
- Toss order mapping and venues, and which exchange a Toss order belongs to.
- Upper-casing is that of ASCII; Unicode case mapping is not modelled. Values of JSON columns that are neither strings nor integers read as blank in identities.
- Database Decimal precision, floating-point rounding and the rounding of reported percentages; prices are exact reals.
- Time stamps of cached balances; position and trade counts of a snapshot.
- Strategy decisions, strategy parameters, cycles and the rebasing of accumulated quota in the simulation.
- Queue passes that throw halfway, and two passes at once: the queue is rewritten only after the loop, so a pass is taken as one undisturbed call.
- Trades created in the same instant, which the profit replay orders by `createdAt` alone; Sharpe ratio and profit factor.
- A backtest entry at a price of exactly zero, which yields no number, is taken as no entry; win rate, dates and reasons of the backtest.
- The other indicators (RSI, Bollinger, Ichimoku, oscillators), screening scores, fundamentals and regimes: thresholds and single formulas.
- Inflate and text decoding are parameters of the ZIP reader; encrypted and ZIP64 archives are not part of this model.
