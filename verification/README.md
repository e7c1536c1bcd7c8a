# Exchange model

A spot exchange keeps accounts, orders and fills in one database. Users and automated traders place and cancel orders; a worker matches each instrument's book and settles the fills; a simulator replaces the system's own liquidity and moves the reference prices; traders' commands arrive through an at-least-once log; an operator script replaces the traders' accounts. This project models that state and those transactions and proves what every run of them keeps.

Money is exact. Amounts, prices and quantities count units of 1e-10, the ten decimals of the account and order columns; a product of two of them counts units of 1e-20 and `BalanceAmount` rounds it back.

| file | what it holds |
|---|---|
| `FixedPoint.dfy`, `Sums.dfy` | rounding, and sums and sizes of finite sets |
| `Domain.dfy` | orders, validation, price-time order, the matcher, execution prices |
| `Clearing.dfy`, `Pairing.dfy` | what one pass over a book achieves: priority, no crossing, volume, and who trades how much with whom |
| `State.dfy` | the tables, the sums over them, the invariant |
| `Settlement.dfy` | one fill against the stored rows, and lists of fills |
| `Matching.dfy`, `Tick.dfy` | the matching transaction, and its properties |
| `Trading.dfy` | placement, cancellation, reconciliation |
| `Simulator.dfy`, `Members.dfy`, `Commands.dfy` | liquidity, new accounts and the bot reset, trader commands |
| `Outcomes.dfy`, `Liquidity.dfy`, `Enrolment.dfy` | what each transaction does and answers, branch by branch, in the terms of its input and the tables it finds |
| `Runs.dfy`, `Identity.dfy`, `History.dfy`, `Conservation.dfy` | what holds over every run: the invariant, identities, balances, currency totals |
| `Prices.dfy` | which quotes keep every matching transaction committing, which stop a market, and the default price mode |
| `Witnesses.dfy` | runs that reach a negative reserved balance, a negative available one, and a transaction that aborts |
| `Consumer.dfy`, `Interference.dfy` | the log, its consumer with crashes, its producers with retries, alone and among all other writers |
| `Exchange.dfy` | the transactions as they run, statement by statement over mutable tables |
| `Limiter.dfy`, `Sizing.dfy` | the request limiter, and order sizes that are always affordable |

The transactions exist twice. The class `Exchange.Database` has the tables as fields and one method per transaction, with the loops and the order of updates of the program; each method is proved to leave exactly the tables its specification function gives. The specification functions (`Trading.Place`, `Matching.MatchTick`, `Members.ResetBots` and so on) are what the theorems are about, and `Outcomes`, `Liquidity` and `Enrolment` say without them which rows each transaction changes, to what, and which it leaves. `Runs.Step` lists all transactions, and a run is any sequence of them, each atomic.

`State.Invariant` collects what holds in every reachable state: an open order has 0 < remaining <= quantity and a filled one has none; a fill joins a sell and a buy of its instrument at a positive price inside both limits and has exhausted one of them; a pair of orders has at most one fill; quantity minus remaining is the sum of an order's fills; available plus reserved is the account's funding plus what the fills imply; available is at least minus the number of the account's buy fills whose cost was rounded up; no user has more than a hundred open orders.

Some expectations are false of the code as it stands. Each is proved with an input and its exact condition:

* Available balances can fall below zero by a unit of 1e-10, although `docs/operations.md` asks for none that are negative. `Witnesses.AvailableCanGoNegative` is a run that gets there. `Settlement.OverdrawsIff` says exactly which fills take a balance below zero, `History.OnlyMatchingOverdraws` that no other transaction does, and `History.RunBoundsAvailable` bounds the effect over a run.
* Reserved balances can fall below zero too. A market buy reserves with 1.05 times the reference before the column rounds that price, so the reserved column equals the sum over open orders only while reference prices are multiples of twenty units, which includes every price of at most eight decimals. `Witnesses.ReservedCanGoNegative` is a run, `Trading.PlacementExactIffStorable` and `Trading.LargeBuysDrift` are the condition, `History.ReservedNegativeIff` says when a reserved balance is negative after any run. `History.RunKeepsReservations` is the equation over runs that meet the condition, and by `Prices.DefaultModeIsExact` all runs with generated prices do.
* An order whose INSERT fails is answered `Invalid`, and the consumer commits past it. `Consumer.CommitLosesIff` says at every offset exactly when a commit loses its command, `Consumer.FailedInsertIsCommittedPast` shows the loss at any offset, `Consumer.CrashRefinement` holds with such entries left out, `Interference.ExactlyOnceAmongWriters` among other writers, and `Consumer.ExactlyOnce` asks only that no offset is committed right after a failed INSERT.
* A matching transaction that would trade at a price of zero aborts, so it need not commit. `Witnesses.TickCanAbort` is a run: one live quote of two fifths of a cent. `Tick.AbortsIff` is the condition in every state, read off the books before any matching: two orders whose places in the queues overlap would trade for nothing. `Prices.TinyQuoteStopsMarket` is the family of quotes that stop a market without user bids, `Simulator.LevelsPositiveIff` the quotes that post no zero, `Prices.RunAlwaysCommits` the runs. The invariant and the money theorems hold in aborting runs as well; what needs the transaction to commit says so with `Tick.Commits`.

## Model

| member | source | states |
|---|---|---|
| Domain.ValidOrderIff | crates/domain/src/lib.rs:76-101 | an order is accepted exactly when its identifier and pair have sensible lengths, its quantity is positive, at most a million and of at most ten decimals, and such a price (up to 1e12) is present on limit orders only |
| Domain.ValidOrderIsBounded | crates/domain/src/lib.rs:85-98 | every accepted quantity and price is a positive bounded number of units |
| Domain.UnitsExact | crates/domain/src/lib.rs:85-98 | the units of a decimal are the number its mantissa and scale stand for |
| Domain.SymbolSplits | crates/trading/src/lib.rs:91-101 | base and quote are the parts of the pair before and after its first dash, the quote up to the next dash or the end |
| FixedPoint.BalanceAmountIff | crates/domain/src/lib.rs:10-13 | an amount is the nearest unit to its product, midpoints away from zero |
| FixedPoint.RoundHalfEvenIff | crates/simulator/src/main.rs:213-235 | rounding to decimals is to the nearest, midpoints to even |
| Domain.AheadIff | crates/domain/src/lib.rs:110-122 | an order is ahead of another of its side if its price is better, or the same and it is older |
| Domain.SortSorts | crates/domain/src/lib.rs:126 | the book ends up in price-time order with the same orders in it |
| Domain.SortIsIdempotent | crates/domain/src/lib.rs:126 | re-sorting a sorted book, exhausted makers included, changes nothing |
| Domain.SortedIsUnique | crates/domain/src/lib.rs:111-122 | with distinct sequences the comparison leaves one possible order of a book |
| Domain.MatchingIgnoresBookOrder | crates/domain/src/lib.rs:125-146 | the matcher's fills and remainders are the same for every permutation of same-side makers |
| Domain.MatchTaker | crates/domain/src/lib.rs:125-146 | sorting and walking the makers in place computes the greedy specification: final taker, final makers and fills |
| Domain.ExecutionPriceWithinLimits | crates/domain/src/lib.rs:296-312 | the price is inside both limits, and positive unless an order that states a price states zero; the older of two limit orders trades at its limit; a market order never sets the price against a limit order; two market orders trade at the reference, or at the cap where that is lower |
| Clearing.TakerPriority | crates/domain/src/lib.rs:125-146 | one taker trades with a maker only after every better one is exhausted, only at crossing prices, and stops only when it is filled or nothing open crosses it |
| Clearing.BookClears | crates/worker/src/main.rs:131-133 | after a pass both sides obey price-time priority, no open buy crosses an open sell, and everything that bought would pay what everything that sold asks |
| Clearing.BookConserves | crates/domain/src/lib.rs:135-143 | the quantity the fills carry is what left the buys and what left the sells |
| Clearing.PassTradesClearingVolume | crates/worker/src/main.rs:131-192 | a pass trades exactly the maximum over prices of the smaller of demand and supply |
| Clearing.UncrossedTradesNothing | crates/domain/src/lib.rs:132-134 | a book without a crossing pair passes through unchanged, without fills |
| Clearing.FewerFillsThanOpenOrders | crates/domain/src/lib.rs:135-143 | a pass that trades emits fewer fills than the book has open orders |
| Clearing.FreeBidTradesIff | crates/domain/src/lib.rs:125-146 | in a pass a bid at zero trades exactly when one is open and more is offered for nothing than all positive bids together take |
| Pairing.TakerTakesShares | crates/domain/src/lib.rs:125-146 | a buy takes from each sell exactly the part of its own length that the sell's place covers |
| Pairing.PassTradesOverlaps | crates/worker/src/main.rs:131-133 | a buy and a sell have a match if and only if both are open, they cross and their places in the two queues overlap; the quantity is the length of the overlap |
| Settlement.FillIsNew | crates/worker/src/main.rs:147-160 | ON CONFLICT never suppresses a computed fill: the pair has not traded before |
| Settlement.RecordedFillIsIgnored | crates/worker/src/main.rs:147-160 | a fill already recorded with its price and quantity is not settled again |
| Settlement.ClampNeverApplies | crates/worker/src/main.rs:257-275 | GREATEST never takes effect, both remainders fall by the quantity, and one reaches zero |
| Settlement.PostingsExplained | crates/worker/src/main.rs:276-306 | the account updates of a fill add up to what the fill implies, and lower each reservation by what the order stops holding, buyer and seller possibly the same |
| Outcomes.FillOutcome | crates/worker/src/main.rs:224-309 | settling a fill records it, takes its quantity from both orders and closes those at zero, pays the cost from the buyer's reservation and the coins from the seller's, and changes nothing else; a system order moves no balance |
| Settlement.ReleaseCoversCost | crates/worker/src/main.rs:249-253 | a buy's release is short of its cost by at most one unit, only when the cost was rounded up, and exactly when the price saves no rounded unit and both parts of the reservation round up but their sum not as much |
| Settlement.ReleaseCanFallShort | crates/worker/src/main.rs:249-253 | a fill whose release is one unit short of its cost |
| Settlement.OverdrawsIff | crates/worker/src/main.rs:249-306 | a fill takes an available balance below zero exactly when it is at zero, pays for the buy, gets nothing from the sell, and the release falls short; it is then one unit below |
| Witnesses.AvailableCanGoNegative | crates/worker/src/main.rs:249-284 | a run from the migrated database that leaves a user with minus one unit available |
| Settlement.ApplyFillKeepsInvariant | crates/worker/src/main.rs:224-309 | settling a tradable fill keeps the whole invariant |
| Settlement.ApplyFillKeepsResidual | crates/worker/src/main.rs:249-253 | settling a fill moves no account away from the reservation equation |
| Settlement.ApplyFillsKeepsInvariant | crates/worker/src/main.rs:131-192 | settling a list of fills, each tradable when its turn comes, keeps the invariant |
| Settlement.ApplyFillsCommute | crates/worker/src/main.rs:277-306 | fills on disjoint orders settle to the same tables in either order, accounts shared or not |
| Matching.PassNames | crates/worker/src/main.rs:93-126 | every match of a pass joins an open buy and an open sell of the instrument |
| Matching.TakerRefines | crates/worker/src/main.rs:132-192 | if every computed price is positive, settling one buy's fills row by row keeps stored and in-memory remainders equal, each release computed from the remainder of its moment |
| Matching.BookRefines | crates/worker/src/main.rs:131-192 | the same over a whole pass, with no row outside the book touched |
| Tick.TickSettlesEveryFill | crates/worker/src/main.rs:66-193 | if every computed price is positive, the matching transaction settles every computed fill and ends with the stored book equal to the in-memory one |
| Tick.PricesStatedCommits | crates/worker/src/main.rs:143-146 | while no open order of the instrument bids or asks zero, market sells aside, the transaction does not abort |
| Tick.TickFillsAreOverlaps | crates/worker/src/main.rs:131-146 | a tick's fills are exactly the overlaps of the two queues, priced from the loaded orders: who trades with whom, how much, at which price |
| Tick.TickPricesAreFair | crates/worker/src/main.rs:133-146 | every fill joins a stored buy and sell at the price that their types, limits and sequences and the market's reference fix |
| Tick.BookIff | crates/worker/src/main.rs:78-126 | a book holds exactly the instrument's open and partially filled orders of its side, as stored |
| Tick.AbortsIff | crates/worker/src/main.rs:143-146 | in every state the transaction aborts if and only if two orders whose places overlap would trade for nothing: the bid is at zero, or a limit ask at zero meets a market buy or a younger limit buy |
| Tick.FreeBidsDecide | crates/worker/src/main.rs:143-146 | while no limit order offers for nothing, it aborts exactly when a bid at zero is open and more is offered for nothing than all positive bids together take |
| Tick.FreeBidsAbort | crates/worker/src/main.rs:143-146 | when all open bids are at zero and one meets a sell, the transaction aborts and changes nothing |
| Tick.TickKeepsInvariant | crates/worker/src/main.rs:66-193 | a matching transaction keeps the invariant and every account's distance from the reservation equation |
| Tick.TickUncrosses | crates/worker/src/main.rs:66-193 | after a transaction that commits no open buy meets an open sell of the instrument |
| Tick.QuietTick | crates/worker/src/main.rs:66-193 | with nothing to bring together a matching transaction changes nothing |
| Tick.TickIsIdempotent | crates/worker/src/main.rs:66-193 | a second matching transaction right after the first changes nothing, and computes no fill if the first committed |
| Tick.TickTradesClearingVolume | crates/worker/src/main.rs:131-192 | the computed fills trade the equilibrium volume of the stored book |
| Tick.TickEmitsFewFills | crates/worker/src/main.rs:127-192 | a transaction that trades emits fewer fills than there were open buys and sells |
| Tick.TickHonoursPriority | crates/worker/src/main.rs:131-133 | if an order trades, every resting order of its side with a better price, or the same price and older, ends completely filled |
| Tick.OtherTickSameFills | crates/worker/src/main.rs:51-64 | a tick elsewhere does not change the fills an instrument's tick computes |
| Tick.TicksCommute | crates/worker/src/main.rs:51-77 | ticks on two instruments give the same tables in either order |
| Trading.PlaceChangesOnlyByCreating | crates/trading/src/lib.rs:35-62 | a placement that creates no order changes nothing; one that creates it had no earlier order of that client id |
| Trading.PlaceInserts | crates/trading/src/lib.rs:63-143 | a creating placement inserts the one open row, found the funds available, and moves exactly the reservation from available to reserved |
| Outcomes.PlaceAnswers | crates/trading/src/lib.rs:23-116 | each refusal, the repeated client id and the new order come under exactly their own conditions; Unavailable exactly on a stale market after the earlier checks; a repeated id answers the stored order's present status; all but a new order change nothing |
| Outcomes.PlaceCreates | crates/trading/src/lib.rs:72-143 | a created order is stored with the request's own terms and price, one account holds its reservation, and nothing else changes |
| Trading.PlacementExactIffStorable | crates/trading/src/lib.rs:74-90 | the amount a market buy reserves equals what its stored row holds, for all quantities up to any bound of at least twenty coins, if and only if the reference is a multiple of twenty units |
| Trading.LargeBuysDrift | crates/trading/src/lib.rs:74-90 | with any other reference every market buy of twenty coins or more reserves a different amount |
| Witnesses.ReservedCanGoNegative | crates/trading/src/lib.rs:74-90 | a run from the migrated database, one market buy of 1.25 coins and its cancellation, that leaves a user with minus one unit reserved |
| Trading.PlaceKeepsInvariant | crates/trading/src/lib.rs:18-176 | placement keeps the invariant, the limit of open orders included |
| Trading.PlaceResidual | crates/trading/src/lib.rs:83-116 | placement moves only the account it reserves from off the reservation equation, by the rounding of a market buy's cap |
| Trading.CancelRowsCancels | crates/trading/src/lib.rs:227-256 | cancelling rows marks exactly those cancelled and keeps every account's distance from the equation |
| Trading.CancelRowsRefund | crates/trading/src/lib.rs:240-253 | cancelling never lowers an available balance |
| Trading.CancelKeepsInvariant | crates/trading/src/lib.rs:199-262 | cancellation of one or all orders keeps the invariant and the reservation equation |
| Trading.CancelTwice | crates/trading/src/lib.rs:214-226 | nothing targeted stays open, so a repeated cancellation refunds nothing and answers NotFound or an empty list |
| Outcomes.CancelOutcome | crates/trading/src/lib.rs:199-262 | exactly the user's open orders that are meant, the named one or all, become cancelled; each account gains exactly what they held in it; nothing else changes; the answer lists them oldest first, or is NotFound |
| Outcomes.RefundsStayWithUser | crates/trading/src/lib.rs:252-253 | no account but the user's own gains from a cancellation |
| Outcomes.OneRefund | crates/trading/src/lib.rs:240-253 | cancelling one order refunds what that one holds |
| Trading.ReservedMatchesOpenOrders | migrations/0007_exact_reservations.sql:4-18 | under the reservation equation reserved is never negative, and zero without open orders |
| Trading.ReconcileEstablishesReservations | migrations/0007_exact_reservations.sql:3-18 | the migration establishes the equation for every user, keeps every total, leaves the market maker and everything else alone, and changes nothing where the equation held |
| Simulator.NextPriceStaysInBand | crates/simulator/src/generator.rs:11-23 | for every noise the next price stays between half and one and a half times the anchor and never below a cent |
| Simulator.NextPriceIs | crates/simulator/src/generator.rs:15-22 | away from the band's ends the next price is the cent nearest the noisy step, beyond an end it is that end |
| Simulator.PullsToAnchor | crates/simulator/src/generator.rs:16-19 | without noise the step only closes in on the anchor |
| Simulator.LevelsPositiveIff | crates/simulator/src/main.rs:202-239 | all four liquidity levels have a positive price exactly when the quote exceeds 50251256 units |
| Simulator.TinyQuotePostsFreeBid | crates/simulator/src/main.rs:204-207 | the widest bid around a quote of 50251256 units is at zero, and with a market sell it would have a zero execution price |
| Prices.TinyQuoteStopsMarket | crates/simulator/src/main.rs:193-239 | where no user has an open buy, a quote of at most 49900199 units makes the market's matching transaction abort although its own bid and ask meet |
| Witnesses.TickCanAbort | crates/worker/src/main.rs:143-146 | one quote from the migrated database after which the transaction aborts although two orders meet |
| Simulator.UsersAloneKeepsResidual | crates/simulator/src/main.rs:193-201 | what the simulator does never moves an account off the reservation equation |
| Simulator.SimTickKeepsInvariant | crates/simulator/src/main.rs:135-264 | a simulator transaction with any positive quotes keeps the invariant and touches no user's row |
| Liquidity.QuoteOutcome | crates/simulator/src/main.rs:178-239 | a quote sets a fresh reference, cancels the market's open system orders on both sides, posts its four levels, and changes nothing else |
| Liquidity.LevelIsClose | crates/simulator/src/main.rs:213-235 | a level's price is within half a cent of its share of the quote, and its size costs its notional to within half a step |
| Liquidity.TickShowsQuotes | crates/simulator/src/main.rs:147-250 | after a tick every quoted market shows its quote, and its open system orders are exactly the four levels |
| Liquidity.OwnLevelsDoNotMeet | crates/simulator/src/main.rs:213-220 | above two and a half dollars a market's own bids stay below its own asks |
| Members.EnrolKeepsInvariant | crates/api/src/main.rs:204-218 | new funded accounts keep the invariant and satisfy the reservation equation |
| Enrolment.RegisterOutcome | crates/api/src/main.rs:196-218 | a registration opens four accounts, a hundred thousand dollars and no coins, and changes no other |
| Enrolment.BootstrapOutcome | crates/simulator/src/trader.rs:63-108 | a trader's first start funds it with dollars and coins, a later one changes nothing |
| Members.ResetKeepsInvariant | scripts/reset-bots.sql:4-45 | the bot reset keeps the invariant and every remaining account's distance from the equation, and is all or nothing |
| Members.ResetSparesHumans | scripts/reset-bots.sql:14-43 | a committed reset leaves human accounts, orders and fills as they were, nothing of the bots, and no fill without its two orders |
| Enrolment.ResetOutcome | scripts/reset-bots.sql:8-43 | the reset is refused, and changes nothing, exactly when a bot traded with a human; otherwise the bots' orders, fills and accounts go, their successors are funded, and nothing else changes |
| Commands.RetryChangesNothing | crates/worker/src/commands.rs:79-95 | a command that asks to be retried has changed nothing |
| Commands.ApplyTwice | crates/worker/src/commands.rs:56-96 | applying a command again has no further effect and stays final |
| Commands.ApplyKeepsInvariant | crates/worker/src/commands.rs:56-96 | applying any command keeps the invariant |
| Outcomes.StrangersCommandIsIgnored | crates/worker/src/commands.rs:58-69 | a command of someone else than the trader's present user does nothing, for good |
| Outcomes.OwnPlacement | crates/worker/src/commands.rs:70-75 | a trader's own placement is a placement, with its order and reservation when it can act |
| Outcomes.OwnCancellation | crates/worker/src/commands.rs:76-83 | a trader's own cancellation of its open order cancels that one and moves what it held to available; it is final |
| Outcomes.RetryIff | crates/worker/src/commands.rs:79-95 | a command is retried exactly when it is an owned placement that reaches a stale market |
| Runs.StepKeepsInvariant | crates/worker/src/main.rs:51-64 | every transaction of the exchange keeps the invariant |
| Runs.RunKeepsInvariant | crates/worker/src/main.rs:66-309 | so does every run, in any interleaving |
| Runs.GenesisOk | crates/simulator/src/main.rs:103-133 | the migrated database with the market maker's rows satisfies the invariant and the reservation equation |
| Identity.TerminalOrdersAbsorb | crates/trading/src/lib.rs:214-226 | a filled or cancelled order's row never changes again; a system order's stays for good, a user's only a reset deletes, with its accounts, for good |
| Identity.OnceOnly | crates/trading/src/lib.rs:29-51 | over any run a client order id creates at most one order and reservation, and cancellation refunds it at most once |
| Identity.OldCommandsAreFenced | crates/worker/src/commands.rs:58-69 | after a reset a command with a bot's old id has no effect in any later state |
| History.StepResidual | crates/trading/src/lib.rs:74-116 | no transaction but a placement moves an account off the reservation equation, and that by the stated drift |
| History.RunKeepsReservations | migrations/0007_exact_reservations.sql:4-18 | in every run with storable reference prices each reserved balance is the sum over the open orders |
| History.RunResidual | crates/worker/src/main.rs:249-253 | over any run the distance from the equation is the sum of the drifts of the market buys placed |
| History.ReservedNegativeIff | crates/trading/src/lib.rs:240-253 | after any run reserved is negative exactly when the drifts outweigh the open orders, and without open orders it is the sum of the drifts |
| History.RunBoundsAvailable | crates/worker/src/main.rs:249-284 | over any run available is at least minus the account's number of buy fills in units, counting those rounded up, and not negative when none of its own costs was rounded up |
| History.OnlyMatchingOverdraws | crates/trading/src/lib.rs:102-116 | no transaction but a matching one takes an available balance below zero |
| Prices.RunAlwaysCommits | crates/worker/src/main.rs:143-146 | in every state of a run whose quotes exceed 50251256 units, the matching transaction of every market commits |
| Prices.GeneratedIsStorable | crates/simulator/src/generator.rs:11-23 | from an anchor of at most eight decimals every generated price is a multiple of twenty units |
| Prices.DefaultModeIsExact | crates/simulator/src/main.rs:152-177 | with generated prices every state reached from the migrated database satisfies the reservation equation, has no negative reserved balance, and lets every matching transaction commit |
| Conservation.FillMovesTotal | crates/worker/src/main.rs:276-306 | a fill between users keeps every currency's total, self-trades included; otherwise it moves by the system's leg |
| Conservation.TickConservesCurrency | crates/worker/src/main.rs:277-306 | a matching transaction changes a currency's total only through system counterparties, and not at all when it aborts |
| Conservation.PlaceConservesCurrency | crates/trading/src/lib.rs:102-116 | placing keeps every currency's total |
| Conservation.CancelConservesCurrency | crates/trading/src/lib.rs:199-262 | the cancellation transaction keeps every currency's total |
| Conservation.FundingTotal | crates/api/src/main.rs:204-218 | new users bring exactly their initial funding each |
| Conservation.RunConservesCurrency | crates/worker/src/main.rs:276-306 | over any run a currency's total changes only by new accounts' funding, removed bots' holdings and the system's side of fills |
| Consumer.CrashRefinement | crates/worker/src/commands.rs:25-53 | under any crashes, lost answers, ambiguous commits, restarts and appends the tables are the fold of apply over the committed entries or one more, entries with a failed INSERT left out |
| Consumer.ExactlyOnce | crates/worker/src/commands.rs:25-53 | unless an offset is committed right after a failed INSERT, the tables are the fold over the first n or n + 1 entries, n the committed offset |
| Consumer.DroppedIff | crates/worker/src/commands.rs:45-51 | an entry is left out of the fold exactly when its offset was committed right after its INSERT failed |
| Consumer.NormalProgress | crates/worker/src/commands.rs:47-51 | undisturbed, a final answer is applied once and its offset committed, and a retry leaves everything as it was |
| Consumer.PoisonIsPassed | crates/worker/src/commands.rs:30-41 | a message that does not parse is committed past and changes nothing |
| Consumer.CommitLosesIff | crates/worker/src/commands.rs:51 | at any offset a commit keeps the effect of its command exactly when the INSERT had not failed |
| Consumer.FailedInsertIsCommittedPast | crates/trading/src/lib.rs:143 | at any offset where the consumer would create an order, a failed INSERT and a commit move the offset on and leave the order missing |
| Interference.MovesAreRun | crates/worker/src/commands.rs:25-96 | the consumer's events interleaved with any other transactions take the tables through a run, so every theorem about runs holds |
| Interference.CommandActsOnce | crates/worker/src/commands.rs:56-96 | among any other transactions, and however often it is applied, a command changes the tables at most once |
| Interference.CommittedWasAnswered | crates/worker/src/commands.rs:45-51 | no offset is committed past a command that was not answered, failed INSERTs aside |
| Interference.AnsweredPlacementHasActed | crates/worker/src/commands.rs:70-83 | a trader's placement that can act when an attempt reaches the database creates its order, and no other later |
| Interference.CommittedCancelHasActed | crates/worker/src/commands.rs:47-51 | a trader's cancellation of its own order has acted once its offset is committed, whatever crashes and whoever else writes: the order is not open |
| Interference.ExactlyOnceAmongWriters | crates/worker/src/commands.rs:25-53 | with other writers, crashes, lost answers and restarts the invariant holds, committed commands were answered, and none takes effect twice |
| Consumer.FoldIsApplyAll | crates/worker/src/commands.rs:25-53 | the fold is that prefix of the log applied in order |
| Consumer.DuplicatesCollapse | crates/config/src/kafka.rs:73-90 | however often each send was repeated, the log has the effect of sending once |
| Consumer.Send | crates/config/src/kafka.rs:64-91 | sending appends copies of the one command, returns exactly on an acknowledgement, and then at least one copy is stored |
| Limiter.Controls.constructor | crates/api/src/security.rs:30-31 | the table starts empty |
| Limiter.Controls.Admit | crates/api/src/security.rs:36-49 | pruning, the capacity check and the count change the table and answer exactly as specified |
| Limiter.AdmitOutcome | crates/api/src/security.rs:36-49 | a request is let through exactly when its live bucket is below the limit, or fewer than 4096 buckets are live and the limit is not zero; then it is counted, expired buckets go, the others stay |
| Limiter.TableBounded | crates/api/src/security.rs:39-42 | the table never exceeds 4096 buckets |
| Limiter.AtMostTheLimitPerWindow | crates/api/src/security.rs:43-48 | within one bucket's window a key is let through at most its limit |
| Limiter.AtMostTwiceTheLimit | crates/api/src/security.rs:36-49 | in any sixty seconds, both ends included, at most twice its limit |
| Limiter.TwiceIsReached | crates/api/src/security.rs:39-48 | for every key and positive limit twice the limit is reached |
| Limiter.KeysAreIsolated | crates/api/src/security.rs:38-48 | while the pruned table knows the key or has room for it at its own requests, other keys' traffic never changes its answers |
| Sizing.SizeExistsIff | crates/frontend/src/sizing.rs:12-39 | a size is offered exactly for the four percentages of a positive balance that pays for one step |
| Sizing.SizeIsGreatest | crates/frontend/src/sizing.rs:12-39 | a size is the greatest number of steps of 1e-8, up to a million coins, that the offered percentage of the balance pays for at one, the limit, or 1.05 times the reference |
| Sizing.SizeNeedsPrice | crates/frontend/src/sizing.rs:15-30 | without a balance, or the price or reference the order needs, there is no size |
| Sizing.SizedOrderIs | crates/simulator/src/trader.rs:195-200 | the submitted order is for the sized quantity, on the side and of the type it was sized for |
| Sizing.BotSizeIsGreatest | crates/simulator/src/trader.rs:179-194 | a trader's size is the greatest number of steps its fraction of the balance pays for |
| Sizing.SizeFillsTheBudget | crates/frontend/src/sizing.rs:31-36 | a size costs at most its share, and one more step of 1e-8 would exceed it unless capped at a million |
| Sizing.SizedReserveIsAffordable | crates/frontend/src/sizing.rs:19-36 | what placement would reserve for a sized order never exceeds the balance it was sized from |
| Sizing.SizedOrderIsFunded | crates/trading/src/lib.rs:102-116 | placing a sized order is never refused for lack of funds |
| Sizing.BotReserveIsAffordable | crates/simulator/src/trader.rs:165-194 | a trader's order never reserves more than its balance, nor a tenth of it by more than rounding |
| Exchange.Database.PlaceOrder | crates/trading/src/lib.rs:18-176 | the placement transaction leaves the tables and gives the answer that Place specifies |
| Exchange.Database.CancelRow | crates/trading/src/lib.rs:230-253 | releasing one locked row leaves the tables that CancelRow specifies |
| Exchange.Database.CancelOrders | crates/trading/src/lib.rs:199-262 | locking the rows and releasing them one by one leaves the tables and gives the answer that CancelOrders specifies |
| Exchange.Database.SelectBySequence | crates/trading/src/lib.rs:214-217 | the rows come oldest first |
| Exchange.Database.LoadBook | crates/worker/src/main.rs:78-126 | the fetched rows are split by side in order, and each order is remembered as loaded with its type |
| Exchange.Database.RecordFill | crates/worker/src/main.rs:147-309 | inserting a fill and settling it update by update leaves the tables that ApplyFill specifies |
| Exchange.Database.SettleMatches | crates/worker/src/main.rs:133-191 | one buy's matches are priced from the orders as loaded and settled in turn, unless a price is not positive |
| Exchange.Database.MatchOneBuy | crates/worker/src/main.rs:132-192 | one round of the matching loop advances both the in-memory pass and the settled tables, or proves that the transaction aborts |
| Exchange.Database.TickInstrument | crates/worker/src/main.rs:66-193 | loading, matching and settling leave the tables that MatchTick specifies, or the old ones on an abort |
| Exchange.Database.QuoteMarket | crates/simulator/src/main.rs:178-239 | one market's reference, withdrawn liquidity and four new levels are as SimMarket specifies |
| Exchange.Database.SimulatorTick | crates/simulator/src/main.rs:147-264 | the loop over markets leaves the tables that SimTick specifies |
| Exchange.Database.ApplyCommand | crates/worker/src/commands.rs:56-96 | the identity check, the action and the verdict are as Apply specifies |
| Exchange.Database.ResetBots | scripts/reset-bots.sql:8-43 | the script's statements in order leave the tables that ResetBots specifies, and it refuses exactly on a human counterparty |
| Exchange.Database.ExpectedReserve | migrations/0007_exact_reservations.sql:4-12 | aggregating over the rows gives the sum of outstanding reservations |
| Exchange.Database.Reconcile | migrations/0007_exact_reservations.sql:12-18 | rewriting differing accounts row by row leaves the tables that Reconcile specifies |

## Left out

- HTTP routing, sign-in, password hashing, tokens, telemetry, metrics, trace contexts, outbox events, audit rows and client deployment: plumbing without effect on orders and money.
- Leaderboard, tickers, trade feed, order-book display and the browser front end: read-only views. The profit baseline columns of users are theirs and are not part of the tables here.
- SQL locks, deadlocks and isolation: every transaction is one atomic step. An advisory lock not obtained, a deadlock or an outage before commit is `AbortStep`, which changes nothing.
- The decimal library's 96-bit mantissa and 28-digit quotients: products and quotients are exact, and the overflow branches of its checked operations cannot be taken. String lengths count characters where the program counts bytes.
- Order ids: a user's order is named by user and client order id, which the orders table keeps unique, and a system order by its sequence number, where the program draws random ids. Deleted rows of a reset bot never come back because its user id never does.
- The table of users keeps every id ever drawn, also those a reset deletes, so that a fresh id is one that was never drawn; `funded` is a history field of an account row that the program does not store.
- Price freshness is one boolean per market, which a quote sets and time may clear; the Coinbase client and wall clocks are not part of this model. A trader's bootstrap in the stale case and a registration that fails midway are aborted steps.
- Random draws: the price noise, the traders' fraction, side and type are arbitrary values in their ranges; seeds and generator state are left out.
- Runs.StepKeepsInvariant: no one signs in as the market maker, whose orders are the simulator's alone.
- Simulator.SimTickKeepsInvariant: liquidity levels are computed from the quote in units of 1e-10, so a live quote with more decimals is taken as already rounded by the column, and one that the column rounds to zero is not a step.
- Consumer.CrashRefinement: the log is the only writer, as the fold over its entries requires; other writers are in `Interference`. Brokers, partition assignment and rebalancing are left out. The endless loop, its crashes and its restarts are the events of a state machine rather than a method that does not return.
- Consumer.Send: the loop runs over the broker's answers, so that a broker that never acknowledges is a list without an acknowledgement.
- The traders' tick: its cancellation of stale orders is a series of cancel steps, and its draw of an order is any placement; only its sizing is computed.
- `Runs.Genesis` is the schema after its seeds; the one-time repair migration 0005 and the remaining migrations do not touch orders or balances of a new database.
- Limiter.AtMostTwiceTheLimit: a key's limit never varies, as in the API, where the key's prefix decides it; the mutex around the table makes each request one step.
