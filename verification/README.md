# Verified model of the perpetual exchange

A Dafny model of the margin ledger and trading contracts of a dYdX-style perpetual exchange, and of the
order matching that feeds it, with proofs of what they guarantee over all inputs and all runs.

* **Ledger.** `Ledger` gives each call of the perpetual contract as a function from state to state, `None`
  being a revert. `Perpetual` is the contract itself, a class with the storage as fields: balances are read
  into memory objects, changed in place and written back, and a failed call rolls the storage back. Each of
  its methods is proved to do what the function says. The proofs about whole runs are in `Solvency`,
  `FinalPrice`, `FinalPayout`, `SettlementFrequency`, `Collateral`, `MarginFlow` and
  `Permissions`.
* **Traders.** `Liquidation`, `Deleveraging` and `Orders` (both order contracts, which share their state and
  differ in pricing), with the shared arithmetic in `TakeOver`, and batches made of them in `BatchDiscipline` and
  `TakeOverChain`.
* **Oracles.** `FundingOracle` and `MirrorOracle`.
* **Liquidator proxy.** `LiquidatorProxy`, composed of calls on the perpetual.
* **Client side.** `Matcher` and `OrderBook` (the matching loop and the stored book), `TradeOperation` (the
  batch builder), `CallData` (its encoding), `MatchSettlement` (what the matched trades do once executed) and
  `BookOnChain` (the stored amounts beside those of the order contract).

How the source's things appear:

* Balances and indexes keep sign and magnitude apart, with two zeros; `Margin()`, `Position()` and `ToInt()`
  give the represented integer. The widths of 32, 120 and 128 bits are subset types with explicit range checks.
* An address is a number below 2^160, and sums run over all of them.
* Block time, oracle price, funder answer and trader answers are inputs. A trader is any function of the state
  it can read in the middle of a batch, so every theorem about batches holds for any trader.
* Flag words and bitmaps are the sets of their bits. The hash of an order is the order itself. A signature is
  represented by the address recovered from it.
* Prices and fees of the client side are decimals (`real`), and become 18-digit fixed-point numbers where they
  enter the contract.

Where the code and what is said about it differ, the model follows the code:

* The funding oracle's comment gives 45 minutes from one end of the range to the other; since the constants are
  rounded down, it takes more than 2700 seconds (`FundingOracle.SpeedLimit`, `FundingOracle.FullSwingExactly`).
* The comment on the final check of a batch lists three conditions for an under-collateralized account; the
  code also demands positive-side value, so a short without margin cannot be taken over in part
  (`TakeOver.MakerAcceptedExactly`, `Liquidation.PartOfBareShortIsRefused`).
* The limit of a buy order binds only if the margin formula does not underflow at the limit
  (`Orders.BuyLimitExactly`, `Orders.FreeFillIsAccepted`).
* The mirror oracle's comment says that the number of messages is always odd; the code does not demand it, and
  `MirrorOracle.MedianIsRobust` covers even numbers with the smaller bound.
* The check for expired orders is meant to have a configured buffer of seconds. It is handed to the list's filter
  as it is, which passes each order's place in the list as that parameter, so the place is the buffer
  (`Matcher.MatchedOrders`, `OrderBook.PostUncrossedExactly`, `OrderBook.SkippedByPlace`).
* A posted order is stored with what it was filled by that match, also if it was filled before, so that an order that
  is posted again is offered for more than the contract lets it be filled (`BookOnChain.BookAgreesExactly`).
* The matcher compares prices and not fees; a match that the contract refuses for the taker's fee limit is sent all
  the same (`MatchSettlement.MatchIsValidExactly`, `MatchSettlement.FeeOfMatchIsRefused`).
* The initializer does not demand a collateral requirement of at least 100 percent and the liquidator proxy's
  constructor does not demand a fee of at most 50 percent; neither is assumed here.

## Model

| member | source | states |
|---|---|---|
| Solvency.AlwaysSolvent | contracts/protocol/v1/impl/P1Settlement.sol:68-198 | From deployment on, after any calls with any oracle, funder and trader answers: BASE times the tokens held covers the sum over all addresses of each account's equity, including funding it has not settled (at the final price once that is fixed, at every price before). Before final settlement all positions cancel. An account whose cached timestamp is the global one has the global index value, so skipping its settlement is sound. |
| Solvency.StepKeepsInv | contracts/protocol/v1/impl/P1Settlement.sol:118-198 | Every single call, accepted or reverted, keeps the solvency inequality, the cancelling of positions and the coherence of cached indexes. |
| Solvency.FundingIsFloor | contracts/protocol/v1/impl/P1Settlement.sol:167-186 | Crediting rounded down and debiting rounded up is one rule: the margin changes by the floor of -(index difference) * position / BASE, and the position stays. |
| Solvency.SettleAccountEquity | contracts/protocol/v1/impl/P1Settlement.sol:135-198 | Settling an account never adds to what it is owed, takes less than one token unit, and leaves every other account's equity as it was. |
| Solvency.SettleAccountsKeeps | contracts/protocol/v1/impl/P1Settlement.sol:118-130 | After settling a list, every listed account has the global index value; total equity did not grow at any price and positions did not change. |
| Solvency.IndexMovesByFunding | contracts/protocol/v1/impl/P1Settlement.sol:76-103 | The global index moves by funding * price / BASE rounded towards zero, with the funding's sign, and does not move twice in one block. |
| Solvency.IndexUpdateIsAcceptedExactly | contracts/protocol/v1/impl/P1Settlement.sol:68-113 | The index can be updated if and only if time has not run back and, in a new block, the time fits 32 bits and the moved index 128. |
| Solvency.SettlementIsAcceptedExactly | contracts/protocol/v1/impl/P1Settlement.sol:135-198 | An account can be settled if and only if its margin with the payment fits 120 bits. |
| Solvency.LoadContextKeeps | contracts/protocol/v1/impl/P1Settlement.sol:68-113 | Moving the global index moves no value in or out, because positions cancel. |
| Solvency.ApplyResultKeeps | contracts/protocol/v1/impl/P1Trade.sol:118-144 | A trade between settled accounts, with any amounts a trader returns, keeps total equity and total position exactly. |
| Solvency.PayOutKeeps | contracts/protocol/v1/impl/P1FinalSettlement.sol:94-126 | Paying out and overwriting the balance never takes more from the tokens than it takes from what is owed. |
| Solvency.EnableFinalSettlementKeeps | contracts/protocol/v1/impl/P1Admin.sol:123-145 | Fixing the price turns the price-independent inequality into the one at the final price. |
| Ledger.ApplyResultMoves | contracts/protocol/v1/impl/P1Trade.sol:123-144 | Maker and taker exchange exactly the returned margin and position, in opposite directions, and no other balance changes. |
| MarginFlow.DepositSettles | contracts/protocol/v1/impl/P1Margin.sol:58-77 | A deposit settles the account and then adds exactly the amount to its margin and to the tokens; other balances stay. |
| MarginFlow.DepositIsAcceptedExactly | contracts/protocol/v1/impl/P1Margin.sol:58-77 | A deposit is accepted if and only if there is no final settlement, the index can be updated, the account can be settled and its margin with the amount fits 120 bits. |
| MarginFlow.WithdrawInBlock | contracts/protocol/v1/impl/P1Margin.sol:87-111 | A withdrawal by a settled account takes exactly the amount from its margin and from the tokens, and changes nothing else. |
| MarginFlow.WithdrawIsAcceptedExactly | contracts/protocol/v1/impl/P1Margin.sol:87-120 | A withdrawal is accepted if and only if the account can be settled, the sender is the account or one of its operators or one for everybody, the contract has the tokens, and what remains meets the collateral rule on signed margin and position at the oracle's price. |
| MarginFlow.DepositRoundTrip | contracts/protocol/v1/impl/P1Margin.sol:58-111 | Taking a deposit out again in the same block is accepted if and only if the settled account met the collateral rule, and then tokens and all balances are what settlement alone would have left. |
| SettlementFrequency.FrequencyCostsAtMostOneUnitEach | contracts/protocol/v1/impl/P1Settlement.sol:156-187 | For a fixed position, settling through any k index values leaves no more margin than settling once at the last one, and at most k - 1 units less. |
| FinalPayout.PayoutIndependentOfOrder | contracts/protocol/v1/impl/P1FinalSettlement.sol:79-134 | If no account is in debt at the final price, then in any interleaving of withdrawals and other calls each account that withdraws at least once is paid exactly the floor of its settled equity in total, and an account that does not is paid nothing (the case of the line below that solvency guarantees); so the cap by the contract's tokens never binds. |
| FinalPrice.FinalPriceIsOraclePrice | contracts/protocol/v1/impl/P1Admin.sol:123-145 | Over any run that reaches final settlement, exactly one call has enabled it, and the final price is what the oracle gave in that call, within the call's bounds. |
| FinalPrice.FinalPriceFromDeployment | contracts/protocol/v1/PerpetualV1.sol:64-86 | The same from deployment, where no account has anything, no tokens are held and the index is zero. |
| FinalPrice.EnablingExactly | contracts/protocol/v1/impl/P1Admin.sol:123-145 | Enabling succeeds if and only if it has not been done, the index can be updated and the oracle's price is within the bounds; it fixes that price and that index and changes nothing else. |
| FinalPayout.PaidInFullExactly | contracts/protocol/v1/impl/P1FinalSettlement.sol:79-134 | In any state of final settlement: every account that withdraws is paid, in total, the floor of its settled equity (and another one nothing), in every interleaving of withdrawals and other calls, if and only if the sum of what is due is within the contract's tokens. If more is due, some order of withdrawals leaves an account short. |
| FinalPayout.PaidAndDueAddUp | contracts/protocol/v1/impl/P1FinalSettlement.sol:79-134 | In final settlement, what an account has been paid and what is still due to it add up to what was due at the start, after any run, whether the tokens suffice or not. |
| FinalPayout.PayOutConserves | contracts/protocol/v1/impl/P1FinalSettlement.sol:91-126 | A payout closes the position of an account that is not in debt and leaves what could not be paid as margin; an account in debt stays as it is. |
| FinalPayout.TokensSuffice | contracts/protocol/v1/impl/P1FinalSettlement.sol:104-111 | With no account in debt, the tokens cover the sum of all payouts that are due. |
| FinalPayout.FirstWithdrawal | contracts/protocol/v1/impl/P1FinalSettlement.sol:91-126 | The first withdrawal pays all that is due and closes the account; it can revert only when nothing is due. |
| FinalPayout.LaterWithdrawal | contracts/protocol/v1/impl/P1FinalSettlement.sol:99-126 | A repeated withdrawal succeeds and pays nothing. |
| FinalPayout.SettlementIsFinal | contracts/protocol/v1/impl/P1FinalSettlement.sol:53-70 | Once final settlement is enabled no calls can undo it or change its price or the global index. |
| Collateral.CollateralizedExactly | contracts/protocol/v1/impl/P1Settlement.sol:204-217 | In signed amounts: an account that owes nothing is collateralized; a long with debt if and only if position * price is at least debt * requirement; a short if and only if margin is at least the value of the position times the requirement; one that owes both only if nothing is required. |
| Collateral.ValuesExactly | contracts/protocol/v1/lib/P1BalanceMath.sol:119-142 | The two values are the positive and the negative parts of margin and position at the price, added up. |
| Collateral.DivideFirstIsExact | contracts/protocol/v1/impl/P1Trade.sol:255-269 | When both positions have the same sign, the comparison that divides by BASE first is the comparison of the exact cross products, in both directions. |
| Collateral.AllowedExactly | contracts/protocol/v1/impl/P1Trade.sol:195-271 | The branches of the final check hold if and only if the account meets that rule, or has positive value, had negative value, did not grow or flip its position, and did not worsen its exact ratio. |
| Collateral.NeverBecomesUndercollateralized | contracts/protocol/v1/impl/P1Trade.sol:188-193 | An account that met the collateral rule and passes the final check meets it. |
| Collateral.RatioTransitive | contracts/protocol/v1/impl/P1Trade.sol:255-269 | Not worsening the ratio is transitive through an account with negative value. |
| Collateral.AcceptedBatchIsSafe | contracts/protocol/v1/impl/P1Trade.sol:74-164 | After an accepted batch with any trader results, every listed account meets the collateral rule on signed amounts at the oracle's price, or did not before and is no worse off; and the balance of every other account is untouched. |
| Collateral.BatchAcceptedExactly | contracts/protocol/v1/impl/P1Trade.sol:158-164 | A batch that can be executed is accepted if and only if every listed account ends that way. |
| Permissions.WithdrawalsArePermitted | contracts/protocol/v1/impl/P1Margin.sol:92-95 | Over any run from deployment, an accepted withdrawal is by the account, or by a sender whom the last setting, by the account or for everybody, approved. |
| Permissions.TradersAreApproved | contracts/protocol/v1/impl/P1Trade.sol:98-101 | Over any run from deployment, every trader of an accepted batch is one whom the last setting for everybody approved. |
| Permissions.RequirementIsHigh | contracts/protocol/v1/impl/P1Admin.sol:102-115 | Over any run, the collateral requirement is the initial one until it is set, and at least 100 percent from then on. |
| Permissions.RequirementIsAcceptedExactly | contracts/protocol/v1/impl/P1Admin.sol:102-115 | The requirement can be set if and only if it is at least 100 percent, and nothing else changes. |
| Permissions.GlobalOperatorsAreApproved | contracts/protocol/v1/impl/P1Admin.sol:57-65 | Over any run, the operators for everybody are exactly those whose last setting was an approval. |
| Permissions.LocalOperatorsAreApproved | contracts/protocol/v1/impl/P1Operator.sol:49-52 | Over any run, the operators of an account are exactly those whose last setting by that account was an approval. |
| Perpetual.PerpetualV1.TradeLoop | contracts/protocol/v1/impl/P1Trade.sol:94-156 | The loop on memory objects and storage does what the batch function on storage alone does, and at every iteration storage holds what memory holds, so traders that read storage see the balances that are checked in the end. |
| Perpetual.PerpetualV1.TradeBody | contracts/protocol/v1/impl/P1Trade.sol:74-164 | The whole batch is the specified one: the final check compares the traded balances with the settled ones, which the loop leaves alone because it works on copies. |
| Perpetual.PerpetualV1.UpdateBalances | contracts/protocol/v1/impl/P1Trade.sol:123-144 | Changing the two memory objects in place and storing them is the batch step of the specification and keeps memory and storage equal for all accounts. |
| Perpetual.PerpetualV1.CopyAll | contracts/protocol/v1/impl/P1Trade.sol:85-92 | The working copies hold the initial values and share no object with each other or with the initial balances. |
| Perpetual.VerifySorted | contracts/protocol/v1/impl/P1Trade.sol:170-183 | The loop accepts exactly the non-empty lists in which every account is greater than every earlier one. |
| Perpetual.PerpetualV1.VerifyFinalBalances | contracts/protocol/v1/impl/P1Trade.sol:195-271 | The loop accepts exactly when every account passes the final check. |
| Perpetual.PerpetualV1.SettleAccounts | contracts/protocol/v1/impl/P1Settlement.sol:118-130 | The loop settles the list in order; each returned object is new and equals the stored balance at the end, which needs the accounts to be different. |
| Perpetual.PerpetualV1.Trade | contracts/protocol/v1/impl/P1Trade.sol:74-164 | An accepted batch leaves exactly the state the specification gives; a refused one leaves the storage as it was. |
| Perpetual.PerpetualV1.Deposit | contracts/protocol/v1/impl/P1Margin.sol:58-77 | Refines the deposit of the specification, with rollback. |
| Perpetual.PerpetualV1.Withdraw | contracts/protocol/v1/impl/P1Margin.sol:87-111 | Refines the withdrawal of the specification, with rollback. |
| Perpetual.PerpetualV1.WithdrawFinalSettlement | contracts/protocol/v1/impl/P1FinalSettlement.sol:79-134 | Refines the final withdrawal of the specification, with rollback and the amount paid. |
| Perpetual.PerpetualV1.EnableFinalSettlement | contracts/protocol/v1/impl/P1Admin.sol:123-145 | Refines the phase switch of the specification, with rollback. |
| Constants.ConstantsAreExact | contracts/protocol/lib/BaseMath.sol:30-35 | The base is 10^18; the widths are 32, 120, 128 and 160 bits; the first byte of an address is its quotient by 256^19; and the time lock is half an hour. |
| SignedMath.Add | contracts/protocol/lib/SignedMath.sol:45-57 | Represents integer addition of a natural number. |
| SignedMath.Sub | contracts/protocol/lib/SignedMath.sol:62-74 | Represents integer subtraction of a natural number. |
| SignedMath.SignedSub | contracts/protocol/lib/SignedMath.sol:93-102 | Represents integer subtraction. |
| SignedMath.Gt | contracts/protocol/lib/SignedMath.sol:107-122 | Is the order of the represented integers, with both zeros equal. |
| SignedMath.Min | contracts/protocol/lib/SignedMath.sol:127-133 | One of the two, and no greater than either. |
| SignedMath.Max | contracts/protocol/lib/SignedMath.sol:138-144 | One of the two, and no less than either. |
| BaseMath.BaseMul | contracts/protocol/lib/BaseMath.sol:46-52 | The floor of the product over BASE. |
| BaseMath.BaseMulRoundUp | contracts/protocol/lib/BaseMath.sol:70-79 | The ceiling of the product over BASE. |
| BaseMath.BaseDivMul | contracts/protocol/lib/BaseMath.sol:59-65 | Exact on multiples of BASE. |
| BaseMath.GetFraction | contracts/protocol/lib/Math.sol:38-44 | The floor of the fraction; reverts exactly on a zero denominator. |
| BaseMath.GetFractionRoundUp | contracts/protocol/lib/Math.sol:49-59 | The ceiling of the fraction; reverts exactly on a zero denominator. |
| BalanceMath.AddToMargin | contracts/protocol/v1/lib/P1BalanceMath.sol:68-75 | Adds to the margin and leaves the position; reverts exactly when the result does not fit 120 bits. |
| BalanceMath.SubFromPosition | contracts/protocol/v1/lib/P1BalanceMath.sol:104-111 | Subtracts from the position and leaves the margin; reverts exactly when the result does not fit 120 bits. |
| BalanceMath.GetPositiveAndNegativeValue | contracts/protocol/v1/lib/P1BalanceMath.sol:119-142 | The two values differ by BASE * margin + price * position, without rounding. |
| MemoryBalance.MemBalance.Copy | contracts/protocol/v1/lib/P1BalanceMath.sol:51-63 | A different object with the same contents. |
| MemoryBalance.MemBalance.AddToMargin | contracts/protocol/v1/lib/P1BalanceMath.sol:68-75 | Changes the object in place as the function on values says, or not at all. |
| TakeOver.MarginForBounds | contracts/protocol/v1/traders/P1Liquidation.sol:110-123 | The margin that goes with a part of the position is rounded in the maker's favour, is never more than the maker has, and is all of it for the whole position. |
| TakeOver.PartialIsNoWorse | contracts/protocol/v1/traders/P1Liquidation.sol:107-123 | A partial take-over of an account with positive and negative value leaves its exact ratio at least as good, its sign unchanged and its position smaller. |
| TakeOver.MakerAcceptedExactly | contracts/protocol/v1/traders/P1Liquidation.sol:107-169 | At a positive price, the maker passes the final check if and only if no collateral is required, or it had positive-side value, or its whole position was taken; the last lands on exactly zero margin and zero position. The failing family is a partial take-over of a short with no margin. |
| Liquidation.LiquidationIsAcceptedExactly | contracts/protocol/v1/traders/P1Liquidation.sol:84-169 | A liquidation gives a result if and only if the caller is an operator for everybody and the maker breaks the collateral rule on signed amounts, has a position in the direction of the trade, is not a short with negative margin, and has as much as an all-or-nothing request asks for. |
| Liquidation.MakerShrinks | contracts/protocol/v1/traders/P1Liquidation.sol:100-134 | Once applied, the maker's position shrinks by as much of the request as it has, without flipping, and the taker gets that position and margin. |
| Liquidation.EveryAmountAccepted | contracts/protocol/v1/traders/P1Liquidation.sol:84-169 | For a maker with a position that passes the contract's checks, every requested amount gives a result, and the maker's final check accepts it exactly under the condition above. |
| Liquidation.PartOfBareShortIsRefused | contracts/protocol/v1/traders/P1Liquidation.sol:84-134 | One input of the failing family: of a short of two without margin the contract hands on one at price one, and the final check refuses what is left. |
| TakeOverChain.ChainIsAccepted | contracts/protocol/v1/traders/P1Liquidation.sol:84-134 | Any number of accepted liquidations and deleveragings of one maker, in any order and among other trades of a batch, leaves the maker acceptable to the final check. |
| TakeOverChain.ExecuteTakesOver | contracts/protocol/v1/traders/P1Deleveraging.sol:133-169 | Whichever of the two traders answers, the maker has debt and its balance moves as a take-over of at most its position. |
| Deleveraging.DeleveragingIsAcceptedExactly | contracts/protocol/v1/traders/P1Deleveraging.sol:110-169 | A deleveraging gives a result if and only if it is the first trade, the caller is the operator or the maker was marked 1800 seconds ago, the maker's margin and position together are worth less than nothing, the taker is on the other side, and both have as much as an all-or-nothing request asks for. |
| Deleveraging.BothSidesShrink | contracts/protocol/v1/traders/P1Deleveraging.sol:135-169 | Once applied, both positions shrink by the largest amount that the request and both positions allow (all of an all-or-nothing request), neither flips, and the maker's margin goes to the taker. |
| Deleveraging.MarkingIsAcceptedExactly | contracts/protocol/v1/traders/P1Deleveraging.sol:178-218 | An account can be marked if and only if margin and position together are worth less than nothing, and unmarked if and only if they are not. |
| Deleveraging.EveryAmountAccepted | contracts/protocol/v1/traders/P1Deleveraging.sol:133-154 | The same for an underwater maker and an offsetting taker. |
| Deleveraging.NonOperatorWaits | contracts/protocol/v1/traders/P1Deleveraging.sol:224-238 | Over any run, a deleveraging by anyone but the operator has an earlier mark of that maker, made while it was underwater, at least 1800 seconds before, and not renewed, unmarked or fully deleveraged in between. |
| Deleveraging.MarkHasEvent | contracts/protocol/v1/traders/P1Deleveraging.sol:178-218 | A recorded timestamp always comes from the account's last mark, which nothing has cleared. |
| Deleveraging.MarkStays | contracts/protocol/v1/traders/P1Deleveraging.sol:140-168 | The time of an account's last mark stays on record until an unmark or a deleveraging of its whole position. |
| Deleveraging.P1Deleveraging.Trade | contracts/protocol/v1/traders/P1Deleveraging.sol:110-169 | Refines the specified answer, removes the mark exactly when the whole position of a marked maker is taken, and changes nothing on a revert. |
| BatchDiscipline.DeleveragingOnlyFirst | contracts/protocol/v1/traders/P1Deleveraging.sol:120-123 | In an accepted batch built from the repository's traders there is at most one deleveraging and it is the first trade. |
| Orders.LifetimeLimits | contracts/protocol/v1/traders/P1Orders.sol:212-244 | From deployment on, the recorded amount is the sum of the accepted fills and never exceeds the order's amount, and a maker who pays has paid in total at most the floor of filled amount times the margin per position at the limit. |
| Orders.EachFillPaysLimit | contracts/protocol/v1/traders/P1Orders.sol:228-244 | Each fill of a maker who is paid pays at least the floor of the fill at the limit, with no condition on the fee. |
| Orders.BuyLimitExactly | contracts/protocol/v1/traders/P1Orders.sol:228-236 | A buy order's limit binds every valid fill if and only if the contract's own formula does not underflow at the limit; otherwise a fill at price zero breaks it. |
| Orders.FreeFillIsAccepted | contracts/protocol/v1/traders/P1Orders.sol:186-245 | One input of the failing family: an order to buy that demands a double rebate is filled at price zero, for nothing. |
| Orders.FillWithinLimit | contracts/protocol/v1/traders/P1InverseOrders.sol:240-246 | The limit theorem for one fill in both markets, as exact products; in the inverse market the amount is divided by the price and no condition on the fee is needed. |
| Orders.FillAtLimitIsExact | contracts/protocol/v1/traders/P1InverseOrders.sol:240-246 | A fill at the limit moves exactly the floor of the limit fraction, and reverts exactly when that is negative or has a zero denominator. |
| Orders.FilledWithinAmount | contracts/protocol/v1/traders/P1Orders.sol:212-219 | Over any run the recorded amount is the old one plus the accepted fills, and stays within the order's amount. |
| Orders.NothingAfterCancel | contracts/protocol/v1/traders/P1Orders.sol:253-281 | After a cancel nothing fills the order, whatever is approved later, and it stays canceled. |
| Orders.TotalWithinLimit | contracts/protocol/v1/traders/P1Orders.sol:228-244 | Over any run, total margin paid times the limit's denominator is at most filled amount times its numerator. |
| Orders.FillIsAcceptedExactly | contracts/protocol/v1/traders/P1Orders.sol:186-245 | In both markets, a fill is accepted if and only if the caller may act for the taker, the order is signed or approved by its maker and not canceled, it is for this maker and this or any taker and not expired, price and signed fee are within its limits, the oracle's price (or its reciprocal, as a product) has reached its trigger, a decrease-only order decreases, the amount is left, and the margin can be computed. |
| Orders.FillsAreAuthorized | contracts/protocol/v1/traders/P1Orders.sol:312-355 | Over any run from deployment, the account that an accepted fill charges as maker has signed the order or approved it earlier in the run; and the fill is for these parties, in time and after its trigger, by somebody who may act for the taker. |
| Orders.FillMovesParties | contracts/protocol/v1/traders/P1InverseOrders.sol:240-256 | Once applied, maker and taker exchange exactly the filled amount and the computed margin, in the direction of the order and the market. |
| Orders.CancelHasEvent | contracts/protocol/v1/traders/P1Orders.sol:271-281 | Over any run, an order is canceled if and only if its maker has canceled it. |
| Orders.DecreaseOnlyShrinks | contracts/protocol/v1/traders/P1InverseOrders.sol:391-401 | In both markets, a fill of a decrease-only order takes exactly its amount off the maker's position and does not flip its sign. |
| Orders.OrdersTrader.Trade | contracts/protocol/v1/traders/P1Orders.sol:186-245 | Refines the specified fill; a revert after the amount was recorded restores it. |
| Orders.OrdersTrader.GetOrdersStatus | contracts/protocol/v1/traders/P1Orders.sol:292-308 | The loop returns each order's status and filled amount, in order. |
| FundingOracle.BoundRateIsClamp | contracts/protocol/v1/oracles/P1FundingOracle.sol:160-190 | The one-sided bounds amount to the integer clamp of the request between the reachable and the absolute bounds. |
| FundingOracle.SpeedLimit | contracts/protocol/v1/oracles/P1FundingOracle.sol:104-124 | Between any two moments of any run the rate stays within the absolute bound and changes by at most the maximum per second; from minimum to maximum takes more than 2700 seconds. |
| FundingOracle.FullSwingExactly | contracts/protocol/v1/oracles/P1FundingOracle.sol:104-190 | One update from the minimum with a request of the maximum or more reaches the maximum if and only if more than 2700 seconds have passed. |
| FundingOracle.IndexFollowsRate | contracts/protocol/v1/oracles/P1FundingOracle.sol:147-153 | With this funder the perpetual's index moves by rate * elapsed time * price to within one unit, and by no more than the maximum rate allows. |
| FundingOracle.UpdateIsAcceptedExactly | contracts/protocol/v1/oracles/P1FundingOracle.sol:104-124 | After any run, an update is accepted if and only if it comes from the provider that was appointed last and time has not run back. |
| FundingOracle.BoundsFromSpecification | contracts/protocol/v1/oracles/P1FundingOracle.sol:62-64 | The two constants are the specified 8-hour rates, rounded down. |
| FundingOracle.P1FundingOracle.SetFundingRate | contracts/protocol/v1/oracles/P1FundingOracle.sol:104-124 | Refines the specified update; a refused one changes nothing. |
| MirrorOracle.MedianIsRobust | contracts/protocol/v1/oracles/P1MirrorOracle.sol:186-240 | An accepted update has pairwise different signers; if fewer of them are faulty than there are messages from the median up (at most k of 2k + 1) and the values of the others fit 128 bits, the stored value lies between two values signed by authorized signers who are not faulty, whatever the faulty ones signed. |
| MirrorOracle.StoredValueIsMiddle | contracts/protocol/v1/oracles/P1MirrorOracle.sol:233-234 | The cast to 128 bits stores the middle value if and only if it fits. |
| MirrorOracle.P1MirrorOracle.Poke | contracts/protocol/v1/oracles/P1MirrorOracle.sol:186-240 | The loop with its bitmap and running maximum accepts exactly the lists of fresh messages ordered by value, by authorized signers with different first bytes, and stores the middle value. |
| MirrorOracle.PokeIsAcceptedExactly | contracts/protocol/v1/oracles/P1MirrorOracle.sol:186-231 | A list is accepted if and only if it has as many messages as the bar, at least one, all newer than the last update, ordered by value, by authorized signers with different first bytes. |
| MirrorOracle.SignersAreLifted | contracts/protocol/v1/oracles/P1MirrorOracle.sol:245-293 | Over any run, the authorized signers are exactly those that an accepted lift has added when the underlying oracle authorized them, and no accepted drop has removed since. |
| MirrorOracle.LiftIsAcceptedExactly | contracts/protocol/v1/oracles/P1MirrorOracle.sol:245-267 | A list can be lifted if and only if the underlying oracle authorizes every signer and their slots are free and different; it adds exactly these signers. |
| MirrorOracle.DropIsAcceptedExactly | contracts/protocol/v1/oracles/P1MirrorOracle.sol:272-293 | A list can be dropped if and only if it names signers of the mirror, once each, that the underlying oracle does not authorize; it removes exactly these. |
| MirrorOracle.NoReplay | contracts/protocol/v1/oracles/P1MirrorOracle.sol:204-216 | A message signed no later than an accepted update is refused afterwards. |
| MirrorOracle.RunKeepsInv | contracts/protocol/v1/oracles/P1MirrorOracle.sol:245-293 | In every reachable state a signer is authorized if and only if it is registered under its own first byte, as long as the zero address is not lifted. |
| MirrorOracle.LiftOneKeepsInv | contracts/protocol/v1/oracles/P1MirrorOracle.sol:247-263 | Lifting keeps that invariant if and only if the signer is not the zero address, and changes that one slot. |
| MirrorOracle.SyncConverges | contracts/protocol/v1/oracles/P1MirrorOracle.sol:144-178 | Dropping the signers reported as removed, in any order, then lifting those reported as added, then copying the bar, never reverts and leaves nothing to report. |
| MirrorOracle.P1MirrorOracle.CheckSynced | contracts/protocol/v1/oracles/P1MirrorOracle.sol:144-178 | The loop reports exactly the ids where the underlying oracle has a different signer, and exactly those where the mirror has a different one. |
| MirrorOracle.P1MirrorOracle.Lift | contracts/protocol/v1/oracles/P1MirrorOracle.sol:245-267 | The loop registers the signers in order, all or none. |
| MirrorOracle.P1MirrorOracle.Drop | contracts/protocol/v1/oracles/P1MirrorOracle.sol:272-293 | The loop removes the signers in order, all or none. |
| LiquidatorProxy.LiquidatorStaysWithinLimit | contracts/protocol/v1/proxies/P1LiquidatorProxy.sol:125-232 | The liquidator's position ends between where it was and the given limit; its balance changes by exactly what the liquidation contract answers for the settled liquidatee; the fee is the floor of profit * fee / BASE^2. |
| LiquidatorProxy.FeeIsShareOfProfit | contracts/protocol/v1/proxies/P1LiquidatorProxy.sol:277-308 | The amount is the change of the position, and two successive floors make the fee the floor of profit * fee / BASE^2, zero without profit. |
| LiquidatorProxy.WholeCallConserves | contracts/protocol/v1/proxies/P1LiquidatorProxy.sol:153-184 | Over the whole call the contract's tokens are unchanged; the fee leaves the liquidator's margin and arrives in the fund's settled margin; nobody else is touched by it. |
| LiquidatorProxy.LiquidationsArePermitted | contracts/protocol/v1/proxies/P1LiquidatorProxy.sol:133-138 | After any run of the ledger, an accepted call is by the liquidator, or by somebody whom the last setting approved for it, and the proxy is an approved operator. |
| LiquidatorProxy.LiquidateIsAcceptedExactly | contracts/protocol/v1/proxies/P1LiquidatorProxy.sol:125-184 | The proxy liquidates if and only if the caller may act for the liquidator, who can be settled and whose position has not reached the limit in the direction of the trade, the batch for the remaining distance is accepted, the proxy may read the price, and the changes fit 120 bits. |
| LiquidatorProxy.CallIsAcceptedExactly | contracts/protocol/v1/proxies/P1LiquidatorProxy.sol:153-184 | The whole call is accepted if and only if that is, and a fee that is not zero can be withdrawn from the liquidator and deposited for the fund. |
| LiquidatorProxy.BatchIsAcceptedExactly | contracts/protocol/v1/proxies/P1LiquidatorProxy.sol:238-269 | The batch is accepted if and only if the parties are different, the liquidatee can be settled, the liquidation contract is approved and liquidates it, and both parties end safely. |
| LiquidatorProxy.DeltaIsDistance | contracts/protocol/v1/proxies/P1LiquidatorProxy.sol:217-232 | The amount is the distance to the limit; a limit that is not ahead in the direction of the trade is refused. |
| LiquidatorProxy.LiquidationMoves | contracts/protocol/v1/proxies/P1LiquidatorProxy.sol:238-269 | The constructed batch settles the liquidatee, leaves the settled liquidator as it is and applies one liquidation of at most the allowed amount; liquidating oneself is refused. |
| LiquidatorProxy.P1LiquidatorProxy.Liquidate | contracts/protocol/v1/proxies/P1LiquidatorProxy.sol:125-184 | The sequence of calls on the perpetual is the specified composition, and is undone as a whole if one of them fails. |
| LiquidatorProxy.P1LiquidatorProxy.SetInsuranceFee | contracts/protocol/v1/proxies/P1LiquidatorProxy.sol:203-210 | A new fee is accepted exactly up to 50 percent. |
| Matcher.FulfillOrder | src/services/orderbook_service.ts:213-357 | The loop fills the crossing orders best price first: filled amounts, volume, the taker's fill and the trades handed on are those of the greedy choice. What matches is committed as one batch, and the call sent is the one that commit builds from these trades; unless its transaction succeeds, the method fails. |
| Matcher.BestExecution | src/services/orderbook_service.ts:233-271 | Among all ways of filling the same total from the crossing orders, the loop's costs a buyer least and brings a seller most, for any order among equal prices. |
| Matcher.ExchangeAtMargin | src/services/orderbook_service.ts:249-271 | Any other allocation costs at least the marginal price more for each unit it takes more. |
| Matcher.GreedyFills | src/services/orderbook_service.ts:254-285 | No maker is overfilled; something trades if anything can; the fills add up to at most the amount, and to less only when every crossing order is exhausted. |
| Matcher.BestFirstExists | src/services/orderbook_service.ts:233-242 | Every list of orders can be put best price first, with equal prices too, so an arrangement to match against always exists. |
| Matcher.GreedyTotal | src/services/orderbook_service.ts:249-297 | The fills add up to the smaller of what the new order asks for and what the crossing orders have left. |
| Matcher.CrossingOrders | src/services/orderbook_service.ts:222-227 | The last two filters keep exactly the orders that are not filled and whose price is at most the buyer's limit, or at least the seller's. |
| Matcher.MatchedOrders | src/services/orderbook_service.ts:214-242 | The orders that are matched are exactly the stored ones that are not filled, at most the buyer's limit price for a buyer and at least the seller's for a seller, and expire later than the time read for them plus their place in the list. |
| OrderBook.Book.PostOrder | src/handlers/orderbook_handlers.ts:123-141 | If the batch does not succeed the book is unchanged. Otherwise each matched order gains exactly its allocation, the new order is stored with their sum (also if it was stored before), and no other entry changes; no order is overfilled, and if the new one is not filled, every stored order of the other side that crosses it and passes the check for expired orders is. |
| OrderBook.PostIsExact | src/services/orderbook_service.ts:301-306 | Saving the matched orders and adding the new one changes exactly the entries of these, by the greedy allocations. |
| OrderBook.PostUncrossedExactly | src/services/orderbook_service.ts:213-381 | A post that takes effect leaves an uncrossed book (of the orders with something left that expire after a given moment, every order to buy has a lower price than every order to sell) uncrossed if and only if the new order expires by then, or the crossing orders have enough for it, or every stored fillable order at an acceptable price that expires later passes the check for expired orders at its place. |
| OrderBook.BookNeverCrosses | src/services/orderbook_service.ts:213-381 | Over any run of posts (matched or not, sent or not, executed or reverted) and cancels, no order is overfilled, and the book is uncrossed throughout if and only if every post that takes effect meets the condition of the line above. |
| OrderBook.SkippedByPlace | src/utils.ts:362-371 | An input that does not meet it: of two orders to sell that expire in half a second the second is skipped for its place, and the book is left crossed. |
| BookOnChain.BookAgreesExactly | src/handlers/orderbook_handlers.ts:123-141 | Over any run of posts, cancels and approvals in which nobody but the operator fills the orders, every amount in the book is the one that the order contract has recorded, throughout, if and only if the contract had no fill on record of any order when it was posted with effect. |
| BookOnChain.PostAgreesExactly | src/services/orderbook_service.ts:249-306 | The same for one post: the contract's records grow by the matched fills as the book's entries do, and the entry of the new order starts from nothing. |
| BookOnChain.PostedAgain | src/services/orderbook_service.ts:363-381 | An input that does not meet it: an order for two units that was filled with one and is posted again is in the book as not filled at all. |
| BookOnChain.FillsAreCounted | contracts/protocol/v1/traders/P1Orders.sol:212-219 | Over a batch of fills, followed through the order contract's own state, the record of every order grows by exactly the amounts of its fills. |
| BookOnChain.TradeFillsIsTrade | contracts/protocol/v1/impl/P1Trade.sol:74-164 | The call with the order contract's evolving state is the ledger's call, accepted for the same inputs and with the same result, for the states that the order contract goes through. |
| BookOnChain.MatchedFills | src/services/orderbook_service.ts:266-281 | The trades of a match fill each matched order by its allocation and the new one by their sum. |
| TradeOperation.Operation.Commit | src/tradeOperation.ts:95-137 | The account list is ascending and has exactly the accounts of the trades; each argument's indices point to its maker and taker; failing to send makes the operation usable again. |
| TradeOperation.CommittedListIsVerified | src/tradeOperation.ts:105-119 | For trades between lower-case addresses the list passes the contract's check of strictly ascending accounts. |
| TradeOperation.HexOrder | src/tradeOperation.ts:111-111 | Lower-case hexadecimal texts of equal length sort like the numbers they denote. |
| TradeOperation.LowerCaseSameAddress | src/tradeOperation.ts:153-158 | Lower-casing an address text gives a normal form of the same address. |
| MatchSettlement.OperatorUnharmed | src/services/orderbook_service.ts:266-298 | From matching to settlement: the committed account list passes the contract's check, and when the contract has executed the batch of all matched trades, the operator has the position it had after settlement and exactly the fills' total more margin, which is no loss if no match has a rebate. The indices and call data are those that commit and the encoding make; the operator must not be the maker of an order. |
| MatchSettlement.OperatorAfterBatch | src/tradeOperation.ts:95-137 | The same for any list of fills with the operator as taker: its balance changes by exactly what the fills add up to, whatever state the order contract is in at each of them. |
| MatchSettlement.NoLossExactly | contracts/protocol/v1/traders/P1Orders.sol:228-244 | If the prices with fee of both fills can be computed, the buyer pays at least what the seller gets for every amount if and only if the fee is not a rebate, or one that rounds to nothing. |
| MatchSettlement.BuyerCoversSeller | contracts/protocol/v1/traders/P1Orders.sol:228-244 | For one fill of a buy order and a sell order without a rebate, the buyer pays at least what the seller gets. |
| MatchSettlement.MatchIsValidExactly | contracts/protocol/v1/traders/P1Orders.sol:357-367 | Of a match, the maker's fill is within the maker's limits, and the taker's is within the taker's limits if and only if the maker's limit fee meets the taker's, which the matcher does not compare, and the encoded prices cross, which they do unless a price is negative. |
| MatchSettlement.ClientFillIsAcceptedExactly | src/orders.ts:206-237 | In the client's terms: the contract accepts a fill that the client has encoded, with the order's maker as maker, if and only if the caller may act for the taker, the order is signed or approved and not canceled, open to this taker, not expired, within its price and fee limits after rounding, triggered, decreasing if it must be, and has the amount left. |
| CallData.SameOrderExactly | src/orders.ts:145-181 | Two orders are the same to the contract if and only if they agree in every field after rounding and parsing, including the salt's last 63 hexadecimal digits. |
| CallData.RoundsToNearest | src/types.ts:43-45 | A decimal becomes the nearest multiple of 1/BASE of its magnitude. |
| MatchSettlement.FeeOfMatchIsRefused | contracts/protocol/v1/traders/P1Orders.sol:357-367 | One input of the failing family: at equal prices, a seller's fee of one percent and a buyer who accepts none cross, and the contract refuses the buyer's fill. |
| CallData.RoundedMonotone | src/types.ts:43-45 | Rounding a decimal to 18 places keeps the order. |

## Left out

- uint256 overflow: sums and products are unbounded, so reverts by overflow beyond 256 bits are not modelled; an accepted call is accepted here with the same result.
- Reentrancy guards, access control by the admin or owner, upgradeability, raw storage slots, events and the packed forms of balances and indexes for logging.
- The margin token beyond the contract's own holding: a standard token without transfer fees is assumed, and the wallets of users are not tracked.
- Signature recovery, keccak and ABI encoding; orders and messages carry the recovered address instead.
- Solidity reverts that come from unequal lengths of the argument arrays of poke; a message is one record.
- The readers of the mirror oracle and the getters of single fields.
- The currency converter, WETH and Solo proxies, and the Maker, Chainlink and inverting oracles: thin wrappers around external calls.
- Quotes, pagination, notifications and the trade history of the order book.
- The database, the network and the outcome of sending a transaction, which is an input of matching and of commit.
- An order is stored under itself and not under its hash, so the same order with another signature counts as another order.
- BookOnChain.BookAgreesExactly: different orders of the book are assumed to have different encodings, and all to have valid addresses, as the hash they are stored under demands.
- The numbers in decimals are not limited to what the BigNumber library represents.
- FinalPayout.PayoutIndependentOfOrder: an account whose settlement does not fit 120 bits cannot withdraw in the code; it counts as one to which nothing is due.
- Orders.LifetimeLimits: the bound on the total paid is stated for linear buy orders whose limit does not underflow, which Orders.BuyLimitExactly shows to be the exact condition.
- MatchSettlement.OperatorUnharmed: assumes that the operator is not the maker of a matched order (a fill with oneself moves nothing, so that match would leave a position) and that all address texts have 40 hexadecimal digits, without which the library refuses to encode the call.
- OrderBook.Book.PostOrder: posts and cancels happen one after the other; what happens to the book while a transaction is under way is not modelled.
