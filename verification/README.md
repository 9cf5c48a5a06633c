# STELLO contracts: a Dafny model

STELLO is a liquid staking protocol for Stellar. Users stake XLM for sXLM, pledge sXLM to borrow
XLM, provide liquidity to an XLM/sXLM pool and vote on parameters with sXLM. This project models the
five Soroban contracts (sXLM token, staking, lending, liquidity pool, governance) and the two loop
simulators of the backend (leverage, restaking), and proves what they keep.

## How the model is built

- Each contract is modelled twice. A module of functions on values (`Tokens`, `Pools`, `Stakes`,
  `Loans`, `Governing`) says what each call does to a `World`: the contract's storage and the token
  ledgers it touches. A class (`TokenContract`, `PoolContract`, `StakingContract`, `LendingContract`,
  `GovernanceContract`) rewrites its storage entry by entry, as the Rust code does, and each of its
  methods is proved to do to the storage and to answer exactly what the function says.
- What the functions do is in turn said without them: `StakingCalls`, `PoolCalls`, `LendingCalls` and
  `GovernanceCalls` state for each call when it completes (if and only if), what it answers, with every
  division as the bounds of a floor, and the whole state it leaves. `Tokens` does so for the token's
  calls, and `LeverageEngine.DetailsChain` and `RestakingEngine.StepsChain` for the recorded loops.
- A call either completes or panics. A panic leaves every storage entry and both token ledgers as
  they were (`panic = "abort"`, the host rolls back); the methods prove this, including the calls
  that panic after a first token transfer went through.
- `PoolRuns`, `StakingRuns`, `LendingRuns`, `GovernanceRuns` and `TokenRuns` run arbitrary sequences
  of calls. Their `Outside` and `OnToken` calls let the rest of the chain do anything to the tokens
  except spend a contract's own balance. What a run records beside contract storage (the events, the
  tokens sent to a contract from outside) is kept apart from it in `Tracked` and `History`.
- `require_auth` is modelled where it can fail: a contract's own address signs nothing. The two
  tokens of a contract are two contracts. The native token behaves as the sXLM token does on
  `transfer` and `balance`.
- i128 overflow aborts (`overflow-checks = true`), so integers are unbounded: a completed call
  computed without overflow, and a call that overflows is a call that changed nothing. Division is
  Rust's, truncating towards zero (`Prelude.Div`).
- The simulators compute in `real`. `requires` on them is the range their routes validate, widened:
  `backend/src/api-gateway/routes/leverage.ts:5-11` and `backend/src/api-gateway/routes/restaking.ts:6-12` admit a positive
  principal and a collateral factor between 0.1 and 0.95.

## Where the code does less than its comments or tests suggest

- A swap can lower the constant product (`PoolRuns.ProductCanFall`), because the output is rounded up
  in the trader's favour; `test_constant_product_invariant` checks one large swap.
  `PoolRuns.BuySxlmExact` and `PoolRuns.BuyXlmExact` say, from the state before the call, exactly when
  it does not fall.
- `set_protocol_fee_bps` is unbounded, and a rate above the fee rate can leave a negative reserve
  (`PoolRuns.UnboundedCutDrainsReserve`). `PoolRuns.BuySxlmKeeps` and `PoolRuns.RunKeepsExactly` say
  exactly which swaps and which runs keep the books: those whose cut leaves something in the reserve.
- A delayed withdrawal burns its sXLM at once and leaves its XLM staked. If it burns all the sXLM, the
  next depositor is minted one to one and is owed the stranded stake too
  (`StakingUnwind.NextDepositorGains`). `StakingRate.RoundTrip` says that this is the only state in which
  a deposit redeemed at once is answered with more than was deposited.
- For the same reason the staked total does not always cover the pending delayed withdrawals and can go
  negative (`StakingUnwind.StakedTotalCanGoNegative`). `StakingUnwind.CoverKeptExactly` says exactly which
  calls keep it covered, and `StakingUnwind.MaturedClaimCompletes` when a matured claim can be paid.
- The lending setters accept any factor, threshold and rate. `LendingRuns.NobodyIsEverLiquidated` needs
  the current threshold times rate to cover the highest factor times rate so far.
  `LendingRuns.ChangeIsSafeExactly` and `LendingRuns.ConfigurationDecides` show that less does not do;
  `LendingRuns.RateAndThresholdMatter` and `LendingRuns.FactorMatters` are concrete cases.
- Selling at once what was bought can pay: on a pool of 50 XLM and 5 sXLM at the default rates 77 XLM
  buys 4 sXLM, which sell for 96 XLM (`PoolRuns.ThereAndBackCanPay`). `PoolRuns.ThereAndBack` gives the
  gain exactly: it is positive exactly when the two roundings give away more than the kept fees put back.
- Splitting a redemption never pays in the pool, nor in staking while the parts are paid at once
  (`StakingSplit.InstantSplitNeverPays`). On the delayed path it can: with 100 XLM staked for 100 sXLM, one
  request for 100 is answered with 100, two requests for 50 with 50 and 100
  (`StakingSplit.DelayedSplitCanPay`). `StakingSplit.DelayedSplitPaysExactly` says exactly when.
- A vote weighs the balance of its moment, so sXLM that leaves the voters' holdings can count again and a
  tally can exceed the supply (`GovernanceSupply.MovedTokensCountAgain`). The excess of a proposal, its
  tallies less what its voters hold now, decides: only sXLM leaving the voters' joint holdings raises it
  (`GovernanceSupply.OnlyTakingOutRaises`), and while voting is open votes alone can take a tally beyond all
  balances exactly when the excess is above what the contract holds
  (`GovernanceSupply.ExceedsSupplyExactly`). `GovernanceSupply.TallyWithinSupply` bounds the final tally.
- The yield formula in the header of the leverage engine uses the maximum leverage 1 / (1 - c) for any
  number of loops. `Loops.DocumentedYieldGap` gives its distance from what `simulate` computes: it
  overstates exactly when c times the borrowing rate is below the staking rate, and understates exactly
  when it is above, as at the engine's default rates.

## Model

| member | source | states |
|---|---|---|
| TokenContracts.TokenContract.constructor | contracts/sxlm-token/src/lib.rs:133-145 | an empty ledger with its minter |
| TokenContracts.TokenContract.BalanceOf | contracts/sxlm-token/src/lib.rs:214-217 | the balance, zero by default |
| TokenContracts.TokenContract.Mint | contracts/sxlm-token/src/lib.rs:166-177 | only the minter mints; balance and supply grow by the amount, or nothing changes |
| TokenContracts.TokenContract.Burn | contracts/sxlm-token/src/lib.rs:180-194 | only the minter burns, and no more than the balance |
| TokenContracts.TokenContract.Transfer | contracts/sxlm-token/src/lib.rs:219-232 | sequential writes of both balances refine the ledger transfer, including from an address to itself |
| TokenContracts.TokenContract.Approve | contracts/sxlm-token/src/lib.rs:203-212 | sets the allowance |
| TokenContracts.TokenContract.TransferFrom | contracts/sxlm-token/src/lib.rs:234-248 | spends the allowance and transfers, or leaves both as they were |
| Tokens.MintExactly | contracts/sxlm-token/src/lib.rs:166-177 | completes exactly for the minter and an amount that is not negative; issues it to one balance and the supply |
| Tokens.BurnExactly | contracts/sxlm-token/src/lib.rs:180-194 | completes exactly for the minter and up to the balance; takes it from one balance and the supply |
| Tokens.ApproveExactly | contracts/sxlm-token/src/lib.rs:203-212 | completes for any amount that is not negative; the allowance becomes the amount and no other allowance changes |
| Tokens.TransferExactly | contracts/sxlm-token/src/lib.rs:219-232 | completes exactly up to the balance, and moves the amount |
| Tokens.TransferFromExactly | contracts/sxlm-token/src/lib.rs:234-248 | completes exactly within allowance and balance; moves the amount and uses up the allowance by it |
| Tokens.TransferMoves | contracts/sxlm-token/src/lib.rs:219-232 | a completed transfer moves the amount, touches nobody else, and to oneself moves nothing |
| TokenRuns.RunKeepsSolvent | contracts/sxlm-token/src/lib.rs:166-248 | over any run by anybody the supply is the sum of the balances and nothing is negative |
| TokenRuns.AllowanceTracksSpending | contracts/sxlm-token/src/lib.rs:117-123 | between approvals an allowance falls by exactly what is spent under it and stays non-negative |
| TokenRuns.SpendingWithinApproval | contracts/sxlm-token/src/lib.rs:203-248 | after an approval a spender moves at most the approved amount until the next approval |
| PoolContracts.Isqrt | contracts/lp-pool/src/lib.rs:93-104 | Newton's loop terminates and returns the floor square root |
| PoolContracts.NewtonStaysAbove | contracts/lp-pool/src/lib.rs:99-102 | the integer AM-GM step: no iterate falls below the root |
| Pools.Sqrt | contracts/lp-pool/src/lib.rs:93-104 | the reference: the floor square root by definition |
| PoolContracts.PoolContract.constructor | contracts/lp-pool/src/lib.rs:112-131 | an empty pool with a protocol rate of 5 |
| PoolContracts.PoolContract.Quote | contracts/lp-pool/src/lib.rs:152-173 | the terms of a deposit: first deposit by square root, later ones by the limiting side |
| PoolContracts.PoolContract.AddLiquidity | contracts/lp-pool/src/lib.rs:147-197 | refines the pool function, with rollback when the second transfer panics |
| PoolContracts.PoolContract.Credit | contracts/lp-pool/src/lib.rs:177-196 | collects both amounts or neither, then mints the LP tokens |
| PoolContracts.PoolContract.RemoveLiquidity | contracts/lp-pool/src/lib.rs:200-235 | refines the pool function, with rollback |
| PoolContracts.PoolContract.Exchange | contracts/lp-pool/src/lib.rs:256-259 | a swap's two transfers, or neither |
| PoolContracts.PoolContract.SwapXlm | contracts/lp-pool/src/lib.rs:238-280 | refines the pool function, with rollback, including a zero fee rate dividing by zero |
| PoolContracts.PoolContract.SwapSxlm | contracts/lp-pool/src/lib.rs:283-315 | refines the pool function, with rollback |
| PoolContracts.PoolContract.CollectFees | contracts/lp-pool/src/lib.rs:322-343 | pays the accrued fees to the admin and resets them |
| PoolContracts.PoolContract.SetProtocolFee | contracts/lp-pool/src/lib.rs:346-351 | sets the protocol rate, unchecked |
| PoolArithmetic.SwapOutIsCeiling | contracts/lp-pool/src/lib.rs:250-251 | the output is exactly the ceiling of reserveOut times input over the new reserveIn |
| PoolArithmetic.SwapMonotone | contracts/lp-pool/src/lib.rs:243-251 | a larger input never buys less |
| PoolArithmetic.NoInputNoOutput | contracts/lp-pool/src/lib.rs:243-252 | with nothing left after fees no swap passes the output check |
| PoolArithmetic.FeesExact | contracts/lp-pool/src/lib.rs:243-264 | fee and protocol cut are floors of the shares their rates name |
| PoolArithmetic.CutWithinFee | contracts/lp-pool/src/lib.rs:261-264 | the cut is within the fee when its rate is within the fee rate |
| PoolArithmetic.ProductAfterSwap | contracts/lp-pool/src/lib.rs:250-268 | the product after a swap is k - k mod d plus the kept fee times floor(k / d), and when it does not fall |
| PoolArithmetic.ShareBounds | contracts/lp-pool/src/lib.rs:212-213 | a redemption is the floor of its share, leaves reserve per LP no lower, and the whole supply redeems the whole reserve |
| PoolArithmetic.SplitPaysLess | contracts/lp-pool/src/lib.rs:212-213 | two redemptions in a row pay at most one of their sum |
| PoolArithmetic.ComputedSide | contracts/lp-pool/src/lib.rs:161-172 | the computed side is returned exactly |
| PoolArithmetic.LimitingSide | contracts/lp-pool/src/lib.rs:161-172 | the limiting side returns at most what was taken, and one LP token more would dilute |
| PoolArithmetic.ComputedWithinOffer | contracts/lp-pool/src/lib.rs:164-172 | the computed side never exceeds the offer |
| PoolRuns.BuySxlmExact | contracts/lp-pool/src/lib.rs:238-280 | output, fee, cut and product of a completed swap to the last unit, for any protocol rate; from the state before the call, exactly when the product does not fall |
| PoolRuns.BuyXlmExact | contracts/lp-pool/src/lib.rs:283-315 | the same for the other direction, where the whole fee stays in the pool |
| PoolRuns.ProductCanFall | contracts/lp-pool/src/lib.rs:250-252 | a concrete pool whose product falls from 2000 to 1002 |
| PoolRuns.UnboundedCutDrainsReserve | contracts/lp-pool/src/lib.rs:261-267 | a concrete pool whose XLM reserve goes negative under an unbounded protocol rate |
| PoolRuns.BuySxlmKeeps | contracts/lp-pool/src/lib.rs:238-280 | a swap keeps the books exactly when its cut leaves something in the reserve; a rate within the fee rate suffices |
| PoolRuns.RunKeepsExactly | contracts/lp-pool/src/lib.rs:147-351 | the books hold throughout a run exactly when every completed purchase leaves something in the reserve |
| PoolRuns.AddSettles | contracts/lp-pool/src/lib.rs:177-181 | a deposit moves exactly the quoted amounts from the user |
| PoolRuns.RemoveSettles | contracts/lp-pool/src/lib.rs:223-227 | a redemption moves exactly the two shares to the user |
| PoolRuns.BuySxlmSettles | contracts/lp-pool/src/lib.rs:253-259 | a swap moves the input in and the output out, and pays at least the caller's minimum |
| PoolRuns.BuyXlmSettles | contracts/lp-pool/src/lib.rs:297-303 | the same for the other direction |
| PoolRuns.ReachableBooks | contracts/lp-pool/src/lib.rs:112-351 | in every state reached so, LP tokens add up, supply and reserves vanish together, holdings are reserves plus accrued fees plus gifts, and no call divides by zero |
| PoolRuns.SwapsComplete | contracts/lp-pool/src/lib.rs:238-315 | a concrete pool on which swaps complete in both directions |
| PoolRuns.DepositsAndRedemptionsComplete | contracts/lp-pool/src/lib.rs:147-235 | and on which deposits and redemptions do |
| PoolRuns.RedemptionGoesThrough | contracts/lp-pool/src/lib.rs:200-215 | a redemption completes exactly when the tokens are held and both shares are positive |
| PoolRuns.RedemptionKeepsValue | contracts/lp-pool/src/lib.rs:212-220 | the reserve behind each remaining LP token does not fall, on both sides |
| PoolRuns.ThereAndBack | contracts/lp-pool/src/lib.rs:238-315 | buying sXLM and selling it at once: the gain times the sXLM reserve is exactly what rounding gives away less what the kept fees put back; none exactly when the product has not fallen |
| PoolRuns.ThereAndBackCanPay | contracts/lp-pool/src/lib.rs:250-298 | a concrete pool at the default rates where 77 XLM buys sXLM that sells for 96 |
| PoolRuns.SplittingNeverPays | contracts/lp-pool/src/lib.rs:200-235 | redeeming in any number of parts pays at most what redeeming the total once pays, which goes through |
| PoolRuns.AddThenRemove | contracts/lp-pool/src/lib.rs:147-235 | adding takes at most the offer; removing at once returns the computed side exactly and at most the limiting side; effect on reserve per LP token |
| PoolCalls.PricedUnique | contracts/lp-pool/src/lib.rs:152-173 | a deposit has at most one price: the limiting side whole, the LP tokens it supports, the other side's share, all as floors |
| PoolCalls.QuoteIsPriced | contracts/lp-pool/src/lib.rs:152-173 | the terms quoted are that price |
| PoolCalls.AddExactly | contracts/lp-pool/src/lib.rs:147-197 | a deposit completes exactly when the price is positive and the user has it; it is charged and credited the price, and nothing else changes |
| PoolCalls.FirstDepositCompletes | contracts/lp-pool/src/lib.rs:147-197 | an empty pool can be opened with any two positive amounts the user has |
| PoolCalls.RemoveExactly | contracts/lp-pool/src/lib.rs:200-235 | completes exactly when the user has the LP tokens and each share reaches one unit; pays the floor of lp * reserve / total on each side; the whole new state |
| PoolCalls.BuySxlmExactly | contracts/lp-pool/src/lib.rs:238-280 | a swap completes exactly under these bounds on input, fee rate, reserves and minimum; output as a ceiling, cut as a floor, the whole new state |
| PoolCalls.BuyXlmExactly | contracts/lp-pool/src/lib.rs:283-315 | the same for the other direction, with no cut and a zero fee rate admitted |
| PoolCalls.DefaultCut | contracts/lp-pool/src/lib.rs:261-264 | at a fee rate of 30 and the initial protocol rate the cut is a sixth of the fee, rounded down |
| PoolCalls.CollectExactly | contracts/lp-pool/src/lib.rs:322-343 | by the books never fails; pays the admin exactly what was accrued and leaves none |
| PoolCalls.SetFeeExactly | contracts/lp-pool/src/lib.rs:346-351 | the admin sets the protocol's rate to anything, and nothing else changes |
| StakingContracts.StakingContract.constructor | contracts/staking/src/lib.rs:143-165 | an empty contract |
| StakingContracts.StakingContract.Deposit | contracts/staking/src/lib.rs:184-220 | refines the staking function across both tokens, with rollback |
| StakingContracts.StakingContract.NextWithdrawalId | contracts/staking/src/lib.rs:105-115 | ids count up from zero |
| StakingContracts.StakingContract.RequestWithdrawal | contracts/staking/src/lib.rs:223-285 | refines the staking function: instant path through the buffer, delayed path through the queue |
| StakingContracts.StakingContract.ClaimWithdrawal | contracts/staking/src/lib.rs:288-320 | refines the staking function |
| StakingContracts.StakingContract.AddRewards | contracts/staking/src/lib.rs:328-349 | refines the staking function |
| StakingContracts.StakingContract.WithdrawFees | contracts/staking/src/lib.rs:353-383 | refines the staking function; a non-positive amount withdraws all |
| StakingContracts.StakingContract.ApplySlashing | contracts/staking/src/lib.rs:396-428 | refines the staking function |
| StakingContracts.StakingContract.AddLiquidity | contracts/staking/src/lib.rs:473-487 | refines the staking function |
| StakingContracts.StakingContract.SetPaused | contracts/staking/src/lib.rs:453-467 | pauses and unpauses |
| StakingContracts.StakingContract.SetCooldown | contracts/staking/src/lib.rs:503-509 | sets the cooldown |
| StakingContracts.StakingContract.SetAdmin | contracts/staking/src/lib.rs:496-501 | hands the admin role over |
| StakingContracts.StakingContract.GetExchangeRate | contracts/staking/src/lib.rs:515-524 | the published rate, one while there is no sXLM |
| StakingRuns.RunKeepsSupply | contracts/staking/src/lib.rs:209-247 | cross-contract supply: staking's total, the token's supply and the sum of the balances agree and are non-negative over any interleaving |
| StakingRuns.NativeMoves | contracts/staking/src/lib.rs:184-487 | every completed call moves exactly the native tokens its event says, to whom it says |
| StakingRuns.RewardSplits | contracts/staking/src/lib.rs:336-343 | a tenth of the rewards, rounded down, goes to the treasury and the rest to the stakers |
| StakingRuns.RunKeepsBooks | contracts/staking/src/lib.rs:184-487 | conservation over any run: native balance plus rewards equals staked, buffer, treasury, instant payouts, slashes and gifts |
| StakingRuns.CallChangesQueue | contracts/staking/src/lib.rs:263-307 | a call leaves the queue alone, appends an open request, or claims an open one |
| StakingRuns.RunKeepsQueue | contracts/staking/src/lib.rs:105-135 | ids are 0 to counter - 1; payouts in the log pay each request at most once, as requested, not before unlock; claimed is exactly paid; totals agree |
| StakingRuns.Reachable | contracts/staking/src/lib.rs:143-509 | supply, conservation and queue hold in every reachable state |
| StakingRuns.RunKeepsRequests | contracts/staking/src/lib.rs:264-307 | requests never disappear or change, except claimed from false to true |
| StakingRuns.PausedFreezes | contracts/staking/src/lib.rs:99-103 | while paused neither the supply nor the set of requests changes |
| StakingRate.OnlyClaimsAndSlashesLower | contracts/staking/src/lib.rs:184-428 | with sXLM before and after, a call lowers the rate exactly when it is a completed claim or slash |
| StakingRate.WorthBounds | contracts/staking/src/lib.rs:238-241 | what sXLM is worth is within the staked total, keeps the rate of the rest, and is all of it for the whole supply |
| StakingRate.RateNeverFalls | contracts/staking/src/lib.rs:184-383 | over any run without claims and slashes the staked total stays non-negative and the rate, cross-multiplied and as published, never falls |
| StakingRate.FirstDeposit | contracts/staking/src/lib.rs:199-203 | a deposit while nothing is issued or staked mints one to one |
| StakingRate.OrdinaryRoundTrip | contracts/staking/src/lib.rs:199-241 | with sXLM and XLM there before, minting and redeeming returns at most x and loses less than one unit plus T / (S + m) |
| StakingRate.RoundTripArithmetic | contracts/staking/src/lib.rs:199-241 | in any state, minting and redeeming at once is worth at most x exactly when no stake is stranded without sXLM; then the loss bound, otherwise the whole stake |
| StakingRate.RoundTrip | contracts/staking/src/lib.rs:184-285 | depositing x and redeeming the minted sXLM at once, in any state: answered with at most x exactly when no stake was stranded, with the bound on the loss |
| StakingRate.ClaimPaysRequest | contracts/staking/src/lib.rs:288-320 | whatever runs in between, a claim pays the amount fixed at request to the requester, after the unlock ledger, once |
| StakingRate.DelayedRoundTrip | contracts/staking/src/lib.rs:184-320 | the same through request, cooldown, anything in between, and claim |
| StakingUnwind.OneLeaves | contracts/staking/src/lib.rs:223-262 | a holder that redeems everything is paid instantly and leaves every other balance worth one unit and covered |
| StakingUnwind.WorthMonotone | contracts/staking/src/lib.rs:238-238 | a rate that is no lower makes no balance worth less |
| StakingUnwind.Unwind | contracts/staking/src/lib.rs:223-262 | while every balance is worth one unit, at par or after a slash: if all holders leave in any order each is paid instantly at least its worth at the start, the payouts add up to the staked total, and nothing remains |
| StakingUnwind.DelayedRequestRaisesWorth | contracts/staking/src/lib.rs:238-278 | a delayed request leaves its XLM staked: while sXLM is left the rate rises and no remaining balance is worth less |
| StakingUnwind.EmptiedIsStranded | contracts/staking/src/lib.rs:184-278 | two calls from a fresh contract strand a stake |
| StakingUnwind.NextDepositorGains | contracts/staking/src/lib.rs:199-241 | two more calls: a deposit of 1 redeemed at once is answered with 101 |
| StakingUnwind.StakedTotalCanGoNegative | contracts/staking/src/lib.rs:309-310 | six calls from a fresh contract leave the staked total at -100 |
| StakingUnwind.CoverKeptExactly | contracts/staking/src/lib.rs:223-320 | a call keeps pending claims covered exactly when it redeems or slashes no more than is staked beyond them |
| StakingUnwind.MaturedClaimCompletes | contracts/staking/src/lib.rs:288-320 | with pending claims covered and credited rewards within payouts, slashes and gifts, a request can be claimed exactly when it is open and unlocked |
| StakingUnwind.CanLeaveExactly | contracts/staking/src/lib.rs:223-262 | a holder can redeem everything exactly when that is worth one unit |
| StakingSplit.PartsWithinWorth | contracts/staking/src/lib.rs:223-262 | any parts, all but the last paid instantly, are answered with at most what their sum is worth at the start |
| StakingSplit.InstantSplitNeverPays | contracts/staking/src/lib.rs:223-262 | so with at most what asking for the sum at once is answered with |
| StakingSplit.DelayedSplitPaysExactly | contracts/staking/src/lib.rs:238-278 | after a delayed first part the two answers exceed the one for the sum exactly when a * b * T makes up for the floors; from 2 * S * (S - a) on always |
| StakingSplit.DelayedSplitCanPay | contracts/staking/src/lib.rs:238-278 | three calls from a fresh contract: halves of 100 are answered with 50 and 100 |
| StakingCalls.DepositExactly | contracts/staking/src/lib.rs:184-220 | completes exactly when unpaused, the user has the XLM and at least one sXLM is minted; mints one to one or the floor of x * S / T; the whole new state |
| StakingCalls.RequestCompletesExactly | contracts/staking/src/lib.rs:223-285 | completes exactly when unpaused, the user has the sXLM, it is worth one unit, and the XLM is there if paid at once |
| StakingCalls.RequestExactly | contracts/staking/src/lib.rs:238-285 | answered with the floor of amount * T / S, paid at once exactly when the buffer has that much and queued otherwise; the whole new state |
| StakingCalls.ClaimExactly | contracts/staking/src/lib.rs:288-320 | completes exactly when the request is the user's, open, unlocked and covered by the holdings; pays it once and lowers the staked total |
| StakingCalls.RewardsExactly | contracts/staking/src/lib.rs:328-350 | the fee is a tenth rounded down, to the treasury; the rest is staked |
| StakingCalls.FeesExactly | contracts/staking/src/lib.rs:353-383 | pays the admin what it asked for, or the whole treasury, out of the treasury |
| StakingCalls.SlashExactly | contracts/staking/src/lib.rs:396-428 | takes up to the whole staked total and nothing else |
| StakingCalls.LiquidityExactly | contracts/staking/src/lib.rs:473-487 | moves the admin's XLM into the buffer and nothing else |
| StakingCalls.PausingPauses | contracts/staking/src/lib.rs:453-467 | while paused every deposit and request is refused, claims are answered as before, and lifting the pause restores the state |
| StakingCalls.CooldownExactly | contracts/staking/src/lib.rs:503-509 | a new cooldown moves the unlock ledger of later requests only |
| StakingCalls.AdminExactly | contracts/staking/src/lib.rs:496-501 | the admin role moves, and nothing else |
| StakingCalls.RateExactly | contracts/staking/src/lib.rs:515-524 | the published rate is the floor of T * RATE / S, and RATE without sXLM |
| LendingContracts.LendingContract.constructor | contracts/lending/src/lib.rs:162-185 | an empty book at rate one |
| LendingContracts.LendingContract.DepositCollateral | contracts/lending/src/lib.rs:253-272 | refines the lending function |
| LendingContracts.LendingContract.WithdrawCollateral | contracts/lending/src/lib.rs:275-306 | refines the lending function |
| LendingContracts.LendingContract.Borrow | contracts/lending/src/lib.rs:309-342 | refines the lending function |
| LendingContracts.LendingContract.Repay | contracts/lending/src/lib.rs:345-366 | refines the lending function |
| LendingContracts.LendingContract.Liquidate | contracts/lending/src/lib.rs:369-418 | refines the lending function across both tokens, with rollback |
| LendingContracts.LendingContract.Seize | contracts/lending/src/lib.rs:393-412 | its second half: sends the seized collateral and clears the debt, or changes nothing |
| LendingContracts.LendingContract.SetExchangeRate | contracts/lending/src/lib.rs:204-215 | sets a positive rate |
| LendingContracts.LendingContract.SetCollateralFactor | contracts/lending/src/lib.rs:218-229 | sets a factor between 0 and 100%, unrelated to the threshold |
| LendingContracts.LendingContract.SetThreshold | contracts/lending/src/lib.rs:232-238 | sets a threshold between 0 and 100%, unrelated to the factor |
| LendingContracts.LendingContract.SetBorrowRate | contracts/lending/src/lib.rs:241-246 | stores the borrow rate |
| LendingRuns.ReachableBook | contracts/lending/src/lib.rs:253-418 | totals are sums of non-negative positions, the contract holds the collateral, and pool plus loans changes only by outside funding |
| LendingRuns.CollateralSettles | contracts/lending/src/lib.rs:253-306 | pledging and withdrawing change only the caller's collateral and the sXLM moved |
| LendingRuns.DebtSettles | contracts/lending/src/lib.rs:309-366 | borrowing and repaying change only the caller's debt and the XLM moved |
| LendingRuns.HealthyExactly | contracts/lending/src/lib.rs:147-154 | the health factor reaches one exactly when the debt is backed at factor times rate |
| LendingRuns.GatesAgree | contracts/lending/src/lib.rs:288-322 | the borrowing cap and the withdrawal gate accept exactly the same positions with debt |
| LendingRuns.LiquidatableExactly | contracts/lending/src/lib.rs:369-397 | a liquidation completes exactly when the debt is not backed at threshold times rate and the liquidator has the funds |
| LendingRuns.NobodyIsEverLiquidated | contracts/lending/src/lib.rs:204-418 | over any run from an empty book, nobody can be liquidated in a state whose threshold times rate covers the highest factor times rate so far, falling rates included |
| LendingRuns.PrudentRunsTolerateTheirPeak | contracts/lending/src/lib.rs:204-238 | that holds when rate and threshold never fall and the factor stays within the threshold |
| LendingRuns.ChangeIsSafeExactly | contracts/lending/src/lib.rs:204-238 | a new threshold and rate leave every grantable position healthy exactly when their product covers factor times rate |
| LendingRuns.ConfigurationDecides | contracts/lending/src/lib.rs:204-418 | after a newcomer borrows at the cap, any setter calls make it liquidatable exactly when they end below what the gates had granted |
| LendingRuns.RateAndThresholdMatter | contracts/lending/src/lib.rs:204-238 | a concrete position at its cap that a lowered rate, or a lowered threshold, makes liquidatable |
| LendingRuns.FactorMatters | contracts/lending/src/lib.rs:218-229 | a concrete borrower that a factor above the threshold lets become liquidatable |
| LendingRuns.SeizableBounds | contracts/lending/src/lib.rs:387-391 | the two nested floors lose less than rate plus one |
| LendingRuns.LiquidationOutcome | contracts/lending/src/lib.rs:369-418 | the debt is repaid and cleared; the seizure is within the collateral and within debt plus bonus, and short of both only by rounding; nobody else is touched |
| LendingCalls.DepositExactly | contracts/lending/src/lib.rs:253-272 | completes exactly for what the user has; only its collateral and the total grow |
| LendingCalls.WithdrawExactly | contracts/lending/src/lib.rs:275-306 | completes exactly when what is left backs the debt at factor times rate, or there is no debt; the whole new state |
| LendingCalls.BorrowExactly | contracts/lending/src/lib.rs:309-342 | completes exactly when the collateral backs the new debt at factor times rate and the pool has the XLM; the whole new state |
| LendingCalls.GatesAgreeOnCalls | contracts/lending/src/lib.rs:288-322 | a position can be reached by borrowing exactly if it can be reached by withdrawing |
| LendingCalls.RepayExactly | contracts/lending/src/lib.rs:345-366 | an overpayment completes and repays the debt; otherwise what was offered is repaid |
| LendingCalls.SeizureExactly | contracts/lending/src/lib.rs:386-412 | the seizure is the two nested floors to the last unit, capped by the collateral; the whole new book |
| LendingCalls.DefaultBonus | contracts/lending/src/lib.rs:386-391 | at the initial rate and bonus a liquidator is due 105% of the debt, rounded down |
| LendingCalls.SettersExactly | contracts/lending/src/lib.rs:204-246 | each setter checks only its own range and sets only its own parameter |
| GovernanceContracts.GovernanceContract.constructor | contracts/governance/src/lib.rs:148-167 | no proposals, no reference supply |
| GovernanceContracts.GovernanceContract.SetReferenceSupply | contracts/governance/src/lib.rs:182-188 | sets a non-negative reference supply |
| GovernanceContracts.GovernanceContract.NextProposalId | contracts/governance/src/lib.rs:93-103 | ids count up from zero |
| GovernanceContracts.GovernanceContract.CreateProposal | contracts/governance/src/lib.rs:191-232 | refines the governance function |
| GovernanceContracts.GovernanceContract.Vote | contracts/governance/src/lib.rs:235-273 | refines the governance function |
| GovernanceContracts.GovernanceContract.ExecuteProposal | contracts/governance/src/lib.rs:277-328 | refines the governance function |
| GovernanceContracts.GovernanceContract.GetParam | contracts/governance/src/lib.rs:353-367 | the stored value, or the empty string |
| GovernanceRuns.VoteCounts | contracts/governance/src/lib.rs:255-267 | a vote adds the voter's balance to the supported side and changes no other tally |
| GovernanceRuns.StepKeepsTally | contracts/governance/src/lib.rs:191-328 | each tally is the sum of the recorded weights of its side |
| GovernanceRuns.StepKeepsVoters | contracts/governance/src/lib.rs:235-273 | recorded votes are positive, in time and by distinct voters; flags are exactly the recorded votes; every proposal has the whole voting period |
| GovernanceRuns.ExecutableExactly | contracts/governance/src/lib.rs:277-309 | a proposal executes exactly when its period is over, it was not executed, and its tally passes with quorum |
| GovernanceRuns.StepKeepsExecutions | contracts/governance/src/lib.rs:277-328 | every execution was due on the tally that stands, none happens twice, executed is exactly recorded |
| GovernanceRuns.StepKeepsParams | contracts/governance/src/lib.rs:311-319 | a parameter is the value of the latest executed proposal for its key |
| GovernanceRuns.Reachable | contracts/governance/src/lib.rs:148-367 | all of this in every reachable state, and what get_param answers there |
| GovernanceRuns.TallyIsFinal | contracts/governance/src/lib.rs:242-288 | once the ledger passes the end, nothing about a proposal changes over any run but being executed |
| GovernanceRuns.VotingAndExecutionExclude | contracts/governance/src/lib.rs:242-289 | a proposal that can be executed can no longer be voted on, and is executed once |
| GovernanceCalls.CreateExactly | contracts/governance/src/lib.rs:191-232 | completes exactly with 100 sXLM; the new proposal has the next id, the given content, no votes, and is open from now for the voting period; no other changes |
| GovernanceCalls.VoteExactly | contracts/governance/src/lib.rs:235-273 | completes exactly once per voter, up to the end, with some sXLM; adds its weight to one tally and changes nothing else |
| GovernanceCalls.ProposalIsOpen | contracts/governance/src/lib.rs:219-245 | a proposer can vote on the proposal from the ledger it was made in exactly until the voting period is over |
| GovernanceCalls.ExecuteExactly | contracts/governance/src/lib.rs:277-328 | an execution sets the named parameter to the named value, marks the proposal, and changes nothing else |
| GovernanceCalls.ReferenceExactly | contracts/governance/src/lib.rs:182-188 | the admin sets any reference supply that is not negative |
| GovernanceSupply.CouncilKeepsExcess | contracts/governance/src/lib.rs:191-328 | no call of the council changes by how much a proposal's tallies exceed what its voters hold |
| GovernanceSupply.OnlyTakingOutRaises | contracts/sxlm-token/src/lib.rs:166-248 | a token call raises that excess exactly when it completes and takes sXLM out of the voters' joint holdings, and by that amount |
| GovernanceSupply.ExcessIsTakenOut | contracts/governance/src/lib.rs:191-273 | from before a proposal, over any council and token calls, the excess is exactly what was taken out of the holdings of those who had voted |
| GovernanceSupply.TallyWithinSupply | contracts/governance/src/lib.rs:235-273 | once voting is over the tallies are, for good, the voters' holdings plus the excess; within the supply exactly when the excess is within what the others hold, so whenever it is not positive |
| GovernanceSupply.CeilingReached | contracts/governance/src/lib.rs:235-273 | while voting is open some run of votes takes the tallies to the excess plus all that can vote |
| GovernanceSupply.TallyCeiling | contracts/governance/src/lib.rs:235-273 | no run without token calls takes them further |
| GovernanceSupply.ExceedsSupplyExactly | contracts/governance/src/lib.rs:235-273 | while voting is open votes alone can take the tallies beyond all balances exactly when the excess is above the contract's own balance |
| GovernanceSupply.SelfNeverVotes | contracts/governance/src/lib.rs:235-236 | over any run the contract's own address does not vote |
| GovernanceSupply.MovedTokensCountAgain | contracts/governance/src/lib.rs:255-264 | two calls from an open proposal with a transfer in between give a tally of twice the supply |
| Loops.ClosedForm | backend/src/leverage-engine/index.ts:62-76 | stake and debt after n loops in closed form |
| Loops.BelowMaximum | backend/src/leverage-engine/index.ts:55-83 | the effective leverage stays below 1 / (1 - c) |
| Loops.DocumentedYieldGap | backend/src/leverage-engine/index.ts:4-8 | the documented yield, at leverage 1 / (1 - c), differs from the simulated one by the last loan times r - c * b over 1 - c; the sign of r - c * b decides which is larger |
| Loops.MarginalStaysLow | backend/src/leverage-engine/index.ts:116-132 | once a loop adds less than one unit every later loop does |
| Loops.BestNetOfOnePerLoop | backend/src/leverage-engine/index.ts:112-132 | the stopping point maximises the yield net of one unit per loop |
| LeverageEngine.RunLoops | backend/src/leverage-engine/index.ts:58-76 | the loop's totals and its recorded details |
| LeverageEngine.DetailsChain | backend/src/leverage-engine/index.ts:62-76 | each recorded loop deposits what the one before borrowed, and the totals add up |
| LeverageEngine.Simulate | backend/src/leverage-engine/index.ts:52-100 | totals, yields and every recorded loop in closed form; leverage below the maximum |
| LeverageEngine.Optimal | backend/src/leverage-engine/index.ts:105-150 | the greedy stop separates exactly the loops worth one unit, up to 20, and no count does better net of one unit per loop |
| RestakingEngine.StepsHealthy | backend/src/restaking-engine/index.ts:81-112 | borrowing brings the health factor to exactly one, and before it is at least one |
| RestakingEngine.HealthExactly | backend/src/restaking-engine/index.ts:67-104 | the health factor times the debt is c times the stake; without debt it is infinite |
| RestakingEngine.StepsChain | backend/src/restaking-engine/index.ts:67-115 | the recorded steps are numbered through and ordered, each loop staking what the one before borrowed, with totals that add up |
| RestakingEngine.OneLoop | backend/src/restaking-engine/index.ts:67-115 | one turn: what it lends, the totals after it and its three recorded steps |
| RestakingEngine.RunLoops | backend/src/restaking-engine/index.ts:67-115 | the loop's totals and its three recorded steps per loop |
| RestakingEngine.Simulate | backend/src/restaking-engine/index.ts:60-136 | the totals and yield of the leverage engine; no recorded step has a health factor below one |

## Left out

- Storage lifetimes, `upgrade`, event publishing and token metadata: no effect on the modelled values.
- `set_minter` and `set_admin` of the token: staking stays the sole minter in the run theorems.
- `set_treasury`, `update_validators` and the approval's expiration ledger: the contracts never read what they store. `recalibrate_rate` stores nothing.
- Overflow of i128 amounts and u32 ledger numbers: such a call aborts and changes nothing, so the run theorems cover it; the theorems that a call completes (such as `StakingUnwind.Unwind`, `StakingUnwind.MaturedClaimCompletes`, `PoolRuns.SplittingNeverPays` and `LendingRuns.LiquidatableExactly`) speak of amounts that do not overflow.
- Initialisation twice: a second `initialize` panics.
- The native token's own contract: it is not part of this repository, and only its `transfer` and `balance` are used.
- Rounding of JavaScript numbers in the simulators: they are modelled over `real`, with a whole number of loops.
- `RestakingEngine.getPosition`, the reward, risk and validator services, the keeper, the event listener, the API and the frontend: database and network plumbing.
- Interest: the lending contract stores a borrow rate and accrues nothing.
