# Moonveil staking ledger

A Dafny model of the staking ledger of the MoonveilStake contract. The contract lets users stake
into reward pools. Each pool mints a fixed reward per block and shares it among its depositors
in proportion to their live principal. A scaled-integer accumulator, `accRewardPerShare`, does
the sharing: it is brought up to the current block before every stake and withdrawal.

A user's position in a pool is an append-only list of deposit entries. Each entry records:
- its principal and deposit block;
- its lock tier, in weeks, and the time its lock expires;
- the accumulator snapshot it was staked at;
- its credited reward and its withdrawn amount.

The lock tier also selects a reward factor, scaled by 100, from a table the owner sets with
`setLockFactors`.

A withdrawal walks the entries oldest first and takes `min(remaining, live principal)` from
each live entry it visits. The entry is credited the reward of exactly the principal taken from
it, and keeps its snapshot for the principal that stays. So a partial withdrawal leaves the
remainder's reward pending, as test/MoonveilStaking.ts:226-228 and 276-278 expect, and a full
withdrawal leaves nothing pending. The whole request fails if a live entry that is still
locked comes before the request is met. Pools can be disabled, which stops stakes and
withdrawals. They can also be blocked, which stops stakes only.

The Solidity contract itself is not part of this model; its behaviour is rebuilt from the
project's Hardhat suite, `test/MoonveilStaking.ts`. Every call is atomic. `Stake`, `Withdraw`, `AddPool`
and `PendingReward` take the block number as an explicit argument, and each requires it to be
no earlier than `lastBlock`, the latest block a call was made in. The owner's calls
(`SetLockFactors` and the pool-status calls) take no block and leave `lastBlock` alone. Stakes
and withdrawals also take the timestamp as an argument. The model does not order timestamps;
it only compares them with lock expiries.

Modules:
- `Results`: the revert reasons.
- `LockSchedule`: the factor table and the one-week lock unit.
- `Accrual`: a pool and its accrual step.
- `Ledger`: entries, the credit a withdrawal pays an entry, the position sums and pending reward.
- `Withdrawal`: the oldest-first walk, as a specification function and as the loop that runs it.
- `PoolTotals`: the sum of live principal over all positions of a pool.
- `Staking`: the contract state as the class `MoonveilStake`, with its invariant.
- `Scenarios`: the suite's scenarios replayed on the model, with the exact figures the tests expect.

## Model

| member | source | states |
|---|---|---|
| LockSchedule.ApplyFactorsLookup | test/MoonveilStaking.ts:45-47 | after `setLockFactors(weeks, factors)` the table holds exactly the old tiers plus the listed ones; each listed tier has the factor of its last pair; every other tier is unchanged |
| Accrual.NewPool | test/MoonveilStaking.ts:49 | a new pool has the given reward rate, nothing staked, a zero accumulator, is neither disabled nor blocked, and starts accruing at the block it was added |
| Accrual.Accrue | test/MoonveilStaking.ts:144-154 | accrual changes only the accumulator and the accrual block; the accumulator never falls, and stays put in an empty pool |
| Accrual.AccrueBracket | test/MoonveilStaking.ts:150-154 | the accumulator increment d is the minted reward per unit of principal rounded down: d * totalPrincipal <= minted * PRECISION < (d + 1) * totalPrincipal |
| Accrual.AccrueMonotoneInBlock | test/MoonveilStaking.ts:144-149 | accruing the same pool to a later block never gives a smaller accumulator |
| Accrual.ProRataShare | test/MoonveilStaking.ts:150-154 | over one accrual step, live principal `live` earns its pro-rata share of the minted reward up to rounding: reward * totalPrincipal <= minted * live, and minted * live * PRECISION < (reward + 1) * totalPrincipal * PRECISION + live * totalPrincipal |
| Accrual.SoleDepositorShare | test/MoonveilStaking.ts:144-149 | a depositor holding all of a pool's principal earns exactly the minted reward, (blocks elapsed) * rewardPerBlock, whatever the principal (when the division is exact) |
| Ledger.Take | test/MoonveilStaking.ts:218-233 | taking principal from an entry raises its withdrawn amount by exactly that much and never lowers its reward; principal, lock, tier, deposit block and snapshot stay put |
| Ledger.EarnedShrinks | test/MoonveilStaking.ts:223-228 | taking principal from an entry never raises its unsettled earnings |
| Ledger.TakeKeepsEarnings | test/MoonveilStaking.ts:156-165 | a take conserves credited plus unsettled reward exactly; taking all the live principal credits all of the entry's earnings and leaves nothing unsettled |
| Ledger.CreditCoversTake | test/MoonveilStaking.ts:223-232 | the credit paid for taking principal is at least that principal's own rounded-down weighted earnings since the snapshot |
| Ledger.ZeroLiveNoPending | test/MoonveilStaking.ts:156-160 | a position with no live principal has no pending reward, at any accumulator |
| Ledger.CurrentStakedIdentity | test/MoonveilStaking.ts:161-165 | for every position, currentStaked + sum of withdrawAmount == totalStaked |
| Ledger.PendingMonotone | test/MoonveilStaking.ts:144-149 | a position's pending reward never falls as the accumulator rises |
| Ledger.EarnedMonotone | test/MoonveilStaking.ts:144-149 | an entry's unsettled earnings never fall as the accumulator rises |
| Ledger.AppendDeposit | test/MoonveilStaking.ts:168-177 | appending a fresh entry at the current accumulator adds its principal to totalStaked and currentStaked, and leaves withdrawn amounts, credited reward and pending reward unchanged |
| Withdrawal.WithdrawEntries | test/MoonveilStaking.ts:245-258 | the withdrawal loop returns exactly the oldest-first walk: the new entries, or the reason the whole request fails |
| Withdrawal.WalkSucceedsIff | test/MoonveilStaking.ts:201-205 | a request succeeds if and only if the principal reachable before the first locked live entry covers it; a request within currentStaked can only fail because of a lock |
| Withdrawal.WalkSettleable | test/MoonveilStaking.ts:207-216 | after a successful walk no entry has withdrawn more than its principal |
| Withdrawal.WalkKeepsEntries | test/MoonveilStaking.ts:207-216 | a successful walk keeps every entry in place with its principal, tier, lock and deposit block; withdrawn amounts and rewards only grow |
| Withdrawal.WalkKeepsTiers | test/MoonveilStaking.ts:360-371 | a successful walk leaves every entry with a lock tier the factor table knows |
| Withdrawal.WalkMovesAmount | test/MoonveilStaking.ts:245-258 | a successful walk moves exactly the requested amount from currentStaked to withdrawn, and leaves totalStaked unchanged |
| Withdrawal.WalkKeepsReward | test/MoonveilStaking.ts:218-233 | withdrawal neither loses nor creates reward: credited plus pending reward is the same before and after a successful walk |
| Withdrawal.FullWithdrawClears | test/MoonveilStaking.ts:156-165 | withdrawing all of currentStaked leaves nothing pending, and credits the position's whole pending reward to its entries' totalRewards |
| Withdrawal.WalkOldestFirst | test/MoonveilStaking.ts:360-371 | when a successful walk takes principal from an entry, every older entry has been drained |
| PoolTotals.PoolStakedUpdate | test/MoonveilStaking.ts:373-391 | replacing one position changes its pool's total live principal by the change of that position's live principal, and leaves other pools' totals alone |
| PoolTotals.PoolStakedUnused | test/MoonveilStaking.ts:49 | a pool that no position refers to has no live principal |
| PoolTotals.PositionWithinPool | test/MoonveilStaking.ts:373-391 | one user's live principal never exceeds the total live principal of its pool |
| Staking.Deposit | test/MoonveilStaking.ts:326-336 | a stake's entry holds the staked amount and the tier, is locked until now + tier weeks, and starts at the current accumulator with no reward and nothing withdrawn |
| Staking.PositionOfWithinPool | test/MoonveilStaking.ts:161-165 | a user's live principal in a pool, whether or not the user has a position there, is part of the pool's total live principal |
| Staking.ConsistentUpdate | test/MoonveilStaking.ts:373-391 | replacing one position and its pool keeps the ledger invariant when the pool's principal moves with the position's live principal |
| Staking.StakeConsistent | test/MoonveilStaking.ts:326-336 | a stake keeps the ledger invariant: every pool's totalPrincipal equals the live principal of its positions |
| Staking.WithdrawConsistent | test/MoonveilStaking.ts:373-391 | a successful withdrawal keeps the ledger invariant, and the amount withdrawn never exceeds the pool's totalPrincipal |
| Staking.PendingGrowsWithBlock | test/MoonveilStaking.ts:144-149 | a user's pending reward seen at a later block is never smaller |
| Staking.MoonveilStake.constructor | test/MoonveilStaking.ts:31-42 | a fresh contract has no pools, no factors and no positions, and satisfies the ledger invariant |
| Staking.MoonveilStake.PendingReward | test/MoonveilStaking.ts:148 | `pendingReward` answers for exactly the existing pools, and is 0 for a user with no entries |
| Staking.MoonveilStake.GetUserPoolStake | test/MoonveilStaking.ts:161-165 | `getUserPoolStake` reports the position's entries, with currentStaked + sum of withdrawAmount == totalStaked, and currentStaked within the pool's totalPrincipal |
| Staking.MoonveilStake.SetLockFactors | test/MoonveilStaking.ts:45-47 | arrays of different lengths are refused with nothing changed; otherwise the pairs are written in order and nothing else changes |
| Staking.MoonveilStake.AddPool | test/MoonveilStaking.ts:49 | appends a new pool whose index is its id; positions and factors are unchanged; the invariant holds |
| Staking.MoonveilStake.SetStatus | test/MoonveilStaking.ts:281-307 | sets one existing pool's two status flags and changes nothing else |
| Staking.MoonveilStake.DisablePool | test/MoonveilStaking.ts:117-119 | an unknown pool is refused; otherwise only that pool's disabled flag is set |
| Staking.MoonveilStake.EnablePool | test/MoonveilStaking.ts:338-347 | an unknown pool is refused; otherwise only that pool's disabled flag is cleared |
| Staking.MoonveilStake.BlockPool | test/MoonveilStaking.ts:294-307 | an unknown pool is refused; otherwise only that pool's blocked flag is set |
| Staking.MoonveilStake.UnblockPool | test/MoonveilStaking.ts:349-358 | an unknown pool is refused; otherwise only that pool's blocked flag is cleared |
| Staking.MoonveilStake.Stake | test/MoonveilStaking.ts:281-298 | refuses a missing, a disabled or a blocked pool (test:281-298 check the last two one at a time; their order is listed under "Left out"); on an active pool a zero amount or an unknown tier is refused with `InvalidInput`. It succeeds exactly for an active pool, a positive amount and a known tier. Success emits `Staked(user, pool, amount, tier)`, accrues the pool, appends the entry and adds the amount to the pool and to currentStaked. Credited and pending reward are unchanged. A refused call changes nothing |
| Staking.MoonveilStake.CommitStake | test/MoonveilStaking.ts:326-336 | an accepted stake accrues the pool, adds the amount to its principal, appends the entry and keeps the invariant; credited and pending reward are unchanged |
| Staking.MoonveilStake.Withdraw | test/MoonveilStaking.ts:191-258 | refuses, in order: a missing pool, a disabled pool, a position with no entries ("No stake found"), a zero amount (`InvalidInput`), more than currentStaked ("Insufficient staked amount"); any other failure is a lock. It succeeds exactly when the reachable principal covers the amount. Success emits `Withdrawn(user, pool, amount)`, applies the oldest-first walk and takes the amount from the pool and from currentStaked. totalStaked and credited-plus-pending reward are unchanged. Withdrawing all of currentStaked leaves pendingReward 0 and adds the whole pending reward to totalRewards. A refused call changes nothing |
| Staking.MoonveilStake.CommitWithdraw | test/MoonveilStaking.ts:360-371 | a withdrawal whose walk succeeds accrues the pool, removes the amount from its principal, stores exactly the entries the walk returned and keeps the invariant; credited-plus-pending reward is unchanged, and nothing is pending after taking all of currentStaked |
| Scenarios.Deploy | test/MoonveilStaking.ts:44-49 | the fixture: factors 100 and 200 for tiers 0 and 1, one native-coin pool paying 100 per block |
| Scenarios.SplitOpening | test/MoonveilStaking.ts:145-149 | a sole depositor has 99 * 100 pending after 99 blocks |
| Scenarios.SplitSharing | test/MoonveilStaking.ts:150-154 | after 100 blocks alone and 100 blocks shared with an equal second deposit, pending is 15000 against 5000 |
| Scenarios.SplitAliceExit | test/MoonveilStaking.ts:156 | the first depositor's full withdrawal drains her one entry and leaves the second depositor's entry untouched |
| Scenarios.SplitBobExit | test/MoonveilStaking.ts:157 | the second depositor's full withdrawal drains his one entry and leaves the first depositor's position untouched |
| Scenarios.SplitClosing | test/MoonveilStaking.ts:156-165 | after both full withdrawals nothing is pending for either user; the first user's view has totalStaked 100, currentStaked 0, the entry's withdrawAmount 100 and totalRewards equal to the entry's reward |
| Scenarios.PendingSplitScenario | test/MoonveilStaking.ts:144-167 | the whole pending-reward test: 9900, then 15000 and 5000, then 0 and 0 with the credited reward in the view |
| Scenarios.SplitStakes | test/MoonveilStaking.ts:168-171 | stakes of 50 in blocks 3 and 14 leave two entries, the second starting at the accumulator of block 14, and a pool of 100 |
| Scenarios.SplitStakeScenario | test/MoonveilStaking.ts:168-177 | two stakes of 50 eleven blocks apart have, together, the reward of every block since the first: 20 * 100 |
| Scenarios.LockFactorScenario | test/MoonveilStaking.ts:180-185 | a tier-1 stake alone for 100 blocks has 100 * 100 * 2 pending |
| Scenarios.PartialOpening | test/MoonveilStaking.ts:219-222 | 50 blocks after a sole stake, 50 * 100 is pending |
| Scenarios.PartialHalf | test/MoonveilStaking.ts:223-225 | withdrawing half of a sole 100 stake one block after the 50-block read emits `Withdrawn(user, 0, 50)` and credits the entry 2550, the reward of the half taken |
| Scenarios.PartialWithdrawal | test/MoonveilStaking.ts:223-232 | withdrawing half emits `Withdrawn(user, 0, 50)`; the credited reward plus the pending reward 50 blocks later is 101 * 100, and the pending part is positive |
| Scenarios.PartialWithdrawScenario | test/MoonveilStaking.ts:218-233 | the whole partial-withdrawal test, from the stake to the 101 * 100 total |
| Scenarios.LockScenario | test/MoonveilStaking.ts:239-243 | a tier-1 entry refuses full and partial withdrawals while locked and allows the full withdrawal once a week has passed (also lines 309-324) |
| Scenarios.DisableScenario | test/MoonveilStaking.ts:281-292 | a disabled pool refuses stakes and withdrawals with "Pool is disabled"; re-enabled, it accepts a stake again (also lines 338-347) |
| Scenarios.BlockStakeScenario | test/MoonveilStaking.ts:349-358 | a blocked pool refuses stakes with "Pool is blocked"; unblocked, it emits `Staked(user, 0, 100, 0)` |
| Scenarios.BlockWithdrawScenario | test/MoonveilStaking.ts:300-307 | a blocked pool still lets a depositor withdraw 50, leaving currentStaked 50 |
| Scenarios.WithdrawErrorScenario | test/MoonveilStaking.ts:201-205 | withdrawing with no entries gives "No stake found"; asking for 200 against 100 staked gives "Insufficient staked amount" (also lines 235-237) |
| Scenarios.FullWithdrawScenario | test/MoonveilStaking.ts:191-199 | a full withdrawal emits `Withdrawn(user, 0, 100)` and leaves currentStaked 0; the stake emits `Staked(user, 0, 100, 0)` (also lines 326-336) |
| Scenarios.RepeatedOpening | test/MoonveilStaking.ts:246-250 | a first partial withdrawal of 30 records 30 on the entry |
| Scenarios.RepeatedWithdrawScenario | test/MoonveilStaking.ts:245-258 | withdrawals of 30 and 20 accumulate: the entry records 50 and currentStaked is 50 |
| Scenarios.SharedStakes | test/MoonveilStaking.ts:263-264 | stakes of 100 and 200 in consecutive blocks give a pool of 300 with the accumulator at one block's reward per unit |
| Scenarios.SharedOpening | test/MoonveilStaking.ts:263-270 | 50 blocks later the two users have 1766 and 3333 pending, both positive |
| Scenarios.SharedAliceHalf | test/MoonveilStaking.ts:272 | the first user's withdrawal of 50 credits her entry 900 and leaves 250 in the pool |
| Scenarios.SharedBobHalf | test/MoonveilStaking.ts:273 | the second user's withdrawal of 100 credits his entry 1740 and leaves 150 in the pool |
| Scenarios.SharedWithdrawal | test/MoonveilStaking.ts:272-278 | right after both half withdrawals the users still have 920 and 1740 pending, both positive |
| Scenarios.SharedWithdrawScenario | test/MoonveilStaking.ts:262-279 | the whole test: positive pending reward for both users before and after their half withdrawals |
| Scenarios.ConcurrentAliceExit | test/MoonveilStaking.ts:385 | the first user's second withdrawal of 50 leaves her currentStaked 0 and the other position untouched |
| Scenarios.ConcurrentBobExit | test/MoonveilStaking.ts:386 | the second user's second withdrawal of 100 leaves both users' currentStaked 0 |
| Scenarios.ConcurrentClosing | test/MoonveilStaking.ts:379-390 | 50 blocks after the half withdrawals the users have 2586 and 5073 pending; after the second withdrawals both views show currentStaked 0 |
| Scenarios.ConcurrentScenario | test/MoonveilStaking.ts:373-391 | the whole test: positive pending reward for both users, then currentStaked 0 for both |
| Scenarios.DrainOpening | test/MoonveilStaking.ts:361-363 | stakes of 100 and 50 leave two entries and currentStaked 150 |
| Scenarios.DrainFirst | test/MoonveilStaking.ts:365 | a withdrawal of 50 comes out of the older entry alone |
| Scenarios.DrainSecond | test/MoonveilStaking.ts:367-370 | a withdrawal of 100 takes the rest of the older entry and all of the newer one, leaving currentStaked 0 |
| Scenarios.DrainScenario | test/MoonveilStaking.ts:360-371 | the whole test: stakes of 100 and 50, then withdrawals of 50 and 100, drain the position to 0 |

## Left out

- Role-based access control (`CONFIG_MANAGER` and the other roles, "missing role" reverts): this is permission policy, not ledger logic. Every call is modelled as made by an authorised caller.
- `pause`/`unpause`: the model is always unpaused.
- Proxy deployment, `initialize` and `upgradeTo`: upgrade plumbing with no effect on the ledger.
- The Aave adapter (`setAavePool`, `setAaveWTokenGateway`, `setAaveWEth` and the mock Aave and WETH contracts): an external yield venue the ledger does not depend on.
- Native-coin transfers: the `{value: ...}` check on stake and the refund on withdrawal are not modelled. Custody appears only as the ledger's principal counters.
- Hardhat's `mine`, `evm_increaseTime` and `evm_mine`: replaced by explicit `block` and `now` arguments. The scenarios assume one block per transaction and one second per block.
- Precision constant: the contract's own value is not visible. `PRECISION` is taken as 10^24, which makes every reward figure in the tests exact.
- Empty pools: when `totalPrincipal` is 0, accrual moves only the accrual block, so that interval's reward is forfeited. No test asserts this; it is an assumption.
- Stake: a zero amount and an unknown lock tier are refused with `InvalidInput`. No test exercises either case; this is an assumption about the contract.
- Stake: when a pool is both disabled and blocked, "Pool is disabled" is reported. No test sets both flags; this order is an assumption.
- Withdraw: a zero amount is refused with `InvalidInput`, checked after "No stake found" and before "Insufficient staked amount". No test exercises it; the order is an assumption.
- Integer width: amounts, rewards and the accumulator are unbounded `nat`s. The contract's `uint256` arithmetic and its overflow reverts are not modelled; no test comes near them.
- Withdrawal credit: an entry is credited `Earned(before) - Earned(after)` for the principal taken, with each `Earned` rounded down. The contract's own rounding is not visible; this choice conserves credited plus pending reward exactly and gives every figure the tests assert.
- Staking.MoonveilStake.SetLockFactors: a tier's factor is looked up when reward is credited or read, not fixed when the entry is made. Rewriting the factor of a tier in use therefore reprices that entry's unsettled reward. No test rewrites a tier in use.
- PoolNotFound: stands for whatever revert an out-of-range pool index causes in the contract. The tests never use one.
- Reverted calls: a refused call leaves the whole state unchanged, including the latest-block clock. The tests only observe the revert reason.
- Accrual.SoleDepositorShare: proved only when the principal divides the scaled minted reward. Otherwise rounding makes the share slightly smaller, and Accrual.ProRataShare gives the bound.
- Pool status errors: a disabled pool and a blocked pool give two distinct errors, `PoolDisabled` and `PoolBlocked`, matching the two revert messages the tests expect. Any finer detail of how the contract reports them is not modelled.
- Getter `pools(pid)`: modelled as direct reads of the `pools` field.
