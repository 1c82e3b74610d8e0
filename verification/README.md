# leash-staking ledger, modelled in Dafny

`leash-staking` is a Solana (Anchor) program. Participants lock LEASH tokens in a
single pool and receive xLEASH receipt tokens one for one. They earn rewards at a
fixed `reward_rate` per second per staked token.

The program keeps two kinds of account:

- **The pool account** (`GlobalStakingState`). It holds the parameters (rate,
  minimum and maximum stake, lock period), the totals (`total_staked`,
  `total_xleash_minted`, `total_rewards_distributed`, `lp_fees_collected`) and a
  reward-per-token accumulator. The accumulator is advanced lazily by
  `rate * elapsed` whenever anything is staked.
- **One position account per participant** (`UserStakingPosition`). It holds the
  principal, the receipt amount, a snapshot of the accumulator and the rewards
  pending. Reconciling a position against the pool costs O(1).

Four instructions change these accounts: `initialize`, `stake`, `unstake` and
`claim_rewards`. Each runs a `validate` check first. It then runs a fixed sequence:
advance the pool, reconcile the position, change the principal, update the
totals. A transaction that fails part-way is discarded whole by the runtime.

The project has one module per source file. Two modules match no source file:
`Primitives` holds the machine-integer arithmetic all the files share, and
`Ledger` holds the accounts taken together:

| file | module | models |
|---|---|---|
| `primitives.dfy` | `Primitives` | `u64`/`u128`/`i64` as bounded integers, `checked_* .unwrap_or(0)` and the `as u64` cast |
| `errors.dfy` | `StakingErrors` | `StakingError`, plus the two account-runtime failures the instructions can hit |
| `state.dfy` | `StakingState` | both records as values (`Pool`, `Position`) and as classes whose methods update fields in place |
| `initialize.dfy`, `stake.dfy`, `unstake.dfy`, `claim_rewards.dfy` | one per instruction | `Validate`, a `Transition` function on values, and a `Handler` method on the two account objects |
| `ledger.dfy` | `Ledger` | the optional pool plus a map of positions, every instruction, and conservation of principal |

Each instruction `Handler` is proved against its `Transition` function:

- On success, the accounts hold the committed values.
- On failure, they hold exactly what they held before. The handler saves both records on entry. When a late `?` fails, it writes them back with `Store`, as the runtime reverts every write.

The properties of the instruction are then proved about `Transition`.

All clock readings are a `now` parameter. The token-account balances that
`validate` reads are parameters too. `self.amount` and `self.reward_rate` in
the `validate` functions are read as the instruction's arguments.

## Model

| member | source | states |
|---|---|---|
| `Primitives.TruncateU64` | programs/leash-staking/src/state.rs:194 | the `as u64` cast leaves a value that fits unchanged and otherwise drops a multiple of 2^64, keeping the residue modulo 2^64 |
| `Primitives.MulFitsU128` | programs/leash-staking/src/state.rs:101-103 | the product of two u64 values always fits in a u128, so the accrual multiplication's overflow branch is dead |
| `StakingState.AdvancePool` | programs/leash-staking/src/state.rs:96-111 | the update always stores `now` and changes no field but the accumulator; the accumulator grows by exactly `rate * (now - last)` when time moved forward, something is staked and the sum fits in u128, stays put otherwise, and an overflowing sum resets it to 0 |
| `StakingState.AdvancePoolIdempotent` | programs/leash-staking/src/state.rs:96-111 | a second update at the same `now` changes nothing |
| `StakingState.AdvancePoolMonotoneOrReset` | programs/leash-staking/src/state.rs:100-108 | an update never lowers the accumulator, except by the overflow reset to 0 |
| `StakingState.ResetStrandsAccrual` | programs/leash-staking/src/state.rs:105-107 | when the accumulator's sum overflows, the update resets it to 0, below any positive snapshot, and reconciling such a position then adds nothing to its pending rewards |
| `StakingState.AdvancePoolSplit` | programs/leash-staking/src/state.rs:96-111 | with the clock moving forward and no overflow, updating at `t1` and then at `t2` leaves the pool exactly as one update at `t2` does: no interval is paid twice or skipped |
| `StakingState.AdvancePoolBackwardClockRepays` | programs/leash-staking/src/state.rs:98-110 | because `now` is stored even when it is earlier than the last update, a backward reading followed by a forward one pays out strictly more than a single forward update would |
| `StakingState.PendingRewards` | programs/leash-staking/src/state.rs:185-195 | the result is at most `pending + staked * (acc - snapshot)`, with the difference taken as 0 when the snapshot is ahead; it equals that sum when the sum fits in u64; when the sum fits in u128 the result is the sum modulo 2^64 (the `as u64` cast); when the product fits in u128 but adding `pending` does not, the result is 0; an overflowing product is dropped and leaves `pending`; nothing accrues to zero principal or a current snapshot; there is no division by a fixed-point scale |
| `StakingState.PendingRewardsWraps` | programs/leash-staking/src/state.rs:194 | an exact sum above u64 is paid modulo 2^64: 10^12 staked for one day at rate 1000 is paid 4 * 2^64 less than it earned |
| `StakingState.Reconcile` | programs/leash-staking/src/state.rs:198-202 | after reconciliation the snapshot equals the pool accumulator, pending becomes `PendingRewards` at that accumulator, and no other field changes |
| `StakingState.ReconcileIdempotent` | programs/leash-staking/src/state.rs:198-202 | reconciling twice against the same accumulator leaves `pending_rewards` as the first call set it |
| `StakingState.ReconcileSplit` | programs/leash-staking/src/state.rs:185-202 | lazy accrual is path independent: reconciling at `a1` and later at `a2` gives the same position as one reconciliation at `a2`, provided the total fits in u64 |
| `StakingState.StakeUnstakeRoundTrip` | programs/leash-staking/src/state.rs:205-215 | a position's `stake` followed by `unstake` of the same amount restores the principal and the receipt amount; only `staking_start_time` moves |
| `StakingState.ClaimClearsPending` | programs/leash-staking/src/state.rs:218-221 | claiming at least the pending amount leaves 0 pending, never a debt |
| `StakingState.GlobalStakingState.Zeroed` | programs/leash-staking/src/instructions/initialize.rs:9-15 | a freshly created pool account holds only zero bytes |
| `StakingState.GlobalStakingState.Store` | programs/leash-staking/src/state.rs:7-58 | writes every field of the pool account from a record |
| `StakingState.GlobalStakingState.Initialize` | programs/leash-staking/src/state.rs:64-93 | the account holds the given keys, rate, minimum, maximum and lock period; every total and the accumulator are 0; it is not paused; `last_update_time == now` |
| `StakingState.GlobalStakingState.UpdateRewards` | programs/leash-staking/src/state.rs:96-111 | the in-place update leaves the account equal to `AdvancePool` of its previous contents |
| `StakingState.GlobalStakingState.AddLpFees` | programs/leash-staking/src/state.rs:114-116 | `lp_fees_collected` grows by `amount` when the sum fits in u64 and is reset to 0 when it does not; nothing else changes |
| `StakingState.UserStakingPosition.Zeroed` | programs/leash-staking/src/instructions/stake.rs:19-30 | a position account created by `init_if_needed` holds only zero bytes, so its owner is the default key |
| `StakingState.UserStakingPosition.Store` | programs/leash-staking/src/state.rs:122-158 | writes every field of the position account from a record |
| `StakingState.UserStakingPosition.Initialize` | programs/leash-staking/src/state.rs:164-182 | owner and pool are set; principal, receipt, snapshot and pending are 0; the position is unlocked with `lock_end_time == 0`; both times are `now` |
| `StakingState.UserStakingPosition.UpdateRewards` | programs/leash-staking/src/state.rs:198-202 | the account becomes `Reconcile` of its previous contents against the pool's accumulator, and its snapshot equals that accumulator |
| `StakingState.UserStakingPosition.Stake` | programs/leash-staking/src/state.rs:205-209 | principal and receipt grow by the amounts when the sums fit in u64 (an overflow resets the field to 0); `staking_start_time == now`; pending and snapshot are untouched |
| `StakingState.UserStakingPosition.Unstake` | programs/leash-staking/src/state.rs:212-215 | principal and receipt become `max(x - amount, 0)`; nothing else changes |
| `StakingState.UserStakingPosition.ClaimRewards` | programs/leash-staking/src/state.rs:218-221 | pending becomes `max(pending - amount, 0)` and `last_claim_time == now`; nothing else changes |
| `Initialize.Validate` | programs/leash-staking/src/instructions/initialize.rs:43-68 | passes exactly when `rate <= 1_000_000_000`, `0 < min <= max` and `86_400 <= lock <= 126_144_000`; an excessive rate is reported as `InvalidRewardRate` before anything else; every other failure is `InvalidStakeAmount` |
| `Initialize.Transition` | programs/leash-staking/src/instructions/initialize.rs:9-15 | an existing pool account makes the instruction fail with `AccountAlreadyInUse`, so initialize is single-use; a validation failure is reported as is; success happens exactly when there is no pool and validation passes, and yields the zeroed pool holding the validated parameters, with `last_update_time == now` |
| `Initialize.Handler` | programs/leash-staking/src/instructions/initialize.rs:71-107 | the handler fails on an existing account and otherwise agrees with `Transition`: on success it returns a new pool account holding the initial pool |
| `Stake.Validate` | programs/leash-staking/src/instructions/stake.rs:80-112 | passes exactly when the pool is live, `min <= amount <= max`, the LEASH balance covers `amount` and `total_staked + amount <= max`; the failures are checked in the source's order: `StakingPaused`, then `InvalidStakeAmount`, then `InsufficientBalance`, then `MathOverflow` exactly when `total_staked + amount` exceeds u64, then `StakingPoolFull` exactly when it fits but exceeds `max` |
| `Stake.Transition` | programs/leash-staking/src/instructions/stake.rs:115-185 | a validation failure reverts with that error; the stake commits exactly when validation passes and `total_xleash_minted + amount` fits; then both pool totals grow by exactly `amount`, and the pool is the advanced pool with only those totals changed; `max_stake_amount` bounds the new pool total; the position keeps its owner, its snapshot equals the advanced accumulator, and pending holds what it earned before the call, so the new principal earns nothing from earlier growth; principal and receipt grow by `amount`, or reset to 0 on u64 overflow; `staking_start_time == now`; every other field (pool key, lock fields, `last_claim_time`) is kept from the existing position; a first stake yields a position owned by the user with 0 pending, `amount` staked, unlocked, `lock_end_time == 0` and `last_claim_time == now` |
| `Stake.Handler` | programs/leash-staking/src/instructions/stake.rs:115-185 | the in-place handler commits exactly the accounts `Transition` commits and reports the same error; after a failure both accounts are unchanged |
| `Stake.HandlerCreatingPosition` | programs/leash-staking/src/instructions/stake.rs:19-30 | for a participant with no position account, the account is created zero-filled and the handler commits exactly what `Transition` commits from the zeroed position; on success the new account is owned by the user, holds `amount` and has nothing pending; on failure the pool is as it was and the new account is still all zeros, as the runtime discards its creation |
| `Unstake.Validate` | programs/leash-staking/src/instructions/unstake.rs:71-103 | passes exactly when the pool is live, `0 < amount`, the xLEASH balance and the principal both cover `amount`, and a locked position has reached `lock_end_time`; the checks run in the source's order; `LockPeriodNotMet` happens exactly when every earlier check passes, the position is locked and `now < lock_end_time` |
| `Unstake.Transition` | programs/leash-staking/src/instructions/unstake.rs:106-164 | a validation failure reverts with that error; the unstake commits exactly when validation passes and both pool totals cover `amount`, and otherwise fails with `MathOverflow`; on commit both totals and the principal fall by exactly `amount`, and the receipt falls by `amount` or saturates at 0; pending keeps the rewards earned on the old principal; the snapshot equals the advanced accumulator; every other field of the position (owner, pool key, times, lock fields) is unchanged |
| `Unstake.UnlockedNeverWaits` | programs/leash-staking/src/instructions/unstake.rs:94-100 | an unlocked position never fails with `LockPeriodNotMet` |
| `Unstake.Handler` | programs/leash-staking/src/instructions/unstake.rs:106-164 | the in-place handler commits exactly the accounts `Transition` commits and reports the same error; after a failure both accounts are unchanged |
| `ClaimRewards.Validate` | programs/leash-staking/src/instructions/claim_rewards.rs:57-68 | passes exactly when the pool is live and the position holds principal; otherwise `StakingPaused`, then `InsufficientBalance` |
| `ClaimRewards.Transition` | programs/leash-staking/src/instructions/claim_rewards.rs:71-117 | a validation failure reverts with that error; nothing pending after reconciliation reverts with `NoRewardsToClaim`; the claim commits exactly when validation passes, something is owed and the distributed total stays within u64; then it pays exactly the reconciled pending amount, which is positive, and leaves 0 pending; `total_rewards_distributed` grows by the amount paid and `total_staked` is unchanged; the snapshot equals the accumulator and `last_claim_time == now`; every other field of the position (owner, pool key, principal, receipt, `staking_start_time`, lock fields) is unchanged |
| `ClaimRewards.ZeroPrincipalStrandsRewards` | programs/leash-staking/src/instructions/claim_rewards.rs:61-65 | a live position with no principal but rewards pending fails with `InsufficientBalance` |
| `ClaimRewards.Handler` | programs/leash-staking/src/instructions/claim_rewards.rs:71-117 | the in-place handler commits exactly the accounts `Transition` commits, pays its amount and reports the same error; after a failure both accounts are unchanged and nothing is paid |
| `Ledger.Execute` | programs/leash-staking/src/instructions/stake.rs:19-30 | stake may create the participant's position (`init_if_needed`), and no participant instruction adds any other key or changes any other participant's position; initialize needs an empty slot and leaves the positions alone |
| `Ledger.EmptyConsistent` | programs/leash-staking/src/instructions/initialize.rs:9-15 | before initialize there is no pool and no position, which satisfies the ledger invariant |
| `Ledger.InitializeKeepsConsistency` | programs/leash-staking/src/instructions/initialize.rs:71-107 | initialize preserves the ledger invariant |
| `Ledger.StakeKeepsConsistency` | programs/leash-staking/src/instructions/stake.rs:115-185 | a stake signed by a real key preserves the ledger invariant: `total_staked` is the sum of the principals, `total_xleash_minted == total_staked`, each position is owned by its key, holds as much receipt as principal, and is unlocked |
| `Ledger.UnstakeKeepsConsistency` | programs/leash-staking/src/instructions/unstake.rs:106-164 | an unstake preserves the ledger invariant |
| `Ledger.ClaimRewardsKeepsConsistency` | programs/leash-staking/src/instructions/claim_rewards.rs:71-117 | a claim preserves the ledger invariant |
| `Ledger.ApplyPreservesConsistency` | programs/leash-staking/src/instructions/stake.rs:115-185 | every signed instruction preserves the ledger invariant, whether it commits or fails |
| `Ledger.RunPreservesConsistency` | programs/leash-staking/src/state.rs:32-36 | over any sequence of signed instructions, `total_staked` stays equal to the principal summed over all positions |
| `Ledger.LockNeverEnforced` | programs/leash-staking/src/instructions/unstake.rs:94-100 | in every state satisfying the ledger invariant, which every reachable state does, unstake never fails with `LockPeriodNotMet`, whatever the clock reads, because none of the four modelled instructions sets `is_locked` |
| `Ledger.PositionWithinTotal` | programs/leash-staking/src/state.rs:32-33 | in a consistent state no position holds more principal than the pool total |
| `Ledger.ClaimPaysUnscaledProduct` | programs/leash-staking/src/state.rs:185-195 | 1000 staked at time 0 under rate 1000 and claimed at time 100 pays `1000 * 1000 * 100` reward units, the product itself and not divided by 10^18; pending is then 0 and the principal is untouched |
| `Ledger.UnstakeBeforeLockPeriodSucceeds` | programs/leash-staking/src/instructions/unstake.rs:94-100 | a stake can be withdrawn in full 100 seconds after it was made, under a one-day lock period |
| `Ledger.StakeOutsideBoundsFails` | programs/leash-staking/src/instructions/stake.rs:85-109 | a stake below the minimum fails with `InvalidStakeAmount`; a stake that would take the pool past its maximum fails with `StakingPoolFull` |
| `Ledger.OthersEntitlementUnaffected` | programs/leash-staking/src/instructions/stake.rs:115-185 | a stake, unstake or claim by one participant leaves every other position untouched, and leaves the accumulator that position is settled against at the same instant unchanged, so the order of calls at one instant does not change anyone's rewards |
| `Ledger.AccumulatorStaysAhead` | programs/leash-staking/src/state.rs:96-111 | while the accumulator's u128 sum does not overflow, any instruction leaves the accumulator no lower than before and keeps every position's snapshot at or below it |

## Left out

- Token CPIs (`token::transfer`, `token::mint_to`, `token::burn`) call into the SPL token program. The model assumes they succeed. Only the balances that `validate` reads are kept, as parameters, and so is the amount a claim pays.
- Anchor account plumbing is not modelled: seeds, bumps, `has_one` and mint constraints, signer checks, PDA derivation, rent, and the `LEN`/`bump`/`reserved` layout fields. Three parts of it are modelled:
  - `init` on the pool account makes initialize single-use.
  - `init_if_needed` on the position account is modelled as a zero-filled position.
  - Each position is keyed by its participant, standing in for the PDA seeds.
- Ledger.ApplyPreservesConsistency: the invariant needs the signer of a participant instruction to be a key other than the all-zero default key (`Signed`). The runtime guarantees this through signature checks, which are not modelled.
- `Clock::get()` becomes the `now` parameter, and `msg!` logging is dropped.
- StakingState.AdvancePool: `now - last_update_time` is taken exactly. A subtraction that overflows i64 would panic in a debug build and wrap in a release build. Neither is modelled; with real clock values it cannot happen.
- `update_staking_params`, `distribute_lp_fees`, `emergency_pause` and `get_staking_stats` are named by `instructions/mod.rs` but their sources are not part of this model. So no instruction here sets `is_paused`, changes the parameters or calls `add_lp_fees`. The model takes the pause flag and the parameters as whatever the pool record holds.
- `StakingStats` is a plain record for queries, and nothing that fills it is part of this model.
- `lib.rs` and `instructions/mod.rs` only dispatch and re-export. The copy of the error enum in `lib.rs` is not modelled separately.
- The integration test `tests/staking.spec.ts` runs against a validator. What it checks (totals are 0 after initialize and equal the amount after one stake) is covered by `Initialize.Transition` and `Stake.Transition`.
- Concurrency is not modelled: the runtime serializes transactions that write the same accounts.

## Code versus its comments

Several comments in the source describe behaviour the code does not have. The model follows the code:

- There is no fixed-point scaling. The accumulator's field comment says "scaled by 1e18" (`programs/leash-staking/src/state.rs:38`), but `calculate_pending_rewards` never divides by that scale. A position is paid `staked * rate * seconds` units (`Ledger.ClaimPaysUnscaledProduct`).
- The lock is never used by the code shown. The pool carries a "Lock period for staked tokens" (`programs/leash-staking/src/state.rs:29`), and positions carry `is_locked` and a "Lock end time (if locked)" (`programs/leash-staking/src/state.rs:147-151`). None of the four instructions modelled here, and no code in the source shown, sets `is_locked`, so unstake never waits (`Ledger.LockNeverEnforced`, `Ledger.UnstakeBeforeLockPeriodSucceeds`).
- `staking_start_time` is documented as the "Timestamp when user first staked" (`programs/leash-staking/src/state.rs:141`). `UserStakingPosition::stake` overwrites it on every stake (`StakingState.UserStakingPosition.Stake`, `Stake.Transition`).
- `lib.rs` documents unstake as letting users "unstake their tokens and claim accumulated rewards" (`programs/leash-staking/src/lib.rs:38-39`). The handler pays no rewards. It keeps them in `pending_rewards` (`Unstake.Transition`). A participant who then holds no principal cannot claim them, because claim checks the principal first (`ClaimRewards.ZeroPrincipalStrandsRewards`).
- `max_stake_amount` is documented as the "Maximum stake amount" (`programs/leash-staking/src/state.rs:26`). It caps both a single stake and the pool total (`Stake.Validate`).

## Notes on behaviour

These are properties of the code that no comment in the source addresses:

- The final `as u64` cast truncates. An exact reward above u64 but within u128 is paid modulo 2^64, far less than earned (`StakingState.PendingRewards`, with the instance `StakingState.PendingRewardsWraps`).
- `last_update_time` can move backward. It is stored even when the clock reads earlier, and the next update then pays again for time already paid for (`StakingState.AdvancePoolBackwardClockRepays`).
- Overflow resets rather than saturates. Each `checked_*().unwrap_or(0)` sets the field to 0 on overflow: the accumulator (`StakingState.AdvancePoolMonotoneOrReset`), `lp_fees_collected`, the pending reward (`StakingState.PendingRewards`), and a position's principal and receipt (`Stake.Transition`).
- Two invariants hold only until the accumulator overflows: the accumulator never falls, and no position's snapshot is above it (`Ledger.AccumulatorStaysAhead`). The reset to 0 breaks both. A position whose snapshot is above 0 is then ahead of the pool, reconciling it adds nothing, and what it had accrued but not yet reconciled is lost (`StakingState.ResetStrandsAccrual`).
- What a participant is owed does not depend on the order in which participants call at one instant. Another participant's instruction leaves their position, and the accumulator they are settled against, as they were (`Ledger.OthersEntitlementUnaffected`).
- The stake handler's `checked_add` on `total_staked` (`programs/leash-staking/src/instructions/stake.rs:172-174`) reports `MathOverflow` on failure, but it can never fail: `validate` has already bounded `total_staked + amount` by `max_stake_amount`. `Stake.Handler` asserts the bound at that point instead of modelling a dead branch.
