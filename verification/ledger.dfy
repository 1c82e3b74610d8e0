/**
 * The program's accounts taken together: the singleton pool account, absent until
 * `initialize` creates it, and one position account per participant, addressed by
 * the participant's key (the position PDA is derived from that key and the pool's).
 * Every instruction runs as one transaction: it commits all its writes or none.
 *
 * The invariant proved here is conservation: the pool's `total_staked` is the sum
 * of every position's `staked_amount`, and the receipt totals track it one for one.
 */
module Ledger {
  import opened Primitives
  import opened StakingErrors
  import opened StakingState
  import Initialize
  import Stake
  import Unstake
  import ClaimRewards

  datatype Accounts = Accounts(pool: Option<Pool>, positions: map<Pubkey, Position>)

  /** An instruction with its arguments and the token balances its `validate` reads. */
  datatype Instruction =
    | InitializeIx(authority: Pubkey, leashMint: Pubkey, xleashMint: Pubkey, treasury: Pubkey,
                   rewardRate: U64, minStakeAmount: U64, maxStakeAmount: U64, lockPeriod: I64)
    | StakeIx(user: Pubkey, amount: U64, leashBalance: U64)
    | UnstakeIx(user: Pubkey, amount: U64, xleashBalance: U64)
    | ClaimRewardsIx(user: Pubkey)

  /** The signer of a participant instruction; the all-zero key cannot sign. */
  predicate Signed(ix: Instruction)
  {
    !ix.InitializeIx? ==> ix.user != DEFAULT_PUBKEY
  }

  /** Writes a committed participant transaction back into the accounts. */
  function Commit(a: Accounts, user: Pubkey, t: TxResult): Result<Accounts, Error>
  {
    match t
    case Committed(p, q, _) => Ok(Accounts(Some(p), a.positions[user := q]))
    case Reverted(e) => Err(Program(e))
  }

  /**
   * One instruction at clock reading `now`, the pool living at `poolKey`. Stake
   * creates the position account when it is missing (`init_if_needed`); unstake and
   * claim need it to exist.
   */
  function Execute(a: Accounts, poolKey: Pubkey, ix: Instruction, now: I64): (r: Result<Accounts, Error>)
    ensures r.Ok? && !ix.InitializeIx? ==> r.value.positions.Keys == a.positions.Keys + {ix.user}
    ensures r.Ok? && ix.InitializeIx? ==> a.pool.None? && r.value.positions == a.positions
    ensures r.Ok? && !ix.InitializeIx? ==>
              forall k | k in a.positions && k != ix.user :: r.value.positions[k] == a.positions[k]
  {
    match ix
    case InitializeIx(authority, leashMint, xleashMint, treasury, rate, minStake, maxStake, lock) =>
      (match Initialize.Transition(a.pool, authority, leashMint, xleashMint, treasury, rate, minStake, maxStake, lock, now)
       case Ok(p) => Ok(a.(pool := Some(p)))
       case Err(e) => Err(e))
    case StakeIx(user, amount, leashBalance) =>
      if a.pool.None? then Err(AccountNotInitialized)
      else
        var position := if user in a.positions then a.positions[user] else ZeroedPosition();
        Commit(a, user, Stake.Transition(a.pool.value, position, user, poolKey, amount, leashBalance, now))
    case UnstakeIx(user, amount, xleashBalance) =>
      if a.pool.None? || user !in a.positions then Err(AccountNotInitialized)
      else Commit(a, user, Unstake.Transition(a.pool.value, a.positions[user], amount, xleashBalance, now))
    case ClaimRewardsIx(user) =>
      if a.pool.None? || user !in a.positions then Err(AccountNotInitialized)
      else Commit(a, user, ClaimRewards.Transition(a.pool.value, a.positions[user], now))
  }

  /** The accounts after an instruction: a failed transaction leaves them as they were. */
  function Apply(a: Accounts, poolKey: Pubkey, ix: Instruction, now: I64): Accounts
  {
    match Execute(a, poolKey, ix, now)
    case Ok(b) => b
    case Err(_) => a
  }

  /** The accounts after a sequence of instructions, each with its clock reading. */
  function Run(a: Accounts, poolKey: Pubkey, steps: seq<(Instruction, I64)>): Accounts
    decreases |steps|
  {
    if steps == [] then a
    else Run(Apply(a, poolKey, steps[0].0, steps[0].1), poolKey, steps[1..])
  }

  // ---------------------------------------------------------------------------
  // Conservation
  // ---------------------------------------------------------------------------

  ghost function Pick(keys: set<Pubkey>): (k: Pubkey)
    requires keys != {}
    ensures k in keys
  {
    var k :| k in keys; k
  }

  /** The principal held by all positions together. */
  ghost function SumStaked(positions: map<Pubkey, Position>): nat
    decreases |positions|
  {
    if positions == map[] then 0
    else
      var k := Pick(positions.Keys);
      assert (positions - {k}).Keys == positions.Keys - {k};
      positions[k].stakedAmount + SumStaked(positions - {k})
  }

  /** The sum can be split at any key, not only at the one it picks. */
  lemma {:induction false} SumStakedRemove(positions: map<Pubkey, Position>, k: Pubkey)
    requires k in positions
    ensures SumStaked(positions) == positions[k].stakedAmount + SumStaked(positions - {k})
    decreases |positions|
  {
    var j := Pick(positions.Keys);
    assert (positions - {j}).Keys == positions.Keys - {j};
    if j != k {
      var both := positions - {j} - {k};
      assert positions - {k} - {j} == both;
      assert (positions - {k}).Keys == positions.Keys - {k};
      SumStakedRemove(positions - {j}, k);
      SumStakedRemove(positions - {k}, j);
    }
  }

  /** Replacing one position changes the sum by the change in that position's principal. */
  lemma SumStakedUpdate(positions: map<Pubkey, Position>, k: Pubkey, q: Position)
    ensures SumStaked(positions[k := q]) + (if k in positions then positions[k].stakedAmount else 0)
            == SumStaked(positions) + q.stakedAmount
  {
    SumStakedRemove(positions[k := q], k);
    assert positions[k := q] - {k} == positions - {k};
    if k in positions {
      SumStakedRemove(positions, k);
    } else {
      assert positions - {k} == positions;
    }
  }

  /** What every reachable state of the accounts satisfies. */
  ghost predicate Consistent(a: Accounts)
  {
    && (a.pool.None? ==> a.positions == map[])
    && DEFAULT_PUBKEY !in a.positions
    && (forall k | k in a.positions ::
          && a.positions[k].owner == k
          && a.positions[k].stakedAmount == a.positions[k].xleashAmount
          && !a.positions[k].isLocked)
    && (a.pool.Some? ==>
          && a.pool.value.totalStaked == SumStaked(a.positions)
          && a.pool.value.totalXleashMinted == a.pool.value.totalStaked)
  }

  /** Before `initialize`, nothing exists, and that is consistent. */
  lemma EmptyConsistent()
    ensures Consistent(Accounts(None, map[]))
  {
  }

  lemma InitializeKeepsConsistency(a: Accounts, poolKey: Pubkey, ix: Instruction, now: I64)
    requires Consistent(a) && ix.InitializeIx?
    ensures Consistent(Apply(a, poolKey, ix, now))
  {
    var r := Execute(a, poolKey, ix, now);
    if r.Ok? {
      assert r.value.positions == map[];
    }
  }

  lemma {:induction false} StakeKeepsConsistency(
    a: Accounts, poolKey: Pubkey, user: Pubkey, amount: U64, leashBalance: U64, now: I64)
    requires Consistent(a) && user != DEFAULT_PUBKEY
    ensures Consistent(Apply(a, poolKey, StakeIx(user, amount, leashBalance), now))
  {
    if a.pool.None? {
      return;
    }
    var p, m := a.pool.value, a.positions;
    var position := if user in m then m[user] else ZeroedPosition();
    var t := Stake.Transition(p, position, user, poolKey, amount, leashBalance, now);
    if t.Reverted? {
      return;
    }
    var start := Stake.Opened(position, user, poolKey, now);
    var before := if user in m then m[user].stakedAmount else 0;
    if user in m {
      SumStakedRemove(m, user);
    }
    assert start.stakedAmount == before == start.xleashAmount;
    assert start.stakedAmount + amount <= U64_MAX;
    SumStakedUpdate(m, user, t.position);
    var b := Accounts(Some(t.pool), m[user := t.position]);
    assert Apply(a, poolKey, StakeIx(user, amount, leashBalance), now) == b;
    assert b.pool.value.totalStaked == SumStaked(b.positions);
  }

  lemma {:induction false} UnstakeKeepsConsistency(
    a: Accounts, poolKey: Pubkey, user: Pubkey, amount: U64, xleashBalance: U64, now: I64)
    requires Consistent(a)
    ensures Consistent(Apply(a, poolKey, UnstakeIx(user, amount, xleashBalance), now))
  {
    if a.pool.None? || user !in a.positions {
      return;
    }
    var m := a.positions;
    SumStakedRemove(m, user);
    var t := Unstake.Transition(a.pool.value, m[user], amount, xleashBalance, now);
    if t.Reverted? {
      return;
    }
    SumStakedUpdate(m, user, t.position);
    var b := Accounts(Some(t.pool), m[user := t.position]);
    assert Apply(a, poolKey, UnstakeIx(user, amount, xleashBalance), now) == b;
    assert b.pool.value.totalStaked == SumStaked(b.positions);
  }

  lemma {:induction false} ClaimRewardsKeepsConsistency(a: Accounts, poolKey: Pubkey, user: Pubkey, now: I64)
    requires Consistent(a)
    ensures Consistent(Apply(a, poolKey, ClaimRewardsIx(user), now))
  {
    if a.pool.None? || user !in a.positions {
      return;
    }
    var m := a.positions;
    var t := ClaimRewards.Transition(a.pool.value, m[user], now);
    if t.Reverted? {
      return;
    }
    SumStakedUpdate(m, user, t.position);
    var b := Accounts(Some(t.pool), m[user := t.position]);
    assert Apply(a, poolKey, ClaimRewardsIx(user), now) == b;
    assert b.pool.value.totalStaked == SumStaked(b.positions);
  }

  /** Every signed instruction keeps the accounts consistent, whether it commits or fails. */
  lemma ApplyPreservesConsistency(a: Accounts, poolKey: Pubkey, ix: Instruction, now: I64)
    requires Consistent(a) && Signed(ix)
    ensures Consistent(Apply(a, poolKey, ix, now))
  {
    match ix
    case InitializeIx(_, _, _, _, _, _, _, _) => InitializeKeepsConsistency(a, poolKey, ix, now);
    case StakeIx(user, amount, leashBalance) => StakeKeepsConsistency(a, poolKey, user, amount, leashBalance, now);
    case UnstakeIx(user, amount, xleashBalance) => UnstakeKeepsConsistency(a, poolKey, user, amount, xleashBalance, now);
    case ClaimRewardsIx(user) => ClaimRewardsKeepsConsistency(a, poolKey, user, now);
  }

  /**
   * Conservation over any run of signed instructions from consistent accounts:
   * `total_staked` always equals the principal summed over all positions.
   */
  lemma {:induction false} RunPreservesConsistency(a: Accounts, poolKey: Pubkey, steps: seq<(Instruction, I64)>)
    requires Consistent(a)
    requires forall i | 0 <= i < |steps| :: Signed(steps[i].0)
    ensures Consistent(Run(a, poolKey, steps))
    ensures var b := Run(a, poolKey, steps);
            b.pool.Some? ==> b.pool.value.totalStaked == SumStaked(b.positions)
    decreases |steps|
  {
    if steps != [] {
      ApplyPreservesConsistency(a, poolKey, steps[0].0, steps[0].1);
      RunPreservesConsistency(Apply(a, poolKey, steps[0].0, steps[0].1), poolKey, steps[1..]);
    }
  }

  /**
   * None of the four instructions modelled here sets `is_locked`, so in any state they
   * reach the lock check of `unstake` never fires, whatever the clock reads.
   */
  lemma LockNeverEnforced(a: Accounts, poolKey: Pubkey, user: Pubkey, amount: U64, xleashBalance: U64, now: I64)
    requires Consistent(a)
    ensures Execute(a, poolKey, UnstakeIx(user, amount, xleashBalance), now) != Err(Program(LockPeriodNotMet))
  {
    if a.pool.Some? && user in a.positions {
      Unstake.UnlockedNeverWaits(a.pool.value, a.positions[user], amount, xleashBalance, now);
    }
  }

  /** In a consistent state no single position holds more principal than the pool total. */
  lemma PositionWithinTotal(a: Accounts, user: Pubkey)
    requires Consistent(a) && a.pool.Some? && user in a.positions
    ensures a.positions[user].stakedAmount <= a.pool.value.totalStaked
  {
    SumStakedRemove(a.positions, user);
  }

  // ---------------------------------------------------------------------------
  // Scenarios
  // ---------------------------------------------------------------------------

  /** The pool account's key in the scenarios below. */
  const SCENARIO_POOL_KEY: Pubkey := 100

  /** A pool created at time 0 with rate 1000, stakes from 1 to 1_000_000 and a one-day lock. */
  function ScenarioPool(): Accounts
  {
    Apply(Accounts(None, map[]), SCENARIO_POOL_KEY, InitializeIx(1, 2, 3, 4, 1000, 1, 1_000_000, 86_400), 0)
  }

  /**
   * 1000 staked at time 0 and claimed at time 100 pays 1000 * 1000 * 100 = 100_000_000
   * reward units: the accumulator's product is paid as it is, not divided by 10^18.
   */
  lemma ClaimPaysUnscaledProduct()
    ensures var staked := Apply(ScenarioPool(), SCENARIO_POOL_KEY, StakeIx(5, 1000, 1000), 0);
            var claimed := Apply(staked, SCENARIO_POOL_KEY, ClaimRewardsIx(5), 100);
            && claimed.pool.value.totalRewardsDistributed == 100_000_000
            && claimed.positions[5].pendingRewards == 0
            && claimed.positions[5].stakedAmount == 1000
  {
  }

  /** No modelled instruction sets `is_locked`, so a stake can be withdrawn long before the lock period ends. */
  lemma UnstakeBeforeLockPeriodSucceeds()
    ensures var staked := Apply(ScenarioPool(), SCENARIO_POOL_KEY, StakeIx(5, 500, 500), 0);
            var r := Execute(staked, SCENARIO_POOL_KEY, UnstakeIx(5, 500, 500), 100);
            r.Ok? && r.value.positions[5].stakedAmount == 0 && r.value.pool.value.totalStaked == 0
  {
  }

  /** A stake below the minimum, or one that would take the pool past its maximum, fails and changes nothing. */
  lemma StakeOutsideBoundsFails()
    ensures var staked := Apply(ScenarioPool(), SCENARIO_POOL_KEY, StakeIx(5, 1000, 1000), 0);
            && Execute(staked, SCENARIO_POOL_KEY, StakeIx(6, 0, 1000), 10) == Err(Program(InvalidStakeAmount))
            && Execute(staked, SCENARIO_POOL_KEY, StakeIx(6, 999_500, 999_500), 10) == Err(Program(StakingPoolFull))
  {
  }

  /**
   * One participant's instruction leaves every other participant's entitlement as it
   * was: their position is untouched, and the pool accumulator they are settled
   * against at the same instant is the same. So the order in which participants call
   * at one instant does not change what any of them is owed.
   */
  lemma {:induction false} OthersEntitlementUnaffected(a: Accounts, poolKey: Pubkey, ix: Instruction, other: Pubkey, now: I64)
    requires a.pool.Some? && !ix.InitializeIx? && ix.user != other && other in a.positions
    ensures var b := Apply(a, poolKey, ix, now);
            && b.pool.Some? && other in b.positions && b.positions[other] == a.positions[other]
            && AdvancePool(b.pool.value, now).accumulatedRewardsPerToken
               == AdvancePool(a.pool.value, now).accumulatedRewardsPerToken
  {
    AdvancePoolIdempotent(a.pool.value, now);
  }

  /**
   * While the accumulator does not overflow, an instruction never lowers it and every
   * position's snapshot stays at or below it, so no position is ever ahead of the pool.
   */
  lemma {:induction false} AccumulatorStaysAhead(a: Accounts, poolKey: Pubkey, ix: Instruction, now: I64)
    requires a.pool.Some?
    requires a.pool.value.accumulatedRewardsPerToken + Accrual(a.pool.value, now) <= U128_MAX
    requires forall k | k in a.positions :: a.positions[k].userRewardsPerToken <= a.pool.value.accumulatedRewardsPerToken
    ensures var b := Apply(a, poolKey, ix, now);
            && b.pool.Some?
            && b.pool.value.accumulatedRewardsPerToken >= a.pool.value.accumulatedRewardsPerToken
            && forall k | k in b.positions :: b.positions[k].userRewardsPerToken <= b.pool.value.accumulatedRewardsPerToken
  {
  }
}
