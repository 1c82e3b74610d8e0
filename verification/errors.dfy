/** The program's error codes and the outcome of a precondition check. */
module StakingErrors {

  /** Mirrors the program's `StakingError` enum, in declaration order. */
  datatype StakingError =
    | InvalidStakeAmount
    | InsufficientBalance
    | StakingPaused
    | LockPeriodNotMet
    | Unauthorized
    | InvalidRewardRate
    | StakingPoolFull
    | NoRewardsToClaim
    | InvalidLpFeeDistribution
    | MathOverflow

  /**
   * Why an instruction fails: a `StakingError` raised by the program, or a failure
   * of the account runtime before the handler runs (creating an account that exists,
   * loading a position account that was never created).
   */
  datatype Error =
    | Program(code: StakingError)
    | AccountAlreadyInUse
    | AccountNotInitialized

  /** The `Result<()>` of a `validate` check. */
  datatype Outcome = Pass | Fail(error: StakingError)
}
