/** Outcomes of the ledger's operations: each failing call reverts with one of these reasons. */
module Results {

  /** The revert reasons of the staking contract. */
  datatype Error =
    | InvalidInput       // mismatched lock-factor arrays, a zero stake, or an unknown lock tier
    | PoolNotFound       // a pool index that was never added
    | PoolDisabled       // "Pool is disabled"
    | PoolBlocked        // "Pool is blocked"
    | NoStakeFound       // "No stake found"
    | InsufficientStake  // "Insufficient staked amount"
    | StakesLocked       // "Some stakes are still locked and cannot be withdrawn yet"

  datatype Result<T> = Ok(value: T) | Err(error: Error)

  datatype Outcome = Done | Failed(error: Error)
}
