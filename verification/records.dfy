/**
 * The rows of the tables the jobs write (app/models/database_models.py). The surrogate `id`
 * column is assigned by the database and never written by the jobs, so it is not a field here.
 */
module Records {
  import opened Wrappers
  import opened Calendar

  datatype UserStakedEvent = UserStakedEvent(
    timestamp: DateTime, transactionHash: string, blockNumber: int,
    poolId: int, userAddress: string, amount: int)

  datatype UserClaimLocked = UserClaimLocked(
    timestamp: DateTime, transactionHash: string, blockNumber: int,
    poolId: int, userAddress: string, claimLockStart: int, claimLockEnd: int)

  datatype UserMultiplier = UserMultiplier(
    claimLockStart: int, claimLockEnd: int, timestamp: DateTime, transactionHash: string,
    blockNumber: int, poolId: int, userAddress: string, multiplier: Option<real>)

  datatype CirculatingSupply = CirculatingSupply(
    date: Date, supply: real, blockTimestamp: int, totalClaimed: real)

  datatype UserWithdrawnEvent = UserWithdrawnEvent(
    timestamp: DateTime, transactionHash: string, blockNumber: int,
    poolId: int, userAddress: string, amount: real)

  datatype OverplusBridgedEvent = OverplusBridgedEvent(
    timestamp: DateTime, transactionHash: string, blockNumber: int, amount: real, uniqueId: string)

  datatype RewardSummary = RewardSummary(
    timestamp: DateTime, calculationBlockCurrent: int, calculationBlockPast: int, category: string, value: real)

  datatype Emission = Emission(
    day: int, date: Date, capital: real, code: real, compute: real, community: real,
    protection: real, totalEmission: real, totalSupply: real)
}
