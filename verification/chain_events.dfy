/** What the jobs read from the chain through web3, as values. */
module ChainEvents {
  import opened Wrappers
  import opened Errors

  /** The decoded arguments of a contract event (`event['args']`); an argument the log lacks is `None`. */
  datatype EventArgs = EventArgs(
    user: Option<string>, poolId: Option<int>, amount: Option<int>,
    claimLockStart: Option<int>, claimLockEnd: Option<int>)

  /**
   * A contract event log entry. Its top-level keys are the log's own (block number, transaction
   * hash and the like); the event's arguments live only under `args`.
   */
  datatype ChainEvent = ChainEvent(blockNumber: int, transactionHash: string, args: EventArgs)

  /**
   * The node during one run: the latest block number, the logs of the job's event in a block
   * interval (`None` when the filter query fails), and the timestamp of a block
   * (`web3.eth.get_block(n)['timestamp']`, or the error that call raises).
   */
  datatype Chain = Chain(latestBlock: int, logs: (int, int) -> Option<seq<ChainEvent>>, blockTimestamp: int -> Result<int, Error>)
}
