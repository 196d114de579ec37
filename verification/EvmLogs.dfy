/** Event logs, their identity and their position inside a block (src/evm_log_identity.hpp).
    Quantities are modelled after parsing: an absent text is None. */
module EvmLogs {
  import opened Wrappers

  datatype Log = Log(
    block: Option<nat>,
    blockHash: string,
    txHash: string,
    txIndex: Option<nat>,
    logIndex: Option<nat>,
    removed: bool,
    payload: string)

  datatype Identity = Identity(blockHash: string, txHash: string, logIndex: nat)

  datatype Position = Position(txIndex: nat, logIndex: nat, blockHash: string)

  /** The key of the delivered-log table; a log that misses one of the three parts has none. */
  function IdentityOf(log: Log): Option<Identity> {
    if log.blockHash == "" || log.txHash == "" || log.logIndex.None? then None
    else Some(Identity(log.blockHash, log.txHash, log.logIndex.value))
  }

  function PositionOf(log: Log): Position {
    Position(log.txIndex.GetOr(0), log.logIndex.GetOr(0), log.blockHash)
  }

  function BlockOf(log: Log): nat {
    log.block.GetOr(0)
  }

  predicate AtOrBefore(left: Position, right: Position) {
    || left.txIndex < right.txIndex
    || (left.txIndex == right.txIndex && left.logIndex <= right.logIndex)
  }

  predicate LogBefore(left: Log, right: Log) {
    if BlockOf(left) != BlockOf(right) then BlockOf(left) < BlockOf(right)
    else !AtOrBefore(PositionOf(right), PositionOf(left))
  }

  // ----- what identity and order mean -----

  /** Two logs share an identity exactly when both have one and the three parts agree. */
  lemma SameIdentityIff(a: Log, b: Log)
    ensures IdentityOf(a).Some? && IdentityOf(a) == IdentityOf(b) <==>
      && a.blockHash == b.blockHash != "" && a.txHash == b.txHash != ""
      && a.logIndex.Some? && a.logIndex == b.logIndex
  {
  }

  /** The pair of transaction index and log index of a is below the one of b. */
  predicate Precedes(a: Log, b: Log) {
    || a.txIndex.GetOr(0) < b.txIndex.GetOr(0)
    || (a.txIndex.GetOr(0) == b.txIndex.GetOr(0) && a.logIndex.GetOr(0) < b.logIndex.GetOr(0))
  }

  /** One log comes before another exactly when its block number is smaller, or it is the same and the pair of indexes
      is below the other's. */
  lemma BeforeIff(a: Log, b: Log)
    ensures LogBefore(a, b) <==>
      || a.block.GetOr(0) < b.block.GetOr(0)
      || (a.block.GetOr(0) == b.block.GetOr(0) && Precedes(a, b))
  {
  }
}
