/** How large an operation, and a transaction, may become. */
module OpLimit {
  /** Blocks one operation may write. */
  const MAX_OP_BLOCKS: nat := 64

  /** One more operation may join the transaction, each of those running being counted at its limit. */
  predicate Fits(txn: nat, running: nat, max: nat) {
    (running == 0 && txn == 0) || txn + (running + 1) * MAX_OP_BLOCKS <= max
  }
}
