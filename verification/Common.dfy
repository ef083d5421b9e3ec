/** What several modules share. */
module Common {
  /** A 256-bit hash, as a number. */
  type uint256 = nat

  const MAX_BLOCK_SIZE: nat := 1000000
}
