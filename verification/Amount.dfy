/** Amounts of money, counted in the smallest unit. */
module Amount {
  const COIN: nat := 100000000
  const MAX_MONEY: nat := 3105156 * COIN

  predicate MoneyRange(value: int) {
    0 <= value <= MAX_MONEY
  }
}
