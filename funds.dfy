// Arithmetic the shop commands share: spending cash before bank, and
// stepping through a result list one entry at a time.
module Funds {

  /** The balances after a purchase. */
  datatype Purse = Purse(cash: int, bank: int)

  /**
   * The spend every shop writes out by hand: take the price from cash if
   * cash covers it, otherwise empty cash and take the shortfall from bank.
   */
  function SpendCashFirst(cash: int, bank: int, price: int): (r: Purse)
    ensures r.cash + r.bank == cash + bank - price
    ensures cash >= price ==> r == Purse(cash - price, bank)
    ensures cash < price ==> r.cash == 0
    ensures price >= 0 && cash >= 0 ==> 0 <= r.cash <= cash
    ensures bank >= 0 && cash + bank >= price ==> 0 <= r.bank <= bank
  {
    if cash >= price then Purse(cash - price, bank)
    else Purse(0, bank - (price - cash))
  }

  function Max(a: int, b: int): int
  {
    if a >= b then a else b
  }

  /**
   * The same spend stated without a branch: cash loses what it can cover,
   * bank loses the rest.
   */
  lemma SpendCashFirstFormula(cash: int, bank: int, price: int)
    requires cash >= 0
    ensures SpendCashFirst(cash, bank, price) == Purse(Max(0, cash - price), bank - Max(0, price - cash))
  {
  }

  /** A spend of `a` and then `b` ends where a single spend of `a + b` does. */
  lemma SpendTwice(cash: int, bank: int, a: int, b: int)
    requires cash >= 0 && a >= 0 && b >= 0
    ensures var once := SpendCashFirst(cash, bank, a);
            SpendCashFirst(once.cash, once.bank, b) == SpendCashFirst(cash, bank, a + b)
  {
  }

  // ----------------------------------------------------------- browsing

  datatype Nav = Prev | Next

  /**
   * The back and next buttons of a one-entry-per-page browser: back is
   * disabled on the first entry, next on the last.
   */
  predicate NavEnabled(index: int, n: int, nav: Nav)
  {
    match nav
    case Prev => index != 0
    case Next => index != n - 1
  }

  /** `index--` or `index++` */
  function Navigate(index: int, nav: Nav): (r: int)
    ensures nav == Prev ==> r == index - 1
    ensures nav == Next ==> r == index + 1
  {
    match nav
    case Prev => index - 1
    case Next => index + 1
  }

  /** A press of an enabled button keeps the index on an entry of the list. */
  lemma NavigateInRange(index: int, n: int, nav: Nav)
    requires 0 <= index < n && NavEnabled(index, n, nav)
    ensures 0 <= Navigate(index, nav) < n
  {
  }
}
