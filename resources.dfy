/**
 * The coin ledger (`ResourceManager`): a single integer balance with a guarded credit
 * and a guarded debit. Credit and Debit say what each call does to the balance; the
 * class performs them on its field.
 */
module Resources {

  /** `SpendCoins(amount)` succeeds exactly for a positive amount the balance covers. */
  predicate CanSpend(coins: int, amount: int): (ok: bool)
    ensures ok ==> 0 <= coins - amount < coins
  {
    amount > 0 && coins >= amount
  }

  /** The balance after `AddCoins(amount)`: it moves up by the amount, or not at all for a non-positive amount. */
  function Credit(coins: int, amount: int): (r: int)
    ensures r >= coins
    ensures r == coins + amount || r == coins
    ensures r == coins <==> amount <= 0
  {
    if amount > 0 then coins + amount else coins
  }

  /** The balance after `SpendCoins(amount)`: it moves down by the amount, or not at all when the spend is refused. */
  function Debit(coins: int, amount: int): (r: int)
    ensures r <= coins
    ensures r == coins - amount || r == coins
    ensures r == coins <==> !CanSpend(coins, amount)
  {
    if CanSpend(coins, amount) then coins - amount else coins
  }

  /** A balance that is never negative stays so under both operations. */
  lemma LedgerStaysNonNegative(coins: int, amount: int)
    requires coins >= 0
    ensures Credit(coins, amount) >= 0 && Debit(coins, amount) >= 0
  {
  }

  /** A successful spend followed by a credit of the same amount restores the balance. */
  lemma SpendThenRefund(coins: int, amount: int)
    requires CanSpend(coins, amount)
    ensures Credit(Debit(coins, amount), amount) == coins
  {
  }

  class ResourceManager {
    var coins: int

    constructor(initial: int)
      ensures coins == initial
    {
      coins := initial;
    }

    method GetCoins() returns (balance: int)
      ensures balance == coins
    {
      balance := coins;
    }

    method AddCoins(amount: int)
      modifies this
      ensures coins == Credit(old(coins), amount)
    {
      if amount > 0 {
        coins := coins + amount;
      }
    }

    method SpendCoins(amount: int) returns (spent: bool)
      modifies this
      ensures spent == CanSpend(old(coins), amount)
      ensures coins == Debit(old(coins), amount)
    {
      if amount > 0 && coins >= amount {
        coins := coins - amount;
        return true;
      }
      return false;
    }
  }
}
