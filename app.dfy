/**
 The service's shared table of balances and its three handlers. The table is a
 field that the mutating handlers update in place, after their guard checks.
 */
module App {
  import opened Ledger

  class Accounts {
    /** Account number to balance; loaded once at start, never gains or loses a key. */
    var balances: map<string, real>

    /** The invariant kept between requests: no balance is negative. */
    ghost predicate Valid()
      reads this
    {
      NonNegative(balances)
    }

    /** The table the service starts with, handed in from outside. */
    constructor (initial: map<string, real>)
      requires NonNegative(initial)
      ensures Valid()
      ensures balances == initial
    {
      balances := initial;
    }

    /** get_balance: the stored balance, or NotFound; nothing is changed. */
    method GetBalance(id: string) returns (r: Reply)
      ensures id !in balances <==> r == Err(NotFound)
      ensures id in balances ==> r == Ok(balances[id])
      ensures r == Balance(balances, id)
    {
      if id !in balances {
        return Err(NotFound);
      }
      r := Ok(balances[id]);
    }

    /** deposit: the guards first, then `balance += amount` on the one account. */
    method Deposit(id: string, amount: Option<real>) returns (r: Reply)
      modifies this
      ensures Outcome(r, balances) == Ledger.Deposit(old(balances), id, amount)
      ensures balances.Keys == old(balances).Keys
      ensures r.Ok? ==> balances == old(balances)[id := old(balances)[id] + AmountOrZero(amount)]
      ensures r.Err? ==> balances == old(balances)
      ensures old(Valid()) ==> Valid()
    {
      if id !in balances {
        return Err(NotFound);
      }
      var a := AmountOrZero(amount);
      if a <= 0.0 {
        return Err(NonPositive);
      }
      balances := balances[id := balances[id] + a];
      r := Ok(balances[id]);
    }

    /** withdraw: the guards first, then `balance -= amount` on the one account. */
    method Withdraw(id: string, amount: Option<real>) returns (r: Reply)
      modifies this
      ensures Outcome(r, balances) == Ledger.Withdraw(old(balances), id, amount)
      ensures balances.Keys == old(balances).Keys
      ensures r.Ok? ==> balances == old(balances)[id := old(balances)[id] - AmountOrZero(amount)]
      ensures r.Err? ==> balances == old(balances)
      ensures old(Valid()) ==> Valid()
    {
      if id !in balances {
        return Err(NotFound);
      }
      var a := AmountOrZero(amount);
      if a <= 0.0 {
        return Err(NonPositive);
      }
      if balances[id] < a {
        return Err(Insufficient);
      }
      balances := balances[id := balances[id] - a];
      r := Ok(balances[id]);
    }
  }
}
