# ATM account service — transaction logic

A model of the account-transaction core of a small HTTP ATM service (`app.py`).
The service keeps one shared table from account number to balance. Three handlers use it:

- `get_balance` reports an account's stored balance, or "Account not found".
- `deposit` rejects an unknown account, then an amount that is not above zero. Otherwise it adds the amount to the balance in place.
- `withdraw` makes the same two checks, then rejects the request when the balance is below the amount ("Insufficient funds"). Otherwise it subtracts the amount in place.

A request body's missing `amount` field reads as 0, so it is rejected as non-positive.

The project has two modules:

- `Ledger` (`ledger.dfy`) gives each handler as a function on values. Each one returns an `Outcome`: the `Reply` (`Ok(balance)` or `Err(NotFound | NonPositive | Insufficient)`) and the table afterwards.
  - `Handle` sends a `Request` to its handler, as the routes do.
  - `Run` and `Replies` serve a sequence of requests one at a time.
  - The module also holds the lemmas for single requests and for request sequences.
- `App` (`app.dfy`) models the shared table as the `balances: map<string, real>` field of class `Accounts`. Its `Deposit` and `Withdraw` methods run their guards and then update that one entry in place. Each method's `ensures` ties its reply and new table to the `Ledger` function. `GetBalance` has no `modifies` clause, so it changes nothing.

Balances and amounts are `real`, which are exact rationals. The starting table comes from an `accounts` module that is not part of this model, so the constructor takes it as a parameter. The constructor requires every starting balance to be non-negative.

What the code does with amounts and errors:

- Amounts and balances are not rounded.
- A missing amount is not an error of its own; it reads as 0 and is refused as non-positive.
- The amount's type is not checked.
- The error texts are "Account not found", "Deposit amount must be positive", "Withdraw amount must be positive" and "Insufficient funds". The model records only the error kind.

## Model

| member | source | states |
|---|---|---|
| Ledger.AmountOrZero | app.py:22 | a missing `amount` field reads as 0; a present one is used as given |
| Ledger.Balance | app.py:8-14 | an error exactly when the account is unknown, and that error is NotFound; otherwise the reply is exactly the stored balance |
| Ledger.Deposit | app.py:18-30 | the set of accounts never changes, and every other account keeps its balance; NotFound for an unknown account comes before any amount check; NonPositive when the amount (missing = 0) is not above zero; success exactly when the account exists and the amount is positive; on any error the whole table is unchanged; on success the balance becomes old + amount and is the reported balance; non-negative balances stay non-negative |
| Ledger.Withdraw | app.py:34-48 | the set of accounts and all other balances never change; NotFound comes first, then NonPositive, then Insufficient when the balance is below the amount; success exactly when 0 < amount <= balance (withdrawing exactly the balance is allowed); on any error the table is unchanged; on success the balance becomes old - amount, is reported, and is not negative |
| Ledger.Handle | app.py:7-48 | serving one request of any route keeps the set of accounts, touches only the account it names, changes nothing for a balance request, and keeps balances non-negative |
| Ledger.BalanceRepeatable | app.py:8-14 | a balance request leaves the table as it was, so asking twice gives the same reply |
| Ledger.ZeroAmountRejected | app.py:22-24 | an amount of 0, or a missing amount, is refused as NonPositive by deposit and by withdraw, and the table is unchanged |
| Ledger.WithdrawWholeBalance | app.py:41-48 | withdrawing exactly a positive balance succeeds, reports 0 and leaves the balance at 0 |
| Ledger.DepositThenWithdraw | app.py:26-44 | on non-negative balances, a successful deposit of x followed by a withdrawal of x succeeds, reports the original balance and restores the original table |
| Ledger.RunKeepsAccounts | app.py:19-44 | no sequence of requests adds or removes an account |
| Ledger.RunKeepsNonNegative | app.py:39-44 | balances that start non-negative are non-negative after any sequence of requests |
| Ledger.RunIsolatesAccounts | app.py:26-44 | an account that no request in a sequence names keeps its balance, for example requests on one account never affect another |
| Ledger.ReadsOnlyRun | app.py:8-14 | a sequence of balance requests leaves the table unchanged, and each reply is the stored balance of the account it names |
| App.Accounts.constructor | app.py:2 | the table starts as the given non-negative table, and the invariant holds |
| App.Accounts.GetBalance | app.py:8-14 | changes nothing; NotFound exactly for an unknown account, otherwise the stored balance |
| App.Accounts.Deposit | app.py:18-30 | the reply and the new table are those of Ledger.Deposit on the old table; on success only that account's entry is updated to old + amount; on error nothing changes; the non-negativity invariant is kept |
| App.Accounts.Withdraw | app.py:34-48 | the reply and the new table are those of Ledger.Withdraw on the old table; on success only that account's entry is updated to old - amount; on error nothing changes; the non-negativity invariant is kept |

## Left out

- HTTP plumbing is not modelled: Flask routing, `jsonify`, the 200/400/404 status codes, the exact message and response texts, and `app.run`. The error kind stands for the message.
- Request bodies that are not JSON (`get_json()` returning None or failing) are not modelled. Neither are string or null `amount` values. In the code these end in Python runtime errors, not domain logic.
- JSON `true` and `false` amounts are not modelled as such. In the code they act as 1 and 0: `true` deposits or withdraws 1, and `false` is refused as non-positive. A caller of the model passes `Some(1.0)` or `Some(0.0)` for them.
- Python's floating-point arithmetic is not modelled: balances and amounts are exact reals, so float rounding in `+=` and `-=` is not captured.
- Non-finite amounts and float overflow are not modelled. Python's JSON decoder reads `1e400` as infinity and accepts `NaN`, and the code lets both through its guards. A deposit of infinity makes a balance infinite, and withdrawing infinity from it then leaves NaN. A NaN deposit gives a NaN balance at once. RunKeepsNonNegative, WithdrawWholeBalance and DepositThenWithdraw therefore hold only for finite amounts and balances.
- Each account number is assumed to have its own balance record. The code updates `accounts[n]["balance"]` in place. If two numbers shared one record in the `accounts` module, a request on one would change the other, and RunIsolatesAccounts would not hold.
- An account record is modelled only by its `balance` field; the record's other contents, if any, are in the `accounts` module, which is not part of this model.
- The contents of the `accounts` module are not modelled; the starting table is a parameter.
- Concurrent requests are not modelled: requests are served one after another, each to completion.
- The client script `test_api.py` is not modelled: it only sends HTTP requests and prints the responses.
