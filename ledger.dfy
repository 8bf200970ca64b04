/**
 The transaction logic of the ATM service as functions on values: the table of
 balances is a map from account number to balance, and each handler yields the
 reply it sends together with the table it leaves behind.
 */
module Ledger {

  /** An optional value: the `amount` field of a request body may be absent. */
  datatype Option<T> = None | Some(value: T)

  /** The three ways a handler can refuse a request. */
  datatype Error =
    | NotFound      // "Account not found"
    | NonPositive   // "Deposit amount must be positive" / "Withdraw amount must be positive"
    | Insufficient  // "Insufficient funds"

  /** What a handler answers: the (resulting) balance, or an error kind. */
  datatype Reply = Ok(balance: real) | Err(error: Error)

  /** The reply of a handler together with the table of balances after it. */
  datatype Outcome = Outcome(reply: Reply, after: map<string, real>)

  /** One request to the service, by route. */
  datatype Request =
    | BalanceRequest(id: string)
    | DepositRequest(id: string, amount: Option<real>)
    | WithdrawRequest(id: string, amount: Option<real>)

  /** Every balance in the table is non-negative. */
  predicate NonNegative(m: map<string, real>)
  {
    forall id :: id in m ==> m[id] >= 0.0
  }

  /** The amount a handler works with: a missing field reads as 0. */
  function AmountOrZero(amount: Option<real>): (a: real)
    ensures amount.None? ==> a == 0.0
    ensures amount.Some? ==> a == amount.value
  {
    match amount
    case None => 0.0
    case Some(v) => v
  }

  /** get_balance: the stored balance of a known account, otherwise NotFound. */
  function Balance(m: map<string, real>, id: string): (r: Reply)
    ensures r.Err? <==> id !in m
    ensures r.Err? ==> r.error == NotFound
    ensures r.Ok? ==> r.balance == m[id]
  {
    if id !in m then Err(NotFound) else Ok(m[id])
  }

  /**
   deposit: NotFound for an unknown account, NonPositive for an amount that is
   not above zero, otherwise the amount is added to that one account.
   */
  function Deposit(m: map<string, real>, id: string, amount: Option<real>): (o: Outcome)
    ensures o.after.Keys == m.Keys
    ensures forall k :: k in m && k != id ==> o.after[k] == m[k]
    ensures o.reply.Ok? <==> id in m && AmountOrZero(amount) > 0.0
    ensures id !in m ==> o.reply == Err(NotFound)
    ensures id in m && AmountOrZero(amount) <= 0.0 ==> o.reply == Err(NonPositive)
    ensures o.reply.Err? ==> o.after == m
    ensures o.reply.Ok? ==>
              o.after[id] == m[id] + AmountOrZero(amount) && o.reply.balance == o.after[id]
    ensures NonNegative(m) ==> NonNegative(o.after)
  {
    if id !in m then Outcome(Err(NotFound), m)
    else
      var a := AmountOrZero(amount);
      if a <= 0.0 then Outcome(Err(NonPositive), m)
      else
        var m' := m[id := m[id] + a];
        Outcome(Ok(m'[id]), m')
  }

  /**
   withdraw: NotFound for an unknown account, NonPositive for an amount that is
   not above zero, Insufficient when the balance is below the amount, otherwise
   the amount is taken from that one account.
   */
  function Withdraw(m: map<string, real>, id: string, amount: Option<real>): (o: Outcome)
    ensures o.after.Keys == m.Keys
    ensures forall k :: k in m && k != id ==> o.after[k] == m[k]
    ensures o.reply.Ok? <==> id in m && 0.0 < AmountOrZero(amount) <= m[id]
    ensures id !in m ==> o.reply == Err(NotFound)
    ensures id in m && AmountOrZero(amount) <= 0.0 ==> o.reply == Err(NonPositive)
    ensures id in m && 0.0 < AmountOrZero(amount) && m[id] < AmountOrZero(amount) ==>
              o.reply == Err(Insufficient)
    ensures o.reply.Err? ==> o.after == m
    ensures o.reply.Ok? ==>
              o.after[id] == m[id] - AmountOrZero(amount) && o.reply.balance == o.after[id] &&
              o.after[id] >= 0.0
    ensures NonNegative(m) ==> NonNegative(o.after)
  {
    if id !in m then Outcome(Err(NotFound), m)
    else
      var a := AmountOrZero(amount);
      if a <= 0.0 then Outcome(Err(NonPositive), m)
      else if m[id] < a then Outcome(Err(Insufficient), m)
      else
        var m' := m[id := m[id] - a];
        Outcome(Ok(m'[id]), m')
  }

  /** The route table: each request goes to its handler. */
  function Handle(m: map<string, real>, req: Request): (o: Outcome)
    ensures o.after.Keys == m.Keys
    ensures forall k :: k in m && k != req.id ==> o.after[k] == m[k]
    ensures req.BalanceRequest? ==> o.after == m
    ensures NonNegative(m) ==> NonNegative(o.after)
  {
    match req
    case BalanceRequest(id) => Outcome(Balance(m, id), m)
    case DepositRequest(id, amount) => Deposit(m, id, amount)
    case WithdrawRequest(id, amount) => Withdraw(m, id, amount)
  }

  /** The table after serving the requests one after another, each to completion. */
  function Run(m: map<string, real>, reqs: seq<Request>): map<string, real>
    decreases |reqs|
  {
    if reqs == [] then m else Run(Handle(m, reqs[0]).after, reqs[1..])
  }

  /** The replies to the requests served one after another. */
  function Replies(m: map<string, real>, reqs: seq<Request>): (rs: seq<Reply>)
    ensures |rs| == |reqs|
    decreases |reqs|
  {
    if reqs == [] then [] else [Handle(m, reqs[0]).reply] + Replies(Handle(m, reqs[0]).after, reqs[1..])
  }

  /** Whether some request of the sequence names the account. */
  predicate Mentions(reqs: seq<Request>, id: string)
  {
    exists i :: 0 <= i < |reqs| && reqs[i].id == id
  }

  // ---------------------------------------------------------------------------
  // Properties of single handlers

  /** Reading a balance changes nothing, so asking twice gives the same reply. */
  lemma BalanceRepeatable(m: map<string, real>, id: string)
    ensures Handle(m, BalanceRequest(id)).after == m
    ensures Handle(Handle(m, BalanceRequest(id)).after, BalanceRequest(id)).reply
            == Handle(m, BalanceRequest(id)).reply
  {
  }

  /** An amount of zero, or a missing amount, is refused by both mutating handlers. */
  lemma ZeroAmountRejected(m: map<string, real>, id: string, amount: Option<real>)
    requires id in m
    requires amount == None || amount == Some(0.0)
    ensures Deposit(m, id, amount) == Outcome(Err(NonPositive), m)
    ensures Withdraw(m, id, amount) == Outcome(Err(NonPositive), m)
  {
  }

  /** Withdrawing exactly the whole (positive) balance succeeds and leaves 0. */
  lemma WithdrawWholeBalance(m: map<string, real>, id: string)
    requires id in m && m[id] > 0.0
    ensures Withdraw(m, id, Some(m[id])) == Outcome(Ok(0.0), m[id := 0.0])
  {
  }

  /**
   On non-negative balances, a deposit of x and then a withdrawal of x restore
   the table and report the old balance.
   */
  lemma DepositThenWithdraw(m: map<string, real>, id: string, x: real)
    requires NonNegative(m)
    requires Deposit(m, id, Some(x)).reply.Ok?
    ensures Withdraw(Deposit(m, id, Some(x)).after, id, Some(x)) == Outcome(Ok(m[id]), m)
  {
  }

  // ---------------------------------------------------------------------------
  // Properties of sequences of requests

  /** No sequence of requests adds or removes an account. */
  lemma {:induction false} RunKeepsAccounts(m: map<string, real>, reqs: seq<Request>)
    ensures Run(m, reqs).Keys == m.Keys
    decreases |reqs|
  {
    if reqs != [] {
      RunKeepsAccounts(Handle(m, reqs[0]).after, reqs[1..]);
    }
  }

  /** Balances that start non-negative stay non-negative, whatever the requests. */
  lemma {:induction false} RunKeepsNonNegative(m: map<string, real>, reqs: seq<Request>)
    requires NonNegative(m)
    ensures NonNegative(Run(m, reqs))
    decreases |reqs|
  {
    if reqs != [] {
      RunKeepsNonNegative(Handle(m, reqs[0]).after, reqs[1..]);
    }
  }

  /** Requests that never name an account leave its balance as it was. */
  lemma {:induction false} RunIsolatesAccounts(m: map<string, real>, reqs: seq<Request>, id: string)
    requires id in m
    requires !Mentions(reqs, id)
    ensures id in Run(m, reqs) && Run(m, reqs)[id] == m[id]
    decreases |reqs|
  {
    if reqs != [] {
      var m1 := Handle(m, reqs[0]).after;
      assert reqs[0].id != id by { assert 0 < |reqs|; }
      assert !Mentions(reqs[1..], id) by {
        forall i | 0 <= i < |reqs[1..]| ensures reqs[1..][i].id != id {
          assert reqs[1..][i] == reqs[i + 1];
        }
      }
      RunIsolatesAccounts(m1, reqs[1..], id);
    }
  }

  /** Requests that only read balances leave the table untouched and reply with the stored balances. */
  lemma {:induction false} ReadsOnlyRun(m: map<string, real>, reqs: seq<Request>)
    requires forall i :: 0 <= i < |reqs| ==> reqs[i].BalanceRequest?
    ensures Run(m, reqs) == m
    ensures forall i :: 0 <= i < |reqs| ==> Replies(m, reqs)[i] == Balance(m, reqs[i].id)
    decreases |reqs|
  {
    if reqs != [] {
      assert forall i :: 0 <= i < |reqs[1..]| ==> reqs[1..][i] == reqs[i + 1];
      ReadsOnlyRun(m, reqs[1..]);
      assert Replies(m, reqs) == [Balance(m, reqs[0].id)] + Replies(m, reqs[1..]);
    }
  }
}
