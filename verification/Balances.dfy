/** An account's balance as the store's scripts keep it (interledger-store/src/redis/lua). */
module Balances {
  import opened Basics

  datatype Limits = Limits(minBalance: Option<int>, settleThreshold: Option<int>, settleTo: Option<int>) {
    predicate Settles() {
      settleThreshold.Some? && settleTo.Some? && settleThreshold.value > settleTo.value
    }
  }

  /** What is owed on the account, and what was paid in advance. */
  datatype Ledger = Ledger(balance: int, prepaid: int, limits: Limits) {
    function Net(): (n: int) { balance + prepaid }
  }

  datatype Change = Change(ledger: Ledger, settle: nat)

  /** `process_prepare`: refused below the minimum balance; what was prepaid is used first. */
  function Prepared(l: Ledger, amount: nat): (r: Option<Ledger>)
    ensures r.None? <==> amount > 0 && l.limits.minBalance.Some? && l.Net() - amount < l.limits.minBalance.value
    ensures r.Some? ==> r.value.Net() == l.Net() - amount && r.value.limits == l.limits
    ensures r.Some? ==> r.value.prepaid == if l.prepaid < 0 then l.prepaid else Max(l.prepaid - amount, 0)
  {
    if amount == 0 then Some(l)
    else if l.limits.minBalance.Some? && l.Net() - amount < l.limits.minBalance.value then None
    else if l.prepaid >= amount then Some(l.(prepaid := l.prepaid - amount))
    else if l.prepaid > 0 then Some(l.(prepaid := 0, balance := l.balance - (amount - l.prepaid)))
    else Some(l.(balance := l.balance - amount))
  }

  /** `process_fulfill`: at the threshold, everything above `settle_to` leaves the balance to be settled. */
  function Fulfilled(l: Ledger, amount: nat): (c: Change)
    ensures c.ledger.Net() + c.settle == l.Net() + amount
    ensures c.settle > 0 <==>
            && l.limits.settleThreshold.Some? && l.limits.settleTo.Some?
            && l.balance + amount >= l.limits.settleThreshold.value > l.limits.settleTo.value
    ensures c.settle > 0 ==> c.ledger.balance == l.limits.settleTo.value
    ensures c.ledger.prepaid == l.prepaid && c.ledger.limits == l.limits
  {
    var balance := l.balance + amount;
    if l.limits.Settles() && balance >= l.limits.settleThreshold.value
    then Change(l.(balance := l.limits.settleTo.value), balance - l.limits.settleTo.value)
    else Change(l.(balance := balance), 0)
  }

  /** `process_settle`, after a delay: the threshold need not be reached. */
  function Settled(l: Ledger): (c: Change)
    ensures c.ledger.Net() + c.settle == l.Net()
    ensures c.settle > 0 <==>
            && l.limits.settleThreshold.Some? && l.limits.settleTo.Some?
            && l.balance > l.limits.settleTo.value && l.limits.settleThreshold.value > l.limits.settleTo.value
    ensures c.settle > 0 ==> c.ledger.balance == l.limits.settleTo.value
    ensures c.ledger.prepaid == l.prepaid && c.ledger.limits == l.limits
  {
    if l.limits.Settles() && l.balance >= l.limits.settleTo.value
    then Change(l.(balance := l.limits.settleTo.value), l.balance - l.limits.settleTo.value)
    else Change(l, 0)
  }

  /** `process_reject` and `refund_settlement`. */
  function Returned(l: Ledger, amount: nat): (l': Ledger) {
    l.(balance := l.balance + amount)
  }

  /** `process_incoming_settlement`: pays the debt first, and the rest in advance. */
  function Credited(l: Ledger, amount: nat): (l': Ledger)
    ensures l'.Net() == l.Net() + amount && l'.limits == l.limits
    ensures l.balance >= 0 ==> l'.balance == l.balance
    ensures l.balance < 0 ==> l'.balance == Min(l.balance + amount, 0)
  {
    if l.balance >= 0 then l.(prepaid := l.prepaid + amount)
    else if -l.balance >= amount then l.(balance := l.balance + amount)
    else l.(prepaid := l.prepaid + (amount + l.balance), balance := 0)
  }

  /** A rejected packet leaves no trace in the sum, but what it had taken from the prepaid amount comes back to the
      balance. */
  lemma {:induction false} RejectMovesPrepaid(l: Ledger, amount: nat)
    requires l.prepaid >= 0 && Prepared(l, amount).Some?
    ensures var l', moved := Returned(Prepared(l, amount).value, amount), Min(amount, l.prepaid);
            l'.balance == l.balance + moved && l'.prepaid == l.prepaid - moved && l'.limits == l.limits
  {
  }

  // ---- The minimum balance ----

  ghost predicate Within(l: Ledger) {
    l.prepaid >= 0 && (l.limits.minBalance.Some? ==> l.Net() >= l.limits.minBalance.value)
  }

  /** No settlement goes below the minimum balance. */
  predicate Prudent(limits: Limits) {
    limits.minBalance.Some? && limits.Settles() ==> limits.settleTo.value >= limits.minBalance.value
  }

  /** With prudent limits no step of the store takes an account under its minimum, and with any others
      some fulfill does. */
  lemma {:induction false} MinimumKept(limits: Limits)
    ensures Prudent(limits) <==>
            forall l: Ledger, amount: nat :: l.limits == limits && Within(l) ==>
              && (Prepared(l, amount).Some? ==> Within(Prepared(l, amount).value))
              && Within(Fulfilled(l, amount).ledger) && Within(Settled(l).ledger)
  {
    if !Prudent(limits) {
      var l := Ledger(Max(limits.minBalance.value, limits.settleThreshold.value), 0, limits);
      assert Within(l) && !Within(Fulfilled(l, 1).ledger);
    }
  }

  // ---- The record in the store ----

  class AccountRecord {
    var balance: int
    var prepaid: int
    const limits: Limits

    function View(): (l: Ledger)
      reads this
    {
      Ledger(balance, prepaid, limits)
    }

    constructor (limits: Limits)
      ensures View() == Ledger(0, 0, limits)
    {
      balance, prepaid := 0, 0;
      this.limits := limits;
    }

    method ProcessPrepare(amount: nat) returns (r: Option<int>)
      modifies this
      ensures r.Some? <==> Prepared(old(View()), amount).Some?
      ensures View() == if r.Some? then Prepared(old(View()), amount).value else old(View())
      ensures r.Some? ==> r.value == View().Net()
    {
      if amount == 0 {
        return Some(balance + prepaid);
      }
      if limits.minBalance.Some? && balance + prepaid - amount < limits.minBalance.value {
        return None;
      }
      if prepaid >= amount {
        prepaid := prepaid - amount;
      } else if prepaid > 0 {
        var fromBalance := amount - prepaid;
        prepaid := 0;
        balance := balance - fromBalance;
      } else {
        balance := balance - amount;
      }
      r := Some(balance + prepaid);
    }

    method ProcessFulfill(amount: nat) returns (net: int, settle: nat)
      modifies this
      ensures Change(View(), settle) == Fulfilled(old(View()), amount) && net == View().Net()
    {
      balance := balance + amount;
      settle := 0;
      if limits.settleThreshold.Some? && limits.settleTo.Some? {
        if balance >= limits.settleThreshold.value && limits.settleThreshold.value > limits.settleTo.value {
          settle := balance - limits.settleTo.value;
          balance := limits.settleTo.value;
        }
      }
      net := balance + prepaid;
    }

    method ProcessSettle() returns (net: int, settle: nat)
      modifies this
      ensures Change(View(), settle) == Settled(old(View())) && net == View().Net()
    {
      settle := 0;
      if limits.settleThreshold.Some? && limits.settleTo.Some? {
        if limits.settleThreshold.value > limits.settleTo.value && balance >= limits.settleTo.value {
          settle := balance - limits.settleTo.value;
          balance := limits.settleTo.value;
        }
      }
      net := balance + prepaid;
    }

    /** `process_reject` and `refund_settlement`. */
    method Return(amount: nat) returns (net: int)
      modifies this`balance
      ensures View() == Returned(old(View()), amount) && net == View().Net()
    {
      balance := balance + amount;
      net := balance + prepaid;
    }

    method ProcessIncomingSettlement(amount: nat) returns (net: int)
      modifies this
      ensures View() == Credited(old(View()), amount) && net == View().Net()
    {
      if balance >= 0 {
        prepaid := prepaid + amount;
      } else if -balance >= amount {
        balance := balance + amount;
      } else {
        prepaid := prepaid + (amount + balance);
        balance := 0;
      }
      net := balance + prepaid;
    }
  }
}
