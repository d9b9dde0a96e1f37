/** Runs of the balance service: packets and settlements in progress, in any interleaving (balance_service.rs). */
module BalanceRuns {
  import opened Basics
  import opened Balances

  type Id = Text

  /** Forwarded; answered, with the update of the balance still to come; and done. */
  datatype Phase = Forwarded | FulfillDue | Done | RejectDue | Undone

  datatype Packet = Packet(from: Id, to: Id, incoming: nat, outgoing: nat, phase: Phase)

  /** Requested of the settlement engine; accepted; refused, with the refund still to come; given back; and
      never requested, as the account has no engine. */
  datatype Outcome = Requested | Accepted | RefundDue | GivenBack | Withheld

  datatype Settlement = Settlement(account: Id, amount: nat, outcome: Outcome)

  /** A settlement that came in, with its idempotency key. */
  datatype Receipt = Receipt(account: Id, amount: nat, key: Text)

  datatype Service = Service(
    ledgers: map<Id, Ledger>, engines: set<Id>, packets: seq<Packet>, settlements: seq<Settlement>,
    receipts: seq<Receipt>, keys: set<Text>)

  datatype Step =
    | Send(from: Id, to: Id, incoming: nat, outgoing: nat)
    | Answer(packet: nat, fulfilled: bool)
    | ApplyFulfill(packet: nat)
    | ApplyReject(packet: nat)
    | SettleAfterDelay(account: Id)
    | EngineAnswer(settlement: nat, ok: bool)
    | Refund(settlement: nat)
    | Incoming(receipt: Receipt)
    | Forget(key: Text)

  /** `settle_or_rollback`, up to the answer of the engine. */
  function Settling(s: Service, account: Id, amount: nat): (settlements: seq<Settlement>) {
    if amount == 0 then s.settlements
    else s.settlements + [Settlement(account, amount, if account in s.engines then Requested else Withheld)]
  }

  predicate InPhase(s: Service, packet: nat, phase: Phase) {
    packet < |s.packets| && s.packets[packet].phase == phase
  }

  predicate HasOutcome(s: Service, settlement: nat, outcome: Outcome) {
    settlement < |s.settlements| && s.settlements[settlement].outcome == outcome
  }

  function Turned(s: Service, packet: nat, phase: Phase): (packets: seq<Packet>)
    requires packet < |s.packets|
  {
    s.packets[packet := s.packets[packet].(phase := phase)]
  }

  /** A packet over the limit is refused and leaves no trace; one without amounts is not accounted for. */
  function Sent(s: Service, p: Packet): (s': Service) {
    if (p.incoming == 0 && p.outgoing == 0) || p.from !in s.ledgers || p.to !in s.ledgers then s
    else match Prepared(s.ledgers[p.from], p.incoming)
      case None => s
      case Some(ledger) => s.(ledgers := s.ledgers[p.from := ledger], packets := s.packets + [p])
  }

  function AppliedFulfill(s: Service, packet: nat): (s': Service) {
    if !InPhase(s, packet, FulfillDue) || s.packets[packet].to !in s.ledgers then s
    else
      var p := s.packets[packet];
      var change := Fulfilled(s.ledgers[p.to], p.outgoing);
      s.(ledgers := s.ledgers[p.to := change.ledger], packets := Turned(s, packet, Done),
         settlements := Settling(s, p.to, change.settle))
  }

  function AppliedReject(s: Service, packet: nat): (s': Service) {
    if !InPhase(s, packet, RejectDue) || s.packets[packet].from !in s.ledgers then s
    else
      var p := s.packets[packet];
      s.(ledgers := s.ledgers[p.from := Returned(s.ledgers[p.from], p.incoming)], packets := Turned(s, packet, Undone))
  }

  function Answered(s: Service, packet: nat, fulfilled: bool): (s': Service) {
    if !InPhase(s, packet, Forwarded) then s
    else if !fulfilled then s.(packets := Turned(s, packet, RejectDue))
    else s.(packets := Turned(s, packet, if s.packets[packet].outgoing > 0 then FulfillDue else Done))
  }

  function SettledAfterDelay(s: Service, account: Id): (s': Service) {
    if account !in s.ledgers then s
    else
      var change := Settled(s.ledgers[account]);
      s.(ledgers := s.ledgers[account := change.ledger], settlements := Settling(s, account, change.settle))
  }

  function Concluded(s: Service, settlement: nat, outcome: Outcome): (settlements: seq<Settlement>)
    requires settlement < |s.settlements|
  {
    s.settlements[settlement := s.settlements[settlement].(outcome := outcome)]
  }

  function EngineAnswered(s: Service, settlement: nat, ok: bool): (s': Service) {
    if !HasOutcome(s, settlement, Requested) then s
    else s.(settlements := Concluded(s, settlement, if ok then Accepted else RefundDue))
  }

  function Refunded(s: Service, settlement: nat): (s': Service) {
    if !HasOutcome(s, settlement, RefundDue) || s.settlements[settlement].account !in s.ledgers then s
    else
      var x := s.settlements[settlement];
      s.(ledgers := s.ledgers[x.account := Returned(s.ledgers[x.account], x.amount)],
         settlements := Concluded(s, settlement, GivenBack))
  }

  /** A settlement whose idempotency key is still known changes nothing. */
  function Received(s: Service, r: Receipt): (s': Service) {
    if r.account !in s.ledgers || r.key in s.keys then s
    else
      s.(ledgers := s.ledgers[r.account := Credited(s.ledgers[r.account], r.amount)], receipts := s.receipts + [r],
         keys := s.keys + {r.key})
  }

  function Next(s: Service, step: Step): (s': Service) {
    match step
    case Send(from, to, incoming, outgoing) => Sent(s, Packet(from, to, incoming, outgoing, Forwarded))
    case Answer(packet, fulfilled) => Answered(s, packet, fulfilled)
    case ApplyFulfill(packet) => AppliedFulfill(s, packet)
    case ApplyReject(packet) => AppliedReject(s, packet)
    case SettleAfterDelay(account) => SettledAfterDelay(s, account)
    case EngineAnswer(settlement, ok) => EngineAnswered(s, settlement, ok)
    case Refund(settlement) => Refunded(s, settlement)
    case Incoming(receipt) => Received(s, receipt)
    case Forget(key) => s.(keys := s.keys - {key})
  }

  function After(s: Service, steps: seq<Step>): (s': Service) {
    if steps == [] then s else Next(After(s, steps[..|steps| - 1]), steps[|steps| - 1])
  }

  // ---- Sums ----

  function Sum<T>(xs: seq<T>, f: T -> int): (n: int) {
    if xs == [] then 0 else Sum(xs[..|xs| - 1], f) + f(xs[|xs| - 1])
  }

  lemma {:induction false} SumAppended<T>(xs: seq<T>, x: T, f: T -> int)
    ensures Sum(xs + [x], f) == Sum(xs, f) + f(x)
  {
    assert (xs + [x])[..|xs|] == xs;
  }

  lemma {:induction false} SumReplaced<T>(xs: seq<T>, i: nat, x: T, f: T -> int)
    requires i < |xs|
    ensures Sum(xs[i := x], f) == Sum(xs, f) - f(xs[i]) + f(x)
  {
    var last := |xs| - 1;
    if i == last {
      assert xs[i := x][..last] == xs[..last];
    } else {
      SumReplaced(xs[..last], i, x, f);
      assert xs[i := x][..last] == xs[..last][i := x];
    }
  }

  lemma {:induction false} SumAdds<T>(xs: seq<T>, f: T -> int, g: T -> int, h: T -> int)
    requires forall i :: 0 <= i < |xs| ==> h(xs[i]) == f(xs[i]) + g(xs[i])
    ensures Sum(xs, h) == Sum(xs, f) + Sum(xs, g)
  {
    if xs != [] {
      SumAdds(xs[..|xs| - 1], f, g, h);
    }
  }

  // ---- What each packet, settlement and receipt weighs on an account ----

  /** What a packet takes from its sender: nothing any more once it is undone. */
  function Charged(a: Id): (f: Packet -> int) {
    (p: Packet) => if p.from == a && p.phase != Undone then p.incoming else 0
  }

  /** What a packet has brought the account it went to. */
  function Earned(a: Id): (f: Packet -> int) {
    (p: Packet) => if p.to == a && p.phase == Done then p.outgoing else 0
  }

  /** What a settlement has taken off the balance: nothing any more once given back. */
  function Drawn(a: Id): (f: Settlement -> int) {
    (x: Settlement) => if x.account == a && x.outcome != GivenBack then x.amount else 0
  }

  function PaidIn(a: Id): (f: Receipt -> int) {
    (r: Receipt) => if r.account == a then r.amount else 0
  }

  /** An account's balance, corrected by everything in progress or done. */
  function Books(s: Service, a: Id): (n: int)
    requires a in s.ledgers
  {
    s.ledgers[a].Net() + Sum(s.packets, Charged(a)) - Sum(s.packets, Earned(a))
      + Sum(s.settlements, Drawn(a)) - Sum(s.receipts, PaidIn(a))
  }

  /** A step has kept an account's books. */
  ghost predicate Kept(s: Service, s': Service, a: Id) {
    a in s.ledgers ==> a in s'.ledgers && s'.ledgers[a].limits == s.ledgers[a].limits && Books(s', a) == Books(s, a)
  }

  lemma {:induction false} SendKeeps(s: Service, p: Packet, a: Id)
    requires p.phase == Forwarded
    ensures Kept(s, Sent(s, p), a)
  {
    SumAppended(s.packets, p, Charged(a));
    SumAppended(s.packets, p, Earned(a));
  }

  lemma {:induction false} TurnedSums(s: Service, packet: nat, phase: Phase, a: Id)
    requires packet < |s.packets|
    ensures var p := s.packets[packet];
            var p' := p.(phase := phase);
            && Sum(Turned(s, packet, phase), Charged(a)) == Sum(s.packets, Charged(a)) - Charged(a)(p) + Charged(a)(p')
            && Sum(Turned(s, packet, phase), Earned(a)) == Sum(s.packets, Earned(a)) - Earned(a)(p) + Earned(a)(p')
  {
    var p' := s.packets[packet].(phase := phase);
    SumReplaced(s.packets, packet, p', Charged(a));
    SumReplaced(s.packets, packet, p', Earned(a));
  }

  lemma {:induction false} AnswerKeeps(s: Service, packet: nat, fulfilled: bool, a: Id)
    ensures Kept(s, Answered(s, packet, fulfilled), a)
  {
    if InPhase(s, packet, Forwarded) {
      var accepted := if s.packets[packet].outgoing > 0 then FulfillDue else Done;
      TurnedSums(s, packet, if fulfilled then accepted else RejectDue, a);
    }
  }

  lemma {:induction false} SettlingSum(s: Service, account: Id, amount: nat, a: Id)
    ensures Sum(Settling(s, account, amount), Drawn(a)) ==
            Sum(s.settlements, Drawn(a)) + if account == a then amount else 0
  {
    var outcome := if account in s.engines then Requested else Withheld;
    SumAppended(s.settlements, Settlement(account, amount, outcome), Drawn(a));
  }

  lemma {:induction false} FulfillKeeps(s: Service, packet: nat, a: Id)
    ensures Kept(s, AppliedFulfill(s, packet), a)
  {
    if InPhase(s, packet, FulfillDue) && s.packets[packet].to in s.ledgers {
      var p := s.packets[packet];
      TurnedSums(s, packet, Done, a);
      SettlingSum(s, p.to, Fulfilled(s.ledgers[p.to], p.outgoing).settle, a);
    }
  }

  lemma {:induction false} RejectKeeps(s: Service, packet: nat, a: Id)
    ensures Kept(s, AppliedReject(s, packet), a)
  {
    if InPhase(s, packet, RejectDue) {
      TurnedSums(s, packet, Undone, a);
    }
  }

  lemma {:induction false} DelayKeeps(s: Service, account: Id, a: Id)
    ensures Kept(s, SettledAfterDelay(s, account), a)
  {
    if account in s.ledgers {
      SettlingSum(s, account, Settled(s.ledgers[account]).settle, a);
    }
  }

  lemma {:induction false} EngineKeeps(s: Service, settlement: nat, ok: bool, a: Id)
    ensures Kept(s, EngineAnswered(s, settlement, ok), a)
  {
    if HasOutcome(s, settlement, Requested) {
      var x := s.settlements[settlement];
      SumReplaced(s.settlements, settlement, x.(outcome := if ok then Accepted else RefundDue), Drawn(a));
    }
  }

  lemma {:induction false} RefundKeeps(s: Service, settlement: nat, a: Id)
    ensures Kept(s, Refunded(s, settlement), a)
  {
    if HasOutcome(s, settlement, RefundDue) {
      var x := s.settlements[settlement];
      SumReplaced(s.settlements, settlement, x.(outcome := GivenBack), Drawn(a));
    }
  }

  lemma {:induction false} ReceiveKeeps(s: Service, r: Receipt, a: Id)
    ensures Kept(s, Received(s, r), a)
  {
    SumAppended(s.receipts, r, PaidIn(a));
  }

  lemma {:induction false} NextKeepsBooks(s: Service, step: Step, a: Id)
    ensures Kept(s, Next(s, step), a)
  {
    match step
    case Send(from, to, incoming, outgoing) => SendKeeps(s, Packet(from, to, incoming, outgoing, Forwarded), a);
    case Answer(packet, fulfilled) => AnswerKeeps(s, packet, fulfilled, a);
    case ApplyFulfill(packet) => FulfillKeeps(s, packet, a);
    case ApplyReject(packet) => RejectKeeps(s, packet, a);
    case SettleAfterDelay(account) => DelayKeeps(s, account, a);
    case EngineAnswer(settlement, ok) => EngineKeeps(s, settlement, ok, a);
    case Refund(settlement) => RefundKeeps(s, settlement, a);
    case Incoming(receipt) => ReceiveKeeps(s, receipt, a);
    case Forget(_) =>
  }

  /** From any state, over any run, no account's books change. */
  lemma {:induction false} BooksKept(s: Service, steps: seq<Step>, a: Id)
    ensures Kept(s, After(s, steps), a)
  {
    if steps != [] {
      var front := steps[..|steps| - 1];
      BooksKept(s, front, a);
      NextKeepsBooks(After(s, front), steps[|steps| - 1], a);
    }
  }

  // ---- Conservation ----

  /** A service with nothing in progress. */
  function Opening(ledgers: map<Id, Ledger>, engines: set<Id>): (s: Service) {
    Service(ledgers, engines, [], [], [], {})
  }

  /** Incoming amounts of packets of `a` in the given phases. */
  function Took(a: Id, phases: set<Phase>): (f: Packet -> int) {
    (p: Packet) => if p.from == a && p.phase in phases then p.incoming else 0
  }

  /** Amounts of settlements for `a` with the given outcomes. */
  function Settles(a: Id, outcomes: set<Outcome>): (f: Settlement -> int) {
    (x: Settlement) => if x.account == a && x.outcome in outcomes then x.amount else 0
  }

  /** Over every run of concurrent packets and settlements, an account's balance is its initial balance, less
      what its pending and its fulfilled packets took, with what was fulfilled to it, less the settlements
      sent, awaiting an answer or a refund, and withheld, with those it paid. Rejected packets and refused
      settlements do not show. */
  lemma {:induction false} Conservation(ledgers: map<Id, Ledger>, engines: set<Id>, steps: seq<Step>, a: Id)
    requires a in ledgers
    ensures var s := After(Opening(ledgers, engines), steps);
            && a in s.ledgers
            && s.ledgers[a].Net() ==
               ledgers[a].Net()
               - Sum(s.packets, Took(a, {Forwarded, FulfillDue, RejectDue})) - Sum(s.packets, Took(a, {Done}))
               + Sum(s.packets, Earned(a))
               - Sum(s.settlements, Settles(a, {Accepted})) - Sum(s.settlements, Settles(a, {Requested, RefundDue}))
               - Sum(s.settlements, Settles(a, {Withheld}))
               + Sum(s.receipts, PaidIn(a))
  {
    var s := After(Opening(ledgers, engines), steps);
    BooksKept(Opening(ledgers, engines), steps, a);
    SumAdds(s.packets, Took(a, {Forwarded, FulfillDue, RejectDue}), Took(a, {Done}), Charged(a));
    var open := Settles(a, {Accepted, Requested, RefundDue});
    SumAdds(s.settlements, Settles(a, {Accepted}), Settles(a, {Requested, RefundDue}), open);
    SumAdds(s.settlements, open, Settles(a, {Withheld}), Drawn(a));
  }

  /** One for each receipt under this key. */
  function Under(key: Text): (f: Receipt -> int) {
    (r: Receipt) => if r.key == key then 1 else 0
  }

  /** One for each time the key expires. */
  function Expiry(key: Text): (f: Step -> int) {
    (step: Step) => if step == Forget(key) then 1 else 0
  }

  lemma {:induction false} NextKeepsCredits(s: Service, step: Step, key: Text)
    ensures var s' := Next(s, step);
            var live, live' := if key in s.keys then 1 else 0, if key in s'.keys then 1 else 0;
            Sum(s'.receipts, Under(key)) - live' <= Sum(s.receipts, Under(key)) - live + Expiry(key)(step)
  {
    if step.Incoming? {
      SumAppended(s.receipts, step.receipt, Under(key));
    }
  }

  /** A settlement is credited at most once under a key, and once more each time that the key has expired. */
  lemma {:induction false} CreditedOnce(ledgers: map<Id, Ledger>, engines: set<Id>, steps: seq<Step>, key: Text)
    ensures var s := After(Opening(ledgers, engines), steps);
            Sum(s.receipts, Under(key)) <= Sum(steps, Expiry(key)) + (if key in s.keys then 1 else 0)
  {
    if steps != [] {
      var front := steps[..|steps| - 1];
      CreditedOnce(ledgers, engines, front, key);
      NextKeepsCredits(After(Opening(ledgers, engines), front), steps[|steps| - 1], key);
    }
  }

  // ---- The minimum balance, over whole runs ----

  ghost predicate Solvent(s: Service, a: Id) {
    a in s.ledgers && Within(s.ledgers[a]) && Prudent(s.ledgers[a].limits)
  }

  lemma {:induction false} NextKeepsSolvent(s: Service, step: Step, a: Id)
    requires Solvent(s, a)
    ensures Solvent(Next(s, step), a)
  {
  }

  /** No run takes an account with prudent limits under its minimum balance, whatever the other accounts do. */
  lemma {:induction false} MinimumKeptInRuns(s: Service, steps: seq<Step>, a: Id)
    requires Solvent(s, a)
    ensures Solvent(After(s, steps), a)
  {
    if steps != [] {
      MinimumKeptInRuns(s, steps[..|steps| - 1], a);
      NextKeepsSolvent(After(s, steps[..|steps| - 1]), steps[|steps| - 1], a);
    }
  }
}
