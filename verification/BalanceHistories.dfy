/** What the steps of a run tell of each packet, settlement and receipt, and so of every balance. */
module BalanceHistories {
  import opened Basics
  import opened Balances
  import opened BalanceRuns

  // ---- What the steps tell ----

  /** The first answer that a packet got after it was forwarded. */
  function FirstAnswer(start: Service, steps: seq<Step>, packet: nat): (fulfilled: Option<bool>) {
    if steps == [] then None
    else
      var front, last := steps[..|steps| - 1], steps[|steps| - 1];
      var before := FirstAnswer(start, front, packet);
      if before.None? && last.Answer? && last.packet == packet && packet < |After(start, front).packets|
      then Some(last.fulfilled) else before
  }

  /** The balance was updated as the answer demands. */
  predicate Applied(start: Service, steps: seq<Step>, packet: nat) {
    && steps != []
    && var front, last := steps[..|steps| - 1], steps[|steps| - 1];
    || Applied(start, front, packet)
    || (last == ApplyFulfill(packet) && FirstAnswer(start, front, packet) == Some(true))
    || (last == ApplyReject(packet) && FirstAnswer(start, front, packet) == Some(false))
  }

  /** The first answer of the settlement engine. */
  function EngineSaid(start: Service, steps: seq<Step>, settlement: nat): (ok: Option<bool>) {
    if steps == [] then None
    else
      var front, last := steps[..|steps| - 1], steps[|steps| - 1];
      var before := EngineSaid(start, front, settlement);
      if before.None? && last.EngineAnswer? && last.settlement == settlement
         && settlement < |After(start, front).settlements|
      then Some(last.ok) else before
  }

  /** A refund came after the engine had refused. */
  predicate RefundedIn(start: Service, steps: seq<Step>, settlement: nat) {
    && steps != []
    && var front, last := steps[..|steps| - 1], steps[|steps| - 1];
    || RefundedIn(start, front, settlement)
    || (last == Refund(settlement) && EngineSaid(start, front, settlement) == Some(false))
  }

  /** Both accounts are known, there is something to account for, and what comes in leaves the minimum. */
  predicate Admissible(s: Service, from: Id, to: Id, incoming: nat, outgoing: nat) {
    && from in s.ledgers && to in s.ledgers && (incoming > 0 || outgoing > 0)
    && var l := s.ledgers[from];
    incoming > 0 && l.limits.minBalance.Some? ==> l.balance + l.prepaid - incoming >= l.limits.minBalance.value
  }

  /** The packet that a step admits, if any. */
  function Newly(s: Service, step: Step): (packets: seq<Packet>) {
    match step
    case Send(from, to, incoming, outgoing) =>
      if Admissible(s, from, to, incoming, outgoing) then [Packet(from, to, incoming, outgoing, Forwarded)] else []
    case _ => []
  }

  /** The packets that were admitted, in order, as they were sent. */
  function Admitted(start: Service, steps: seq<Step>): (packets: seq<Packet>) {
    if steps == [] then []
    else
      var front := steps[..|steps| - 1];
      Admitted(start, front) + Newly(After(start, front), steps[|steps| - 1])
  }

  /** The idempotency keys that are known. */
  function LiveKeys(accounts: set<Id>, steps: seq<Step>): (keys: set<Text>) {
    if steps == [] then {}
    else
      var before := LiveKeys(accounts, steps[..|steps| - 1]);
      match steps[|steps| - 1]
      case Incoming(r) => if r.account in accounts then before + {r.key} else before
      case Forget(key) => before - {key}
      case _ => before
  }

  /** The settlements that came in for a known account under an unknown key. */
  function Credits(accounts: set<Id>, steps: seq<Step>): (receipts: seq<Receipt>) {
    if steps == [] then []
    else
      var front, last := steps[..|steps| - 1], steps[|steps| - 1];
      Credits(accounts, front) +
      if last.Incoming? && last.receipt.account in accounts && last.receipt.key !in LiveKeys(accounts, front)
      then [last.receipt] else []
  }

  // ---- Accounts are never added or lost, and only known ones take part ----

  ghost predicate Closed(s: Service) {
    && (forall p :: p in s.packets ==> p.from in s.ledgers && p.to in s.ledgers)
    && (forall x :: x in s.settlements ==> x.account in s.ledgers)
  }

  lemma {:induction false} NextClosed(s: Service, step: Step)
    requires Closed(s)
    ensures var s' := Next(s, step);
            && Closed(s') && s'.ledgers.Keys == s.ledgers.Keys && s'.engines == s.engines
            && |s'.packets| >= |s.packets| && |s'.settlements| >= |s.settlements|
  {
  }

  lemma {:induction false} RunClosed(ledgers: map<Id, Ledger>, engines: set<Id>, steps: seq<Step>)
    ensures var s := After(Opening(ledgers, engines), steps);
            Closed(s) && s.ledgers.Keys == ledgers.Keys && s.engines == engines
  {
    if steps != [] {
      RunClosed(ledgers, engines, steps[..|steps| - 1]);
      NextClosed(After(Opening(ledgers, engines), steps[..|steps| - 1]), steps[|steps| - 1]);
    }
  }

  // ---- Packets ----

  /** The phase that the steps tell. */
  function PhaseTold(start: Service, steps: seq<Step>, packet: nat, outgoing: nat): (phase: Phase) {
    match FirstAnswer(start, steps, packet)
    case None => Forwarded
    case Some(true) => if Applied(start, steps, packet) || outgoing == 0 then Done else FulfillDue
    case Some(false) => if Applied(start, steps, packet) then Undone else RejectDue
  }

  ghost predicate PacketTold(start: Service, steps: seq<Step>, packet: nat) {
    var s := After(start, steps);
    if packet < |s.packets| then
      s.packets[packet].phase == PhaseTold(start, steps, packet, s.packets[packet].outgoing)
    else FirstAnswer(start, steps, packet) == None && !Applied(start, steps, packet)
  }

  lemma {:induction false} AppliedAfterAnswer(start: Service, steps: seq<Step>, packet: nat)
    ensures Applied(start, steps, packet) ==> FirstAnswer(start, steps, packet).Some?
  {
    if steps != [] {
      AppliedAfterAnswer(start, steps[..|steps| - 1], packet);
    }
  }

  /** What a step does to the phase of a packet. */
  function NextPhase(p: Packet, packet: nat, step: Step): (phase: Phase) {
    if p.phase == Forwarded && step == Answer(packet, true) then if p.outgoing > 0 then FulfillDue else Done
    else if p.phase == Forwarded && step == Answer(packet, false) then RejectDue
    else if p.phase == FulfillDue && step == ApplyFulfill(packet) then Done
    else if p.phase == RejectDue && step == ApplyReject(packet) then Undone
    else p.phase
  }

  lemma {:induction false} PacketStep(s: Service, step: Step, packet: nat)
    requires Closed(s)
    ensures var s' := Next(s, step);
            && |s'.packets| >= |s.packets|
            && (packet < |s.packets| ==>
                  s'.packets[packet] == s.packets[packet].(phase := NextPhase(s.packets[packet], packet, step)))
            && (|s.packets| <= packet < |s'.packets| ==> s'.packets[packet].phase == Forwarded && step.Send?)
  {
    if packet < |s.packets| {
      assert s.packets[packet] in s.packets;
    }
  }

  /** One step, told of one packet. */
  lemma {:induction false} NextTells(start: Service, steps: seq<Step>, packet: nat)
    requires steps != [] && PacketTold(start, steps[..|steps| - 1], packet)
    requires Closed(After(start, steps[..|steps| - 1]))
    ensures PacketTold(start, steps, packet)
  {
    var front, last := steps[..|steps| - 1], steps[|steps| - 1];
    AppliedAfterAnswer(start, front, packet);
    PacketStep(After(start, front), last, packet);
    assert After(start, steps) == Next(After(start, front), last);
  }

  /** Over every run, a packet is being forwarded exactly until its first answer. It is Done or due to be fulfilled
      exactly if that was a fulfill, and Undone or due to be rejected exactly if it was a reject; which of the two
      depends on whether the balance was updated. */
  lemma {:induction false} PhasesTold(ledgers: map<Id, Ledger>, engines: set<Id>, steps: seq<Step>, packet: nat)
    ensures PacketTold(Opening(ledgers, engines), steps, packet)
  {
    if steps != [] {
      PhasesTold(ledgers, engines, steps[..|steps| - 1], packet);
      RunClosed(ledgers, engines, steps[..|steps| - 1]);
      NextTells(Opening(ledgers, engines), steps, packet);
    }
  }

  /** A packet without its phase. */
  function AsSent(p: Packet): (q: Packet) { p.(phase := Forwarded) }

  ghost predicate SameAsSent(packets: seq<Packet>, sent: seq<Packet>) {
    |packets| == |sent| && forall i :: 0 <= i < |sent| ==> AsSent(packets[i]) == sent[i]
  }

  lemma {:induction false} AdmitStep(s: Service, step: Step, sent: seq<Packet>)
    requires SameAsSent(s.packets, sent)
    ensures SameAsSent(Next(s, step).packets, sent + Newly(s, step))
  {
    assert sent + [] == sent;
  }

  /** The packets of a run are those that were admitted, in order. */
  lemma {:induction false} PacketsAdmitted(start: Service, steps: seq<Step>)
    requires start.packets == []
    ensures SameAsSent(After(start, steps).packets, Admitted(start, steps))
  {
    if steps != [] {
      var front := steps[..|steps| - 1];
      PacketsAdmitted(start, front);
      AdmitStep(After(start, front), steps[|steps| - 1], Admitted(start, front));
    }
  }

  // ---- Settlements ----

  function OutcomeTold(start: Service, steps: seq<Step>, settlement: nat, account: Id): (outcome: Outcome) {
    if account !in start.engines then Withheld
    else
      match EngineSaid(start, steps, settlement)
      case None => Requested
      case Some(true) => Accepted
      case Some(false) => if RefundedIn(start, steps, settlement) then GivenBack else RefundDue
  }

  ghost predicate SettlementTold(start: Service, steps: seq<Step>, settlement: nat) {
    var s := After(start, steps);
    if settlement < |s.settlements| then
      s.settlements[settlement].outcome == OutcomeTold(start, steps, settlement, s.settlements[settlement].account)
    else EngineSaid(start, steps, settlement) == None && !RefundedIn(start, steps, settlement)
  }

  lemma {:induction false} RefundedAfterAnswer(start: Service, steps: seq<Step>, settlement: nat)
    ensures RefundedIn(start, steps, settlement) ==> EngineSaid(start, steps, settlement).Some?
  {
    if steps != [] {
      RefundedAfterAnswer(start, steps[..|steps| - 1], settlement);
    }
  }

  /** What a step does to the outcome of a settlement. */
  function NextOutcome(x: Settlement, settlement: nat, step: Step): (outcome: Outcome) {
    if x.outcome == Requested && step == EngineAnswer(settlement, true) then Accepted
    else if x.outcome == Requested && step == EngineAnswer(settlement, false) then RefundDue
    else if x.outcome == RefundDue && step == Refund(settlement) then GivenBack
    else x.outcome
  }

  lemma {:induction false} SettlementStep(s: Service, step: Step, settlement: nat)
    requires Closed(s)
    ensures var s' := Next(s, step);
            && |s'.settlements| >= |s.settlements|
            && (settlement < |s.settlements| ==>
                  var x := s.settlements[settlement];
                  s'.settlements[settlement] == x.(outcome := NextOutcome(x, settlement, step)))
            && (|s.settlements| <= settlement < |s'.settlements| ==>
                  && (step.ApplyFulfill? || step.SettleAfterDelay?)
                  && var x := s'.settlements[settlement];
                  x.outcome == if x.account in s.engines then Requested else Withheld)
  {
    if settlement < |s.settlements| {
      assert s.settlements[settlement] in s.settlements;
    }
  }

  lemma {:induction false} NextTellsOutcome(start: Service, steps: seq<Step>, settlement: nat)
    requires steps != [] && SettlementTold(start, steps[..|steps| - 1], settlement)
    requires var s := After(start, steps[..|steps| - 1]); Closed(s) && s.engines == start.engines
    ensures SettlementTold(start, steps, settlement)
  {
    var front, last := steps[..|steps| - 1], steps[|steps| - 1];
    RefundedAfterAnswer(start, front, settlement);
    SettlementStep(After(start, front), last, settlement);
    assert After(start, steps) == Next(After(start, front), last);
  }

  /** Over every run, a settlement of an account without an engine is withheld. Any other is accepted exactly if
      the engine's first answer was ok, and refunded or due for it exactly if the engine refused. */
  lemma {:induction false} OutcomesTold(ledgers: map<Id, Ledger>, engines: set<Id>, steps: seq<Step>, settlement: nat)
    ensures SettlementTold(Opening(ledgers, engines), steps, settlement)
  {
    if steps != [] {
      OutcomesTold(ledgers, engines, steps[..|steps| - 1], settlement);
      RunClosed(ledgers, engines, steps[..|steps| - 1]);
      NextTellsOutcome(Opening(ledgers, engines), steps, settlement);
    }
  }

  // ---- Receipts ----

  /** Exactly the settlements that came in for a known account under an unknown key are credited. */
  lemma {:induction false} ReceiptsTold(ledgers: map<Id, Ledger>, engines: set<Id>, steps: seq<Step>)
    ensures var s := After(Opening(ledgers, engines), steps);
            s.keys == LiveKeys(ledgers.Keys, steps) && s.receipts == Credits(ledgers.Keys, steps)
  {
    if steps != [] {
      ReceiptsTold(ledgers, engines, steps[..|steps| - 1]);
      RunClosed(ledgers, engines, steps[..|steps| - 1]);
    }
  }

  // ---- When a settlement is made ----

  /** Applying a fulfill leaves the receiver below its threshold. What was above `settle_to` is settled then, and
      only when the threshold is reached. */
  lemma {:induction false} FulfillSettles(s: Service, packet: nat)
    requires InPhase(s, packet, FulfillDue) && s.packets[packet].to in s.ledgers
    ensures var p, s' := s.packets[packet], Next(s, ApplyFulfill(packet));
            var l, l' := s.ledgers[p.to], s'.ledgers[p.to];
            var threshold, to := l.limits.settleThreshold, l.limits.settleTo;
            if threshold.Some? && to.Some? && threshold.value > to.value && l.balance + p.outgoing >= threshold.value
            then
              && l'.balance == to.value < threshold.value
              && |s'.settlements| == |s.settlements| + 1
              && var x := s'.settlements[|s.settlements|];
              x.account == p.to && x.amount == l.balance + p.outgoing - to.value
            else l'.balance == l.balance + p.outgoing && s'.settlements == s.settlements
  {
  }

  /** A settlement after a delay brings the balance down to `settle_to`, if it is above. */
  lemma {:induction false} DelaySettles(s: Service, account: Id)
    requires account in s.ledgers
    ensures var s', l := Next(s, SettleAfterDelay(account)), s.ledgers[account];
            var threshold, to := l.limits.settleThreshold, l.limits.settleTo;
            if threshold.Some? && to.Some? && threshold.value > to.value && l.balance > to.value then
              && s'.ledgers[account].balance == to.value
              && |s'.settlements| == |s.settlements| + 1
              && var x := s'.settlements[|s.settlements|];
              x.account == account && x.amount == l.balance - to.value
            else s'.ledgers[account].balance == l.balance && s'.settlements == s.settlements
  {
  }

  // ---- The balance, from the steps ----

  /** The sum of the first n values. */
  function SumOver(n: nat, f: nat -> int): (sum: int) {
    if n == 0 then 0 else SumOver(n - 1, f) + f(n - 1)
  }

  lemma {:induction false} SumByIndex<T>(xs: seq<T>, f: T -> int, g: nat -> int, n: nat)
    requires n <= |xs| && forall i: nat :: i < n ==> g(i) == f(xs[i])
    ensures Sum(xs[..n], f) == SumOver(n, g)
  {
    if n > 0 {
      SumByIndex(xs, f, g, n - 1);
      assert xs[..n][..n - 1] == xs[..n - 1];
    }
  }

  /** What an admitted packet took from its sender: nothing any more once a reject was applied. */
  function TakenFrom(start: Service, steps: seq<Step>, a: Id): (f: nat -> int) {
    var sent := Admitted(start, steps);
    (i: nat) => if i < |sent| && sent[i].from == a
                   && !(FirstAnswer(start, steps, i) == Some(false) && Applied(start, steps, i))
                then sent[i].incoming else 0
  }

  /** What it brought its receiver: its outgoing amount once a fulfill was applied. */
  function BroughtTo(start: Service, steps: seq<Step>, a: Id): (f: nat -> int) {
    var sent := Admitted(start, steps);
    (i: nat) => if i < |sent| && sent[i].to == a
                   && FirstAnswer(start, steps, i) == Some(true) && Applied(start, steps, i)
                then sent[i].outgoing else 0
  }

  /** What a settlement took off the balance: nothing any more once the engine refused and it was refunded. */
  function SettledFrom(start: Service, steps: seq<Step>, a: Id): (f: nat -> int) {
    var made := After(start, steps).settlements;
    (i: nat) => if i < |made| && made[i].account == a
                   && !(a in start.engines && EngineSaid(start, steps, i) == Some(false) && RefundedIn(start, steps, i))
                then made[i].amount else 0
  }

  lemma {:induction false} PacketSums(ledgers: map<Id, Ledger>, engines: set<Id>, steps: seq<Step>, a: Id)
    ensures var start := Opening(ledgers, engines);
            var packets, n := After(start, steps).packets, |Admitted(start, steps)|;
            && Sum(packets, Charged(a)) == SumOver(n, TakenFrom(start, steps, a))
            && Sum(packets, Earned(a)) == SumOver(n, BroughtTo(start, steps, a))
  {
    var start := Opening(ledgers, engines);
    var packets, sent := After(start, steps).packets, Admitted(start, steps);
    PacketsAdmitted(start, steps);
    forall i: nat | i < |sent|
      ensures TakenFrom(start, steps, a)(i) == Charged(a)(packets[i])
      ensures BroughtTo(start, steps, a)(i) == Earned(a)(packets[i])
    {
      PhasesTold(ledgers, engines, steps, i);
      assert AsSent(packets[i]) == sent[i];
    }
    SumByIndex(packets, Charged(a), TakenFrom(start, steps, a), |sent|);
    SumByIndex(packets, Earned(a), BroughtTo(start, steps, a), |sent|);
    assert packets[..|sent|] == packets;
  }

  lemma {:induction false} SettlementSums(ledgers: map<Id, Ledger>, engines: set<Id>, steps: seq<Step>, a: Id)
    ensures var start := Opening(ledgers, engines);
            var made := After(start, steps).settlements;
            Sum(made, Drawn(a)) == SumOver(|made|, SettledFrom(start, steps, a))
  {
    var start := Opening(ledgers, engines);
    var made := After(start, steps).settlements;
    forall i: nat | i < |made| ensures SettledFrom(start, steps, a)(i) == Drawn(a)(made[i]) {
      OutcomesTold(ledgers, engines, steps, i);
    }
    SumByIndex(made, Drawn(a), SettledFrom(start, steps, a), |made|);
    assert made[..|made|] == made;
  }

  /** Over every run, an account's balance is its initial balance, less the incoming amounts of its packets that
      were admitted, except where a reject was applied, with the outgoing amounts of the packets to it that were
      answered by a fulfill and applied, less its settlements, except those that the engine refused and that were
      refunded, with the settlements that came in under a new key. */
  lemma {:induction false} BalanceTold(ledgers: map<Id, Ledger>, engines: set<Id>, steps: seq<Step>, a: Id)
    requires a in ledgers
    ensures var start := Opening(ledgers, engines);
            var s, n := After(start, steps), |Admitted(start, steps)|;
            && a in s.ledgers
            && s.ledgers[a].balance + s.ledgers[a].prepaid ==
               ledgers[a].balance + ledgers[a].prepaid
               - SumOver(n, TakenFrom(start, steps, a)) + SumOver(n, BroughtTo(start, steps, a))
               - SumOver(|s.settlements|, SettledFrom(start, steps, a))
               + Sum(Credits(ledgers.Keys, steps), PaidIn(a))
  {
    BooksKept(Opening(ledgers, engines), steps, a);
    PacketSums(ledgers, engines, steps, a);
    SettlementSums(ledgers, engines, steps, a);
    ReceiptsTold(ledgers, engines, steps);
  }
}
