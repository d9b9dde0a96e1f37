/** Every run of a STREAM payment: packets complete in any order, and the money adds up. */
module StreamRuns {
  import opened Basics
  import opened Congestion
  import opened Floats
  import opened StreamPayments

  /** A packet under way, with the rate it was prepared at. */
  datatype Packet = Packet(amount: nat, minDestination: nat, rate: real)

  datatype Sender = Sender(payment: Payment, pending: seq<Packet>, fulfilled: seq<Packet>)

  /** A packet whose minimum is 0 carries a random condition, so it is never fulfilled. */
  datatype Step =
    | Prepare(rate: real)
    | Fulfill(i: nat, claimed: nat)
    | Refuse(i: nat, reject: Reject)

  function Total(ps: seq<Packet>): (n: nat) {
    if ps == [] then 0 else Total(ps[..|ps| - 1]) + ps[|ps| - 1].amount
  }

  function Minimums(ps: seq<Packet>): (n: nat) {
    if ps == [] then 0 else Minimums(ps[..|ps| - 1]) + ps[|ps| - 1].minDestination
  }

  function Removed(ps: seq<Packet>, i: nat): (r: seq<Packet>)
    requires i < |ps|
  {
    ps[..i] + ps[i + 1..]
  }

  predicate Enabled(s: Sender, step: Step) {
    match step
    case Prepare(_) => s.payment.MaySend()
    case Fulfill(i, _) => i < |s.pending| && s.pending[i].minDestination > 0
    case Refuse(i, reject) => i < |s.pending| && reject.WellFormed()
  }

  function Next(s: Sender, step: Step): (s': Sender) {
    if !Enabled(s, step) then s
    else
      match step
      case Prepare(rate) =>
        var amount := s.payment.PacketAmount(rate);
        s.(payment := s.payment.Prepared(amount),
           pending := s.pending + [Packet(amount, Converted(amount, rate), rate)])
      case Fulfill(i, claimed) =>
        var packet := s.pending[i];
        s.(payment := s.payment.Fulfilled(packet.amount, Max(packet.minDestination, claimed)),
           pending := Removed(s.pending, i), fulfilled := s.fulfilled + [packet])
      case Refuse(i, reject) =>
        s.(payment := s.payment.Rejected(s.pending[i].amount, reject), pending := Removed(s.pending, i))
  }

  /** The sender after a sequence of events, starting from a payment of `source`. */
  function After(source: nat, steps: seq<Step>): (s: Sender) {
    if steps == [] then Sender(Opened(source), [], [])
    else Next(After(source, steps[..|steps| - 1]), steps[|steps| - 1])
  }

  /** The two accounts of money in flight agree with the packets under way; what was sent is under way
      or fulfilled; and at least the minimums of the fulfilled packets arrived. */
  ghost predicate Inv(s: Sender) {
    && s.payment.Valid()
    && s.payment.inFlight == Total(s.pending)
    && s.payment.sent == Total(s.pending) + Total(s.fulfilled)
    && s.payment.delivered >= Min(Minimums(s.fulfilled), U64_MAX)
  }

  /** A packet's minimum is its amount at the rate it was prepared at. */
  ghost predicate Priced(s: Sender) {
    && (forall p :: p in s.pending ==> p.minDestination == Converted(p.amount, p.rate))
    && (forall p :: p in s.fulfilled ==> p.minDestination == Converted(p.amount, p.rate) && p.minDestination > 0)
  }

  lemma {:induction false} TotalConcat(a: seq<Packet>, b: seq<Packet>)
    ensures Total(a + b) == Total(a) + Total(b)
  {
    if b == [] {
      assert a + b == a;
    } else {
      TotalConcat(a, b[..|b| - 1]);
      assert (a + b)[..|a + b| - 1] == a + b[..|b| - 1];
    }
  }

  lemma {:induction false} TotalRemoved(ps: seq<Packet>, i: nat)
    requires i < |ps|
    ensures Total(Removed(ps, i)) + ps[i].amount == Total(ps)
  {
    TotalConcat(ps[..i], ps[i + 1..]);
    assert ps[..i + 1][..i] == ps[..i];
    TotalConcat(ps[..i + 1], ps[i + 1..]);
    assert ps == ps[..i + 1] + ps[i + 1..];
  }

  lemma {:induction false} Appended(ps: seq<Packet>, p: Packet)
    ensures Total(ps + [p]) == Total(ps) + p.amount && Minimums(ps + [p]) == Minimums(ps) + p.minDestination
  {
    assert (ps + [p])[..|ps|] == ps;
  }

  lemma {:induction false} PrepareKeepsInv(s: Sender, rate: real)
    requires Inv(s) && s.payment.MaySend()
    ensures Inv(Next(s, Prepare(rate)))
  {
    var amount := s.payment.PacketAmount(rate);
    Appended(s.pending, Packet(amount, Converted(amount, rate), rate));
  }

  lemma {:induction false} PaymentFulfilled(p: Payment, amount: nat, destination: nat)
    requires p.Valid() && amount <= p.inFlight
    ensures var p' := p.Fulfilled(amount, destination);
            && p'.Valid() && p'.inFlight == p.inFlight - amount && p'.sent == p.sent
            && p'.delivered == Min(p.delivered + destination, U64_MAX)
  {
  }

  lemma {:induction false} FulfillKeepsInv(s: Sender, i: nat, claimed: nat)
    requires Inv(s) && Enabled(s, Fulfill(i, claimed))
    ensures Inv(Next(s, Fulfill(i, claimed)))
  {
    TotalRemoved(s.pending, i);
    Appended(s.fulfilled, s.pending[i]);
    PaymentFulfilled(s.payment, s.pending[i].amount, Max(s.pending[i].minDestination, claimed));
  }

  lemma {:induction false} ControllerRejected(c: Controller, amount: nat, reject: Reject)
    requires c.Valid() && amount <= c.inFlight && reject.WellFormed()
    ensures var c' := c.Rejected(amount, reject);
            && c'.Valid() && c'.inFlight == c.inFlight - amount && (c.maxInFlight >= 1 ==> c'.maxInFlight >= 1)
  {
    RoundedAtMost(c.maxInFlight);
    if reject.code == "F08" {
      LearnedIsValid(c, amount, reject.details);
    }
  }

  lemma {:induction false} LearnedIsValid(c: Controller, amount: nat, details: Option<MaxPacketDetails>)
    requires c.Valid() && (details.Some? ==> details.value.received > 0)
    ensures var cap := c.Learned(amount, details); cap.Some? ==> cap.value <= U64_MAX
  {
    if details.None? && c.maxPacket.Some? {
      RoundedAtMost(c.maxPacket.value);
    }
  }

  lemma {:induction false} PaymentRejected(p: Payment, amount: nat, reject: Reject)
    requires p.Valid() && amount <= p.inFlight && reject.WellFormed()
    ensures var p' := p.Rejected(amount, reject);
            && p'.Valid() && p'.inFlight == p.inFlight - amount && p'.sent == p.sent - amount
            && p'.delivered == p.delivered
  {
    ControllerRejected(p.controller, amount, reject);
  }

  lemma {:induction false} RefuseKeepsInv(s: Sender, i: nat, reject: Reject)
    requires Inv(s) && Enabled(s, Refuse(i, reject))
    ensures Inv(Next(s, Refuse(i, reject)))
  {
    TotalRemoved(s.pending, i);
    PaymentRejected(s.payment, s.pending[i].amount, reject);
  }

  lemma {:induction false} NextKeepsInv(s: Sender, step: Step)
    requires Inv(s)
    ensures Inv(Next(s, step))
  {
    if Enabled(s, step) {
      match step
      case Prepare(rate) => PrepareKeepsInv(s, rate);
      case Fulfill(i, claimed) => FulfillKeepsInv(s, i, claimed);
      case Refuse(i, reject) => RefuseKeepsInv(s, i, reject);
    }
  }

  lemma {:induction false} RunKeepsInv(source: nat, steps: seq<Step>)
    requires source <= U64_MAX
    ensures Inv(After(source, steps)) && After(source, steps).payment.source == source
  {
    if steps != [] {
      RunKeepsInv(source, steps[..|steps| - 1]);
      NextKeepsInv(After(source, steps[..|steps| - 1]), steps[|steps| - 1]);
    }
  }

  lemma {:induction false} RunKeepsPrices(source: nat, steps: seq<Step>)
    ensures Priced(After(source, steps))
  {
    if steps != [] {
      RunKeepsPrices(source, steps[..|steps| - 1]);
    }
  }

  // ---- The theorems ----

  /** Conservation, for every payment amount and every order of events: both in-flight counters equal
      the sum of the packets under way, fulfilled + in flight = sent <= source, and a complete payment
      has nothing in flight and fulfilled exactly the source amount. */
  lemma {:induction false} Conservation(source: nat, steps: seq<Step>)
    requires source <= U64_MAX
    ensures var s := After(source, steps);
            && s.payment.controller.inFlight == s.payment.inFlight == Total(s.pending)
            && s.payment.FulfilledAmount() == Total(s.fulfilled)
            && Total(s.fulfilled) + Total(s.pending) == s.payment.sent <= source
            && (s.payment.IsComplete() <==> Total(s.fulfilled) == source)
            && (s.payment.IsComplete() ==> Total(s.pending) == 0)
  {
    RunKeepsInv(source, steps);
  }

  /** No subtraction of the sender underflows or saturates. */
  lemma {:induction false} NoUnderflow(source: nat, steps: seq<Step>, i: nat)
    requires source <= U64_MAX && i < |After(source, steps).pending|
    ensures var s := After(source, steps);
            var amount := s.pending[i].amount;
            amount <= s.payment.controller.inFlight && amount <= s.payment.inFlight && amount <= s.payment.sent
  {
    RunKeepsInv(source, steps);
    TotalRemoved(After(source, steps).pending, i);
  }

  /** No addition of the sender overflows or saturates. */
  lemma {:induction false} NoOverflow(source: nat, steps: seq<Step>, rate: real)
    requires source <= U64_MAX && After(source, steps).payment.MaySend()
    ensures var p := After(source, steps).payment;
            p.controller.inFlight + p.PacketAmount(rate) <= p.sent + p.PacketAmount(rate) <= source
  {
    RunKeepsInv(source, steps);
  }

  // ---- The counters, from the steps ----

  /** The steps that were possible when they came. */
  function Effective(source: nat, steps: seq<Step>): (taken: seq<Step>) {
    if steps == [] then []
    else
      var front, last := steps[..|steps| - 1], steps[|steps| - 1];
      Effective(source, front) + if Enabled(After(source, front), last) then [last] else []
  }

  function Counted(steps: seq<Step>, kind: Step -> bool): (n: nat) {
    if steps == [] then 0
    else Counted(steps[..|steps| - 1], kind) + if kind(steps[|steps| - 1]) then 1 else 0
  }

  lemma {:induction false} CountedAppended(steps: seq<Step>, step: Step, kind: Step -> bool)
    ensures Counted(steps + [step], kind) == Counted(steps, kind) + if kind(step) then 1 else 0
  {
    assert (steps + [step])[..|steps|] == steps;
  }

  predicate IsFulfill(step: Step) { step.Fulfill? }

  predicate IsRefuse(step: Step) { step.Refuse? }

  /** Internal errors, unreachable peers and application errors. */
  predicate IsFailFast(step: Step) {
    step.Refuse? && (step.reject.code == "T00" || step.reject.code == "T01" || step.reject.code == "F99")
  }

  /** What one possible step does to the counters. */
  lemma {:induction false} CountersStep(s: Sender, step: Step)
    requires Enabled(s, step)
    ensures var p, p' := s.payment, Next(s, step).payment;
            && p'.fulfilledPackets == p.fulfilledPackets + (if IsFulfill(step) then 1 else 0)
            && p'.rejectedPackets == p.rejectedPackets + (if IsRefuse(step) then 1 else 0)
            && p'.failFastRejects == p.failFastRejects + if IsFailFast(step) then 1 else 0
  {
  }

  /** Every fulfill and every reject is counted, and those apart that make the sender give up. */
  lemma {:induction false} CountersMatch(source: nat, steps: seq<Step>)
    ensures var p, taken := After(source, steps).payment, Effective(source, steps);
            && p.fulfilledPackets == Counted(taken, IsFulfill) && p.rejectedPackets == Counted(taken, IsRefuse)
            && p.failFastRejects == Counted(taken, IsFailFast) <= Counted(taken, IsRefuse)
  {
    if steps != [] {
      var front, last := steps[..|steps| - 1], steps[|steps| - 1];
      CountersMatch(source, front);
      if Enabled(After(source, front), last) {
        CountersStep(After(source, front), last);
        CountedAppended(Effective(source, front), last, IsFulfill);
        CountedAppended(Effective(source, front), last, IsRefuse);
        CountedAppended(Effective(source, front), last, IsFailFast);
      } else {
        assert Effective(source, steps) == Effective(source, front);
      }
    }
  }

  /** Of at least 200 answers, more than 99 in 100 were of the kind that make the sender give up. */
  predicate GivesUp(taken: seq<Step>) {
    var answers := Counted(taken, IsFulfill) + Counted(taken, IsRefuse);
    answers >= 200 && 100 * Counted(taken, IsFailFast) > 99 * answers
  }

  /** In every run of fewer than 2^47 answers, the sender goes on exactly while it has not given up, what is under
      way leaves room in the window, and something is left to be sent. */
  lemma {:induction false} MaySendIff(source: nat, steps: seq<Step>)
    requires source <= U64_MAX && |steps| < 0x8000_0000_0000
    ensures var s := After(source, steps);
            s.payment.MaySend() <==>
            && !GivesUp(Effective(source, steps)) && Total(s.pending) < s.payment.controller.maxInFlight
            && Total(s.pending) + Total(s.fulfilled) < source
  {
    var p, taken := After(source, steps).payment, Effective(source, steps);
    RunKeepsInv(source, steps);
    CountersMatch(source, steps);
    EffectiveAtMost(source, steps);
    CountedAtMost(taken);
    Above99PercentExactly(p.failFastRejects, p.fulfilledPackets + p.rejectedPackets);
  }

  lemma {:induction false} EffectiveAtMost(source: nat, steps: seq<Step>)
    ensures |Effective(source, steps)| <= |steps|
  {
    if steps != [] {
      EffectiveAtMost(source, steps[..|steps| - 1]);
    }
  }

  lemma {:induction false} CountedAtMost(steps: seq<Step>)
    ensures Counted(steps, IsFulfill) + Counted(steps, IsRefuse) <= |steps|
  {
    if steps != [] {
      CountedAtMost(steps[..|steps| - 1]);
    }
  }

  /** What the receiver is taken to have got: of each fulfill the claim, or the minimum if that is more. */
  function Deliveries(source: nat, steps: seq<Step>): (n: nat) {
    if steps == [] then 0
    else
      var front, last := steps[..|steps| - 1], steps[|steps| - 1];
      var s := After(source, front);
      Deliveries(source, front) +
      if last.Fulfill? && Enabled(s, last) then
        if last.claimed > s.pending[last.i].minDestination then last.claimed else s.pending[last.i].minDestination
      else 0
  }

  /** The delivered amount is the sum of the deliveries, up to the u64 maximum. */
  lemma {:induction false} DeliveredExactly(source: nat, steps: seq<Step>)
    requires source <= U64_MAX
    ensures After(source, steps).payment.delivered == Min(Deliveries(source, steps), U64_MAX)
  {
    if steps != [] {
      var front, last := steps[..|steps| - 1], steps[|steps| - 1];
      var s := After(source, front);
      DeliveredExactly(source, front);
      RunKeepsInv(source, front);
      if Enabled(s, last) {
        match last
        case Fulfill(i, claimed) =>
          TotalRemoved(s.pending, i);
          PaymentFulfilled(s.payment, s.pending[i].amount, Max(s.pending[i].minDestination, claimed));
        case Refuse(i, reject) =>
          TotalRemoved(s.pending, i);
          PaymentRejected(s.payment, s.pending[i].amount, reject);
        case Prepare(rate) =>
      }
    }
  }

  lemma {:induction false} PriceAtRate(p: Packet, r: real)
    requires p.rate >= r && p.minDestination == Converted(p.amount, p.rate) && p.minDestination > 0
    ensures p.minDestination as real >= r * p.amount as real
  {
    assert p.amount as real * (p.rate - r) >= 0.0;
  }

  ghost predicate AtLeast(ps: seq<Packet>, r: real) {
    forall p :: p in ps ==> p.minDestination as real >= r * p.amount as real
  }

  lemma {:induction false} MinimumsAtRate(ps: seq<Packet>, r: real)
    requires AtLeast(ps, r)
    ensures Minimums(ps) as real >= r * Total(ps) as real
  {
    if ps != [] {
      var front, last := ps[..|ps| - 1], ps[|ps| - 1];
      MinimumsAtRate(front, r);
      Distributes(r, Total(front) as real, last.amount as real);
    }
  }

  lemma {:induction false} Distributes(r: real, a: real, b: real)
    ensures r * (a + b) == r * a + r * b
  {
  }

  lemma {:induction false} FulfilledAtRate(s: Sender, r: real)
    requires Priced(s) && forall p :: p in s.fulfilled ==> p.rate >= r
    ensures AtLeast(s.fulfilled, r)
  {
    forall p | p in s.fulfilled ensures p.minDestination as real >= r * p.amount as real {
      PriceAtRate(p, r);
    }
  }

  /** What an amount is worth at rate r, rounded up. */
  function Owed(r: real, amount: nat): (n: int) {
    Ceil(r * amount as real)
  }

  lemma {:induction false} OwedAtMost(ps: seq<Packet>, r: real)
    requires AtLeast(ps, r)
    ensures Owed(r, Total(ps)) <= Minimums(ps)
  {
    MinimumsAtRate(ps, r);
    CeilBelow(r * Total(ps) as real, Minimums(ps));
  }

  /** Rate guarantee: when every fulfilled packet was prepared at a rate of at least r, a complete
      payment has delivered at least ceil(r * source), up to what a u64 can count. */
  lemma {:induction false} RateGuarantee(source: nat, steps: seq<Step>, r: real)
    requires source <= U64_MAX
    requires After(source, steps).payment.IsComplete()
    requires forall p :: p in After(source, steps).fulfilled ==> p.rate >= r
    ensures After(source, steps).payment.delivered >= Min(Owed(r, source), U64_MAX)
  {
    var s := After(source, steps);
    RunKeepsPrices(source, steps);
    FulfilledAtRate(s, r);
    OwedAtMost(s.fulfilled, r);
    DeliveredMinimums(source, steps);
  }

  lemma {:induction false} DeliveredMinimums(source: nat, steps: seq<Step>)
    requires source <= U64_MAX
    ensures var s := After(source, steps);
            && s.payment.delivered >= Min(Minimums(s.fulfilled), U64_MAX)
            && (s.payment.IsComplete() ==> Total(s.fulfilled) == source)
  {
    RunKeepsInv(source, steps);
  }

  // ---- An empty packet ----

  /** 2^64 - 2048, which f64 arithmetic halves eleven times without loss. */
  const STALLING: nat := 0xFFFF_FFFF_FFFF_F800

  /** So many packets of the whole window, prepared while no rate is known and rejected for lack of liquidity. */
  function Refusals(k: nat): (steps: seq<Step>) {
    if k == 0 then [] else Refusals(k - 1) + [Prepare(0.0), Refuse(0, Reject("T04", None))]
  }

  function WindowAfter(k: nat): (n: nat)
    requires k <= 12
  {
    if k == 12 then 0xF_FFFF_FFFF_FFFF else (LIMIT - 1) * Pow2(11 - k)
  }

  function PaymentAfter(k: nat): (p: Payment)
    requires k <= 12
  {
    Payment(Controller(k == 0, STALLING / 10, None, 0, WindowAfter(k)), STALLING, 0, 0, 0, 0, k, 0)
  }

  lemma {:induction false} WindowHalves(k: nat)
    requires k < 12
    ensures 0 < WindowAfter(k) <= STALLING && Halved(WindowAfter(k)) == WindowAfter(k + 1) > 0
  {
    ScaledIsRepresentable(LIMIT - 1, 11 - k);
    if k > 0 {
      WindowHalves(k - 1);
    } else {
      assert Pow2(4) == 16 && Pow2(8) == 256 && Pow2(11) == 2048;
    }
  }

  lemma {:induction false} WholeWindow(p: Payment)
    requires p.controller.inFlight == 0 && p.sent == 0 && p.inFlight == 0 && p.controller.maxPacket == None
    requires 0 < p.controller.maxInFlight <= p.source <= U64_MAX
    requires p.fulfilledPackets + p.rejectedPackets < 200
    ensures p.MaySend() && p.PacketAmount(0.0) == p.controller.maxInFlight
  {
    SmallIsRepresentable(0);
    assert DustLimit(0) == 0;
  }

  lemma {:induction false} RefusalStep(k: nat)
    requires k < 12
    ensures var s := Sender(PaymentAfter(k), [], []);
            Next(Next(s, Prepare(0.0)), Refuse(0, Reject("T04", None))) == Sender(PaymentAfter(k + 1), [], [])
  {
    var p := PaymentAfter(k);
    WindowHalves(k);
    WholeWindow(p);
    WholeWindowRefused(p);
    PreparedAndRefused(p, 0.0, Reject("T04", None));
  }

  lemma {:induction false} PreparedAndRefused(p: Payment, rate: real, reject: Reject)
    requires p.MaySend() && reject.WellFormed()
    ensures var amount := p.PacketAmount(rate);
            Next(Next(Sender(p, [], []), Prepare(rate)), Refuse(0, reject)) ==
            Sender(p.Prepared(amount).Rejected(amount, reject), [], [])
  {
    var amount := p.PacketAmount(rate);
    var packet := Packet(amount, Converted(amount, rate), rate);
    assert Next(Sender(p, [], []), Prepare(rate)) == Sender(p.Prepared(amount), [packet], []);
    assert Removed([packet], 0) == [];
  }

  lemma {:induction false} WholeWindowRefused(p: Payment)
    requires p.controller.inFlight == 0 && p.sent == 0 && p.inFlight == 0 && p.controller.maxInFlight <= U64_MAX
    ensures var amount := p.controller.maxInFlight;
            p.Prepared(amount).Rejected(amount, Reject("T04", None)) ==
            p.(controller := p.controller.(slowStart := false, maxInFlight := Max(Halved(amount), 1)),
               rejectedPackets := p.rejectedPackets + 1)
  {
  }

  lemma {:induction false} RefusalsRun(k: nat)
    requires k <= 12
    ensures After(STALLING, Refusals(k)) == Sender(PaymentAfter(k), [], [])
  {
    if k == 0 {
      assert Pow2(4) == 16 && Pow2(8) == 256 && Pow2(11) == 2048;
    } else {
      var before, prepare, refuse := Refusals(k - 1), Prepare(0.0), Refuse(0, Reject("T04", None));
      RefusalsRun(k - 1);
      RefusalStep(k - 1);
      AfterAppended(STALLING, before, prepare);
      AfterAppended(STALLING, before + [prepare], refuse);
      assert Refusals(k) == before + [prepare] + [refuse];
    }
  }

  lemma {:induction false} AfterAppended(source: nat, steps: seq<Step>, step: Step)
    ensures After(source, steps + [step]) == Next(After(source, steps), step)
  {
    assert (steps + [step])[..|steps|] == steps;
  }

  lemma {:induction false} HalfRate()
    ensures MinSourceAmount(0.5) == 2000 && DustLimit(2000) == 2400
  {
    var product := 2000 * SIX_FIFTHS;
    SmallIsRepresentable(2000);
    assert Pow2(4) == 16 && Pow2(8) == 256 && Pow2(11) == 2048;
    UlpIs(product, 11);
    assert Rounded(product) == 2400 * 0x10_0000_0000_0000;
  }

  lemma {:induction false} ManyPackets()
    ensures STALLING / 0xF_FFFF_FFFF_FFFF == 4096 && STALLING % 0xF_FFFF_FFFF_FFFF == 2048
  {
  }

  /** A payment of 2^64 - 2048 whose first twelve packets were rejected for lack of liquidity. The sender may go
      on and the path has announced no cap, but the next packet, at a rate of one half, carries nothing. */
  lemma {:induction false} LargePaymentStalls()
    ensures var p := After(STALLING, Refusals(12)).payment;
            p.MaySend() && p.controller.MaxPacketAmount() > 0 && p.PacketAmount(0.5) == 0
  {
    RefusalsRun(12);
    var p := PaymentAfter(12);
    WholeWindow(p);
    HalfRate();
    ManyPackets();
    assert p.Available() == STALLING && p.Window(0.5) == 0xF_FFFF_FFFF_FFFF;
    WrappedSpread(STALLING, 4096);
    assert p.Spread(0.5) == SpreadOver(STALLING, 4096);
  }
}
