/** One STREAM payment: sizing packets and accounting for them (`StreamPayment` in client.rs). */
module StreamPayments {
  import opened Basics
  import opened Congestion
  import opened Floats

  function Ceil(x: real): (n: int)
    ensures n as real - 1.0 < x <= n as real
  {
    -((-x).Floor)
  }

  lemma {:induction false} CeilBelow(x: real, n: int)
    requires x <= n as real
    ensures Ceil(x) <= n
  {
  }

  /** `to_u64().unwrap_or(0)`. */
  function U64OrZero(n: int): (r: nat)
    ensures r <= U64_MAX
  {
    if 0 <= n <= U64_MAX then n else 0
  }

  /** `convert(..).unwrap_or(0)`: the destination amount, rounded up. */
  function Converted(amount: nat, rate: real): (n: nat)
    ensures n > 0 ==> n == Ceil(amount as real * rate)
    ensures 0.0 <= amount as real * rate <= U64_MAX as real ==>
              n as real - 1.0 < amount as real * rate <= n as real
    ensures amount as real * rate > U64_MAX as real ==> n == 0
  {
    U64OrZero(Ceil(amount as real * rate))
  }

  /** 1 / (rate * 0.001), rounded up; 0 when there is no rate. */
  function MinSourceAmount(rate: real): (n: nat)
    ensures n <= U64_MAX
  {
    if rate == 0.0 then 0 else U64OrZero(Ceil(1.0 / (rate * 0.001)))
  }

  /** At least a thousand units are delivered, so rounding down to a whole unit costs no more than a
      thousandth. */
  predicate Outweighs(amount: nat, rate: real) { amount as real * rate >= 1000.0 }

  /** The minimum is the least amount of a u64 that outweighs its rounding, or 0 if there is none. */
  lemma {:induction false} MinimumOutweighsRounding(rate: real, amount: nat)
    requires rate > 0.0 && amount <= U64_MAX
    ensures Outweighs(amount, rate) <==> 0 < MinSourceAmount(rate) <= amount
  {
    var step := rate * 0.001;
    var least := Ceil(1.0 / step);
    assert 1.0 / step * step == 1.0;
    assert 1.0 / step > 0.0;
    assert amount as real * rate == 1000.0 * (amount as real * step);
    if amount >= least {
      assert (amount as real - 1.0 / step) * step >= 0.0;
    } else {
      assert (1.0 / step - amount as real) * step > 0.0;
    }
  }

  /** A last packet below 1.2 times the minimum may be too small to deliver. */
  function DustLimit(minSource: nat): (n: nat) {
    Min(TimesSixFifths(minSource), U64_MAX)
  }

  /** ceil(remaining / packets), in u64 arithmetic. */
  function SpreadOver(remaining: nat, packets: nat): (n: nat)
    requires packets > 0
  {
    Wrapped(remaining + (packets - 1)) / packets
  }

  datatype Payment = Payment(
    controller: Controller, source: nat, sent: nat, inFlight: nat, delivered: nat,
    fulfilledPackets: nat, rejectedPackets: nat, failFastRejects: nat)
  {
    function FulfilledAmount(): (n: nat) { Max(sent - inFlight, 0) }
    function Remaining(): (n: nat) { Max(source - FulfilledAmount(), 0) }
    predicate IsComplete() { Remaining() == 0 }
    function Available(): (n: nat) { Max(source - sent, 0) }
    predicate IsMaxInFlight() { controller.LeftInWindow() == 0 || Available() == 0 }

    /** More than 99% of at least 200 packets failed for reasons that do not pass with time. */
    predicate IsFailing() {
      var packets := fulfilledPackets + rejectedPackets;
      packets >= 200 && Above99Percent(failFastRejects, packets)
    }

    /** The loop sends another packet only then. */
    predicate MaySend() { !IsFailing() && !IsComplete() && !IsMaxInFlight() }

    /** The window left, but no less than the minimum. */
    function Window(rate: real): (n: nat)
      ensures n >= controller.LeftInWindow() && n >= MinSourceAmount(rate)
    {
      Max(controller.LeftInWindow(), MinSourceAmount(rate))
    }

    /** The window, with a final packet that would be dust spread over the packets before it. */
    function Spread(rate: real): (n: nat)
      requires controller.LeftInWindow() > 0
    {
      var packets := Available() / Window(rate);
      if packets > 0 && Available() % Window(rate) < DustLimit(MinSourceAmount(rate)) then
        SpreadOver(Available(), packets)
      else Window(rate)
    }

    function PacketAmount(rate: real): (n: nat)
      requires controller.LeftInWindow() > 0
      ensures n <= Available() && n <= controller.MaxPacketAmount()
    {
      Min(Min(Spread(rate), controller.MaxPacketAmount()), Available())
    }

    function Prepared(amount: nat): (p: Payment) {
      this.(controller := controller.Prepared(amount),
            sent := Min(sent + amount, U64_MAX), inFlight := Min(inFlight + amount, U64_MAX))
    }

    function Fulfilled(amount: nat, destination: nat): (p: Payment) {
      this.(controller := controller.Fulfilled(amount), inFlight := Max(inFlight - amount, 0),
            delivered := Min(delivered + destination, U64_MAX), fulfilledPackets := fulfilledPackets + 1)
    }

    function Rejected(amount: nat, reject: Reject): (p: Payment)
      requires reject.WellFormed()
    {
      this.(controller := controller.Rejected(amount, reject), sent := Max(sent - amount, 0),
            inFlight := Max(inFlight - amount, 0), rejectedPackets := rejectedPackets + 1,
            failFastRejects := failFastRejects + if reject.code in {"T00", "T01", "F99"} then 1 else 0)
    }

    ghost predicate Valid() {
      && controller.Valid() && controller.inFlight == inFlight <= sent <= source <= U64_MAX
      && delivered <= U64_MAX
      && (source > 0 ==> controller.maxInFlight >= 1)
    }
  }

  function Opened(source: nat): (p: Payment) {
    Payment(Controller(true, source / 10, None, 0, source), source, 0, 0, 0, 0, 0, 0)
  }

  // ---- Packet sizing ----

  lemma {:induction false} ProductAtLeastSum(n: nat, size: nat)
    requires n > 0 && size > 0
    ensures n * size + 1 >= n + size
  {
    assert (n - 1) * (size - 1) >= 0;
  }

  lemma {:induction false} SpreadArithmetic(n: nat, size: nat, rest: nat, spread: nat, lost: nat)
    requires n > 0 && rest < size && lost < n
    requires n * spread + lost == n * size + rest + (n - 1)
    ensures size <= spread < 2 * size && n * spread >= n * size + rest
  {
    ProductAtLeastSum(n, size);
    assert n * (2 * size) == n * size + n * size;
    Cancelled(n, spread, 2 * size);
    assert n * (spread + 1) == n * spread + n;
    Cancelled(n, size, spread + 1);
  }

  lemma {:induction false} QuotientBounds(a: nat, b: nat)
    requires b > 0 && a / b > 0
    ensures b <= a && a / b <= a
  {
    Division(a, b);
    ProductAtLeastSum(b, a / b);
  }

  lemma {:induction false} BelowByProportion(product: nat, amount: nat, max: nat, received: nat)
    requires amount > 0 && max < received && product <= amount * max
    ensures product / received < amount
  {
    Division(product, received);
    Scaled(amount, max + 1, received);
    assert amount * (max + 1) == amount * max + amount && amount * received == received * amount;
    Cancelled(received, product / received, amount);
  }

  /** After a packet was found too large, the next ones are smaller than it, even if the product wraps around. */
  lemma {:induction false} LearnedBelowPacket(c: Controller, amount: nat, d: MaxPacketDetails)
    requires amount > 0 && d.max < d.received
    ensures c.Learned(amount, Some(d)).Some? && c.Learned(amount, Some(d)).value < amount
  {
    WrappedAtMost(amount * d.max);
    BelowByProportion(Wrapped(amount * d.max), amount, d.max, d.received);
  }

  /** The new cap is what was sent, in proportion to what arrived and what may arrive, or the old one if that is
      less. */
  lemma {:induction false} LearnedInProportion(c: Controller, amount: nat, d: MaxPacketDetails)
    requires d.received > 0 && amount * d.max <= U64_MAX
    ensures var cap := c.Learned(amount, Some(d));
            && cap.Some? && cap.value <= c.MaxPacketAmount() && cap.value * d.received <= amount * d.max
            && (cap.value == c.MaxPacketAmount() || amount * d.max < (cap.value + 1) * d.received)
  {
    var product: nat := amount * d.max;
    Division(product, d.received);
    var learned, cap := product / d.received, c.Learned(amount, Some(d)).value;
    Scaled(d.received, cap, learned);
    assert (learned + 1) * d.received == d.received * learned + d.received;
  }

  /** Without a report a known cap is halved, and an unknown one stays unknown. */
  lemma {:induction false} LearnedHalves(c: Controller, amount: nat)
    requires c.maxPacket.Some? ==> c.maxPacket.value < LIMIT
    ensures c.Learned(amount, None) == if c.maxPacket.Some? then Some(c.maxPacket.value / 2) else None
  {
    if c.maxPacket.Some? {
      SmallIsRepresentable(c.maxPacket.value);
    }
  }

  lemma {:induction false} WrappedAtMost(n: nat)
    ensures Wrapped(n) <= n
  {
    if n > U64_MAX {
      Division(n, U64_SIZE);
    }
  }

  /** When the unchecked addition wraps around, nothing is left to spread. */
  lemma {:induction false} WrappedSpread(remaining: nat, n: nat)
    requires remaining <= U64_MAX && 0 < n <= remaining && remaining + (n - 1) > U64_MAX
    ensures SpreadOver(remaining, n) == 0
  {
    var sum := remaining + (n - 1);
    assert sum % U64_SIZE == sum - U64_SIZE by {
      Division(sum, U64_SIZE);
      Once(sum, U64_SIZE);
    }
    SmallQuotient(sum - U64_SIZE, n);
  }

  lemma {:induction false} Once(a: nat, b: nat)
    requires b <= a < 2 * b
    ensures a / b == 1
  {
  }

  lemma {:induction false} SmallQuotient(a: nat, b: nat)
    requires a < b
    ensures a / b == 0
  {
  }

  /** Rounding up n equal packets so that they cover everything never doubles a packet, if and only if the
      addition fits a u64. */
  lemma {:induction false} SpreadBounds(remaining: nat, size: nat)
    requires remaining <= U64_MAX && size > 0 && remaining / size > 0
    ensures var n := remaining / size;
            var spread := SpreadOver(remaining, n);
            (size <= spread < 2 * size && n * spread >= remaining) <==> remaining + (n - 1) <= U64_MAX
  {
    var n := remaining / size;
    QuotientBounds(remaining, size);
    if remaining + (n - 1) <= U64_MAX {
      Division(remaining, size);
      Division(remaining + (n - 1), n);
      SpreadArithmetic(n, size, remaining % size, (remaining + (n - 1)) / n, (remaining + (n - 1)) % n);
    } else {
      WrappedSpread(remaining, n);
    }
  }

  /** A final packet that may be dust is to be spread over so many packets that the sum does not fit a u64. */
  predicate SpreadOverflows(p: Payment, rate: real)
    requires p.controller.LeftInWindow() > 0
  {
    var packets := p.Available() / p.Window(rate);
    && packets > 0 && p.Available() % p.Window(rate) < DustLimit(MinSourceAmount(rate))
    && p.Available() + (packets - 1) > U64_MAX
  }

  /** Under the loop's guard the window is positive, so the division is safe, and the packet respects both
      caps. It carries money, if and only if the path carries any and the spreading does not overflow. */
  lemma {:induction false} PacketIsUseful(p: Payment, rate: real)
    requires p.Valid() && p.MaySend()
    ensures p.controller.LeftInWindow() > 0
    ensures var amount := p.PacketAmount(rate);
            && amount <= p.Available() && amount <= p.controller.MaxPacketAmount()
            && (amount > 0 <==> p.controller.MaxPacketAmount() > 0 && !SpreadOverflows(p, rate))
  {
    var window := p.Window(rate);
    if p.Available() / window > 0 {
      QuotientBounds(p.Available(), window);
      SpreadBounds(p.Available(), window);
      if p.Available() + (p.Available() / window - 1) > U64_MAX {
        WrappedSpread(p.Available(), p.Available() / window);
      }
    }
  }

  /** The packet is all that is left, the path's cap, or empty because the spreading overflows. */
  predicate Exceptional(p: Payment, rate: real)
    requires p.controller.LeftInWindow() > 0
  {
    var amount := p.PacketAmount(rate);
    amount == p.Available() || amount == p.controller.MaxPacketAmount() || SpreadOverflows(p, rate)
  }

  /** All other packets at a known rate outweigh their rounding. */
  lemma {:induction false} PacketOutweighsRounding(p: Payment, rate: real)
    requires p.Valid() && p.MaySend() && rate > 0.0 && MinSourceAmount(rate) > 0
    ensures Outweighs(p.PacketAmount(rate), rate) || Exceptional(p, rate)
  {
    PacketAtLeastMinimum(p, rate);
    if !Exceptional(p, rate) {
      MinimumOutweighsRounding(rate, p.PacketAmount(rate));
    }
  }

  lemma {:induction false} PacketAtLeastMinimum(p: Payment, rate: real)
    requires p.Valid() && p.MaySend()
    ensures p.PacketAmount(rate) >= MinSourceAmount(rate) || Exceptional(p, rate)
  {
    if !SpreadOverflows(p, rate) {
      SpreadAtLeastWindow(p, rate);
    }
  }

  lemma {:induction false} SpreadAtLeastWindow(p: Payment, rate: real)
    requires p.Valid() && p.MaySend() && !SpreadOverflows(p, rate)
    ensures p.Spread(rate) >= p.Window(rate)
  {
    if p.Available() / p.Window(rate) > 0 {
      SpreadBounds(p.Available(), p.Window(rate));
    }
  }

  // ---- What the packet is ----

  /** The least m with n * m >= a. */
  ghost predicate Covers(n: nat, m: nat, a: nat) {
    n * m >= a && (m > 0 ==> n * (m - 1) < a)
  }

  lemma {:induction false} SpreadCovers(remaining: nat, n: nat)
    requires n > 0 && remaining + (n - 1) <= U64_MAX
    ensures Covers(n, SpreadOver(remaining, n), remaining)
  {
    var m: nat := (remaining + (n - 1)) / n;
    Division(remaining + (n - 1), n);
    assert n * (m - 1) == n * m - n;
  }

  lemma {:induction false} CoverIsAtMost(n: nat, m: nat, a: nat)
    requires n > 0 && Covers(n, m, a)
    ensures m <= a
  {
    assert n * a >= a by {
      assert (n - 1) * a >= 0;
    }
    if m > a {
      Scaled(n, a, m - 1);
    }
  }

  /** Below 2^49 the dust limit is 1.2 times the minimum, rounded up. */
  lemma {:induction false} DustLimitExactly(minSource: nat)
    requires minSource < 0x2_0000_0000_0000
    ensures DustLimit(minSource) == (6 * minSource + 4) / 5
  {
    TimesSixFifthsExactly(minSource);
  }

  /** The sizes that a packet is made of: the window, or the minimum if that is more; how many such packets are to
      come; and what is left after them. */
  datatype Sizing = Sizing(size: nat, packets: nat, rest: nat, limit: nat, available: nat, cap: nat)

  function SizingOf(p: Payment, rate: real): (z: Sizing)
    requires p.controller.maxInFlight > p.controller.inFlight && p.source >= p.sent
    ensures z.size > 0
  {
    var size: nat := Max(p.controller.maxInFlight - p.controller.inFlight, MinSourceAmount(rate));
    var available: nat := p.source - p.sent;
    Sizing(size, available / size, available % size, DustLimit(MinSourceAmount(rate)), available,
           if p.controller.maxPacket.Some? then p.controller.maxPacket.value else U64_MAX)
  }

  /** If what would be left for a last packet is below the dust limit, the packets before it take it on: so many
      packets of this amount, and of no less, cover everything, and none is twice the size. */
  lemma {:induction false} DustIsSpread(p: Payment, rate: real)
    requires p.Valid() && p.MaySend()
    ensures var z, amount := SizingOf(p, rate), p.PacketAmount(rate);
            z.packets > 0 && z.rest < z.limit && z.available + (z.packets - 1) <= U64_MAX ==>
              if z.cap >= 2 * z.size then z.size <= amount < 2 * z.size && Covers(z.packets, amount, z.available)
              else amount == z.cap || (z.size <= amount < 2 * z.size && Covers(z.packets, amount, z.available))
  {
    var z := SizingOf(p, rate);
    if z.packets > 0 && z.available + (z.packets - 1) <= U64_MAX {
      SpreadBounds(z.available, z.size);
      SpreadCovers(z.available, z.packets);
      CoverIsAtMost(z.packets, SpreadOver(z.available, z.packets), z.available);
    }
  }

  /** If that sum does not fit a u64, the packet is empty. Otherwise, with no dust or only one packet to come, it is
      the size, within the cap and what is available. */
  lemma {:induction false} PacketWithoutDust(p: Payment, rate: real)
    requires p.Valid() && p.MaySend()
    ensures var z, amount := SizingOf(p, rate), p.PacketAmount(rate);
            && (z.packets == 0 || z.rest >= z.limit ==> amount == Min(Min(z.size, z.cap), z.available))
            && (z.packets > 0 && z.rest < z.limit && z.available + (z.packets - 1) > U64_MAX ==> amount == 0)
  {
    var z := SizingOf(p, rate);
    if z.packets > 0 && z.available + (z.packets - 1) > U64_MAX {
      QuotientBounds(z.available, z.size);
      WrappedSpread(z.available, z.packets);
    }
  }

  /** The first packet of a payment is all of it, at any rate. */
  lemma {:induction false} FirstPacketIsWhole(source: nat, rate: real)
    requires 0 < source <= U64_MAX
    ensures Opened(source).MaySend() && Opened(source).PacketAmount(rate) == source
  {
    var p := Opened(source);
    var z := SizingOf(p, rate);
    if z.size == source {
      Multiple(1, source);
    } else {
      SmallQuotient(source, z.size);
    }
  }

  /** After a lack of liquidity, each fulfilled packet opens the window by another tenth of the payment. */
  lemma {:induction false} RecoversInTenths(source: nat, amount: nat, details: Option<MaxPacketDetails>,
      amounts: seq<nat>)
    requires source < LIMIT
    ensures AfterFulfills(Opened(source).controller.Rejected(amount, Reject("T04", details)), amounts).maxInFlight ==
            Min(Max(source / 2, 1) + |amounts| * (source / 10), U64_MAX)
  {
    CongestionEndsSlowStart(Opened(source).controller, amount, details, amounts);
  }

  /** The spreading cannot overflow for payments of up to 2^63. */
  lemma {:induction false} NoOverflowBelowHalf(p: Payment, rate: real)
    requires p.controller.LeftInWindow() > 0 && p.source <= 0x8000_0000_0000_0000
    ensures !SpreadOverflows(p, rate)
  {
    if p.Available() / p.Window(rate) > 0 {
      QuotientBounds(p.Available(), p.Window(rate));
    }
  }

  // ---- The object that the sender's packets share under a lock ----

  class StreamPayment {
    const controller: CongestionController
    const sourceAmount: nat
    var sentAmount: nat
    var inFlightAmount: nat
    var deliveredAmount: nat
    var fulfilledPackets: nat
    var rejectedPackets: nat
    var failFastRejects: nat

    ghost function View(): (p: Payment)
      reads this, controller
    {
      Payment(controller.View(), sourceAmount, sentAmount, inFlightAmount, deliveredAmount,
              fulfilledPackets, rejectedPackets, failFastRejects)
    }

    constructor (sourceAmount: nat)
      ensures View() == Opened(sourceAmount) && fresh(controller)
    {
      controller := new CongestionController(sourceAmount, sourceAmount / 10);
      this.sourceAmount := sourceAmount;
      sentAmount, inFlightAmount, deliveredAmount := 0, 0, 0;
      fulfilledPackets, rejectedPackets, failFastRejects := 0, 0, 0;
    }

    /** Size the next packet and account for it. */
    method ApplyPrepare(rate: real) returns (amount: nat, minDestination: nat)
      requires View().Valid() && View().MaySend()
      modifies this, controller
      ensures amount == old(View()).PacketAmount(rate) && minDestination == Converted(amount, rate)
      ensures View() == old(View()).Prepared(amount) && View().Valid()
    {
      var minSource := MinSourceAmount(rate);
      amount := Max(controller.maxInFlight - controller.amountInFlight, 0);
      amount := Max(amount, minSource);
      var remaining: nat := Max(sourceAmount - sentAmount, 0);
      var packets := remaining / amount;
      if packets > 0 && remaining % amount < DustLimit(minSource) {
        amount := SpreadOver(remaining, packets);
      }
      amount := Min(amount, if controller.maxPacketAmount.Some? then controller.maxPacketAmount.value else U64_MAX);
      amount := Min(amount, Max(sourceAmount - sentAmount, 0));
      controller.Prepare(amount);
      sentAmount := Min(sentAmount + amount, U64_MAX);
      inFlightAmount := Min(inFlightAmount + amount, U64_MAX);
      minDestination := Converted(amount, rate);
    }

    method ApplyFulfill(amount: nat, destination: nat)
      requires View().Valid() && amount <= inFlightAmount
      modifies this, controller
      ensures View() == old(View()).Fulfilled(amount, destination) && View().Valid()
      ensures View().FulfilledAmount() == old(View()).FulfilledAmount() + amount
    {
      controller.Fulfill(amount);
      inFlightAmount := Max(inFlightAmount - amount, 0);
      deliveredAmount := Min(deliveredAmount + destination, U64_MAX);
      fulfilledPackets := fulfilledPackets + 1;
    }

    /** A panic of the controller leaves the receipt as it was. */
    method ApplyReject(amount: nat, reject: Reject) returns (panicked: bool)
      requires View().Valid() && amount <= inFlightAmount
      modifies this, controller
      ensures panicked <==> !reject.WellFormed()
      ensures !panicked ==> View() == old(View()).Rejected(amount, reject) && View().Valid()
      ensures panicked ==> View() == old(View()).(controller := old(View()).controller.Landed(amount))
      ensures View().FulfilledAmount() == old(View()).FulfilledAmount()
    {
      panicked := controller.Reject(amount, reject);
      if panicked {
        return;
      }
      sentAmount := Max(sentAmount - amount, 0);
      inFlightAmount := Max(inFlightAmount - amount, 0);
      rejectedPackets := rejectedPackets + 1;
      if reject.code in {"T00", "T01", "F99"} {
        failFastRejects := failFastRejects + 1;
      }
    }
  }
}
