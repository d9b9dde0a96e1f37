/** The AIMD congestion controller of the STREAM sender (congestion.rs). */
module Congestion {
  import opened Basics
  import opened Floats

  const U64_SIZE: nat := U64_MAX + 1

  /** The value of an unchecked u64 operation. */
  function Wrapped(n: int): (r: nat)
    ensures r <= U64_MAX && (0 <= n <= U64_MAX ==> r == n)
  {
    if 0 <= n <= U64_MAX then n else n % U64_SIZE
  }

  /** The amounts a `F08_AMOUNT_TOO_LARGE` reject reports. */
  datatype MaxPacketDetails = MaxPacketDetails(received: nat, max: nat)

  datatype Reject = Reject(code: string, details: Option<MaxPacketDetails>) {
    /** A report of a packet of zero units makes the controller divide by zero, and panic. */
    predicate WellFormed() {
      code == "F08" && details.Some? ==> details.value.received > 0
    }
  }

  /** The additions and subtractions on the amount in flight are unchecked, so they wrap around. */
  datatype Controller = Controller(
    slowStart: bool, increase: nat, maxPacket: Option<nat>, inFlight: nat, maxInFlight: nat)
  {
    function MaxPacketAmount(): (m: nat) {
      if maxPacket.Some? then maxPacket.value else U64_MAX
    }

    function LeftInWindow(): (n: nat) {
      Max(maxInFlight - inFlight, 0)
    }

    function Prepared(amount: nat): (c: Controller) {
      this.(inFlight := Wrapped(inFlight + amount))
    }

    /** A packet is no longer in flight. */
    function Landed(amount: nat): (c: Controller) {
      this.(inFlight := Wrapped(inFlight - amount))
    }

    /** Slow start doubles the window, congestion avoidance adds to it; both stop at the u64 maximum. */
    function Fulfilled(amount: nat): (c: Controller) {
      Landed(amount).(
            maxInFlight := Min(if slowStart then 2 * maxInFlight else maxInFlight + increase, U64_MAX))
    }

    /** The packet cap after an amount was found too large: in proportion to what was reported, or half. */
    function Learned(amount: nat, details: Option<MaxPacketDetails>): (cap: Option<nat>)
      requires details.Some? ==> details.value.received > 0
    {
      match details
      case Some(d) =>
        var learned: nat := Wrapped(amount * d.max) / d.received;
        Some(Min(MaxPacketAmount(), learned))
      case None => if maxPacket.Some? then Some(Halved(maxPacket.value)) else None
    }

    function Rejected(amount: nat, reject: Reject): (c: Controller)
      requires reject.WellFormed()
    {
      var c := Landed(amount);
      if reject.code == "T04" then c.(slowStart := false, maxInFlight := Max(Halved(maxInFlight), 1))
      else if reject.code == "F08" then c.(maxPacket := Learned(amount, reject.details))
      else c
    }

    /** All counters are u64. */
    ghost predicate Valid() {
      && inFlight <= U64_MAX && maxInFlight <= U64_MAX && increase <= U64_MAX
      && (maxPacket.Some? ==> maxPacket.value <= U64_MAX)
    }
  }

  class CongestionController {
    var slowStart: bool
    const increaseAmount: nat
    var maxPacketAmount: Option<nat>
    var amountInFlight: nat
    var maxInFlight: nat

    ghost function View(): (c: Controller)
      reads this
    {
      Controller(slowStart, increaseAmount, maxPacketAmount, amountInFlight, maxInFlight)
    }

    constructor (startAmount: nat, increaseAmount: nat)
      ensures View() == Controller(true, increaseAmount, None, 0, startAmount)
    {
      slowStart := true;
      this.increaseAmount := increaseAmount;
      maxPacketAmount := None;
      amountInFlight := 0;
      maxInFlight := startAmount;
    }

    method Prepare(amount: nat)
      requires View().Valid()
      modifies this`amountInFlight
      ensures View() == old(View()).Prepared(amount) && View().Valid()
    {
      if amount > 0 {
        amountInFlight := Wrapped(amountInFlight + amount);
      }
    }

    /** The window only grows. */
    method Fulfill(prepareAmount: nat)
      requires View().Valid()
      modifies this
      ensures View() == old(View()).Fulfilled(prepareAmount)
      ensures View().Valid() && maxInFlight >= old(maxInFlight)
    {
      amountInFlight := Wrapped(amountInFlight - prepareAmount);
      if slowStart {
        if U64_MAX / 2 >= maxInFlight {
          maxInFlight := maxInFlight * 2;
        } else {
          maxInFlight := U64_MAX;
        }
      } else {
        if U64_MAX - increaseAmount >= maxInFlight {
          maxInFlight := maxInFlight + increaseAmount;
        } else {
          maxInFlight := U64_MAX;
        }
      }
    }

    /** Panics on a division by zero, and then changes nothing. */
    method LearnMaxPacket(prepareAmount: nat, details: Option<MaxPacketDetails>) returns (panicked: bool)
      requires View().Valid()
      modifies this`maxPacketAmount
      ensures panicked <==> details.Some? && details.value.received == 0
      ensures maxPacketAmount ==
              if panicked then old(maxPacketAmount) else old(View()).Learned(prepareAmount, details)
      ensures View().Valid() && View().MaxPacketAmount() <= old(View()).MaxPacketAmount()
    {
      panicked := details.Some? && details.value.received == 0;
      if panicked {
        return;
      }
      if details.Some? {
        var product := Wrapped(prepareAmount * details.value.max);
        var learned: nat := product / details.value.received;
        LearnedFits(product, details.value.received);
        if maxPacketAmount.Some? {
          maxPacketAmount := Some(Min(maxPacketAmount.value, learned));
        } else {
          maxPacketAmount := Some(learned);
        }
      } else if maxPacketAmount.Some? {
        RoundedAtMost(maxPacketAmount.value);
        maxPacketAmount := Some(Halved(maxPacketAmount.value));
      }
    }

    /** Neither the window nor the learned packet cap grows, but an open window is never closed. */
    method Reject(prepareAmount: nat, reject: Reject) returns (panicked: bool)
      requires View().Valid()
      modifies this
      ensures panicked <==> !reject.WellFormed()
      ensures View() ==
              if panicked then old(View()).Landed(prepareAmount) else old(View()).Rejected(prepareAmount, reject)
      ensures View().Valid() && Min(old(maxInFlight), 1) <= maxInFlight <= Max(old(maxInFlight), 1)
      ensures View().MaxPacketAmount() <= old(View()).MaxPacketAmount()
    {
      panicked := false;
      amountInFlight := Wrapped(amountInFlight - prepareAmount);
      if reject.code == "T04" {
        slowStart := false;
        RoundedAtMost(maxInFlight);
        maxInFlight := Max(Halved(maxInFlight), 1);
      } else if reject.code == "F08" {
        panicked := LearnMaxPacket(prepareAmount, reject.details);
      }
    }
  }

  lemma {:induction false} LearnedFits(product: nat, received: nat)
    requires product <= U64_MAX && received > 0
    ensures product / received <= U64_MAX
  {
  }

  // ---- How the window grows ----

  /** The controller after packets of these amounts were fulfilled, one after the other. */
  function AfterFulfills(c: Controller, amounts: seq<nat>): (c': Controller) {
    if amounts == [] then c else AfterFulfills(c, amounts[..|amounts| - 1]).Fulfilled(amounts[|amounts| - 1])
  }

  lemma {:induction false} Saturates(n: nat, k: nat)
    requires k >= 1
    ensures Min(k * Min(n, U64_MAX), U64_MAX) == Min(k * n, U64_MAX)
  {
    if n > U64_MAX {
      assert (k - 1) * U64_MAX >= 0 && (k - 1) * n >= 0;
    }
  }

  /** In slow start, n fulfilled packets multiply the window by 2^n, up to the u64 maximum. */
  lemma {:induction false} SlowStartDoubles(c: Controller, amounts: seq<nat>)
    requires c.slowStart && c.maxInFlight <= U64_MAX
    ensures var c' := AfterFulfills(c, amounts);
            c'.slowStart && c'.maxInFlight == Min(c.maxInFlight * Pow2(|amounts|), U64_MAX)
  {
    if amounts != [] {
      var front := amounts[..|amounts| - 1];
      SlowStartDoubles(c, front);
      Saturates(c.maxInFlight * Pow2(|front|), 2);
      assert c.maxInFlight * Pow2(|amounts|) == 2 * (c.maxInFlight * Pow2(|front|));
    }
  }

  /** In congestion avoidance, n fulfilled packets add n times the increase, up to the u64 maximum. */
  lemma {:induction false} AvoidanceAdds(c: Controller, amounts: seq<nat>)
    requires !c.slowStart && c.maxInFlight <= U64_MAX
    ensures var c' := AfterFulfills(c, amounts);
            && !c'.slowStart && c'.increase == c.increase
            && c'.maxInFlight == Min(c.maxInFlight + |amounts| * c.increase, U64_MAX)
  {
    if amounts != [] {
      var front := amounts[..|amounts| - 1];
      AvoidanceAdds(c, front);
      assert |amounts| * c.increase == |front| * c.increase + c.increase;
    }
  }

  /** A lack of liquidity ends slow start for good: the window is halved, and from then on only added to. */
  lemma {:induction false} CongestionEndsSlowStart(c: Controller, amount: nat, details: Option<MaxPacketDetails>,
      amounts: seq<nat>)
    requires c.maxInFlight < LIMIT
    ensures var c' := AfterFulfills(c.Rejected(amount, Reject("T04", details)), amounts);
            && !c'.slowStart && c'.maxPacket == c.maxPacket
            && c'.maxInFlight == Min(Max(c.maxInFlight / 2, 1) + |amounts| * c.increase, U64_MAX)
  {
    SmallIsRepresentable(c.maxInFlight);
    AvoidanceAdds(c.Rejected(amount, Reject("T04", details)), amounts);
    CapStays(c.Rejected(amount, Reject("T04", details)), amounts);
  }

  lemma {:induction false} CapStays(c: Controller, amounts: seq<nat>)
    ensures AfterFulfills(c, amounts).maxPacket == c.maxPacket
  {
    if amounts != [] {
      CapStays(c, amounts[..|amounts| - 1]);
    }
  }
}
