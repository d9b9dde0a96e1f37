/** The packet theorems for the octet encoding that the packets really use. */
module IlpOverOer {
  import opened Basics
  import opened Oer
  import opened IlpPackets
  import opened IlpReplies

  lemma {:induction false} OerLaws(strict: bool)
    ensures Lawful(OerWire(strict)) && Local(OerWire(strict)) && LengthFirst(OerWire(strict))
  {
    OerIsLawful(strict);
    OerIsLocal(strict);
    OerLengthFirst(strict);
  }

  /** A Prepare that was built and then edited in place any number of times: its buffer parses, to the same
      struct up to the millisecond, and destination, condition, data and offsets are the builder's. */
  lemma {:induction false} BuiltAndEdited(strict: bool, calendar: Calendar, b: PrepareBuilder, edits: seq<Edit>)
    requires b.Typed(calendar) && b.ContentLength(OerWire(strict)) <= U64_MAX && |b.expiresAt.stamp| == 17
    requires forall e :: e in edits ==> ValidEdit(calendar, e)
    ensures var w, built := OerWire(strict), b.Build(OerWire(strict));
            && built.contentOffset + 25 <= |built.buffer|
            && var p := EditedAll(built, edits);
            && Consistent(w, strict, calendar, p) && |p.buffer| == |built.buffer|
            && p.amount == LastAmount(b.amount, edits) && p.expiresAt == LastExpiry(b.expiresAt, edits)
            && p.destination == b.destination && p.dataOffset == built.dataOffset
            && ConditionOf(p) == b.condition && DataOf(w, p) == Ok(b.data)
  {
    var w := OerWire(strict);
    OerLaws(strict);
    PrepareRoundTrip(w, strict, calendar, b);
    PrepareAccessors(w, calendar, b);
    EditsKeepConsistent(w, strict, calendar, b.Build(w), edits);
  }

  /** A built Prepare parses exactly when the year of the expiry has four digits, and to itself exactly when the
      expiry is a whole number of milliseconds as well. */
  lemma {:induction false} PrepareExactly(strict: bool, calendar: Calendar, b: PrepareBuilder)
    requires b.Typed(calendar) && b.ContentLength(OerWire(strict)) <= U64_MAX
    ensures var w, fits := OerWire(strict), |b.expiresAt.stamp| == 17;
            && (fits ==> |b.Build(w).buffer| == 1 + PredictVarOctetString(b.ContentLength(w)))
            && (ParsedPrepare(w, strict, calendar, b.Build(w).buffer).Ok? <==> fits)
            && (ParsedPrepare(w, strict, calendar, b.Build(w).buffer) == Ok(b.Build(w)) <==>
                  fits && b.expiresAt.subMillis == 0)
  {
    OerLaws(strict);
    PrepareRoundTrip(OerWire(strict), strict, calendar, b);
  }

  /** A built Fulfill parses to itself. */
  lemma {:induction false} FulfillExactly(strict: bool, b: FulfillBuilder)
    requires |b.fulfillment| == 32 && |b.data| <= U64_MAX && b.ContentLength(OerWire(strict)) <= U64_MAX
    ensures var w := OerWire(strict);
            && |b.Build(w).buffer| == 1 + PredictVarOctetString(b.ContentLength(w))
            && ParsedFulfill(w, strict, b.Build(w).buffer) == Ok(b.Build(w))
            && FulfillmentOf(b.Build(w)) == b.fulfillment
  {
    OerLaws(strict);
    FulfillRoundTrip(OerWire(strict), strict, b);
  }

  /** A built Reject parses to itself exactly when it names the node that triggered it. */
  lemma {:induction false} RejectExactly(strict: bool, b: RejectBuilder)
    requires b.Typed() && b.ContentLength(OerWire(strict)) <= U64_MAX
    ensures var w := OerWire(strict);
            && |b.Build(w).buffer| == 1 + PredictVarOctetString(b.ContentLength(w))
            && (ParsedReject(w, strict, b.Build(w).buffer) == Ok(b.Build(w)) <==> b.triggeredBy.Some?)
            && TriggeredByOf(w, b.Build(w)) == b.triggeredBy
  {
    OerLaws(strict);
    RejectRoundTrip(OerWire(strict), strict, b);
    RejectAccessors(OerWire(strict), b);
  }

  // ---- In strict mode every accepted packet is, byte for byte, what its own fields build ----

  lemma {:induction false} StrictPrepare(calendar: Calendar, buffer: Bytes)
    requires ParsedPrepare(OerWire(true), true, calendar, buffer).Ok?
    ensures var w := OerWire(true);
            var p := ParsedPrepare(w, true, calendar, buffer).value;
            && DataOf(w, p).Ok?
            && PrepareBuilder(p.amount, p.expiresAt, ConditionOf(p), p.destination, DataOf(w, p).value).Build(w) == p
  {
    var w := OerWire(true);
    OerLaws(true);
    StrictOerIsCanonical();
    StrictPrepareViews(w, calendar, buffer);
  }

  lemma {:induction false} StrictFulfill(buffer: Bytes)
    requires ParsedFulfill(OerWire(true), true, buffer).Ok?
    ensures var w := OerWire(true);
            var p := ParsedFulfill(w, true, buffer).value;
            var data := PeekAt(w, buffer, p.contentOffset + 32);
            data.Ok? && FulfillBuilder(FulfillmentOf(p), data.value).Build(w) == p
  {
    OerLaws(true);
    StrictOerIsCanonical();
    StrictFulfillIsCanonical(OerWire(true), buffer);
  }

  lemma {:induction false} StrictReject(buffer: Bytes)
    requires ParsedReject(OerWire(true), true, buffer).Ok?
    ensures var w := OerWire(true);
            var p := ParsedReject(w, true, buffer).value;
            var message, data := PeekAt(w, buffer, p.messageOffset), PeekAt(w, buffer, p.dataOffset);
            && message.Ok? && data.Ok?
            && RejectBuilder(p.code, message.value, TriggeredByOf(w, p), data.value).Build(w) == p
  {
    OerLaws(true);
    StrictOerIsCanonical();
    StrictRejectIsCanonical(OerWire(true), buffer);
  }
}
