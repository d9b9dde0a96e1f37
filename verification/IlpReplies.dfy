/** Fulfill and Reject packets, Interledger RFC 0027 (interledger-packet/src/packet.rs). */
module IlpReplies {
  import opened Basics
  import opened Oer
  import opened Texts
  import opened IlpPackets

  /** `peek_var_octet_string` at an offset into the buffer. */
  function PeekAt(w: Wire, buffer: Bytes, at: nat): (r: Result<Bytes, CodecError>) {
    var s :- w.readOctets(buffer[Min(at, |buffer|)..]);
    Ok(s.value)
  }

  // ---- Fulfill ----

  datatype Fulfill = Fulfill(buffer: Bytes, contentOffset: nat)

  function ParsedFulfill(w: Wire, strict: bool, buffer: Bytes): (r: Result<Fulfill, CodecError>) {
    var e :- ReadEnvelope(w, strict, 13, buffer);
    if |e.content| < 32 then Err(UnexpectedEof)
    else
      var data :- w.readOctets(e.content[32..]);
      if strict && data.rest != [] then Err(TrailingBytes) else Ok(Fulfill(buffer, e.offset))
  }

  function FulfillmentOf(p: Fulfill): (f: Bytes) {
    var begin := Min(p.contentOffset, |p.buffer|);
    p.buffer[begin..Min(begin + 32, |p.buffer|)]
  }

  datatype FulfillBuilder = FulfillBuilder(fulfillment: Bytes, data: Bytes) {
    function ContentLength(w: Wire): (n: nat) {
      32 + w.predict(|data|)
    }

    function Content(w: Wire): (c: Bytes) {
      fulfillment + w.putOctets(data)
    }

    function Build(w: Wire): (p: Fulfill) {
      Fulfill(Framed(w, 13, ContentLength(w), Content(w)), 1 + |w.putLength(ContentLength(w))|)
    }
  }

  /** A built Fulfill takes the predicted size, parses to itself, and shows the builder's fields. */
  lemma {:induction false} FulfillRoundTrip(w: Wire, strict: bool, b: FulfillBuilder)
    requires Lawful(w) && LengthFirst(w) && |b.fulfillment| == 32 && |b.data| <= U64_MAX
             && b.ContentLength(w) <= U64_MAX
    ensures |b.Build(w).buffer| == 1 + w.predict(b.ContentLength(w))
    ensures ParsedFulfill(w, strict, b.Build(w).buffer) == Ok(b.Build(w))
    ensures FulfillmentOf(b.Build(w)) == b.fulfillment
    ensures PeekAt(w, b.Build(w).buffer, b.Build(w).contentOffset + 32) == Ok(b.data)
  {
    var p := b.Build(w);
    var c := b.Content(w);
    assert PutAt(w, b.data);
    EnvelopeRoundTrip(w, strict, 13, c);
    assert c[32..] == w.putOctets(b.data) + [] && c[..32] == b.fulfillment;
    assert p.buffer[p.contentOffset..] == c;
    assert p.buffer[p.contentOffset + 32..] == c[32..];
  }

  /** The views of a parsed Fulfill lie inside its content. */
  lemma {:induction false} FulfillIsView(w: Wire, strict: bool, buffer: Bytes)
    requires Local(w) && ParsedFulfill(w, strict, buffer).Ok?
    ensures var p := ParsedFulfill(w, strict, buffer).value;
            var c := ReadEnvelope(w, strict, 13, buffer).value.content;
            && FulfillmentOf(p) == c[..32] && w.readOctets(c[32..]).Ok?
            && PeekAt(w, buffer, p.contentOffset + 32) == Ok(w.readOctets(c[32..]).value.value)
  {
    var e := ReadEnvelope(w, strict, 13, buffer).value;
    EnvelopeIsView(w, strict, 13, buffer, e.content);
    var outer := buffer[e.offset + |e.content|..];
    RestReads(w, e.content[32..], outer);
    assert buffer[e.offset..e.offset + 32] == e.content[..32];
    assert buffer[e.offset + 32..] == e.content[32..] + outer;
  }

  /** Outside strict mode, bytes behind the content are ignored. */
  lemma {:induction false} FulfillTrailingIgnored(w: Wire, buffer: Bytes, extra: Bytes)
    requires Local(w) && ParsedFulfill(w, false, buffer).Ok?
    ensures ParsedFulfill(w, false, buffer + extra) ==
            Ok(ParsedFulfill(w, false, buffer).value.(buffer := buffer + extra))
  {
    EnvelopeTrailingIgnored(w, 13, buffer, extra);
  }

  lemma {:induction false} EnvelopeTrailingIgnored(w: Wire, packetType: byte, buffer: Bytes, extra: Bytes)
    requires Local(w) && ReadEnvelope(w, false, packetType, buffer).Ok?
    ensures ReadEnvelope(w, false, packetType, buffer + extra) == ReadEnvelope(w, false, packetType, buffer)
  {
    assert (buffer + extra)[1..] == buffer[1..] + extra;
    RestReads(w, buffer[1..], extra);
  }

  /** The same holds of bytes behind the data, inside the content. */
  lemma {:induction false} FulfillDataTrailing(w: Wire, content: Bytes, extra: Bytes)
    requires Lawful(w) && LengthFirst(w) && Local(w) && |content + extra| <= U64_MAX
    requires |content| >= 32 && w.readOctets(content[32..]).Ok?
    ensures ParsedFulfill(w, false, Framed(w, 13, |content + extra|, content + extra)).Ok?
  {
    EnvelopeRoundTrip(w, false, 13, content + extra);
    assert (content + extra)[32..] == content[32..] + extra;
    RestReads(w, content[32..], extra);
  }

  /** In strict mode a parsed Fulfill is what its own views build. */
  lemma {:induction false} StrictFulfillIsCanonical(w: Wire, buffer: Bytes)
    requires CanonicalWire(w) && LengthFirst(w) && Local(w) && ParsedFulfill(w, true, buffer).Ok?
    ensures var p := ParsedFulfill(w, true, buffer).value;
            var data := PeekAt(w, buffer, p.contentOffset + 32);
            data.Ok? && FulfillBuilder(FulfillmentOf(p), data.value).Build(w) == p
  {
    var e := ReadEnvelope(w, true, 13, buffer).value;
    FulfillIsView(w, true, buffer);
    var data := w.readOctets(e.content[32..]).value;
    StrictEnvelope(w, 13, buffer);
    assert PutAt(w, e.content) && PutAt(w, data.value);
    assert e.content == e.content[..32] + (w.putOctets(data.value) + []);
  }

  // ---- Reject ----

  datatype Reject = Reject(buffer: Bytes, code: Bytes, messageOffset: nat, triggeredByOffset: nat, dataOffset: nat)

  /** Three characters of 7-bit ASCII. */
  predicate ValidCode(code: Bytes) {
    |code| == 3 && forall i :: 0 <= i < 3 ==> code[i] < 128
  }

  datatype RejectContent = RejectContent(
    code: Bytes, triggeredBy: Text, message: Bytes, data: Bytes, messageAt: nat, dataAt: nat)

  function ReadRejectContent(w: Wire, strict: bool, c: Bytes): (r: Result<RejectContent, CodecError>) {
    if |c| < 6 then Err(UnexpectedEof)
    else if !ValidCode(c[..3]) then Err(InvalidErrorCode)
    else
      var triggeredBy :- ReadAddress(w, c[3..]);
      var message :- w.readOctets(triggeredBy.rest);
      var data :- w.readOctets(message.rest);
      if strict && data.rest != [] then Err(TrailingBytes)
      else Ok(RejectContent(c[..3], triggeredBy.value, message.value, data.value,
                            Max(|c| - |triggeredBy.rest|, 0), Max(|c| - |message.rest|, 0)))
  }

  function ParsedReject(w: Wire, strict: bool, buffer: Bytes): (r: Result<Reject, CodecError>) {
    var e :- ReadEnvelope(w, strict, 14, buffer);
    var c :- ReadRejectContent(w, strict, e.content);
    Ok(Reject(buffer, c.code, e.offset + c.messageAt, e.offset + 3, e.offset + c.dataAt))
  }

  function TriggeredByOf(w: Wire, p: Reject): (a: Option<Text>) {
    var s := PeekAt(w, p.buffer, p.triggeredByOffset);
    if s.Ok? && ValidAddress(s.value) then Some(s.value) else None
  }

  datatype RejectBuilder = RejectBuilder(code: Bytes, message: Bytes, triggeredBy: Option<Text>, data: Bytes) {
    ghost predicate Typed() {
      && ValidCode(code) && |message| <= U64_MAX && |data| <= U64_MAX
      && (triggeredBy.Some? ==> ValidAddress(triggeredBy.value))
    }

    function Source(): (s: Text) {
      if triggeredBy.Some? then triggeredBy.value else []
    }

    function ContentLength(w: Wire): (n: nat) {
      3 + w.predict(|Source()|) + w.predict(|message|) + w.predict(|data|)
    }

    function Content(w: Wire): (c: Bytes) {
      code + w.putOctets(Source()) + w.putOctets(message) + w.putOctets(data)
    }

    /** The offsets are counted back from the predicted end. */
    function Build(w: Wire): (p: Reject) {
      var end := 1 + w.predict(ContentLength(w));
      var dataAt := end - w.predict(|data|);
      var messageAt := dataAt - w.predict(|message|);
      Reject(Framed(w, 14, ContentLength(w), Content(w)), code,
             Max(messageAt, 0), Max(messageAt - w.predict(|Source()|), 0), Max(dataAt, 0))
    }
  }

  /** The pieces of a built Reject, at their offsets. */
  lemma {:induction false} RejectLayout(w: Wire, b: RejectBuilder)
    requires LengthFirst(w) && b.Typed()
    ensures |b.Content(w)| == b.ContentLength(w)
    ensures var p := b.Build(w);
            var o := 1 + |w.putLength(b.ContentLength(w))|;
            && |p.buffer| == 1 + w.predict(b.ContentLength(w)) && p.buffer[o..] == b.Content(w)
            && p.triggeredByOffset == o + 3
            && p.messageOffset == o + 3 + w.predict(|b.Source()|)
            && p.dataOffset == o + 3 + w.predict(|b.Source()|) + w.predict(|b.message|)
            && p.dataOffset + w.predict(|b.data|) == |p.buffer|
  {
    assert PutAt(w, b.Source()) && PutAt(w, b.message) && PutAt(w, b.data) && PutAt(w, b.Content(w));
    assert b.Build(w).buffer == ([14] + w.putLength(b.ContentLength(w))) + b.Content(w);
  }

  lemma {:induction false} RejectTails(w: Wire, b: RejectBuilder)
    requires LengthFirst(w) && b.Typed()
    ensures var c := b.Content(w);
            var m := 3 + w.predict(|b.Source()|);
            && m + w.predict(|b.message|) <= |c|
            && c[..3] == b.code
            && c[3..] == w.putOctets(b.Source()) + (w.putOctets(b.message) + w.putOctets(b.data))
            && c[m..] == w.putOctets(b.message) + w.putOctets(b.data)
            && c[m + w.predict(|b.message|)..] == w.putOctets(b.data) + []
  {
    assert PutAt(w, b.Source()) && PutAt(w, b.message) && PutAt(w, b.data);
  }

  /** The accessors of a built Reject give the builder's fields, also without an address. */
  lemma {:induction false} RejectAccessors(w: Wire, b: RejectBuilder)
    requires Lawful(w) && LengthFirst(w) && b.Typed()
    ensures var p := b.Build(w);
            && TriggeredByOf(w, p) == b.triggeredBy
            && PeekAt(w, p.buffer, p.messageOffset) == Ok(b.message)
            && PeekAt(w, p.buffer, p.dataOffset) == Ok(b.data)
  {
    var p := b.Build(w);
    var o := 1 + |w.putLength(b.ContentLength(w))|;
    RejectLayout(w, b);
    RejectTails(w, b);
    PeekInside(w, p.buffer, o, 3, b.Source(), w.putOctets(b.message) + w.putOctets(b.data));
    PeekInside(w, p.buffer, o, p.messageOffset - o, b.message, w.putOctets(b.data));
    PeekInside(w, p.buffer, o, p.dataOffset - o, b.data, []);
    EmptyIsNoAddress();
  }

  lemma {:induction false} PeekInside(w: Wire, buffer: Bytes, o: nat, at: nat, s: Bytes, tail: Bytes)
    requires Lawful(w) && |s| <= U64_MAX && o + at <= |buffer|
    requires buffer[o..][at..] == w.putOctets(s) + tail
    ensures PeekAt(w, buffer, o + at) == Ok(s)
  {
    assert buffer[o + at..] == buffer[o..][at..];
  }

  lemma {:induction false} EmptyIsNoAddress()
    ensures !ValidAddress([])
  {
    if ValidAddress([]) {
      AddressLength([]);
    }
  }

  lemma {:induction false} RejectContentRoundTrip(w: Wire, strict: bool, b: RejectBuilder)
    requires Lawful(w) && LengthFirst(w) && b.Typed()
    ensures ReadRejectContent(w, strict, b.Content(w)) ==
            match b.triggeredBy
            case None => Err(InvalidAddress)
            case Some(address) =>
              var m := 3 + w.predict(|address|);
              Ok(RejectContent(b.code, address, b.message, b.data, m, m + w.predict(|b.message|)))
  {
    RejectLayout(w, b);
    RejectTails(w, b);
    EmptyIsNoAddress();
    assert |w.putOctets(b.Source())| > 0 && |w.putOctets(b.message)| > 0 && |w.putOctets(b.data)| > 0;
  }

  /** A built Reject takes the predicted size, and its buffer parses, to the same struct, exactly when it
      names the node that triggered it. */
  lemma {:induction false} RejectRoundTrip(w: Wire, strict: bool, b: RejectBuilder)
    requires Lawful(w) && LengthFirst(w) && b.Typed() && b.ContentLength(w) <= U64_MAX
    ensures |b.Build(w).buffer| == 1 + w.predict(b.ContentLength(w))
    ensures ParsedReject(w, strict, b.Build(w).buffer) ==
            if b.triggeredBy.Some? then Ok(b.Build(w)) else Err(InvalidAddress)
  {
    RejectLayout(w, b);
    EnvelopeRoundTrip(w, strict, 14, b.Content(w));
    RejectContentRoundTrip(w, strict, b);
  }

  lemma {:induction false} PeekContent(w: Wire, buffer: Bytes, o: nat, content: Bytes, at: nat)
    requires Local(w) && o + |content| <= |buffer| && buffer[o..o + |content|] == content && at <= |content|
    requires w.readOctets(content[at..]).Ok?
    ensures PeekAt(w, buffer, o + at) == Ok(w.readOctets(content[at..]).value.value)
  {
    var outer := buffer[o + |content|..];
    assert buffer[o + at..] == content[at..] + outer;
    RestReads(w, content[at..], outer);
  }

  lemma {:induction false} RestOf(w: Wire, buf: Bytes)
    requires Local(w) && w.readOctets(buf).Ok?
    ensures var rest := w.readOctets(buf).value.rest; |rest| <= |buf| && buf[|buf| - |rest|..] == rest
  {
    assert SplitAt(w, buf);
  }

  /** Where the parts of a Reject's content begin. */
  lemma {:induction false} RejectParts(w: Wire, strict: bool, content: Bytes)
    requires Local(w) && ReadRejectContent(w, strict, content).Ok?
    ensures var c := ReadRejectContent(w, strict, content).value;
            && 3 <= c.messageAt <= c.dataAt <= |content|
            && w.readOctets(content[3..]).Ok? && w.readOctets(content[3..]).value.value == c.triggeredBy
            && content[c.messageAt..] == w.readOctets(content[3..]).value.rest
            && w.readOctets(content[c.messageAt..]).Ok?
            && w.readOctets(content[c.messageAt..]).value.value == c.message
            && content[c.dataAt..] == w.readOctets(content[c.messageAt..]).value.rest
            && w.readOctets(content[c.dataAt..]).Ok? && w.readOctets(content[c.dataAt..]).value.value == c.data
  {
    var triggeredBy := w.readOctets(content[3..]).value;
    RestOf(w, content[3..]);
    assert content[|content| - |triggeredBy.rest|..] == triggeredBy.rest;
    RestOf(w, triggeredBy.rest);
    var message := w.readOctets(triggeredBy.rest).value;
    assert content[|content| - |message.rest|..] == message.rest;
  }

  /** Outside strict mode, bytes behind the data are ignored. */
  lemma {:induction false} RejectTrailingIgnored(w: Wire, c: Bytes, extra: Bytes)
    requires Local(w) && ReadRejectContent(w, false, c).Ok?
    ensures ReadRejectContent(w, false, c + extra) == ReadRejectContent(w, false, c)
  {
    var triggeredBy := w.readOctets(c[3..]).value;
    var message := w.readOctets(triggeredBy.rest).value;
    assert (c + extra)[3..] == c[3..] + extra && (c + extra)[..3] == c[..3];
    RestReads(w, c[3..], extra);
    RestReads(w, triggeredBy.rest, extra);
    RestReads(w, message.rest, extra);
  }

  /** A code with a byte beyond 7-bit ASCII is refused. */
  lemma {:induction false} CodeIsAscii(w: Wire, strict: bool, c: Bytes)
    requires |c| >= 6
    ensures ReadRejectContent(w, strict, c).Ok? ==> c[0] < 0x80 && c[1] < 0x80 && c[2] < 0x80
    ensures c[0] >= 0x80 || c[1] >= 0x80 || c[2] >= 0x80 ==> ReadRejectContent(w, strict, c) == Err(InvalidErrorCode)
  {
    assert c[..3][0] == c[0] && c[..3][1] == c[1] && c[..3][2] == c[2];
  }

  /** The accessors of a parsed Reject look into its content. */
  lemma {:induction false} RejectIsView(w: Wire, strict: bool, buffer: Bytes)
    requires Local(w) && ParsedReject(w, strict, buffer).Ok?
    ensures var p := ParsedReject(w, strict, buffer).value;
            var c := ReadRejectContent(w, strict, ReadEnvelope(w, strict, 14, buffer).value.content).value;
            && TriggeredByOf(w, p) == Some(c.triggeredBy)
            && PeekAt(w, buffer, p.messageOffset) == Ok(c.message) && PeekAt(w, buffer, p.dataOffset) == Ok(c.data)
  {
    var e := ReadEnvelope(w, strict, 14, buffer).value;
    var c := ReadRejectContent(w, strict, e.content).value;
    EnvelopeIsView(w, strict, 14, buffer, e.content);
    RejectParts(w, strict, e.content);
    PeekContent(w, buffer, e.offset, e.content, 3);
    PeekContent(w, buffer, e.offset, e.content, c.messageAt);
    PeekContent(w, buffer, e.offset, e.content, c.dataAt);
  }

  /** In strict mode a parsed Reject is what its own fields build. */
  lemma {:induction false} StrictRejectRebuilt(w: Wire, buffer: Bytes)
    requires CanonicalWire(w) && LengthFirst(w) && ParsedReject(w, true, buffer).Ok?
    ensures var p := ParsedReject(w, true, buffer).value;
            var c := ReadRejectContent(w, true, ReadEnvelope(w, true, 14, buffer).value.content).value;
            RejectBuilder(p.code, c.message, Some(c.triggeredBy), c.data).Build(w) == p
  {
    var e := ReadEnvelope(w, true, 14, buffer).value;
    var c := ReadRejectContent(w, true, e.content).value;
    StrictRejectContentIsCanonical(w, e.content);
    RejectLayout(w, RejectBuilder(c.code, c.message, Some(c.triggeredBy), c.data));
    StrictEnvelope(w, 14, buffer);
    StrictRejectOffsets(w, e.content);
    assert PutAt(w, e.content);
  }

  lemma {:induction false} StrictRejectOffsets(w: Wire, content: Bytes)
    requires CanonicalWire(w) && LengthFirst(w) && ReadRejectContent(w, true, content).Ok?
    ensures var c := ReadRejectContent(w, true, content).value;
            && c.messageAt == 3 + w.predict(|c.triggeredBy|) && c.dataAt == c.messageAt + w.predict(|c.message|)
  {
    var c := ReadRejectContent(w, true, content).value;
    var triggeredBy := w.readOctets(content[3..]).value;
    assert PutAt(w, c.triggeredBy) && PutAt(w, c.message);
    assert content[3..] == w.putOctets(c.triggeredBy) + triggeredBy.rest;
    assert triggeredBy.rest == w.putOctets(c.message) + w.readOctets(triggeredBy.rest).value.rest;
  }

  /** In strict mode a parsed Reject is what its own accessors build. */
  lemma {:induction false} StrictRejectIsCanonical(w: Wire, buffer: Bytes)
    requires CanonicalWire(w) && LengthFirst(w) && Local(w) && ParsedReject(w, true, buffer).Ok?
    ensures var p := ParsedReject(w, true, buffer).value;
            var message, data := PeekAt(w, buffer, p.messageOffset), PeekAt(w, buffer, p.dataOffset);
            && message.Ok? && data.Ok?
            && RejectBuilder(p.code, message.value, TriggeredByOf(w, p), data.value).Build(w) == p
  {
    RejectIsView(w, true, buffer);
    StrictRejectRebuilt(w, buffer);
  }

  lemma {:induction false} StrictRejectContentIsCanonical(w: Wire, content: Bytes)
    requires CanonicalWire(w) && ReadRejectContent(w, true, content).Ok?
    ensures var c := ReadRejectContent(w, true, content).value;
            var b := RejectBuilder(c.code, c.message, Some(c.triggeredBy), c.data);
            b.Typed() && content == b.Content(w)
  {
    var triggeredBy := w.readOctets(content[3..]).value;
    var message := w.readOctets(triggeredBy.rest).value;
    var data := w.readOctets(message.rest).value;
    assert content == content[..3] + content[3..];
    assert message.rest == w.putOctets(data.value) + [];
    assert triggeredBy.rest == w.putOctets(message.value) + message.rest;
    assert content[3..] == w.putOctets(triggeredBy.value) + triggeredBy.rest;
  }
}
