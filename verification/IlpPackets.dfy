/** ILP packets kept as a buffer with views into it, Interledger RFC 0027 (interledger-packet/src/packet.rs). */
module IlpPackets {
  import opened Basics
  import opened Oer
  import opened Texts

  /** The room for a date and time, down to the millisecond. */
  type Stamp = s: Bytes | |s| == 17 witness seq(17, _ => 48)

  /** A point in time: its formatted form, of any length, and what lies below a millisecond. */
  datatype Time = Time(stamp: Bytes, subMillis: nat)

  /** The calendar library: the time that 17 digits stand for, if any, written in its normal form.
      Some digits are read leniently and have another normal form (a 60th second). */
  type Calendar = Stamp -> Option<Stamp>

  predicate Digits(s: Stamp) {
    forall i :: 0 <= i < 17 ==> Digit(s[i])
  }

  /** The format of a time in a year of four digits, which reads as that time. */
  predicate ValidStamp(calendar: Calendar, s: Bytes) {
    |s| == 17 && Digits(s) && calendar(s) == Some(s)
  }

  /** The format of any time: a year beyond four digits is written with a sign, and takes more room. */
  predicate Formatted(calendar: Calendar, s: Bytes) {
    ValidStamp(calendar, s) || (|s| > 17 && !Digit(s[0]))
  }

  /** Leniently any date is read, strictly only one in normal form. */
  function ReadStamp(strict: bool, calendar: Calendar, s: Stamp): (r: Result<Stamp, CodecError>) {
    if !Digits(s) then Err(InvalidTimestamp)
    else match calendar(s)
      case None => Err(InvalidTimestamp)
      case Some(normal) => if strict && normal != s then Err(InvalidTimestamp) else Ok(normal)
  }

  // ---- The envelope ----

  datatype Envelope = Envelope(offset: nat, content: Bytes)

  function ReadEnvelope(w: Wire, strict: bool, packetType: byte, buffer: Bytes): (r: Result<Envelope, CodecError>) {
    if |buffer| < 1 then Err(UnexpectedEof)
    else if buffer[0] != packetType then Err(UnexpectedPacketType)
    else
      var content :- w.readOctets(buffer[1..]);
      if strict && content.rest != [] then Err(TrailingBytes)
      else Ok(Envelope(Max(|buffer| - |content.rest| - |content.value|, 0), content.value))
  }

  /** The content lies in the buffer at its offset, and replacing it by other content of that length
      keeps the envelope. */
  lemma {:induction false} EnvelopeIsView(w: Wire, strict: bool, packetType: byte, buffer: Bytes, content: Bytes)
    requires Local(w) && ReadEnvelope(w, strict, packetType, buffer).Ok?
    requires |content| == |ReadEnvelope(w, strict, packetType, buffer).value.content|
    ensures var e := ReadEnvelope(w, strict, packetType, buffer).value;
            && e.offset + |e.content| <= |buffer| && buffer[e.offset..e.offset + |e.content|] == e.content
            && ReadEnvelope(w, strict, packetType, buffer[..e.offset] + content + buffer[e.offset + |content|..])
               == Ok(Envelope(e.offset, content))
  {
    var e := ReadEnvelope(w, strict, packetType, buffer).value;
    var inner := buffer[1..];
    var k := LengthOf(w, inner);
    var rest := w.readOctets(inner).value.rest;
    assert SplitAt(w, inner) && LocalAt(w, inner, content, rest);
    assert inner == inner[..k] + e.content + rest && e.offset == 1 + k;
    assert buffer == [buffer[0]] + inner;
    var buffer' := buffer[..e.offset] + content + buffer[e.offset + |content|..];
    assert buffer[e.offset + |content|..] == rest;
    assert buffer'[1..] == inner[..k] + content + rest;
  }

  // ---- Prepare ----

  datatype Prepare = Prepare(
    buffer: Bytes, contentOffset: nat, destination: Text, amount: nat, expiresAt: Time, dataOffset: nat)

  datatype PrepareContent = PrepareContent(
    amount: nat, stamp: Stamp, condition: Bytes, destination: Text, dataAt: nat, data: Bytes)

  /** The fields of a Prepare's content, and where in it the data begins. */
  function ReadPrepareContent(w: Wire, strict: bool, calendar: Calendar, c: Bytes)
    : (r: Result<PrepareContent, CodecError>)
  {
    if |c| < 62 then Err(UnexpectedEof)
    else
      var stamp :- ReadStamp(strict, calendar, c[8..25]);
      var destination :- ReadAddress(w, c[57..]);
      var data :- w.readOctets(destination.rest);
      if strict && data.rest != [] then Err(TrailingBytes)
      else
        var dataAt := Max(|c| - |destination.rest|, 0);
        Ok(PrepareContent(Uint(c[..8]), stamp, c[25..57], destination.value, dataAt, data.value))
  }

  function ParsedPrepare(w: Wire, strict: bool, calendar: Calendar, buffer: Bytes): (r: Result<Prepare, CodecError>) {
    var e :- ReadEnvelope(w, strict, 12, buffer);
    var c :- ReadPrepareContent(w, strict, calendar, e.content);
    Ok(Prepare(buffer, e.offset, c.destination, c.amount, Time(c.stamp, 0), e.offset + c.dataAt))
  }

  /** `execution_condition` and `data` look into the buffer. */
  function ConditionOf(p: Prepare): (c: Bytes) {
    var begin := Min(p.contentOffset + 25, |p.buffer|);
    p.buffer[begin..Min(begin + 32, |p.buffer|)]
  }

  function DataOf(w: Wire, p: Prepare): (r: Result<Bytes, CodecError>) {
    var data :- w.readOctets(p.buffer[Min(p.dataOffset, |p.buffer|)..]);
    Ok(data.value)
  }

  /** The struct and the buffer tell the same story, up to the millisecond. */
  ghost predicate Consistent(w: Wire, strict: bool, calendar: Calendar, p: Prepare) {
    ParsedPrepare(w, strict, calendar, p.buffer) == Ok(p.(expiresAt := Time(p.expiresAt.stamp, 0)))
  }

  // ---- Overwriting fields in place ----

  function Overwritten(buffer: Bytes, at: nat, bytes: Bytes): (b: Bytes)
    requires at + |bytes| <= |buffer|
  {
    buffer[..at] + bytes + buffer[at + |bytes|..]
  }

  datatype Edit = SetAmount(amount: nat) | SetExpiresAt(expiresAt: Time)

  ghost predicate ValidEdit(calendar: Calendar, e: Edit) {
    match e
    case SetAmount(amount) => amount <= U64_MAX
    case SetExpiresAt(t) => ValidStamp(calendar, t.stamp)
  }

  /** What of a formatted time fits its room; writing more panics after that. */
  function Fitting(s: Bytes): (f: Bytes)
    ensures |f| <= 17 && (|s| <= 17 ==> f == s)
  {
    s[..Min(|s|, 17)]
  }

  function Edited(p: Prepare, e: Edit): (p': Prepare)
    requires p.contentOffset + 25 <= |p.buffer|
  {
    match e
    case SetAmount(amount) =>
      p.(amount := amount, buffer := Overwritten(p.buffer, p.contentOffset, UintBytes(amount, 8)))
    case SetExpiresAt(t) =>
      p.(expiresAt := t, buffer := Overwritten(p.buffer, p.contentOffset + 8, Fitting(t.stamp)))
  }

  /** The content after an edit. */
  function EditedContent(c: Bytes, e: Edit): (c': Bytes)
    requires |c| >= 25
  {
    match e
    case SetAmount(amount) => Overwritten(c, 0, UintBytes(amount, 8))
    case SetExpiresAt(t) => Overwritten(c, 8, Fitting(t.stamp))
  }

  lemma {:induction false} EditedContentReads(w: Wire, strict: bool, calendar: Calendar, c: Bytes, e: Edit)
    requires ValidEdit(calendar, e) && ReadPrepareContent(w, strict, calendar, c).Ok?
    ensures var before := ReadPrepareContent(w, strict, calendar, c).value;
            ReadPrepareContent(w, strict, calendar, EditedContent(c, e)) ==
            Ok(match e
               case SetAmount(amount) => before.(amount := amount)
               case SetExpiresAt(t) => before.(stamp := t.stamp))
  {
    EditedSlices(c, e);
    match e
    case SetAmount(amount) =>
      EightBytes();
      UintOfBytes(amount, 8);
    case SetExpiresAt(t) =>
  }

  lemma {:induction false} OverwrittenSlice(b: Bytes, at: nat, bytes: Bytes, from: nat, to: nat)
    requires at + |bytes| <= |b| && from <= to <= |b| && (to <= at || at + |bytes| <= from)
    ensures Overwritten(b, at, bytes)[from..to] == b[from..to]
  {
    var b' := Overwritten(b, at, bytes);
    forall i | from <= i < to ensures b'[i] == b[i] {
    }
  }

  lemma {:induction false} EditedSlices(c: Bytes, e: Edit)
    requires |c| >= 57
    ensures var c' := EditedContent(c, e);
            && |c'| == |c| && c'[25..57] == c[25..57] && c'[57..] == c[57..]
            && c'[..8] == (if e.SetAmount? then UintBytes(e.amount, 8) else c[..8])
            && (e.SetAmount? ==> c'[8..25] == c[8..25])
            && (e.SetExpiresAt? && |e.expiresAt.stamp| >= 17 ==> c'[8..25] == e.expiresAt.stamp[..17])
  {
    var at := if e.SetAmount? then 0 else 8;
    var bytes := if e.SetAmount? then UintBytes(e.amount, 8) else Fitting(e.expiresAt.stamp);
    var c' := Overwritten(c, at, bytes);
    OverwrittenSlice(c, at, bytes, 25, 57);
    OverwrittenSlice(c, at, bytes, 57, |c|);
    assert c'[at..at + |bytes|] == bytes && c'[57..|c|] == c'[57..] && c[57..|c|] == c[57..];
    if e.SetAmount? {
      OverwrittenSlice(c, at, bytes, 8, 25);
    } else {
      OverwrittenSlice(c, at, bytes, 0, 8);
    }
  }

  /** Overwriting inside a part of the buffer is overwriting that part. */
  lemma {:induction false} OverwrittenInside(buffer: Bytes, o: nat, n: nat, at: nat, bytes: Bytes)
    requires o + n <= |buffer| && at + |bytes| <= n
    ensures Overwritten(buffer, o + at, bytes) ==
            buffer[..o] + Overwritten(buffer[o..o + n], at, bytes) + buffer[o + n..]
  {
    var c := buffer[o..o + n];
    assert buffer[..o + at] == buffer[..o] + c[..at];
    assert buffer[o + at + |bytes|..] == c[at + |bytes|..] + buffer[o + n..];
  }

  /** Overwriting inside the content of an envelope. */
  lemma {:induction false} EnvelopeOverwritten(
      w: Wire, strict: bool, packetType: byte, buffer: Bytes, env: Envelope, at: nat, bytes: Bytes)
    requires Local(w) && ReadEnvelope(w, strict, packetType, buffer) == Ok(env) && at + |bytes| <= |env.content|
    ensures env.offset + |env.content| <= |buffer|
    ensures ReadEnvelope(w, strict, packetType, Overwritten(buffer, env.offset + at, bytes)) ==
            Ok(Envelope(env.offset, Overwritten(env.content, at, bytes)))
  {
    var o, n, c := env.offset, |env.content|, Overwritten(env.content, at, bytes);
    EnvelopeIsView(w, strict, packetType, buffer, c);
    OverwrittenInside(buffer, o, n, at, bytes);
  }

  lemma {:induction false} EditedEnvelope(w: Wire, strict: bool, p: Prepare, e: Edit)
    requires Local(w) && ReadEnvelope(w, strict, 12, p.buffer).Ok?
    requires var env := ReadEnvelope(w, strict, 12, p.buffer).value;
             env.offset == p.contentOffset && |env.content| >= 62
    ensures p.contentOffset + 57 <= |p.buffer|
    ensures var env := ReadEnvelope(w, strict, 12, p.buffer).value;
            ReadEnvelope(w, strict, 12, Edited(p, e).buffer) == Ok(env.(content := EditedContent(env.content, e)))
  {
    var env := ReadEnvelope(w, strict, 12, p.buffer).value;
    match e
    case SetAmount(amount) => EnvelopeOverwritten(w, strict, 12, p.buffer, env, 0, UintBytes(amount, 8));
    case SetExpiresAt(t) => EnvelopeOverwritten(w, strict, 12, p.buffer, env, 8, Fitting(t.stamp));
  }

  lemma {:induction false} ParsedFrom(w: Wire, strict: bool, calendar: Calendar, buffer: Bytes, e: Envelope,
      c: PrepareContent)
    requires ReadEnvelope(w, strict, 12, buffer) == Ok(e)
    requires ReadPrepareContent(w, strict, calendar, e.content) == Ok(c)
    ensures ParsedPrepare(w, strict, calendar, buffer) ==
            Ok(Prepare(buffer, e.offset, c.destination, c.amount, Time(c.stamp, 0), e.offset + c.dataAt))
  {
  }

  lemma {:induction false} EditParses(w: Wire, strict: bool, calendar: Calendar, p: Prepare, e: Edit)
    requires Local(w) && Consistent(w, strict, calendar, p) && ValidEdit(calendar, e)
    ensures p.contentOffset + 57 <= |p.buffer|
    ensures Consistent(w, strict, calendar, Edited(p, e))
  {
    var env := ReadEnvelope(w, strict, 12, p.buffer).value;
    var c := ReadPrepareContent(w, strict, calendar, env.content).value;
    assert |env.content| >= 62;
    EditedEnvelope(w, strict, p, e);
    EditedContentReads(w, strict, calendar, env.content, e);
    var c' := match e case SetAmount(amount) => c.(amount := amount) case SetExpiresAt(t) => c.(stamp := t.stamp);
    ParsedFrom(w, strict, calendar, Edited(p, e).buffer, env.(content := EditedContent(env.content, e)), c');
  }

  lemma {:induction false} EditFrame(p: Prepare, e: Edit)
    requires p.contentOffset + 25 <= |p.buffer|
    ensures |Edited(p, e).buffer| == |p.buffer|
    ensures Edited(p, e).buffer[p.contentOffset + 25..] == p.buffer[p.contentOffset + 25..]
  {
  }

  lemma {:induction false} TailSlices(a: Bytes, b: Bytes, at: nat, from: nat, to: nat)
    requires |a| == |b| && at <= from <= to <= |a| && a[at..] == b[at..]
    ensures a[from..to] == b[from..to]
  {
    forall i | from <= i < to ensures a[i] == b[i] {
      assert a[at..][i - at] == b[at..][i - at];
    }
  }

  /** One overwrite keeps struct and buffer consistent, and leaves the other fields alone. */
  lemma {:induction false} EditKeepsConsistent(w: Wire, strict: bool, calendar: Calendar, p: Prepare, e: Edit)
    requires Local(w) && Consistent(w, strict, calendar, p) && ValidEdit(calendar, e)
    ensures p.contentOffset + 57 <= |p.buffer|
    ensures Consistent(w, strict, calendar, Edited(p, e)) && |Edited(p, e).buffer| == |p.buffer|
    ensures ConditionOf(Edited(p, e)) == ConditionOf(p)
    ensures DataOf(w, Edited(p, e)) == DataOf(w, p)
  {
    EditParses(w, strict, calendar, p, e);
    EditFrame(p, e);
    DataIsView(w, strict, calendar, p);
    var o := p.contentOffset + 25;
    TailSlices(p.buffer, Edited(p, e).buffer, o, o, o + 32);
    TailSlices(p.buffer, Edited(p, e).buffer, o, p.dataOffset, |p.buffer|);
    assert p.buffer[p.dataOffset..] == Edited(p, e).buffer[p.dataOffset..];
  }

  /** What an edit may be given. */
  ghost predicate FormattedEdit(calendar: Calendar, e: Edit) {
    match e
    case SetAmount(amount) => amount <= U64_MAX
    case SetExpiresAt(t) => Formatted(calendar, t.stamp)
  }

  /** An overwrite keeps struct and buffer consistent, if and only if it does not panic. */
  lemma {:induction false} EditConsistentIff(w: Wire, strict: bool, calendar: Calendar, p: Prepare, e: Edit)
    requires Local(w) && Consistent(w, strict, calendar, p) && FormattedEdit(calendar, e)
    ensures p.contentOffset + 57 <= |p.buffer|
    ensures Consistent(w, strict, calendar, Edited(p, e)) <==> e.SetAmount? || |e.expiresAt.stamp| == 17
  {
    if ValidEdit(calendar, e) {
      EditKeepsConsistent(w, strict, calendar, p, e);
    } else {
      var env := ReadEnvelope(w, strict, 12, p.buffer).value;
      EditedEnvelope(w, strict, p, e);
      EditedSlices(env.content, e);
      assert EditedContent(env.content, e)[8..25][0] == e.expiresAt.stamp[0];
      assert !Digits(EditedContent(env.content, e)[8..25]);
    }
  }

  /** The data is read where the content says it begins, whatever follows the content. */
  lemma {:induction false} DataReads(w: Wire, strict: bool, calendar: Calendar, c: Bytes, outer: Bytes)
    requires Local(w) && ReadPrepareContent(w, strict, calendar, c).Ok?
    ensures var v := ReadPrepareContent(w, strict, calendar, c).value;
            && 57 <= v.dataAt <= |c| && w.readOctets(c[v.dataAt..] + outer).Ok?
            && w.readOctets(c[v.dataAt..] + outer).value.value == v.data
  {
    var destination := w.readOctets(c[57..]).value;
    var inner := destination.rest;
    assert SplitAt(w, c[57..]);
    assert c[|c| - |inner|..] == inner;
    RestReads(w, inner, outer);
  }

  lemma {:induction false} RestReads(w: Wire, buf: Bytes, outer: Bytes)
    requires Local(w) && w.readOctets(buf).Ok?
    ensures var v := w.readOctets(buf).value; w.readOctets(buf + outer) == Ok(Parsed(v.value, v.rest + outer))
  {
    var v := w.readOctets(buf).value;
    assert SplitAt(w, buf) && LocalAt(w, buf, v.value, v.rest + outer);
    assert buf + outer == buf[..LengthOf(w, buf)] + v.value + (v.rest + outer);
  }

  /** Outside strict mode, bytes behind the data are ignored. */
  lemma {:induction false} TrailingIgnored(w: Wire, calendar: Calendar, c: Bytes, extra: Bytes)
    requires Local(w) && ReadPrepareContent(w, false, calendar, c).Ok?
    ensures ReadPrepareContent(w, false, calendar, c + extra) == ReadPrepareContent(w, false, calendar, c)
  {
    var destination := w.readOctets(c[57..]).value;
    assert (c + extra)[57..] == c[57..] + extra;
    RestReads(w, c[57..], extra);
    RestReads(w, destination.rest, extra);
    assert (c + extra)[8..25] == c[8..25] && (c + extra)[..8] == c[..8] && (c + extra)[25..57] == c[25..57];
  }

  /** The data of a consistent packet is in its buffer, behind the fields that can be overwritten. */
  lemma {:induction false} DataIsView(w: Wire, strict: bool, calendar: Calendar, p: Prepare)
    requires Local(w) && Consistent(w, strict, calendar, p)
    ensures p.contentOffset + 57 <= p.dataOffset <= |p.buffer|
    ensures var e := ReadEnvelope(w, strict, 12, p.buffer).value;
            DataOf(w, p) == Ok(ReadPrepareContent(w, strict, calendar, e.content).value.data)
  {
    var e := ReadEnvelope(w, strict, 12, p.buffer).value;
    EnvelopeIsView(w, strict, 12, p.buffer, e.content);
    var outer := p.buffer[e.offset + |e.content|..];
    DataReads(w, strict, calendar, e.content, outer);
    var at := ReadPrepareContent(w, strict, calendar, e.content).value.dataAt;
    assert p.buffer[e.offset + at..] == e.content[at..] + outer;
  }

  function EditedAll(p: Prepare, edits: seq<Edit>): (p': Prepare)
    requires p.contentOffset + 25 <= |p.buffer|
    ensures |p'.buffer| == |p.buffer| && p'.contentOffset == p.contentOffset
  {
    if edits == [] then p else Edited(EditedAll(p, edits[..|edits| - 1]), edits[|edits| - 1])
  }

  /** The amount that was set last, if any was. */
  function LastAmount(amount: nat, edits: seq<Edit>): (n: nat) {
    if edits == [] then amount
    else
      match edits[|edits| - 1]
      case SetAmount(n) => n
      case SetExpiresAt(_) => LastAmount(amount, edits[..|edits| - 1])
  }

  function LastExpiry(expiresAt: Time, edits: seq<Edit>): (t: Time) {
    if edits == [] then expiresAt
    else
      match edits[|edits| - 1]
      case SetAmount(_) => LastExpiry(expiresAt, edits[..|edits| - 1])
      case SetExpiresAt(t) => t
  }

  /** Any sequence of `set_amount` and `set_expires_at` keeps the buffer a valid packet that agrees with
      the struct, with the amount and the expiry that were set last, and changes neither destination, condition,
      data nor offsets. */
  lemma {:induction false} EditsKeepConsistent(w: Wire, strict: bool, calendar: Calendar, p: Prepare, edits: seq<Edit>)
    requires Local(w) && Consistent(w, strict, calendar, p)
    requires forall e :: e in edits ==> ValidEdit(calendar, e)
    ensures p.contentOffset + 25 <= |p.buffer|
    ensures var p' := EditedAll(p, edits);
            && Consistent(w, strict, calendar, p')
            && p'.amount == LastAmount(p.amount, edits) && p'.expiresAt == LastExpiry(p.expiresAt, edits)
            && p'.destination == p.destination && p'.contentOffset == p.contentOffset && p'.dataOffset == p.dataOffset
            && ConditionOf(p') == ConditionOf(p)
            && DataOf(w, p').Ok? && DataOf(w, p') == DataOf(w, p)
  {
    DataIsView(w, strict, calendar, p);
    if edits != [] {
      EditsKeepConsistent(w, strict, calendar, p, edits[..|edits| - 1]);
      EditKeepsConsistent(w, strict, calendar, EditedAll(p, edits[..|edits| - 1]), edits[|edits| - 1]);
    }
  }

  // ---- Building ----

  /** A packet with its envelope, the length written before the content is there. */
  function Framed(w: Wire, packetType: byte, contentLength: nat, content: Bytes): (b: Bytes) {
    [packetType] + w.putLength(contentLength) + content
  }

  lemma {:induction false} EnvelopeRoundTrip(w: Wire, strict: bool, packetType: byte, content: Bytes)
    requires Lawful(w) && LengthFirst(w) && |content| <= U64_MAX
    ensures var buffer := Framed(w, packetType, |content|, content);
            && |buffer| == 1 + w.predict(|content|)
            && ReadEnvelope(w, strict, packetType, buffer) == Ok(Envelope(1 + |w.putLength(|content|)|, content))
  {
    var buffer := Framed(w, packetType, |content|, content);
    assert PutAt(w, content);
    assert buffer[1..] == w.putOctets(content) + [];
  }

  datatype PrepareBuilder = PrepareBuilder(
    amount: nat, expiresAt: Time, condition: Bytes, destination: Text, data: Bytes)
  {
    /** What the Rust types guarantee of the fields. */
    ghost predicate Typed(calendar: Calendar) {
      && amount <= U64_MAX && Formatted(calendar, expiresAt.stamp) && |condition| == 32
      && ValidAddress(destination) && |data| <= U64_MAX
    }

    function ContentLength(w: Wire): (n: nat) {
      57 + w.predict(|destination|) + w.predict(|data|)
    }

    function Content(w: Wire): (c: Bytes) {
      UintBytes(amount, 8) + expiresAt.stamp + condition + w.putOctets(destination) + w.putOctets(data)
    }

    function Build(w: Wire): (p: Prepare) {
      var length := ContentLength(w);
      Prepare(Framed(w, 12, length, Content(w)), 1 + |w.putLength(length)|, destination, amount, expiresAt,
              Max(1 + w.predict(length) - w.predict(|data|), 0))
    }
  }

  /** `build` appends field after field to the buffer, and takes the offsets from the predicted sizes. */
  method BuildPrepare(w: Wire, b: PrepareBuilder) returns (p: Prepare)
    requires LengthFirst(w)
    ensures p == b.Build(w)
  {
    var dataSize := w.predict(|b.data|);
    var contentLength := 57 + w.predict(|b.destination|) + dataSize;
    var bufferSize := 1 + w.predict(contentLength);
    var buffer := [12];
    buffer := buffer + w.putLength(contentLength);
    var contentOffset := |buffer|;
    buffer := buffer + UintBytes(b.amount, 8);
    buffer := buffer + b.expiresAt.stamp;
    buffer := buffer + b.condition;
    buffer := buffer + w.putOctets(b.destination);
    buffer := buffer + w.putOctets(b.data);
    PredictAtLeast(w, contentLength);
    p := Prepare(buffer, contentOffset, b.destination, b.amount, b.expiresAt, bufferSize - dataSize);
  }

  lemma {:induction false} PredictAtLeast(w: Wire, n: nat)
    requires LengthFirst(w)
    ensures w.predict(n) >= n
  {
    var s: Bytes := seq(n, _ => 0);
    assert PutAt(w, s);
  }

  lemma {:induction false} PredictedSize(w: Wire, b: PrepareBuilder)
    requires LengthFirst(w) && |b.condition| == 32 && |b.expiresAt.stamp| == 17
    ensures |b.Content(w)| == b.ContentLength(w) && |b.Build(w).buffer| == 1 + w.predict(b.ContentLength(w))
    ensures w.predict(|b.data|) <= w.predict(b.ContentLength(w))
  {
    assert PutAt(w, b.destination) && PutAt(w, b.data) && PutAt(w, b.Content(w));
  }

  lemma {:induction false} PrepareContentRoundTrip(w: Wire, strict: bool, calendar: Calendar, b: PrepareBuilder)
    requires Lawful(w) && LengthFirst(w) && b.Typed(calendar) && |b.expiresAt.stamp| == 17
    ensures |b.Content(w)| == b.ContentLength(w)
    ensures ReadPrepareContent(w, strict, calendar, b.Content(w)) ==
            Ok(PrepareContent(b.amount, b.expiresAt.stamp, b.condition, b.destination,
              b.ContentLength(w) - w.predict(|b.data|), b.data))
  {
    var c := b.Content(w);
    EightBytes();
    UintOfBytes(b.amount, 8);
    AddressLength(b.destination);
    assert w.putOctets(b.data) + [] == w.putOctets(b.data);
    assert PutAt(w, b.destination) && PutAt(w, b.data);
    assert c[..8] == UintBytes(b.amount, 8) && c[8..25] == b.expiresAt.stamp && c[25..57] == b.condition;
    assert c[57..] == w.putOctets(b.destination) + w.putOctets(b.data);
  }

  /** A built Prepare takes the predicted size and its buffer parses, with only the rest of the millisecond
      lost, exactly when the year of the expiry has four digits, and to the same struct exactly when that rest
      is zero as well. */
  lemma {:induction false} PrepareRoundTrip(w: Wire, strict: bool, calendar: Calendar, b: PrepareBuilder)
    requires Lawful(w) && LengthFirst(w) && b.Typed(calendar) && b.ContentLength(w) <= U64_MAX
    ensures |b.Build(w).buffer| == 1 + w.predict(b.ContentLength(w)) + |b.expiresAt.stamp| - 17
    ensures Consistent(w, strict, calendar, b.Build(w)) <==> |b.expiresAt.stamp| == 17
    ensures ParsedPrepare(w, strict, calendar, b.Build(w).buffer).Ok? <==> |b.expiresAt.stamp| == 17
    ensures ParsedPrepare(w, strict, calendar, b.Build(w).buffer) == Ok(b.Build(w)) <==>
            |b.expiresAt.stamp| == 17 && b.expiresAt.subMillis == 0
  {
    if |b.expiresAt.stamp| == 17 {
      FittingRoundTrip(w, strict, calendar, b);
    } else {
      TooLongFails(w, strict, calendar, b);
    }
  }

  /** A content that is longer than announced is cut off, or refused. */
  lemma {:induction false} LongEnvelope(w: Wire, strict: bool, packetType: byte, n: nat, content: Bytes)
    requires Lawful(w) && LengthFirst(w) && n < |content| && n <= U64_MAX
    ensures var e := ReadEnvelope(w, strict, packetType, Framed(w, packetType, n, content));
            if strict then e == Err(TrailingBytes) else e == Ok(Envelope(1 + |w.putLength(n)|, content[..n]))
  {
    var buffer := Framed(w, packetType, n, content);
    assert PutAt(w, content[..n]);
    assert content == content[..n] + content[n..];
    assert buffer[1..] == w.putOctets(content[..n]) + content[n..];
  }

  lemma {:induction false} TooLongFails(w: Wire, strict: bool, calendar: Calendar, b: PrepareBuilder)
    requires Lawful(w) && LengthFirst(w) && b.Typed(calendar) && b.ContentLength(w) <= U64_MAX
    requires |b.expiresAt.stamp| > 17
    ensures |b.Build(w).buffer| == 1 + w.predict(b.ContentLength(w)) + |b.expiresAt.stamp| - 17
    ensures ParsedPrepare(w, strict, calendar, b.Build(w).buffer).Err?
  {
    var n, c := b.ContentLength(w), b.Content(w);
    AddressLength(b.destination);
    LongContent(w, b);
    LongEnvelope(w, strict, 12, n, c);
    assert PutAt(w, c[..n]);
    assert !Digit(c[..n][8..25][0]) && !Digits(c[..n][8..25]);
  }

  /** The expiry shifts everything behind it. */
  lemma {:induction false} LongContent(w: Wire, b: PrepareBuilder)
    requires Lawful(w) && LengthFirst(w) && |b.condition| == 32 && |b.expiresAt.stamp| > 17 && |b.destination| >= 3
    ensures var n, c := b.ContentLength(w), b.Content(w);
            && 62 <= n < |c| && |c| == n + |b.expiresAt.stamp| - 17
            && c[..n][8..25] == b.expiresAt.stamp[..17]
  {
    var n, c, stamp := b.ContentLength(w), b.Content(w), b.expiresAt.stamp;
    assert PutAt(w, b.destination) && PutAt(w, b.data);
    assert c[..n][8..25] == c[8..25] == stamp[..17];
  }

  lemma {:induction false} FittingRoundTrip(w: Wire, strict: bool, calendar: Calendar, b: PrepareBuilder)
    requires Lawful(w) && LengthFirst(w) && b.Typed(calendar) && b.ContentLength(w) <= U64_MAX
    requires |b.expiresAt.stamp| == 17
    ensures |b.Build(w).buffer| == 1 + w.predict(b.ContentLength(w))
    ensures Consistent(w, strict, calendar, b.Build(w))
  {
    var n := b.ContentLength(w);
    var c := b.Content(w);
    PrepareContentRoundTrip(w, strict, calendar, b);
    EnvelopeRoundTrip(w, strict, 12, c);
    assert PutAt(w, c);
    ParsedFrom(w, strict, calendar, b.Build(w).buffer, Envelope(1 + |w.putLength(n)|, c),
      PrepareContent(b.amount, b.expiresAt.stamp, b.condition, b.destination, n - w.predict(|b.data|), b.data));
  }

  /** The accessors of a built Prepare give the builder's fields. */
  lemma {:induction false} PrepareAccessors(w: Wire, calendar: Calendar, b: PrepareBuilder)
    requires Lawful(w) && LengthFirst(w) && b.Typed(calendar) && |b.expiresAt.stamp| == 17
    ensures ConditionOf(b.Build(w)) == b.condition && DataOf(w, b.Build(w)) == Ok(b.data)
  {
    var n := b.ContentLength(w);
    var c := b.Content(w);
    var p := b.Build(w);
    PrepareContentRoundTrip(w, false, calendar, b);
    assert PutAt(w, c);
    assert PutAt(w, b.data);
    assert p.buffer[p.contentOffset..] == c;
    assert c[25..57] == b.condition;
    assert p.buffer[p.dataOffset..] == w.putOctets(b.data) + [];
  }

  lemma {:induction false} StrictEnvelope(w: Wire, packetType: byte, buffer: Bytes)
    requires CanonicalWire(w) && LengthFirst(w) && ReadEnvelope(w, true, packetType, buffer).Ok?
    ensures var c := ReadEnvelope(w, true, packetType, buffer).value.content; buffer == Framed(w, packetType, |c|, c)
  {
    var c := ReadEnvelope(w, true, packetType, buffer).value.content;
    assert PutAt(w, c);
    assert buffer == [packetType] + buffer[1..] && buffer[1..] == w.putOctets(c) + [];
  }

  /** In strict mode a parsed Prepare is what its own fields build. */
  lemma {:induction false} StrictPrepareIsCanonical(w: Wire, calendar: Calendar, buffer: Bytes)
    requires CanonicalWire(w) && LengthFirst(w) && ParsedPrepare(w, true, calendar, buffer).Ok?
    ensures var p := ParsedPrepare(w, true, calendar, buffer).value;
            var c := ReadPrepareContent(w, true, calendar, ReadEnvelope(w, true, 12, buffer).value.content).value;
            PrepareBuilder(p.amount, p.expiresAt, c.condition, p.destination, c.data).Build(w).buffer == buffer
  {
    var e := ReadEnvelope(w, true, 12, buffer).value;
    var c := ReadPrepareContent(w, true, calendar, e.content).value;
    var b := PrepareBuilder(c.amount, Time(c.stamp, 0), c.condition, c.destination, c.data);
    StrictContentIsCanonical(w, calendar, e.content);
    StrictEnvelope(w, 12, buffer);
    PredictedSize(w, b);
  }

  /** The condition is where `execution_condition` looks. */
  lemma {:induction false} ConditionIsView(w: Wire, strict: bool, calendar: Calendar, p: Prepare)
    requires Local(w) && Consistent(w, strict, calendar, p)
    ensures var e := ReadEnvelope(w, strict, 12, p.buffer).value;
            ConditionOf(p) == ReadPrepareContent(w, strict, calendar, e.content).value.condition
  {
    var e := ReadEnvelope(w, strict, 12, p.buffer).value;
    EnvelopeIsView(w, strict, 12, p.buffer, e.content);
    SliceOfSlice(p.buffer, e.offset, |e.content|, 25, 57);
  }

  /** In strict mode a parsed Prepare is what its own accessors build. */
  lemma {:induction false} StrictPrepareViews(w: Wire, calendar: Calendar, buffer: Bytes)
    requires CanonicalWire(w) && LengthFirst(w) && Local(w) && ParsedPrepare(w, true, calendar, buffer).Ok?
    ensures var p := ParsedPrepare(w, true, calendar, buffer).value;
            && DataOf(w, p).Ok?
            && PrepareBuilder(p.amount, p.expiresAt, ConditionOf(p), p.destination, DataOf(w, p).value).Build(w) == p
  {
    var p := ParsedPrepare(w, true, calendar, buffer).value;
    StrictPrepareIsCanonical(w, calendar, buffer);
    ConditionIsView(w, true, calendar, p);
    DataIsView(w, true, calendar, p);
    StrictOffsets(w, calendar, buffer);
  }

  lemma {:induction false} StrictOffsets(w: Wire, calendar: Calendar, buffer: Bytes)
    requires CanonicalWire(w) && LengthFirst(w) && ParsedPrepare(w, true, calendar, buffer).Ok?
    ensures var p := ParsedPrepare(w, true, calendar, buffer).value;
            var c := ReadPrepareContent(w, true, calendar, ReadEnvelope(w, true, 12, buffer).value.content).value;
            var built := PrepareBuilder(p.amount, p.expiresAt, c.condition, p.destination, c.data).Build(w);
            built.contentOffset == p.contentOffset && built.dataOffset == p.dataOffset
  {
    var content := ReadEnvelope(w, true, 12, buffer).value.content;
    var c := ReadPrepareContent(w, true, calendar, content).value;
    var b := PrepareBuilder(c.amount, Time(c.stamp, 0), c.condition, c.destination, c.data);
    StrictEnvelope(w, 12, buffer);
    StrictContentIsCanonical(w, calendar, content);
    PredictedSize(w, b);
    var rest := w.readOctets(content[57..]).value.rest;
    assert rest == w.putOctets(c.data) + [] && PutAt(w, c.data) && PutAt(w, content);
  }

  lemma {:induction false} StrictContentIsCanonical(w: Wire, calendar: Calendar, content: Bytes)
    requires CanonicalWire(w) && ReadPrepareContent(w, true, calendar, content).Ok?
    ensures var c := ReadPrepareContent(w, true, calendar, content).value;
            && |c.condition| == 32
            && content == PrepareBuilder(c.amount, Time(c.stamp, 0), c.condition, c.destination, c.data).Content(w)
  {
    BytesOfUint(content[..8]);
    var destination := w.readOctets(content[57..]).value;
    var data := w.readOctets(destination.rest).value;
    assert content[57..] == w.putOctets(destination.value) + destination.rest;
    assert destination.rest == w.putOctets(data.value) + [];
    assert content == content[..8] + content[8..25] + content[25..57] + content[57..];
  }

  // ---- The packet object ----

  method Overwrite(buffer: array<byte>, at: nat, bytes: Bytes)
    requires at + |bytes| <= buffer.Length
    modifies buffer
    ensures buffer[..] == Overwritten(old(buffer[..]), at, bytes)
  {
    var i := 0;
    while i < |bytes|
      invariant 0 <= i <= |bytes|
      invariant forall k :: 0 <= k < i ==> buffer[at + k] == bytes[k]
      invariant forall k :: 0 <= k < buffer.Length && !(at <= k < at + i) ==> buffer[k] == old(buffer[k])
    {
      buffer[at + i] := bytes[i];
      i := i + 1;
    }
    forall k | at <= k < at + |bytes| ensures buffer[k] == bytes[k - at] {
      assert buffer[at + (k - at)] == bytes[k - at];
    }
  }

  class PreparePacket {
    const buffer: array<byte>
    const contentOffset: nat
    const destination: Text
    const dataOffset: nat
    var amount: nat
    var expiresAt: Time

    function View(): (p: Prepare)
      reads this, buffer
    {
      Prepare(buffer[..], contentOffset, destination, amount, expiresAt, dataOffset)
    }

    constructor (p: Prepare)
      ensures View() == p && fresh(buffer)
    {
      buffer := new byte[|p.buffer|](i requires 0 <= i < |p.buffer| => p.buffer[i]);
      contentOffset := p.contentOffset;
      destination := p.destination;
      dataOffset := p.dataOffset;
      amount := p.amount;
      expiresAt := p.expiresAt;
      new;
      assert buffer[..] == p.buffer;
    }

    method SetAmount(newAmount: nat)
      requires contentOffset + 25 <= buffer.Length && newAmount <= U64_MAX
      modifies this`amount, buffer
      ensures View() == Edited(old(View()), Edit.SetAmount(newAmount))
    {
      amount := newAmount;
      Overwrite(buffer, contentOffset, UintBytes(newAmount, 8));
    }

    /** Panics, after writing what fits, on a time that takes more room. */
    method SetExpiresAt(time: Time) returns (panicked: bool)
      requires contentOffset + 25 <= buffer.Length
      modifies this`expiresAt, buffer
      ensures View() == Edited(old(View()), Edit.SetExpiresAt(time))
      ensures panicked <==> |time.stamp| > 17
    {
      expiresAt := time;
      Overwrite(buffer, contentOffset + 8, Fitting(time.stamp));
      panicked := |time.stamp| > 17;
    }
  }
}
