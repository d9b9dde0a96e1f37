/** Bilateral Transfer Protocol packets, Interledger RFC 0023 (interledger-btp/src/packet.rs). */
module Btp {
  import opened Basics
  import opened Oer
  import opened Texts

  datatype ContentType = OctetStream | TextPlain | Unknown(code: byte)

  datatype ProtocolData = ProtocolData(name: Text, contentType: ContentType, data: Bytes)

  datatype Packet =
    | Message(requestId: nat, protocolData: seq<ProtocolData>)
    | Response(requestId: nat, protocolData: seq<ProtocolData>)
    | Error(requestId: nat, code: Text, name: Text, triggeredAt: Timestamp, data: Text, protocolData: seq<ProtocolData>)

  /** A time, as the length that it is to be written in, how it is written, and what lies below the last digit. */
  datatype Timestamp = Timestamp(length: nat, written: Bytes, rest: nat)

  function ContentTypeOf(code: byte): (c: ContentType) {
    if code == 0 then OctetStream else if code == 1 then TextPlain else Unknown(code)
  }

  function ContentCode(c: ContentType): (code: byte) {
    match c
    case OctetStream => 0
    case TextPlain => 1
    case Unknown(code) => code
  }

  function PacketTypeOf(p: Packet): (code: byte) {
    match p
    case Message(_, _) => 6
    case Response(_, _) => 1
    case Error(_, _, _, _, _, _) => 2
  }

  // ---- Protocol data ----

  function ReadProtocol(w: Wire, buf: Bytes): (r: Reading<ProtocolData>) {
    var name :- ReadText(w, buf);
    if |name.rest| < 1 then Err(UnexpectedEof)
    else
      var data :- w.readOctets(name.rest[1..]);
      Ok(Parsed(ProtocolData(name.value, ContentTypeOf(name.rest[0]), data.value), data.rest))
  }

  function ProtocolReader(w: Wire): (read: Bytes -> Reading<ProtocolData>) {
    buf => ReadProtocol(w, buf)
  }

  function PutProtocol(w: Wire, d: ProtocolData): (bs: Bytes) {
    w.putOctets(d.name) + [ContentCode(d.contentType)] + w.putOctets(d.data)
  }

  function ProtocolWriter(w: Wire): (write: ProtocolData -> Bytes) {
    d => PutProtocol(w, d)
  }

  function ReadProtocols(w: Wire, buf: Bytes): (r: Result<seq<ProtocolData>, CodecError>) {
    var count :- w.readUint(buf);
    var list :- ReadList(ProtocolReader(w), count.value, count.rest);
    if list.rest != [] then Err(TrailingBytes) else Ok(list.value)
  }

  function PutProtocols(w: Wire, ds: seq<ProtocolData>): (bs: Bytes) {
    w.putUint(|ds|) + WriteList(ProtocolWriter(w), ds)
  }

  // ---- Packets ----

  datatype Header = Header(requestId: nat, contents: Bytes)

  function ReadHeader(w: Wire, packetType: byte, bytes: Bytes): (r: Result<Header, CodecError>) {
    if |bytes| < 6 then Err(UnexpectedEof)
    else if bytes[0] != packetType then Err(UnexpectedPacketType)
    else
      var contents :- w.readOctets(bytes[5..]);
      if contents.rest != [] then Err(TrailingBytes) else Ok(Header(Uint(bytes[1..5]), contents.value))
  }

  function ReadAs(written: Bytes): (t: Timestamp) {
    Timestamp(|written|, written, 0)
  }

  function ReadError(w: Wire, calendar: Bytes -> bool, h: Header): (r: Result<Packet, CodecError>) {
    if |h.contents| < 21 then Err(UnexpectedEof)
    else
      var code := h.contents[..3];
      var name :- ReadText(w, h.contents[3..]);
      var triggeredAt :- ReadTimestamp(w, calendar, name.rest);
      var data :- ReadText(w, triggeredAt.rest);
      var protocolData :- ReadProtocols(w, data.rest);
      if Utf8(code) then Ok(Error(h.requestId, code, name.value, ReadAs(triggeredAt.value), data.value, protocolData))
      else Err(InvalidUtf8)
  }

  function Decoded(w: Wire, calendar: Bytes -> bool, bytes: Bytes): (r: Result<Packet, CodecError>) {
    if bytes == [] then Err(UnexpectedEof)
    else if bytes[0] == 6 then
      var h :- ReadHeader(w, 6, bytes);
      var protocolData :- ReadProtocols(w, h.contents);
      Ok(Message(h.requestId, protocolData))
    else if bytes[0] == 1 then
      var h :- ReadHeader(w, 1, bytes);
      var protocolData :- ReadProtocols(w, h.contents);
      Ok(Response(h.requestId, protocolData))
    else if bytes[0] == 2 then
      var h :- ReadHeader(w, 2, bytes);
      ReadError(w, calendar, h)
    else Err(UnknownPacketType)
  }

  /** The length comes first, whatever is written then. */
  function PutTimestamp(w: Wire, t: Timestamp): (bs: Bytes) {
    w.putLength(t.length) + t.written
  }

  function Contents(w: Wire, p: Packet): (bs: Bytes) {
    match p
    case Error(_, code, name, triggeredAt, data, protocolData) =>
      code + w.putOctets(name) + PutTimestamp(w, triggeredAt) + w.putOctets(data) + PutProtocols(w, protocolData)
    case _ => PutProtocols(w, p.protocolData)
  }

  function Encoded(w: Wire, p: Packet): (bs: Bytes) {
    [PacketTypeOf(p)] + UintBytes(p.requestId, 4) + w.putOctets(Contents(w, p))
  }

  // ---- The parser and the writer themselves ----

  method ReadProtocolData(w: Wire, buf: Bytes) returns (r: Result<seq<ProtocolData>, CodecError>)
    ensures r == ReadProtocols(w, buf)
  {
    var count :- w.readUint(buf);
    var list := ReadCounted(ProtocolReader(w), count.value, count.rest);
    if list.Err? {
      return Err(list.error);
    }
    if list.value.rest != [] {
      return Err(TrailingBytes);
    }
    r := Ok(list.value.value);
  }

  method FromBytes(w: Wire, calendar: Bytes -> bool, bytes: Bytes) returns (r: Result<Packet, CodecError>)
    ensures r == Decoded(w, calendar, bytes)
  {
    if bytes == [] {
      return Err(UnexpectedEof);
    }
    if bytes[0] !in {6, 1, 2} {
      return Err(UnknownPacketType);
    }
    var header :- ReadHeader(w, bytes[0], bytes);
    var reader := header.contents;
    if bytes[0] == 2 {
      if |reader| < 21 {
        return Err(UnexpectedEof);
      }
      var code := reader[..3];
      var name :- ReadText(w, reader[3..]);
      var triggeredAt :- ReadTimestamp(w, calendar, name.rest);
      var data :- ReadText(w, triggeredAt.rest);
      var list := ReadProtocolData(w, data.rest);
      if list.Err? {
        return Err(list.error);
      }
      if !Utf8(code) {
        return Err(InvalidUtf8);
      }
      return Ok(Error(header.requestId, code, name.value, ReadAs(triggeredAt.value), data.value, list.value));
    }
    var list := ReadProtocolData(w, reader);
    if list.Err? {
      return Err(list.error);
    }
    r := Ok(if bytes[0] == 6 then Message(header.requestId, list.value) else Response(header.requestId, list.value));
  }

  method ToBytes(w: Wire, p: Packet) returns (buf: Bytes)
    ensures buf == Encoded(w, p)
  {
    var contents: Bytes := [];
    if p.Error? {
      contents := p.code;
      contents := contents + w.putOctets(p.name);
      contents := contents + w.putLength(p.triggeredAt.length);
      contents := contents + p.triggeredAt.written;
      contents := contents + w.putOctets(p.data);
    }
    var list := PutAll(ProtocolWriter(w), p.protocolData);
    ghost var fields := contents;
    assert p.Error? ==>
        fields == p.code + w.putOctets(p.name) + PutTimestamp(w, p.triggeredAt) + w.putOctets(p.data);
    contents := contents + w.putUint(|p.protocolData|);
    contents := contents + list;
    assert contents == fields + PutProtocols(w, p.protocolData);
    assert contents == Contents(w, p);
    buf := [PacketTypeOf(p)] + UintBytes(p.requestId, 4) + w.putOctets(contents);
  }

  // ---- What a packet value of the source can hold, and what survives the wire ----

  /** The invariants of the Rust types: a u32 request id, UTF-8 strings, a date, vectors no longer than a usize. */
  ghost predicate Typed(w: Wire, calendar: Bytes -> bool, p: Packet) {
    && p.requestId < 0x1_0000_0000
    && |p.protocolData| <= U64_MAX && |Contents(w, p)| <= U64_MAX
    && (forall d :: d in p.protocolData ==> IsText(d.name) && |d.data| <= U64_MAX)
    && (p.Error? ==> IsText(p.code) && IsText(p.name) && IsText(p.data) && TypedTimestamp(calendar, p.triggeredAt))
  }

  /** A year beyond four digits is written with a sign, and then longer than announced. */
  ghost predicate TypedTimestamp(calendar: Bytes -> bool, t: Timestamp) {
    t.length in {15, 17, 18, 19} && (|t.written| == t.length ==> ValidTimestamp(calendar, t.written))
  }

  ghost predicate KnownTypesNamed(ds: seq<ProtocolData>) {
    forall d :: d in ds ==> d.contentType != Unknown(0) && d.contentType != Unknown(1)
  }

  /** An error code takes three bytes, the two known content types have names of their own, and a time is
      written in its length and to the last digit. */
  ghost predicate Representable(p: Packet) {
    && (p.Error? ==> |p.code| == 3 && |p.triggeredAt.written| == p.triggeredAt.length && p.triggeredAt.rest == 0)
    && KnownTypesNamed(p.protocolData)
  }

  lemma {:induction false} ProtocolsReadBack(w: Wire, ds: seq<ProtocolData>)
    requires Lawful(w) && KnownTypesNamed(ds)
    requires forall d :: d in ds ==> IsText(d.name) && |d.data| <= U64_MAX
    ensures ReadsBack(ProtocolReader(w), ProtocolWriter(w), ds)
  {
    forall d, tail | d in ds ensures ProtocolReader(w)(ProtocolWriter(w)(d) + tail) == Ok(Parsed(d, tail)) {
      ProtocolRoundTrip(w, d, tail);
    }
  }

  lemma {:induction false} ProtocolRoundTrip(w: Wire, d: ProtocolData, tail: Bytes)
    requires Lawful(w) && IsText(d.name) && |d.data| <= U64_MAX
    requires d.contentType != Unknown(0) && d.contentType != Unknown(1)
    ensures ReadProtocol(w, PutProtocol(w, d) + tail) == Ok(Parsed(d, tail))
  {
    var rest := [ContentCode(d.contentType)] + (w.putOctets(d.data) + tail);
    Regroup([], w.putOctets(d.name), [ContentCode(d.contentType)], w.putOctets(d.data), tail);
    assert PutProtocol(w, d) + tail == w.putOctets(d.name) + rest;
    assert rest[1..] == w.putOctets(d.data) + tail;
  }

  lemma {:induction false} ProtocolsRoundTrip(w: Wire, ds: seq<ProtocolData>)
    requires Lawful(w) && KnownTypesNamed(ds) && |ds| <= U64_MAX
    requires forall d :: d in ds ==> IsText(d.name) && |d.data| <= U64_MAX
    ensures ReadProtocols(w, PutProtocols(w, ds)) == Ok(ds)
  {
    ProtocolsReadBack(w, ds);
    ListRoundTrip(ProtocolReader(w), ProtocolWriter(w), ds, []);
    var list := WriteList(ProtocolWriter(w), ds);
    assert list + [] == list;
  }

  lemma {:induction false} HeaderRoundTrip(w: Wire, calendar: Bytes -> bool, p: Packet)
    requires Lawful(w) && Typed(w, calendar, p)
    ensures ReadHeader(w, PacketTypeOf(p), Encoded(w, p)) == Ok(Header(p.requestId, Contents(w, p)))
  {
    var bytes := Encoded(w, p);
    assert bytes[1..5] == UintBytes(p.requestId, 4);
    assert Pow256(2) == 0x1_0000 && Pow256(4) == 0x1_0000_0000;
    UintOfBytes(p.requestId, 4);
    assert bytes[5..] == w.putOctets(Contents(w, p)) + [];
  }

  lemma {:induction false} ErrorRoundTrip(w: Wire, calendar: Bytes -> bool, p: Packet)
    requires Lawful(w) && LengthFirst(w) && Typed(w, calendar, p) && Representable(p) && p.Error?
    ensures ReadError(w, calendar, Header(p.requestId, Contents(w, p))) == Ok(p)
  {
    var list := PutProtocols(w, p.protocolData);
    var data := w.putOctets(p.data) + list;
    var time := p.triggeredAt.written;
    assert PutAt(w, time) && PutTimestamp(w, p.triggeredAt) == w.putOctets(time);
    var triggeredAt := w.putOctets(time) + data;
    var contents := Contents(w, p);
    Regroup(p.code, w.putOctets(p.name), w.putOctets(time), w.putOctets(p.data), list);
    assert contents[..3] == p.code && contents[3..] == w.putOctets(p.name) + triggeredAt;
    ProtocolsRoundTrip(w, p.protocolData);
  }

  /** A representable packet survives encoding and decoding. */
  lemma {:induction false} PacketRoundTrip(w: Wire, calendar: Bytes -> bool, p: Packet)
    requires Lawful(w) && LengthFirst(w) && Typed(w, calendar, p) && Representable(p)
    ensures Decoded(w, calendar, Encoded(w, p)) == Ok(p)
  {
    HeaderRoundTrip(w, calendar, p);
    if p.Error? {
      ErrorRoundTrip(w, calendar, p);
    } else {
      ProtocolsRoundTrip(w, p.protocolData);
    }
  }

  lemma {:induction false} ReadTypesNamed(w: Wire, n: nat, buf: Bytes)
    ensures match ReadList(ProtocolReader(w), n, buf)
            case Ok(list) => KnownTypesNamed(list.value)
            case Err(_) => true
  {
    if n > 0 && ProtocolReader(w)(buf).Ok? {
      ReadTypesNamed(w, n - 1, ProtocolReader(w)(buf).value.rest);
    }
  }

  lemma {:induction false} ProtocolsNamed(w: Wire, buf: Bytes)
    ensures ReadProtocols(w, buf).Ok? ==> KnownTypesNamed(ReadProtocols(w, buf).value)
  {
    var count := w.readUint(buf);
    if count.Ok? {
      ReadTypesNamed(w, count.value.value, count.value.rest);
    }
  }

  lemma {:induction false} DecodedIsRepresentable(w: Wire, calendar: Bytes -> bool, bytes: Bytes)
    ensures Decoded(w, calendar, bytes).Ok? ==> Representable(Decoded(w, calendar, bytes).value)
  {
    forall buf ensures ReadProtocols(w, buf).Ok? ==> KnownTypesNamed(ReadProtocols(w, buf).value) {
      ProtocolsNamed(w, buf);
    }
  }

  /** The exact domain of the round trip, in strict mode and outside it. */
  lemma {:induction false} RoundTripExactly(strict: bool, calendar: Bytes -> bool, p: Packet)
    requires Typed(OerWire(strict), calendar, p)
    ensures Decoded(OerWire(strict), calendar, Encoded(OerWire(strict), p)) == Ok(p) <==> Representable(p)
  {
    var w := OerWire(strict);
    OerIsLawful(strict);
    OerLengthFirst(strict);
    if Representable(p) {
      PacketRoundTrip(w, calendar, p);
    }
    DecodedIsRepresentable(w, calendar, Encoded(w, p));
  }

  // ---- In strict mode the encoding is canonical ----

  lemma {:induction false} ProtocolCanonical(w: Wire, buf: Bytes)
    requires CanonicalWire(w)
    ensures match ReadProtocol(w, buf)
            case Ok(d) => buf == PutProtocol(w, d.value) + d.rest
            case Err(_) => true
  {
    if ReadProtocol(w, buf).Ok? {
      var name := ReadText(w, buf).value;
      assert name.rest == [name.rest[0]] + name.rest[1..];
    }
  }

  lemma {:induction false} ProtocolsCanonical(w: Wire, buf: Bytes)
    requires CanonicalWire(w)
    ensures match ReadProtocols(w, buf)
            case Ok(ds) => buf == PutProtocols(w, ds)
            case Err(_) => true
  {
    forall b ensures ProtocolReader(w)(b).Ok? ==>
        b == ProtocolWriter(w)(ProtocolReader(w)(b).value.value) + ProtocolReader(w)(b).value.rest
    {
      ProtocolCanonical(w, b);
    }
    var count := w.readUint(buf);
    if count.Ok? {
      ListCanonical(ProtocolReader(w), ProtocolWriter(w), count.value.value, count.value.rest);
    }
  }

  lemma {:induction false} ErrorCanonical(w: Wire, calendar: Bytes -> bool, h: Header)
    requires CanonicalWire(w) && LengthFirst(w)
    ensures match ReadError(w, calendar, h)
            case Ok(p) => p.Error? && p.requestId == h.requestId && Contents(w, p) == h.contents
            case Err(_) => true
  {
    if ReadError(w, calendar, h).Ok? {
      var name := ReadText(w, h.contents[3..]).value;
      var triggeredAt := ReadTimestamp(w, calendar, name.rest).value;
      var data := ReadText(w, triggeredAt.rest).value;
      ProtocolsCanonical(w, data.rest);
      var protocolData := ReadProtocols(w, data.rest).value;
      assert h.contents == h.contents[..3] + h.contents[3..];
      assert PutAt(w, triggeredAt.value);
      assert PutTimestamp(w, ReadAs(triggeredAt.value)) == w.putOctets(triggeredAt.value);
      Regroup(h.contents[..3], w.putOctets(name.value), w.putOctets(triggeredAt.value), w.putOctets(data.value),
              PutProtocols(w, protocolData));
    }
  }

  lemma {:induction false} HeaderCanonical(w: Wire, packetType: byte, bytes: Bytes)
    requires CanonicalWire(w)
    ensures match ReadHeader(w, packetType, bytes)
            case Ok(h) => bytes == [packetType] + UintBytes(h.requestId, 4) + w.putOctets(h.contents)
            case Err(_) => true
  {
    if ReadHeader(w, packetType, bytes).Ok? {
      BytesOfUint(bytes[1..5]);
      assert bytes == [bytes[0]] + bytes[1..5] + bytes[5..];
    }
  }

  lemma {:induction false} PacketCanonical(w: Wire, calendar: Bytes -> bool, bytes: Bytes)
    requires CanonicalWire(w) && LengthFirst(w)
    ensures match Decoded(w, calendar, bytes)
            case Ok(p) => Encoded(w, p) == bytes
            case Err(_) => true
  {
    if bytes != [] && bytes[0] in {6, 1, 2} {
      HeaderCanonical(w, bytes[0], bytes);
      var h := ReadHeader(w, bytes[0], bytes);
      if h.Ok? {
        ProtocolsCanonical(w, h.value.contents);
        ErrorCanonical(w, calendar, h.value);
      }
    }
  }

  /** In strict mode every accepted byte string is the encoding of the packet it decodes to. */
  lemma {:induction false} StrictIsCanonical(calendar: Bytes -> bool, bytes: Bytes)
    ensures match Decoded(OerWire(true), calendar, bytes)
            case Ok(p) => Encoded(OerWire(true), p) == bytes
            case Err(_) => true
  {
    StrictOerIsCanonical();
    OerLengthFirst(true);
    PacketCanonical(OerWire(true), calendar, bytes);
  }

  // ---- Outside strict mode, exactly the canonical packets are accepted strictly ----

  ghost predicate TypedProtocol(d: ProtocolData) {
    IsText(d.name) && |d.data| <= U64_MAX
  }

  lemma {:induction false} ProtocolsTyped(w: Wire, buf: Bytes)
    requires Lawful(w)
    ensures match ReadProtocols(w, buf)
            case Ok(ds) => |ds| <= U64_MAX && forall d :: d in ds ==> TypedProtocol(d)
            case Err(_) => true
  {
    var count := w.readUint(buf);
    if count.Ok? {
      forall b ensures ProtocolReader(w)(b).Ok? ==> TypedProtocol(ProtocolReader(w)(b).value.value) {
        ProtocolTyped(w, b);
      }
      ListElements(ProtocolReader(w), d => TypedProtocol(d), count.value.value, count.value.rest);
    }
  }

  lemma {:induction false} ProtocolTyped(w: Wire, buf: Bytes)
    requires Lawful(w)
    ensures ReadProtocol(w, buf).Ok? ==> TypedProtocol(ReadProtocol(w, buf).value.value)
  {
  }

  /** What is decoded holds the invariants of the Rust types, if its contents are no longer than a usize. */
  lemma {:induction false} DecodedIsTyped(w: Wire, calendar: Bytes -> bool, bytes: Bytes)
    requires Lawful(w) && Decoded(w, calendar, bytes).Ok?
    requires |Contents(w, Decoded(w, calendar, bytes).value)| <= U64_MAX
    ensures Typed(w, calendar, Decoded(w, calendar, bytes).value)
  {
    U32Fits(bytes[1..5]);
    var h := ReadHeader(w, bytes[0], bytes).value;
    if bytes[0] == 2 {
      ErrorTyped(w, calendar, h);
    } else {
      ProtocolsTyped(w, h.contents);
    }
  }

  lemma {:induction false} ErrorTyped(w: Wire, calendar: Bytes -> bool, h: Header)
    requires Lawful(w) && ReadError(w, calendar, h).Ok?
    ensures var p := ReadError(w, calendar, h).value;
            && |p.protocolData| <= U64_MAX && (forall d :: d in p.protocolData ==> TypedProtocol(d))
            && IsText(p.code) && IsText(p.name) && IsText(p.data) && TypedTimestamp(calendar, p.triggeredAt)
  {
    var name := ReadText(w, h.contents[3..]).value;
    var triggeredAt := ReadTimestamp(w, calendar, name.rest).value;
    var data := ReadText(w, triggeredAt.rest).value;
    ProtocolsTyped(w, data.rest);
  }

  lemma {:induction false} SameLists(ds: seq<ProtocolData>)
    ensures WriteList(ProtocolWriter(OerWire(true)), ds) == WriteList(ProtocolWriter(OerWire(false)), ds)
  {
    if ds != [] {
      SameLists(ds[..|ds| - 1]);
    }
  }

  /** Both modes write alike. */
  lemma {:induction false} SameEncoding(p: Packet)
    ensures Contents(OerWire(true), p) == Contents(OerWire(false), p)
    ensures Encoded(OerWire(true), p) == Encoded(OerWire(false), p)
  {
    SameLists(p.protocolData);
  }

  /** A packet that decodes as its own encoding does so in both modes. */
  lemma {:induction false} CanonicalDecodes(strict: bool, calendar: Bytes -> bool, bytes: Bytes)
    requires |bytes| <= U64_MAX && Decoded(OerWire(strict), calendar, bytes).Ok?
    requires Encoded(OerWire(strict), Decoded(OerWire(strict), calendar, bytes).value) == bytes
    ensures Decoded(OerWire(!strict), calendar, bytes) == Decoded(OerWire(strict), calendar, bytes)
  {
    var w, other := OerWire(strict), OerWire(!strict);
    var p := Decoded(w, calendar, bytes).value;
    OerIsLawful(strict);
    OerIsLawful(!strict);
    OerLengthFirst(!strict);
    SameEncoding(p);
    assert PutAt(other, Contents(other, p));
    DecodedIsTyped(w, calendar, bytes);
    DecodedIsRepresentable(w, calendar, bytes);
    PacketRoundTrip(other, calendar, p);
  }

  /** A packet that is accepted outside strict mode re-encodes to itself, if and only if strict mode accepts it. */
  lemma {:induction false} CanonicalIffStrict(calendar: Bytes -> bool, bytes: Bytes)
    requires |bytes| <= U64_MAX && Decoded(OerWire(false), calendar, bytes).Ok?
    ensures var p := Decoded(OerWire(false), calendar, bytes).value;
            Encoded(OerWire(false), p) == bytes <==> Decoded(OerWire(true), calendar, bytes).Ok?
  {
    var p := Decoded(OerWire(false), calendar, bytes).value;
    if Encoded(OerWire(false), p) == bytes {
      CanonicalDecodes(false, calendar, bytes);
    }
    if Decoded(OerWire(true), calendar, bytes).Ok? {
      StrictIsCanonical(calendar, bytes);
      CanonicalDecodes(true, calendar, bytes);
      SameEncoding(p);
    }
  }

  /** What lies below the last digit of a time is lost, and nothing else. */
  lemma {:induction false} OnlyRestIsLost(strict: bool, calendar: Bytes -> bool, p: Packet)
    requires Typed(OerWire(strict), calendar, p) && p.Error?
    requires Representable(p.(triggeredAt := p.triggeredAt.(rest := 0)))
    ensures Decoded(OerWire(strict), calendar, Encoded(OerWire(strict), p)) ==
            Ok(p.(triggeredAt := p.triggeredAt.(rest := 0)))
  {
    RoundTripExactly(strict, calendar, p.(triggeredAt := p.triggeredAt.(rest := 0)));
  }
}
