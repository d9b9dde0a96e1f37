/** The packet formats told byte by byte, and that the codecs write and, in strict mode, read exactly these. */
module PacketFormats {
  import opened Basics
  import opened Oer
  import opened Texts
  import opened Formats
  import opened CcpMessages
  import opened CcpCodec
  import opened IlpPackets
  import opened IlpReplies
  import Btp

  // ---- BTP, Interledger RFC 0023 ----

  /** A name, the content type in one byte, and the data. */
  ghost predicate ProtocolAt(bs: Bytes, d: Btp.ProtocolData, rest: Bytes) {
    exists next :: OctetsAt(bs, d.name, next) && TypedDataAt(next, d, rest)
  }

  ghost predicate TypedDataAt(bs: Bytes, d: Btp.ProtocolData, rest: Bytes) {
    && |bs| >= 1 && OctetsAt(bs[1..], d.data, rest)
    && match d.contentType
       case OctetStream => bs[0] == 0
       case TextPlain => bs[0] == 1
       case Unknown(code) => bs[0] == code
  }

  ghost predicate BtpListAt(bs: Bytes, ds: seq<Btp.ProtocolData>) {
    CountedAt((b, d, r) => ProtocolAt(b, d, r), bs, ds, [])
  }

  /** Three bytes of code, the name, the time, the data, and the protocol data. */
  ghost predicate BtpErrorAt(bs: Bytes, p: Btp.Packet)
    requires p.Error?
  {
    && |bs| >= 3 && bs[..3] == p.code
    && exists list :: ThreeAt(bs[3..], p.name, p.triggeredAt.written, p.data, list) && BtpListAt(list, p.protocolData)
  }

  /** The type byte, a request id of four bytes, and the contents with their length. */
  ghost predicate BtpAt(bs: Bytes, p: Btp.Packet) {
    && |bs| >= 5 && BigEndian(bs[1..5], p.requestId)
    && bs[0] == (if p.Message? then 6 else if p.Response? then 1 else 2)
    && exists contents ::
         && OctetsAt(bs[5..], contents, [])
         && if p.Error? then BtpErrorAt(contents, p) else BtpListAt(contents, p.protocolData)
  }

  lemma {:induction false} TypedDataFormat(d: Btp.ProtocolData, rest: Bytes)
    requires |d.data| <= U64_MAX
    ensures TypedDataAt([Btp.ContentCode(d.contentType)] + (PutVarOctetString(d.data) + rest), d, rest)
  {
    var data := PutVarOctetString(d.data) + rest;
    OctetsFormat(d.data, rest);
    assert ([Btp.ContentCode(d.contentType)] + data)[1..] == data;
  }

  lemma {:induction false} ProtocolFormat(strict: bool, d: Btp.ProtocolData, rest: Bytes)
    requires IsText(d.name) && |d.data| <= U64_MAX
    ensures ProtocolAt(Btp.PutProtocol(OerWire(strict), d) + rest, d, rest)
  {
    var code := [Btp.ContentCode(d.contentType)];
    RegroupFour(PutVarOctetString(d.name), code, PutVarOctetString(d.data), rest);
    OctetsFormat(d.name, code + (PutVarOctetString(d.data) + rest));
    TypedDataFormat(d, rest);
  }

  lemma {:induction false} BtpListFormat(strict: bool, ds: seq<Btp.ProtocolData>)
    requires |ds| <= U64_MAX && forall d :: d in ds ==> IsText(d.name) && |d.data| <= U64_MAX
    ensures BtpListAt(Btp.PutProtocols(OerWire(strict), ds), ds)
  {
    var w := OerWire(strict);
    var at := (b, d, r) => ProtocolAt(b, d, r);
    forall d, tail | d in ds ensures at(Btp.ProtocolWriter(w)(d) + tail, d, tail) {
      ProtocolFormat(strict, d, tail);
    }
    CountedFormat(at, Btp.ProtocolWriter(w), ds, []);
    assert Btp.PutProtocols(w, ds) == PutVarUint(|ds|) + WriteList(Btp.ProtocolWriter(w), ds) + [];
  }

  lemma {:induction false} BtpErrorFormat(strict: bool, p: Btp.Packet)
    requires p.Error? && |p.code| == 3 && |p.triggeredAt.written| == p.triggeredAt.length <= U64_MAX
    requires |p.name| <= U64_MAX && |p.data| <= U64_MAX
    requires BtpListAt(Btp.PutProtocols(OerWire(strict), p.protocolData), p.protocolData)
    ensures BtpErrorAt(Btp.Contents(OerWire(strict), p), p)
  {
    var list := Btp.PutProtocols(OerWire(strict), p.protocolData);
    var bs := Btp.Contents(OerWire(strict), p);
    Regroup(p.code, PutVarOctetString(p.name), PutVarOctetString(p.triggeredAt.written), PutVarOctetString(p.data),
      list);
    ThreeFormat(p.name, p.triggeredAt.written, p.data, list);
    assert bs[3..] == PutVarOctetString(p.name) +
                      (PutVarOctetString(p.triggeredAt.written) + (PutVarOctetString(p.data) + list));
  }

  /** Every representable packet is written in this format. */
  lemma {:induction false} BtpFormat(strict: bool, calendar: Bytes -> bool, p: Btp.Packet)
    requires Btp.Typed(OerWire(strict), calendar, p) && Btp.Representable(p)
    ensures BtpAt(Btp.Encoded(OerWire(strict), p), p)
  {
    var w := OerWire(strict);
    var contents, bs := Btp.Contents(w, p), Btp.Encoded(w, p);
    assert bs[1..5] == UintBytes(p.requestId, 4) && bs[5..] == PutVarOctetString(contents) + [];
    assert Pow256(2) == 0x1_0000 && Pow256(4) == 0x1_0000_0000;
    UintIsBigEndian(p.requestId, 4);
    OctetsFormat(contents, []);
    BtpListFormat(strict, p.protocolData);
    if p.Error? {
      BtpErrorFormat(strict, p);
    }
  }

  /** In strict mode only bytes in this format are accepted, as the packet that they stand for. */
  lemma {:induction false} BtpReadsFormat(calendar: Bytes -> bool, bytes: Bytes)
    requires |bytes| <= U64_MAX && Btp.Decoded(OerWire(true), calendar, bytes).Ok?
    ensures BtpAt(bytes, Btp.Decoded(OerWire(true), calendar, bytes).value)
  {
    var w := OerWire(true);
    var p := Btp.Decoded(w, calendar, bytes).value;
    OerIsLawful(true);
    Btp.StrictIsCanonical(calendar, bytes);
    assert |Btp.Contents(w, p)| <= |bytes|;
    Btp.DecodedIsTyped(w, calendar, bytes);
    Btp.DecodedIsRepresentable(w, calendar, bytes);
    BtpFormat(true, calendar, p);
  }

  /** In both modes the first byte tells what a packet is, and the next four are its request id. */
  lemma {:induction false} BtpKinds(w: Wire, calendar: Bytes -> bool, bytes: Bytes)
    ensures Btp.Decoded(w, calendar, bytes).Ok? ==>
              var p := Btp.Decoded(w, calendar, bytes).value;
              && |bytes| >= 6
              && (p.Message? <==> bytes[0] == 6) && (p.Response? <==> bytes[0] == 1) && (p.Error? <==> bytes[0] == 2)
              && p.requestId == bytes[1] as int * 0x100_0000 + bytes[2] as int * 0x1_0000 + bytes[3] as int * 0x100
                                + bytes[4] as int
    ensures bytes != [] && bytes[0] !in {6, 1, 2} ==> Btp.Decoded(w, calendar, bytes) == Err(UnknownPacketType)
  {
    if |bytes| >= 6 {
      assert bytes[1..5] == [bytes[1], bytes[2], bytes[3], bytes[4]];
      FourBytes(bytes[1], bytes[2], bytes[3], bytes[4]);
    }
  }

  // ---- CCP ----

  ghost predicate TextsAt(bs: Bytes, texts: seq<Text>, rest: Bytes) {
    CountedAt((b, s, r) => OctetsAt(b, s, r), bs, texts, rest)
  }

  /** Four flags in the upper half of the first byte, an id of two bytes, and the value. */
  ghost predicate PropAt(bs: Bytes, p: RouteProp, rest: Bytes) {
    && |bs| >= 3 && BigEndian(bs[1..3], p.id) && OctetsAt(bs[3..], p.value, rest)
    && bs[0] == (if p.isOptional then 0x80 else 0) + (if p.isTransitive then 0x40 else 0)
                + (if p.isPartial then 0x20 else 0) + (if p.isUtf8 then 0x10 else 0)
  }

  ghost predicate PropsAt(bs: Bytes, props: seq<RouteProp>, rest: Bytes) {
    CountedAt((b, p, r) => PropAt(b, p, r), bs, props, rest)
  }

  /** The prefix, the path, 32 bytes of auth, and the properties. */
  ghost predicate RouteAt(bs: Bytes, route: Route, rest: Bytes) {
    exists path, auth ::
      OctetsAt(bs, route.prefix, path) && TextsAt(path, route.path, auth) && AuthAt(auth, route, rest)
  }

  ghost predicate AuthAt(bs: Bytes, route: Route, rest: Bytes) {
    |bs| >= 32 && bs[..32] == route.auth && PropsAt(bs[32..], route.props, rest)
  }

  ghost predicate RoutesAt(bs: Bytes, routes: seq<Route>, rest: Bytes) {
    CountedAt((b, route, r) => RouteAt(b, route, r), bs, routes, rest)
  }

  /** The mode, 0 for idle and 1 for sync; the last known table id and epoch; and the features. */
  ghost predicate ControlAt(bs: Bytes, c: RouteControl) {
    && |bs| >= 21 && bs[0] == (match c.mode case Idle => 0 case Sync => 1)
    && bs[1..17] == c.lastKnownTableId && BigEndian(bs[17..21], c.lastKnownEpoch)
    && TextsAt(bs[21..], c.features, [])
  }

  /** The table id, four numbers of four bytes, the speaker, the new routes, and the withdrawn ones. */
  ghost predicate UpdateAt(bs: Bytes, u: RouteUpdate) {
    && |bs| >= 32 && bs[..16] == u.tableId
    && BigEndian(bs[16..20], u.currentEpoch) && BigEndian(bs[20..24], u.fromEpoch)
    && BigEndian(bs[24..28], u.toEpoch) && BigEndian(bs[28..32], u.holdDownTime)
    && UpdateTailAt(bs[32..], u)
  }

  ghost predicate UpdateTailAt(bs: Bytes, u: RouteUpdate) {
    exists routes, withdrawn :: OctetsAt(bs, u.speaker, routes) && RoutesAt(routes, u.newRoutes, withdrawn) &&
      TextsAt(withdrawn, u.withdrawnRoutes, [])
  }

  lemma {:induction false} U32Format(n: nat)
    requires n < 0x1_0000_0000
    ensures BigEndian(UintBytes(n, 4), n)
  {
    assert Pow256(2) == 0x1_0000 && Pow256(4) == 0x1_0000_0000;
    UintIsBigEndian(n, 4);
  }

  lemma {:induction false} TextsFormat(strict: bool, texts: seq<Text>, rest: Bytes)
    requires TypedTexts(texts)
    ensures TextsAt(PutCountedList(OerWire(strict), PutVarOctetString, texts) + rest, texts, rest)
  {
    var at := (b, s, r) => OctetsAt(b, s, r);
    forall t, tail | t in texts ensures at(PutVarOctetString(t) + tail, t, tail) {
      OctetsFormat(t, tail);
    }
    CountedFormat(at, PutVarOctetString, texts, rest);
  }

  lemma {:induction false} PropFormat(strict: bool, p: RouteProp, rest: Bytes)
    requires TypedProp(p)
    ensures PropAt(PutProp(OerWire(strict), p) + rest, p, rest)
  {
    var bs := PutProp(OerWire(strict), p) + rest;
    assert bs[1..3] == UintBytes(p.id, 2) && bs[3..] == PutVarOctetString(p.value) + rest;
    assert Pow256(2) == 0x1_0000;
    UintIsBigEndian(p.id, 2);
    OctetsFormat(p.value, rest);
  }

  lemma {:induction false} PropsFormat(strict: bool, props: seq<RouteProp>, rest: Bytes)
    requires |props| <= U64_MAX && forall p :: p in props ==> TypedProp(p)
    ensures PropsAt(PutCountedList(OerWire(strict), PropWriter(OerWire(strict)), props) + rest, props, rest)
  {
    var at := (b, p, r) => PropAt(b, p, r);
    forall p, tail | p in props ensures at(PropWriter(OerWire(strict))(p) + tail, p, tail) {
      PropFormat(strict, p, tail);
    }
    CountedFormat(at, PropWriter(OerWire(strict)), props, rest);
  }

  lemma {:induction false} AuthFormat(strict: bool, route: Route, rest: Bytes)
    requires TypedRoute(route)
    ensures var w := OerWire(strict);
            AuthAt(route.auth + (PutCountedList(w, PropWriter(w), route.props) + rest), route, rest)
  {
    var w := OerWire(strict);
    var props := PutCountedList(w, PropWriter(w), route.props) + rest;
    assert (route.auth + props)[..32] == route.auth && (route.auth + props)[32..] == props;
    PropsFormat(strict, route.props, rest);
  }

  lemma {:induction false} RouteFormat(strict: bool, route: Route, rest: Bytes)
    requires TypedRoute(route)
    ensures RouteAt(PutRoute(OerWire(strict), route) + rest, route, rest)
  {
    var w := OerWire(strict);
    var path, props := PutCountedList(w, w.putOctets, route.path), PutCountedList(w, PropWriter(w), route.props);
    var auth := route.auth + (props + rest);
    Regroup(w.putOctets(route.prefix), path, route.auth, props, rest);
    OctetsFormat(route.prefix, path + auth);
    TextsFormat(strict, route.path, auth);
    AuthFormat(strict, route, rest);
  }

  lemma {:induction false} RoutesFormat(strict: bool, routes: seq<Route>, rest: Bytes)
    requires |routes| <= U64_MAX && forall r :: r in routes ==> TypedRoute(r)
    ensures RoutesAt(PutCountedList(OerWire(strict), RouteWriter(OerWire(strict)), routes) + rest, routes, rest)
  {
    var at := (b, route, r) => RouteAt(b, route, r);
    forall route, tail | route in routes ensures at(RouteWriter(OerWire(strict))(route) + tail, route, tail) {
      RouteFormat(strict, route, tail);
    }
    CountedFormat(at, RouteWriter(OerWire(strict)), routes, rest);
  }

  /** Every control request is written in this format. */
  lemma {:induction false} ControlFormat(strict: bool, c: RouteControl)
    requires TypedControl(c)
    ensures ControlAt(EncodedControl(OerWire(strict), c), c)
  {
    var w := OerWire(strict);
    var bs, features := EncodedControl(w, c), PutCountedList(w, w.putOctets, c.features);
    assert bs[1..17] == c.lastKnownTableId && bs[17..21] == UintBytes(c.lastKnownEpoch, 4);
    assert bs[21..] == features + [];
    U32Format(c.lastKnownEpoch);
    TextsFormat(strict, c.features, []);
  }

  lemma {:induction false} UpdateHeadFormat(u: RouteUpdate, tail: Bytes)
    requires TypedUpdate(u)
    ensures var bs := UpdateHead(u) + tail;
            && bs[..16] == u.tableId
            && BigEndian(bs[16..20], u.currentEpoch) && BigEndian(bs[20..24], u.fromEpoch)
            && BigEndian(bs[24..28], u.toEpoch) && BigEndian(bs[28..32], u.holdDownTime) && bs[32..] == tail
  {
    HeadSlices(u, tail);
    U32Format(u.currentEpoch);
    U32Format(u.fromEpoch);
    U32Format(u.toEpoch);
    U32Format(u.holdDownTime);
  }

  lemma {:induction false} TailFormat(u: RouteUpdate, routes: Bytes, withdrawn: Bytes)
    requires |u.speaker| <= U64_MAX && RoutesAt(routes, u.newRoutes, withdrawn)
    requires TextsAt(withdrawn, u.withdrawnRoutes, [])
    ensures UpdateTailAt(PutVarOctetString(u.speaker) + routes, u)
  {
    OctetsFormat(u.speaker, routes);
  }

  lemma {:induction false} UpdateTailFormat(strict: bool, u: RouteUpdate) returns (tail: Bytes)
    requires TypedUpdate(u)
    ensures UpdateTailAt(tail, u) && EncodedUpdate(OerWire(strict), u) == UpdateHead(u) + tail
  {
    var w := OerWire(strict);
    var withdrawn := PutCountedList(w, PutVarOctetString, u.withdrawnRoutes);
    var routes := PutCountedList(w, RouteWriter(w), u.newRoutes);
    RoutesFormat(strict, u.newRoutes, withdrawn + []);
    TextsFormat(strict, u.withdrawnRoutes, []);
    TailFormat(u, routes + (withdrawn + []), withdrawn + []);
    Regroup(UpdateHead(u), PutVarOctetString(u.speaker), routes, withdrawn, []);
    tail := PutVarOctetString(u.speaker) + (routes + (withdrawn + []));
    assert EncodedUpdate(w, u) + [] == EncodedUpdate(w, u);
  }

  lemma {:induction false} HeadAndTail(u: RouteUpdate, tail: Bytes)
    requires TypedUpdate(u) && UpdateTailAt(tail, u)
    ensures UpdateAt(UpdateHead(u) + tail, u)
  {
    UpdateHeadFormat(u, tail);
  }

  /** Every update request is written in this format. */
  lemma {:induction false} UpdateFormat(strict: bool, u: RouteUpdate)
    requires TypedUpdate(u)
    ensures UpdateAt(EncodedUpdate(OerWire(strict), u), u)
  {
    var tail := UpdateTailFormat(strict, u);
    HeadAndTail(u, tail);
  }

  // ---- ILP, Interledger RFC 0027 ----

  /** The type byte, and the content with its length. */
  ghost predicate EnvelopeAt(bs: Bytes, packetType: byte, content: Bytes) {
    |bs| >= 1 && bs[0] == packetType && OctetsAt(bs[1..], content, [])
  }

  /** Eight bytes of amount, 17 of expiry, 32 of condition, the destination, and the data. */
  ghost predicate PrepareAt(bs: Bytes, amount: nat, stamp: Bytes, condition: Bytes, destination: Text, data: Bytes) {
    exists c :: EnvelopeAt(bs, 12, c) && PrepareContentAt(c, amount, stamp, condition, destination, data)
  }

  ghost predicate PrepareContentAt(c: Bytes, amount: nat, stamp: Bytes, condition: Bytes, destination: Text,
                                   data: Bytes)
  {
    && |c| >= 57 && BigEndian(c[..8], amount) && c[8..25] == stamp && c[25..57] == condition
    && TwoAt(c[57..], destination, data, [])
  }

  /** 32 bytes of fulfillment, and the data. */
  ghost predicate FulfillAt(bs: Bytes, fulfillment: Bytes, data: Bytes) {
    exists c :: EnvelopeAt(bs, 13, c) && |c| >= 32 && c[..32] == fulfillment && OctetsAt(c[32..], data, [])
  }

  /** Three bytes of code, the address that triggered it, the message, and the data. */
  ghost predicate RejectAt(bs: Bytes, code: Bytes, triggeredBy: Text, message: Bytes, data: Bytes) {
    exists c :: EnvelopeAt(bs, 14, c) && RejectContentAt(c, code, triggeredBy, message, data)
  }

  ghost predicate RejectContentAt(c: Bytes, code: Bytes, triggeredBy: Text, message: Bytes, data: Bytes) {
    |c| >= 3 && c[..3] == code && ThreeAt(c[3..], triggeredBy, message, data, [])
  }

  lemma {:induction false} FramedFormat(strict: bool, packetType: byte, content: Bytes)
    requires |content| <= U64_MAX
    ensures EnvelopeAt(Framed(OerWire(strict), packetType, |content|, content), packetType, content)
  {
    var bs := Framed(OerWire(strict), packetType, |content|, content);
    assert bs[1..] == PutVarOctetString(content) + [];
    OctetsFormat(content, []);
  }

  lemma {:induction false} PrepareContentFormat(strict: bool, calendar: Calendar, b: PrepareBuilder)
    requires b.Typed(calendar) && |b.expiresAt.stamp| == 17
    ensures PrepareContentAt(b.Content(OerWire(strict)), b.amount, b.expiresAt.stamp, b.condition, b.destination,
                             b.data)
  {
    var c := b.Content(OerWire(strict));
    EightBytes();
    UintIsBigEndian(b.amount, 8);
    assert c[..8] == UintBytes(b.amount, 8) && c[8..25] == b.expiresAt.stamp && c[25..57] == b.condition;
    assert c[57..] == PutVarOctetString(b.destination) + (PutVarOctetString(b.data) + []);
    TwoFormat(b.destination, b.data, []);
  }

  /** A built Prepare whose expiry takes 17 bytes has this format. */
  lemma {:induction false} PrepareFormat(strict: bool, calendar: Calendar, b: PrepareBuilder)
    requires b.Typed(calendar) && |b.expiresAt.stamp| == 17 && b.ContentLength(OerWire(strict)) <= U64_MAX
    ensures PrepareAt(b.Build(OerWire(strict)).buffer, b.amount, b.expiresAt.stamp, b.condition, b.destination, b.data)
  {
    var w := OerWire(strict);
    OerLengthFirst(strict);
    PredictedSize(w, b);
    FramedFormat(strict, 12, b.Content(w));
    PrepareContentFormat(strict, calendar, b);
  }

  /** A built Fulfill has this format. */
  lemma {:induction false} FulfillFormat(strict: bool, b: FulfillBuilder)
    requires |b.fulfillment| == 32 && |b.data| <= U64_MAX && b.ContentLength(OerWire(strict)) <= U64_MAX
    ensures FulfillAt(b.Build(OerWire(strict)).buffer, b.fulfillment, b.data)
  {
    var w := OerWire(strict);
    var c := b.Content(w);
    OerLengthFirst(strict);
    assert PutAt(w, b.data);
    FramedFormat(strict, 13, c);
    assert c[..32] == b.fulfillment && c[32..] == PutVarOctetString(b.data) + [];
    OctetsFormat(b.data, []);
  }

  lemma {:induction false} RejectContentFormat(strict: bool, b: RejectBuilder)
    requires b.Typed()
    ensures RejectContentAt(b.Content(OerWire(strict)), b.code, b.Source(), b.message, b.data)
  {
    var c := b.Content(OerWire(strict));
    OerLengthFirst(strict);
    RejectTails(OerWire(strict), b);
    assert c[3..] == PutVarOctetString(b.Source()) + (PutVarOctetString(b.message) + (PutVarOctetString(b.data) + []));
    ThreeFormat(b.Source(), b.message, b.data, []);
  }

  /** A built Reject has this format, with an empty address if none is given. */
  lemma {:induction false} RejectFormat(strict: bool, b: RejectBuilder)
    requires b.Typed() && b.ContentLength(OerWire(strict)) <= U64_MAX
    ensures RejectAt(b.Build(OerWire(strict)).buffer, b.code, if b.triggeredBy.Some? then b.triggeredBy.value else [],
                     b.message, b.data)
  {
    var w := OerWire(strict);
    OerLengthFirst(strict);
    RejectLayout(w, b);
    FramedFormat(strict, 14, b.Content(w));
    RejectContentFormat(strict, b);
  }
}
