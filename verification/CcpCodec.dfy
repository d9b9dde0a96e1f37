/** The wire form of CCP control and update requests (interledger-ccp/src/packet.rs). */
module CcpCodec {
  import opened Basics
  import opened CcpMessages
  import opened Oer
  import opened Texts

  // ---- Route properties ----

  /** Whether the flag with this bit value is set. */
  predicate Flag(meta: byte, bit: byte)
    requires bit > 0
  {
    meta / bit % 2 == 1
  }

  function Bit(set_: bool, bit: byte): (b: byte) {
    if set_ then bit else 0
  }

  function ReadProp(w: Wire, buf: Bytes): (r: Reading<RouteProp>) {
    if |buf| < 4 then Err(UnexpectedEof)
    else
      var value :- w.readOctets(buf[3..]);
      var meta := buf[0];
      Ok(Parsed(
        RouteProp(Flag(meta, 128), Flag(meta, 64), Flag(meta, 32), Uint(buf[1..3]), Flag(meta, 16), value.value),
        value.rest))
  }

  function PutProp(w: Wire, p: RouteProp): (bs: Bytes) {
    var meta := Bit(p.isOptional, 128) + Bit(p.isPartial, 32) + Bit(p.isTransitive, 64) + Bit(p.isUtf8, 16);
    [meta] + UintBytes(p.id, 2) + w.putOctets(p.value)
  }

  function PropReader(w: Wire): (read: Bytes -> Reading<RouteProp>) { buf => ReadProp(w, buf) }

  function PropWriter(w: Wire): (write: RouteProp -> Bytes) { p => PutProp(w, p) }

  ghost predicate TypedProp(p: RouteProp) {
    p.id < 0x1_0000 && |p.value| <= U64_MAX
  }

  lemma {:induction false} FlagsRoundTrip(p: RouteProp)
    ensures var meta := Bit(p.isOptional, 128) + Bit(p.isPartial, 32) + Bit(p.isTransitive, 64) + Bit(p.isUtf8, 16);
            && Flag(meta, 128) == p.isOptional && Flag(meta, 64) == p.isTransitive
            && Flag(meta, 32) == p.isPartial && Flag(meta, 16) == p.isUtf8
  {
  }

  lemma {:induction false} PropRoundTrip(w: Wire, p: RouteProp, tail: Bytes)
    requires Lawful(w) && TypedProp(p)
    ensures ReadProp(w, PutProp(w, p) + tail) == Ok(Parsed(p, tail))
  {
    var buf := PutProp(w, p) + tail;
    FlagsRoundTrip(p);
    assert buf[1..3] == UintBytes(p.id, 2) && buf[3..] == w.putOctets(p.value) + tail;
    assert Pow256(2) == 0x1_0000;
    UintOfBytes(p.id, 2);
  }

  lemma {:induction false} PropIsTyped(w: Wire, buf: Bytes)
    requires Lawful(w)
    ensures ReadProp(w, buf).Ok? ==> TypedProp(ReadProp(w, buf).value.value)
  {
    if ReadProp(w, buf).Ok? {
      BytesOfUint(buf[1..3]);
      assert Pow256(2) == 0x1_0000;
    }
  }

  // ---- Routes ----

  /** A list with its length in front. */
  function ReadCountedList<T>(w: Wire, read: Bytes -> Reading<T>, buf: Bytes): (r: Reading<seq<T>>) {
    var count :- w.readUint(buf);
    ReadList(read, count.value, count.rest)
  }

  function PutCountedList<T>(w: Wire, write: T -> Bytes, xs: seq<T>): (bs: Bytes) {
    w.putUint(|xs|) + WriteList(write, xs)
  }

  lemma {:induction false} CountedRoundTrip<T(!new)>(w: Wire, read: Bytes -> Reading<T>, write: T -> Bytes,
      xs: seq<T>, tail: Bytes)
    requires Lawful(w) && |xs| <= U64_MAX && ReadsBack(read, write, xs)
    ensures ReadCountedList(w, read, PutCountedList(w, write, xs) + tail) == Ok(Parsed(xs, tail))
  {
    assert PutCountedList(w, write, xs) + tail == w.putUint(|xs|) + (WriteList(write, xs) + tail);
    ListRoundTrip(read, write, xs, tail);
  }

  lemma {:induction false} CountedElements<T(!new)>(w: Wire, read: Bytes -> Reading<T>, sound: T -> bool, buf: Bytes)
    requires Lawful(w) && forall b :: read(b).Ok? ==> sound(read(b).value.value)
    ensures match ReadCountedList(w, read, buf)
            case Ok(p) => |p.value| <= U64_MAX && forall x :: x in p.value ==> sound(x)
            case Err(_) => true
  {
    var count := w.readUint(buf);
    if count.Ok? {
      ListElements(read, sound, count.value.value, count.value.rest);
    }
  }

  function ReadRoute(w: Wire, buf: Bytes): (r: Reading<Route>) {
    var prefix :- ReadText(w, buf);
    var path :- ReadCountedList(w, TextReader(w), prefix.rest);
    if |path.rest| < 32 then Err(UnexpectedEof)
    else
      var props :- ReadCountedList(w, PropReader(w), path.rest[32..]);
      Ok(Parsed(Route(prefix.value, path.value, path.rest[..32], props.value), props.rest))
  }

  function PutRoute(w: Wire, r: Route): (bs: Bytes) {
    w.putOctets(r.prefix) + PutCountedList(w, w.putOctets, r.path) + r.auth + PutCountedList(w, PropWriter(w), r.props)
  }

  function RouteReader(w: Wire): (read: Bytes -> Reading<Route>) { buf => ReadRoute(w, buf) }

  function RouteWriter(w: Wire): (write: Route -> Bytes) { r => PutRoute(w, r) }

  ghost predicate TypedTexts(texts: seq<Text>) {
    |texts| <= U64_MAX && forall t :: t in texts ==> IsText(t)
  }

  ghost predicate TypedRoute(r: Route) {
    && IsText(r.prefix) && TypedTexts(r.path) && |r.auth| == 32
    && |r.props| <= U64_MAX && forall p :: p in r.props ==> TypedProp(p)
  }

  lemma {:induction false} TextsRoundTrip(w: Wire, texts: seq<Text>, tail: Bytes)
    requires Lawful(w) && TypedTexts(texts)
    ensures ReadCountedList(w, TextReader(w), PutCountedList(w, w.putOctets, texts) + tail) == Ok(Parsed(texts, tail))
  {
    TextsReadBack(w, texts);
    CountedRoundTrip(w, TextReader(w), w.putOctets, texts, tail);
  }

  lemma {:induction false} TextsAreTyped(w: Wire, buf: Bytes)
    requires Lawful(w)
    ensures ReadCountedList(w, TextReader(w), buf).Ok? ==>
            TypedTexts(ReadCountedList(w, TextReader(w), buf).value.value)
  {
    CountedElements(w, TextReader(w), t => IsText(t), buf);
  }

  lemma {:induction false} PropsRoundTrip(w: Wire, props: seq<RouteProp>, tail: Bytes)
    requires Lawful(w) && |props| <= U64_MAX && forall p :: p in props ==> TypedProp(p)
    ensures ReadCountedList(w, PropReader(w), PutCountedList(w, PropWriter(w), props) + tail) == Ok(Parsed(props, tail))
  {
    forall p, rest | p in props ensures PropReader(w)(PropWriter(w)(p) + rest) == Ok(Parsed(p, rest)) {
      PropRoundTrip(w, p, rest);
    }
    CountedRoundTrip(w, PropReader(w), PropWriter(w), props, tail);
  }

  /** A route is read back whole, and exactly the bytes after it are left. */
  lemma {:induction false} RouteRoundTrip(w: Wire, r: Route, tail: Bytes)
    requires Lawful(w) && TypedRoute(r)
    ensures ReadRoute(w, PutRoute(w, r) + tail) == Ok(Parsed(r, tail))
  {
    var props := PutCountedList(w, PropWriter(w), r.props) + tail;
    var path := PutCountedList(w, w.putOctets, r.path) + (r.auth + props);
    Regroup(w.putOctets(r.prefix), PutCountedList(w, w.putOctets, r.path), r.auth,
      PutCountedList(w, PropWriter(w), r.props), tail);
    assert PutRoute(w, r) + tail == w.putOctets(r.prefix) + path;
    TextsRoundTrip(w, r.path, r.auth + props);
    assert (r.auth + props)[..32] == r.auth && (r.auth + props)[32..] == props;
    PropsRoundTrip(w, r.props, tail);
  }

  lemma {:induction false} RouteIsTyped(w: Wire, buf: Bytes)
    requires Lawful(w)
    ensures ReadRoute(w, buf).Ok? ==> TypedRoute(ReadRoute(w, buf).value.value)
  {
    if ReadRoute(w, buf).Ok? {
      var prefix := ReadText(w, buf).value;
      TextsAreTyped(w, prefix.rest);
      var path := ReadCountedList(w, TextReader(w), prefix.rest).value;
      forall b ensures PropReader(w)(b).Ok? ==> TypedProp(PropReader(w)(b).value.value) {
        PropIsTyped(w, b);
      }
      CountedElements(w, PropReader(w), p => TypedProp(p), path.rest[32..]);
    }
  }

  lemma {:induction false} RoutesRoundTrip(w: Wire, routes: seq<Route>, tail: Bytes)
    requires Lawful(w) && |routes| <= U64_MAX && forall r :: r in routes ==> TypedRoute(r)
    ensures ReadCountedList(w, RouteReader(w), PutCountedList(w, RouteWriter(w), routes) + tail) ==
            Ok(Parsed(routes, tail))
  {
    forall r, rest | r in routes ensures RouteReader(w)(RouteWriter(w)(r) + rest) == Ok(Parsed(r, rest)) {
      RouteRoundTrip(w, r, rest);
    }
    CountedRoundTrip(w, RouteReader(w), RouteWriter(w), routes, tail);
  }

  lemma {:induction false} RoutesAreTyped(w: Wire, buf: Bytes)
    requires Lawful(w)
    ensures match ReadCountedList(w, RouteReader(w), buf)
            case Ok(p) => |p.value| <= U64_MAX && forall r :: r in p.value ==> TypedRoute(r)
            case Err(_) => true
  {
    forall b ensures RouteReader(w)(b).Ok? ==> TypedRoute(RouteReader(w)(b).value.value) {
      RouteIsTyped(w, b);
    }
    CountedElements(w, RouteReader(w), r => TypedRoute(r), buf);
  }

  // ---- Control requests ----

  function DecodedControl(w: Wire, data: Bytes): (r: Result<RouteControl, CodecError>) {
    if |data| < 23 then Err(UnexpectedEof)
    else if data[0] > 1 then Err(UnexpectedMode)
    else
      var features :- ReadCountedList(w, TextReader(w), data[21..]);
      Ok(RouteControl(if data[0] == 0 then Idle else Sync, data[1..17], Uint(data[17..21]), features.value))
  }

  function EncodedControl(w: Wire, c: RouteControl): (bs: Bytes) {
    [if c.mode == Idle then 0 else 1] + c.lastKnownTableId + UintBytes(c.lastKnownEpoch, 4)
    + PutCountedList(w, w.putOctets, c.features)
  }

  ghost predicate TypedControl(c: RouteControl) {
    |c.lastKnownTableId| == 16 && c.lastKnownEpoch < 0x1_0000_0000 && TypedTexts(c.features)
  }

  lemma {:induction false} U32RoundTrip(n: nat)
    requires n < 0x1_0000_0000
    ensures Uint(UintBytes(n, 4)) == n
  {
    assert Pow256(2) == 0x1_0000 && Pow256(4) == 0x1_0000_0000;
    UintOfBytes(n, 4);
  }

  lemma {:induction false} ControlRoundTrip(w: Wire, c: RouteControl, tail: Bytes)
    requires Lawful(w) && TypedControl(c)
    ensures DecodedControl(w, EncodedControl(w, c) + tail) == Ok(c)
  {
    var features := PutCountedList(w, w.putOctets, c.features);
    var data := EncodedControl(w, c) + tail;
    assert |features| >= 2;
    assert data[1..17] == c.lastKnownTableId && data[17..21] == UintBytes(c.lastKnownEpoch, 4);
    assert data[21..] == features + tail;
    U32RoundTrip(c.lastKnownEpoch);
    TextsRoundTrip(w, c.features, tail);
  }

  lemma {:induction false} ControlIsTyped(w: Wire, data: Bytes)
    requires Lawful(w)
    ensures DecodedControl(w, data).Ok? ==> TypedControl(DecodedControl(w, data).value)
  {
    if DecodedControl(w, data).Ok? {
      U32Fits(data[17..21]);
      TextsAreTyped(w, data[21..]);
    }
  }

  /** Printing what was parsed and parsing it again gives the same request, though trailing bytes are dropped. */
  lemma {:induction false} ControlIdempotent(strict: bool, data: Bytes)
    ensures var w := OerWire(strict);
            match DecodedControl(w, data)
            case Ok(c) => DecodedControl(w, EncodedControl(w, c)) == Ok(c)
            case Err(_) => true
  {
    var w := OerWire(strict);
    OerIsLawful(strict);
    ControlIsTyped(w, data);
    if DecodedControl(w, data).Ok? {
      var c := DecodedControl(w, data).value;
      ControlRoundTrip(w, c, []);
      assert EncodedControl(w, c) + [] == EncodedControl(w, c);
    }
  }

  // ---- Update requests ----

  function DecodedUpdate(w: Wire, data: Bytes): (r: Result<RouteUpdate, CodecError>) {
    if |data| < 40 then Err(UnexpectedEof)
    else
      var speaker :- ReadAddress(w, data[32..]);
      var routes :- ReadCountedList(w, RouteReader(w), speaker.rest);
      var withdrawn :- ReadCountedList(w, TextReader(w), routes.rest);
      Ok(RouteUpdate(data[..16], Uint(data[16..20]), Uint(data[20..24]), Uint(data[24..28]), Uint(data[28..32]),
                     speaker.value, routes.value, withdrawn.value))
  }

  function UpdateHead(u: RouteUpdate): (bs: Bytes) {
    u.tableId + UintBytes(u.currentEpoch, 4) + UintBytes(u.fromEpoch, 4) + UintBytes(u.toEpoch, 4)
      + UintBytes(u.holdDownTime, 4)
  }

  function EncodedUpdate(w: Wire, u: RouteUpdate): (bs: Bytes) {
    UpdateHead(u) + w.putOctets(u.speaker) + PutCountedList(w, RouteWriter(w), u.newRoutes)
    + PutCountedList(w, w.putOctets, u.withdrawnRoutes)
  }

  ghost predicate TypedUpdate(u: RouteUpdate) {
    && |u.tableId| == 16
    && u.currentEpoch < 0x1_0000_0000 && u.fromEpoch < 0x1_0000_0000 && u.toEpoch < 0x1_0000_0000
    && u.holdDownTime < 0x1_0000_0000
    && ValidAddress(u.speaker)
    && |u.newRoutes| <= U64_MAX && (forall r :: r in u.newRoutes ==> TypedRoute(r))
    && TypedTexts(u.withdrawnRoutes)
  }

  lemma {:induction false} HeadSlices(u: RouteUpdate, tail: Bytes)
    requires |u.tableId| == 16
    ensures var data := UpdateHead(u) + tail;
            && data[..16] == u.tableId
            && data[16..20] == UintBytes(u.currentEpoch, 4) && data[20..24] == UintBytes(u.fromEpoch, 4)
            && data[24..28] == UintBytes(u.toEpoch, 4) && data[28..32] == UintBytes(u.holdDownTime, 4)
            && data[32..] == tail
  {
  }

  lemma {:induction false} UpdateRoundTrip(w: Wire, u: RouteUpdate, tail: Bytes)
    requires Lawful(w) && TypedUpdate(u)
    ensures DecodedUpdate(w, EncodedUpdate(w, u) + tail) == Ok(u)
  {
    var withdrawn := PutCountedList(w, w.putOctets, u.withdrawnRoutes);
    var routes := PutCountedList(w, RouteWriter(w), u.newRoutes);
    var body := w.putOctets(u.speaker) + (routes + (withdrawn + tail));
    Regroup(UpdateHead(u), w.putOctets(u.speaker), routes, withdrawn, tail);
    assert EncodedUpdate(w, u) + tail == UpdateHead(u) + body;
    HeadSlices(u, body);
    U32RoundTrip(u.currentEpoch);
    U32RoundTrip(u.fromEpoch);
    U32RoundTrip(u.toEpoch);
    U32RoundTrip(u.holdDownTime);
    AddressLength(u.speaker);
    assert |routes| >= 2 && |withdrawn| >= 2;
    RoutesRoundTrip(w, u.newRoutes, withdrawn + tail);
    TextsRoundTrip(w, u.withdrawnRoutes, tail);
  }

  lemma {:induction false} UpdateIsTyped(w: Wire, data: Bytes)
    requires Lawful(w)
    ensures DecodedUpdate(w, data).Ok? ==> TypedUpdate(DecodedUpdate(w, data).value)
  {
    if DecodedUpdate(w, data).Ok? {
      U32Fits(data[16..20]);
      U32Fits(data[20..24]);
      U32Fits(data[24..28]);
      U32Fits(data[28..32]);
      var speaker := ReadAddress(w, data[32..]).value;
      RoutesAreTyped(w, speaker.rest);
      var routes := ReadCountedList(w, RouteReader(w), speaker.rest).value;
      TextsAreTyped(w, routes.rest);
    }
  }

  /** As for control requests; spare flag bits of properties are dropped as well. */
  lemma {:induction false} UpdateIdempotent(strict: bool, data: Bytes)
    ensures var w := OerWire(strict);
            match DecodedUpdate(w, data)
            case Ok(u) => DecodedUpdate(w, EncodedUpdate(w, u)) == Ok(u)
            case Err(_) => true
  {
    var w := OerWire(strict);
    OerIsLawful(strict);
    UpdateIsTyped(w, data);
    if DecodedUpdate(w, data).Ok? {
      var u := DecodedUpdate(w, data).value;
      UpdateRoundTrip(w, u, []);
      assert EncodedUpdate(w, u) + [] == EncodedUpdate(w, u);
    }
  }

  // ---- The parsers and writers themselves ----

  method ControlFromData(w: Wire, data: Bytes) returns (r: Result<RouteControl, CodecError>)
    ensures r == DecodedControl(w, data)
  {
    if |data| < 23 {
      return Err(UnexpectedEof);
    }
    if data[0] > 1 {
      return Err(UnexpectedMode);
    }
    var mode := if data[0] == 0 then Idle else Sync;
    var count :- w.readUint(data[21..]);
    var features := ReadCounted(TextReader(w), count.value, count.rest);
    if features.Err? {
      return Err(features.error);
    }
    r := Ok(RouteControl(mode, data[1..17], Uint(data[17..21]), features.value.value));
  }

  method RouteFrom(w: Wire, buf: Bytes) returns (r: Reading<Route>)
    ensures r == ReadRoute(w, buf)
  {
    var prefix :- ReadText(w, buf);
    var pathCount :- w.readUint(prefix.rest);
    var path := ReadCounted(TextReader(w), pathCount.value, pathCount.rest);
    if path.Err? {
      return Err(path.error);
    }
    var reader := path.value.rest;
    if |reader| < 32 {
      return Err(UnexpectedEof);
    }
    var auth := reader[..32];
    var propCount :- w.readUint(reader[32..]);
    var props := ReadCounted(PropReader(w), propCount.value, propCount.rest);
    if props.Err? {
      return Err(props.error);
    }
    r := Ok(Parsed(Route(prefix.value, path.value.value, auth, props.value.value), props.value.rest));
  }

  method UpdateFromData(w: Wire, data: Bytes) returns (r: Result<RouteUpdate, CodecError>)
    ensures r == DecodedUpdate(w, data)
  {
    if |data| < 40 {
      return Err(UnexpectedEof);
    }
    var speaker :- ReadAddress(w, data[32..]);
    var routeCount :- w.readUint(speaker.rest);
    var routes := ReadCounted(RouteReader(w), routeCount.value, routeCount.rest);
    if routes.Err? {
      return Err(routes.error);
    }
    var withdrawnCount :- w.readUint(routes.value.rest);
    var withdrawn := ReadCounted(TextReader(w), withdrawnCount.value, withdrawnCount.rest);
    if withdrawn.Err? {
      return Err(withdrawn.error);
    }
    r := Ok(RouteUpdate(data[..16], Uint(data[16..20]), Uint(data[20..24]), Uint(data[24..28]), Uint(data[28..32]),
                        speaker.value, routes.value.value, withdrawn.value.value));
  }

  method UpdateToData(w: Wire, u: RouteUpdate) returns (data: Bytes)
    ensures data == EncodedUpdate(w, u)
  {
    data := UpdateHead(u) + w.putOctets(u.speaker);
    var routes := PutAll(RouteWriter(w), u.newRoutes);
    data := data + (w.putUint(|u.newRoutes|) + routes);
    var withdrawn := PutAll(w.putOctets, u.withdrawnRoutes);
    data := data + (w.putUint(|u.withdrawnRoutes|) + withdrawn);
  }
}
