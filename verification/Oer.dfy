/** The variable-length primitives of the Octet Encoding Rules, as Interledger RFC 0030 restricts them (oer.rs). */
module Oer {
  import opened Basics

  /** Every way in which the packet parsers of this project can fail. */
  datatype CodecError =
    | UnexpectedEof
    | LengthTooLarge | IndefiniteLength | LeadingZeros | StrictLeadingZeros
    | VarUintZeroLength | VarUintTooLarge
    | InvalidTimestamp
    | InvalidUtf8 | InvalidAddress | InvalidErrorCode
    | UnknownPacketType | UnexpectedPacketType | UnexpectedMode
    | TrailingBytes

  /** A value read, and where the cursor is left. */
  datatype Parsed<+T> = Parsed(value: T, rest: Bytes)

  type Reading<+T> = Result<Parsed<T>, CodecError>

  // ---- Big-endian integers ----

  function Pow256(k: nat): (p: nat)
    ensures p > 0
  {
    if k == 0 then 1 else 256 * Pow256(k - 1)
  }

  function Uint(bs: Bytes): (n: nat) {
    if bs == [] then 0 else 256 * Uint(bs[..|bs| - 1]) + bs[|bs| - 1]
  }

  function UintBytes(n: nat, size: nat): (bs: Bytes)
    ensures |bs| == size
  {
    if size == 0 then [] else UintBytes(n / 256, size - 1) + [n % 256]
  }

  lemma {:induction false} UintOfBytes(n: nat, size: nat)
    requires n < Pow256(size)
    ensures Uint(UintBytes(n, size)) == n
  {
    if size > 0 {
      UintOfBytes(n / 256, size - 1);
      assert UintBytes(n, size)[..size - 1] == UintBytes(n / 256, size - 1);
    }
  }

  lemma {:induction false} BytesOfUint(bs: Bytes)
    ensures Uint(bs) < Pow256(|bs|) && UintBytes(Uint(bs), |bs|) == bs
  {
    if bs != [] {
      BytesOfUint(bs[..|bs| - 1]);
      assert Uint(bs) / 256 == Uint(bs[..|bs| - 1]) && Uint(bs) % 256 == bs[|bs| - 1];
    }
  }

  // ---- Size prediction ----

  /** 64 minus `leading_zeros`. */
  function BitLength(n: nat): (k: nat) {
    if n == 0 then 0 else 1 + BitLength(n / 2)
  }

  /** `value | 1`, which is never zero. */
  function Nonzero(value: nat): (n: nat) {
    if value % 2 == 0 then value + 1 else value
  }

  function PredictVarUintSize(value: nat): (size: nat) {
    (BitLength(Nonzero(value)) + 8 - 1) / 8
  }

  function PredictVarOctetString(length: nat): (size: nat) {
    if length < 128 then 1 + length else 1 + PredictVarUintSize(length) + length
  }

  lemma {:induction false} BitLengthOfByteShift(n: nat)
    requires n >= 256
    ensures BitLength(n) == 8 + BitLength(n / 256)
  {
    var a, b, c, d, e, f, g := n / 2, n / 4, n / 8, n / 16, n / 32, n / 64, n / 128;
    assert b == a / 2 && c == b / 2 && d == c / 2 && e == d / 2 && f == e / 2 && g == f / 2 && n / 256 == g / 2;
    assert BitLength(n) == 2 + BitLength(b) && BitLength(b) == 2 + BitLength(d);
    assert BitLength(d) == 2 + BitLength(f) && BitLength(f) == 2 + BitLength(n / 256);
  }

  lemma {:induction false} PredictNext(n: nat)
    requires n >= 256
    ensures PredictVarUintSize(n) == 1 + PredictVarUintSize(n / 256)
  {
    var bits := BitLength(n / 256);
    NonzeroShift(n);
    BitLengthOfByteShift(Nonzero(n));
    NonzeroLength(n / 256);
    assert (8 + bits + 8 - 1) / 8 == 1 + (bits + 8 - 1) / 8;
  }

  lemma {:induction false} NonzeroShift(n: nat)
    ensures Nonzero(n) / 256 == n / 256
  {
    assert n == 2 * (n / 2) + n % 2 && n / 256 == n / 2 / 128;
    assert Nonzero(n) / 2 == n / 2 && Nonzero(n) / 256 == Nonzero(n) / 2 / 128;
  }

  lemma {:induction false} NonzeroLength(n: nat)
    requires n > 0
    ensures BitLength(Nonzero(n)) == BitLength(n)
  {
    assert Nonzero(n) / 2 == n / 2;
  }

  lemma {:induction false} SmallBitLength(n: nat)
    requires 1 <= n < 256
    ensures 1 <= BitLength(n) <= 8
  {
    assert Pow2(4) == 16 && Pow2(8) == 256;
    HalvingBound(n, 8);
  }

  lemma {:induction false} HalvingBound(n: nat, k: nat)
    requires n < Pow2(k)
    ensures BitLength(n) <= k
  {
    if n > 0 {
      HalvingBound(n / 2, k - 1);
    }
  }

  /** The predicted size is the least number of bytes that holds the value. */
  lemma {:induction false} PredictIsMinimal(n: nat)
    ensures var k := PredictVarUintSize(n);
            k >= 1 && n < Pow256(k) && (k > 1 ==> n >= Pow256(k - 1))
  {
    if n >= 256 {
      PredictNext(n);
      PredictIsMinimal(n / 256);
    } else {
      SmallBitLength(Nonzero(n));
      assert Pow256(1) == 256 * Pow256(0);
    }
  }

  lemma {:induction false} Pow256Monotone(i: nat, j: nat)
    requires i <= j
    ensures Pow256(i) <= Pow256(j)
  {
    if i < j {
      Pow256Monotone(i, j - 1);
    }
  }

  lemma {:induction false} EightBytes()
    ensures Pow256(8) == U64_MAX + 1
  {
    assert Pow256(2) == 0x1_0000 && Pow256(4) == 0x1_0000_0000 && Pow256(6) == 0x1_0000_0000_0000;
  }

  lemma {:induction false} U64SizeFits(n: nat)
    requires n <= U64_MAX
    ensures PredictVarUintSize(n) <= 8
  {
    PredictIsMinimal(n);
    EightBytes();
    if PredictVarUintSize(n) > 8 {
      Pow256Monotone(8, PredictVarUintSize(n) - 1);
    }
  }

  // ---- Readers and writers ----

  function ReadLength(strict: bool, buf: Bytes): (r: Reading<nat>) {
    if |buf| < 1 then Err(UnexpectedEof)
    else if buf[0] < 128 then Ok(Parsed(buf[0], buf[1..]))
    else
      var n := buf[0] - 128;
      if n > 8 then Err(LengthTooLarge)
      else if n == 0 then Err(IndefiniteLength)
      else if |buf| - 1 < n then Err(UnexpectedEof)
      else
        var uint := Uint(buf[1..n + 1]);
        if strict && n != PredictVarUintSize(uint) then Err(StrictLeadingZeros)
        else if n == 1 && uint < 128 then Err(LeadingZeros)
        else Ok(Parsed(uint, buf[n + 1..]))
  }

  function LengthReader(strict: bool): (read: Bytes -> Reading<nat>) {
    buf => ReadLength(strict, buf)
  }

  function ReadVarOctetString(strict: bool, buf: Bytes): (r: Reading<Bytes>) {
    ReadOctets(LengthReader(strict), buf)
  }

  /** A length, and then that many bytes. */
  function ReadOctets(readLength: Bytes -> Reading<nat>, buf: Bytes): (r: Reading<Bytes>) {
    var length :- readLength(buf);
    if |length.rest| < length.value then Err(UnexpectedEof)
    else Ok(Parsed(length.rest[..length.value], length.rest[length.value..]))
  }

  function ReadVarUint(strict: bool, buf: Bytes): (r: Reading<nat>) {
    var size :- ReadLength(strict, buf);
    if size.value == 0 then Err(VarUintZeroLength)
    else if size.value > 8 then Err(VarUintTooLarge)
    else if |size.rest| < size.value then Err(UnexpectedEof)
    else
      var uint := Uint(size.rest[..size.value]);
      if strict && size.value != PredictVarUintSize(uint) then Err(StrictLeadingZeros)
      else Ok(Parsed(uint, size.rest[size.value..]))
  }

  /** A u64 takes at most 8 bytes, so the number of bytes always fits behind the flag bit. */
  function PutLength(length: nat): (bs: Bytes) {
    if length < 128 then [length]
    else
      var size := PredictVarUintSize(length);
      [128 + Min(size, 127)] + UintBytes(length, size)
  }

  function PutVarOctetString(s: Bytes): (bs: Bytes) {
    PutLength(|s|) + s
  }

  function PutVarUint(n: nat): (bs: Bytes) {
    var size := PredictVarUintSize(n);
    PutLength(size) + UintBytes(n, size)
  }

  // ---- Reading back what was written, in either mode ----

  lemma {:induction false} LongLengthReads(strict: bool, bytes: Bytes, tail: Bytes)
    requires 1 <= |bytes| <= 8 && Uint(bytes) >= 128 && |bytes| == PredictVarUintSize(Uint(bytes))
    ensures ReadLength(strict, [128 + |bytes|] + bytes + tail) == Ok(Parsed(Uint(bytes), tail))
  {
    var buf := [128 + |bytes|] + bytes + tail;
    assert buf[1..|bytes| + 1] == bytes && buf[|bytes| + 1..] == tail;
  }

  lemma {:induction false} LengthRoundTrip(strict: bool, length: nat, tail: Bytes)
    requires length <= U64_MAX
    ensures ReadLength(strict, PutLength(length) + tail) == Ok(Parsed(length, tail))
  {
    if length >= 128 {
      U64SizeFits(length);
      PredictIsMinimal(length);
      UintOfBytes(length, PredictVarUintSize(length));
      LongLengthReads(strict, UintBytes(length, PredictVarUintSize(length)), tail);
    }
  }

  lemma {:induction false} OctetsRoundTrip(strict: bool, s: Bytes, tail: Bytes)
    requires |s| <= U64_MAX
    ensures ReadVarOctetString(strict, PutVarOctetString(s) + tail) == Ok(Parsed(s, tail))
  {
    assert PutVarOctetString(s) + tail == PutLength(|s|) + (s + tail);
    LengthRoundTrip(strict, |s|, s + tail);
  }

  lemma {:induction false} VarUintRoundTrip(strict: bool, n: nat, tail: Bytes)
    requires n <= U64_MAX
    ensures ReadVarUint(strict, PutVarUint(n) + tail) == Ok(Parsed(n, tail))
  {
    U64SizeFits(n);
    PredictIsMinimal(n);
    var size := PredictVarUintSize(n);
    var bytes := UintBytes(n, size);
    assert PutVarUint(n) + tail == PutLength(size) + (bytes + tail);
    LengthRoundTrip(strict, size, bytes + tail);
    UintOfBytes(n, size);
    assert (bytes + tail)[..size] == bytes && (bytes + tail)[size..] == tail;
  }

  // ---- In strict mode, only what was written can be read ----

  lemma {:induction false} UintFits(bs: Bytes)
    requires |bs| <= 8
    ensures Uint(bs) <= U64_MAX && UintBytes(Uint(bs), |bs|) == bs
  {
    BytesOfUint(bs);
    Pow256Monotone(|bs|, 8);
    EightBytes();
  }

  lemma {:induction false} U32Fits(bs: Bytes)
    requires |bs| == 4
    ensures Uint(bs) < 0x1_0000_0000
  {
    assert Pow256(2) == 0x1_0000 && Pow256(4) == 0x1_0000_0000;
    BytesOfUint(bs);
  }

  lemma {:induction false} MultibyteIsLarge(n: nat)
    requires PredictVarUintSize(n) > 1
    ensures n >= 256
  {
    PredictIsMinimal(n);
    Pow256Monotone(1, PredictVarUintSize(n) - 1);
    assert Pow256(1) == 256 * Pow256(0);
  }

  lemma {:induction false} PutLongLength(n: nat)
    requires n >= 128 && PredictVarUintSize(n) <= 8
    ensures PutLength(n) == [128 + PredictVarUintSize(n)] + UintBytes(n, PredictVarUintSize(n))
  {
  }

  lemma {:induction false} StrictLongLength(bs: Bytes)
    requires 1 <= |bs| <= 8 && |bs| == PredictVarUintSize(Uint(bs)) && (|bs| == 1 ==> Uint(bs) >= 128)
    ensures Uint(bs) <= U64_MAX && PutLength(Uint(bs)) == [128 + |bs|] + bs
  {
    UintFits(bs);
    if |bs| > 1 {
      MultibyteIsLarge(Uint(bs));
    }
    PutLongLength(Uint(bs));
  }

  lemma {:induction false} StrictLength(buf: Bytes)
    ensures match ReadLength(true, buf)
            case Ok(p) => p.value <= U64_MAX && buf == PutLength(p.value) + p.rest
            case Err(_) => true
  {
    var r := ReadLength(true, buf);
    if r.Ok? && buf[0] >= 128 {
      var n := buf[0] - 128;
      StrictLongLength(buf[1..n + 1]);
      assert buf == ([buf[0]] + buf[1..n + 1]) + buf[n + 1..];
    }
  }

  lemma {:induction false} StrictOctets(buf: Bytes)
    ensures match ReadVarOctetString(true, buf)
            case Ok(p) => |p.value| <= U64_MAX && buf == PutVarOctetString(p.value) + p.rest
            case Err(_) => true
  {
    StrictLength(buf);
    var length := ReadLength(true, buf);
    if length.Ok? && |length.value.rest| >= length.value.value {
      assert length.value.rest == length.value.rest[..length.value.value] + length.value.rest[length.value.value..];
    }
  }

  lemma {:induction false} StrictUint(size: nat, rest: Bytes)
    requires 1 <= size <= 8 && size <= |rest| && size == PredictVarUintSize(Uint(rest[..size]))
    ensures var n := Uint(rest[..size]); n <= U64_MAX && PutVarUint(n) + rest[size..] == PutLength(size) + rest
  {
    UintFits(rest[..size]);
    assert rest == rest[..size] + rest[size..];
  }

  lemma {:induction false} StrictVarUint(buf: Bytes)
    ensures match ReadVarUint(true, buf)
            case Ok(p) => p.value <= U64_MAX && buf == PutVarUint(p.value) + p.rest
            case Err(_) => true
  {
    StrictLength(buf);
    var r := ReadVarUint(true, buf);
    if r.Ok? {
      var size := ReadLength(true, buf).value;
      StrictUint(size.value, size.rest);
    }
  }

  /** Outside strict mode a length may carry leading zeros, so two byte strings read as the same value. */
  lemma {:induction false} LenientIsNotCanonical(tail: Bytes)
    ensures ReadLength(false, [130, 0, 200] + tail) == ReadLength(false, [129, 200] + tail) == Ok(Parsed(200, tail))
    ensures ReadLength(true, [130, 0, 200] + tail) == Err(StrictLeadingZeros)
  {
    var long, short := [130, 0, 200] + tail, [129, 200] + tail;
    assert long[1..3] == [0, 200] && long[3..] == tail && short[1..2] == [200] && short[2..] == tail;
    assert [0, 200][..1] == [0] && [0][..0] == [] && [200][..0] == [];
    assert Uint([0, 200]) == 200 && Uint([200]) == 200;
    PredictIsMinimal(200);
    assert Pow256(1) == 256 * Pow256(0);
    Pow256Monotone(1, Max(PredictVarUintSize(200) - 1, 1));
  }

  /** The predicted sizes are the sizes written. */
  lemma {:induction false} PredictedOctets(s: Bytes)
    ensures |PutVarOctetString(s)| == PredictVarOctetString(|s|)
    ensures |PutLength(|s|)| == PredictVarOctetString(|s|) - |s|
  {
  }

  // ---- The interface the packet codecs use ----

  /** The readers of `BufOerExt` and the writers of `MutBufOerExt`. */
  datatype Wire = Wire(
    readOctets: Bytes -> Reading<Bytes>, readUint: Bytes -> Reading<nat>,
    putOctets: Bytes -> Bytes, putUint: nat -> Bytes,
    putLength: nat -> Bytes, predict: nat -> nat)

  function OerWire(strict: bool): (w: Wire) {
    Wire(buf => ReadVarOctetString(strict, buf), buf => ReadVarUint(strict, buf), PutVarOctetString, PutVarUint,
         PutLength, PredictVarOctetString)
  }

  /** Readers read back what the writers wrote, leave what follows, and yield u64 counts and lengths. */
  ghost predicate Lawful(w: Wire) {
    && (forall s, tail :: |s| <= U64_MAX ==> w.readOctets(w.putOctets(s) + tail) == Ok(Parsed(s, tail)))
    && (forall n: nat, tail :: n <= U64_MAX ==> w.readUint(w.putUint(n) + tail) == Ok(Parsed(n, tail)))
    && (forall buf :: w.readOctets(buf).Ok? ==> |w.readOctets(buf).value.value| <= U64_MAX)
    && (forall buf :: w.readUint(buf).Ok? ==> w.readUint(buf).value.value <= U64_MAX)
    && (forall s :: |w.putOctets(s)| > |s|)
    && (forall n: nat :: |w.putUint(n)| >= 2)
  }

  /** Readers accept only what the writers write. */
  ghost predicate CanonicalWire(w: Wire) {
    && (forall buf :: w.readOctets(buf).Ok? ==>
          var p := w.readOctets(buf).value;
          |p.value| <= U64_MAX && buf == w.putOctets(p.value) + p.rest)
    && (forall buf :: w.readUint(buf).Ok? ==>
          var p := w.readUint(buf).value;
          p.value <= U64_MAX && buf == w.putUint(p.value) + p.rest)
  }

  /** An octet string is its length and then its bytes, and takes the predicted room. */
  ghost predicate PutAt(w: Wire, s: Bytes) {
    w.putOctets(s) == w.putLength(|s|) + s && |w.putOctets(s)| == w.predict(|s|)
  }

  ghost predicate LengthFirst(w: Wire) {
    forall s :: PutAt(w, s)
  }

  /** The bytes before the value and the rest: its length. */
  function LengthOf(w: Wire, buf: Bytes): (k: int) {
    if w.readOctets(buf).Ok? then |buf| - |w.readOctets(buf).value.value| - |w.readOctets(buf).value.rest| else 0
  }

  /** Reading splits the buffer into a length, the value and the rest. */
  ghost predicate SplitAt(w: Wire, buf: Bytes) {
    w.readOctets(buf).Ok? ==>
      && 1 <= LengthOf(w, buf) <= |buf|
      && buf == buf[..LengthOf(w, buf)] + w.readOctets(buf).value.value + w.readOctets(buf).value.rest
  }

  /** After the same length, any value of that many bytes and any rest are read in the same way. */
  ghost predicate LocalAt(w: Wire, buf: Bytes, s: Bytes, tail: Bytes) {
    w.readOctets(buf).Ok? && |s| == |w.readOctets(buf).value.value| && 1 <= LengthOf(w, buf) <= |buf| ==>
      w.readOctets(buf[..LengthOf(w, buf)] + s + tail) == Ok(Parsed(s, tail))
  }

  ghost predicate Local(w: Wire) {
    && (forall buf :: SplitAt(w, buf))
    && (forall buf, s, tail :: LocalAt(w, buf, s, tail))
  }

  /** A length is read from its own bytes only. */
  ghost predicate LengthLocalAt(readLength: Bytes -> Reading<nat>, buf: Bytes, after: Bytes) {
    readLength(buf).Ok? ==>
      var p := readLength(buf).value;
      var k := |buf| - |p.rest|;
      && 1 <= k <= |buf| && buf[k..] == p.rest
      && readLength(buf[..k] + after) == Ok(Parsed(p.value, after))
  }

  lemma {:induction false} LengthIsLocal(strict: bool, buf: Bytes, after: Bytes)
    ensures LengthLocalAt(LengthReader(strict), buf, after)
  {
    if ReadLength(strict, buf).Ok? {
      var p := ReadLength(strict, buf).value;
      var k := |buf| - |p.rest|;
      var buf' := buf[..k] + after;
      assert buf'[k..] == after && buf'[1..k] == buf[1..k];
    }
  }

  lemma {:induction false} OctetsSplit(readLength: Bytes -> Reading<nat>, buf: Bytes)
    requires ReadOctets(readLength, buf).Ok? && LengthLocalAt(readLength, buf, [])
    ensures var p := ReadOctets(readLength, buf).value;
            var length := readLength(buf).value;
            var k := |buf| - |p.value| - |p.rest|;
            && 1 <= k <= |buf| && k == |buf| - |length.rest| && length.value == |p.value|
            && buf == buf[..k] + p.value + p.rest
  {
    var p := ReadOctets(readLength, buf).value;
    var rest := readLength(buf).value.rest;
    assert rest == p.value + p.rest;
    assert buf == buf[..|buf| - |rest|] + (p.value + p.rest);
  }

  lemma {:induction false} OctetsAreLocal(readLength: Bytes -> Reading<nat>, buf: Bytes, s: Bytes, tail: Bytes)
    requires ReadOctets(readLength, buf).Ok? && |s| == |ReadOctets(readLength, buf).value.value|
    requires LengthLocalAt(readLength, buf, []) && LengthLocalAt(readLength, buf, s + tail)
    ensures var p := ReadOctets(readLength, buf).value;
            var k := |buf| - |p.value| - |p.rest|;
            0 <= k <= |buf| && ReadOctets(readLength, buf[..k] + s + tail) == Ok(Parsed(s, tail))
  {
    OctetsSplit(readLength, buf);
    var k := |buf| - |readLength(buf).value.rest|;
    assert buf[..k] + s + tail == buf[..k] + (s + tail);
    assert (s + tail)[..|s|] == s && (s + tail)[|s|..] == tail;
  }

  lemma {:induction false} OerSplitsAt(strict: bool, buf: Bytes)
    ensures SplitAt(OerWire(strict), buf)
  {
    LengthIsLocal(strict, buf, []);
    if ReadOctets(LengthReader(strict), buf).Ok? {
      OctetsSplit(LengthReader(strict), buf);
    }
  }

  lemma {:induction false} OerIsLocalAt(strict: bool, buf: Bytes, s: Bytes, tail: Bytes)
    ensures LocalAt(OerWire(strict), buf, s, tail)
  {
    LengthIsLocal(strict, buf, []);
    LengthIsLocal(strict, buf, s + tail);
    if ReadOctets(LengthReader(strict), buf).Ok? && |s| == |ReadOctets(LengthReader(strict), buf).value.value| {
      OctetsAreLocal(LengthReader(strict), buf, s, tail);
    }
  }

  lemma {:induction false} OerIsLocal(strict: bool)
    ensures Local(OerWire(strict))
  {
    forall buf ensures SplitAt(OerWire(strict), buf) {
      OerSplitsAt(strict, buf);
    }
    forall buf, s, tail ensures LocalAt(OerWire(strict), buf, s, tail) {
      OerIsLocalAt(strict, buf, s, tail);
    }
  }

  lemma {:induction false} OerLengthFirst(strict: bool)
    ensures LengthFirst(OerWire(strict))
  {
    var w := OerWire(strict);
    forall s ensures PutAt(w, s) {
      PredictedOctets(s);
    }
  }

  lemma {:induction false} LengthFits(strict: bool, buf: Bytes)
    ensures ReadLength(strict, buf).Ok? ==> ReadLength(strict, buf).value.value <= U64_MAX
  {
    if ReadLength(strict, buf).Ok? && buf[0] >= 128 {
      UintFits(buf[1..buf[0] - 127]);
    }
  }

  lemma {:induction false} VarUintFits(strict: bool, buf: Bytes)
    ensures ReadVarUint(strict, buf).Ok? ==> ReadVarUint(strict, buf).value.value <= U64_MAX
  {
    if ReadVarUint(strict, buf).Ok? {
      var size := ReadLength(strict, buf).value;
      UintFits(size.rest[..size.value]);
    }
  }

  /** Outside strict mode a length is spelled as it would be written, exactly when strict mode accepts it. */
  lemma {:induction false} CanonicalIffStrict(buf: Bytes)
    requires ReadLength(false, buf).Ok?
    ensures var p := ReadLength(false, buf).value;
            buf == PutLength(p.value) + p.rest <==> ReadLength(true, buf).Ok?
  {
    var p := ReadLength(false, buf).value;
    LengthFits(false, buf);
    if buf == PutLength(p.value) + p.rest {
      LengthRoundTrip(true, p.value, p.rest);
    }
    StrictLength(buf);
  }

  lemma {:induction false} OctetsLaws(strict: bool)
    ensures var w := OerWire(strict);
            && (forall s, tail :: |s| <= U64_MAX ==> w.readOctets(w.putOctets(s) + tail) == Ok(Parsed(s, tail)))
            && (forall buf :: w.readOctets(buf).Ok? ==> |w.readOctets(buf).value.value| <= U64_MAX)
            && (forall s :: |w.putOctets(s)| > |s|)
  {
    var w := OerWire(strict);
    forall s, tail | |s| <= U64_MAX ensures w.readOctets(w.putOctets(s) + tail) == Ok(Parsed(s, tail)) {
      OctetsRoundTrip(strict, s, tail);
    }
    forall buf ensures w.readOctets(buf).Ok? ==> |w.readOctets(buf).value.value| <= U64_MAX {
      LengthFits(strict, buf);
    }
  }

  lemma {:induction false} UintLaws(strict: bool)
    ensures var w := OerWire(strict);
            && (forall n: nat, tail :: n <= U64_MAX ==> w.readUint(w.putUint(n) + tail) == Ok(Parsed(n, tail)))
            && (forall buf :: w.readUint(buf).Ok? ==> w.readUint(buf).value.value <= U64_MAX)
            && (forall n: nat :: |w.putUint(n)| >= 2)
  {
    var w := OerWire(strict);
    forall n: nat, tail | n <= U64_MAX ensures w.readUint(w.putUint(n) + tail) == Ok(Parsed(n, tail)) {
      VarUintRoundTrip(strict, n, tail);
    }
    forall n: nat ensures |w.putUint(n)| >= 2 {
      PredictIsMinimal(n);
    }
    forall buf ensures w.readUint(buf).Ok? ==> w.readUint(buf).value.value <= U64_MAX {
      VarUintFits(strict, buf);
    }
  }

  lemma {:induction false} OerIsLawful(strict: bool)
    ensures Lawful(OerWire(strict))
  {
    OctetsLaws(strict);
    UintLaws(strict);
  }

  lemma {:induction false} StrictOerIsCanonical()
    ensures CanonicalWire(OerWire(true))
  {
    var w := OerWire(true);
    forall buf ensures w.readOctets(buf).Ok? ==>
        var p := w.readOctets(buf).value;
        |p.value| <= U64_MAX && buf == w.putOctets(p.value) + p.rest
    {
      StrictOctets(buf);
    }
    forall buf ensures w.readUint(buf).Ok? ==>
        var p := w.readUint(buf).value;
        p.value <= U64_MAX && buf == w.putUint(p.value) + p.rest
    {
      StrictVarUint(buf);
    }
  }

  // ---- Counted lists ----

  function ReadList<T>(read: Bytes -> Reading<T>, n: nat, buf: Bytes): (r: Reading<seq<T>>) {
    if n == 0 then Ok(Parsed([], buf))
    else
      var first :- read(buf);
      var others :- ReadList(read, n - 1, first.rest);
      Ok(Parsed([first.value] + others.value, others.rest))
  }

  function WriteList<T>(write: T -> Bytes, xs: seq<T>): (bs: Bytes) {
    if xs == [] then [] else WriteList(write, xs[..|xs| - 1]) + write(xs[|xs| - 1])
  }

  lemma {:induction false} WriteListCons<T>(write: T -> Bytes, x: T, xs: seq<T>)
    ensures WriteList(write, [x] + xs) == write(x) + WriteList(write, xs)
  {
    if xs == [] {
      assert [x] + xs == [x] && [x][..0] == [];
    } else {
      WriteListCons(write, x, xs[..|xs| - 1]);
      assert ([x] + xs)[..|xs|] == [x] + xs[..|xs| - 1];
    }
  }

  /** `read` reads back every element of `xs` that `write` wrote, whatever follows. */
  ghost predicate ReadsBack<T(!new)>(read: Bytes -> Reading<T>, write: T -> Bytes, xs: seq<T>) {
    forall x, tail :: x in xs ==> read(write(x) + tail) == Ok(Parsed(x, tail))
  }

  /** `read` accepts only what `write` writes. */
  ghost predicate Canonical<T>(read: Bytes -> Reading<T>, write: T -> Bytes) {
    forall buf :: read(buf).Ok? ==> buf == write(read(buf).value.value) + read(buf).value.rest
  }

  lemma {:induction false} ListRoundTrip<T(!new)>(read: Bytes -> Reading<T>, write: T -> Bytes, xs: seq<T>, tail: Bytes)
    requires ReadsBack(read, write, xs)
    ensures ReadList(read, |xs|, WriteList(write, xs) + tail) == Ok(Parsed(xs, tail))
  {
    if xs == [] {
      assert WriteList(write, xs) + tail == tail;
    } else {
      assert xs == [xs[0]] + xs[1..];
      WriteListCons(write, xs[0], xs[1..]);
      assert WriteList(write, xs) + tail == write(xs[0]) + (WriteList(write, xs[1..]) + tail);
      ListRoundTrip(read, write, xs[1..], tail);
    }
  }

  lemma {:induction false} ListCanonical<T>(read: Bytes -> Reading<T>, write: T -> Bytes, n: nat, buf: Bytes)
    requires Canonical(read, write)
    ensures match ReadList(read, n, buf)
            case Ok(p) => |p.value| == n && buf == WriteList(write, p.value) + p.rest
            case Err(_) => true
  {
    if n > 0 && ReadList(read, n, buf).Ok? {
      var first := read(buf).value;
      ListCanonical(read, write, n - 1, first.rest);
      var others := ReadList(read, n - 1, first.rest).value;
      WriteListCons(write, first.value, others.value);
    }
  }

  /** A list has as many elements as were counted, and each is something the element reader yields. */
  lemma {:induction false} ListElements<T(!new)>(read: Bytes -> Reading<T>, sound: T -> bool, n: nat, buf: Bytes)
    requires forall b :: read(b).Ok? ==> sound(read(b).value.value)
    ensures match ReadList(read, n, buf)
            case Ok(p) => |p.value| == n && forall x :: x in p.value ==> sound(x)
            case Err(_) => true
  {
    if n > 0 && read(buf).Ok? {
      ListElements(read, sound, n - 1, read(buf).value.rest);
    }
  }

  /** Reading one element more at the end: the step of every cursor loop. */
  lemma {:induction false} ReadListNext<T>(read: Bytes -> Reading<T>, n: nat, buf: Bytes)
    ensures ReadList(read, n + 1, buf) ==
            match ReadList(read, n, buf)
            case Err(e) => Err(e)
            case Ok(p) =>
              match read(p.rest)
              case Err(e) => Err(e)
              case Ok(q) => Ok(Parsed(p.value + [q.value], q.rest))
  {
    var first := read(buf);
    if first.Ok? && n == 0 {
      assert [first.value.value] + [] == [] + [first.value.value];
    } else if first.Ok? {
      ReadListNext(read, n - 1, first.value.rest);
      var others := ReadList(read, n - 1, first.value.rest);
      if others.Ok? && read(others.value.rest).Ok? {
        var last := read(others.value.rest).value.value;
        assert [first.value.value] + (others.value.value + [last]) ==
               ([first.value.value] + others.value.value) + [last];
      }
    }
  }

  /** The counted cursor loop shared by the list parsers: stop at the first element that does not parse. */
  method ReadCounted<T>(read: Bytes -> Reading<T>, n: nat, buf: Bytes) returns (r: Reading<seq<T>>)
    ensures r == ReadList(read, n, buf)
  {
    var values, reader := [], buf;
    for i := 0 to n
      invariant ReadList(read, i, buf) == Ok(Parsed(values, reader))
    {
      ReadListNext(read, i, buf);
      var next := read(reader);
      if next.Err? {
        ErrorSticks(read, i + 1, n, buf);
        return Err(next.error);
      }
      values := values + [next.value.value];
      reader := next.value.rest;
    }
    r := Ok(Parsed(values, reader));
  }

  lemma {:induction false} ErrorSticks<T>(read: Bytes -> Reading<T>, i: nat, n: nat, buf: Bytes)
    requires i <= n && ReadList(read, i, buf).Err?
    ensures ReadList(read, n, buf) == Err(ReadList(read, i, buf).error)
    decreases n
  {
    if i < n {
      ErrorSticks(read, i, n - 1, buf);
      ReadListNext(read, n - 1, buf);
    }
  }

  /** The loop shared by the list writers. */
  method PutAll<T>(write: T -> Bytes, xs: seq<T>) returns (buf: Bytes)
    ensures buf == WriteList(write, xs)
  {
    buf := [];
    for i := 0 to |xs|
      invariant buf == WriteList(write, xs[..i])
    {
      assert xs[..i + 1][..i] == xs[..i];
      buf := buf + write(xs[i]);
    }
    assert xs[..|xs|] == xs;
  }
}
