/** Which byte strings are UTF-8, ILP addresses and timestamps. */
module Texts {
  import opened Basics
  import opened Oer

  predicate InRange(s: Bytes, i: nat, low: byte, high: byte) {
    i < |s| && low <= s[i] <= high
  }

  /** `str::from_utf8` succeeds: no overlong forms, no surrogates, nothing above U+10FFFF. */
  predicate Utf8(s: Bytes) {
    if s == [] then true
    else if s[0] < 0x80 then Utf8(s[1..])
    else if 0xC2 <= s[0] <= 0xDF then InRange(s, 1, 0x80, 0xBF) && Utf8(s[2..])
    else if 0xE0 <= s[0] <= 0xEF then
      && InRange(s, 1, if s[0] == 0xE0 then 0xA0 else 0x80, if s[0] == 0xED then 0x9F else 0xBF)
      && InRange(s, 2, 0x80, 0xBF) && Utf8(s[3..])
    else if 0xF0 <= s[0] <= 0xF4 then
      && InRange(s, 1, if s[0] == 0xF0 then 0x90 else 0x80, if s[0] == 0xF4 then 0x8F else 0xBF)
      && InRange(s, 2, 0x80, 0xBF) && InRange(s, 3, 0x80, 0xBF) && Utf8(s[4..])
    else false
  }

  function Ascii(s: string): (bs: Bytes) {
    seq(|s|, i requires 0 <= i < |s| => s[i] as int % 256)
  }

  predicate Digit(b: byte) { 48 <= b <= 57 }

  predicate SegmentByte(b: byte) {
    Digit(b) || 65 <= b <= 90 || 97 <= b <= 122 || b == 95 || b == 126 || b == 45
  }

  predicate ValidScheme(s: Bytes) {
    || s == Ascii("g") || s == Ascii("private") || s == Ascii("example") || s == Ascii("peer") || s == Ascii("self")
    || s == Ascii("test") || s == Ascii("test1") || s == Ascii("test2") || s == Ascii("test3") || s == Ascii("local")
  }

  /** An ILP address: Interledger RFC 0015, "Address Requirements". */
  predicate ValidAddress(s: Bytes) {
    var segments := Split(s);
    && |s| <= 1023
    && ValidScheme(segments[0])
    && |segments| >= 2
    && forall i :: 1 <= i < |segments| ==>
         segments[i] != [] && forall j :: 0 <= j < |segments[i]| ==> SegmentByte(segments[i][j])
  }

  lemma {:induction false} SchemeLength(s: Bytes)
    requires ValidScheme(s)
    ensures |s| >= 1
  {
  }

  lemma {:induction false} JoinedLength(segments: seq<Text>)
    requires |segments| >= 2
    ensures |Join(segments)| >= |segments[0]| + 1 + |segments[1]|
  {
    if |segments| > 2 {
      JoinedLength(segments[..|segments| - 1]);
    }
  }

  /** The shortest address has a one-letter scheme and one segment. */
  lemma {:induction false} AddressLength(s: Bytes)
    requires ValidAddress(s)
    ensures |s| >= 3
  {
    var segments := Split(s);
    SchemeLength(segments[0]);
    JoinSplit(s);
    JoinedLength(segments);
  }

  /** A variable-length timestamp: 14 digits, up to three fractional digits, and a Z, that the calendar
      library reads and writes back as they are. */
  predicate ValidTimestamp(calendar: Bytes -> bool, s: Bytes) {
    && |s| in {15, 17, 18, 19}
    && (forall i :: 0 <= i < 14 ==> Digit(s[i]))
    && (|s| > 15 ==> s[14] == 46 && forall i :: 15 <= i < |s| - 1 ==> Digit(s[i]))
    && s[|s| - 1] == 90
    && calendar(s)
  }

  function ReadText(w: Wire, buf: Bytes): (r: Reading<Text>) {
    var s :- w.readOctets(buf);
    if Utf8(s.value) then Ok(s) else Err(InvalidUtf8)
  }

  function ReadTimestamp(w: Wire, calendar: Bytes -> bool, buf: Bytes): (r: Reading<Text>) {
    var s :- w.readOctets(buf);
    if ValidTimestamp(calendar, s.value) then Ok(s) else Err(InvalidTimestamp)
  }

  function ReadAddress(w: Wire, buf: Bytes): (r: Reading<Text>) {
    var s :- w.readOctets(buf);
    if ValidAddress(s.value) then Ok(s) else Err(InvalidAddress)
  }

  /** A Rust `String`. */
  ghost predicate IsText(s: Text) {
    Utf8(s) && |s| <= U64_MAX
  }

  function TextReader(w: Wire): (read: Bytes -> Reading<Text>) {
    buf => ReadText(w, buf)
  }

  lemma {:induction false} TextsReadBack(w: Wire, texts: seq<Text>)
    requires Lawful(w) && forall t :: t in texts ==> IsText(t)
    ensures ReadsBack(TextReader(w), w.putOctets, texts)
  {
  }
}
