/** UTF-8 as the encoding of Unicode scalar values, and addresses as what a pattern accepts. */
module TextFormats {
  import opened Basics
  import opened Texts

  // ---- UTF-8 ----

  /** A code point that is not a surrogate. */
  predicate Scalar(c: nat) {
    c < 0xD800 || 0xE000 <= c < 0x11_0000
  }

  function Encoded(c: nat): (bs: Bytes)
    requires Scalar(c)
  {
    if c < 0x80 then [c]
    else if c < 0x800 then [0xC0 + c / 64, 0x80 + c % 64]
    else if c < 0x1_0000 then [0xE0 + c / 4096, 0x80 + c / 64 % 64, 0x80 + c % 64]
    else [0xF0 + c / 262144, 0x80 + c / 4096 % 64, 0x80 + c / 64 % 64, 0x80 + c % 64]
  }

  ghost predicate Scalars(cs: seq<nat>) {
    forall c :: c in cs ==> Scalar(c)
  }

  function EncodedAll(cs: seq<nat>): (bs: Bytes)
    requires forall c :: c in cs ==> Scalar(c)
  {
    if cs == [] then [] else Encoded(cs[0]) + EncodedAll(cs[1..])
  }

  lemma {:induction false} TwoBytes(a: byte, x: byte, tail: Bytes)
    requires 0xC2 <= a <= 0xDF && 0x80 <= x <= 0xBF
    ensures Utf8([a, x] + tail) <==> Utf8(tail)
  {
    var bs := [a, x] + tail;
    assert bs[0] == a && bs[1] == x && bs[2..] == tail;
  }

  lemma {:induction false} ThreeBytes(a: byte, x: byte, y: byte, tail: Bytes)
    requires 0xE0 <= a <= 0xEF && 0x80 <= x <= 0xBF && 0x80 <= y <= 0xBF
    requires (a == 0xE0 ==> x >= 0xA0) && (a == 0xED ==> x <= 0x9F)
    ensures Utf8([a, x, y] + tail) <==> Utf8(tail)
  {
    var bs := [a, x, y] + tail;
    assert bs[0] == a && bs[1] == x && bs[2] == y && bs[3..] == tail;
  }

  lemma {:induction false} FourBytes(a: byte, x: byte, y: byte, z: byte, tail: Bytes)
    requires 0xF0 <= a <= 0xF4 && 0x80 <= x <= 0xBF && 0x80 <= y <= 0xBF && 0x80 <= z <= 0xBF
    requires (a == 0xF0 ==> x >= 0x90) && (a == 0xF4 ==> x <= 0x8F)
    ensures Utf8([a, x, y, z] + tail) <==> Utf8(tail)
  {
    var bs := [a, x, y, z] + tail;
    assert bs[0] == a && bs[1] == x && bs[2] == y && bs[3] == z && bs[4..] == tail;
  }

  lemma {:induction false} FirstScalar(c: nat, tail: Bytes)
    requires Scalar(c)
    ensures Utf8(Encoded(c) + tail) <==> Utf8(tail)
  {
    var e := Encoded(c);
    if c < 0x80 {
      assert ([c] + tail)[1..] == tail;
    } else if c < 0x800 {
      TwoBytes(e[0], e[1], tail);
    } else if c < 0x1_0000 {
      ThreeBytes(e[0], e[1], e[2], tail);
    } else {
      FourBytes(e[0], e[1], e[2], e[3], tail);
    }
  }

  lemma {:induction false} EncodedIsUtf8(cs: seq<nat>)
    requires Scalars(cs)
    ensures Utf8(EncodedAll(cs))
  {
    if cs != [] {
      EncodedIsUtf8(cs[1..]);
      FirstScalar(cs[0], EncodedAll(cs[1..]));
    }
  }

  lemma {:induction false} TwoByteScalar(a: int, x: int)
    requires 2 <= a < 32 && 0 <= x < 64
    ensures var c := a * 64 + x; Scalar(c) && Encoded(c) == [0xC0 + a, 0x80 + x]
  {
  }

  lemma {:induction false} ThreeByteScalar(a: int, x: int, y: int)
    requires 0 <= a < 16 && 0 <= x < 64 && 0 <= y < 64 && (a == 0 ==> x >= 32) && (a == 13 ==> x < 32)
    ensures var c := a * 4096 + x * 64 + y; Scalar(c) && Encoded(c) == [0xE0 + a, 0x80 + x, 0x80 + y]
  {
    var c := a * 4096 + x * 64 + y;
    assert c / 64 == a * 64 + x;
  }

  lemma {:induction false} FourByteScalar(a: int, x: int, y: int, z: int)
    requires 0 <= a < 5 && 0 <= x < 64 && 0 <= y < 64 && 0 <= z < 64 && (a == 0 ==> x >= 16) && (a == 4 ==> x < 16)
    ensures var c := a * 262144 + x * 4096 + y * 64 + z;
            Scalar(c) && Encoded(c) == [0xF0 + a, 0x80 + x, 0x80 + y, 0x80 + z]
  {
    var c := a * 262144 + x * 4096 + y * 64 + z;
    assert c / 64 == a * 4096 + x * 64 + y && c / 4096 == a * 64 + x;
  }

  /** The first scalar value of a text. */
  lemma {:induction false} FirstOf(s: Bytes) returns (c: nat)
    requires s != [] && Utf8(s)
    ensures Scalar(c) && |Encoded(c)| <= |s| && s == Encoded(c) + s[|Encoded(c)|..] && Utf8(s[|Encoded(c)|..])
  {
    var lead: int := s[0];
    if lead < 0x80 {
      c := lead;
    } else if lead <= 0xDF {
      var a: int, x: int := lead - 0xC0, s[1] - 0x80;
      TwoByteScalar(a, x);
      c := a * 64 + x;
    } else if lead <= 0xEF {
      var a: int, x: int, y: int := lead - 0xE0, s[1] - 0x80, s[2] - 0x80;
      ThreeByteScalar(a, x, y);
      c := a * 4096 + x * 64 + y;
    } else {
      var a: int, x: int, y: int, z: int := lead - 0xF0, s[1] - 0x80, s[2] - 0x80, s[3] - 0x80;
      FourByteScalar(a, x, y, z);
      c := a * 262144 + x * 4096 + y * 64 + z;
    }
  }

  lemma {:induction false} ScalarsOf(s: Bytes) returns (cs: seq<nat>)
    requires Utf8(s)
    ensures Scalars(cs) && EncodedAll(cs) == s
    decreases |s|
  {
    cs := [];
    if s != [] {
      var c := FirstOf(s);
      var others := ScalarsOf(s[|Encoded(c)|..]);
      cs := [c] + others;
      assert cs[1..] == others;
    }
  }

  /** The bytes that `str::from_utf8` accepts are the encodings of Unicode scalar values, and no others. */
  lemma {:induction false} Utf8Meaning(s: Bytes)
    ensures Utf8(s) <==> exists cs :: Scalars(cs) && EncodedAll(cs) == s
  {
    if Utf8(s) {
      var cs := ScalarsOf(s);
    }
    if cs :| Scalars(cs) && EncodedAll(cs) == s {
      EncodedIsUtf8(cs);
    }
  }

  // ---- Addresses ----

  /** `[a-zA-Z0-9_~-]`. */
  predicate LabelCharacter(b: byte) {
    var c := b as char;
    'a' <= c <= 'z' || 'A' <= c <= 'Z' || '0' <= c <= '9' || c == '_' || c == '~' || c == '-'
  }

  /** The pattern `(g|private|example|peer|self|test[1-3]?|local)([.][a-zA-Z0-9_~-]+)+` as an automaton. */
  datatype Matching = InScheme | AfterDot | InLabel | Failed

  /** `test[1-3]?` and the other words. */
  predicate SchemeMatches(s: Bytes) {
    || s == Ascii("g") || s == Ascii("private") || s == Ascii("example") || s == Ascii("peer") || s == Ascii("self")
    || s == Ascii("local") || (|s| in {4, 5} && s[..4] == Ascii("test") && (|s| == 5 ==> 49 <= s[4] <= 51))
  }

  /** How far the pattern has come after these bytes. */
  function Matched(s: Bytes): (m: Matching) {
    if s == [] then InScheme
    else
      var front, b := s[..|s| - 1], s[|s| - 1];
      match Matched(front)
      case InScheme => if b != DOT then InScheme else if SchemeMatches(front) then AfterDot else Failed
      case AfterDot => if LabelCharacter(b) then InLabel else Failed
      case InLabel => if LabelCharacter(b) then InLabel else if b == DOT then AfterDot else Failed
      case Failed => Failed
  }

  lemma {:induction false} LabelCharacters(b: byte)
    ensures LabelCharacter(b) <==> SegmentByte(b)
  {
  }

  lemma {:induction false} Schemes(s: Bytes)
    ensures SchemeMatches(s) <==> ValidScheme(s)
  {
    if |s| in {4, 5} {
      assert s == s[..4] + s[4..];
      assert Ascii("test1") == Ascii("test") + [49] && Ascii("test2") == Ascii("test") + [50];
      assert Ascii("test3") == Ascii("test") + [51];
      assert |s| == 5 ==> s[4..] == [s[4]];
    }
  }

  ghost predicate ValidLabel(s: Bytes) {
    s != [] && forall j :: 0 <= j < |s| ==> SegmentByte(s[j])
  }

  ghost predicate ValidLabels(segments: seq<Bytes>, n: nat)
    requires n <= |segments|
  {
    forall i :: 1 <= i < n ==> ValidLabel(segments[i])
  }

  /** What the automaton has seen, in terms of the segments so far. */
  ghost predicate Seen(s: Bytes) {
    var segments := Split(s);
    var last := |segments| - 1;
    match Matched(s)
    case InScheme => last == 0
    case AfterDot => last >= 1 && ValidScheme(segments[0]) && ValidLabels(segments, last) && segments[last] == []
    case InLabel => last >= 1 && ValidScheme(segments[0]) && ValidLabels(segments, last + 1)
    case Failed => last >= 1 && !(ValidScheme(segments[0]) && ValidLabels(segments, last) &&
                                  (segments[last] == [] || ValidLabel(segments[last])))
  }

  lemma {:induction false} ExtendLabel(s: Bytes, b: byte)
    ensures ValidLabel(s + [b]) <==> (s == [] || ValidLabel(s)) && SegmentByte(b)
  {
    if ValidLabel(s + [b]) {
      assert forall j :: 0 <= j < |s| ==> (s + [b])[j] == s[j];
      assert (s + [b])[|s|] == b;
    }
  }

  lemma {:induction false} LastExtended(segments: seq<Bytes>, extended: Bytes)
    requires segments != []
    ensures var last := |segments| - 1;
            var after := segments[..last] + [extended];
            && (last >= 1 ==> after[0] == segments[0])
            && (ValidLabels(after, last) <==> ValidLabels(segments, last))
            && (last >= 1 ==> (ValidLabels(after, last + 1) <==> ValidLabels(segments, last) && ValidLabel(extended)))
  {
    var last := |segments| - 1;
    var after := segments[..last] + [extended];
    assert after[last] == extended;
    assert forall i :: 0 <= i < last ==> after[i] == segments[i];
  }

  lemma {:induction false} LastLabel(segments: seq<Bytes>)
    requires |segments| >= 2
    ensures var last := |segments| - 1;
            ValidLabels(segments, last + 1) <==> ValidLabels(segments, last) && ValidLabel(segments[last])
  {
  }

  lemma {:induction false} CharacterStep(s: Bytes)
    requires s != [] && s[|s| - 1] != DOT && Seen(s[..|s| - 1])
    ensures Seen(s)
  {
    var front, b := s[..|s| - 1], s[|s| - 1];
    var segments := Split(front);
    var last := |segments| - 1;
    assert Split(s) == segments[..last] + [segments[last] + [b]];
    ExtendLabel(segments[last], b);
    LabelCharacters(b);
    LastExtended(segments, segments[last] + [b]);
    if last >= 1 {
      LastLabel(segments);
    }
  }

  lemma {:induction false} DotStep(s: Bytes)
    requires s != [] && s[|s| - 1] == DOT && Seen(s[..|s| - 1])
    ensures Seen(s)
  {
    var front := s[..|s| - 1];
    var segments := Split(front);
    var n := |segments|;
    assert Split(s) == segments + [[]];
    Schemes(front);
    SingleSegment(front);
    LabelCharacters(DOT);
    assert forall i :: 0 <= i < n ==> Split(s)[i] == segments[i];
    assert ValidLabels(Split(s), n) <==> ValidLabels(segments, n);
    assert ValidLabels(segments, n) <==> ValidLabels(segments, n - 1) && (n >= 2 ==> ValidLabel(segments[n - 1]));
  }

  lemma {:induction false} Watches(s: Bytes)
    ensures Seen(s)
  {
    if s == [] {
      assert Split(s) == [[]];
    } else {
      Watches(s[..|s| - 1]);
      if s[|s| - 1] == DOT {
        DotStep(s);
      } else {
        CharacterStep(s);
      }
    }
  }

  lemma {:induction false} SingleSegment(s: Bytes)
    ensures |Split(s)| == 1 ==> Split(s)[0] == s
  {
    JoinSplit(s);
  }

  /** A valid address is what the pattern accepts, up to 1023 bytes. */
  lemma {:induction false} AddressMeaning(s: Bytes)
    ensures ValidAddress(s) <==> |s| <= 1023 && Matched(s) == InLabel
  {
    var segments := Split(s);
    Watches(s);
    assert ValidLabels(segments, |segments|) <==>
           forall i :: 1 <= i < |segments| ==>
             segments[i] != [] && forall j :: 0 <= j < |segments[i]| ==> SegmentByte(segments[i][j]);
    if Matched(s) == AfterDot {
      assert !ValidLabel(segments[|segments| - 1]);
    }
  }

  lemma {:induction false} AsciiIsUtf8(s: Bytes)
    requires forall i :: 0 <= i < |s| ==> s[i] < 0x80
    ensures Utf8(s)
  {
    if s != [] {
      AsciiIsUtf8(s[1..]);
    }
  }

  lemma {:induction false} WordIsAscii(word: string)
    requires forall i :: 0 <= i < |word| ==> word[i] as int < 0x80
    ensures forall i :: 0 <= i < |word| ==> Ascii(word)[i] < 0x80
  {
  }

  lemma {:induction false} SchemeIsAscii(s: Bytes)
    requires SchemeMatches(s)
    ensures forall i :: 0 <= i < |s| ==> s[i] < 0x80
  {
    WordIsAscii("g");
    WordIsAscii("private");
    WordIsAscii("example");
    WordIsAscii("peer");
    WordIsAscii("self");
    WordIsAscii("local");
    WordIsAscii("test");
    if |s| in {4, 5} && s[..4] == Ascii("test") {
      forall i | 0 <= i < |s| ensures s[i] < 0x80 {
        assert i < 4 ==> s[i] == s[..4][i];
      }
    }
  }

  /** In the scheme anything goes until the first dot, but then it must have been one of the words. */
  lemma {:induction false} MatchedIsAscii(s: Bytes)
    requires Matched(s) == AfterDot || Matched(s) == InLabel
    ensures forall i :: 0 <= i < |s| ==> s[i] < 0x80
  {
    var front := s[..|s| - 1];
    if Matched(front) == InScheme {
      SchemeIsAscii(front);
    } else {
      MatchedIsAscii(front);
    }
    assert s == front + [s[|s| - 1]];
  }

  /** A valid address is UTF-8, so that it may be used as a `str` unchecked. */
  lemma {:induction false} AddressIsUtf8(s: Bytes)
    requires ValidAddress(s)
    ensures Utf8(s)
  {
    AddressMeaning(s);
    MatchedIsAscii(s);
    AsciiIsUtf8(s);
  }

  // ---- Timestamps ----

  ghost predicate AllDigits(s: Bytes) {
    forall i :: 0 <= i < |s| ==> '0' <= s[i] as char <= '9'
  }

  /** Fourteen digits, up to three more behind a point, and a Z. */
  ghost predicate TimestampForm(s: Bytes, date: Bytes, fraction: Bytes) {
    && s == date + (if fraction == [] then [] else Ascii(".") + fraction) + Ascii("Z")
    && |date| == 14 && AllDigits(date) && |fraction| <= 3 && AllDigits(fraction)
  }

  lemma {:induction false} FormOf(calendar: Bytes -> bool, s: Bytes) returns (date: Bytes, fraction: Bytes)
    requires ValidTimestamp(calendar, s)
    ensures TimestampForm(s, date, fraction)
  {
    date, fraction := s[..14], if |s| == 15 then [] else s[15..|s| - 1];
    assert forall i :: 0 <= i < 14 ==> date[i] == s[i];
    assert forall i :: 0 <= i < |fraction| ==> fraction[i] == s[15 + i];
    assert Ascii("Z") == [90] && Ascii(".") == [46];
    if |s| > 15 {
      assert s == date + (Ascii(".") + fraction) + Ascii("Z");
    }
  }

  lemma {:induction false} FormIsValid(calendar: Bytes -> bool, s: Bytes, date: Bytes, fraction: Bytes)
    requires TimestampForm(s, date, fraction) && calendar(s)
    ensures ValidTimestamp(calendar, s)
  {
    assert forall i :: 0 <= i < 14 ==> s[i] == date[i];
    if fraction != [] {
      assert forall i :: 15 <= i < |s| - 1 ==> s[i] == fraction[i - 15];
    }
  }

  lemma {:induction false} TimestampMeaning(calendar: Bytes -> bool, s: Bytes)
    ensures ValidTimestamp(calendar, s) <==> calendar(s) && exists date, fraction :: TimestampForm(s, date, fraction)
  {
    if ValidTimestamp(calendar, s) {
      var date, fraction := FormOf(calendar, s);
    }
    if date, fraction :| calendar(s) && TimestampForm(s, date, fraction) {
      FormIsValid(calendar, s, date, fraction);
    }
  }
}
