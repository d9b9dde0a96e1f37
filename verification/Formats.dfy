/** The encoding of lengths, strings, numbers and lists, told byte by byte (Interledger RFC 0030). */
module Formats {
  import opened Basics
  import opened Oer

  // ---- Numbers ----

  /** The most significant byte comes first. */
  ghost predicate BigEndian(bs: Bytes, n: nat) {
    n < Pow256(|bs|) && forall i :: 0 <= i < |bs| ==> bs[i] == n / Pow256(|bs| - 1 - i) % 256
  }

  lemma {:induction false} DividedTwice(n: nat, p: nat)
    requires p > 0
    ensures n / 256 / p == n / (256 * p)
  {
    var a, q := n / 256, n / 256 / p;
    Division(a, p);
    assert 256 * p * q == 256 * (p * q) && 256 * p * (q + 1) == 256 * (p * q) + 256 * p;
    QuotientIs(n, 256 * p, q);
  }

  lemma {:induction false} ByteAt(n: nat, size: nat, i: nat)
    requires i < size
    ensures UintBytes(n, size)[i] == n / Pow256(size - 1 - i) % 256
  {
    if i < size - 1 {
      ByteAt(n / 256, size - 1, i);
      DividedTwice(n, Pow256(size - 2 - i));
    }
  }

  lemma {:induction false} UintIsBigEndian(n: nat, size: nat)
    requires n < Pow256(size)
    ensures BigEndian(UintBytes(n, size), n)
  {
    forall i | 0 <= i < size ensures UintBytes(n, size)[i] == n / Pow256(size - 1 - i) % 256 {
      ByteAt(n, size, i);
    }
  }

  /** What four bytes stand for. */
  lemma {:induction false} FourBytes(a: byte, b: byte, c: byte, d: byte)
    ensures Uint([a, b, c, d]) == 0x100_0000 * a + 0x1_0000 * b + 0x100 * c + d
  {
    var none: Bytes, one: Bytes, two: Bytes, three: Bytes, four: Bytes := [], [a], [a, b], [a, b, c], [a, b, c, d];
    assert one[..0] == none && two[..1] == one && three[..2] == two && four[..3] == three;
    assert Uint(one) == 256 * Uint(none) + a;
    assert Uint(two) == 256 * Uint(one) + b;
    assert Uint(three) == 256 * Uint(two) + c;
    assert Uint(four) == 256 * Uint(three) + d;
  }

  // ---- Lengths, strings and counts ----

  /** Below 128 a length is one byte. From there on it is the number of bytes that follow, with the first bit set,
      and then those bytes, without leading zeros. */
  ghost predicate LengthAt(bs: Bytes, n: nat) {
    if n < 128 then bs == [n]
    else |bs| >= 2 && bs[0] == 128 + |bs| - 1 && bs[1] != 0 && BigEndian(bs[1..], n)
  }

  /** A length, that many bytes, and then `rest`. */
  ghost predicate OctetsAt(bs: Bytes, s: Bytes, rest: Bytes) {
    exists k: nat :: k <= |bs| && LengthAt(bs[..k], |s|) && bs[k..] == s + rest
  }

  /** The number of bytes, the number without leading zeros, and then `rest`. */
  ghost predicate UintAt(bs: Bytes, n: nat, rest: Bytes) {
    && |bs| >= 2 && 1 <= bs[0] <= 8 && |bs| >= 1 + bs[0] && bs[1 + bs[0]..] == rest
    && BigEndian(bs[1..1 + bs[0]], n) && (bs[0] > 1 ==> bs[1] != 0)
  }

  lemma {:induction false} LeadingByte(n: nat, size: nat)
    requires 1 <= size && Pow256(size - 1) <= n < Pow256(size)
    ensures UintBytes(n, size)[0] != 0
  {
    UintOfBytes(n, size);
    if UintBytes(n, size)[0] == 0 {
      ZeroFirst(UintBytes(n, size));
    }
  }

  lemma {:induction false} LengthFormat(n: nat)
    requires n <= U64_MAX
    ensures LengthAt(PutLength(n), n)
  {
    if n >= 128 {
      var size := PredictVarUintSize(n);
      U64SizeFits(n);
      PredictIsMinimal(n);
      UintIsBigEndian(n, size);
      if size == 1 {
        assert Pow256(0) == 1;
      }
      LeadingByte(n, size);
      assert PutLength(n)[1..] == UintBytes(n, size);
    }
  }

  lemma {:induction false} OctetsFormat(s: Bytes, rest: Bytes)
    requires |s| <= U64_MAX
    ensures OctetsAt(PutVarOctetString(s) + rest, s, rest)
  {
    var prefix, bs := PutLength(|s|), PutVarOctetString(s) + rest;
    LengthFormat(|s|);
    assert bs[..|prefix|] == prefix && bs[|prefix|..] == s + rest;
  }

  lemma {:induction false} VarUintFormat(n: nat, rest: Bytes)
    requires n <= U64_MAX
    ensures UintAt(PutVarUint(n) + rest, n, rest)
  {
    var size := PredictVarUintSize(n);
    U64SizeFits(n);
    PredictIsMinimal(n);
    UintIsBigEndian(n, size);
    if size > 1 {
      LeadingByte(n, size);
    }
    var bs := PutVarUint(n) + rest;
    assert bs[1..1 + size] == UintBytes(n, size) && bs[1 + size..] == rest;
  }

  /** Exactly which bytes a length is read from: one byte below 128, or one to eight bytes announced by the first,
      that would not have fitted in it, and in strict mode have no leading zeros. */
  lemma {:induction false} LengthAccepted(strict: bool, buf: Bytes)
    ensures ReadLength(strict, buf).Ok? <==>
            && |buf| >= 1
            && (|| buf[0] < 128
                || (&& 129 <= buf[0] <= 136 && |buf| > buf[0] - 128
                    && (if buf[0] == 129 then buf[1] >= 128 else strict ==> buf[1] != 0)))
  {
    if |buf| >= 1 && 129 <= buf[0] <= 136 && |buf| > buf[0] - 128 {
      var n := buf[0] - 128;
      LeadingZeros(buf[1..n + 1]);
      if n == 1 {
        assert buf[1..2] == [buf[1]] && [buf[1]][..0] == [];
      }
    }
  }

  /** Exactly which bytes a number is read from: one to eight of them, as the length before them says, and in strict
      mode without leading zeros. */
  lemma {:induction false} VarUintAccepted(strict: bool, buf: Bytes)
    ensures ReadVarUint(strict, buf).Ok? <==>
            && ReadLength(strict, buf).Ok?
            && var size := ReadLength(strict, buf).value;
            && 1 <= size.value <= 8 && |size.rest| >= size.value
            && (strict && size.value > 1 ==> size.rest[0] != 0)
  {
    if ReadLength(strict, buf).Ok? {
      var size := ReadLength(strict, buf).value;
      if 1 <= size.value <= |size.rest| {
        LeadingZeros(size.rest[..size.value]);
      }
    }
  }

  /** A number fits in fewer bytes exactly when its first byte is zero. */
  lemma {:induction false} LeadingZeros(bs: Bytes)
    requires 1 <= |bs|
    ensures PredictVarUintSize(Uint(bs)) == |bs| <==> |bs| == 1 || bs[0] != 0
  {
    var n, k := Uint(bs), PredictVarUintSize(Uint(bs));
    BytesOfUint(bs);
    PredictIsMinimal(n);
    if bs[0] == 0 && |bs| > 1 {
      ZeroFirst(bs);
      if k == |bs| {
        assert false;
      }
    } else {
      if k > |bs| {
        Pow256Monotone(|bs|, k - 1);
      }
      if k < |bs| {
        NonzeroFirst(bs);
        Pow256Monotone(k, |bs| - 1);
      }
    }
  }

  lemma {:induction false} ZeroFirst(bs: Bytes)
    requires |bs| >= 1 && bs[0] == 0
    ensures Uint(bs) < Pow256(|bs| - 1)
  {
    if |bs| == 1 {
      assert bs[..0] == [];
    } else {
      ZeroFirst(bs[..|bs| - 1]);
    }
  }

  lemma {:induction false} NonzeroFirst(bs: Bytes)
    requires |bs| >= 1 && bs[0] > 0
    ensures Uint(bs) >= Pow256(|bs| - 1)
  {
    if |bs| > 1 {
      NonzeroFirst(bs[..|bs| - 1]);
    }
  }

  /** Two strings, one after the other, and then `rest`. */
  ghost predicate TwoAt(bs: Bytes, x: Bytes, y: Bytes, rest: Bytes) {
    exists next :: OctetsAt(bs, x, next) && OctetsAt(next, y, rest)
  }

  ghost predicate ThreeAt(bs: Bytes, x: Bytes, y: Bytes, z: Bytes, rest: Bytes) {
    exists next :: OctetsAt(bs, x, next) && TwoAt(next, y, z, rest)
  }

  lemma {:induction false} TwoFormat(x: Bytes, y: Bytes, rest: Bytes)
    requires |x| <= U64_MAX && |y| <= U64_MAX
    ensures TwoAt(PutVarOctetString(x) + (PutVarOctetString(y) + rest), x, y, rest)
  {
    OctetsFormat(x, PutVarOctetString(y) + rest);
    OctetsFormat(y, rest);
  }

  lemma {:induction false} ThreeFormat(x: Bytes, y: Bytes, z: Bytes, rest: Bytes)
    requires |x| <= U64_MAX && |y| <= U64_MAX && |z| <= U64_MAX
    ensures ThreeAt(PutVarOctetString(x) + (PutVarOctetString(y) + (PutVarOctetString(z) + rest)), x, y, z, rest)
  {
    OctetsFormat(x, PutVarOctetString(y) + (PutVarOctetString(z) + rest));
    TwoFormat(y, z, rest);
  }

  // ---- Lists ----

  /** The elements one after the other, and then `rest`. */
  ghost predicate ListAt<T(!new)>(at: (Bytes, T, Bytes) -> bool, bs: Bytes, xs: seq<T>, rest: Bytes)
    decreases |xs|
  {
    if xs == [] then bs == rest else exists next :: at(bs, xs[0], next) && ListAt(at, next, xs[1..], rest)
  }

  /** The number of elements, the elements, and then `rest`. */
  ghost predicate CountedAt<T(!new)>(at: (Bytes, T, Bytes) -> bool, bs: Bytes, xs: seq<T>, rest: Bytes) {
    exists next :: UintAt(bs, |xs|, next) && ListAt(at, next, xs, rest)
  }

  lemma {:induction false} ListFormat<T(!new)>(at: (Bytes, T, Bytes) -> bool, write: T -> Bytes, xs: seq<T>,
      rest: Bytes)
    requires forall x, tail :: x in xs ==> at(write(x) + tail, x, tail)
    ensures ListAt(at, WriteList(write, xs) + rest, xs, rest)
  {
    if xs == [] {
      assert WriteList(write, xs) + rest == rest;
    } else {
      var next := WriteList(write, xs[1..]) + rest;
      assert xs == [xs[0]] + xs[1..];
      WriteListCons(write, xs[0], xs[1..]);
      assert WriteList(write, xs) + rest == write(xs[0]) + next;
      ListFormat(at, write, xs[1..], rest);
      assert at(write(xs[0]) + next, xs[0], next);
    }
  }

  lemma {:induction false} CountedFormat<T(!new)>(at: (Bytes, T, Bytes) -> bool, write: T -> Bytes, xs: seq<T>,
      rest: Bytes)
    requires |xs| <= U64_MAX && forall x, tail :: x in xs ==> at(write(x) + tail, x, tail)
    ensures CountedAt(at, PutVarUint(|xs|) + WriteList(write, xs) + rest, xs, rest)
  {
    var next := WriteList(write, xs) + rest;
    assert PutVarUint(|xs|) + WriteList(write, xs) + rest == PutVarUint(|xs|) + next;
    VarUintFormat(|xs|, next);
    ListFormat(at, write, xs, rest);
  }
}
