/** Types and sequence facts shared by every component. */
module Basics {

  datatype Option<+T> = None | Some(value: T)

  datatype Result<+T, +E> = Ok(value: T) | Err(error: E) {
    predicate IsFailure() { Err? }

    function PropagateFailure<U>(): Result<U, E>
      requires Err?
    {
      Err(error)
    }

    function Extract(): T
      requires Ok?
    {
      value
    }
  }

  type byte = x: int | 0 <= x < 256
  type Bytes = seq<byte>

  /** A Rust `String` or `&str`: its UTF-8 bytes. */
  type Text = Bytes

  const U64_MAX: nat := 0xFFFF_FFFF_FFFF_FFFF

  function Min(a: int, b: int): (m: int)
    ensures m <= a && m <= b && (m == a || m == b)
  {
    if a <= b then a else b
  }

  function Max(a: int, b: int): (m: int)
    ensures m >= a && m >= b && (m == a || m == b)
  {
    if a >= b then a else b
  }

  /** `Vec::retain`, and the iterator adaptor `filter`. */
  function Filter<T>(keep: T -> bool, s: seq<T>): (r: seq<T>) {
    if s == [] then []
    else Filter(keep, s[..|s| - 1]) + if keep(s[|s| - 1]) then [s[|s| - 1]] else []
  }

  lemma {:induction false} FilterMeaning<T(!new)>(keep: T -> bool, s: seq<T>)
    ensures forall x :: x in Filter(keep, s) <==> x in s && keep(x)
  {
    if s != [] {
      FilterMeaning(keep, s[..|s| - 1]);
      assert forall x :: x in s <==> x in s[..|s| - 1] || x == s[|s| - 1];
    }
  }

  lemma {:induction false} FilterAll<T>(keep: T -> bool, s: seq<T>)
    requires forall i :: 0 <= i < |s| ==> keep(s[i])
    ensures Filter(keep, s) == s
  {
    if s != [] {
      FilterAll(keep, s[..|s| - 1]);
      assert s == s[..|s| - 1] + [s[|s| - 1]];
    }
  }

  lemma {:induction false} FilterConcat<T>(keep: T -> bool, a: seq<T>, b: seq<T>)
    ensures Filter(keep, a + b) == Filter(keep, a) + Filter(keep, b)
  {
    if b == [] {
      assert a + b == a;
    } else {
      FilterConcat(keep, a, b[..|b| - 1]);
      assert (a + b)[..|a + b| - 1] == a + b[..|b| - 1];
    }
  }

  lemma {:induction false} FilterCommutes<T>(f: T -> bool, g: T -> bool, s: seq<T>)
    ensures Filter(f, Filter(g, s)) == Filter(g, Filter(f, s))
  {
    if s != [] {
      var front := s[..|s| - 1];
      FilterCommutes(f, g, front);
      FilterConcat(f, Filter(g, front), if g(s[|s| - 1]) then [s[|s| - 1]] else []);
      FilterConcat(g, Filter(f, front), if f(s[|s| - 1]) then [s[|s| - 1]] else []);
    }
  }

  lemma {:induction false} Regroup<T>(a: seq<T>, b: seq<T>, c: seq<T>, d: seq<T>, e: seq<T>)
    ensures a + b + c + d + e == a + (b + (c + (d + e)))
  {
  }

  lemma {:induction false} RegroupFour<T>(a: seq<T>, b: seq<T>, c: seq<T>, d: seq<T>)
    ensures a + b + c + d == a + (b + (c + d))
  {
  }

  lemma {:induction false} SplitSlice<T>(s: seq<T>, i: nat, j: nat, k: nat)
    requires i <= j <= k <= |s|
    ensures s[i..k] == s[i..j] + s[j..k]
  {
    var whole, parts := s[i..k], s[i..j] + s[j..k];
    assert |whole| == |parts|;
    forall n | 0 <= n < |whole| ensures whole[n] == parts[n] {
      assert whole[n] == s[i + n];
    }
  }

  lemma {:induction false} SliceOfSlice<T>(s: seq<T>, o: nat, n: nat, from: nat, to: nat)
    requires o + n <= |s| && from <= to <= n
    ensures s[o..o + n][from..to] == s[o + from..o + to]
  {
    var slice := s[o..o + n];
    assert forall i | from <= i < to :: slice[i] == s[o + i];
    assert |slice[from..to]| == |s[o + from..o + to]|;
    forall i | 0 <= i < to - from
      ensures slice[from..to][i] == s[o + from..o + to][i]
    {
      assert slice[from..to][i] == slice[from + i] == s[o + from + i];
    }
  }

  // ---- Quotients and products ----

  function Pow2(k: nat): (p: nat)
    ensures p >= 1
  {
    if k == 0 then 1 else 2 * Pow2(k - 1)
  }

  lemma {:induction false} Division(a: nat, b: nat)
    requires b > 0
    ensures a == b * (a / b) + a % b && 0 <= a % b < b
  {
  }

  lemma {:induction false} Scaled(u: nat, a: int, b: int)
    requires a <= b
    ensures u * a <= u * b
  {
    assert u * b == u * a + u * (b - a);
  }

  lemma {:induction false} Cancelled(u: nat, a: int, b: int)
    requires u * a < u * b
    ensures a < b
  {
    if b <= a {
      Scaled(u, b, a);
    }
  }

  lemma {:induction false} QuotientIs(n: nat, d: nat, q: nat)
    requires d > 0 && d * q <= n < d * (q + 1)
    ensures n / d == q
  {
    Division(n, d);
    Cancelled(d, n / d, q + 1);
    Cancelled(d, q, n / d + 1);
  }

  /** `str::starts_with`. */
  predicate StartsWith(s: Text, prefix: Text) { prefix <= s }

  // ---- Dotted texts ----

  const DOT: byte := 46

  /** `split('.')`: always at least one segment. */
  function Split(s: Text): (segments: seq<Text>)
    ensures |segments| >= 1
  {
    if s == [] then [[]]
    else
      var front := Split(s[..|s| - 1]);
      if s[|s| - 1] == DOT then front + [[]]
      else front[..|front| - 1] + [front[|front| - 1] + [s[|s| - 1]]]
  }

  function Join(segments: seq<Text>): (s: Text) {
    if |segments| == 0 then []
    else if |segments| == 1 then segments[0]
    else Join(segments[..|segments| - 1]) + [DOT] + segments[|segments| - 1]
  }

  lemma {:induction false} JoinDotted(segments: seq<Text>)
    requires segments != []
    ensures Join(segments + [[]]) == Join(segments) + [DOT]
  {
    var dotted := segments + [[]];
    assert dotted[..|dotted| - 1] == segments && dotted[|dotted| - 1] == [];
  }

  lemma {:induction false} JoinExtended(segments: seq<Text>, b: byte)
    requires segments != []
    ensures var last := |segments| - 1;
            Join(segments[..last] + [segments[last] + [b]]) == Join(segments) + [b]
  {
    var last := |segments| - 1;
    var extended := segments[..last] + [segments[last] + [b]];
    assert extended[..last] == segments[..last] && extended[last] == segments[last] + [b];
  }

  lemma {:induction false} JoinSplit(s: Text)
    ensures Join(Split(s)) == s
  {
    if s != [] {
      var front, b := s[..|s| - 1], s[|s| - 1];
      JoinSplit(front);
      JoinDotted(Split(front));
      JoinExtended(Split(front), b);
      assert s == front + [b];
    }
  }

  // ---- Sequences without repetition ----

  predicate NoDuplicates<T(==)>(s: seq<T>) {
    forall i, j :: 0 <= i < j < |s| ==> s[i] != s[j]
  }

  lemma {:induction false} NoDuplicatesBound<T>(s: seq<T>, universe: set<T>)
    requires NoDuplicates(s)
    requires forall x :: x in s ==> x in universe
    ensures |s| <= |universe|
  {
    if s != [] {
      var x := s[0];
      assert x !in s[1..];
      NoDuplicatesBound(s[1..], universe - {x});
    }
  }
}
