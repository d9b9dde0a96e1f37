/** Choosing the best route for a prefix (`get_best_route_for_prefix`). */
module BestRoute {
  import opened Basics
  import opened CcpMessages
  import opened RoutingTables
  import PrefixMaps

  // ---- Dotted prefixes ----

  /** "a.b" and "a" are the proper dotted ancestors of "a.b.c". */
  predicate IsAncestor(p: Text, k: Text) {
    k == p || StartsWith(p, k + [DOT])
  }

  lemma {:induction false} SplitExtends(s: Text, n: nat)
    requires s != [] && n < |Split(s)|
    ensures n <= |Split(s[..|s| - 1])| && Split(s)[..n] == Split(s[..|s| - 1])[..n]
  {
    var front := Split(s[..|s| - 1]);
    if s[|s| - 1] == DOT {
      assert Split(s) == front + [[]];
    } else {
      assert Split(s) == front[..|front| - 1] + [front[|front| - 1] + [s[|s| - 1]]];
      assert front[..|front| - 1][..n] == front[..n];
    }
  }

  /** Joining the first n segments gives an ancestor, longer n longer ancestors ... */
  lemma {:induction false} JoinIsAncestor(s: Text, n: nat)
    requires 1 <= n < |Split(s)|
    ensures StartsWith(s, Join(Split(s)[..n]) + [DOT])
  {
    var shorter := s[..|s| - 1];
    if s[|s| - 1] == DOT && n == |Split(s)| - 1 {
      assert Split(s)[..n] == Split(shorter);
      JoinSplit(shorter);
    } else {
      SplitExtends(s, n);
      JoinIsAncestor(shorter, n);
    }
  }

  /** ... and every ancestor arises so. */
  lemma {:induction false} AncestorIsJoin(s: Text, k: Text) returns (n: nat)
    requires StartsWith(s, k + [DOT])
    ensures 1 <= n < |Split(s)| && k == Join(Split(s)[..n])
  {
    var shorter := s[..|s| - 1];
    if |k| + 1 == |s| {
      assert s[|s| - 1] == DOT && k == shorter;
      JoinSplit(k);
      n := |Split(k)|;
      assert Split(s)[..n] == Split(k);
    } else {
      assert k + [DOT] == s[..|k| + 1] == shorter[..|k| + 1];
      n := AncestorIsJoin(shorter, k);
      assert Split(s)[..n] == Split(shorter)[..n];
    }
  }

  lemma {:induction false} LongerJoin(segments: seq<Text>, n: nat, m: nat)
    requires 1 <= n <= m <= |segments|
    ensures |Join(segments[..n])| <= |Join(segments[..m])|
    decreases m
  {
    if n < m {
      LongerJoin(segments, n, m - 1);
      assert segments[..m][..m - 1] == segments[..m - 1];
    }
  }

  /** The lookup loop: try all segments, then all but the last, and so on. */
  function ConfiguredAt(configured: map<Text, Account>, segments: seq<Text>, n: nat): (a: Option<Account>)
    requires n <= |segments|
  {
    if n == 0 then None
    else if Join(segments[..n]) in configured then Some(configured[Join(segments[..n])])
    else ConfiguredAt(configured, segments, n - 1)
  }

  ghost predicate IsLongestAncestor(configured: map<Text, Account>, p: Text, k: Text) {
    && k in configured && IsAncestor(p, k)
    && forall other :: other in configured && IsAncestor(p, other) ==> |other| <= |k|
  }

  lemma {:induction false} ConfiguredAtFinds(configured: map<Text, Account>, segments: seq<Text>, n: nat)
    returns (m: nat)
    requires n <= |segments|
    ensures m <= n
    ensures m == 0 ==> ConfiguredAt(configured, segments, n).None?
    ensures m > 0 ==> Join(segments[..m]) in configured
                      && ConfiguredAt(configured, segments, n) == Some(configured[Join(segments[..m])])
    ensures forall i :: m < i <= n ==> Join(segments[..i]) !in configured
  {
    if n == 0 || Join(segments[..n]) in configured {
      m := n;
    } else {
      m := ConfiguredAtFinds(configured, segments, n - 1);
    }
  }

  /** A configured route applies exactly when some dotted ancestor is configured, and the longest wins. */
  lemma {:induction false} ConfiguredIsLongest(configured: map<Text, Account>, p: Text)
    ensures var a := ConfiguredAt(configured, Split(p), |Split(p)|);
            && (a.None? <==> forall k :: k in configured ==> !IsAncestor(p, k))
            && (a.Some? ==> exists k :: IsLongestAncestor(configured, p, k) && a.value == configured[k])
  {
    var segments := Split(p);
    var m := ConfiguredAtFinds(configured, segments, |segments|);
    JoinSplit(p);
    assert segments[..|segments|] == segments;
    forall k | k in configured && IsAncestor(p, k) ensures m > 0 && |k| <= |Join(segments[..m])| {
      var n := |segments|;
      if k != p {
        n := AncestorIsJoin(p, k);
      }
      assert k == Join(segments[..n]);
      LongerJoin(segments, n, m);
    }
    if m > 0 {
      var k := Join(segments[..m]);
      if m < |segments| {
        JoinIsAncestor(p, m);
      }
      assert IsLongestAncestor(configured, p, k);
    }
  }

  // ---- The fold over the incoming tables ----

  /** Rust's `<` on strings. */
  predicate TextLess(a: string, b: string) {
    b != [] && (a == [] || a[0] < b[0] || (a[0] == b[0] && TextLess(a[1..], b[1..])))
  }

  lemma {:induction false} TextLessTotal(a: string, b: string)
    ensures !(TextLess(a, b) && TextLess(b, a))
    ensures a == b || TextLess(a, b) || TextLess(b, a)
  {
    if a != [] && b != [] {
      TextLessTotal(a[1..], b[1..]);
      assert a == [a[0]] + a[1..] && b == [b[0]] + b[1..];
    }
  }

  lemma {:induction false} TextLessTransitive(a: string, b: string, c: string)
    requires TextLess(a, b) && TextLess(b, c)
    ensures TextLess(a, c)
  {
    if a != [] && a[0] == b[0] == c[0] {
      TextLessTransitive(a[1..], b[1..], c[1..]);
    }
  }

  /** The texts are the same up to i, where the first one ends or has the smaller character. */
  ghost predicate PartAt(a: string, b: string, i: nat) {
    i < |b| && i <= |a| && a[..i] == b[..i] && (i == |a| || a[i] < b[i])
  }

  ghost predicate ComesBefore(a: string, b: string) {
    exists i: nat :: PartAt(a, b, i)
  }

  lemma {:induction false} PartsLater(a: string, b: string, i: nat)
    requires a != [] && b != [] && a[0] == b[0]
    ensures PartAt(a, b, i + 1) <==> PartAt(a[1..], b[1..], i)
    ensures !PartAt(a, b, 0)
  {
    if i + 1 <= |a| && i + 1 <= |b| {
      assert a[..i + 1] == [a[0]] + a[1..][..i] && b[..i + 1] == [b[0]] + b[1..][..i];
    }
  }

  lemma {:induction false} TextLessMeaning(a: string, b: string)
    ensures TextLess(a, b) <==> ComesBefore(a, b)
  {
    if a == [] || b == [] || a[0] != b[0] {
      assert TextLess(a, b) ==> PartAt(a, b, 0);
    } else {
      TextLessMeaning(a[1..], b[1..]);
      if i: nat :| PartAt(a[1..], b[1..], i) {
        PartsLater(a, b, i);
      }
      if i: nat :| PartAt(a, b, i) {
        PartsLater(a, b, Max(i - 1, 0));
      }
    }
  }

  /** Children before peers before parents before accounts that route nothing. */
  predicate Closer(x: RoutingRelation, y: RoutingRelation) {
    match x
    case Child => !y.Child?
    case Peer => y.Parent? || y.NonRoutingAccount?
    case Parent => y.NonRoutingAccount?
    case NonRoutingAccount => false
  }

  /** The closer relation; then the shorter path; then the smaller account id. */
  ghost predicate Beats(x: Hop, y: Hop) {
    var rx, ry, lx, ly := x.account.relation, y.account.relation, |x.route.path|, |y.route.path|;
    Closer(rx, ry) || (rx == ry && (lx < ly || (lx == ly && ComesBefore(x.account.id, y.account.id))))
  }

  lemma {:induction false} BeatsByText(x: Hop, y: Hop)
    ensures Beats(x, y) <==>
            var rx, ry, lx, ly := x.account.relation, y.account.relation, |x.route.path|, |y.route.path|;
            Closer(rx, ry) || (rx == ry && (lx < ly || (lx == ly && TextLess(x.account.id, y.account.id))))
  {
    TextLessMeaning(x.account.id, y.account.id);
  }

  /** One step of the fold, as the nested comparisons of the source. */
  function Preferred(best: Hop, next: Hop): (h: Hop) {
    if best.account.relation.Rank() > next.account.relation.Rank() then best
    else if best.account.relation.Rank() < next.account.relation.Rank() then next
    else if |best.route.path| < |next.route.path| then best
    else if |best.route.path| > |next.route.path| then next
    else if TextLess(best.account.id, next.account.id) then best
    else next
  }

  function Best(candidates: seq<Hop>): (h: Hop)
    requires candidates != []
  {
    if |candidates| == 1 then candidates[0]
    else Preferred(Best(candidates[..|candidates| - 1]), candidates[|candidates| - 1])
  }

  ghost predicate DistinctAccounts(hops: seq<Hop>) {
    forall i, j :: 0 <= i < j < |hops| ==> hops[i].account.id != hops[j].account.id
  }

  ghost predicate IsBest(hops: seq<Hop>, h: Hop) {
    h in hops && forall other :: other in hops && other != h ==> Beats(h, other)
  }

  lemma {:induction false} BeatsTransitive(x: Hop, y: Hop, z: Hop)
    requires Beats(x, y) && Beats(y, z)
    ensures Beats(x, z)
  {
    BeatsByText(x, y);
    BeatsByText(y, z);
    BeatsByText(x, z);
    if TextLess(x.account.id, y.account.id) && TextLess(y.account.id, z.account.id) {
      TextLessTransitive(x.account.id, y.account.id, z.account.id);
    }
  }

  /** Among accounts that differ, the fold finds the one hop that beats every other. */
  lemma {:induction false} BestBeatsAll(hops: seq<Hop>)
    requires hops != [] && DistinctAccounts(hops)
    ensures IsBest(hops, Best(hops))
  {
    if |hops| > 1 {
      var front := hops[..|hops| - 1];
      var best, last := Best(front), hops[|hops| - 1];
      BestBeatsAll(front);
      TextLessTotal(best.account.id, last.account.id);
      BeatsByText(best, last);
      BeatsByText(last, best);
      assert Beats(best, last) || Beats(last, best);
      forall other | other in hops && other != Best(hops) ensures Beats(Best(hops), other) {
        if other != last && Best(hops) == last && other != best {
          BeatsTransitive(last, best, other);
        }
      }
    }
  }

  /** The order in which the incoming tables are visited does not matter. */
  lemma {:induction false} BestAnyOrder(hops: seq<Hop>, reordered: seq<Hop>)
    requires hops != [] && DistinctAccounts(hops) && DistinctAccounts(reordered)
    requires forall h :: h in hops <==> h in reordered
    ensures reordered != [] && Best(hops) == Best(reordered)
  {
    assert hops[0] in reordered;
    BestBeatsAll(hops);
    BestBeatsAll(reordered);
    var x, y := Best(hops), Best(reordered);
    if x != y {
      BeatsByText(x, y);
      BeatsByText(y, x);
      TextLessTotal(x.account.id, y.account.id);
      assert false;
    }
  }

  /** `filter_map` over the incoming tables in some map order. */
  function Candidates(tables: seq<Table>, prefix: Text): (hops: seq<Hop>) {
    if tables == [] then []
    else
      var front := Candidates(tables[..|tables| - 1], prefix);
      match PrefixMaps.Resolve(tables[|tables| - 1].routes, prefix)
      case None => front
      case Some(hop) => front + [hop]
  }

  function LocalHop(account: Account): (h: Hop) {
    Hop(account, Route(account.address, [], ZeroAuth(), []))
  }

  /** Configured ancestors first, then an exact local route, then the best of the incoming tables. */
  function BestRouteFor(localRoutes: map<Text, Account>, configured: map<Text, Account>, tables: seq<Table>,
                        prefix: Text): (h: Option<Hop>)
  {
    var a := ConfiguredAt(configured, Split(prefix), |Split(prefix)|);
    if a.Some? then Some(LocalHop(a.value))
    else if prefix in localRoutes then Some(LocalHop(localRoutes[prefix]))
    else if Candidates(tables, prefix) == [] then None
    else Some(Best(Candidates(tables, prefix)))
  }

  // ---- What the choice means ----

  /** If x beats z, then any y is beaten by x or beats z. */
  lemma {:induction false} BeatsSplits(x: Hop, y: Hop, z: Hop)
    requires Beats(x, z)
    ensures Beats(x, y) || Beats(y, z)
  {
    BeatsByText(x, y);
    BeatsByText(y, z);
    BeatsByText(x, z);
    TextLessTotal(x.account.id, y.account.id);
    if TextLess(y.account.id, x.account.id) && TextLess(x.account.id, z.account.id) {
      TextLessTransitive(y.account.id, x.account.id, z.account.id);
    }
  }

  lemma {:induction false} PreferredUnbeaten(best: Hop, next: Hop)
    ensures !Beats(best, Preferred(best, next)) && !Beats(next, Preferred(best, next))
  {
    BeatsByText(best, next);
    BeatsByText(next, best);
    BeatsByText(best, best);
    BeatsByText(next, next);
    TextLessTotal(best.account.id, next.account.id);
    TextLessTotal(best.account.id, best.account.id);
    TextLessTotal(next.account.id, next.account.id);
  }

  lemma {:induction false} BestUnbeaten(hops: seq<Hop>)
    requires hops != []
    ensures Best(hops) in hops && forall other :: other in hops ==> !Beats(other, Best(hops))
  {
    if |hops| == 1 {
      PreferredUnbeaten(hops[0], hops[0]);
    } else {
      var front, last := hops[..|hops| - 1], hops[|hops| - 1];
      BestUnbeaten(front);
      PreferredUnbeaten(Best(front), last);
      forall other | other in hops ensures !Beats(other, Best(hops)) {
        if other != last && Beats(other, Best(hops)) {
          BeatsSplits(other, Best(front), Best(hops));
        }
      }
    }
  }

  /** The route that the i-th table has for the longest of its keys that prefix p. */
  ghost predicate MatchOf(tables: seq<Table>, p: Text, i: nat, h: Hop) {
    i < |tables| && exists k :: PrefixMaps.IsLongestMatch(tables[i].routes, p, k) && h == tables[i].routes[k]
  }

  lemma {:induction false} MatchIsResolved(tables: seq<Table>, p: Text, i: nat, h: Hop)
    requires i < |tables|
    ensures MatchOf(tables, p, i, h) <==> PrefixMaps.Resolve(tables[i].routes, p) == Some(h)
  {
    if MatchOf(tables, p, i, h) {
      var k :| PrefixMaps.IsLongestMatch(tables[i].routes, p, k) && h == tables[i].routes[k];
      PrefixMaps.ResolveIs(tables[i].routes, p, k);
    }
  }

  lemma {:induction false} CandidateMatches(tables: seq<Table>, p: Text, h: Hop) returns (i: nat)
    requires h in Candidates(tables, p)
    ensures MatchOf(tables, p, i, h)
  {
    var last := |tables| - 1;
    if h in Candidates(tables[..last], p) {
      i := CandidateMatches(tables[..last], p, h);
      assert tables[..last][i] == tables[i];
    } else {
      i := last;
      MatchIsResolved(tables, p, last, h);
    }
  }

  lemma {:induction false} MatchIsCandidate(tables: seq<Table>, p: Text, i: nat, h: Hop)
    requires MatchOf(tables, p, i, h)
    ensures h in Candidates(tables, p)
  {
    var last := |tables| - 1;
    if i == last {
      MatchIsResolved(tables, p, last, h);
    } else {
      assert tables[..last][i] == tables[i];
      MatchIsCandidate(tables[..last], p, i, h);
    }
  }

  /** Some table has a key that prefixes p. */
  ghost predicate Reached(tables: seq<Table>, p: Text) {
    exists i, k :: 0 <= i < |tables| && k in tables[i].routes && StartsWith(p, k)
  }

  lemma {:induction false} ReachedIffCandidates(tables: seq<Table>, p: Text)
    ensures Reached(tables, p) <==> Candidates(tables, p) != []
  {
    if tables != [] {
      var last := |tables| - 1;
      ReachedIffCandidates(tables[..last], p);
      assert Reached(tables, p) <==>
          Reached(tables[..last], p) || exists k :: k in tables[last].routes && StartsWith(p, k) by {
        assert forall i :: 0 <= i < last ==> tables[..last][i] == tables[i];
      }
    }
  }

  /** The node delivers to the account itself: the path is empty, and the auth is 32 zeros. */
  ghost predicate Direct(h: Hop, account: Account) {
    && h.account == account && h.route.prefix == account.address && h.route.path == [] && h.route.props == []
    && |h.route.auth| == 32 && forall i :: 0 <= i < 32 ==> h.route.auth[i] == 0
  }

  /** The account at the longest configured ancestor of a prefix; else its local account; else the longest
      match of an incoming table that no other table's longest match beats; else none. */
  ghost predicate Chosen(localRoutes: map<Text, Account>, configured: map<Text, Account>, tables: seq<Table>,
                         p: Text, h: Option<Hop>)
  {
    if exists k :: k in configured && IsAncestor(p, k) then
      h.Some? && exists k :: IsLongestAncestor(configured, p, k) && Direct(h.value, configured[k])
    else if p in localRoutes then h.Some? && Direct(h.value, localRoutes[p])
    else
      && (h.Some? <==> Reached(tables, p))
      && (h.Some? ==>
            && (exists i: nat :: MatchOf(tables, p, i, h.value))
            && forall i: nat, other :: MatchOf(tables, p, i, other) ==> !Beats(other, h.value))
  }

  lemma {:induction false} BestRouteIsChosen(localRoutes: map<Text, Account>, configured: map<Text, Account>,
                                             tables: seq<Table>, p: Text)
    ensures Chosen(localRoutes, configured, tables, p, BestRouteFor(localRoutes, configured, tables, p))
  {
    ConfiguredIsLongest(configured, p);
    ReachedIffCandidates(tables, p);
    var hops := Candidates(tables, p);
    if hops != [] {
      BestUnbeaten(hops);
      var _ := CandidateMatches(tables, p, Best(hops));
      forall i: nat, other | MatchOf(tables, p, i, other) ensures !Beats(other, Best(hops)) {
        MatchIsCandidate(tables, p, i, other);
      }
    }
  }

  method GetBestRouteForPrefix(localRoutes: map<Text, Account>, configured: map<Text, Account>, tables: seq<Table>,
                               prefix: Text)
    returns (h: Option<Hop>)
    ensures h == BestRouteFor(localRoutes, configured, tables, prefix)
  {
    var segments := Split(prefix);
    for i := 0 to |segments|
      invariant ConfiguredAt(configured, segments, |segments|) == ConfiguredAt(configured, segments, |segments| - i)
    {
      var ancestor := Join(segments[0..|segments| - i]);
      if ancestor in configured {
        return Some(LocalHop(configured[ancestor]));
      }
    }
    if prefix in localRoutes {
      return Some(LocalHop(localRoutes[prefix]));
    }
    var candidates := Candidates(tables, prefix);
    if candidates == [] {
      return None;
    }
    var best := candidates[0];
    for i := 1 to |candidates|
      invariant best == Best(candidates[..i])
    {
      assert candidates[..i + 1][..i] == candidates[..i];
      best := Preferred(best, candidates[i]);
    }
    assert candidates[..|candidates|] == candidates;
    h := Some(best);
  }
}
