/** What recomputing best routes leaves in the tables, and what nodes tell each other. */
module Recomputation {
  import opened Basics
  import opened CcpMessages
  import opened RoutingTables
  import opened RouteLog
  import opened BestRoute
  import opened RouteNodes
  import opened Staging
  import opened ForwardingLog
  import opened Network
  import PrefixMaps

  // ---- Both tables after a recomputation ----

  /** After a recomputation, a checked prefix without a route is in neither table. One with a route has the
      best hop filed under it in the local table, exactly when the longest match led elsewhere, and in the
      forwarding table, with this node in front, exactly when it was passed on. Other prefixes are untouched. */
  lemma {:induction false} UpdateInstallsBest(n: Node, hash: Bytes -> Bytes, x: Inputs, prefixes: seq<Text>, p: Text)
    ensures var plan, best := PlanOf(n, x, prefixes), BestAt(n, x, p);
            var n', written := Committed(n, hash, plan), Written(n, hash, plan, |plan.better|, p);
            if p !in prefixes then
              && Get(n'.local.routes, p) == Get(n.local.routes, p)
              && Get(n'.forwarding.routes, p) == Get(n.forwarding.routes, p)
            else if best.None? then
              p !in n'.local.routes && p !in n'.forwarding.routes
            else
              && Get(n'.local.routes, p) == (if Differs(n, p, best.value) then best else Get(n.local.routes, p))
              && Get(n'.forwarding.routes, p) ==
                 (if written then Some(Told(n, hash, best.value)) else Get(n.forwarding.routes, p))
              && (written ==> Differs(n, p, best.value))
  {
    var plan, best := PlanOf(n, x, prefixes), BestAt(n, x, p);
    PlanMeaning(n, x, prefixes, p);
    var hop := if best.Some? then best.value else LocalHop(Account([], Parent, []));
    assert forall c :: c in plan.better && c.prefix == p ==> c == Change(p, c.hop);
    CommittedAt(n, hash, plan, p, hop);
    ChangedAt(plan, |plan.better|, p);
    assert plan.better[..|plan.better|] == plan.better;
    WrittenIsChanged(n, hash, plan, |plan.better|, p);
  }

  lemma {:induction false} WrittenIsChanged(n: Node, hash: Bytes -> Bytes, plan: Plan, k: nat, p: Text)
    requires k <= |plan.better|
    ensures Written(n, hash, plan, k, p) ==> Changed(plan, k, p)
  {
    if k > 0 {
      WrittenIsChanged(n, hash, plan, k - 1, p);
    }
  }

  // ---- Which prefixes lose their route ----

  lemma {:induction false} TablesOf(incoming: map<string, Table>, order: seq<string>, id: string)
    requires id in order && id in incoming
    ensures incoming[id] in TablesIn(incoming, order)
  {
    if id != order[|order| - 1] {
      TablesOf(incoming, order[..|order| - 1], id);
    }
  }

  lemma {:induction false} ReachedThrough(incoming: map<string, Table>, order: seq<string>, p: Text)
    requires PrefixMaps.IterationOrder(incoming, order)
    ensures Reached(TablesIn(incoming, order), p) <==>
            exists id, k :: id in incoming && k in incoming[id].routes && StartsWith(p, k)
  {
    var tables := TablesIn(incoming, order);
    if Reached(tables, p) {
      var i, k :| 0 <= i < |tables| && k in tables[i].routes && StartsWith(p, k);
      TablesFrom(incoming, order);
      assert tables[i] in tables;
    }
    if id, k :| id in incoming && k in incoming[id].routes && StartsWith(p, k) {
      TablesOf(incoming, order, id);
      var i :| 0 <= i < |tables| && tables[i] == incoming[id];
      assert k in tables[i].routes;
    }
  }

  /** A recomputation withdraws exactly the checked prefixes for which no dotted ancestor is configured, that
      are no local account's, and that no incoming table has a key above. */
  lemma {:induction false} WithdrawnExactly(n: Node, x: Inputs, prefixes: seq<Text>, p: Text)
    requires PrefixMaps.IterationOrder(n.incoming, x.order)
    ensures p in PlanOf(n, x, prefixes).withdrawn <==>
            && p in prefixes && (forall k :: k in x.configured ==> !IsAncestor(p, k)) && p !in x.localRoutes
            && !(exists id, k :: id in n.incoming && k in n.incoming[id].routes && StartsWith(p, k))
  {
    PlanMeaning(n, x, prefixes, p);
    BestRouteIsChosen(x.localRoutes, x.configured, TablesIn(n.incoming, x.order), p);
    ReachedThrough(n.incoming, x.order, p);
  }

  // ---- When the forwarding table is written ----

  /** Over an entry, a change is passed on exactly when it is advertised and leads to another account,
      whatever else the plan changes. */
  lemma {:induction false} WrittenOverEntry(n: Node, hash: Bytes -> Bytes, plan: Plan, k: nat, p: Text, hop: Hop)
    requires k <= |plan.better| && p in n.forwarding.routes
    requires forall c :: c in plan.better && c.prefix == p ==> c.hop == hop
    ensures Written(n, hash, plan, k, p) <==>
            && Changed(plan, k, p) && Advertised(n.address, plan.withdrawn, Change(p, hop))
            && n.forwarding.routes[p].account.id != hop.account.id
  {
    if k > 0 {
      var c, s := plan.better[k - 1], StagedTo(n, hash, plan, k - 1);
      assert c in plan.better;
      WrittenOverEntry(n, hash, plan, k - 1, p, hop);
      StagedAt(n, hash, plan, k - 1, p, hop);
      assert p in s.forwarding;
      ExactMatch(s.forwarding, p);
      if c.prefix == p {
        assert c == Change(p, hop);
      }
    }
  }

  /** The route lies in the node's allocation scheme but is not all of it, and is the node's own address, leads
      to another node, or lies outside that address. */
  predicate Presentable(address: Text, r: Route) {
    && StartsWith(r.prefix, Scheme(address)) && r.prefix != Scheme(address)
    && (r.prefix == address || r.path != [] || !StartsWith(r.prefix, address))
  }

  /** A checked prefix with a forwarding entry gets the best hop, if and only if the local table led
      elsewhere, the best route is advertised, and the entry is another account's. */
  lemma {:induction false} EntryReplacedIff(n: Node, hash: Bytes -> Bytes, x: Inputs, prefixes: seq<Text>, p: Text,
      best: Hop)
    requires p in prefixes && p in n.forwarding.routes && BestAt(n, x, p) == Some(best)
    ensures var forwarding := Committed(n, hash, PlanOf(n, x, prefixes)).forwarding.routes;
            var replaced := && Differs(n, p, best) && Presentable(n.address, best.route)
                            && n.forwarding.routes[p].account.id != best.account.id;
            Get(forwarding, p) == Some(if replaced then Told(n, hash, best) else n.forwarding.routes[p])
  {
    var plan := PlanOf(n, x, prefixes);
    UpdateInstallsBest(n, hash, x, prefixes, p);
    PlanMeaning(n, x, prefixes, p);
    assert forall c :: c in plan.better && c.prefix == p ==> c == Change(p, c.hop);
    WrittenOverEntry(n, hash, plan, |plan.better|, p, best);
    ChangedAt(plan, |plan.better|, p);
    assert plan.better[..|plan.better|] == plan.better;
  }

  /** A checked prefix has a best route that the local table does not lead to and that may be advertised. */
  predicate Tellable(n: Node, x: Inputs, p: Text) {
    var best := BestAt(n, x, p);
    best.Some? && Differs(n, p, best.value) && Presentable(n.address, best.value.route)
  }

  /** Checking these prefixes in turn gives the prefix a new forwarding entry: at one of its places in the
      list, the forwarding table led nowhere or to another account than the best route. */
  predicate Fills(n: Node, x: Inputs, prefixes: seq<Text>, p: Text)
    ensures Fills(n, x, prefixes, p) ==> p in prefixes && Tellable(n, x, p)
    decreases |prefixes|, |p|, 0
  {
    && prefixes != []
    && var front := prefixes[..|prefixes| - 1];
    || Fills(n, x, front, p)
    || (&& prefixes[|prefixes| - 1] == p && Tellable(n, x, p)
        && LeadsTo(n, x, front, p) != Some(BestAt(n, x, p).value.account.id))
  }

  /** The account that the forwarding table leads to when these prefixes are done, told from the state
      before: that of the longest key with an entry, a new one before an old one. */
  function LeadsTo(n: Node, x: Inputs, prefixes: seq<Text>, p: Text): (id: Option<string>)
    decreases |prefixes|, |p|, 1
  {
    if Fills(n, x, prefixes, p) then Some(BestAt(n, x, p).value.account.id)
    else if p in n.forwarding.routes then Some(n.forwarding.routes[p].account.id)
    else if p == [] then None
    else LeadsTo(n, x, prefixes, p[..|p| - 1])
  }

  /** Where a lookup leads. */
  function AccountOf(found: Option<Hop>): (id: Option<string>) {
    if found.Some? then Some(found.value.account.id) else None
  }

  /** What is planned for the first prefixes of a list comes first in the plan for the whole list. */
  lemma {:induction false} PlanGrows(n: Node, x: Inputs, prefixes: seq<Text>, k: nat)
    requires k <= |prefixes|
    ensures PlanOf(n, x, prefixes[..k]).better <= PlanOf(n, x, prefixes).better
  {
    if k == |prefixes| {
      assert prefixes[..k] == prefixes;
    } else {
      var front := prefixes[..|prefixes| - 1];
      PlanGrows(n, x, front, k);
      assert front[..k] == prefixes[..k];
    }
  }

  /** The number of changes that the first k prefixes bring. */
  function ChangesBy(n: Node, x: Inputs, prefixes: seq<Text>, k: nat): (m: nat)
    requires k <= |prefixes|
    ensures m <= |PlanOf(n, x, prefixes).better|
  {
    PlanGrows(n, x, prefixes, k);
    |PlanOf(n, x, prefixes[..k]).better|
  }

  lemma {:induction false} NextChange(n: Node, x: Inputs, prefixes: seq<Text>, k: nat)
    requires k < |prefixes|
    ensures var better, p, best := PlanOf(n, x, prefixes).better, prefixes[k], BestAt(n, x, prefixes[k]);
            var m, m' := ChangesBy(n, x, prefixes, k), ChangesBy(n, x, prefixes, k + 1);
            if best.Some? && Differs(n, p, best.value) then m' == m + 1 && better[m] == Change(p, best.value)
            else m' == m
  {
    assert prefixes[..k + 1][..k] == prefixes[..k];
    PlanGrows(n, x, prefixes, k + 1);
    var part := PlanOf(n, x, prefixes[..k + 1]).better;
    assert part == PlanOf(n, x, prefixes).better[..|part|];
  }

  /** What is written after k prefixes is what the state before tells. */
  ghost predicate Agree(n: Node, hash: Bytes -> Bytes, x: Inputs, prefixes: seq<Text>, k: nat, p: Text)
    requires k <= |prefixes|
  {
    Written(n, hash, PlanOf(n, x, prefixes), ChangesBy(n, x, prefixes, k), p) <==> Fills(n, x, prefixes[..k], p)
  }

  /** The change that a prefix brings is passed on, if and only if the state before tells so. */
  lemma {:induction false} PassedOnIff(n: Node, hash: Bytes -> Bytes, x: Inputs, prefixes: seq<Text>, k: nat,
      best: Hop)
    requires k < |prefixes| && BestAt(n, x, prefixes[k]) == Some(best) && Differs(n, prefixes[k], best)
    requires var staged := StagedTo(n, hash, PlanOf(n, x, prefixes), ChangesBy(n, x, prefixes, k)).forwarding;
             AccountOf(PrefixMaps.Resolve(staged, prefixes[k])) == LeadsTo(n, x, prefixes[..k], prefixes[k])
    ensures var plan, m := PlanOf(n, x, prefixes), ChangesBy(n, x, prefixes, k);
            && m < |plan.better| && plan.better[m] == Change(prefixes[k], best)
            && ChangesBy(n, x, prefixes, k + 1) == m + 1
            && (PassedOn(n, hash, plan, m) <==>
                Tellable(n, x, prefixes[k]) && LeadsTo(n, x, prefixes[..k], prefixes[k]) != Some(best.account.id))
  {
    NextChange(n, x, prefixes, k);
    PlanMeaning(n, x, prefixes, prefixes[k]);
  }

  lemma {:induction false} FillsNext(n: Node, x: Inputs, prefixes: seq<Text>, k: nat, p: Text)
    requires k < |prefixes|
    ensures Fills(n, x, prefixes[..k + 1], p) <==>
            || Fills(n, x, prefixes[..k], p)
            || (&& prefixes[k] == p && Tellable(n, x, p)
                && LeadsTo(n, x, prefixes[..k], p) != Some(BestAt(n, x, p).value.account.id))
  {
    assert prefixes[..k + 1][..k] == prefixes[..k];
  }

  lemma {:induction false} AgreeNext(n: Node, hash: Bytes -> Bytes, x: Inputs, prefixes: seq<Text>, k: nat, p: Text)
    requires k < |prefixes| && Agree(n, hash, x, prefixes, k, p)
    requires var staged := StagedTo(n, hash, PlanOf(n, x, prefixes), ChangesBy(n, x, prefixes, k)).forwarding;
             AccountOf(PrefixMaps.Resolve(staged, prefixes[k])) == LeadsTo(n, x, prefixes[..k], prefixes[k])
    ensures Agree(n, hash, x, prefixes, k + 1, p)
  {
    var best := BestAt(n, x, prefixes[k]);
    FillsNext(n, x, prefixes, k, p);
    if best.Some? && Differs(n, prefixes[k], best.value) {
      PassedOnIff(n, hash, x, prefixes, k, best.value);
    } else {
      NextChange(n, x, prefixes, k);
    }
  }

  /** The staged forwarding table leads where the state before tells. */
  lemma {:induction false} StagedLeads(n: Node, hash: Bytes -> Bytes, x: Inputs, prefixes: seq<Text>, k: nat, p: Text)
    requires k <= |prefixes|
    ensures var plan, m := PlanOf(n, x, prefixes), ChangesBy(n, x, prefixes, k);
            AccountOf(PrefixMaps.Resolve(StagedTo(n, hash, plan, m).forwarding, p)) == LeadsTo(n, x, prefixes[..k], p)
    decreases k, |p|, 1
  {
    WrittenIffFills(n, hash, x, prefixes, k, p);
    var plan, m, best := PlanOf(n, x, prefixes), ChangesBy(n, x, prefixes, k), BestAt(n, x, p);
    var hop := if best.Some? then best.value else LocalHop(Account([], Parent, []));
    PlanMeaning(n, x, prefixes, p);
    assert forall c :: c in plan.better && c.prefix == p ==> c == Change(p, c.hop);
    StagedAt(n, hash, plan, m, p, hop);
    if p !in StagedTo(n, hash, plan, m).forwarding && p != [] {
      StagedLeads(n, hash, x, prefixes, k, p[..|p| - 1]);
    }
  }

  /** A prefix is written to the forwarding table, if and only if the state before tells so. */
  lemma {:induction false} WrittenIffFills(n: Node, hash: Bytes -> Bytes, x: Inputs, prefixes: seq<Text>, k: nat,
      p: Text)
    requires k <= |prefixes|
    ensures Written(n, hash, PlanOf(n, x, prefixes), ChangesBy(n, x, prefixes, k), p) <==>
            Fills(n, x, prefixes[..k], p)
    decreases k, |p|, 0
  {
    if k > 0 {
      WrittenIffFills(n, hash, x, prefixes, k - 1, p);
      StagedLeads(n, hash, x, prefixes, k - 1, prefixes[k - 1]);
      AgreeNext(n, hash, x, prefixes, k - 1, p);
    }
  }

  /** The forwarding table after a recomputation, told from the state before. */
  lemma {:induction false} ForwardingAfter(n: Node, hash: Bytes -> Bytes, x: Inputs, prefixes: seq<Text>, p: Text)
    ensures var forwarding := Committed(n, hash, PlanOf(n, x, prefixes)).forwarding.routes;
            Get(forwarding, p) ==
            if Fills(n, x, prefixes, p) then Some(Told(n, hash, BestAt(n, x, p).value))
            else if p in prefixes && BestAt(n, x, p).None? then None
            else Get(n.forwarding.routes, p)
  {
    UpdateInstallsBest(n, hash, x, prefixes, p);
    WrittenIffFills(n, hash, x, prefixes, |prefixes|, p);
    assert prefixes[..|prefixes|] == prefixes;
  }

  /** A prefix that is written was passed on at one of its places. */
  lemma {:induction false} WrittenBy(n: Node, hash: Bytes -> Bytes, plan: Plan, k: nat, p: Text) returns (i: nat)
    requires k <= |plan.better| && Written(n, hash, plan, k, p)
    ensures i < k && plan.better[i].prefix == p && PassedOn(n, hash, plan, i)
  {
    if Written(n, hash, plan, k - 1, p) {
      i := WrittenBy(n, hash, plan, k - 1, p);
    } else {
      i := k - 1;
    }
  }

  /** Every prefix that is passed on has a best route for that very prefix. */
  ghost predicate FillsExactly(n: Node, x: Inputs, prefixes: seq<Text>) {
    forall p :: Fills(n, x, prefixes, p) ==> BestAt(n, x, p).value.route.prefix == p
  }

  lemma {:induction false} ExactIffFillsExactly(n: Node, hash: Bytes -> Bytes, x: Inputs, prefixes: seq<Text>)
    ensures Exact(n, hash, PlanOf(n, x, prefixes)) <==> FillsExactly(n, x, prefixes)
  {
    var plan := PlanOf(n, x, prefixes);
    assert prefixes[..|prefixes|] == prefixes;
    if Exact(n, hash, plan) {
      forall p | Fills(n, x, prefixes, p) ensures BestAt(n, x, p).value.route.prefix == p {
        WrittenIffFills(n, hash, x, prefixes, |prefixes|, p);
        var i := WrittenBy(n, hash, plan, |plan.better|, p);
        PlanMeaning(n, x, prefixes, p);
        assert plan.better[i] == Change(p, plan.better[i].hop);
      }
    }
    if FillsExactly(n, x, prefixes) {
      forall i | 0 <= i < |plan.better| && PassedOn(n, hash, plan, i)
        ensures plan.better[i].hop.route.prefix == plan.better[i].prefix
      {
        var c := plan.better[i];
        WrittenAt(n, hash, plan, |plan.better|, i);
        WrittenIffFills(n, hash, x, prefixes, |prefixes|, c.prefix);
        PlanMeaning(n, x, prefixes, c.prefix);
        assert Change(c.prefix, c.hop) in plan.better;
      }
    }
  }

  /** A recomputation keeps log and forwarding table alike, if and only if every prefix that it fills has a
      best route for that very prefix. */
  lemma {:induction false} RecomputeMirrorsIff(n: Node, hash: Bytes -> Bytes, x: Inputs, prefixes: seq<Text>)
    requires Mirrors(n)
    ensures Mirrors(Committed(n, hash, PlanOf(n, x, prefixes))) <==> FillsExactly(n, x, prefixes)
  {
    PlanMirrorsIffExact(n, hash, n, x, prefixes);
    ExactIffFillsExactly(n, hash, x, prefixes);
  }

  // ---- Prefixes with no checked prefix above them ----

  ghost predicate NoneAbove(prefixes: seq<Text>, p: Text) {
    forall q :: q in prefixes && StartsWith(p, q) ==> q == p
  }

  lemma {:induction false} UnfilledLeads(n: Node, x: Inputs, prefixes: seq<Text>, p: Text)
    requires forall q :: StartsWith(p, q) ==> !Fills(n, x, prefixes, q)
    ensures LeadsTo(n, x, prefixes, p) == AccountOf(PrefixMaps.Resolve(n.forwarding.routes, p))
    decreases |p|
  {
    if p != [] && p !in n.forwarding.routes {
      var shorter := p[..|p| - 1];
      assert forall q :: StartsWith(shorter, q) ==> StartsWith(p, q);
      UnfilledLeads(n, x, prefixes, shorter);
    }
  }

  /** Such a prefix is filled, if and only if it is checked and tellable, and the forwarding table led nowhere
      or to another account. */
  lemma {:induction false} FillsIffLedElsewhere(n: Node, x: Inputs, prefixes: seq<Text>, p: Text)
    requires NoneAbove(prefixes, p)
    ensures Fills(n, x, prefixes, p) <==>
            && p in prefixes && Tellable(n, x, p)
            && AccountOf(PrefixMaps.Resolve(n.forwarding.routes, p)) != Some(BestAt(n, x, p).value.account.id)
  {
    if prefixes != [] {
      var front := prefixes[..|prefixes| - 1];
      assert forall q :: q in prefixes <==> q in front || q == prefixes[|prefixes| - 1];
      FillsIffLedElsewhere(n, x, front, p);
      if !Fills(n, x, front, p) {
        forall q | StartsWith(p, q) ensures !Fills(n, x, front, q) {
          assert q in front ==> q == p;
        }
        UnfilledLeads(n, x, front, p);
      }
    }
  }

  /** The forwarding table has at this prefix what the local table has, with this node in front. */
  predicate Follows(n: Node, hash: Bytes -> Bytes, p: Text) {
    Get(n.forwarding.routes, p) ==
    if p in n.local.routes then Some(Told(n, hash, n.local.routes[p])) else None
  }

  /** After a recomputation the forwarding table follows the local one at a checked prefix, if and only if
      there is no route, or the best one is passed on, or it had the new local entry already. */
  lemma {:induction false} FollowsIff(n: Node, hash: Bytes -> Bytes, x: Inputs, prefixes: seq<Text>, p: Text)
    requires p in prefixes
    ensures var best := BestAt(n, x, p);
            Follows(Committed(n, hash, PlanOf(n, x, prefixes)), hash, p) <==>
            || best.None? || Fills(n, x, prefixes, p)
            || (if Differs(n, p, best.value) then Get(n.forwarding.routes, p) == Some(Told(n, hash, best.value))
                else Follows(n, hash, p))
  {
    UpdateInstallsBest(n, hash, x, prefixes, p);
    ForwardingAfter(n, hash, x, prefixes, p);
  }

  /** A prefix that a peer's route was passed on for is configured to an account below the node's own
      address. That route is not advertised: the local table leads to the account, but the forwarding
      table keeps the peer's entry. */
  lemma {:induction false} UnadvertisedLeavesEntry(n: Node, hash: Bytes -> Bytes, order: seq<string>, p: Text,
      account: Account)
    requires p in n.local.routes && p in n.forwarding.routes
    requires n.local.routes[p].account.id != account.id && n.forwarding.routes[p].account.id != account.id
    requires StartsWith(account.address, n.address) && account.address != n.address
    ensures var n' := Committed(n, hash, PlanOf(n, Inputs(map[], map[p := account], order), [p]));
            && Get(n'.local.routes, p) == Some(LocalHop(account))
            && Get(n'.forwarding.routes, p) == Get(n.forwarding.routes, p)
            && !Follows(n', hash, p)
  {
    var x := Inputs(map[], map[p := account], order);
    ConfiguredBest(n, x, p);
    ExactMatch(n.local.routes, p);
    EntryReplacedIff(n, hash, x, [p], p, LocalHop(account));
    UpdateInstallsBest(n, hash, x, [p], p);
  }

  // ---- Where lookups in the local table lead afterwards ----

  /** The local table's entry at a key after a recomputation, told from the state before. */
  function EntryAfter(n: Node, x: Inputs, prefixes: seq<Text>, k: Text): (h: Option<Hop>) {
    var best := BestAt(n, x, k);
    if k !in prefixes then Get(n.local.routes, k)
    else if best.None? then None
    else if Differs(n, k, best.value) then best
    else Get(n.local.routes, k)
  }

  /** The longest key that the new table will have under p. */
  ghost predicate LongestAfter(n: Node, x: Inputs, prefixes: seq<Text>, p: Text, k: Text) {
    && StartsWith(p, k) && EntryAfter(n, x, prefixes, k).Some?
    && forall other :: StartsWith(p, other) && EntryAfter(n, x, prefixes, other).Some? ==> |other| <= |k|
  }

  /** After a recomputation a lookup leads to a given account, if and only if the longest key that is left
      or newly filed under the prefix does. */
  lemma {:induction false} LookupAfter(n: Node, hash: Bytes -> Bytes, x: Inputs, prefixes: seq<Text>, p: Text,
      id: string)
    ensures var found := PrefixMaps.Resolve(Committed(n, hash, PlanOf(n, x, prefixes)).local.routes, p);
            (found.Some? && found.value.account.id == id) <==>
            exists k :: LongestAfter(n, x, prefixes, p, k) && EntryAfter(n, x, prefixes, k).value.account.id == id
  {
    var routes := Committed(n, hash, PlanOf(n, x, prefixes)).local.routes;
    forall k ensures Get(routes, k) == EntryAfter(n, x, prefixes, k) {
      UpdateInstallsBest(n, hash, x, prefixes, k);
    }
    LookupByEntries(n, x, prefixes, routes, p, id);
  }

  lemma {:induction false} LookupByEntries(n: Node, x: Inputs, prefixes: seq<Text>, routes: Routes, p: Text, id: string)
    requires forall k :: Get(routes, k) == EntryAfter(n, x, prefixes, k)
    ensures var found := PrefixMaps.Resolve(routes, p);
            (found.Some? && found.value.account.id == id) <==>
            exists k :: LongestAfter(n, x, prefixes, p, k) && EntryAfter(n, x, prefixes, k).value.account.id == id
  {
    forall k ensures LongestAfter(n, x, prefixes, p, k) <==> PrefixMaps.IsLongestMatch(routes, p, k) {
      assert Get(routes, k) == EntryAfter(n, x, prefixes, k);
      assert forall other :: other in routes <==> EntryAfter(n, x, prefixes, other).Some? by {
        forall other ensures other in routes <==> EntryAfter(n, x, prefixes, other).Some? {
          assert Get(routes, other) == EntryAfter(n, x, prefixes, other);
        }
      }
    }
    var found := PrefixMaps.Resolve(routes, p);
    if found.Some? {
      var k :| PrefixMaps.IsLongestMatch(routes, p, k) && found.value == routes[k];
      assert LongestAfter(n, x, prefixes, p, k) && Get(routes, k) == EntryAfter(n, x, prefixes, k);
    }
    forall k | LongestAfter(n, x, prefixes, p, k) ensures found == EntryAfter(n, x, prefixes, k) {
      PrefixMaps.ResolveIs(routes, p, k);
      assert Get(routes, k) == EntryAfter(n, x, prefixes, k);
    }
  }

  /** A checked prefix leads to the account of its best route afterwards, if it was a key of the local table
      or led elsewhere, and otherwise exactly when the longest key left above it does. */
  lemma {:induction false} CheckedLeadsToBest(n: Node, hash: Bytes -> Bytes, x: Inputs, prefixes: seq<Text>,
      p: Text, best: Hop)
    requires p in prefixes && BestAt(n, x, p) == Some(best)
    ensures var found := PrefixMaps.Resolve(Committed(n, hash, PlanOf(n, x, prefixes)).local.routes, p);
            (found.Some? && found.value.account.id == best.account.id) <==>
            || p in n.local.routes || Differs(n, p, best)
            || exists k :: && k != p && LongestAfter(n, x, prefixes, p, k)
                           && EntryAfter(n, x, prefixes, k).value.account.id == best.account.id
  {
    LookupAfter(n, hash, x, prefixes, p, best.account.id);
    var entry := EntryAfter(n, x, prefixes, p);
    if p in n.local.routes {
      ExactMatch(n.local.routes, p);
    }
    if entry.Some? {
      assert LongestAfter(n, x, prefixes, p, p);
    }
  }

  /** Two prefixes are checked together, one below the other. The shorter one gets a new account; the longer
      one, whose best account the table led to through the shorter key, is left alone and now leads astray. */
  lemma {:induction false} CheckedCanLeadAstray(n: Node, hash: Bytes -> Bytes, order: seq<string>, k: Text,
      p: Text, a: Hop, b: Account)
    requires n.local.routes == map[k := a] && StartsWith(p, k) && p != k && a.account.id != b.id
    ensures var x := Inputs(map[], map[k := b, p := a.account], order);
            && BestAt(n, x, p) == Some(LocalHop(a.account))
            && PrefixMaps.Resolve(Committed(n, hash, PlanOf(n, x, [k, p])).local.routes, p) == Some(LocalHop(b))
  {
    var x := Inputs(map[], map[k := b, p := a.account], order);
    var routes := Committed(n, hash, PlanOf(n, x, [k, p])).local.routes;
    ConfiguredBest(n, x, k);
    ConfiguredBest(n, x, p);
    ExactMatch(n.local.routes, k);
    PrefixMaps.ResolveIs(n.local.routes, p, k);
    forall q ensures Get(routes, q) == if q == k then Some(LocalHop(b)) else None {
      UpdateInstallsBest(n, hash, x, [k, p], q);
    }
    assert Get(routes, k) == Some(LocalHop(b));
    forall q | q in routes ensures q == k {
      assert Get(routes, q) != None;
    }
    PrefixMaps.ResolveIs(routes, p, k);
  }

  // ---- What is accepted and what is told, over every run of a network ----

  /** A route this node tells its peers: its own address comes first on the path, and it is neither the
      whole allocation scheme nor one of the node's own accounts. */
  predicate Public(address: Text, r: Route) {
    && r.path != [] && r.path[0] == address
    && StartsWith(r.prefix, Scheme(address)) && r.prefix != Scheme(address)
    && (r.prefix == address || !StartsWith(r.prefix, address) || |r.path| > 1)
  }

  ghost predicate Polite(n: Node) {
    && (forall id, p :: id in n.incoming && p in n.incoming[id].routes ==>
          var r := n.incoming[id].routes[p].route; r.prefix == p && Acceptable(n.address, r))
    && (forall r :: AnnouncedIn(n.log, r) ==> Public(n.address, r))
  }

  lemma {:induction false} ReceivedPolite(n: Node, from: Account, u: RouteUpdate)
    requires Polite(n)
    ensures Polite(Received(n, from, u))
  {
    FilterMeaning(r => Acceptable(n.address, r), u.newRoutes);
    InsertedMeaning(from, FilterRoutes(n.address, u).newRoutes);
  }

  lemma {:induction false} StagedPublic(address: Text, hash: Bytes -> Bytes, withdrawn: seq<Text>, s: Staged,
                                        better: seq<Change>)
    requires forall r :: r in s.announced ==> Public(address, r)
    ensures forall r :: r in StagedAll(address, hash, withdrawn, s, better).announced ==> Public(address, r)
  {
    if better != [] {
      StagedPublic(address, hash, withdrawn, s, better[..|better| - 1]);
    }
  }

  lemma {:induction false} CommittedPolite(n: Node, hash: Bytes -> Bytes, plan: Plan)
    requires Polite(n)
    ensures Polite(Committed(n, hash, plan))
  {
    var n' := Committed(n, hash, plan);
    StagedPublic(n.address, hash, plan.withdrawn, Staged(n.local.routes, n.forwarding.routes, []), plan.better);
    forall r | AnnouncedIn(n'.log, r) ensures Public(n.address, r) {
      var i :| 0 <= i < |n'.log| && r in n'.log[i].added;
      if i < |n.log| {
        assert r in n.log[i].added;
      }
    }
  }

  lemma {:induction false} RunKeepsPolite(hash: Bytes -> Bytes, start: World, steps: seq<Step>)
    requires Initial(start)
    ensures forall i :: i in After(hash, start, steps).nodes ==> Polite(After(hash, start, steps).nodes[i])
  {
    if steps != [] {
      var w := After(hash, start, steps[..|steps| - 1]);
      var step := steps[|steps| - 1];
      RunKeepsPolite(hash, start, steps[..|steps| - 1]);
      if step.node in w.nodes {
        match step
        case Write(i, plan) => CommittedPolite(w.nodes[i], hash, plan);
        case Deliver(i, account, u) => ReceivedPolite(w.nodes[i], account, u);
        case _ =>
      }
    }
  }

  /** In every reachable world, a node holds routes from peers only for longer prefixes in its own
      allocation scheme and outside its own address, and announces only public routes. */
  lemma {:induction false} OnlyPublicRoutes(hash: Bytes -> Bytes, start: World, steps: seq<Step>, i: nat,
      id: string, p: Text, r: Route)
    requires Initial(start) && i in After(hash, start, steps).nodes
    ensures var n := After(hash, start, steps).nodes[i];
            && (id in n.incoming && p in n.incoming[id].routes ==>
                  StartsWith(p, Scheme(n.address)) && |p| > |Scheme(n.address)| + 1 && !StartsWith(p, n.address))
            && (AnnouncedIn(n.log, r) ==> Public(n.address, r))
  {
    RunKeepsPolite(hash, start, steps);
    assert Polite(After(hash, start, steps).nodes[i]);
  }
}
