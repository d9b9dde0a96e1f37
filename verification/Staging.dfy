/** A recomputation of best routes (`update_best_routes`), prefix by prefix and change by change. */
module Staging {
  import opened Basics
  import opened CcpMessages
  import opened RoutingTables
  import opened RouteLog
  import opened BestRoute
  import opened RouteNodes
  import PrefixMaps

  // ---- What is planned ----

  /** What the store tells of local and configured routes, and the order of the incoming tables. */
  datatype Inputs = Inputs(localRoutes: map<Text, Account>, configured: map<Text, Account>, order: seq<string>)

  function BestAt(n: Node, x: Inputs, p: Text): (h: Option<Hop>) {
    BestRouteFor(x.localRoutes, x.configured, TablesIn(n.incoming, x.order), p)
  }

  function PlanOf(n: Node, x: Inputs, prefixes: seq<Text>): (plan: Plan) {
    Planned(n, x.localRoutes, x.configured, x.order, prefixes)
  }

  /** The local table leads somewhere else than the best route, or nowhere. */
  predicate Differs(n: Node, p: Text, best: Hop) {
    var current := PrefixMaps.Resolve(n.local.routes, p);
    current.None? || current.value.account.id != best.account.id
  }

  /** Which prefixes a plan withdraws and which it changes, and to what. */
  lemma {:induction false} PlanMeaning(n: Node, x: Inputs, prefixes: seq<Text>, p: Text)
    ensures var plan, best := PlanOf(n, x, prefixes), BestAt(n, x, p);
            && (p in plan.withdrawn <==> p in prefixes && best.None?)
            && (forall hop :: Change(p, hop) in plan.better <==>
                  p in prefixes && best == Some(hop) && Differs(n, p, hop))
  {
    if prefixes != [] {
      PlanMeaning(n, x, prefixes[..|prefixes| - 1], p);
      assert forall q :: q in prefixes <==> q in prefixes[..|prefixes| - 1] || q == prefixes[|prefixes| - 1];
    }
  }

  /** All changes for one prefix are the same change. */
  ghost predicate Alike(plan: Plan) {
    forall c, c' :: c in plan.better && c' in plan.better && c.prefix == c'.prefix ==> c == c'
  }

  lemma {:induction false} PlanIsAlike(n: Node, x: Inputs, prefixes: seq<Text>)
    ensures Alike(PlanOf(n, x, prefixes))
  {
    var plan := PlanOf(n, x, prefixes);
    forall c, c' | c in plan.better && c' in plan.better && c.prefix == c'.prefix ensures c == c' {
      PlanMeaning(n, x, prefixes, c.prefix);
      assert c == Change(c.prefix, c.hop) && c' == Change(c.prefix, c'.hop);
    }
  }

  // ---- What is staged ----

  /** Both tables and the announced routes after the first k changes. */
  function StagedTo(n: Node, hash: Bytes -> Bytes, plan: Plan, k: nat): (s: Staged)
    requires k <= |plan.better|
  {
    StagedAll(n.address, hash, plan.withdrawn, Staged(n.local.routes, n.forwarding.routes, []), plan.better[..k])
  }

  /** The i-th change is passed on to peers: it is advertised, and the forwarding table as staged so far
      leads nowhere or to another account. */
  predicate PassedOn(n: Node, hash: Bytes -> Bytes, plan: Plan, i: nat)
    requires i < |plan.better|
  {
    var c := plan.better[i];
    var known := PrefixMaps.Resolve(StagedTo(n, hash, plan, i).forwarding, c.prefix);
    Advertised(n.address, plan.withdrawn, c) && (known.None? || known.value.account.id != c.hop.account.id)
  }

  lemma {:induction false} StagedNext(n: Node, hash: Bytes -> Bytes, plan: Plan, k: nat)
    requires k < |plan.better|
    ensures StagedTo(n, hash, plan, k + 1) ==
            StagedOne(n.address, hash, plan.withdrawn, StagedTo(n, hash, plan, k), plan.better[k])
  {
    assert plan.better[..k + 1][..k] == plan.better[..k];
  }

  /** One of the first k changes is for this prefix. */
  predicate Changed(plan: Plan, k: nat, p: Text)
    requires k <= |plan.better|
  {
    k > 0 && (Changed(plan, k - 1, p) || plan.better[k - 1].prefix == p)
  }

  /** One of the first k changes writes this prefix to the forwarding table. */
  predicate Written(n: Node, hash: Bytes -> Bytes, plan: Plan, k: nat, p: Text)
    requires k <= |plan.better|
  {
    k > 0 && (Written(n, hash, plan, k - 1, p) || (plan.better[k - 1].prefix == p && PassedOn(n, hash, plan, k - 1)))
  }

  lemma {:induction false} WrittenAt(n: Node, hash: Bytes -> Bytes, plan: Plan, k: nat, i: nat)
    requires i < k <= |plan.better| && PassedOn(n, hash, plan, i)
    ensures Written(n, hash, plan, k, plan.better[i].prefix)
  {
    if i < k - 1 {
      WrittenAt(n, hash, plan, k - 1, i);
    }
  }

  lemma {:induction false} ChangedAt(plan: Plan, k: nat, p: Text)
    requires k <= |plan.better|
    ensures Changed(plan, k, p) <==> exists c :: c in plan.better[..k] && c.prefix == p
  {
    if k > 0 {
      ChangedAt(plan, k - 1, p);
      assert forall c :: c in plan.better[..k] <==> c in plan.better[..k - 1] || c == plan.better[k - 1];
    }
  }

  /** The hop that a node passes on. */
  function Told(n: Node, hash: Bytes -> Bytes, hop: Hop): (h: Hop) {
    Hop(hop.account, Route(hop.route.prefix, [n.address] + hop.route.path, hash(hop.route.auth), hop.route.props))
  }

  /** What staging leaves at a prefix: the change in the local table, and in the forwarding table exactly
      when it was passed on. */
  lemma {:induction false} StagedAt(n: Node, hash: Bytes -> Bytes, plan: Plan, k: nat, p: Text, hop: Hop)
    requires k <= |plan.better|
    requires forall c :: c in plan.better && c.prefix == p ==> c.hop == hop
    ensures var s := StagedTo(n, hash, plan, k);
            && Get(s.local, p) == (if Changed(plan, k, p) then Some(hop) else Get(n.local.routes, p))
            && Get(s.forwarding, p) ==
               (if Written(n, hash, plan, k, p) then Some(Told(n, hash, hop)) else Get(n.forwarding.routes, p))
  {
    if k > 0 {
      StagedAt(n, hash, plan, k - 1, p, hop);
      StagedNext(n, hash, plan, k - 1);
      assert plan.better[k - 1] in plan.better;
    }
  }

  /** What committing a plan leaves at a prefix. */
  lemma {:induction false} CommittedAt(n: Node, hash: Bytes -> Bytes, plan: Plan, p: Text, hop: Hop)
    requires forall c :: c in plan.better && c.prefix == p ==> c.hop == hop
    ensures var n', all := Committed(n, hash, plan), |plan.better|;
            if p in plan.withdrawn then
              p !in n'.local.routes && p !in n'.forwarding.routes
            else
              && Get(n'.local.routes, p) == (if Changed(plan, all, p) then Some(hop) else Get(n.local.routes, p))
              && Get(n'.forwarding.routes, p) ==
                 (if Written(n, hash, plan, all, p) then Some(Told(n, hash, hop)) else Get(n.forwarding.routes, p))
  {
    var all := |plan.better|;
    StagedAt(n, hash, plan, all, p, hop);
    assert plan.better[..all] == plan.better;
    WithoutAt(StagedTo(n, hash, plan, all).local, plan.withdrawn, p);
    WithoutAt(StagedTo(n, hash, plan, all).forwarding, plan.withdrawn, p);
  }

  lemma {:induction false} ExactMatch(routes: Routes, p: Text)
    requires p in routes
    ensures PrefixMaps.Resolve(routes, p) == Some(routes[p])
  {
  }

  // ---- Plans for a single prefix ----

  lemma {:induction false} WithoutNothing(m: Routes)
    ensures Without(m, []) == m
  {
    var none: seq<Text> := [];
    assert (set p | p in none) == {};
  }

  /** A node after one change that it passes on. */
  function ToldOf(n: Node, hash: Bytes -> Bytes, c: Change): (n': Node) {
    var f := n.forwarding;
    n.(local := n.local.(routes := n.local.routes[c.prefix := c.hop]),
       forwarding := Table(f.id, f.epoch + 1, f.routes[c.prefix := Told(n, hash, c.hop)]),
       log := n.log + [Entry([Forwarded(n.address, hash, c.hop.route)], [])])
  }

  lemma {:induction false} OneChange(n: Node, hash: Bytes -> Bytes, c: Change)
    requires PassedOn(n, hash, Plan([c], []), 0)
    ensures Committed(n, hash, Plan([c], [])) == ToldOf(n, hash, c)
  {
    var plan := Plan([c], []);
    var route := Forwarded(n.address, hash, c.hop.route);
    assert plan.better[..0] == [] && plan.better[..1] == plan.better;
    StagedNext(n, hash, plan, 0);
    assert [] + [route] == [route];
    WithoutNothing(StagedTo(n, hash, plan, 1).local);
    WithoutNothing(StagedTo(n, hash, plan, 1).forwarding);
  }

  /** A node after withdrawing one prefix. */
  function WithdrawnOf(n: Node, p: Text): (n': Node) {
    n.(local := n.local.(routes := Without(n.local.routes, [p])),
       forwarding := Table(n.forwarding.id, n.forwarding.epoch + 1, Without(n.forwarding.routes, [p])),
       log := n.log + [Entry([], [p])])
  }

  lemma {:induction false} OneWithdrawal(n: Node, hash: Bytes -> Bytes, p: Text)
    ensures Committed(n, hash, Plan([], [p])) == WithdrawnOf(n, p)
  {
  }

  lemma {:induction false} PlanForOne(n: Node, x: Inputs, p: Text)
    ensures PlanOf(n, x, [p]) ==
            match BestAt(n, x, p)
            case None => Plan([], [p])
            case Some(best) => if Differs(n, p, best) then Plan([Change(p, best)], []) else Plan([], [])
  {
    var one := [p];
    assert one[..|one| - 1] == [] && one[|one| - 1] == p;
    assert PlanOf(n, x, []) == Plan([], []);
    assert PlanOf(n, x, one) == PlannedFor(n, x.localRoutes, x.configured, x.order, Plan([], []), p);
    assert [] + [p] == [p];
    if BestAt(n, x, p).Some? {
      assert [] + [Change(p, BestAt(n, x, p).value)] == [Change(p, BestAt(n, x, p).value)];
    }
  }

  /** A configured prefix leads to the configured account. */
  lemma {:induction false} ConfiguredBest(n: Node, x: Inputs, p: Text)
    requires p in x.configured
    ensures BestAt(n, x, p) == Some(LocalHop(x.configured[p]))
  {
    JoinSplit(p);
    assert Split(p)[..|Split(p)|] == Split(p);
  }
}
