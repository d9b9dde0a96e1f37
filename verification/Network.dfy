/** Any number of nodes exchanging routes: paths never loop, in any table or message of any run. */
module Network {
  import opened Basics
  import opened CcpMessages
  import opened RoutingTables
  import opened RouteLog
  import opened Replication
  import opened BestRoute
  import opened RouteNodes
  import PrefixMaps

  /** `plans` are recomputations between their read and write phases; `updates` is every update ever
      sent, so delivery may be lost, late, repeated, out of order and to any node. */
  datatype World = World(nodes: map<nat, Node>, plans: map<nat, set<Plan>>, updates: set<RouteUpdate>)

  datatype Step =
    | Recompute(node: nat, localRoutes: map<Text, Account>, configured: map<Text, Account>, order: seq<string>,
                prefixes: seq<Text>)
    | Write(node: nat, plan: Plan)
    | Send(node: nat, from: nat, to: nat)
    | Deliver(node: nat, account: Account, update: RouteUpdate)

  function PlansOf(w: World, node: nat): (ps: set<Plan>) {
    if node in w.plans then w.plans[node] else {}
  }

  /** A recomputation visits every incoming table once, in some order. */
  ghost function Next(hash: Bytes -> Bytes, w: World, step: Step): (w': World) {
    if step.node !in w.nodes then w
    else
      var i, n := step.node, w.nodes[step.node];
      match step
      case Recompute(_, localRoutes, configured, order, prefixes) =>
        if PrefixMaps.IterationOrder(n.incoming, order) then
          w.(plans := w.plans[i := PlansOf(w, i) + {Planned(n, localRoutes, configured, order, prefixes)}])
        else w
      case Write(_, plan) =>
        if plan in PlansOf(w, i) then w.(nodes := w.nodes[i := Committed(n, hash, plan)]) else w
      case Send(_, from, to) =>
        w.(updates := w.updates + {SentBy(n, from, to)})
      case Deliver(_, account, u) =>
        if u in w.updates then w.(nodes := w.nodes[i := Received(n, account, u)]) else w
  }

  ghost function After(hash: Bytes -> Bytes, start: World, steps: seq<Step>): (w: World) {
    if steps == [] then start else Next(hash, After(hash, start, steps[..|steps| - 1]), steps[|steps| - 1])
  }

  ghost predicate Initial(w: World) {
    && w.plans == map[] && w.updates == {}
    && forall i :: i in w.nodes ==>
         var n := w.nodes[i];
         n.forwarding.routes == map[] && n.local.routes == map[] && n.log == [] && n.incoming == map[]
  }

  // ---- Sound routes ----

  function Iterated(hash: Bytes -> Bytes, n: nat, seed: Bytes): (r: Bytes) {
    if n == 0 then seed else hash(Iterated(hash, n - 1, seed))
  }

  /** The path visits each node at most once, and the auth was hashed once per node on the path. */
  ghost predicate Sound(hash: Bytes -> Bytes, addresses: set<Text>, r: Route) {
    && NoDuplicates(r.path)
    && (forall a :: a in r.path ==> a in addresses)
    && r.auth == Iterated(hash, |r.path|, ZeroAuth())
  }

  ghost predicate Avoiding(hash: Bytes -> Bytes, addresses: set<Text>, owner: Text, r: Route) {
    Sound(hash, addresses, r) && owner !in r.path
  }

  /** Every hop avoids the owner; in a table kept for an account, it also leads to that account. */
  ghost predicate TableSound(hash: Bytes -> Bytes, addresses: set<Text>, owner: Text, routes: Routes) {
    forall p :: p in routes ==> Avoiding(hash, addresses, owner, routes[p].route)
  }

  ghost predicate OwnedBy(id: string, routes: Routes) {
    forall p :: p in routes ==> routes[p].account.id == id
  }

  ghost predicate NodeSound(hash: Bytes -> Bytes, addresses: set<Text>, n: Node) {
    && n.address in addresses
    && TableSound(hash, addresses, n.address, n.local.routes)
    && (forall p :: p in n.forwarding.routes ==> Sound(hash, addresses, n.forwarding.routes[p].route))
    && (forall r :: AnnouncedIn(n.log, r) ==> Sound(hash, addresses, r))
    && (forall id :: id in n.incoming ==>
          TableSound(hash, addresses, n.address, n.incoming[id].routes) && OwnedBy(id, n.incoming[id].routes))
  }

  ghost predicate PlanSound(hash: Bytes -> Bytes, addresses: set<Text>, owner: Text, plan: Plan) {
    forall c :: c in plan.better ==> Avoiding(hash, addresses, owner, c.hop.route)
  }

  ghost predicate WorldSound(hash: Bytes -> Bytes, addresses: set<Text>, w: World) {
    && (forall i :: i in w.nodes ==> NodeSound(hash, addresses, w.nodes[i]))
    && (forall i, plan :: i in w.nodes && plan in PlansOf(w, i) ==>
          PlanSound(hash, addresses, w.nodes[i].address, plan))
    && (forall u, r :: u in w.updates && r in u.newRoutes ==> Sound(hash, addresses, r))
  }

  // ---- Each operation keeps routes sound ----

  lemma {:induction false} ForwardedSound(hash: Bytes -> Bytes, addresses: set<Text>, owner: Text, r: Route)
    requires owner in addresses && Avoiding(hash, addresses, owner, r)
    ensures Sound(hash, addresses, Forwarded(owner, hash, r))
  {
  }

  lemma {:induction false} ReceivedSound(hash: Bytes -> Bytes, addresses: set<Text>, n: Node, from: Account,
      u: RouteUpdate)
    requires NodeSound(hash, addresses, n)
    requires forall r :: r in u.newRoutes ==> Sound(hash, addresses, r)
    ensures NodeSound(hash, addresses, Received(n, from, u))
  {
    FilterMeaning(r => Acceptable(n.address, r), u.newRoutes);
    var table := if from.id in n.incoming then n.incoming[from.id] else Table(u.tableId, 0, map[]);
    UpdatedSound(hash, addresses, n.address, table, from, FilterRoutes(n.address, u));
  }

  lemma {:induction false} UpdatedSound(hash: Bytes -> Bytes, addresses: set<Text>, owner: Text, t: Table,
      from: Account, u: RouteUpdate)
    requires TableSound(hash, addresses, owner, t.routes) && OwnedBy(from.id, t.routes)
    requires forall r :: r in u.newRoutes ==> Avoiding(hash, addresses, owner, r)
    ensures var routes := AfterUpdate(t, from, u).routes;
            TableSound(hash, addresses, owner, routes) && OwnedBy(from.id, routes)
  {
    InsertedMeaning(from, u.newRoutes);
  }

  lemma {:induction false} CandidatesSound(hash: Bytes -> Bytes, addresses: set<Text>, owner: Text,
                                           tables: seq<Table>, prefix: Text)
    requires forall i :: 0 <= i < |tables| ==> TableSound(hash, addresses, owner, tables[i].routes)
    ensures forall h :: h in Candidates(tables, prefix) ==> Avoiding(hash, addresses, owner, h.route)
  {
    if tables != [] {
      CandidatesSound(hash, addresses, owner, tables[..|tables| - 1], prefix);
    }
  }

  lemma {:induction false} BestIn(hops: seq<Hop>)
    requires hops != []
    ensures Best(hops) in hops
  {
    if |hops| > 1 {
      BestIn(hops[..|hops| - 1]);
    }
  }

  lemma {:induction false} TablesFrom(incoming: map<string, Table>, order: seq<string>)
    ensures forall t :: t in TablesIn(incoming, order) ==> exists id :: id in incoming && incoming[id] == t
  {
    if order != [] {
      TablesFrom(incoming, order[..|order| - 1]);
    }
  }

  lemma {:induction false} BestRouteSound(hash: Bytes -> Bytes, addresses: set<Text>, n: Node,
                                          localRoutes: map<Text, Account>, configured: map<Text, Account>,
                                          order: seq<string>, prefix: Text)
    requires NodeSound(hash, addresses, n)
    ensures var best := BestRouteFor(localRoutes, configured, TablesIn(n.incoming, order), prefix);
            best.Some? ==> Avoiding(hash, addresses, n.address, best.value.route)
  {
    var tables := TablesIn(n.incoming, order);
    TablesFrom(n.incoming, order);
    forall i | 0 <= i < |tables| ensures TableSound(hash, addresses, n.address, tables[i].routes) {
      assert tables[i] in tables;
    }
    CandidatesSound(hash, addresses, n.address, tables, prefix);
    if Candidates(tables, prefix) != [] {
      BestIn(Candidates(tables, prefix));
    }
  }

  lemma {:induction false} PlannedSound(hash: Bytes -> Bytes, addresses: set<Text>, n: Node,
                                        localRoutes: map<Text, Account>, configured: map<Text, Account>,
                                        order: seq<string>, prefixes: seq<Text>)
    requires NodeSound(hash, addresses, n)
    ensures PlanSound(hash, addresses, n.address, Planned(n, localRoutes, configured, order, prefixes))
  {
    if prefixes != [] {
      PlannedSound(hash, addresses, n, localRoutes, configured, order, prefixes[..|prefixes| - 1]);
      BestRouteSound(hash, addresses, n, localRoutes, configured, order, prefixes[|prefixes| - 1]);
    }
  }

  ghost predicate StagedSound(hash: Bytes -> Bytes, addresses: set<Text>, owner: Text, s: Staged) {
    && TableSound(hash, addresses, owner, s.local)
    && (forall p :: p in s.forwarding ==> Sound(hash, addresses, s.forwarding[p].route))
    && (forall r :: r in s.announced ==> Sound(hash, addresses, r))
  }

  lemma {:induction false} StagedAllSound(hash: Bytes -> Bytes, addresses: set<Text>, owner: Text,
                                          withdrawn: seq<Text>, s: Staged, better: seq<Change>)
    requires owner in addresses && StagedSound(hash, addresses, owner, s)
    requires forall c :: c in better ==> Avoiding(hash, addresses, owner, c.hop.route)
    ensures StagedSound(hash, addresses, owner, StagedAll(owner, hash, withdrawn, s, better))
  {
    if better != [] {
      StagedAllSound(hash, addresses, owner, withdrawn, s, better[..|better| - 1]);
      ForwardedSound(hash, addresses, owner, better[|better| - 1].hop.route);
    }
  }

  lemma {:induction false} CommittedSound(hash: Bytes -> Bytes, addresses: set<Text>, n: Node, plan: Plan)
    requires NodeSound(hash, addresses, n) && PlanSound(hash, addresses, n.address, plan)
    ensures NodeSound(hash, addresses, Committed(n, hash, plan))
  {
    var start := Staged(n.local.routes, n.forwarding.routes, []);
    StagedAllSound(hash, addresses, n.address, plan.withdrawn, start, plan.better);
    var n' := Committed(n, hash, plan);
    forall r | AnnouncedIn(n'.log, r) ensures Sound(hash, addresses, r) {
      var i :| 0 <= i < |n'.log| && r in n'.log[i].added;
      if i < |n.log| {
        assert r in n.log[i].added;
      }
    }
  }

  lemma {:induction false} SentSound(hash: Bytes -> Bytes, addresses: set<Text>, n: Node, from: nat, to: nat)
    requires NodeSound(hash, addresses, n)
    ensures forall r :: r in SentBy(n, from, to).newRoutes ==> Sound(hash, addresses, r)
  {
    var own := if from == 0 then Entry([OwnRoute(n.address)], []) else NOTHING;
    var segment := Segment(n.log, from, to);
    forall r | r in SentBy(n, from, to).newRoutes ensures Sound(hash, addresses, r) {
      MergedFrom(own, segment, r);
      if r !in own.added {
        var i :| 0 <= i < |segment| && r in segment[i].added;
        assert r in n.log[Min(from, |n.log|) + i].added;
      }
    }
  }

  lemma {:induction false} NodeStepSound(hash: Bytes -> Bytes, addresses: set<Text>, w: World, i: nat, n': Node)
    requires WorldSound(hash, addresses, w) && i in w.nodes
    requires NodeSound(hash, addresses, n') && n'.address == w.nodes[i].address
    ensures WorldSound(hash, addresses, w.(nodes := w.nodes[i := n']))
  {
    var w' := w.(nodes := w.nodes[i := n']);
    assert forall j :: PlansOf(w', j) == PlansOf(w, j);
  }

  lemma {:induction false} RecomputeSound(hash: Bytes -> Bytes, addresses: set<Text>, w: World, i: nat, plan: Plan)
    requires WorldSound(hash, addresses, w) && i in w.nodes
    requires PlanSound(hash, addresses, w.nodes[i].address, plan)
    ensures WorldSound(hash, addresses, w.(plans := w.plans[i := PlansOf(w, i) + {plan}]))
  {
    var w' := w.(plans := w.plans[i := PlansOf(w, i) + {plan}]);
    assert forall j :: j != i ==> PlansOf(w', j) == PlansOf(w, j);
  }

  lemma {:induction false} RunKeepsSound(hash: Bytes -> Bytes, addresses: set<Text>, start: World, steps: seq<Step>)
    requires Initial(start) && forall i :: i in start.nodes ==> start.nodes[i].address in addresses
    ensures WorldSound(hash, addresses, After(hash, start, steps))
  {
    if steps != [] {
      var w := After(hash, start, steps[..|steps| - 1]);
      var step := steps[|steps| - 1];
      RunKeepsSound(hash, addresses, start, steps[..|steps| - 1]);
      if step.node in w.nodes {
        var i, n := step.node, w.nodes[step.node];
        match step
        case Recompute(_, localRoutes, configured, order, prefixes) =>
          PlannedSound(hash, addresses, n, localRoutes, configured, order, prefixes);
          RecomputeSound(hash, addresses, w, i, Planned(n, localRoutes, configured, order, prefixes));
        case Write(_, plan) =>
          if plan in PlansOf(w, i) {
            CommittedSound(hash, addresses, n, plan);
            NodeStepSound(hash, addresses, w, i, Committed(n, hash, plan));
          }
        case Send(_, from, to) =>
          SentSound(hash, addresses, n, from, to);
        case Deliver(_, account, u) =>
          if u in w.updates {
            ReceivedSound(hash, addresses, n, account, u);
            NodeStepSound(hash, addresses, w, i, Received(n, account, u));
          }
      }
    }
  }

  // ---- The theorems ----

  /** The node keeps `r` in one of its tables or in its log. */
  ghost predicate Holds(n: Node, r: Route) {
    || (exists p :: p in n.local.routes && n.local.routes[p].route == r)
    || (exists p :: p in n.forwarding.routes && n.forwarding.routes[p].route == r)
    || AnnouncedIn(n.log, r)
    || (exists id, p :: id in n.incoming && p in n.incoming[id].routes && n.incoming[id].routes[p].route == r)
  }

  ghost predicate Occurs(w: World, r: Route) {
    || (exists u :: u in w.updates && r in u.newRoutes)
    || (exists i :: i in w.nodes && Holds(w.nodes[i], r))
  }

  lemma {:induction false} OccursSound(hash: Bytes -> Bytes, addresses: set<Text>, w: World, r: Route)
    requires WorldSound(hash, addresses, w) && Occurs(w, r)
    ensures Sound(hash, addresses, r)
  {
    if i :| i in w.nodes && Holds(w.nodes[i], r) {
      assert NodeSound(hash, addresses, w.nodes[i]);
    }
  }

  function Addresses(w: World): (s: set<Text>) {
    set i | i in w.nodes :: w.nodes[i].address
  }

  lemma {:induction false} AddressesBound(nodes: map<nat, Node>, ids: set<nat>)
    requires ids <= nodes.Keys
    ensures |set i | i in ids :: nodes[i].address| <= |ids|
  {
    var addresses := set i | i in ids :: nodes[i].address;
    if ids != {} {
      var i :| i in ids;
      AddressesBound(nodes, ids - {i});
      var fewer := set k | k in ids - {i} :: nodes[k].address;
      assert addresses == fewer + {nodes[i].address};
    }
  }

  /** Network-wide loop freedom: in every reachable world, every route in any table, log or message
      has a path that visits no node twice, so is no longer than the network, and an auth hashed once
      per hop. */
  lemma {:induction false} LoopFreedom(hash: Bytes -> Bytes, start: World, steps: seq<Step>, r: Route)
    requires Initial(start) && Occurs(After(hash, start, steps), r)
    ensures NoDuplicates(r.path) && |r.path| <= |start.nodes|
    ensures r.auth == Iterated(hash, |r.path|, ZeroAuth())
  {
    RunKeepsSound(hash, Addresses(start), start, steps);
    OccursSound(hash, Addresses(start), After(hash, start, steps), r);
    AddressesBound(start.nodes, start.nodes.Keys);
    assert Addresses(start) == set i | i in start.nodes.Keys :: start.nodes[i].address;
    NoDuplicatesBound(r.path, Addresses(start));
  }

  /** No node keeps, or forwards along, a route that already leads through itself. */
  lemma {:induction false} NoRouteThroughOwner(hash: Bytes -> Bytes, start: World, steps: seq<Step>, i: nat,
      id: string, p: Text)
    requires Initial(start)
    ensures var w := After(hash, start, steps);
            i in w.nodes ==>
              var n := w.nodes[i];
              && (p in n.local.routes ==> n.address !in n.local.routes[p].route.path)
              && (id in n.incoming && p in n.incoming[id].routes ==> n.address !in n.incoming[id].routes[p].route.path)
  {
    RunKeepsSound(hash, Addresses(start), start, steps);
  }

  /** The candidates found in any map order: one per table that matches, under that table's account. */
  lemma {:induction false} CandidatesOf(incoming: map<string, Table>, order: seq<string>, prefix: Text)
    requires NoDuplicates(order) && forall id :: id in incoming ==> OwnedBy(id, incoming[id].routes)
    ensures var hops := Candidates(TablesIn(incoming, order), prefix);
            && DistinctAccounts(hops)
            && forall h :: h in hops <==>
                 var id := h.account.id;
                 id in order && id in incoming && PrefixMaps.Resolve(incoming[id].routes, prefix) == Some(h)
  {
    if order != [] {
      var front, last := order[..|order| - 1], order[|order| - 1];
      CandidatesOf(incoming, front, prefix);
      assert last !in front;
      assert forall id :: id in order <==> id in front || id == last;
      if last in incoming {
        var tables := TablesIn(incoming, front);
        assert (tables + [incoming[last]])[..|tables|] == tables;
        var found := PrefixMaps.Resolve(incoming[last].routes, prefix);
        assert found.Some? ==> found.value.account.id == last;
      }
    }
  }

  lemma {:induction false} BestOfAnyOrder(incoming: map<string, Table>, order: seq<string>, reordered: seq<string>,
      prefix: Text)
    requires forall id :: id in incoming ==> OwnedBy(id, incoming[id].routes)
    requires PrefixMaps.IterationOrder(incoming, order) && PrefixMaps.IterationOrder(incoming, reordered)
    ensures var hops := Candidates(TablesIn(incoming, order), prefix);
            var rehops := Candidates(TablesIn(incoming, reordered), prefix);
            if hops == [] then rehops == [] else rehops != [] && Best(hops) == Best(rehops)
  {
    CandidatesOf(incoming, order, prefix);
    CandidatesOf(incoming, reordered, prefix);
    var hops := Candidates(TablesIn(incoming, order), prefix);
    var rehops := Candidates(TablesIn(incoming, reordered), prefix);
    assert forall h :: h in hops <==> h in rehops;
    assert rehops == [] || rehops[0] in rehops;
    if hops != [] {
      BestAnyOrder(hops, rehops);
    }
  }

  /** In every reachable world the best route a node finds is the same whatever the map order. */
  lemma {:induction false} BestRouteAnyOrder(hash: Bytes -> Bytes, start: World, steps: seq<Step>, i: nat,
                          localRoutes: map<Text, Account>, configured: map<Text, Account>,
                          order: seq<string>, reordered: seq<string>, prefix: Text)
    requires Initial(start) && i in After(hash, start, steps).nodes
    requires var incoming := After(hash, start, steps).nodes[i].incoming;
             PrefixMaps.IterationOrder(incoming, order) && PrefixMaps.IterationOrder(incoming, reordered)
    ensures var incoming := After(hash, start, steps).nodes[i].incoming;
            BestRouteFor(localRoutes, configured, TablesIn(incoming, order), prefix) ==
            BestRouteFor(localRoutes, configured, TablesIn(incoming, reordered), prefix)
  {
    RunKeepsSound(hash, Addresses(start), start, steps);
    BestOfAnyOrder(After(hash, start, steps).nodes[i].incoming, order, reordered, prefix);
  }
}
