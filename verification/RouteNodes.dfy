/** A node's route manager (`CcpRouteManager`): what it stores and what each operation does to it. */
module RouteNodes {
  import opened Basics
  import opened CcpMessages
  import opened RoutingTables
  import opened RouteLog
  import opened Replication
  import opened BestRoute
  import PrefixMaps

  datatype Node = Node(address: Text, forwarding: Table, local: Table, log: seq<Entry>, incoming: map<string, Table>)

  function Scheme(address: Text): (s: Text) {
    Split(address)[0]
  }

  /** The routes `filter_routes` retains at a node with this address. */
  predicate Acceptable(address: Text, r: Route) {
    && StartsWith(r.prefix, Scheme(address))
    && |r.prefix| > |Scheme(address)| + 1
    && !StartsWith(r.prefix, address)
    && address !in r.path
  }

  lemma {:induction false} SegmentsHaveNoDot(s: Text)
    ensures forall segment :: segment in Split(s) ==> DOT !in segment
  {
    if s != [] {
      SegmentsHaveNoDot(s[..|s| - 1]);
    }
  }

  /** The scheme is what comes before the first dot. */
  lemma {:induction false} SchemeMeaning(address: Text)
    ensures DOT !in Scheme(address) && (address == Scheme(address) || StartsWith(address, Scheme(address) + [DOT]))
  {
    var segments := Split(address);
    SegmentsHaveNoDot(address);
    assert segments[0] in segments;
    if |segments| > 1 {
      JoinIsAncestor(address, 1);
      assert segments[..1] == [segments[0]];
    } else {
      JoinSplit(address);
    }
  }

  function FilterRoutes(address: Text, u: RouteUpdate): (f: RouteUpdate) {
    u.(newRoutes := Filter(r => Acceptable(address, r), u.newRoutes))
  }

  /** Receiving an update from an account the node takes routes from. */
  function Received(n: Node, from: Account, u: RouteUpdate): (n': Node) {
    var table := if from.id in n.incoming then n.incoming[from.id] else Table(u.tableId, 0, map[]);
    n.(incoming := n.incoming[from.id := AfterUpdate(table, from, FilterRoutes(n.address, u))])
  }

  /** The update has a route for p that this node may use: p is a longer prefix in the node's allocation scheme,
      not under its own address, and the path does not lead through the node. */
  ghost predicate Offered(address: Text, u: RouteUpdate, p: Text) {
    && StartsWith(p, Scheme(address)) && |p| > |Scheme(address)| + 1 && !StartsWith(p, address)
    && exists r :: r in u.newRoutes && r.prefix == p && address !in r.path
  }

  /** Exactly which prefixes a node holds from an account after an update that it accepts: those that it held and
      that were not withdrawn, and those that it was offered a usable route for. */
  lemma {:induction false} HoldsOffered(n: Node, from: Account, u: RouteUpdate, p: Text)
    requires if from.id in n.incoming && n.incoming[from.id].id == u.tableId
             then u.fromEpoch <= n.incoming[from.id].epoch <= u.toEpoch else u.fromEpoch == 0
    ensures var before := if from.id in n.incoming then n.incoming[from.id].routes else map[];
            p in Received(n, from, u).incoming[from.id].routes <==>
            (p in before && p !in u.withdrawnRoutes) || Offered(n.address, u, p)
  {
    var kept := FilterRoutes(n.address, u).newRoutes;
    FilterMeaning(r => Acceptable(n.address, r), u.newRoutes);
    InsertedMeaning(from, kept);
    if Offered(n.address, u, p) {
      var r :| r in u.newRoutes && r.prefix == p && n.address !in r.path;
      assert r in kept;
    }
  }

  lemma {:induction false} MergeReadded(p: Text, r: Route)
    requires r.prefix == p
    ensures MergeLog(NOTHING, [Entry([], [p]), Entry([r], [])]) == Entry([r], [])
  {
    var log := [Entry([], [p]), Entry([r], [])];
    assert log[..1] == [log[0]] && log[..1][..0] == [];
    assert [p][..0] == [] && [r][..0] == [];
    assert MergeWithdraws(NOTHING, [p]) == Entry([], [p]);
    assert Filter(q => q != r.prefix, [p]) == [];
    assert MergeAdds(Entry([], [p]), [r]) == MergeAdd(Entry([], [p]), r);
    assert log[1].withdrawn == [];
    assert MergeLog(NOTHING, log) == MergeAdds(MergeLog(NOTHING, log[..1]), [r]);
  }

  /** `filter_routes` does not commute with compaction. A node holds an acceptable route; the speaker
      withdraws it and announces it again along a path from itself through that node. Epoch by epoch the
      route goes away, but the merged update leaves it in place. */
  lemma {:induction false} FilterCanStrandRoute(node: Text, speaker: Text, account: Account, held: Route)
    requires Acceptable(node, held)
    ensures var keep := r => Acceptable(node, r);
            var looped := held.(path := [speaker, node]);
            var log := [Entry([], [held.prefix]), Entry([looped], [])];
            var before := map[held.prefix := Hop(account, held)];
            && AppliedEntry(before, account, Filtered(keep, MergeLog(NOTHING, log))) == before
            && ReplayLog(before, account, FilteredLog(keep, log)) == map[]
  {
    var keep := r => Acceptable(node, r);
    var looped := held.(path := [speaker, node]);
    var log := [Entry([], [held.prefix]), Entry([looped], [])];
    MergeReadded(held.prefix, looped);
    assert Filter(keep, [looped]) == [];
    var filtered := FilteredLog(keep, log);
    assert filtered == [Entry([], [held.prefix]), Entry([], [])] && filtered[..1] == [filtered[0]];
    assert filtered[..1][..0] == [];
    var before := map[held.prefix := Hop(account, held)];
    assert ReplayLog(before, account, filtered[..1]) == Replayed(before, account, filtered[0]) == map[];
  }

  // ---- Recomputing best routes: planned under read locks, committed under write locks ----

  datatype Change = Change(prefix: Text, hop: Hop)

  datatype Plan = Plan(better: seq<Change>, withdrawn: seq<Text>)

  function TablesIn(incoming: map<string, Table>, order: seq<string>): (ts: seq<Table>) {
    if order == [] then []
    else
      var front := TablesIn(incoming, order[..|order| - 1]);
      if order[|order| - 1] in incoming then front + [incoming[order[|order| - 1]]] else front
  }

  function PlannedFor(n: Node, localRoutes: map<Text, Account>, configured: map<Text, Account>, order: seq<string>,
                      plan: Plan, prefix: Text): (p: Plan)
  {
    match BestRouteFor(localRoutes, configured, TablesIn(n.incoming, order), prefix)
    case None => plan.(withdrawn := plan.withdrawn + [prefix])
    case Some(best) =>
      var current := PrefixMaps.Resolve(n.local.routes, prefix);
      if current.Some? && current.value.account.id == best.account.id then plan
      else plan.(better := plan.better + [Change(prefix, best)])
  }

  function Planned(n: Node, localRoutes: map<Text, Account>, configured: map<Text, Account>, order: seq<string>,
                   prefixes: seq<Text>): (p: Plan)
  {
    if prefixes == [] then Plan([], [])
    else
      PlannedFor(n, localRoutes, configured, order,
                 Planned(n, localRoutes, configured, order, prefixes[..|prefixes| - 1]), prefixes[|prefixes| - 1])
  }

  /** Whether a new best route is passed on to peers: it is in the node's own allocation scheme but not
      all of it, not one of the node's local accounts, and not withdrawn by the same plan. */
  predicate Advertised(address: Text, withdrawn: seq<Text>, c: Change) {
    var route := c.hop.route;
    && StartsWith(route.prefix, Scheme(address)) && route.prefix != Scheme(address)
    && (route.prefix == address || !(StartsWith(route.prefix, address) && route.path == []))
    && c.prefix !in withdrawn
  }

  /** The advertised form of a route: this node in front of the path, and the auth hashed once more. */
  function Forwarded(address: Text, hash: Bytes -> Bytes, r: Route): (f: Route) {
    r.(path := [address] + r.path, auth := hash(r.auth))
  }

  datatype Staged = Staged(local: Routes, forwarding: Routes, announced: seq<Route>)

  function StagedOne(address: Text, hash: Bytes -> Bytes, withdrawn: seq<Text>, s: Staged, c: Change): (s': Staged) {
    var local := s.local[c.prefix := c.hop];
    var known := PrefixMaps.Resolve(s.forwarding, c.prefix);
    if Advertised(address, withdrawn, c) && (known.None? || known.value.account.id != c.hop.account.id) then
      var route := Forwarded(address, hash, c.hop.route);
      Staged(local, s.forwarding[c.prefix := Hop(c.hop.account, route)], s.announced + [route])
    else s.(local := local)
  }

  function StagedAll(address: Text, hash: Bytes -> Bytes, withdrawn: seq<Text>, s: Staged, better: seq<Change>)
    : (s': Staged)
  {
    if better == [] then s
    else
      StagedOne(address, hash, withdrawn, StagedAll(address, hash, withdrawn, s, better[..|better| - 1]),
                better[|better| - 1])
  }

  function Committed(n: Node, hash: Bytes -> Bytes, plan: Plan): (n': Node) {
    if plan.better == [] && plan.withdrawn == [] then n
    else
      var s := StagedAll(n.address, hash, plan.withdrawn, Staged(n.local.routes, n.forwarding.routes, []), plan.better);
      n.(local := n.local.(routes := Without(s.local, plan.withdrawn)),
         forwarding := n.forwarding.(routes := Without(s.forwarding, plan.withdrawn), epoch := n.forwarding.epoch + 1),
         log := n.log + [Entry(s.announced, plan.withdrawn)])
  }

  /** The update a node sends for an epoch range of its log. */
  function SentBy(n: Node, from: nat, to: nat): (u: RouteUpdate) {
    UpdateMessage(n.forwarding.id, n.forwarding.epoch, n.address, n.log, from, to)
  }

  lemma {:induction false} OneTableChanged(before: map<string, Table>, after: map<string, Table>, id: string)
    requires id in before && after.Keys == before.Keys
    requires forall k :: k in after && k != id ==> after[k] == before[k]
    ensures after == before[id := after[id]]
  {
  }

  class RouteManager {
    const address: Text
    const hash: Bytes -> Bytes
    const local: RoutingTable
    const forwarding: RoutingTable
    var log: seq<Entry>
    var incoming: map<string, RoutingTable>

    ghost function Tables(): (ts: set<RoutingTable>)
      reads this
    {
      {local, forwarding} + set k | k in incoming :: incoming[k]
    }

    /** The tables are separate objects, and each epoch has its log entry. */
    ghost predicate Valid()
      reads this, Tables()
    {
      && local != forwarding
      && (forall k :: k in incoming ==> incoming[k] != local && incoming[k] != forwarding)
      && (forall k, k' :: k in incoming && k' in incoming && k != k' ==> incoming[k] != incoming[k'])
      && forwarding.epoch == |log|
    }

    ghost function IncomingView(): (m: map<string, Table>)
      reads this`incoming, set k | k in incoming :: incoming[k]
    {
      map k | k in incoming :: incoming[k].View()
    }

    ghost function View(): (n: Node)
      reads this, Tables()
    {
      Node(address, forwarding.View(), local.View(), log, IncomingView())
    }

    constructor (address: Text, hash: Bytes -> Bytes, localId: Bytes, forwardingId: Bytes)
      ensures Valid() && fresh(Tables()) && this.hash == hash
      ensures View() == Node(address, Table(forwardingId, 0, map[]), Table(localId, 0, map[]), [], map[])
    {
      this.address := address;
      this.hash := hash;
      this.local := new RoutingTable(localId);
      this.forwarding := new RoutingTable(forwardingId);
      this.log := [];
      this.incoming := map[];
    }

    /** Merge the epochs of a range into one update. */
    method CreateRouteUpdate(from: nat, to: nat) returns (u: RouteUpdate)
      requires Valid()
      ensures u == SentBy(View(), from, to)
    {
      var epochs := log[Min(from, |log|)..Min(Max(from, to), |log|)];
      var added: seq<Route>, withdrawn: seq<Text> := [], [];
      if from == 0 {
        added := [OwnRoute(address)];
      }
      ghost var own := Entry(added, withdrawn);
      for i := 0 to |epochs|
        invariant Entry(added, withdrawn) == MergeLog(own, epochs[..i])
      {
        ghost var before := Entry(added, withdrawn);
        for j := 0 to |epochs[i].added|
          invariant Entry(added, withdrawn) == MergeAdds(before, epochs[i].added[..j])
        {
          var route := epochs[i].added[j];
          assert epochs[i].added[..j + 1][..j] == epochs[i].added[..j];
          added := added + [route];
          withdrawn := Filter(p => p != route.prefix, withdrawn);
        }
        assert epochs[i].added[..|epochs[i].added|] == epochs[i].added;
        ghost var mid := Entry(added, withdrawn);
        for j := 0 to |epochs[i].withdrawn|
          invariant Entry(added, withdrawn) == MergeWithdraws(mid, epochs[i].withdrawn[..j])
        {
          var prefix := epochs[i].withdrawn[j];
          assert epochs[i].withdrawn[..j + 1][..j] == epochs[i].withdrawn[..j];
          withdrawn := withdrawn + [prefix];
          added := Filter((r: Route) => r.prefix != prefix, added);
        }
        assert epochs[i].withdrawn[..|epochs[i].withdrawn|] == epochs[i].withdrawn;
        assert epochs[..i + 1][..i] == epochs[..i];
      }
      assert epochs[..|epochs|] == epochs;
      u := RouteUpdate(forwarding.id, forwarding.epoch, from, to, DEFAULT_ROUTE_EXPIRY_TIME, address, added, withdrawn);
    }

    /** Give an account a table if it has none. */
    method OpenTable(id: string, tableId: Bytes)
      requires Valid()
      modifies this`incoming
      ensures Valid() && id in incoming
      ensures if id in old(incoming) then incoming == old(incoming)
              else fresh(incoming[id]) && incoming == old(incoming)[id := incoming[id]]
      ensures IncomingView() ==
              if id in old(incoming) then old(IncomingView()) else old(IncomingView())[id := Table(tableId, 0, map[])]
    {
      if id !in incoming {
        var table := new RoutingTable(tableId);
        ghost var before := IncomingView();
        incoming := incoming[id := table];
        assert forall k :: k in before ==> incoming[k].View() == before[k];
        assert IncomingView() == before[id := Table(tableId, 0, map[])];
      }
    }

    method ApplyUpdate(from: Account, u: RouteUpdate) returns (r: Result<seq<Text>, UpdateError>)
      requires Valid() && from.id in incoming
      modifies incoming[from.id]
      ensures Valid()
      ensures IncomingView() == old(IncomingView())[from.id := AfterUpdate(old(IncomingView())[from.id], from, u)]
      ensures r.Err? <==>
              u.fromEpoch > if old(incoming[from.id].id) == u.tableId then old(incoming[from.id].epoch) else 0
    {
      var table := incoming[from.id];
      ghost var before := IncomingView();
      r := table.HandleUpdateRequest(from, u);
      assert forall k :: k in incoming && k != from.id ==> incoming[k].View() == before[k];
      OneTableChanged(before, IncomingView(), from.id);
    }

    /** Filter an update and apply it to the table kept for that account. */
    method HandleRouteUpdate(from: Account, u: RouteUpdate) returns (r: Result<seq<Text>, UpdateError>)
      requires Valid()
      modifies this`incoming, if from.id in incoming then {incoming[from.id]} else {}
      ensures Valid()
      ensures from.id in incoming
      ensures if from.id in old(incoming) then incoming == old(incoming)
              else fresh(incoming[from.id]) && incoming == old(incoming)[from.id := incoming[from.id]]
      ensures View() == Received(old(View()), from, u)
      ensures var t := if from.id in old(incoming) then old(IncomingView())[from.id] else Table(u.tableId, 0, map[]);
              r.Err? <==> u.fromEpoch > if t.id == u.tableId then t.epoch else 0
    {
      OpenTable(from.id, u.tableId);
      ghost var ready := IncomingView();
      r := ApplyUpdate(from, FilterRoutes(address, u));
      assert IncomingView() == ready[from.id := AfterUpdate(ready[from.id], from, FilterRoutes(address, u))];
    }

    /** The incoming tables in the order in which the map happens to be visited. */
    method VisitTables(order: seq<string>) returns (tables: seq<Table>)
      ensures tables == TablesIn(IncomingView(), order)
    {
      tables := [];
      for i := 0 to |order|
        invariant tables == TablesIn(IncomingView(), order[..i])
      {
        assert order[..i + 1][..i] == order[..i];
        if order[i] in incoming {
          var t := incoming[order[i]];
          tables := tables + [Table(t.id, t.epoch, t.routes)];
        }
      }
      assert order[..|order|] == order;
    }

    /** The first half of `update_best_routes`: which of these prefixes have a different best route now. */
    method PlanBestRoutes(localRoutes: map<Text, Account>, configured: map<Text, Account>, order: seq<string>,
                          prefixes: seq<Text>)
      returns (plan: Plan)
      requires Valid()
      ensures plan == Planned(View(), localRoutes, configured, order, prefixes)
    {
      ghost var n := View();
      var tables := VisitTables(order);
      plan := Plan([], []);
      for i := 0 to |prefixes|
        invariant plan == Planned(n, localRoutes, configured, order, prefixes[..i])
      {
        assert prefixes[..i + 1][..i] == prefixes[..i];
        assert PlannedFor(n, localRoutes, configured, order, plan, prefixes[i])
            == Planned(n, localRoutes, configured, order, prefixes[..i + 1]);
        var best := GetBestRouteForPrefix(localRoutes, configured, tables, prefixes[i]);
        if best.Some? {
          var current := local.GetRoute(prefixes[i]);
          if current.None? || current.value.account.id != best.value.account.id {
            plan := plan.(better := plan.better + [Change(prefixes[i], best.value)]);
          }
        } else {
          plan := plan.(withdrawn := plan.withdrawn + [prefixes[i]]);
        }
      }
      assert prefixes[..|prefixes|] == prefixes;
    }

    /** Write the better routes to both tables; returns the routes to announce. */
    method StageBetterRoutes(plan: Plan) returns (announced: seq<Route>)
      requires local != forwarding
      modifies local`routes, forwarding`routes
      ensures Staged(local.routes, forwarding.routes, announced) ==
              StagedAll(address, hash, plan.withdrawn, Staged(old(local.routes), old(forwarding.routes), []),
                plan.better)
    {
      announced := [];
      ghost var start := Staged(local.routes, forwarding.routes, []);
      for i := 0 to |plan.better|
        invariant Staged(local.routes, forwarding.routes, announced)
               == StagedAll(address, hash, plan.withdrawn, start, plan.better[..i])
      {
        var c := plan.better[i];
        assert plan.better[..i + 1][..i] == plan.better[..i];
        local.SetRoute(c.prefix, c.hop.account, c.hop.route);
        if Advertised(address, plan.withdrawn, c) {
          var known := forwarding.GetRoute(c.prefix);
          if known.None? || known.value.account.id != c.hop.account.id {
            var route := Forwarded(address, hash, c.hop.route);
            forwarding.SetRoute(c.prefix, c.hop.account, route);
            announced := announced + [route];
          }
        }
      }
      assert plan.better[..|plan.better|] == plan.better;
    }

    /** The second half: write the plan to both tables and append one epoch to the log. */
    method CommitBestRoutes(plan: Plan)
      requires Valid()
      modifies this`log, local, forwarding
      ensures Valid() && incoming == old(incoming)
      ensures View() == Committed(old(View()), hash, plan)
    {
      if plan.better == [] && plan.withdrawn == [] {
        return;
      }
      var announced := StageBetterRoutes(plan);
      var _ := local.DeleteRoutes(plan.withdrawn);
      var _ := forwarding.DeleteRoutes(plan.withdrawn);
      var _ := forwarding.IncrementEpoch();
      log := log + [Entry(announced, plan.withdrawn)];
      assert IncomingView() == old(IncomingView());
    }
  }
}
