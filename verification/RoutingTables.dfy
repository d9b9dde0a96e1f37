/** The epoch-versioned routing table (`RoutingTable` in routing_table.rs). */
module RoutingTables {
  import opened Basics
  import opened CcpMessages
  import PrefixMaps

  datatype RoutingRelation = NonRoutingAccount | Parent | Peer | Child {
    /** The derived `Ord`: child > peer > parent > non-routing. */
    function Rank(): nat {
      match this
      case NonRoutingAccount => 0
      case Parent => 1
      case Peer => 2
      case Child => 3
    }
  }

  datatype Account = Account(id: string, relation: RoutingRelation, address: Text)

  datatype Hop = Hop(account: Account, route: Route)

  type Routes = map<Text, Hop>

  datatype Table = Table(id: Bytes, epoch: nat, routes: Routes)

  /** What adding `routes` one by one to an empty map leaves: the last route for a prefix wins. */
  function Inserted(account: Account, routes: seq<Route>): (m: Routes) {
    if routes == [] then map[]
    else
      var last := routes[|routes| - 1];
      Inserted(account, routes[..|routes| - 1])[last.prefix := Hop(account, last)]
  }

  lemma {:induction false} InsertedMeaning(account: Account, routes: seq<Route>)
    ensures forall r :: r in routes ==> r.prefix in Inserted(account, routes)
    ensures forall p :: p in Inserted(account, routes) ==>
              var hop := Inserted(account, routes)[p];
              hop.account == account && hop.route in routes && hop.route.prefix == p
  {
    if routes != [] {
      var front := routes[..|routes| - 1];
      InsertedMeaning(account, front);
      assert forall r :: r in routes <==> r in front || r == routes[|routes| - 1];
    }
  }

  lemma {:induction false} InsertedNext(account: Account, routes: seq<Route>, i: nat)
    requires i < |routes|
    ensures Inserted(account, routes[..i + 1]) ==
            Inserted(account, routes[..i])[routes[i].prefix := Hop(account, routes[i])]
  {
    assert routes[..i + 1][..i] == routes[..i];
  }

  function Without(m: Routes, prefixes: seq<Text>): (r: Routes) {
    m - set p | p in prefixes
  }

  /** Withdraw first, then add. */
  function Applied(m: Routes, account: Account, added: seq<Route>, withdrawn: seq<Text>): (r: Routes) {
    Without(m, withdrawn) + Inserted(account, added)
  }

  /** The epoch against which an update is checked: an unknown table id starts over at 0. */
  function KnownEpoch(t: Table, u: RouteUpdate): (e: nat) {
    if t.id != u.tableId then 0 else t.epoch
  }

  /** The table after `handle_update_request`. A new table id starts over at epoch 0, whatever the old epoch, but
      keeps the old routes. */
  function AfterUpdate(t: Table, account: Account, u: RouteUpdate): (r: Table)
    ensures r.id == u.tableId
    ensures t.id != u.tableId && u.fromEpoch > 0 ==> r.epoch == 0 && r.routes == t.routes
    ensures t.id != u.tableId && u.fromEpoch == 0 ==>
              r.epoch == u.toEpoch && r.routes == Applied(t.routes, account, u.newRoutes, u.withdrawnRoutes)
    ensures t.id == u.tableId && u.fromEpoch <= t.epoch <= u.toEpoch ==>
              r.epoch == u.toEpoch && r.routes == Applied(t.routes, account, u.newRoutes, u.withdrawnRoutes)
    ensures t.id == u.tableId && !(u.fromEpoch <= t.epoch <= u.toEpoch) ==> r == t
  {
    var epoch := KnownEpoch(t, u);
    if u.fromEpoch > epoch || u.toEpoch < epoch then Table(u.tableId, epoch, t.routes)
    else Table(u.tableId, u.toEpoch, Applied(t.routes, account, u.newRoutes, u.withdrawnRoutes))
  }

  datatype UpdateError = Gap(expected: nat, got: nat)

  class RoutingTable {
    var id: Bytes
    var epoch: nat
    var routes: Routes

    ghost function View(): (t: Table)
      reads this
    {
      Table(id, epoch, routes)
    }

    constructor (id: Bytes)
      ensures View() == Table(id, 0, map[])
    {
      this.id := id;
      epoch := 0;
      routes := map[];
    }

    method IncrementEpoch() returns (before: nat)
      modifies this`epoch
      ensures before == old(epoch) && epoch == before + 1
    {
      before := epoch;
      epoch := epoch + 1;
    }

    method SetRoute(prefix: Text, account: Account, route: Route)
      modifies this`routes
      ensures routes == old(routes)[prefix := Hop(account, route)]
    {
      routes := routes - {prefix};
      routes := routes[prefix := Hop(account, route)];
    }

    method DeleteRoute(prefix: Text) returns (existed: bool)
      modifies this`routes
      ensures existed <==> prefix in old(routes)
      ensures routes == old(routes) - {prefix}
    {
      existed := prefix in routes;
      routes := routes - {prefix};
    }

    method AddRoute(account: Account, route: Route) returns (isNew: bool)
      modifies this`routes
      ensures isNew <==> route.prefix !in old(routes)
      ensures routes == old(routes)[route.prefix := Hop(account, route)]
    {
      isNew := route.prefix !in routes;
      routes := routes[route.prefix := Hop(account, route)];
    }

    function GetRoute(prefix: Text): (r: Option<Hop>)
      reads this
    {
      PrefixMaps.Resolve(routes, prefix)
    }

    /** The withdrawal loop; reports the prefixes that were present. */
    method DeleteRoutes(prefixes: seq<Text>) returns (changed: seq<Text>)
      modifies this`routes
      ensures routes == Without(old(routes), prefixes)
      ensures forall p :: p in changed <==> p in prefixes && p in old(routes)
    {
      changed := [];
      for i := 0 to |prefixes|
        invariant routes == Without(old(routes), prefixes[..i])
        invariant forall p :: p in changed <==> p in prefixes[..i] && p in old(routes)
      {
        var existed := DeleteRoute(prefixes[i]);
        if existed {
          changed := changed + [prefixes[i]];
        }
      }
      assert prefixes[..|prefixes|] == prefixes;
    }

    /** The addition loop; reports the prefixes that were absent. */
    method AddRoutes(account: Account, added: seq<Route>) returns (changed: seq<Text>)
      modifies this`routes
      ensures routes == old(routes) + Inserted(account, added)
      ensures forall p :: p in changed <==> p in Inserted(account, added) && p !in old(routes)
    {
      changed := [];
      ghost var before := routes;
      for i := 0 to |added|
        invariant routes == before + Inserted(account, added[..i])
        invariant forall p :: p in changed <==> p in routes && p !in before
      {
        InsertedNext(account, added, i);
        var isNew := AddRoute(account, added[i]);
        if isNew {
          changed := changed + [added[i].prefix];
        }
      }
      assert added[..|added|] == added;
    }

    /** Apply an update from the peer this table represents. A prefix is reported as changed exactly
        when it was withdrawn here or added here while absent; replacing a present route is silent. */
    method HandleUpdateRequest(account: Account, u: RouteUpdate) returns (r: Result<seq<Text>, UpdateError>)
      modifies this
      ensures View() == AfterUpdate(old(View()), account, u)
      ensures var known := if old(id) == u.tableId then old(epoch) else 0;
              && (r.Err? <==> u.fromEpoch > known)
              && (r.Err? ==> r.error == Gap(known, u.fromEpoch))
              && (u.fromEpoch <= known && u.toEpoch < known ==> r == Ok([]))
              && (u.fromEpoch <= known <= u.toEpoch ==>
                    forall p :: p in r.value <==>
                      || (p in u.withdrawnRoutes && p in old(routes))
                      || (p in Inserted(account, u.newRoutes) && (p !in old(routes) || p in u.withdrawnRoutes)))
    {
      if id != u.tableId {
        id := u.tableId;
        epoch := 0;
      }
      if u.fromEpoch > epoch {
        return Err(Gap(epoch, u.fromEpoch));
      }
      if u.toEpoch < epoch {
        return Ok([]);
      }
      epoch := u.toEpoch;
      var deleted := DeleteRoutes(u.withdrawnRoutes);
      var added := AddRoutes(account, u.newRoutes);
      r := Ok(deleted + added);
    }
  }

  /** `get_simplified_table`: what the router sees of a routing table. */
  function Simplified(routes: Routes): (m: map<Text, Account>) {
    map p | p in routes :: routes[p].account
  }

  /** Lookups commute with simplification. */
  lemma {:induction false} ResolveSimplified(routes: Routes, dest: Text)
    ensures var hop := PrefixMaps.Resolve(routes, dest);
            PrefixMaps.Resolve(Simplified(routes), dest) == if hop.Some? then Some(hop.value.account) else None
  {
    if PrefixMaps.Resolve(routes, dest).Some? {
      var k :| PrefixMaps.IsLongestMatch(routes, dest, k) && PrefixMaps.Resolve(routes, dest).value == routes[k];
      assert PrefixMaps.IsLongestMatch(Simplified(routes), dest, k);
      PrefixMaps.ResolveIs(Simplified(routes), dest, k);
    }
  }

  /** The router, scanning a simplified table in any order, picks the account of the table's own route. */
  method RouterNextHop(routes: Routes, order: seq<Text>, dest: Text) returns (nextHop: Option<Account>)
    requires PrefixMaps.IterationOrder(Simplified(routes), order)
    ensures var hop := PrefixMaps.Resolve(routes, dest);
            nextHop == if hop.Some? then Some(hop.value.account) else None
  {
    ResolveSimplified(routes, dest);
    nextHop := PrefixMaps.NextHop(Simplified(routes), order, dest);
  }
}
