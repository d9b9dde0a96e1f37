/** The log that a node sends to its peers against the forwarding table that it describes. */
module ForwardingLog {
  import opened Basics
  import opened CcpMessages
  import opened RoutingTables
  import opened RouteLog
  import opened Replication
  import opened BestRoute
  import opened RouteNodes
  import opened Staging

  function RouteAt(m: Routes, p: Text): (r: Option<Route>) {
    if p in m then Some(m[p].route) else None
  }

  /** What an effect leaves of a route. */
  function Left(e: Effect, before: Option<Route>): (after: Option<Route>) {
    match e
    case Silent => before
    case Removed => None
    case Announced(route) => Some(route)
  }

  /** Replaying the log gives the routes of the forwarding table, prefix by prefix. */
  ghost predicate Mirrors(n: Node) {
    forall p :: RouteAt(n.forwarding.routes, p) == Left(LogEffect(n.log, p), None)
  }

  /** Every change that is passed on is to a route for the very prefix that it is filed under. */
  ghost predicate Exact(n: Node, hash: Bytes -> Bytes, plan: Plan) {
    forall i :: 0 <= i < |plan.better| && PassedOn(n, hash, plan, i) ==>
      plan.better[i].hop.route.prefix == plan.better[i].prefix
  }

  lemma {:induction false} AdditionsAppended(rs: seq<Route>, r: Route, p: Text)
    ensures Additions(rs + [r], p) == if r.prefix == p then Announced(r) else Additions(rs, p)
  {
    assert (rs + [r])[..|rs|] == rs;
  }

  lemma {:induction false} StepMirrors(n: Node, hash: Bytes -> Bytes, withdrawn: seq<Text>, s: Staged, c: Change,
                                       p: Text, before: Option<Route>)
    requires RouteAt(s.forwarding, p) == Left(Additions(s.announced, p), before)
    requires var s' := StagedOne(n.address, hash, withdrawn, s, c);
             s'.announced == s.announced || c.hop.route.prefix == c.prefix
    ensures var s' := StagedOne(n.address, hash, withdrawn, s, c);
            RouteAt(s'.forwarding, p) == Left(Additions(s'.announced, p), before)
  {
    var s', route := StagedOne(n.address, hash, withdrawn, s, c), Forwarded(n.address, hash, c.hop.route);
    if |s'.announced| == |s.announced| {
      assert s'.forwarding == s.forwarding && s'.announced == s.announced;
    } else {
      assert s'.announced == s.announced + [route];
      assert s'.forwarding == s.forwarding[c.prefix := Hop(c.hop.account, route)];
      AdditionsAppended(s.announced, route, p);
    }
  }

  /** Staging announces exactly what it writes to the forwarding table. */
  lemma {:induction false} StagedMirrors(n: Node, hash: Bytes -> Bytes, plan: Plan, k: nat, p: Text)
    requires Exact(n, hash, plan) && k <= |plan.better|
    ensures var s := StagedTo(n, hash, plan, k);
            RouteAt(s.forwarding, p) == Left(Additions(s.announced, p), RouteAt(n.forwarding.routes, p))
  {
    if k > 0 {
      var s, c := StagedTo(n, hash, plan, k - 1), plan.better[k - 1];
      StagedMirrors(n, hash, plan, k - 1, p);
      StagedNext(n, hash, plan, k - 1);
      StepMirrors(n, hash, plan.withdrawn, s, c, p, RouteAt(n.forwarding.routes, p));
    }
  }

  lemma {:induction false} ExactMirrors(n: Node, hash: Bytes -> Bytes, plan: Plan)
    requires Mirrors(n) && Exact(n, hash, plan)
    ensures Mirrors(Committed(n, hash, plan))
  {
    var n', all := Committed(n, hash, plan), |plan.better|;
    var s := StagedTo(n, hash, plan, all);
    assert plan.better[..all] == plan.better;
    forall p ensures RouteAt(n'.forwarding.routes, p) == Left(LogEffect(n'.log, p), None) {
      StagedMirrors(n, hash, plan, all, p);
      WithoutAt(s.forwarding, plan.withdrawn, p);
      assert (n.log + [Entry(s.announced, plan.withdrawn)])[..|n.log|] == n.log;
    }
  }

  /** What the log leaves at a prefix is a route for that prefix, announced in it. */
  lemma {:induction false} LogFilesByPrefix(log: seq<Entry>, p: Text)
    ensures var e := LogEffect(log, p); e.Announced? ==> e.route.prefix == p && AnnouncedIn(log, e.route)
  {
    if log != [] {
      var front, e := log[..|log| - 1], LogEffect(log, p);
      LogFilesByPrefix(front, p);
      if EpochEffect(log[|log| - 1], p).Announced? {
        assert e.route in log[|log| - 1].added;
      } else if e.Announced? {
        var i :| 0 <= i < |front| && e.route in front[i].added;
        assert e.route in log[i].added;
      }
    }
  }

  /** A change passed on under another prefix than its route's is still in the table after the commit. */
  lemma {:induction false} MisfiledStays(n: Node, hash: Bytes -> Bytes, plan: Plan, i: nat)
    requires Alike(plan) && i < |plan.better| && PassedOn(n, hash, plan, i)
    ensures var c := plan.better[i];
            RouteAt(Committed(n, hash, plan).forwarding.routes, c.prefix) ==
            Some(Forwarded(n.address, hash, c.hop.route))
  {
    var c := plan.better[i];
    assert c in plan.better;
    WrittenAt(n, hash, plan, |plan.better|, i);
    CommittedAt(n, hash, plan, c.prefix, c.hop);
  }

  /** Log and table stay alike in a commit, if and only if each change that is passed on is to a route
      for the prefix that it is filed under. */
  lemma {:induction false} CommitMirrorsIffExact(n: Node, hash: Bytes -> Bytes, plan: Plan)
    requires Mirrors(n) && Alike(plan)
    ensures Mirrors(Committed(n, hash, plan)) <==> Exact(n, hash, plan)
  {
    if Exact(n, hash, plan) {
      ExactMirrors(n, hash, plan);
    } else {
      var i :| 0 <= i < |plan.better| && PassedOn(n, hash, plan, i) &&
               plan.better[i].hop.route.prefix != plan.better[i].prefix;
      MisfiledStays(n, hash, plan, i);
      LogFilesByPrefix(Committed(n, hash, plan).log, plan.better[i].prefix);
    }
  }

  /** For every plan that the code makes, of this or an earlier state of any node. */
  lemma {:induction false} PlanMirrorsIffExact(n: Node, hash: Bytes -> Bytes, planned: Node, x: Inputs,
      prefixes: seq<Text>)
    requires Mirrors(n)
    ensures var plan := PlanOf(planned, x, prefixes);
            Mirrors(Committed(n, hash, plan)) <==> Exact(n, hash, plan)
  {
    PlanIsAlike(planned, x, prefixes);
    CommitMirrorsIffExact(n, hash, PlanOf(planned, x, prefixes));
  }

  // ---- Over any number of recomputations ----

  function CommittedAll(n: Node, hash: Bytes -> Bytes, plans: seq<Plan>): (n': Node) {
    if plans == [] then n else Committed(CommittedAll(n, hash, plans[..|plans| - 1]), hash, plans[|plans| - 1])
  }

  /** Log and table are alike now, and were after each earlier commit. */
  ghost predicate AlwaysMirrors(n: Node, hash: Bytes -> Bytes, plans: seq<Plan>) {
    Mirrors(CommittedAll(n, hash, plans)) && (plans != [] ==> AlwaysMirrors(n, hash, plans[..|plans| - 1]))
  }

  /** Each commit passed on only routes filed under their own prefix. */
  ghost predicate AlwaysExact(n: Node, hash: Bytes -> Bytes, plans: seq<Plan>) {
    plans != [] ==>
      && Exact(CommittedAll(n, hash, plans[..|plans| - 1]), hash, plans[|plans| - 1])
      && AlwaysExact(n, hash, plans[..|plans| - 1])
  }

  /** The log describes the forwarding table after each of any number of recomputations, if and only if
      every route that they pass on is filed under its own prefix. */
  lemma {:induction false} LogDescribesTable(n: Node, hash: Bytes -> Bytes, plans: seq<Plan>)
    requires Mirrors(n) && forall plan :: plan in plans ==> Alike(plan)
    ensures AlwaysMirrors(n, hash, plans) <==> AlwaysExact(n, hash, plans)
  {
    if plans != [] {
      var front, last := plans[..|plans| - 1], plans[|plans| - 1];
      LogDescribesTable(n, hash, front);
      if AlwaysMirrors(n, hash, front) {
        CommitMirrorsIffExact(CommittedAll(n, hash, front), hash, last);
      }
    }
  }

  // ---- An input on which they part ----

  lemma {:induction false} OneRoute(r: Route, p: Text)
    ensures Additions([r], p) == if r.prefix == p then Announced(r) else Silent
  {
    AdditionsAppended([], r, p);
    assert [] + [r] == [r];
  }

  /** A prefix is configured to an account whose address is another one, in the node's allocation scheme.
      The node that recomputes it files the route under the prefix, but announces it under the address. */
  lemma {:induction false} ConfiguredElsewhereParts(n: Node, hash: Bytes -> Bytes, order: seq<string>, k: Text,
      account: Account)
    requires Mirrors(n) && n.forwarding.routes == map[] && n.local.routes == map[]
    requires account.address != k && !StartsWith(account.address, n.address)
    requires StartsWith(account.address, Scheme(n.address)) && account.address != Scheme(n.address)
    ensures var n' := Committed(n, hash, PlanOf(n, Inputs(map[], map[k := account], order), [k]));
            && !Mirrors(n')
            && k in n'.forwarding.routes && LogEffect(n'.log, k) == LogEffect(n.log, k)
            && account.address !in n'.forwarding.routes && LogEffect(n'.log, account.address).Announced?
  {
    var x, c := Inputs(map[], map[k := account], order), Change(k, LocalHop(account));
    var route := Forwarded(n.address, hash, c.hop.route);
    ConfiguredBest(n, x, k);
    PlanForOne(n, x, k);
    assert Plan([c], []).better[..0] == [] && PassedOn(n, hash, Plan([c], []), 0);
    OneChange(n, hash, c);
    OneRoute(route, k);
    OneRoute(route, account.address);
    assert (n.log + [Entry([route], [])])[..|n.log|] == n.log;
    LogFilesByPrefix(n.log, k);
    assert RouteAt(ToldOf(n, hash, c).forwarding.routes, k) != Left(LogEffect(n.log, k), None);
  }

  // ---- What a filtering replica holds ----

  /** The speaker's current route at a prefix, with its own address as the head of its log. */
  function Current(address: Text, log: seq<Entry>, p: Text): (r: Option<Route>) {
    Left(LogEffect(Full(address, log), p), None)
  }

  lemma {:induction false} KeptIsAccepted(keep: Route -> bool, rs: seq<Route>, p: Text)
    ensures var e := Additions(Filter(keep, rs), p); e.Announced? ==> keep(e.route)
  {
    FilterMeaning(keep, rs);
  }

  /** Filtering keeps the last route for a prefix exactly when it accepts it. */
  lemma {:induction false} KeptLast(keep: Route -> bool, rs: seq<Route>, p: Text)
    ensures var last, kept := Additions(rs, p), Additions(Filter(keep, rs), p);
            && (last.Silent? ==> kept.Silent?)
            && (last.Announced? ==> (keep(last.route) <==> kept == last))
  {
    if rs != [] {
      var front, r := rs[..|rs| - 1], rs[|rs| - 1];
      KeptLast(keep, front, p);
      if keep(r) {
        assert Filter(keep, rs) == Filter(keep, front) + [r];
        AdditionsAppended(Filter(keep, front), r, p);
      } else {
        assert Filter(keep, rs) == Filter(keep, front);
        KeptIsAccepted(keep, front, p);
      }
    }
  }

  /** A replica in sync holds the speaker's current route at a prefix, if and only if there is none or its
      filter accepts that route; else it may be left with an older one. */
  lemma {:induction false} HoldsCurrentIffAccepted(keep: Route -> bool, account: Account, address: Text,
      log: seq<Entry>, p: Text)
    ensures var held := RouteAt(Snapshot(map[], keep, account, address, log, |log|), p);
            var current := Current(address, log, p);
            held == current <==> current.None? || keep(current.value)
  {
    var full := Full(address, log);
    var merged := MergeLog(NOTHING, full);
    assert full[..|log| + 1] == full;
    ReplayAt(map[], account, FilteredLog(keep, full), p);
    FilteredEffect(keep, full, p);
    MergedAt(NOTHING, full, p);
    MergedDisjoint(NOTHING, full);
    KeptLast(keep, merged.added, p);
  }

  /** A filtering replica that has caught up holds the route of the forwarding table, if and only if its
      filter accepts that route, at every prefix other than the speaker's own address. */
  lemma {:induction false} ReplicaHoldsTable(n: Node, keep: Route -> bool, account: Account, p: Text)
    requires Mirrors(n) && p != n.address
    ensures var table := RouteAt(n.forwarding.routes, p);
            RouteAt(Snapshot(map[], keep, account, n.address, n.log, |n.log|), p) == table <==>
            table.None? || keep(table.value)
  {
    var own := [Entry([OwnRoute(n.address)], [])];
    LogEffectConcat(own, n.log, p);
    assert own[0].added[..0] == [] && own[..0] == [];
    assert LogEffect(own, p) == Silent;
    HoldsCurrentIffAccepted(keep, account, n.address, n.log, p);
  }

  /** A replacement that the filter rejects leaves the older route in place, with no withdrawal. */
  lemma {:induction false} RejectedReplacementLingers(keep: Route -> bool, account: Account, address: Text,
      older: Route, newer: Route)
    requires older.prefix == newer.prefix != address && keep(older) && !keep(newer)
    ensures var log := [Entry([older], []), Entry([newer], [])];
            && Current(address, log, older.prefix) == Some(newer)
            && RouteAt(Snapshot(map[], keep, account, address, log, 2), older.prefix) == Some(older)
  {
    var own, a, b := Entry([OwnRoute(address)], []), Entry([older], []), Entry([newer], []);
    var full, filtered := Full(address, [a, b]), FilteredLog(keep, Full(address, [a, b]));
    var p := older.prefix;
    assert full == [own, a, b] && full[..3] == full;
    assert filtered == [Filtered(keep, own), Filtered(keep, a), Filtered(keep, b)];
    assert Filter(keep, [older]) == [older] && Filter(keep, [newer]) == [];
    ThreeEpochs(own, a, b, p);
    ThreeEpochs(filtered[0], filtered[1], filtered[2], p);
    OneRoute(OwnRoute(address), p);
    OneRoute(older, p);
    OneRoute(newer, p);
    KeptLast(keep, own.added, p);
    ReplayAt(map[], account, filtered, p);
  }

  lemma {:induction false} ThreeEpochs(a: Entry, b: Entry, c: Entry, p: Text)
    ensures LogEffect([a, b, c], p) == EpochEffect(a, p).Then(EpochEffect(b, p)).Then(EpochEffect(c, p))
  {
    LogEffectConcat([a], [b], p);
    LogEffectConcat([a, b], [c], p);
    assert [a] + [b] == [a, b] && [a, b] + [c] == [a, b, c];
    OneEpoch(a, p);
    OneEpoch(b, p);
    OneEpoch(c, p);
  }

  lemma {:induction false} OneEpoch(e: Entry, p: Text)
    ensures LogEffect([e], p) == EpochEffect(e, p)
  {
    var one := [e];
    assert one[..|one| - 1] == [] && one[|one| - 1] == e;
  }
}
