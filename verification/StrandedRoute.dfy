/** A run of two nodes in which merging and filtering leave a route stranded at the receiver. */
module StrandedRoute {
  import opened Basics
  import opened CcpMessages
  import opened RoutingTables
  import opened RouteLog
  import opened Replication
  import opened BestRoute
  import opened RouteNodes
  import opened Staging
  import opened ForwardingLog
  import opened Network
  import PrefixMaps

  // ---- Building runs ----

  ghost predicate Reachable(hash: Bytes -> Bytes, start: World, w: World) {
    exists steps :: After(hash, start, steps) == w
  }

  lemma {:induction false} NextReachable(hash: Bytes -> Bytes, start: World, w: World, step: Step)
    requires Reachable(hash, start, w)
    ensures Reachable(hash, start, Next(hash, w, step))
  {
    var steps :| After(hash, start, steps) == w;
    assert (steps + [step])[..|steps|] == steps;
    assert After(hash, start, steps + [step]) == Next(hash, w, step);
  }

  /** A recomputation, planned and written. */
  lemma {:induction false} Recomputes(hash: Bytes -> Bytes, start: World, w: World, i: nat, x: Inputs, p: Text)
      returns (w': World)
    requires Reachable(hash, start, w) && i in w.nodes && PrefixMaps.IterationOrder(w.nodes[i].incoming, x.order)
    ensures Reachable(hash, start, w')
    ensures w'.nodes == w.nodes[i := Committed(w.nodes[i], hash, PlanOf(w.nodes[i], x, [p]))]
  {
    var recompute := Recompute(i, x.localRoutes, x.configured, x.order, [p]);
    var write := Write(i, PlanOf(w.nodes[i], x, [p]));
    NextReachable(hash, start, w, recompute);
    NextReachable(hash, start, Next(hash, w, recompute), write);
    w' := Next(hash, Next(hash, w, recompute), write);
  }

  /** An update, sent and delivered. */
  lemma {:induction false} Tells(hash: Bytes -> Bytes, start: World, w: World, i: nat, j: nat, account: Account,
      from: nat, to: nat)
    returns (w': World)
    requires Reachable(hash, start, w) && i in w.nodes && j in w.nodes
    ensures Reachable(hash, start, w')
    ensures w'.nodes == w.nodes[j := Received(w.nodes[j], account, SentBy(w.nodes[i], from, to))]
  {
    var u := SentBy(w.nodes[i], from, to);
    NextReachable(hash, start, w, Send(i, from, to));
    NextReachable(hash, start, Next(hash, w, Send(i, from, to)), Deliver(j, account, u));
    w' := Next(hash, Next(hash, w, Send(i, from, to)), Deliver(j, account, u));
  }

  // ---- The setting ----

  /** A prefix that both nodes have an account for, and the accounts they know each other by. */
  datatype Setting = Setting(
    speaker: Text, node: Text, p: Text, atSpeaker: Account, atNode: Account, asSpeaker: Account, asNode: Account)
  {
    ghost predicate Sensible() {
      && speaker != node && Scheme(speaker) == Scheme(node)
      && StartsWith(p, Scheme(node)) && |p| > |Scheme(node)| + 1 && !StartsWith(p, speaker) && !StartsWith(p, node)
      && atSpeaker.address == p && atNode.address == p
    }

    /** The prefix as one of the two nodes tells it of its own account. */
    function Direct(hash: Bytes -> Bytes, from: Text): (r: Route) {
      Route(p, [from], hash(ZeroAuth()), [])
    }

    /** The prefix as the speaker tells it through the node. */
    function Through(hash: Bytes -> Bytes): (r: Route) {
      Route(p, [speaker, node], hash(hash(ZeroAuth())), [])
    }
  }

  lemma {:induction false} SchemeOfTwo(x: byte)
    requires x != DOT
    ensures Scheme([103, DOT, x]) == [103]
  {
    var a, b, c: Text := [103], [103, DOT], [103, DOT, x];
    assert a[..0] == [] && b[..1] == a && c[..2] == b;
    var none, last: Text := [], [x];
    assert none + a == a && none + last == last;
    assert Split(none) == [none] && Split(a) == [none][..0] + [none + a] == [a];
    assert Split(b) == [a] + [none];
    assert Split(c) == Split(b)[..1] + [none + last] == [a] + [last];
  }

  /** Two nodes g.a and g.b, and the prefix g.c. */
  lemma {:induction false} SensibleSetting(id: string) returns (z: Setting)
    ensures z.Sensible()
  {
    var p: Text := [103, DOT, 99];
    var account := Account(id, Peer, p);
    z := Setting([103, DOT, 97], [103, DOT, 98], p, account, account, account, account);
    SchemeOfTwo(97);
    SchemeOfTwo(98);
    assert z.speaker[2] != z.node[2] && p[2] != z.speaker[2] && p[2] != z.node[2];
    assert p[..1] == [103];
  }

  ghost predicate Fresh(n: Node, address: Text) {
    n.address == address && n.forwarding.routes == map[] && n.local.routes == map[] && n.log == []
  }

  // ---- What each exchange does ----

  /** A node without routes learns of its own account for the prefix. */
  lemma {:induction false} LearnsOwn(n: Node, hash: Bytes -> Bytes, z: Setting, account: Account,
      order: seq<string>)
    requires z.Sensible() && Fresh(n, n.address) && n.address in {z.speaker, z.node} && account.address == z.p
    ensures var n' := Committed(n, hash, PlanOf(n, Inputs(map[], map[z.p := account], order), [z.p]));
            && n' == ToldOf(n, hash, Change(z.p, LocalHop(account)))
            && n'.log == [Entry([z.Direct(hash, n.address)], [])]
  {
    var x, c := Inputs(map[], map[z.p := account], order), Change(z.p, LocalHop(account));
    ConfiguredBest(n, x, z.p);
    PlanForOne(n, x, z.p);
    assert Plan([c], []).better[..0] == [] && PassedOn(n, hash, Plan([c], []), 0);
    OneChange(n, hash, c);
    assert [n.address] + [] == [n.address];
  }

  /** The first update of such a node is accepted, with the prefix in it. */
  lemma {:induction false} FirstUpdate(n: Node, m: Node, hash: Bytes -> Bytes, z: Setting, account: Account)
    requires z.Sensible() && n.address in {z.speaker, z.node} && m.address in {z.speaker, z.node}
    requires n.address != m.address && account.id !in m.incoming
    requires n.log == [Entry([z.Direct(hash, n.address)], [])]
    ensures var m' := Received(m, account, SentBy(n, 0, 1));
            && m' == m.(incoming := m.incoming[account.id := m'.incoming[account.id]])
            && m'.incoming[account.id].id == n.forwarding.id && m'.incoming[account.id].epoch == 1
            && Get(m'.incoming[account.id].routes, z.p) == Some(Hop(account, z.Direct(hash, n.address)))
  {
    var own, r := OwnRoute(n.address), z.Direct(hash, n.address);
    var u := SentBy(n, 0, 1);
    UpdateIsMergedSegment(n.forwarding.id, n.forwarding.epoch, n.address, n.log, 0, 1);
    assert FullSegment(n.address, n.log, 0, 1) == [Entry([own], []), Entry([r], [])];
    FreshReceives(m.address, account, u, FullSegment(n.address, n.log, 0, 1), r);
  }

  lemma {:induction false} FilterOne<T>(keep: T -> bool, x: T)
    ensures Filter(keep, [x]) == if keep(x) then [x] else []
  {
    var one := [x];
    assert one[..|one| - 1] == [] && one[|one| - 1] == x;
  }

  lemma {:induction false} LastAnnounced(keep: Route -> bool, log: seq<Entry>, r: Route)
    requires log != [] && log[|log| - 1] == Entry([r], []) && keep(r)
    ensures LogEffect(FilteredLog(keep, log), r.prefix) == Announced(r)
  {
    FilterOne(keep, r);
    assert FilteredLog(keep, log)[|log| - 1] == Entry([r], []);
    OneRoute(r, r.prefix);
  }

  lemma {:induction false} FreshReceives(address: Text, account: Account, u: RouteUpdate, log: seq<Entry>, r: Route)
    requires Entry(u.newRoutes, u.withdrawnRoutes) == MergeLog(NOTHING, log) && u.fromEpoch == 0
    requires log != [] && log[|log| - 1] == Entry([r], []) && Acceptable(address, r)
    ensures var t := AfterUpdate(Table(u.tableId, 0, map[]), account, FilterRoutes(address, u));
            t.id == u.tableId && t.epoch == u.toEpoch && Get(t.routes, r.prefix) == Some(Hop(account, r))
  {
    var keep := (x: Route) => Acceptable(address, x);
    var merged := Entry(u.newRoutes, u.withdrawnRoutes);
    FilterCommutesWithCompaction(map[], account, keep, log);
    ReplayAt(map[], account, FilteredLog(keep, log), r.prefix);
    LastAnnounced(keep, log, r);
    assert FilterRoutes(address, u).newRoutes == Filter(keep, u.newRoutes);
    assert AppliedEntry(map[], account, Filtered(keep, merged)) ==
           Applied(map[], account, Filter(keep, u.newRoutes), u.withdrawnRoutes);
  }

  /** The speaker loses its account for the prefix. */
  lemma {:induction false} LosesOwn(n: Node, hash: Bytes -> Bytes, z: Setting)
    requires n.local.routes.Keys == {z.p} && n.forwarding.routes.Keys == {z.p}
    ensures var n' := Committed(n, hash, PlanOf(n, Inputs(map[], map[], []), [z.p]));
            && n' == WithdrawnOf(n, z.p) && n'.local.routes == map[] && n'.forwarding.routes == map[]
  {
    NothingConfigured(z.p, |Split(z.p)|);
    PlanForOne(n, Inputs(map[], map[], []), z.p);
    OneWithdrawal(n, hash, z.p);
  }

  lemma {:induction false} NothingConfigured(p: Text, k: nat)
    requires k <= |Split(p)|
    ensures ConfiguredAt(map[], Split(p), k) == None
  {
    if k > 0 {
      NothingConfigured(p, k - 1);
    }
  }

  /** With one incoming table that has the prefix, its route is the best. */
  lemma {:induction false} OnlyCandidate(n: Node, id: string, p: Text, hop: Hop)
    requires id in n.incoming && Get(n.incoming[id].routes, p) == Some(hop)
    ensures BestAt(n, Inputs(map[], map[], [id]), p) == Some(hop)
  {
    var table := n.incoming[id];
    NothingConfigured(p, |Split(p)|);
    assert [id][..0] == [] && TablesIn(n.incoming, []) == [];
    assert TablesIn(n.incoming, [id]) == [] + [table] == [table];
    ExactMatch(table.routes, p);
    assert [table][..0] == [] && Candidates([], p) == [];
    assert Candidates([table], p) == [] + [hop] == [hop];
  }

  /** The speaker takes the node's route for the prefix and tells it on. */
  lemma {:induction false} LearnsThrough(n: Node, hash: Bytes -> Bytes, z: Setting)
    requires z.Sensible() && n.address == z.speaker && n.forwarding.routes == map[] && n.local.routes == map[]
    requires z.asNode.id in n.incoming
    requires Get(n.incoming[z.asNode.id].routes, z.p) == Some(Hop(z.asNode, z.Direct(hash, z.node)))
    ensures var n' := Committed(n, hash, PlanOf(n, Inputs(map[], map[], [z.asNode.id]), [z.p]));
            && n' == ToldOf(n, hash, Change(z.p, Hop(z.asNode, z.Direct(hash, z.node))))
            && n'.log == n.log + [Entry([z.Through(hash)], [])]
            && RouteAt(n'.forwarding.routes, z.p) == Some(z.Through(hash))
  {
    var hop := Hop(z.asNode, z.Direct(hash, z.node));
    var x, c := Inputs(map[], map[], [z.asNode.id]), Change(z.p, hop);
    OnlyCandidate(n, z.asNode.id, z.p, hop);
    PlanForOne(n, x, z.p);
    assert Plan([c], []).better[..0] == [] && PassedOn(n, hash, Plan([c], []), 0);
    OneChange(n, hash, c);
    assert [z.speaker] + [z.node] == [z.speaker, z.node];
  }

  /** The merged update of withdrawal and new announcement changes nothing at the node but the epoch. */
  lemma {:induction false} LaterUpdate(n: Node, m: Node, hash: Bytes -> Bytes, z: Setting)
    requires z.Sensible() && n.address == z.speaker && m.address == z.node
    requires n.log == [Entry([z.Direct(hash, z.speaker)], []), Entry([], [z.p]), Entry([z.Through(hash)], [])]
    requires z.asSpeaker.id in m.incoming
    requires m.incoming[z.asSpeaker.id].id == n.forwarding.id && m.incoming[z.asSpeaker.id].epoch == 1
    ensures var t := m.incoming[z.asSpeaker.id];
            Received(m, z.asSpeaker, SentBy(n, 1, 3)) ==
            m.(incoming := m.incoming[z.asSpeaker.id := Table(t.id, 3, t.routes)])
  {
    var t, u := m.incoming[z.asSpeaker.id], SentBy(n, 1, 3);
    ThroughIsRejected(hash, z);
    LaterMerge(n, hash, z);
    assert FilterRoutes(z.node, u).newRoutes == Filter(x => Acceptable(z.node, x), [z.Through(hash)]);
    WithoutNothing(t.routes);
    assert Applied(t.routes, z.asSpeaker, [], []) == t.routes;
  }

  lemma {:induction false} ThroughIsRejected(hash: Bytes -> Bytes, z: Setting)
    ensures Filter(x => Acceptable(z.node, x), [z.Through(hash)]) == []
  {
    assert z.Through(hash).path[1] == z.node;
    FilterOne(x => Acceptable(z.node, x), z.Through(hash));
  }

  lemma {:induction false} LaterMerge(n: Node, hash: Bytes -> Bytes, z: Setting)
    requires n.log == [Entry([z.Direct(hash, z.speaker)], []), Entry([], [z.p]), Entry([z.Through(hash)], [])]
    ensures SentBy(n, 1, 3).newRoutes == [z.Through(hash)] && SentBy(n, 1, 3).withdrawnRoutes == []
  {
    MergeReadded(z.p, z.Through(hash));
    assert Segment(n.log, 1, 3) == [Entry([], [z.p]), Entry([z.Through(hash)], [])];
  }

  // ---- The run ----

  /** Both nodes are up to date with each other, but the node still holds the direct route that the speaker
      withdrew, while the speaker now leads through the node. */
  ghost predicate Stranded(w: World, hash: Bytes -> Bytes, z: Setting) {
    && 0 in w.nodes && 1 in w.nodes
    && var s, n := w.nodes[0], w.nodes[1];
    && s.address == z.speaker && z.asSpeaker.id in n.incoming
    && n.incoming[z.asSpeaker.id].id == s.forwarding.id && n.incoming[z.asSpeaker.id].epoch == |s.log| == 3
    && Get(n.incoming[z.asSpeaker.id].routes, z.p) == Some(Hop(z.asSpeaker, z.Direct(hash, z.speaker)))
    && RouteAt(s.forwarding.routes, z.p) == Some(z.Through(hash))
    && RouteAt(Snapshot(map[], r => Acceptable(z.node, r), z.asSpeaker, z.speaker, s.log, 3), z.p) == None
  }

  /** Epoch by epoch, nothing would be left at the prefix. */
  lemma {:induction false} ReplayedLeavesNothing(hash: Bytes -> Bytes, z: Setting)
    requires z.Sensible()
    ensures var log := [Entry([z.Direct(hash, z.speaker)], []), Entry([], [z.p]), Entry([z.Through(hash)], [])];
            RouteAt(Snapshot(map[], r => Acceptable(z.node, r), z.asSpeaker, z.speaker, log, 3), z.p) == None
  {
    var keep := r => Acceptable(z.node, r);
    var a, b, c := Entry([z.Direct(hash, z.speaker)], []), Entry([], [z.p]), Entry([z.Through(hash)], []);
    var own := Entry([OwnRoute(z.speaker)], []);
    var full := Full(z.speaker, [a, b, c]);
    assert full == [own, a, b, c] && full[..4] == full;
    var filtered := FilteredLog(keep, full);
    ThroughIsRejected(hash, z);
    assert filtered == [filtered[0]] + [Filtered(keep, a), b, Entry([], [])];
    LogEffectConcat([filtered[0]], [Filtered(keep, a), b, Entry([], [])], z.p);
    ThreeEpochs(Filtered(keep, a), b, Entry([], []), z.p);
    ReplayAt(map[], z.asSpeaker, filtered, z.p);
  }

  /** The node holds the direct route, and has its own account for the prefix. */
  ghost predicate NodeReady(n: Node, s: Node, hash: Bytes -> Bytes, z: Setting) {
    n.address == z.node && n.log == [Entry([z.Direct(hash, z.node)], [])] && HoldsDirect(n, s, hash, z)
  }

  ghost predicate SpeakerEmpty(s: Node, hash: Bytes -> Bytes, z: Setting) {
    && s.address == z.speaker && s.local.routes == map[] && s.forwarding.routes == map[]
    && s.log == [Entry([z.Direct(hash, z.speaker)], []), Entry([], [z.p])]
  }

  ghost predicate Starts(start: World, z: Setting) {
    && Initial(start) && z.Sensible() && 0 in start.nodes && 1 in start.nodes
    && Fresh(start.nodes[0], z.speaker) && Fresh(start.nodes[1], z.node)
  }

  lemma {:induction false} OwnStep(hash: Bytes -> Bytes, start: World, w: World, i: nat, z: Setting, account: Account,
      order: seq<string>)
    returns (w': World)
    requires Reachable(hash, start, w) && i in w.nodes && z.Sensible() && account.address == z.p
    requires Fresh(w.nodes[i], w.nodes[i].address) && w.nodes[i].address in {z.speaker, z.node}
    requires PrefixMaps.IterationOrder(w.nodes[i].incoming, order)
    ensures Reachable(hash, start, w')
    ensures w'.nodes == w.nodes[i := ToldOf(w.nodes[i], hash, Change(z.p, LocalHop(account)))]
    ensures w'.nodes[i].log == [Entry([z.Direct(hash, w.nodes[i].address)], [])]
  {
    LearnsOwn(w.nodes[i], hash, z, account, order);
    w' := Recomputes(hash, start, w, i, Inputs(map[], map[z.p := account], order), z.p);
  }

  lemma {:induction false} LoseStep(hash: Bytes -> Bytes, start: World, w: World, z: Setting) returns (w': World)
    requires Reachable(hash, start, w) && 0 in w.nodes && w.nodes[0].incoming == map[]
    requires w.nodes[0].local.routes.Keys == {z.p} && w.nodes[0].forwarding.routes.Keys == {z.p}
    ensures Reachable(hash, start, w') && w'.nodes == w.nodes[0 := WithdrawnOf(w.nodes[0], z.p)]
    ensures w'.nodes[0].local.routes == map[] && w'.nodes[0].forwarding.routes == map[]
  {
    LosesOwn(w.nodes[0], hash, z);
    w' := Recomputes(hash, start, w, 0, Inputs(map[], map[], []), z.p);
  }

  /** The speaker tells the node of its account. */
  lemma {:induction false} Opening(hash: Bytes -> Bytes, start: World, z: Setting) returns (w: World)
    requires Starts(start, z)
    ensures Reachable(hash, start, w) && w.nodes.Keys == start.nodes.Keys
    ensures w.nodes[0] == ToldOf(start.nodes[0], hash, Change(z.p, LocalHop(z.atSpeaker)))
    ensures w.nodes[1] == Received(start.nodes[1], z.asSpeaker, SentBy(w.nodes[0], 0, 1))
    ensures w.nodes[0].log == [Entry([z.Direct(hash, z.speaker)], [])]
  {
    assert After(hash, start, []) == start;
    w := OwnStep(hash, start, start, 0, z, z.atSpeaker, []);
    w := Tells(hash, start, w, 0, 1, z.asSpeaker, 0, 1);
  }

  /** What the node has received so far. */
  ghost predicate HoldsDirect(n: Node, s: Node, hash: Bytes -> Bytes, z: Setting) {
    && z.asSpeaker.id in n.incoming
    && n.incoming[z.asSpeaker.id].id == s.forwarding.id && n.incoming[z.asSpeaker.id].epoch == 1
    && Get(n.incoming[z.asSpeaker.id].routes, z.p) == Some(Hop(z.asSpeaker, z.Direct(hash, z.speaker)))
  }

  /** The speaker loses its account. */
  lemma {:induction false} Loss(hash: Bytes -> Bytes, start: World, z: Setting) returns (w: World)
    requires Starts(start, z)
    ensures Reachable(hash, start, w) && w.nodes.Keys == start.nodes.Keys
    ensures SpeakerEmpty(w.nodes[0], hash, z) && w.nodes[0].incoming == map[]
    ensures Fresh(w.nodes[1], z.node) && HoldsDirect(w.nodes[1], w.nodes[0], hash, z)
    ensures w.nodes[1].incoming.Keys == {z.asSpeaker.id}
  {
    w := Opening(hash, start, z);
    FirstUpdate(w.nodes[0], start.nodes[1], hash, z, z.asSpeaker);
    w := LoseStep(hash, start, w, z);
  }

  /** The node gets an account. */
  lemma {:induction false} Middle(hash: Bytes -> Bytes, start: World, z: Setting) returns (w: World)
    requires Starts(start, z)
    ensures Reachable(hash, start, w) && w.nodes.Keys == start.nodes.Keys
    ensures SpeakerEmpty(w.nodes[0], hash, z) && w.nodes[0].incoming == map[]
    ensures NodeReady(w.nodes[1], w.nodes[0], hash, z)
  {
    w := Loss(hash, start, z);
    w := OwnStep(hash, start, w, 1, z, z.atNode, [z.asSpeaker.id]);
  }

  /** The node tells the speaker of it. */
  lemma {:induction false} Return(hash: Bytes -> Bytes, start: World, z: Setting) returns (w: World)
    requires Starts(start, z)
    ensures Reachable(hash, start, w) && w.nodes.Keys == start.nodes.Keys
    ensures SpeakerEmpty(w.nodes[0], hash, z) && w.nodes[0].incoming.Keys == {z.asNode.id}
    ensures Get(w.nodes[0].incoming[z.asNode.id].routes, z.p) == Some(Hop(z.asNode, z.Direct(hash, z.node)))
    ensures NodeReady(w.nodes[1], w.nodes[0], hash, z)
  {
    w := Middle(hash, start, z);
    FirstUpdate(w.nodes[1], w.nodes[0], hash, z, z.asNode);
    w := Tells(hash, start, w, 1, 0, z.asNode, 0, 1);
  }

  /** The speaker takes that route and tells it on. */
  lemma {:induction false} Ending(hash: Bytes -> Bytes, start: World, z: Setting) returns (w: World)
    requires Starts(start, z)
    ensures Reachable(hash, start, w) && w.nodes.Keys == start.nodes.Keys
    ensures var s := w.nodes[0];
            && s.address == z.speaker && RouteAt(s.forwarding.routes, z.p) == Some(z.Through(hash))
            && s.log == [Entry([z.Direct(hash, z.speaker)], []), Entry([], [z.p]), Entry([z.Through(hash)], [])]
    ensures NodeReady(w.nodes[1], w.nodes[0], hash, z)
  {
    w := Return(hash, start, z);
    assert z.asNode.id in w.nodes[0].incoming;
    LearnsThrough(w.nodes[0], hash, z);
    w := Recomputes(hash, start, w, 0, Inputs(map[], map[], [z.asNode.id]), z.p);
  }

  /** From any start with two fresh nodes, some run strands a route. */
  lemma {:induction false} RunStrandsRoute(hash: Bytes -> Bytes, start: World, z: Setting) returns (w: World)
    requires Starts(start, z)
    ensures Reachable(hash, start, w) && Stranded(w, hash, z)
  {
    w := Ending(hash, start, z);
    LaterUpdate(w.nodes[0], w.nodes[1], hash, z);
    w := Tells(hash, start, w, 0, 1, z.asSpeaker, 1, 3);
    ReplayedLeavesNothing(hash, z);
  }
}
