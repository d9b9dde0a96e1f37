/** What one node of a network holds of another: the routes of its log, and of its forwarding table. */
module NetworkReplicas {
  import opened Basics
  import opened CcpMessages
  import opened RoutingTables
  import opened RouteLog
  import opened Replication
  import opened RouteNodes
  import opened Staging
  import opened ForwardingLog
  import opened Network
  import ReplicaRuns

  /** A node that speaks, one that listens, and the account under which the listener knows the speaker. */
  datatype Link = Link(speaker: nat, listener: nat, account: Account)

  ghost predicate Within(w: World, l: Link) {
    l.speaker in w.nodes && l.listener in w.nodes
  }

  function TableId(w: World, l: Link): (id: Bytes)
    requires Within(w, l)
  {
    w.nodes[l.speaker].forwarding.id
  }

  function LogOf(w: World, l: Link): (log: seq<Entry>)
    requires Within(w, l)
  {
    w.nodes[l.speaker].log
  }

  function ConfigOf(w: World, l: Link): (c: ReplicaRuns.Config)
    requires Within(w, l)
  {
    var listener := w.nodes[l.listener].address;
    ReplicaRuns.Config(TableId(w, l), w.nodes[l.speaker].address, l.account, r => Acceptable(listener, r), None)
  }

  /** No other node's forwarding table has the speaker's table id. */
  ghost predicate Distinct(w: World, l: Link)
    requires Within(w, l)
  {
    forall k :: k in w.nodes && k != l.speaker ==> w.nodes[k].forwarding.id != TableId(w, l)
  }

  /** A step of the kind that the code takes: updates are for epochs that the log has, and what the listener
      takes under the account comes from the speaker. */
  ghost predicate Proper(w: World, l: Link, step: Step)
    requires Within(w, l)
  {
    match step
    case Send(i, from, to) => i == l.speaker ==> from <= to <= |LogOf(w, l)|
    case Deliver(j, account, u) =>
      j == l.listener && account.id == l.account.id ==> account == l.account && u.tableId == TableId(w, l)
    case _ => true
  }

  ghost predicate ProperRun(hash: Bytes -> Bytes, start: World, steps: seq<Step>, l: Link) {
    steps != [] ==>
      var front := steps[..|steps| - 1];
      && ProperRun(hash, start, front, l)
      && var w := After(hash, start, front);
      Within(w, l) && Proper(w, l, steps[|steps| - 1])
  }

  // ---- The invariant ----

  ghost predicate Synced(c: ReplicaRuns.Config, log: seq<Entry>, t: Table) {
    t.id == c.tableId && t.epoch <= |log| && (ReplicaRuns.Faithful(c, log) ==> ReplicaRuns.InSync(c, log, t))
  }

  ghost predicate LinkInv(w: World, l: Link) {
    && Within(w, l) && Distinct(w, l)
    && (forall u :: u in w.updates && u.tableId == TableId(w, l) ==> ReplicaRuns.Sent(ConfigOf(w, l), LogOf(w, l), u))
    && var incoming := w.nodes[l.listener].incoming;
    l.account.id in incoming ==> Synced(ConfigOf(w, l), LogOf(w, l), incoming[l.account.id])
  }

  lemma {:induction false} CommitGrows(n: Node, hash: Bytes -> Bytes, plan: Plan) returns (e: Entry)
    ensures var n' := Committed(n, hash, plan);
            && n'.address == n.address && n'.forwarding.id == n.forwarding.id && n'.incoming == n.incoming
            && n'.log in {n.log, n.log + [e]}
  {
    e := if |Committed(n, hash, plan).log| > |n.log| then Committed(n, hash, plan).log[|n.log|] else NOTHING;
  }

  lemma {:induction false} SyncedGrows(c: ReplicaRuns.Config, log: seq<Entry>, e: Entry, t: Table)
    requires Synced(c, log, t)
    ensures Synced(c, log + [e], t)
  {
    if ReplicaRuns.Faithful(c, log + [e]) {
      ReplicaRuns.FaithfulShrinks(c, log, e);
      ReplicaRuns.SyncGrows(c, log, e, t);
    }
  }

  /** Nothing that the link sees has changed. */
  ghost predicate SameLink(w: World, w': World, l: Link)
    requires Within(w, l)
  {
    && Within(w', l) && Distinct(w', l) && ConfigOf(w', l) == ConfigOf(w, l)
    && w'.nodes[l.listener].incoming == w.nodes[l.listener].incoming
  }

  lemma {:induction false} WriteKeepsInv(hash: Bytes -> Bytes, w: World, l: Link, i: nat, plan: Plan)
    requires LinkInv(w, l) && i in w.nodes
    ensures LinkInv(w.(nodes := w.nodes[i := Committed(w.nodes[i], hash, plan)]), l)
  {
    var c, log := ConfigOf(w, l), LogOf(w, l);
    var w' := w.(nodes := w.nodes[i := Committed(w.nodes[i], hash, plan)]);
    var e := CommitGrows(w.nodes[i], hash, plan);
    assert SameLink(w, w', l);
    if LogOf(w', l) != log {
      forall u | u in w.updates && u.tableId == c.tableId ensures ReplicaRuns.Sent(c, log + [e], u) {
        ReplicaRuns.SentGrows(c, log, e, u);
      }
      if l.account.id in w.nodes[l.listener].incoming {
        SyncedGrows(c, log, e, w.nodes[l.listener].incoming[l.account.id]);
      }
    }
  }

  lemma {:induction false} SendKeepsInv(w: World, l: Link, i: nat, from: nat, to: nat)
    requires LinkInv(w, l) && i in w.nodes && Proper(w, l, Send(i, from, to))
    ensures LinkInv(w.(updates := w.updates + {SentBy(w.nodes[i], from, to)}), l)
  {
    var n := w.nodes[i];
    if i == l.speaker {
      UpdateIsMergedSegment(n.forwarding.id, n.forwarding.epoch, n.address, n.log, from, to);
    }
  }

  /** What a node makes of an update is what a replica does. */
  lemma {:induction false} ReceivedIsReceive(w: World, l: Link, u: RouteUpdate)
    requires Within(w, l)
    ensures var n := w.nodes[l.listener];
            var replica := if l.account.id in n.incoming then Some(n.incoming[l.account.id]) else None;
            Received(n, l.account, u) ==
            n.(incoming := n.incoming[l.account.id := ReplicaRuns.Receive(ConfigOf(w, l), replica, u)])
  {
    var address := w.nodes[l.listener].address;
    assert FilterRoutes(address, u).newRoutes == Filter(ConfigOf(w, l).keep, u.newRoutes);
  }

  lemma {:induction false} DeliverKeepsInv(w: World, l: Link, j: nat, account: Account, u: RouteUpdate)
    requires LinkInv(w, l) && j in w.nodes && u in w.updates && Proper(w, l, Deliver(j, account, u))
    ensures LinkInv(w.(nodes := w.nodes[j := Received(w.nodes[j], account, u)]), l)
  {
    var c, log, n := ConfigOf(w, l), LogOf(w, l), w.nodes[l.listener];
    var w' := w.(nodes := w.nodes[j := Received(w.nodes[j], account, u)]);
    assert Distinct(w', l) && LogOf(w', l) == log && ConfigOf(w', l) == c;
    if j == l.listener && account.id == l.account.id {
      var replica := if l.account.id in n.incoming then Some(n.incoming[l.account.id]) else None;
      ReceivedIsReceive(w, l, u);
      if replica.None? {
        ReplicaRuns.FirstReceive(c, log, u);
      } else {
        ReplicaRuns.ReceiveKeepsSync(c, log, replica, u);
      }
    }
  }

  lemma {:induction false} NextKeepsInv(hash: Bytes -> Bytes, w: World, l: Link, step: Step)
    requires LinkInv(w, l) && Proper(w, l, step)
    ensures LinkInv(Next(hash, w, step), l)
  {
    if step.node in w.nodes {
      match step
      case Recompute(_, _, _, _, _) =>
      case Write(i, plan) => WriteKeepsInv(hash, w, l, i, plan);
      case Send(i, from, to) => SendKeepsInv(w, l, i, from, to);
      case Deliver(j, account, u) => if u in w.updates { DeliverKeepsInv(w, l, j, account, u); }
    }
  }

  lemma {:induction false} RunKeepsInv(hash: Bytes -> Bytes, start: World, steps: seq<Step>, l: Link)
    requires Initial(start) && Within(start, l) && Distinct(start, l) && ProperRun(hash, start, steps, l)
    ensures LinkInv(After(hash, start, steps), l)
  {
    if steps != [] {
      var front := steps[..|steps| - 1];
      RunKeepsInv(hash, start, front, l);
      NextKeepsInv(hash, After(hash, start, front), l, steps[|steps| - 1]);
    }
  }

  // ---- The theorems ----

  /** In every reachable world, the table that a node keeps for another holds exactly the routes that
      replaying the other's log up to its epoch gives, if that log is faithful for the node's filter. */
  lemma {:induction false} ListenerInSync(hash: Bytes -> Bytes, start: World, steps: seq<Step>, l: Link)
    requires Initial(start) && Within(start, l) && Distinct(start, l) && ProperRun(hash, start, steps, l)
    ensures var w := After(hash, start, steps);
            && Within(w, l)
            && var incoming := w.nodes[l.listener].incoming;
            ReplicaRuns.Faithful(ConfigOf(w, l), LogOf(w, l)) && l.account.id in incoming ==>
              ReplicaRuns.InSync(ConfigOf(w, l), LogOf(w, l), incoming[l.account.id])
  {
    RunKeepsInv(hash, start, steps, l);
  }

  /** The listener has a table for the speaker, and has taken all epochs of its log. */
  ghost predicate CaughtUp(w: World, l: Link) {
    && Within(w, l) && l.account.id in w.nodes[l.listener].incoming
    && w.nodes[l.listener].incoming[l.account.id].epoch == |LogOf(w, l)| > 0
  }

  /** The route that the listener has for a prefix from the speaker. */
  function HeldAt(w: World, l: Link, p: Text): (r: Option<Route>)
    requires Within(w, l) && l.account.id in w.nodes[l.listener].incoming
  {
    RouteAt(w.nodes[l.listener].incoming[l.account.id].routes, p)
  }

  /** A listener that has caught up holds the route of the speaker's forwarding table, if and only if it
      accepts that route. */
  lemma {:induction false} ListenerHoldsTable(hash: Bytes -> Bytes, start: World, steps: seq<Step>, l: Link, p: Text)
    requires Initial(start) && Within(start, l) && Distinct(start, l) && ProperRun(hash, start, steps, l)
    requires var w := After(hash, start, steps);
             && CaughtUp(w, l) && ReplicaRuns.Faithful(ConfigOf(w, l), LogOf(w, l))
             && Mirrors(w.nodes[l.speaker]) && p != w.nodes[l.speaker].address
    ensures var w := After(hash, start, steps);
            var table := RouteAt(w.nodes[l.speaker].forwarding.routes, p);
            HeldAt(w, l, p) == table <==> table.None? || Acceptable(w.nodes[l.listener].address, table.value)
  {
    var w := After(hash, start, steps);
    ListenerInSync(hash, start, steps, l);
    ReplicaHoldsTable(w.nodes[l.speaker], ConfigOf(w, l).keep, l.account, p);
  }

  // ---- Listeners that no route of the speaker leads through ----

  ghost predicate NeverThrough(w: World, l: Link)
    requires Within(w, l)
  {
    forall r :: AnnouncedIn(LogOf(w, l), r) ==> w.nodes[l.listener].address !in r.path
  }

  lemma {:induction false} NeverThroughIsFaithful(w: World, l: Link)
    requires Within(w, l) && NeverThrough(w, l)
    ensures ReplicaRuns.Faithful(ConfigOf(w, l), LogOf(w, l))
  {
    var c, log, address := ConfigOf(w, l), LogOf(w, l), w.nodes[l.listener].address;
    forall r | AnnouncedIn(Full(c.address, log), r) ensures address !in r.path {
      var k :| 0 <= k < |Full(c.address, log)| && r in Full(c.address, log)[k].added;
      if k > 0 {
        assert r in log[k - 1].added;
      }
    }
    ReplicaRuns.PrefixDeterminedIsFaithful(c, log);
  }

  /** In every reachable world, such a listener that has caught up holds exactly the acceptable routes of the
      speaker's forwarding table. */
  lemma {:induction false} ListenerHoldsExactly(hash: Bytes -> Bytes, start: World, steps: seq<Step>, l: Link, p: Text)
    requires Initial(start) && Within(start, l) && Distinct(start, l) && ProperRun(hash, start, steps, l)
    requires var w := After(hash, start, steps);
             && CaughtUp(w, l) && NeverThrough(w, l)
             && Mirrors(w.nodes[l.speaker]) && p != w.nodes[l.speaker].address
    ensures var w := After(hash, start, steps);
            var table := RouteAt(w.nodes[l.speaker].forwarding.routes, p);
            HeldAt(w, l, p) ==
            if table.Some? && Acceptable(w.nodes[l.listener].address, table.value) then table else None
  {
    var w := After(hash, start, steps);
    NeverThroughIsFaithful(w, l);
    ListenerHoldsTable(hash, start, steps, l, p);
    ListenerInSync(hash, start, steps, l);
    if HeldAt(w, l, p).Some? && p in w.nodes[l.speaker].forwarding.routes {
      var held := ReplicaRuns.SnapshotHolds(ConfigOf(w, l), LogOf(w, l), |LogOf(w, l)|, p);
      LogFilesByPrefix(LogOf(w, l), p);
    }
  }

  // ---- Epochs ----

  /** Over every run, a node's epoch is the number of entries in its log, and each update says so. */
  lemma {:induction false} EpochIsLogLength(hash: Bytes -> Bytes, start: World, steps: seq<Step>, i: nat,
      from: nat, to: nat)
    requires Initial(start) && i in start.nodes && start.nodes[i].forwarding.epoch == 0
    ensures var w := After(hash, start, steps);
            i in w.nodes && w.nodes[i].forwarding.epoch == |w.nodes[i].log| == SentBy(w.nodes[i], from, to).currentEpoch
  {
    if steps != [] {
      EpochIsLogLength(hash, start, steps[..|steps| - 1], i, from, to);
    }
  }

  // ---- Speakers whose log describes their table ----

  /** Each plan that the node has written passed on only routes filed under their own prefix. */
  ghost predicate ExactRun(hash: Bytes -> Bytes, start: World, steps: seq<Step>, i: nat) {
    steps != [] ==>
      var front, last := steps[..|steps| - 1], steps[|steps| - 1];
      && ExactRun(hash, start, front, i)
      && var w := After(hash, start, front);
      last.Write? && last.node == i && i in w.nodes ==> Exact(w.nodes[i], hash, last.plan)
  }

  /** In every such run, the log describes the forwarding table. */
  lemma {:induction false} ExactRunMirrors(hash: Bytes -> Bytes, start: World, steps: seq<Step>, i: nat)
    requires Initial(start) && i in start.nodes && ExactRun(hash, start, steps, i)
    ensures i in After(hash, start, steps).nodes && Mirrors(After(hash, start, steps).nodes[i])
  {
    if steps != [] {
      var front, last := steps[..|steps| - 1], steps[|steps| - 1];
      ExactRunMirrors(hash, start, front, i);
      var w := After(hash, start, front);
      if last.Write? && last.node == i && last.plan in PlansOf(w, i) {
        ExactMirrors(w.nodes[i], hash, last.plan);
      }
    }
  }
}
