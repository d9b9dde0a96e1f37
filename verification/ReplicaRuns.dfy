/** Every run of one speaker and one replica: convergence, gap recovery and log discipline. */
module ReplicaRuns {
  import opened Basics
  import opened CcpMessages
  import opened RoutingTables
  import opened RouteLog
  import opened Replication

  /** The speaker's identity, the account under which the peer knows it, the peer's route filter, and the table
      that the peer has from before the speaker was started anew. */
  datatype Config = Config(
    tableId: Bytes, address: Text, account: Account, keep: Route -> bool, before: Option<Table>)
  {
    /** The table id is random, so it is a new one. */
    predicate Restarted() {
      before.Some? ==> before.value.id != tableId
    }

    function Leftover(): (m: Routes) {
      if before.Some? then before.value.routes else map[]
    }
  }

  /** What a replica at `epoch` should hold. */
  function Target(c: Config, log: seq<Entry>, epoch: nat): (m: Routes)
    requires epoch <= |log|
  {
    Snapshot(c.Leftover(), c.keep, c.account, c.address, log, epoch)
  }

  datatype Speaker = Speaker(epoch: nat, log: seq<Entry>, lastSent: nat, broadcasts: seq<(nat, nat)>)

  /** The broadcast loop has read an epoch and not yet swapped it for the last one sent; `creating` are the
      ranges for which an update may be created at any later time. `controls` and `updates` hold every request
      and update ever sent: delivering one repeatedly, late or never is all allowed. */
  datatype State = State(
    speaker: Speaker, reading: Option<nat>, creating: set<(nat, nat)>,
    replica: Option<Table>, controls: set<RouteControl>, updates: set<RouteUpdate>)

  /** One step for each critical section: commits may fall between any two of them. */
  datatype Step =
    | Commit(entry: Entry)
    | ReadEpoch
    | Swap
    | Request(all: bool)
    | Answer(control: RouteControl)
    | Create(range: (nat, nat), current: nat)
    | Deliver(update: RouteUpdate)

  function Init(c: Config): (s: State) {
    State(Speaker(0, [], 0, []), None, {}, c.before, {}, {})
  }

  /** The epoch range `handle_route_control_request` answers with. */
  function AnswerRange(tableId: Bytes, epoch: nat, control: RouteControl): (range: (nat, nat))
    ensures range.0 <= range.1 == epoch
    ensures control.lastKnownTableId == tableId && control.lastKnownEpoch <= epoch ==> range.0 == control.lastKnownEpoch
    ensures control.lastKnownTableId != tableId ==> range.0 == 0
  {
    (if control.lastKnownTableId != tableId then 0 else Min(control.lastKnownEpoch, epoch), epoch)
  }

  /** The control request of a replica: for what it misses, or for everything. */
  function Requested(replica: Option<Table>, all: bool): (control: RouteControl) {
    if all || replica.None? then RouteControl(Sync, DummyTableId(), 0, [])
    else RouteControl(Sync, replica.value.id, replica.value.epoch, [])
  }

  /** The update for a range, with an epoch that was current when its creation began. */
  function Created(c: Config, s: Speaker, range: (nat, nat), current: nat): (u: RouteUpdate) {
    UpdateMessage(c.tableId, current, c.address, s.log, range.0, range.1)
  }

  /** The peer filters the routes, opens a table for the account if it has none, and applies the update. */
  function Receive(c: Config, replica: Option<Table>, u: RouteUpdate): (t: Table) {
    var table := if replica.Some? then replica.value else Table(u.tableId, 0, map[]);
    AfterUpdate(table, c.account, u.(newRoutes := Filter(c.keep, u.newRoutes)))
  }

  function Next(c: Config, s: State, step: Step): (s': State) {
    var sp := s.speaker;
    match step
    case Commit(e) =>
      s.(speaker := sp.(epoch := sp.epoch + 1, log := sp.log + [e]))
    case ReadEpoch =>
      if s.reading.Some? then s else s.(reading := Some(sp.epoch))
    case Swap =>
      if s.reading.None? then s
      else
        var range := (sp.lastSent, s.reading.value);
        s.(speaker := sp.(lastSent := range.1, broadcasts := sp.broadcasts + [range]),
           reading := None, creating := s.creating + {range})
    case Request(all) =>
      s.(controls := s.controls + {Requested(s.replica, all)})
    case Answer(control) =>
      if control !in s.controls || control.mode != Sync then s
      else s.(creating := s.creating + {AnswerRange(c.tableId, sp.epoch, control)})
    case Create(range, current) =>
      if range !in s.creating || current > sp.epoch then s
      else s.(updates := s.updates + {Created(c, sp, range, current)})
    case Deliver(u) =>
      if u !in s.updates then s else s.(replica := Some(Receive(c, s.replica, u)))
  }

  function After(c: Config, steps: seq<Step>): (s: State) {
    if steps == [] then Init(c) else Next(c, After(c, steps[..|steps| - 1]), steps[|steps| - 1])
  }

  // ---- The invariant ----

  /** No withdrawal the peer still needs is ever lost to compaction: for each update a peer at
      `epoch` may ask for, none of the prefixes it holds is stale. */
  ghost predicate Faithful(c: Config, log: seq<Entry>) {
    forall epoch: nat, to: nat, p |
        epoch <= to <= |log| && p in Target(c, log, epoch) ::
      !Stale(c.keep, FullSegment(c.address, log, epoch, to), p)
  }

  /** Nor is any stale in an update that it may accept. */
  lemma {:induction false} FaithfulToAll(c: Config, log: seq<Entry>, from: nat, epoch: nat, to: nat, p: Text)
    requires Faithful(c, log) && from <= epoch <= to <= |log|
    requires p in Target(c, log, epoch)
    ensures !Stale(c.keep, FullSegment(c.address, log, from, to), p)
  {
    if Stale(c.keep, FullSegment(c.address, log, from, to), p) {
      StaleFromEpoch(c.Leftover(), c.keep, c.account, c.address, log, from, epoch, to, p);
    }
  }

  ghost predicate InSync(c: Config, log: seq<Entry>, t: Table) {
    && t.epoch <= |log|
    && (|| t.routes == Target(c, log, t.epoch)
        || (t.epoch == 0 && t.routes == c.Leftover()))
  }

  /** The replica is still what it was before, or has the speaker's table id and is in sync. */
  ghost predicate Synced(c: Config, log: seq<Entry>, replica: Option<Table>) {
    replica == c.before || (replica.Some? && replica.value.id == c.tableId && InSync(c, log, replica.value))
  }

  /** The ranges follow one another without gap or overlap, from 0 up to `end`. */
  ghost predicate Adjacent(ranges: seq<(nat, nat)>, end: nat) {
    if ranges == [] then end == 0
    else
      var last := ranges[|ranges| - 1];
      last.0 <= last.1 == end && Adjacent(ranges[..|ranges| - 1], last.0)
  }

  ghost predicate Sent(c: Config, log: seq<Entry>, u: RouteUpdate) {
    && u.tableId == c.tableId
    && u.fromEpoch <= u.toEpoch <= |log|
    && Entry(u.newRoutes, u.withdrawnRoutes) ==
       MergeLog(NOTHING, FullSegment(c.address, log, u.fromEpoch, u.toEpoch))
  }

  ghost predicate Following(c: Config, log: seq<Entry>, replica: Option<Table>) {
    && replica.Some? && replica.value.id == c.tableId && replica.value.epoch <= |log|
    && (Faithful(c, log) ==> InSync(c, log, replica.value))
  }

  ghost predicate SpeakerInv(c: Config, s: State) {
    && s.speaker.epoch == |s.speaker.log|
    && s.speaker.lastSent <= s.speaker.epoch
    && (s.reading.Some? ==> s.speaker.lastSent <= s.reading.value <= s.speaker.epoch)
    && (forall range :: range in s.creating ==> range.0 <= range.1 <= s.speaker.epoch)
    && Adjacent(s.speaker.broadcasts, s.speaker.lastSent)
    && (forall u :: u in s.updates ==> Sent(c, s.speaker.log, u))
  }

  ghost predicate Inv(c: Config, s: State) {
    SpeakerInv(c, s) && (s.replica == c.before || Following(c, s.speaker.log, s.replica))
  }

  lemma {:induction false} GrowingLogKeepsSegments(address: Text, log: seq<Entry>, e: Entry, from: nat, to: nat)
    requires from <= to <= |log|
    ensures FullSegment(address, log + [e], from, to) == FullSegment(address, log, from, to)
    ensures Full(address, log + [e])[..to + 1] == Full(address, log)[..to + 1]
  {
  }

  /** A prefix of a faithful log is faithful. */
  lemma {:induction false} FaithfulShrinks(c: Config, log: seq<Entry>, e: Entry)
    requires Faithful(c, log + [e])
    ensures Faithful(c, log)
  {
    forall epoch: nat, to: nat, p |
        epoch <= to <= |log| && p in Target(c, log, epoch)
      ensures !Stale(c.keep, FullSegment(c.address, log, epoch, to), p)
    {
      GrowingLogKeepsSegments(c.address, log, e, epoch, to);
      GrowingLogKeepsSegments(c.address, log, e, epoch, epoch);
      assert p in Target(c, log + [e], epoch);
    }
  }

  /** What is in sync with a log is in sync with what it grows to. */
  lemma {:induction false} SyncGrows(c: Config, log: seq<Entry>, e: Entry, t: Table)
    requires InSync(c, log, t)
    ensures InSync(c, log + [e], t)
  {
    GrowingLogKeepsSegments(c.address, log, e, 0, t.epoch);
  }

  lemma {:induction false} SentGrows(c: Config, log: seq<Entry>, e: Entry, u: RouteUpdate)
    requires Sent(c, log, u)
    ensures Sent(c, log + [e], u)
  {
    GrowingLogKeepsSegments(c.address, log, e, u.fromEpoch, u.toEpoch);
  }

  lemma {:induction false} CommitKeepsInv(c: Config, s: State, e: Entry)
    requires SpeakerInv(c, s)
    ensures SpeakerInv(c, Next(c, s, Commit(e)))
  {
    var log, s' := s.speaker.log, Next(c, s, Commit(e));
    forall u | u in s'.updates ensures Sent(c, s'.speaker.log, u) {
      SentGrows(c, log, e, u);
    }
  }

  lemma {:induction false} CommitKeepsFollowing(c: Config, log: seq<Entry>, e: Entry, replica: Option<Table>)
    requires Following(c, log, replica)
    ensures Following(c, log + [e], replica)
  {
    if Faithful(c, log + [e]) {
      FaithfulShrinks(c, log, e);
      SyncGrows(c, log, e, replica.value);
    }
  }

  lemma {:induction false} CreatedIsSent(c: Config, s: Speaker, range: (nat, nat), current: nat)
    requires range.0 <= range.1 <= |s.log|
    ensures Sent(c, s.log, Created(c, s, range, current))
  {
    UpdateIsMergedSegment(c.tableId, current, c.address, s.log, range.0, range.1);
  }

  lemma {:induction false} SwapKeepsInv(c: Config, s: State)
    requires SpeakerInv(c, s)
    ensures SpeakerInv(c, Next(c, s, Swap))
  {
    if s.reading.Some? {
      var range := (s.speaker.lastSent, s.reading.value);
      assert (s.speaker.broadcasts + [range])[..|s.speaker.broadcasts|] == s.speaker.broadcasts;
    }
  }

  lemma {:induction false} CreateKeepsInv(c: Config, s: State, range: (nat, nat), current: nat)
    requires SpeakerInv(c, s)
    ensures SpeakerInv(c, Next(c, s, Create(range, current)))
  {
    if range in s.creating {
      CreatedIsSent(c, s.speaker, range, current);
    }
  }

  /** The first update that a replica receives under a new table id. */
  lemma {:induction false} FirstReceive(c: Config, log: seq<Entry>, u: RouteUpdate)
    requires c.Restarted() && Sent(c, log, u)
    ensures Following(c, log, Some(Receive(c, c.before, u)))
    ensures u.fromEpoch == 0 ==> Receive(c, c.before, u).epoch == u.toEpoch
    ensures u.fromEpoch > 0 ==> Receive(c, c.before, u) == Table(c.tableId, 0, c.Leftover())
  {
    if u.fromEpoch == 0 {
      var segment := FullSegment(c.address, log, 0, u.toEpoch);
      assert Receive(c, c.before, u).routes ==
             AppliedEntry(c.Leftover(), c.account, Filtered(c.keep, MergeLog(NOTHING, segment)));
      FilterCommutesWithCompaction(c.Leftover(), c.account, c.keep, segment);
      if Faithful(c, log) {
        forall p | p in c.Leftover() ensures !Stale(c.keep, segment, p) {
          LeftoverHeld(c, log, p);
        }
      }
    }
  }

  /** The own route takes nothing away. */
  lemma {:induction false} LeftoverHeld(c: Config, log: seq<Entry>, p: Text)
    requires p in c.Leftover()
    ensures p in Target(c, log, 0)
  {
    var own := [Entry([OwnRoute(c.address)], [])];
    assert Full(c.address, log)[..1] == own;
    ReplayAt(c.Leftover(), c.account, FilteredLog(c.keep, own), p);
    FilteredEffect(c.keep, own, p);
    assert own[..0] == [] && !WithdrawnIn(own, p);
  }

  /** Receiving any update ever sent keeps a replica in sync. */
  lemma {:induction false} ReceiveKeepsSync(c: Config, log: seq<Entry>, replica: Option<Table>, u: RouteUpdate)
    requires Sent(c, log, u) && Following(c, log, replica)
    ensures Following(c, log, Some(Receive(c, replica, u)))
  {
    var before, after := replica.value, Receive(c, replica, u);
    if Faithful(c, log) && u.fromEpoch <= before.epoch <= u.toEpoch {
      var segment := FullSegment(c.address, log, u.fromEpoch, u.toEpoch);
      assert after.routes == AppliedEntry(before.routes, c.account, Filtered(c.keep, MergeLog(NOTHING, segment)));
      forall p | p in before.routes ensures !Stale(c.keep, segment, p) {
        if before.epoch == 0 && before.routes == c.Leftover() {
          LeftoverHeld(c, log, p);
        }
        FaithfulToAll(c, log, u.fromEpoch, before.epoch, u.toEpoch, p);
      }
      if before.epoch == 0 && before.routes == c.Leftover() {
        FilterCommutesWithCompaction(c.Leftover(), c.account, c.keep, segment);
      } else {
        UpdateAdvances(c.Leftover(), c.keep, c.account, c.address, log, u.fromEpoch, before.epoch, u.toEpoch);
      }
    }
  }

  lemma {:induction false} NextKeepsSpeaker(c: Config, s: State, step: Step)
    requires SpeakerInv(c, s)
    ensures SpeakerInv(c, Next(c, s, step))
  {
    match step
    case Commit(e) => CommitKeepsInv(c, s, e);
    case Swap => SwapKeepsInv(c, s);
    case Create(range, current) => CreateKeepsInv(c, s, range, current);
    case _ =>
  }

  lemma {:induction false} RunKeepsSpeaker(c: Config, steps: seq<Step>)
    ensures SpeakerInv(c, After(c, steps))
  {
    if steps != [] {
      RunKeepsSpeaker(c, steps[..|steps| - 1]);
      NextKeepsSpeaker(c, After(c, steps[..|steps| - 1]), steps[|steps| - 1]);
    }
  }

  lemma {:induction false} NextKeepsInv(c: Config, s: State, step: Step)
    requires c.Restarted() && Inv(c, s)
    ensures Inv(c, Next(c, s, step))
  {
    NextKeepsSpeaker(c, s, step);
    match step
    case Commit(e) =>
      if s.replica != c.before {
        CommitKeepsFollowing(c, s.speaker.log, e, s.replica);
      }
    case Deliver(u) =>
      if u in s.updates {
        if s.replica == c.before {
          FirstReceive(c, s.speaker.log, u);
        } else {
          ReceiveKeepsSync(c, s.speaker.log, s.replica, u);
        }
      }
    case _ =>
  }

  lemma {:induction false} RunKeepsInv(c: Config, steps: seq<Step>)
    requires c.Restarted()
    ensures Inv(c, After(c, steps))
  {
    if steps != [] {
      RunKeepsInv(c, steps[..|steps| - 1]);
      NextKeepsInv(c, After(c, steps[..|steps| - 1]), steps[|steps| - 1]);
    }
  }

  // ---- The theorems ----

  /** Replica convergence: whatever is lost, repeated or reordered, a replica at epoch e holds exactly
      the own route and the replay of epochs 0..e, over what was left from before a restart, or it has accepted
      nothing yet. */
  lemma {:induction false} ReplicaConverges(c: Config, steps: seq<Step>)
    requires c.Restarted()
    ensures var s := After(c, steps); Faithful(c, s.speaker.log) ==> Synced(c, s.speaker.log, s.replica)
  {
    RunKeepsInv(c, steps);
  }

  /** Log discipline: one log entry per epoch, and the broadcasts so far cover each epoch below the
      last one sent exactly once, and no other. */
  lemma {:induction false} LogDiscipline(c: Config, steps: seq<Step>, k: nat)
    ensures var s := After(c, steps).speaker;
            && s.epoch == |s.log|
            && s.lastSent <= s.epoch
            && (k < s.lastSent <==> exists i :: 0 <= i < |s.broadcasts| && s.broadcasts[i].0 <= k < s.broadcasts[i].1)
            && (forall i, j :: 0 <= i < j < |s.broadcasts| ==> s.broadcasts[i].1 <= s.broadcasts[j].0)
  {
    RunKeepsSpeaker(c, steps);
    AdjacentCovers(After(c, steps).speaker.broadcasts, After(c, steps).speaker.lastSent, k);
  }

  /** A broadcast that no commit interrupts has sent, when it has swapped, everything that was committed. */
  lemma {:induction false} BroadcastCatchesUp(c: Config, steps: seq<Step>)
    ensures var s := After(c, steps);
            var s' := Next(c, Next(c, s, ReadEpoch), Swap);
            s.reading.None? ==>
              && s'.speaker.lastSent == |s.speaker.log| && (s.speaker.lastSent, |s.speaker.log|) in s'.creating
              && s'.reading.None?
  {
    RunKeepsSpeaker(c, steps);
  }

  lemma {:induction false} AdjacentCovers(b: seq<(nat, nat)>, end: nat, k: nat)
    requires Adjacent(b, end)
    ensures k < end <==> exists i :: 0 <= i < |b| && b[i].0 <= k < b[i].1
    ensures forall i :: 0 <= i < |b| ==> b[i].0 <= b[i].1 <= end
    ensures forall i, j :: 0 <= i < j < |b| ==> b[i].1 <= b[j].0
  {
    if b != [] {
      var front := b[..|b| - 1];
      AdjacentCovers(front, b[|b| - 1].0, k);
      assert forall i :: 0 <= i < |front| ==> b[i] == front[i];
      if k < b[|b| - 1].0 {
        var i :| 0 <= i < |front| && front[i].0 <= k < front[i].1;
        assert b[i].0 <= k < b[i].1;
      } else if k < end {
        assert b[|b| - 1].0 <= k < b[|b| - 1].1;
      }
    }
  }

  lemma {:induction false} LogGrows(c: Config, steps: seq<Step>, more: seq<Step>)
    ensures After(c, steps).speaker.log <= After(c, steps + more).speaker.log
  {
    if more == [] {
      assert steps + more == steps;
    } else {
      LogGrows(c, steps, more[..|more| - 1]);
      assert (steps + more)[..|steps + more| - 1] == steps + more[..|more| - 1];
    }
  }

  /** Exactly the Sync requests that the replica made are answered, from its last known epoch if it knows the table,
      and otherwise from the beginning. */
  lemma {:induction false} AnsweredExactly(c: Config, steps: seq<Step>, control: RouteControl)
    ensures var s := After(c, steps);
            var from: nat := if control.lastKnownTableId != c.tableId then 0 else control.lastKnownEpoch;
            Next(c, s, Answer(control)) ==
            if control in s.controls && control.mode == Sync
            then s.(creating := s.creating + {(Min(from, |s.speaker.log|), |s.speaker.log|)}) else s
  {
    RunKeepsSpeaker(c, steps);
  }

  /** The range that answers the control request of a replica. */
  function Asked(c: Config, s: State): (range: (nat, nat))
    requires s.replica.Some?
  {
    AnswerRange(c.tableId, s.speaker.epoch, Requested(s.replica, false))
  }

  /** Gap recovery: an update with a gap leaves the replica as it was. The answer to the control request
      that the replica then sends, whatever else happens before it is created, starts where the replica is and is
      accepted if the replica has not moved. It brings it to the epoch and the routes that the speaker had when
      it answered. A replica from before a restart is answered from the beginning. */
  lemma {:induction false} GapRecovery(c: Config, steps: seq<Step>, more: seq<Step>, u: RouteUpdate, current: nat)
    requires c.Restarted()
    ensures var s, later := After(c, steps), After(c, steps + more);
            s.replica.Some? && later.replica == s.replica ==>
              var t, answer := s.replica.value, Created(c, later.speaker, Asked(c, s), current);
              var t' := Receive(c, later.replica, answer);
              && (u in s.updates && t.id == c.tableId && u.fromEpoch > t.epoch ==> Receive(c, s.replica, u) == t)
              && answer.fromEpoch == (if t.id == c.tableId then t.epoch else 0)
              && t'.id == c.tableId && t'.epoch == s.speaker.epoch <= |later.speaker.log|
              && (Faithful(c, later.speaker.log) ==> t'.routes == Target(c, later.speaker.log, s.speaker.epoch))
  {
    var s, later := After(c, steps), After(c, steps + more);
    RunKeepsInv(c, steps);
    RunKeepsInv(c, steps + more);
    LogGrows(c, steps, more);
    if s.replica.Some? && later.replica == s.replica {
      CreatedIsSent(c, later.speaker, Asked(c, s), current);
      AnswerReaches(c, later.speaker.log, s.replica, Created(c, later.speaker, Asked(c, s), current));
    }
  }

  /** An update that starts where the replica is brings it to its end. */
  lemma {:induction false} AnswerReaches(c: Config, log: seq<Entry>, replica: Option<Table>, u: RouteUpdate)
    requires c.Restarted() && Sent(c, log, u) && replica.Some?
    requires replica == c.before || Following(c, log, replica)
    requires u.fromEpoch == if replica.value.id == c.tableId then replica.value.epoch else 0
    ensures var t := Receive(c, replica, u);
            && t.id == c.tableId && t.epoch == u.toEpoch
            && (Faithful(c, log) ==> t.routes == Target(c, log, u.toEpoch))
  {
    if replica == c.before {
      FirstReceive(c, log, u);
    } else {
      ReceiveKeepsSync(c, log, replica, u);
    }
    if Faithful(c, log) && u.toEpoch == 0 {
      FreshReceive(c, log, replica, u);
    }
  }

  /** Even the empty update of epoch 0 carries the own route. */
  lemma {:induction false} FreshReceive(c: Config, log: seq<Entry>, replica: Option<Table>, u: RouteUpdate)
    requires c.Restarted() && Sent(c, log, u) && u.toEpoch == 0 && Faithful(c, log)
    requires replica == c.before || (Following(c, log, replica) && replica.value.epoch == 0)
    ensures Receive(c, replica, u).routes == Target(c, log, 0)
  {
    var segment := FullSegment(c.address, log, 0, 0);
    EpochZeroIsNotStale(c, log);
    if replica == c.before || replica.value.routes == c.Leftover() {
      FilterCommutesWithCompaction(c.Leftover(), c.account, c.keep, segment);
    } else {
      UpdateAdvances(c.Leftover(), c.keep, c.account, c.address, log, 0, 0, 0);
    }
  }

  lemma {:induction false} EpochZeroIsNotStale(c: Config, log: seq<Entry>)
    ensures forall p :: !Stale(c.keep, FullSegment(c.address, log, 0, 0), p)
  {
    var own := [Entry([OwnRoute(c.address)], [])];
    assert own[..0] == [] && forall p :: !WithdrawnIn(own, p);
    assert FullSegment(c.address, log, 0, 0) == own;
  }

  // ---- What a restart leaves behind ----

  /** A route from before a restart stays for good, unless the new log withdraws its prefix or has an acceptable
      route for it. */
  lemma {:induction false} LeftoverStays(c: Config, log: seq<Entry>, epoch: nat, p: Text)
    requires epoch <= |log| && !WithdrawnIn(Full(c.address, log)[..epoch + 1], p)
    requires forall r :: AnnouncedIn(Full(c.address, log)[..epoch + 1], r) && r.prefix == p ==> !c.keep(r)
    ensures Get(Target(c, log, epoch), p) == Get(c.Leftover(), p)
  {
    var part := Full(c.address, log)[..epoch + 1];
    ReplayAt(c.Leftover(), c.account, FilteredLog(c.keep, part), p);
    FilteredEffect(c.keep, part, p);
    FilterMeaning(c.keep, MergeLog(NOTHING, part).added);
    var kept := Kept(c.keep, MergeLog(NOTHING, part), p);
    if kept.Announced? {
      MergedFrom(NOTHING, part, kept.route);
    }
  }

  // ---- When a log is faithful ----

  /** The peer's verdict on a route depends only on its prefix, over the routes of this log and those it has from
      before. */
  ghost predicate PrefixDetermined(c: Config, log: seq<Entry>) {
    && (forall r, r' | AnnouncedIn(Full(c.address, log), r) && AnnouncedIn(Full(c.address, log), r') ::
          r.prefix == r'.prefix ==> c.keep(r) == c.keep(r'))
    && (forall r | AnnouncedIn(Full(c.address, log), r) :: r.prefix in c.Leftover() ==> c.keep(r))
  }

  /** What a replica holds at `p`, other than from before, is an accepted route of the log. */
  lemma {:induction false} SnapshotHolds(c: Config, log: seq<Entry>, epoch: nat, p: Text) returns (r: Route)
    requires epoch <= |log| && p in Target(c, log, epoch) && p !in c.Leftover()
    ensures c.keep(r) && r.prefix == p && AnnouncedIn(Full(c.address, log), r)
  {
    var full := Full(c.address, log);
    var part := full[..epoch + 1];
    ReplayAt(c.Leftover(), c.account, FilteredLog(c.keep, part), p);
    FilteredEffect(c.keep, part, p);
    r := Kept(c.keep, MergeLog(NOTHING, part), p).route;
    FilterMeaning(c.keep, MergeLog(NOTHING, part).added);
    MergedFrom(NOTHING, part, r);
    var i :| 0 <= i < |part| && r in part[i].added;
    assert r in full[i].added;
  }

  /** All routes for a prefix that the replica holds are acceptable. */
  lemma {:induction false} HeldIsAcceptable(c: Config, log: seq<Entry>, epoch: nat, p: Text)
    requires PrefixDetermined(c, log) && epoch <= |log| && p in Target(c, log, epoch)
    ensures forall r :: AnnouncedIn(Full(c.address, log), r) && r.prefix == p ==> c.keep(r)
  {
    if p !in c.Leftover() {
      var held := SnapshotHolds(c, log, epoch, p);
    }
  }

  lemma {:induction false} AcceptableIsNotStale(c: Config, log: seq<Entry>, epoch: nat, to: nat, p: Text)
    requires epoch <= to <= |log|
    requires forall r :: AnnouncedIn(Full(c.address, log), r) && r.prefix == p ==> c.keep(r)
    ensures !Stale(c.keep, FullSegment(c.address, log, epoch, to), p)
  {
    var segment := FullSegment(c.address, log, epoch, to);
    forall r | r in MergeLog(NOTHING, segment).added && r.prefix == p ensures c.keep(r) {
      MergedFrom(NOTHING, segment, r);
      var i :| 0 <= i < |segment| && r in segment[i].added;
      assert r in Full(c.address, log)[i + if epoch == 0 then 0 else epoch + 1].added;
    }
    MergedWithdraws(segment, p);
  }

  /** Filters that judge by prefix alone, and filters that accept everything announced, are harmless. */
  lemma {:induction false} PrefixDeterminedIsFaithful(c: Config, log: seq<Entry>)
    requires PrefixDetermined(c, log)
    ensures Faithful(c, log)
  {
    forall epoch: nat, to: nat, p | epoch <= to <= |log| && p in Target(c, log, epoch)
      ensures !Stale(c.keep, FullSegment(c.address, log, epoch, to), p)
    {
      HeldIsAcceptable(c, log, epoch, p);
      AcceptableIsNotStale(c, log, epoch, to, p);
    }
  }

  // ---- Convergence holds exactly for faithful logs ----

  ghost predicate Reachable(c: Config, s: State) {
    exists steps :: After(c, steps) == s
  }

  lemma {:induction false} NextReachable(c: Config, s: State, step: Step)
    requires Reachable(c, s)
    ensures Reachable(c, Next(c, s, step))
  {
    var steps :| After(c, steps) == s;
    assert (steps + [step])[..|steps|] == steps;
    assert After(c, steps + [step]) == Next(c, s, step);
  }

  function Committed(s: State, entries: seq<Entry>): (s': State) {
    s.(speaker := s.speaker.(epoch := s.speaker.epoch + |entries|, log := s.speaker.log + entries))
  }

  lemma {:induction false} CommitAll(c: Config, s: State, entries: seq<Entry>)
    requires Reachable(c, s)
    ensures Reachable(c, Committed(s, entries))
  {
    if entries == [] {
      assert Committed(s, entries) == s;
    } else {
      var front, last := entries[..|entries| - 1], entries[|entries| - 1];
      CommitAll(c, s, front);
      NextReachable(c, Committed(s, front), Commit(last));
      assert entries == front + [last];
      assert Committed(s, entries) == Next(c, Committed(s, front), Commit(last));
    }
  }

  /** Where the answer to the replica's request begins. */
  function Known(c: Config, s: State): (epoch: nat) {
    if s.replica.None? || s.replica.value.id != c.tableId then 0 else s.replica.value.epoch
  }

  /** The replica's request, answered, created and delivered. */
  function Exchanged(c: Config, s: State): (s': State) {
    var range := (Known(c, s), s.speaker.epoch);
    var u := Created(c, s.speaker, range, s.speaker.epoch);
    s.(controls := s.controls + {Requested(s.replica, false)}, creating := s.creating + {range},
       replica := Some(Receive(c, s.replica, u)), updates := s.updates + {u})
  }

  lemma {:induction false} Exchange(c: Config, s: State)
    requires Reachable(c, s) && Known(c, s) <= s.speaker.epoch
    ensures Reachable(c, Exchanged(c, s))
  {
    var range, epoch, control := (Known(c, s), s.speaker.epoch), s.speaker.epoch, Requested(s.replica, false);
    var asking := Next(c, s, Request(false));
    var asked := Next(c, asking, Answer(control));
    var made := Next(c, asked, Create(range, epoch));
    NextReachable(c, s, Request(false));
    NextReachable(c, asking, Answer(control));
    assert AnswerRange(c.tableId, epoch, control) == range;
    NextReachable(c, asked, Create(range, epoch));
    NextReachable(c, made, Deliver(Created(c, s.speaker, range, epoch)));
  }

  lemma {:induction false} SegmentOfPrefix(c: Config, log: seq<Entry>, from: nat, to: nat)
    requires from <= to <= |log|
    ensures FullSegment(c.address, log[..to], from, to) == FullSegment(c.address, log, from, to)
  {
  }

  /** A first exchange brings a replica to the speaker's epoch. */
  lemma {:induction false} FirstExchange(c: Config, s: Speaker)
    requires c.Restarted() && s.epoch == |s.log|
    ensures Receive(c, c.before, Created(c, s, (0, s.epoch), s.epoch)) ==
            Table(c.tableId, s.epoch, Overlay(c, s.log, s.epoch))
  {
    CreatedIsSent(c, s, (0, s.epoch), s.epoch);
  }

  /** What a replica holds after a first update up to `epoch`. */
  function Overlay(c: Config, log: seq<Entry>, epoch: nat): (m: Routes)
    requires epoch <= |log|
  {
    AppliedEntry(c.Leftover(), c.account, Filtered(c.keep, MergeLog(NOTHING, FullSegment(c.address, log, 0, epoch))))
  }

  lemma {:induction false} LaterExchange(c: Config, s: Speaker, t: Table, from: nat)
    requires s.epoch == |s.log| && from <= t.epoch <= s.epoch && t.id == c.tableId
    ensures Receive(c, Some(t), Created(c, s, (from, s.epoch), s.epoch)) ==
            Table(c.tableId, s.epoch,
                  AppliedEntry(t.routes, c.account,
                               Filtered(c.keep, MergeLog(NOTHING, FullSegment(c.address, s.log, from, s.epoch)))))
  {
    CreatedIsSent(c, s, (from, s.epoch), s.epoch);
  }

  /** The replica has reached an epoch of the log. */
  lemma {:induction false} ReachEpoch(c: Config, log: seq<Entry>, epoch: nat) returns (s: State)
    requires c.Restarted() && epoch <= |log|
    ensures Reachable(c, s) && s.speaker.epoch == epoch && s.speaker.log == log[..epoch]
    ensures s.replica == Some(Table(c.tableId, epoch, Overlay(c, log, epoch)))
  {
    assert After(c, []) == Init(c);
    CommitAll(c, Init(c), log[..epoch]);
    var grown := Committed(Init(c), log[..epoch]);
    assert grown.speaker.log == log[..epoch];
    Exchange(c, grown);
    s := Exchanged(c, grown);
    FirstExchange(c, grown.speaker);
    SegmentOfPrefix(c, log, 0, epoch);
  }

  /** The speaker commits the log from one epoch to another. */
  lemma {:induction false} GrowTo(c: Config, s: State, log: seq<Entry>, from: nat, to: nat) returns (s': State)
    requires Reachable(c, s) && from <= to <= |log| && s.speaker.epoch == from && s.speaker.log == log[..from]
    ensures Reachable(c, s') && s'.replica == s.replica
    ensures s'.speaker.epoch == to && s'.speaker.log == log[..to]
  {
    CommitAll(c, s, log[from..to]);
    s' := Committed(s, log[from..to]);
    assert log[..from] + log[from..to] == log[..to];
  }

  /** What an exchange leaves of a replica that has reached `epoch`. */
  lemma {:induction false} RangeExchanged(c: Config, s: State, log: seq<Entry>, epoch: nat, to: nat, routes: Routes)
    requires epoch <= to <= |log| && s.speaker.epoch == to && s.speaker.log == log[..to]
    requires s.replica == Some(Table(c.tableId, epoch, routes))
    ensures Exchanged(c, s).speaker == s.speaker
    ensures Exchanged(c, s).replica == Some(Table(c.tableId, to,
              AppliedEntry(routes, c.account,
                           Filtered(c.keep, MergeLog(NOTHING, FullSegment(c.address, log, epoch, to))))))
  {
    LaterExchange(c, s.speaker, s.replica.value, epoch);
    SegmentOfPrefix(c, log, epoch, to);
  }

  /** A replica at `epoch` has asked for what it misses, and been sent the epochs up to `to`. */
  lemma {:induction false} ExchangeAt(c: Config, log: seq<Entry>, epoch: nat, to: nat) returns (s: State)
    requires c.Restarted() && epoch <= to <= |log|
    ensures Reachable(c, s) && s.speaker.log == log
    ensures s.replica == Some(Table(c.tableId, to,
              AppliedEntry(Overlay(c, log, epoch), c.account,
                           Filtered(c.keep, MergeLog(NOTHING, FullSegment(c.address, log, epoch, to))))))
  {
    var reached := ReachEpoch(c, log, epoch);
    var grown := GrowTo(c, reached, log, epoch, to);
    Exchange(c, grown);
    RangeExchanged(c, grown, log, epoch, to, Overlay(c, log, epoch));
    s := GrowTo(c, Exchanged(c, grown), log, to, |log|);
    assert log[..|log|] == log;
  }

  /** A replica that its first update has brought out of sync. */
  lemma {:induction false} FirstOutOfSync(c: Config, log: seq<Entry>, epoch: nat) returns (s: State)
    requires c.Restarted() && epoch <= |log| && Overlay(c, log, epoch) != Target(c, log, epoch)
    ensures Reachable(c, s) && s.speaker.log == log && !Synced(c, log, s.replica)
  {
    var reached := ReachEpoch(c, log, epoch);
    s := GrowTo(c, reached, log, epoch, |log|);
    assert log[..|log|] == log;
    FilterCommutesWithCompaction(c.Leftover(), c.account, c.keep, FullSegment(c.address, log, 0, epoch));
    EpochZeroIsNotStale(c, log);
  }

  /** A replica that a later update has brought out of sync. */
  lemma {:induction false} LaterOutOfSync(c: Config, log: seq<Entry>, epoch: nat, to: nat, p: Text) returns (s: State)
    requires c.Restarted() && epoch <= to <= |log| && Overlay(c, log, epoch) == Target(c, log, epoch)
    requires p in Target(c, log, epoch) && Stale(c.keep, FullSegment(c.address, log, epoch, to), p)
    ensures Reachable(c, s) && s.speaker.log == log && !Synced(c, log, s.replica)
  {
    s := ExchangeAt(c, log, epoch, to);
    EpochZeroIsNotStale(c, log);
    UpdateAdvances(c.Leftover(), c.keep, c.account, c.address, log, epoch, epoch, to);
  }

  /** Every state that a speaker can reach by writing this log has its replica in sync, if and only if
      the log is faithful for the peer's filter. */
  lemma {:induction false} ConvergesIffFaithful(c: Config, log: seq<Entry>)
    requires c.Restarted()
    ensures Faithful(c, log) <==> forall s :: Reachable(c, s) && s.speaker.log == log ==> Synced(c, log, s.replica)
  {
    if Faithful(c, log) {
      forall s | Reachable(c, s) && s.speaker.log == log ensures Synced(c, log, s.replica) {
        var steps :| After(c, steps) == s;
        ReplicaConverges(c, steps);
      }
    } else {
      var epoch: nat, to: nat, p :|
        epoch <= to <= |log| && p in Target(c, log, epoch) && Stale(c.keep, FullSegment(c.address, log, epoch, to), p);
      if Overlay(c, log, epoch) == Target(c, log, epoch) {
        var s := LaterOutOfSync(c, log, epoch, to, p);
      } else {
        var s := FirstOutOfSync(c, log, epoch);
      }
    }
  }

  /** Without a filter, and with one that judges by prefix alone, every run keeps the replica in sync. */
  lemma {:induction false} AlwaysConverges(c: Config, steps: seq<Step>)
    requires c.Restarted() && PrefixDetermined(c, After(c, steps).speaker.log)
    ensures var s := After(c, steps); Synced(c, s.speaker.log, s.replica)
  {
    PrefixDeterminedIsFaithful(c, After(c, steps).speaker.log);
    ReplicaConverges(c, steps);
  }
}
