/** One speaker, its log, and a peer's replica of it, over a network that loses, repeats and reorders. */
module Replication {
  import opened Basics
  import opened CcpMessages
  import opened RoutingTables
  import opened RouteLog

  function OwnRoute(address: Text): (r: Route) {
    Route(address, [], ZeroAuth(), [])
  }

  const NOTHING := Entry([], [])

  /** The epochs from `from` up to `to`, as `skip` and `take` cut them out of the log. */
  function Segment(log: seq<Entry>, from: nat, to: nat): (s: seq<Entry>) {
    log[Min(from, |log|)..Min(Max(from, to), |log|)]
  }

  /** The update a speaker creates for an epoch range; the first one also carries its own address. */
  function UpdateMessage(tableId: Bytes, epoch: nat, address: Text, log: seq<Entry>, from: nat, to: nat)
    : (u: RouteUpdate)
  {
    var own := if from == 0 then Entry([OwnRoute(address)], []) else NOTHING;
    var merged := MergeLog(own, Segment(log, from, to));
    RouteUpdate(tableId, epoch, from, to, DEFAULT_ROUTE_EXPIRY_TIME, address, merged.added, merged.withdrawn)
  }

  // ---- The log with the speaker's own route as its first entry, and the receiver's filter ----

  function Full(address: Text, log: seq<Entry>): (l: seq<Entry>) {
    [Entry([OwnRoute(address)], [])] + log
  }

  function Filtered(keep: Route -> bool, e: Entry): (f: Entry) {
    Entry(Filter(keep, e.added), e.withdrawn)
  }

  function FilteredLog(keep: Route -> bool, log: seq<Entry>): (l: seq<Entry>) {
    seq(|log|, i requires 0 <= i < |log| => Filtered(keep, log[i]))
  }

  /** What a replica at `epoch` that held `base` at first should hold: the own route over that, then the accepted
      part of each epoch. */
  function Snapshot(base: Routes, keep: Route -> bool, account: Account, address: Text, log: seq<Entry>, epoch: nat)
    : (m: Routes)
    requires epoch <= |log|
  {
    ReplayLog(base, account, FilteredLog(keep, Full(address, log)[..epoch + 1]))
  }

  // ---- Filtering and compaction ----

  /** Some epoch of the log withdraws `p`. */
  predicate WithdrawnIn(log: seq<Entry>, p: Text) {
    log != [] && (WithdrawnIn(log[..|log| - 1], p) || p in log[|log| - 1].withdrawn)
  }

  /** A withdrawal of `p` that compaction drops because `p` was added back, though the receiver
      accepts none of the routes that add it back. */
  ghost predicate Stale(keep: Route -> bool, log: seq<Entry>, p: Text) {
    var merged := MergeLog(NOTHING, log);
    && WithdrawnIn(log, p)
    && p !in merged.withdrawn
    && forall r :: r in merged.added && r.prefix == p ==> !keep(r)
  }

  lemma {:induction false} AdditionsConcat(a: seq<Route>, b: seq<Route>, p: Text)
    ensures Additions(a + b, p) == Additions(a, p).Then(Additions(b, p))
  {
    if b == [] {
      assert a + b == a;
    } else {
      AdditionsConcat(a, b[..|b| - 1], p);
      assert (a + b)[..|a + b| - 1] == a + b[..|b| - 1];
    }
  }

  /** The accepted routes for `p` that an update still announces. */
  function Kept(keep: Route -> bool, e: Entry, p: Text): (r: Effect) {
    Additions(Filter(keep, e.added), p)
  }

  lemma {:induction false} AcceptedConcat(keep: Route -> bool, a: seq<Route>, b: seq<Route>, p: Text)
    ensures Additions(Filter(keep, a + b), p) == Additions(Filter(keep, a), p).Then(Additions(Filter(keep, b), p))
  {
    FilterConcat(keep, a, b);
    AdditionsConcat(Filter(keep, a), Filter(keep, b), p);
  }

  lemma {:induction false} MergedAdditions(acc: Entry, rs: seq<Route>)
    ensures MergeAdds(acc, rs).added == acc.added + rs
  {
    if rs != [] {
      MergedAdditions(acc, rs[..|rs| - 1]);
      assert rs == rs[..|rs| - 1] + [rs[|rs| - 1]];
    }
  }

  lemma {:induction false} KeptAdds(keep: Route -> bool, acc: Entry, rs: seq<Route>, p: Text)
    ensures Kept(keep, MergeAdds(acc, rs), p) == Kept(keep, acc, p).Then(Additions(Filter(keep, rs), p))
  {
    MergedAdditions(acc, rs);
    AcceptedConcat(keep, acc.added, rs, p);
  }

  lemma {:induction false} KeptWithdraws(keep: Route -> bool, acc: Entry, ws: seq<Text>, p: Text)
    ensures Kept(keep, MergeWithdraws(acc, ws), p) == if p in ws then Silent else Kept(keep, acc, p)
  {
    if ws != [] {
      var w := ws[|ws| - 1];
      var before := MergeWithdraws(acc, ws[..|ws| - 1]);
      KeptWithdraws(keep, acc, ws[..|ws| - 1], p);
      FilterCommutes(keep, (r: Route) => r.prefix != w, before.added);
      AdditionsWithout(Filter(keep, before.added), w, p);
    }
  }

  lemma {:induction false} FilteredNext(keep: Route -> bool, log: seq<Entry>, p: Text)
    requires log != []
    ensures LogEffect(FilteredLog(keep, log), p) ==
            LogEffect(FilteredLog(keep, log[..|log| - 1]), p).Then(EpochEffect(Filtered(keep, log[|log| - 1]), p))
  {
    var filtered := FilteredLog(keep, log);
    assert filtered[..|log| - 1] == FilteredLog(keep, log[..|log| - 1]);
  }

  lemma {:induction false} KeptNext(keep: Route -> bool, log: seq<Entry>, p: Text)
    requires log != []
    ensures var last := log[|log| - 1];
            Kept(keep, MergeLog(NOTHING, log), p) ==
            if p in last.withdrawn then Silent
            else Kept(keep, MergeLog(NOTHING, log[..|log| - 1]), p).Then(Additions(Filter(keep, last.added), p))
  {
    var merged, last := MergeLog(NOTHING, log[..|log| - 1]), log[|log| - 1];
    KeptAdds(keep, merged, last.added, p);
    KeptWithdraws(keep, MergeAdds(merged, last.added), last.withdrawn, p);
  }

  /** Replaying the accepted routes announces what the merged update still announces of them, and
      removes `p` exactly when some epoch withdrew it and nothing accepted came after. */
  lemma {:induction false} FilteredEffect(keep: Route -> bool, log: seq<Entry>, p: Text)
    ensures var kept := Kept(keep, MergeLog(NOTHING, log), p);
            LogEffect(FilteredLog(keep, log), p) ==
            if kept.Announced? then kept else if WithdrawnIn(log, p) then Removed else Silent
  {
    if log != [] {
      FilteredEffect(keep, log[..|log| - 1], p);
      FilteredNext(keep, log, p);
      KeptNext(keep, log, p);
    }
  }

  lemma {:induction false} FilterNothing(log: seq<Entry>)
    ensures FilteredLog(_ => true, log) == log
  {
    forall i | 0 <= i < |log| ensures Filtered(_ => true, log[i]) == log[i] {
      FilterAll(_ => true, log[i].added);
    }
  }

  /** The merged update withdraws `p` exactly when some epoch did and nothing added it back. */
  lemma {:induction false} MergedWithdraws(log: seq<Entry>, p: Text)
    ensures p in MergeLog(NOTHING, log).withdrawn <==>
            WithdrawnIn(log, p) && forall r :: r in MergeLog(NOTHING, log).added ==> r.prefix != p
  {
    var merged := MergeLog(NOTHING, log);
    FilterNothing(log);
    FilterAll(_ => true, merged.added);
    FilteredEffect(_ => true, log, p);
    MergedAt(NOTHING, log, p);
    MergedDisjoint(NOTHING, log);
  }

  /** Filtering after compaction and before it agree at `p` unless a withdrawal of it was lost. */
  lemma {:induction false} FilterAt(keep: Route -> bool, log: seq<Entry>, p: Text)
    ensures var merged := UpdateEffect(Filtered(keep, MergeLog(NOTHING, log)), p);
            var replayed := LogEffect(FilteredLog(keep, log), p);
            if Stale(keep, log, p) then merged == Silent && replayed == Removed else merged == replayed
  {
    FilteredEffect(keep, log, p);
    MergedWithdraws(log, p);
    FilterMeaning(keep, MergeLog(NOTHING, log).added);
  }

  /** `filter_routes` commutes with compaction on table `m` exactly when `m` holds no stale prefix. */
  lemma {:induction false} FilterCommutesWithCompaction(m: Routes, account: Account, keep: Route -> bool,
      log: seq<Entry>)
    ensures AppliedEntry(m, account, Filtered(keep, MergeLog(NOTHING, log)))
              == ReplayLog(m, account, FilteredLog(keep, log))
            <==> forall p :: p in m ==> !Stale(keep, log, p)
  {
    var merged := AppliedEntry(m, account, Filtered(keep, MergeLog(NOTHING, log)));
    var replayed := ReplayLog(m, account, FilteredLog(keep, log));
    forall p ensures Get(merged, p) == Get(replayed, p) <==> !(p in m && Stale(keep, log, p)) {
      FilterAt(keep, log, p);
      AppliedAt(m, account, Filtered(keep, MergeLog(NOTHING, log)), p);
      ReplayAt(m, account, FilteredLog(keep, log), p);
    }
    if forall p :: p in m ==> !Stale(keep, log, p) {
      SameRoutes(merged, replayed);
    }
  }

  // ---- Overlapping updates ----

  lemma {:induction false} FilteredLogConcat(keep: Route -> bool, a: seq<Entry>, b: seq<Entry>)
    ensures FilteredLog(keep, a + b) == FilteredLog(keep, a) + FilteredLog(keep, b)
  {
  }

  /** Replaying a log over a table that already holds part of it changes nothing more. */
  lemma {:induction false} ReplayOverlap(m: Routes, account: Account, a: seq<Entry>, b: seq<Entry>, c: seq<Entry>)
    ensures ReplayLog(ReplayLog(m, account, a + b), account, b + c) == ReplayLog(m, account, a + b + c)
  {
    var overlapped := ReplayLog(ReplayLog(m, account, a + b), account, b + c);
    var straight := ReplayLog(m, account, a + b + c);
    forall p ensures Get(overlapped, p) == Get(straight, p) {
      ReplayAt(m, account, a + b, p);
      ReplayAt(ReplayLog(m, account, a + b), account, b + c, p);
      ReplayAt(m, account, a + b + c, p);
      LogEffectConcat(a, b, p);
      LogEffectConcat(b, c, p);
      LogEffectConcat(a + b, c, p);
    }
    SameRoutes(overlapped, straight);
  }

  lemma {:induction false} MergeConcat(acc: Entry, a: seq<Entry>, b: seq<Entry>)
    ensures MergeLog(acc, a + b) == MergeLog(MergeLog(acc, a), b)
  {
    if b == [] {
      assert a + b == a;
    } else {
      MergeConcat(acc, a, b[..|b| - 1]);
      assert (a + b)[..|a + b| - 1] == a + b[..|b| - 1];
    }
  }

  /** The epochs `from`..`to` of the full log; range 0 starts before the own route. */
  function FullSegment(address: Text, log: seq<Entry>, from: nat, to: nat): (s: seq<Entry>)
    requires from <= to <= |log|
  {
    Full(address, log)[(if from == 0 then 0 else from + 1)..to + 1]
  }

  lemma {:induction false} UpdateIsMergedSegment(tableId: Bytes, epoch: nat, address: Text, log: seq<Entry>,
      from: nat, to: nat)
    requires from <= to <= |log|
    ensures var merged := MergeLog(NOTHING, FullSegment(address, log, from, to));
            UpdateMessage(tableId, epoch, address, log, from, to) ==
            RouteUpdate(tableId, epoch, from, to, 30000, address, merged.added, merged.withdrawn)
  {
    if from == 0 {
      var own := Entry([OwnRoute(address)], []);
      assert FullSegment(address, log, from, to) == [own] + Segment(log, from, to);
      MergeConcat(NOTHING, [own], Segment(log, from, to));
      assert [own][..0] == [] && own.added[..0] == [] && [] + own.added == own.added;
      assert MergeLog(NOTHING, [own]) == MergeWithdraws(MergeAdds(NOTHING, own.added), []);
      assert MergeAdds(NOTHING, own.added) == own;
    } else {
      assert FullSegment(address, log, from, to) == Segment(log, from, to);
    }
  }

  /** A log up to an epoch, and an update that reaches back before it, in three parts. */
  lemma {:induction false} InParts(address: Text, log: seq<Entry>, from: nat, epoch: nat, to: nat)
    returns (a: seq<Entry>, b: seq<Entry>, c: seq<Entry>)
    requires from <= epoch <= to <= |log|
    ensures Full(address, log)[..epoch + 1] == a + b && Full(address, log)[..to + 1] == a + b + c
    ensures FullSegment(address, log, from, to) == b + c
    ensures epoch > 0 ==> FullSegment(address, log, epoch, to) == c
  {
    var full := Full(address, log);
    var start := if from == 0 then 0 else from + 1;
    a, b, c := full[..start], full[start..epoch + 1], full[epoch + 1..to + 1];
    SplitSlice(full, 0, start, epoch + 1);
    SplitSlice(full, 0, epoch + 1, to + 1);
    SplitSlice(full, start, epoch + 1, to + 1);
  }

  lemma {:induction false} AdvanceBy(base: Routes, keep: Route -> bool, account: Account,
      a: seq<Entry>, b: seq<Entry>, c: seq<Entry>)
    ensures var before := ReplayLog(base, account, FilteredLog(keep, a + b));
            AppliedEntry(before, account, Filtered(keep, MergeLog(NOTHING, b + c)))
              == ReplayLog(base, account, FilteredLog(keep, a + b + c))
            <==> forall p :: p in before ==> !Stale(keep, b + c, p)
  {
    FilteredLogConcat(keep, a, b);
    FilteredLogConcat(keep, a + b, c);
    FilteredLogConcat(keep, b, c);
    ReplayOverlap(base, account, FilteredLog(keep, a), FilteredLog(keep, b), FilteredLog(keep, c));
    FilterCommutesWithCompaction(ReplayLog(base, account, FilteredLog(keep, a + b)), account, keep, b + c);
  }

  /** Applying any update whose range reaches back to or before the replica's epoch, and not short of
      it, brings the replica to the end of the range, if no stale prefix is in the way. */
  lemma {:induction false} UpdateAdvances(base: Routes, keep: Route -> bool, account: Account, address: Text,
      log: seq<Entry>, from: nat, epoch: nat, to: nat)
    requires from <= epoch <= to <= |log|
    ensures AppliedEntry(Snapshot(base, keep, account, address, log, epoch), account,
                         Filtered(keep, MergeLog(NOTHING, FullSegment(address, log, from, to))))
              == Snapshot(base, keep, account, address, log, to)
            <==> forall p :: p in Snapshot(base, keep, account, address, log, epoch) ==>
                   !Stale(keep, FullSegment(address, log, from, to), p)
  {
    var a, b, c := InParts(address, log, from, epoch, to);
    AdvanceBy(base, keep, account, a, b, c);
  }

  // ---- Stale prefixes of overlapping updates ----

  /** A prefix is stale when the accepted routes leave nothing at it, though the log as a whole does. */
  lemma {:induction false} StaleMeaning(keep: Route -> bool, log: seq<Entry>, p: Text)
    ensures Stale(keep, log, p) <==> LogEffect(FilteredLog(keep, log), p) == Removed && LogEffect(log, p).Announced?
  {
    FilterAt(keep, log, p);
    FilteredEffect(keep, log, p);
    MergedWithdraws(log, p);
    MergedAt(NOTHING, log, p);
    FilterMeaning(keep, MergeLog(NOTHING, log).added);
  }

  lemma {:induction false} RemovedIsWithdrawn(keep: Route -> bool, log: seq<Entry>, p: Text)
    requires LogEffect(FilteredLog(keep, log), p) == Removed
    ensures !LogEffect(log, p).Silent?
  {
    FilteredEffect(keep, log, p);
    FilteredEffect(_ => true, log, p);
    FilterNothing(log);
  }

  /** If a prefix is not removed by `before + overlap`, what makes it stale lies behind that. */
  lemma {:induction false} StaleBehind(
      keep: Route -> bool, before: seq<Entry>, overlap: seq<Entry>, after: seq<Entry>, p: Text)
    requires !LogEffect(FilteredLog(keep, before + overlap), p).Removed?
    requires Stale(keep, overlap + after, p)
    ensures Stale(keep, after, p)
  {
    FilteredLogConcat(keep, before, overlap);
    FilteredLogConcat(keep, overlap, after);
    LogEffectConcat(FilteredLog(keep, before), FilteredLog(keep, overlap), p);
    LogEffectConcat(FilteredLog(keep, overlap), FilteredLog(keep, after), p);
    LogEffectConcat(overlap, after, p);
    StaleMeaning(keep, overlap + after, p);
    RemovedIsWithdrawn(keep, after, p);
    StaleMeaning(keep, after, p);
  }

  /** An update that reaches further back than needed has no stale prefix that the needed one has not. */
  lemma {:induction false} StaleFromEpoch(base: Routes, keep: Route -> bool, account: Account, address: Text,
      log: seq<Entry>, from: nat, epoch: nat, to: nat, p: Text)
    requires from <= epoch <= to <= |log| && p in Snapshot(base, keep, account, address, log, epoch)
    requires Stale(keep, FullSegment(address, log, from, to), p)
    ensures Stale(keep, FullSegment(address, log, epoch, to), p)
  {
    var a, b, c := InParts(address, log, from, epoch, to);
    if epoch > 0 {
      ReplayAt(base, account, FilteredLog(keep, a + b), p);
      StaleBehind(keep, a, b, c, p);
    }
  }
}
