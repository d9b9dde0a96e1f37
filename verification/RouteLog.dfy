/** The append-only log of forwarding-table changes and its compaction (`create_route_update`). */
module RouteLog {
  import opened Basics
  import opened CcpMessages
  import opened RoutingTables

  /** One epoch: routes added, then prefixes withdrawn. */
  datatype Entry = Entry(added: seq<Route>, withdrawn: seq<Text>)

  /** Merging one added route forgets an earlier withdrawal of its prefix. */
  function MergeAdd(acc: Entry, r: Route): (e: Entry) {
    Entry(acc.added + [r], Filter(p => p != r.prefix, acc.withdrawn))
  }

  /** Merging one withdrawal forgets the earlier routes for that prefix. */
  function MergeWithdraw(acc: Entry, w: Text): (e: Entry) {
    Entry(Filter((r: Route) => r.prefix != w, acc.added), acc.withdrawn + [w])
  }

  function MergeAdds(acc: Entry, rs: seq<Route>): (e: Entry) {
    if rs == [] then acc else MergeAdd(MergeAdds(acc, rs[..|rs| - 1]), rs[|rs| - 1])
  }

  function MergeWithdraws(acc: Entry, ws: seq<Text>): (e: Entry) {
    if ws == [] then acc else MergeWithdraw(MergeWithdraws(acc, ws[..|ws| - 1]), ws[|ws| - 1])
  }

  function MergeLog(acc: Entry, log: seq<Entry>): (e: Entry) {
    if log == [] then acc
    else
      var last := log[|log| - 1];
      MergeWithdraws(MergeAdds(MergeLog(acc, log[..|log| - 1]), last.added), last.withdrawn)
  }

  /** The meaning of one epoch on a table: add, then withdraw. */
  function Replayed(m: Routes, account: Account, e: Entry): (r: Routes) {
    Without(m + Inserted(account, e.added), e.withdrawn)
  }

  function ReplayLog(m: Routes, account: Account, log: seq<Entry>): (r: Routes) {
    if log == [] then m
    else Replayed(ReplayLog(m, account, log[..|log| - 1]), account, log[|log| - 1])
  }

  function AppliedEntry(m: Routes, account: Account, e: Entry): (r: Routes) {
    Applied(m, account, e.added, e.withdrawn)
  }

  // ---- What a change does to one prefix ----

  datatype Effect = Silent | Removed | Announced(route: Route) {
    /** This effect followed by `next`. */
    function Then(next: Effect): (e: Effect) {
      if next.Silent? then this else next
    }

    function On(account: Account, before: Option<Hop>): (after: Option<Hop>) {
      match this
      case Silent => before
      case Removed => None
      case Announced(route) => Some(Hop(account, route))
    }
  }

  function Get(m: Routes, p: Text): (hop: Option<Hop>) {
    if p in m then Some(m[p]) else None
  }

  lemma {:induction false} SameRoutes(x: Routes, y: Routes)
    requires forall p :: Get(x, p) == Get(y, p)
    ensures x == y
  {
    forall p ensures (p in x <==> p in y) && (p in x ==> x[p] == y[p]) {
      assert Get(x, p) == Get(y, p);
    }
  }

  function Additions(rs: seq<Route>, p: Text): (e: Effect)
    ensures !e.Removed?
    ensures e.Announced? ==> e.route in rs && e.route.prefix == p
    ensures e.Silent? <==> forall r :: r in rs ==> r.prefix != p
  {
    if rs == [] then Silent
    else if rs[|rs| - 1].prefix == p then Announced(rs[|rs| - 1])
    else Additions(rs[..|rs| - 1], p)
  }

  /** An epoch of the log adds and then withdraws; an update message withdraws and then adds. */
  function EpochEffect(e: Entry, p: Text): (r: Effect) {
    if p in e.withdrawn then Removed else Additions(e.added, p)
  }

  function UpdateEffect(e: Entry, p: Text): (r: Effect) {
    (if p in e.withdrawn then Removed else Silent).Then(Additions(e.added, p))
  }

  function LogEffect(log: seq<Entry>, p: Text): (r: Effect) {
    if log == [] then Silent
    else LogEffect(log[..|log| - 1], p).Then(EpochEffect(log[|log| - 1], p))
  }

  lemma {:induction false} InsertedAt(account: Account, rs: seq<Route>, p: Text)
    ensures Get(Inserted(account, rs), p) == Additions(rs, p).On(account, None)
  {
    if rs != [] {
      InsertedAt(account, rs[..|rs| - 1], p);
    }
  }

  lemma {:induction false} WithoutAt(m: Routes, ps: seq<Text>, p: Text)
    ensures Get(Without(m, ps), p) == if p in ps then None else Get(m, p)
  {
    assert p in (set q | q in ps) <==> p in ps;
  }

  lemma {:induction false} AppliedAt(m: Routes, account: Account, e: Entry, p: Text)
    ensures Get(AppliedEntry(m, account, e), p) == UpdateEffect(e, p).On(account, Get(m, p))
  {
    InsertedAt(account, e.added, p);
    WithoutAt(m, e.withdrawn, p);
  }

  lemma {:induction false} ReplayAt(m: Routes, account: Account, log: seq<Entry>, p: Text)
    ensures Get(ReplayLog(m, account, log), p) == LogEffect(log, p).On(account, Get(m, p))
  {
    if log != [] {
      var last := log[|log| - 1];
      var before := ReplayLog(m, account, log[..|log| - 1]);
      ReplayAt(m, account, log[..|log| - 1], p);
      InsertedAt(account, last.added, p);
      WithoutAt(before + Inserted(account, last.added), last.withdrawn, p);
    }
  }

  lemma {:induction false} AdditionsWithout(rs: seq<Route>, w: Text, p: Text)
    ensures Additions(Filter((r: Route) => r.prefix != w, rs), p) == if p == w then Silent else Additions(rs, p)
  {
    if rs != [] {
      var kept := Filter((r: Route) => r.prefix != w, rs[..|rs| - 1]);
      var last := rs[|rs| - 1];
      AdditionsWithout(rs[..|rs| - 1], w, p);
      if last.prefix != w {
        assert Filter((r: Route) => r.prefix != w, rs) == kept + [last];
        assert (kept + [last])[..|kept|] == kept;
      } else {
        assert Filter((r: Route) => r.prefix != w, rs) == kept;
      }
    }
  }

  lemma {:induction false} MergeAddsAt(acc: Entry, rs: seq<Route>, p: Text)
    ensures UpdateEffect(MergeAdds(acc, rs), p) == UpdateEffect(acc, p).Then(Additions(rs, p))
  {
    if rs != [] {
      var before := MergeAdds(acc, rs[..|rs| - 1]);
      MergeAddsAt(acc, rs[..|rs| - 1], p);
      FilterMeaning(q => q != rs[|rs| - 1].prefix, before.withdrawn);
      assert (before.added + [rs[|rs| - 1]])[..|before.added|] == before.added;
    }
  }

  lemma {:induction false} MergeWithdrawsAt(acc: Entry, ws: seq<Text>, p: Text)
    ensures UpdateEffect(MergeWithdraws(acc, ws), p) == if p in ws then Removed else UpdateEffect(acc, p)
  {
    if ws != [] {
      var w := ws[|ws| - 1];
      MergeWithdrawsAt(acc, ws[..|ws| - 1], p);
      AdditionsWithout(MergeWithdraws(acc, ws[..|ws| - 1]).added, w, p);
    }
  }

  /** The merged update does to each prefix what the epochs do to it in turn. */
  lemma {:induction false} MergedAt(acc: Entry, log: seq<Entry>, p: Text)
    ensures UpdateEffect(MergeLog(acc, log), p) == UpdateEffect(acc, p).Then(LogEffect(log, p))
  {
    if log != [] {
      var last := log[|log| - 1];
      var merged := MergeLog(acc, log[..|log| - 1]);
      MergedAt(acc, log[..|log| - 1], p);
      MergeAddsAt(merged, last.added, p);
      MergeWithdrawsAt(MergeAdds(merged, last.added), last.withdrawn, p);
    }
  }

  /** Compaction preserves meaning: applying the merged update is replaying every epoch in turn. */
  lemma {:induction false} CompactionPreservesMeaning(m: Routes, account: Account, acc: Entry, log: seq<Entry>)
    ensures AppliedEntry(m, account, MergeLog(acc, log)) == ReplayLog(AppliedEntry(m, account, acc), account, log)
  {
    var merged := AppliedEntry(m, account, MergeLog(acc, log));
    var replayed := ReplayLog(AppliedEntry(m, account, acc), account, log);
    forall p ensures Get(merged, p) == Get(replayed, p) {
      AppliedAt(m, account, MergeLog(acc, log), p);
      AppliedAt(m, account, acc, p);
      MergedAt(acc, log, p);
      ReplayAt(AppliedEntry(m, account, acc), account, log, p);
    }
    SameRoutes(merged, replayed);
  }

  ghost predicate Disjoint(e: Entry) {
    forall r :: r in e.added ==> r.prefix !in e.withdrawn
  }

  lemma {:induction false} MergeAddsDisjoint(acc: Entry, rs: seq<Route>)
    requires Disjoint(acc)
    ensures Disjoint(MergeAdds(acc, rs))
  {
    if rs != [] {
      MergeAddsDisjoint(acc, rs[..|rs| - 1]);
      FilterMeaning(q => q != rs[|rs| - 1].prefix, MergeAdds(acc, rs[..|rs| - 1]).withdrawn);
    }
  }

  lemma {:induction false} MergeWithdrawsDisjoint(acc: Entry, ws: seq<Text>)
    requires Disjoint(acc)
    ensures Disjoint(MergeWithdraws(acc, ws))
  {
    if ws != [] {
      MergeWithdrawsDisjoint(acc, ws[..|ws| - 1]);
      FilterMeaning((r: Route) => r.prefix != ws[|ws| - 1], MergeWithdraws(acc, ws[..|ws| - 1]).added);
    }
  }

  /** No prefix is both announced and withdrawn by a merged update. */
  lemma {:induction false} MergedDisjoint(acc: Entry, log: seq<Entry>)
    requires Disjoint(acc)
    ensures Disjoint(MergeLog(acc, log))
  {
    if log != [] {
      var merged := MergeLog(acc, log[..|log| - 1]);
      MergedDisjoint(acc, log[..|log| - 1]);
      MergeAddsDisjoint(merged, log[|log| - 1].added);
      MergeWithdrawsDisjoint(MergeAdds(merged, log[|log| - 1].added), log[|log| - 1].withdrawn);
    }
  }

  lemma {:induction false} LogEffectConcat(a: seq<Entry>, b: seq<Entry>, p: Text)
    ensures LogEffect(a + b, p) == LogEffect(a, p).Then(LogEffect(b, p))
  {
    if b == [] {
      assert a + b == a;
    } else {
      LogEffectConcat(a, b[..|b| - 1], p);
      assert (a + b)[..|a + b| - 1] == a + b[..|b| - 1];
    }
  }

  /** Merging a..b and then b..c acts like merging a..c. */
  lemma {:induction false} CompactionComposes(m: Routes, account: Account, a: seq<Entry>, b: seq<Entry>)
    ensures var none := Entry([], []);
            AppliedEntry(AppliedEntry(m, account, MergeLog(none, a)), account, MergeLog(none, b))
            == AppliedEntry(m, account, MergeLog(none, a + b))
  {
    var none := Entry([], []);
    var mid := AppliedEntry(m, account, MergeLog(none, a));
    var twice := AppliedEntry(mid, account, MergeLog(none, b));
    var once := AppliedEntry(m, account, MergeLog(none, a + b));
    forall p ensures Get(twice, p) == Get(once, p) {
      AppliedAt(m, account, MergeLog(none, a), p);
      AppliedAt(mid, account, MergeLog(none, b), p);
      AppliedAt(m, account, MergeLog(none, a + b), p);
      MergedAt(none, a, p);
      MergedAt(none, b, p);
      MergedAt(none, a + b, p);
      LogEffectConcat(a, b, p);
    }
    SameRoutes(twice, once);
  }

  // ---- Where merged routes come from ----

  ghost predicate AnnouncedIn(log: seq<Entry>, r: Route) {
    exists i :: 0 <= i < |log| && r in log[i].added
  }

  lemma {:induction false} MergedAddsFrom(acc: Entry, rs: seq<Route>, r: Route)
    requires r in MergeAdds(acc, rs).added
    ensures r in acc.added || r in rs
  {
    if rs != [] && r != rs[|rs| - 1] {
      MergedAddsFrom(acc, rs[..|rs| - 1], r);
    }
  }

  lemma {:induction false} MergedWithdrawsFrom(acc: Entry, ws: seq<Text>, r: Route)
    requires r in MergeWithdraws(acc, ws).added
    ensures r in acc.added
  {
    if ws != [] {
      FilterMeaning((x: Route) => x.prefix != ws[|ws| - 1], MergeWithdraws(acc, ws[..|ws| - 1]).added);
      MergedWithdrawsFrom(acc, ws[..|ws| - 1], r);
    }
  }

  /** A merged update announces only routes of the log, unchanged. */
  lemma {:induction false} MergedFrom(acc: Entry, log: seq<Entry>, r: Route)
    requires r in MergeLog(acc, log).added
    ensures r in acc.added || AnnouncedIn(log, r)
  {
    if log != [] {
      var front := log[..|log| - 1];
      var last := log[|log| - 1];
      MergedWithdrawsFrom(MergeAdds(MergeLog(acc, front), last.added), last.withdrawn, r);
      MergedAddsFrom(MergeLog(acc, front), last.added, r);
      if r in last.added {
        assert r in log[|log| - 1].added;
      } else {
        MergedFrom(acc, front, r);
        if r !in acc.added {
          var i :| 0 <= i < |front| && r in front[i].added;
          assert r in log[i].added;
        }
      }
    }
  }
}
