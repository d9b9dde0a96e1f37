/** Which accounts a route broadcast skips after failures (`BackoffParams` in server.rs). */
module Backoff {
  import opened Basics
  import opened RoutingTables
  import PrefixMaps

  /** Both counters are a u8. */
  datatype Params = Params(max: nat, skip: nat)

  datatype Outcome = Outcome(account: Account, delivered: bool)

  // ---- One account, one broadcast round ----

  predicate Skipped(b: Option<Params>) {
    b.Some? && b.value.skip > 0
  }

  function Decayed(b: Option<Params>): (r: Option<Params>) {
    if b.None? then None else Some(b.value.(skip := Max(b.value.skip - 1, 0)))
  }

  function Recorded(b: Option<Params>, relation: RoutingRelation, delivered: bool): (r: Option<Params>) {
    if delivered then None
    else if relation != Child then b
    else if b.None? then Some(Params(1, 1))
    else var max := Min(b.value.max + 1, 255); Some(Params(max, max))
  }

  function AfterRound(b: Option<Params>, relation: RoutingRelation, delivered: bool): (r: Option<Params>) {
    if Skipped(b) then Decayed(b) else Recorded(Decayed(b), relation, delivered)
  }

  ghost predicate Bounded(b: Option<Params>) {
    b.Some? ==> b.value.skip <= b.value.max <= 255
  }

  /** A broadcast round, with what a delivery attempt would yield, or a control request in Sync mode. */
  datatype Event = Round(delivered: bool) | Resume

  function AfterEvent(b: Option<Params>, relation: RoutingRelation, e: Event): (r: Option<Params>) {
    match e
    case Round(delivered) => AfterRound(b, relation, delivered)
    case Resume => None
  }

  /** The backoff after a sequence of events. */
  function AfterEvents(relation: RoutingRelation, events: seq<Event>): (r: Option<Params>)
    ensures Bounded(r)
  {
    if events == [] then None
    else AfterEvent(AfterEvents(relation, events[..|events| - 1]), relation, events[|events| - 1])
  }

  /** A Sync request always resets the backoff, and a round exactly when the account was tried and reached. */
  lemma {:induction false} ResetBy(relation: RoutingRelation, history: seq<Event>, delivered: bool)
    ensures AfterEvents(relation, history + [Resume]) == None
    ensures AfterEvents(relation, history + [Round(delivered)]) == None <==>
            var before := AfterEvents(relation, history);
            if delivered then !Skipped(before) else before.None? && relation != Child
  {
    assert (history + [Resume])[..|history|] == history;
    assert (history + [Round(delivered)])[..|history|] == history;
  }

  // ---- The schedule of a child that stays down ----

  /** The backoff of a child after some history, and then rounds in which it cannot be reached. */
  function Down(history: seq<Event>, rounds: nat): (r: Option<Params>) {
    AfterEvents(Child, history + seq(rounds, _ => Round(false)))
  }

  lemma {:induction false} DownNext(history: seq<Event>, k: nat)
    ensures Down(history, k + 1) == AfterRound(Down(history, k), Child, false)
  {
    var more := history + seq(k + 1, _ => Round(false));
    assert more[..|history| + k] == history + seq(k, _ => Round(false));
  }

  /** The round of the n-th failure, counting from the first failure in round 0. */
  function FailureRound(n: nat): (t: nat)
    requires n >= 1
  {
    (n - 1) * (n + 2) / 2
  }

  lemma {:induction false} FailureRoundNext(n: nat)
    requires n >= 1
    ensures FailureRound(n + 1) == FailureRound(n) + n + 1
  {
    assert n * (n + 3) == (n - 1) * (n + 2) + 2 * (n + 1);
  }

  /** Between one failure and the next, the skip counter runs down one round at a time. */
  lemma {:induction false} CountsDown(history: seq<Event>, t: nat, n: nat, j: nat)
    requires Down(history, t + 1) == Some(Params(n, n)) && 1 <= n && j <= n
    ensures Down(history, t + 1 + j) == Some(Params(n, n - j))
  {
    if j > 0 {
      CountsDown(history, t, n, j - 1);
      DownNext(history, t + j);
    }
  }

  /** After a failure with maximum n, n rounds are skipped and the next attempt is the next failure. */
  lemma {:induction false} SkipsThenFails(history: seq<Event>, t: nat, n: nat)
    requires Down(history, t + 1) == Some(Params(n, n)) && 1 <= n
    ensures forall k :: t < k <= t + n ==> Skipped(Down(history, k))
    ensures var next := Min(n + 1, 255);
            !Skipped(Down(history, t + n + 1)) && Down(history, t + n + 2) == Some(Params(next, next))
  {
    forall k | t < k <= t + n ensures Skipped(Down(history, k)) {
      CountsDown(history, t, n, k - t - 1);
    }
    CountsDown(history, t, n, n);
    DownNext(history, t + n + 1);
  }

  lemma {:induction false} FailureAt(history: seq<Event>, n: nat)
    requires AfterEvents(Child, history) == None && 1 <= n <= 255
    ensures !Skipped(Down(history, FailureRound(n)))
    ensures Down(history, FailureRound(n) + 1) == Some(Params(n, n))
  {
    if n == 1 {
      assert history + seq(0, _ => Round(false)) == history;
      DownNext(history, 0);
    } else {
      var t := FailureRound(n - 1);
      FailureAt(history, n - 1);
      SkipsThenFails(history, t, n - 1);
      FailureRoundNext(n - 1);
      assert FailureRound(n) == t + n;
    }
  }

  /** Backoff schedule: after any history that leaves no backoff, of which every delivery and every Sync
      request is one, the n-th consecutive failure of a child falls in round (n-1)(n+2)/2 and is followed by
      exactly n skipped rounds, for each n that fits the counter. */
  lemma {:induction false} FailureSchedule(history: seq<Event>, n: nat)
    requires AfterEvents(Child, history) == None && 1 <= n <= 255
    ensures var t := FailureRound(n);
            && !Skipped(Down(history, t))
            && Down(history, t + 1) == Some(Params(n, n))
            && (forall k :: t < k <= t + n ==> Skipped(Down(history, k)))
            && !Skipped(Down(history, t + n + 1))
  {
    FailureAt(history, n);
    SkipsThenFails(history, FailureRound(n), n);
  }

  // ---- The loops of a broadcast, over all accounts at once ----

  class Broadcaster {
    var unavailable: map<string, Params>

    ghost function Of(id: string): (b: Option<Params>)
      reads this
    {
      if id in unavailable then Some(unavailable[id]) else None
    }

    constructor ()
      ensures forall id :: Of(id) == None
    {
      unavailable := map[];
    }

    /** The accounts to skip this round; every skip counter goes down by one. */
    method AccountsToSkip(order: seq<string>) returns (skip: seq<string>)
      requires PrefixMaps.IterationOrder(unavailable, order)
      modifies this
      ensures forall id :: id in skip <==> Skipped(old(Of(id)))
      ensures forall id :: Of(id) == Decayed(old(Of(id)))
    {
      skip := [];
      ghost var before := unavailable;
      for i := 0 to |order|
        invariant unavailable.Keys == before.Keys
        invariant forall id :: id in skip <==> id in order[..i] && id in before && before[id].skip > 0
        invariant forall id :: id in before ==>
            unavailable[id] == if id in order[..i] then Decayed(Some(before[id])).value else before[id]
      {
        var id := order[i];
        assert id !in order[..i];
        var backoff := unavailable[id];
        if backoff.skip > 0 {
          skip := skip + [id];
        }
        unavailable := unavailable[id := backoff.(skip := Max(backoff.skip - 1, 0))];
      }
      assert order[..|order|] == order;
    }

    /** The results of the attempts; each account was tried at most once. */
    method RecordResults(results: seq<Outcome>)
      requires forall i, j :: 0 <= i < j < |results| ==> results[i].account.id != results[j].account.id
      modifies this
      ensures forall i :: 0 <= i < |results| ==>
          var r := results[i];
          Of(r.account.id) == Recorded(old(Of(r.account.id)), r.account.relation, r.delivered)
      ensures forall id :: (forall i :: 0 <= i < |results| ==> results[i].account.id != id) ==> Of(id) == old(Of(id))
    {
      for i := 0 to |results|
        invariant forall j :: 0 <= j < i ==>
            var r := results[j];
            Of(r.account.id) == Recorded(old(Of(r.account.id)), r.account.relation, r.delivered)
        invariant forall id :: (forall j :: 0 <= j < i ==> results[j].account.id != id) ==> Of(id) == old(Of(id))
      {
        var account, delivered := results[i].account, results[i].delivered;
        if delivered {
          unavailable := unavailable - {account.id};
        } else if account.relation == Child {
          if account.id in unavailable {
            var max := Min(unavailable[account.id].max + 1, 255);
            unavailable := unavailable[account.id := Params(max, max)];
          } else {
            unavailable := unavailable[account.id := Params(1, 1)];
          }
        }
      }
    }

    /** A control request in Sync mode shows that the account is reachable again. */
    method ResumeBroadcasts(id: string)
      modifies this
      ensures Of(id) == None && forall other :: other != id ==> Of(other) == old(Of(other))
    {
      unavailable := unavailable - {id};
    }
  }
}
