/** The loop that keeps at most one settlement timeout per account (balance_service.rs). */
module TimerQueue {
  import opened Basics

  type Id = Text

  datatype Timeout = Timeout(id: Id, deadline: nat)

  /** The delay queue by key, and for each account the key of its timeout. */
  datatype Timers = Timers(inQueue: map<Id, nat>, timeouts: map<nat, Timeout>)

  /** A command, or the expiry of a key. A `Set` comes with the time, and with the key that the delay
      queue would give a new entry. */
  datatype Event = Set(id: Id, now: nat, key: nat) | Clear(id: Id) | Expire(key: nat)

  /** New entries get an unused key, and only what is in the queue expires. */
  predicate Possible(t: Timers, e: Event) {
    match e
    case Set(_, _, key) => key !in t.timeouts
    case Clear(_) => true
    case Expire(key) => key in t.timeouts
  }

  function Next(delay: nat, t: Timers, e: Event): (t': Timers)
    requires Possible(t, e)
  {
    match e
    case Set(id, now, key) =>
      if id in t.inQueue then t
      else Timers(t.inQueue[id := key], t.timeouts[key := Timeout(id, now + delay)])
    case Clear(id) =>
      if id in t.inQueue then Timers(t.inQueue - {id}, t.timeouts - {t.inQueue[id]}) else t
    case Expire(key) =>
      Timers(t.inQueue - {t.timeouts[key].id}, t.timeouts - {key})
  }

  ghost predicate Run(delay: nat, t: Timers, events: seq<Event>)
    decreases |events|
  {
    events == [] || (Possible(t, events[0]) && Run(delay, Next(delay, t, events[0]), events[1..]))
  }

  ghost function After(delay: nat, t: Timers, events: seq<Event>): (t': Timers)
    requires Run(delay, t, events)
    decreases |events|
  {
    if events == [] then t else After(delay, Next(delay, t, events[0]), events[1..])
  }

  // ---- One to one ----

  ghost predicate Indexed(t: Timers, id: Id) {
    id in t.inQueue ==> t.inQueue[id] in t.timeouts && t.timeouts[t.inQueue[id]].id == id
  }

  ghost predicate Found(t: Timers, key: nat) {
    key in t.timeouts ==> t.timeouts[key].id in t.inQueue && t.inQueue[t.timeouts[key].id] == key
  }

  ghost predicate OneToOne(t: Timers) {
    (forall id :: Indexed(t, id)) && (forall key: nat :: Found(t, key))
  }

  lemma {:induction false} NextKeepsOneToOne(delay: nat, t: Timers, e: Event)
    requires OneToOne(t) && Possible(t, e)
    ensures OneToOne(Next(delay, t, e))
  {
    var t' := Next(delay, t, e);
    forall id ensures Indexed(t', id) {
      assert Indexed(t, id);
      if e.Clear? {
        assert Indexed(t, e.id);
      }
      if e.Expire? {
        assert Found(t, e.key);
      }
    }
    forall key: nat ensures Found(t', key) {
      assert Found(t, key);
      if e.Clear? {
        assert Indexed(t, e.id);
      }
      if e.Expire? {
        assert Found(t, e.key);
      }
    }
  }

  /** Over any events, index and queue stay one to one. */
  lemma {:induction false} RunKeepsOneToOne(delay: nat, t: Timers, events: seq<Event>)
    requires OneToOne(t) && Run(delay, t, events)
    ensures OneToOne(After(delay, t, events))
    decreases |events|
  {
    if events != [] {
      NextKeepsOneToOne(delay, t, events[0]);
      RunKeepsOneToOne(delay, Next(delay, t, events[0]), events[1..]);
    }
  }

  const EMPTY := Timers(map[], map[])

  /** What one-to-one means: the accounts in the index are those with a timeout, one timeout each. */
  lemma {:induction false} OneToOneMeaning(t: Timers)
    requires OneToOne(t)
    ensures forall j, k :: j in t.timeouts && k in t.timeouts && t.timeouts[j].id == t.timeouts[k].id ==> j == k
    ensures forall k :: k in t.timeouts ==> t.timeouts[k].id in t.inQueue
    ensures forall id :: id in t.inQueue ==> t.inQueue[id] in t.timeouts
    ensures forall id, id' :: id in t.inQueue && id' in t.inQueue && t.inQueue[id] == t.inQueue[id'] ==> id == id'
  {
    forall j, k | j in t.timeouts && k in t.timeouts && t.timeouts[j].id == t.timeouts[k].id ensures j == k {
      assert Found(t, j) && Found(t, k);
    }
    forall k | k in t.timeouts ensures t.timeouts[k].id in t.inQueue {
      assert Found(t, k);
    }
    forall id | id in t.inQueue ensures t.inQueue[id] in t.timeouts && t.timeouts[t.inQueue[id]].id == id {
      assert Indexed(t, id);
    }
  }

  /** In every reachable state an account has at most one timeout, what expires is found in the index, and
      a key that the index holds is there to be removed. */
  lemma {:induction false} OneTimeoutEach(delay: nat, events: seq<Event>)
    requires Run(delay, EMPTY, events)
    ensures var t := After(delay, EMPTY, events);
            && (forall j, k :: j in t.timeouts && k in t.timeouts && t.timeouts[j].id == t.timeouts[k].id ==> j == k)
            && (forall k :: k in t.timeouts ==> t.timeouts[k].id in t.inQueue)
            && (forall id :: id in t.inQueue ==> t.inQueue[id] in t.timeouts)
            && (forall id, id' :: id in t.inQueue && id' in t.inQueue && t.inQueue[id] == t.inQueue[id'] ==> id == id')
  {
    RunKeepsOneToOne(delay, EMPTY, events);
    OneToOneMeaning(After(delay, EMPTY, events));
  }

  // ---- The first deadline ----

  /** The deadline that an account waits for, if any. */
  function DeadlineOf(t: Timers, id: Id): (d: Option<nat>) {
    if id in t.inQueue && t.inQueue[id] in t.timeouts then Some(t.timeouts[t.inQueue[id]].deadline) else None
  }

  ghost predicate Ends(t: Timers, e: Event, id: Id) {
    e == Clear(id) || (e.Expire? && e.key in t.timeouts && t.timeouts[e.key].id == id)
  }

  /** No event of the run clears or expires the account. */
  ghost predicate Undisturbed(delay: nat, t: Timers, events: seq<Event>, id: Id)
    requires Run(delay, t, events)
    decreases |events|
  {
    events == [] || (!Ends(t, events[0], id) && Undisturbed(delay, Next(delay, t, events[0]), events[1..], id))
  }

  lemma {:induction false} DeadlineStep(delay: nat, t: Timers, e: Event, id: Id)
    requires OneToOne(t) && Possible(t, e)
    ensures DeadlineOf(Next(delay, t, e), id) ==
            if Ends(t, e, id) then None
            else if DeadlineOf(t, id).None? && e.Set? && e.id == id then Some(e.now + delay)
            else DeadlineOf(t, id)
  {
    assert Indexed(t, id);
    if e.Clear? {
      assert Indexed(t, e.id);
    }
    if e.Expire? {
      assert Found(t, e.key);
    }
  }

  /** Once set, a deadline stays, however often the account is set again, until it is cleared or passes. */
  lemma {:induction false} FirstDeadlineStays(delay: nat, t: Timers, events: seq<Event>, id: Id)
    requires OneToOne(t) && Run(delay, t, events) && Undisturbed(delay, t, events, id) && DeadlineOf(t, id).Some?
    ensures DeadlineOf(After(delay, t, events), id) == DeadlineOf(t, id)
    decreases |events|
  {
    if events != [] {
      NextKeepsOneToOne(delay, t, events[0]);
      DeadlineStep(delay, t, events[0], id);
      FirstDeadlineStays(delay, Next(delay, t, events[0]), events[1..], id);
    }
  }

  // ---- The loop ----

  class SettlementTimers {
    const delay: nat
    var inQueue: map<Id, nat>
    var timeouts: map<nat, Timeout>

    function View(): (t: Timers)
      reads this
    {
      Timers(inQueue, timeouts)
    }

    constructor (delay: nat)
      ensures View() == EMPTY && this.delay == delay
    {
      this.delay := delay;
      inQueue, timeouts := map[], map[];
    }

    method HandleClear(id: Id)
      requires OneToOne(View())
      modifies this
      ensures OneToOne(View()) && View() == Next(delay, old(View()), Clear(id))
    {
      NextKeepsOneToOne(delay, View(), Clear(id));
      if id in inQueue {
        var key := inQueue[id];
        inQueue := inQueue - {id};
        timeouts := timeouts - {key};
      }
    }

    method HandleSet(id: Id, now: nat, key: nat)
      requires OneToOne(View()) && key !in timeouts
      modifies this
      ensures OneToOne(View()) && View() == Next(delay, old(View()), Set(id, now, key))
    {
      NextKeepsOneToOne(delay, View(), Set(id, now, key));
      if id !in inQueue {
        timeouts := timeouts[key := Timeout(id, now + delay)];
        inQueue := inQueue[id := key];
      }
    }

    /** The account whose delayed settlement is due. */
    method HandleExpired(key: nat) returns (id: Id)
      requires OneToOne(View()) && key in timeouts
      modifies this
      ensures OneToOne(View()) && View() == Next(delay, old(View()), Expire(key))
      ensures old(id in inQueue) && id == old(timeouts[key].id)
    {
      NextKeepsOneToOne(delay, View(), Expire(key));
      assert Found(View(), key);
      id := timeouts[key].id;
      timeouts := timeouts - {key};
      inQueue := inQueue - {id};
    }

    method Handle(e: Event) returns (due: seq<Id>)
      requires OneToOne(View()) && Possible(View(), e)
      modifies this
      ensures OneToOne(View()) && View() == Next(delay, old(View()), e)
      ensures due == if e.Expire? then [old(timeouts[e.key].id)] else []
    {
      due := [];
      match e
      case Clear(id) => HandleClear(id);
      case Set(id, now, key) => HandleSet(id, now, key);
      case Expire(key) =>
        var id := HandleExpired(key);
        due := [id];
    }

    /** The loop over commands and expiries; what is due to be settled, in order. */
    method HandleAll(events: seq<Event>) returns (due: seq<Id>)
      requires OneToOne(View()) && Run(delay, View(), events)
      modifies this
      ensures OneToOne(View()) && View() == After(delay, old(View()), events)
      ensures due == Due(delay, old(View()), events)
    {
      due := [];
      var i := 0;
      while i < |events|
        invariant 0 <= i <= |events|
        invariant OneToOne(View()) && Run(delay, View(), events[i..])
        invariant After(delay, View(), events[i..]) == After(delay, old(View()), events)
        invariant due + Due(delay, View(), events[i..]) == Due(delay, old(View()), events)
      {
        ghost var rest := events[i..];
        assert rest[0] == events[i] && rest[1..] == events[i + 1..];
        var expired := Handle(events[i]);
        due := due + expired;
        i := i + 1;
      }
    }
  }

  /** The accounts whose timeouts pass in a run. */
  ghost function Due(delay: nat, t: Timers, events: seq<Event>): (due: seq<Id>)
    requires Run(delay, t, events)
    decreases |events|
  {
    if events == [] then []
    else
      (if events[0].Expire? then [t.timeouts[events[0].key].id] else []) +
      Due(delay, Next(delay, t, events[0]), events[1..])
  }
}
