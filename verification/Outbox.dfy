/**
 Ordered delivery in the execution client: what the client hands to Nautilus, and the outbox that
 holds reports and activity behind order events Nautilus has queued but not applied yet.

 Nautilus queues an order event and applies it later; it applies a report or an activity at once.
 The client's tasks interleave only where they await, so every method here is one atomic step.
 */
module Outbox {
  import opened Wrappers
  import Sets

  type EventId = nat
  type OrderId = nat
  type TaskId = nat

  /** An order event sent to Nautilus about one of the node's orders. */
  datatype Event = Event(id: EventId, order: OrderId)

  /**
   A record of the venue model: one about a node's order becomes `events` order events, if
   Nautilus knows the order; a report or an activity is applied at once; a note is neither.
   */
  datatype Record = OwnOrder(order: OrderId, events: nat) | Report(content: nat) | Note(content: nat)

  /** What waits in the outbox: a record, or an order event of the client's own. */
  datatype Item = Held(record: Record) | Deferred(event: Event)

  predicate AppliedAtOnce(item: Item) {
    item.Held? && item.record.Report?
  }

  /**
   What happened: to the client, and in Nautilus, which applies events and learns and drops orders.
   `own` marks an event no record stands for.
   */
  datatype Entry =
    | Sent(event: Event, own: bool)
    | Took(record: Record)
    | Settled(id: EventId)
    | Expired(id: EventId)
    | Detached
    | Applied(id: EventId)
    | Known(order: OrderId)
    | Gone(order: OrderId)

  /** What an entry adds to the items handed over. */
  ghost function HandedOver(items: seq<Item>, entry: Entry): seq<Item> {
    match entry
    case Sent(event, own) => if own then items + [Deferred(event)] else items
    case Took(record) => items + [Held(record)]
    case Detached => []
    case _ => items
  }

  /** What Nautilus was handed since the last detach: the records, and the client's own events. */
  ghost function Delivered(log: seq<Entry>): seq<Item> {
    if log == [] then [] else HandedOver(Delivered(log[..|log| - 1]), log[|log| - 1])
  }

  /** The events sent whose wait is not over: not applied, given up on, or cut by a detach. */
  ghost function Awaited(log: seq<Entry>): set<EventId> {
    if log == [] then {}
    else
      var before, last := Awaited(log[..|log| - 1]), log[|log| - 1];
      match last
      case Sent(event, _) => before + {event.id}
      case Took(_) => before
      case Settled(id) => before - {id}
      case Expired(id) => before - {id}
      case Detached => {}
      case _ => before
  }

  /** The events Nautilus has applied. */
  ghost function AppliedIn(log: seq<Entry>): set<EventId> {
    if log == [] then {}
    else
      var before, last := AppliedIn(log[..|log| - 1]), log[|log| - 1];
      if last.Applied? then before + {last.id} else before
  }

  /** The orders Nautilus knows. */
  ghost function KnownIn(log: seq<Entry>): set<OrderId> {
    if log == [] then {}
    else
      var before, last := KnownIn(log[..|log| - 1]), log[|log| - 1];
      match last
      case Known(order) => before + {order}
      case Gone(order) => before - {order}
      case _ => before
  }

  /** The order events sent to Nautilus. */
  ghost function SentIn(log: seq<Entry>): set<Event> {
    if log == [] then {}
    else
      var before, last := SentIn(log[..|log| - 1]), log[|log| - 1];
      if last.Sent? then before + {last.event} else before
  }

  /** Nautilus has applied the event, or never can: it does not know its order. */
  ghost predicate NoLongerQueued(log: seq<Entry>, id: EventId) {
    id in AppliedIn(log) || exists event :: event in SentIn(log) && event.id == id && event.order !in KnownIn(log)
  }

  /** No event was taken for settled that Nautilus still had queued. */
  ghost predicate Founded(log: seq<Entry>) {
    log == [] ||
    (var before, last := log[..|log| - 1], log[|log| - 1];
     Founded(before) && (last.Settled? ==> NoLongerQueued(before, last.id)))
  }

  lemma {:induction false} FoundedAt(log: seq<Entry>, k: nat)
    requires Founded(log) && k < |log| && log[k].Settled?
    ensures NoLongerQueued(log[..k], log[k].id)
  {
    var n := |log| - 1;
    if k < n {
      FoundedAt(log[..n], k);
      assert log[..n][..k] == log[..k];
    }
  }

  lemma {:induction false} AppliedWasLogged(log: seq<Entry>, id: EventId) returns (k: nat)
    requires id in AppliedIn(log)
    ensures k < |log| && log[k] == Applied(id)
  {
    k := |log| - 1;
    if log[k] != Applied(id) {
      k := AppliedWasLogged(log[..k], id);
    }
  }

  /** Every report or activity was handed over with no event awaited. */
  ghost predicate InOrder(log: seq<Entry>) {
    log == [] ||
    (var before, last := log[..|log| - 1], log[|log| - 1];
     InOrder(before) && (last.Took? && last.record.Report? ==> Awaited(before) == {}))
  }

  /** Between `j` and `i` the wait for event `id` ended: settled, given up on, or cut by a detach. */
  ghost predicate Over(log: seq<Entry>, j: int, i: int, id: EventId)
    requires 0 <= j && i <= |log|
  {
    exists k :: j < k < i && (log[k] == Settled(id) || log[k] == Expired(id) || log[k] == Detached)
  }

  /** An event sent is awaited until its wait is over. */
  lemma {:induction false} AwaitedUntilOver(log: seq<Entry>, j: nat)
    requires j < |log| && log[j].Sent? && log[j].event.id !in Awaited(log)
    ensures Over(log, j, |log|, log[j].event.id)
  {
    var n := |log| - 1;
    var before, id := log[..n], log[j].event.id;
    if j < n && id !in Awaited(before) {
      AwaitedUntilOver(before, j);
      var k :| j < k < n && (before[k] == Settled(id) || before[k] == Expired(id) || before[k] == Detached);
      assert log[k] == before[k];
    } else if j < n {
      assert log[n] == Settled(id) || log[n] == Expired(id) || log[n] == Detached;
    }
  }

  /** In an ordered log no report or activity precedes the end of the wait for an earlier event. */
  lemma {:induction false} NothingOvertaken(log: seq<Entry>, j: nat, i: nat)
    requires InOrder(log) && j < i < |log| && log[j].Sent? && log[i].Took? && log[i].record.Report?
    ensures Over(log, j, i, log[j].event.id)
  {
    var n, id := |log| - 1, log[j].event.id;
    var before := log[..n];
    assert forall k :: 0 <= k < n ==> before[k] == log[k];
    if i < n {
      NothingOvertaken(before, j, i);
      var k :| j < k < i && (before[k] == Settled(id) || before[k] == Expired(id) || before[k] == Detached);
      assert log[k] == before[k];
    } else {
      AwaitedUntilOver(before, j);
      var k :| j < k < n && (before[k] == Settled(id) || before[k] == Expired(id) || before[k] == Detached);
      assert log[k] == before[k];
    }
  }

  /** What one more entry does to everything read off a log. */
  lemma Append(log: seq<Entry>, entry: Entry)
    ensures Delivered(log + [entry]) == HandedOver(Delivered(log), entry)
    ensures entry.Sent? ==> Awaited(log + [entry]) == Awaited(log) + {entry.event.id}
    ensures entry.Took? ==> Awaited(log + [entry]) == Awaited(log)
    ensures entry.Settled? || entry.Expired? ==> Awaited(log + [entry]) == Awaited(log) - {entry.id}
    ensures entry.Detached? ==> Awaited(log + [entry]) == {}
    ensures entry.Applied? || entry.Known? || entry.Gone? ==> Awaited(log + [entry]) == Awaited(log)
    ensures InOrder(log + [entry]) <==> InOrder(log) && (entry.Took? && entry.record.Report? ==> Awaited(log) == {})
  {
  }

  /** And to what is read off it of Nautilus. */
  lemma AppendNautilus(log: seq<Entry>, entry: Entry)
    ensures AppliedIn(log + [entry]) == if entry.Applied? then AppliedIn(log) + {entry.id} else AppliedIn(log)
    ensures entry.Known? ==> KnownIn(log + [entry]) == KnownIn(log) + {entry.order}
    ensures entry.Gone? ==> KnownIn(log + [entry]) == KnownIn(log) - {entry.order}
    ensures !entry.Known? && !entry.Gone? ==> KnownIn(log + [entry]) == KnownIn(log)
    ensures SentIn(log + [entry]) == if entry.Sent? then SentIn(log) + {entry.event} else SentIn(log)
    ensures Founded(log + [entry]) <==> Founded(log) && (entry.Settled? ==> NoLongerQueued(log, entry.id))
  {
    var now := log + [entry];
    assert now[..|now| - 1] == log && now[|now| - 1] == entry;
  }

  /** The log of sending the client's own events among the items, one after the other. */
  function OwnSends(items: seq<Item>): (sends: seq<Entry>)
    ensures forall i :: 0 <= i < |sends| ==> sends[i].Sent?
  {
    if items == [] then []
    else
      var before, last := items[..|items| - 1], items[|items| - 1];
      OwnSends(before) + if last.Deferred? then [Sent(last.event, true)] else []
  }

  /** The log of sending the order events of one record, one after the other. */
  function EventSends(next: EventId, order: OrderId, count: nat): seq<Entry> {
    if count == 0 then []
    else EventSends(next, order, count - 1) + [Sent(Event(next + count - 1, order), false)]
  }

  class Client {
    var outbox: seq<Item>
    var unapplied: map<EventId, OrderId>
    var expiredHeld: nat
    /** The delivery task, and the future it awaits: `wake` names the task that made it. */
    var task: Option<TaskId>
    var wake: Option<TaskId>
    var woken: bool
    var delivering: bool
    /** The delivery task has run and awaits `wake`; otherwise it is yet to run its first step. */
    var suspended: bool
    /** Cancelled delivery tasks that have not ended yet. */
    var cancelled: set<TaskId>
    var nextTask: TaskId
    var nextEvent: EventId
    /** Nautilus's cache: the orders it knows, and the events it has applied. */
    var orders: set<OrderId>
    var applied: set<EventId>

    /** What was handed to Nautilus and what came of it, in order. */
    var log: seq<Entry>
    /** The records and own events given to the client since the last detach. */
    ghost var submitted: seq<Item>

    /** No task is in the middle of a delivery. */
    ghost predicate Valid()
      reads this
    {
      && !delivering
      && InStep()
      && Delivered(log) + outbox == submitted
      && InOrder(log) && Awaited(log) == unapplied.Keys
      && (outbox != [] ==> task.Some?)
      && (task.Some? ==> task.value < nextTask && task.value !in cancelled)
      && (task.Some? && suspended ==> wake == task && (woken || unapplied != map[]))
      && (forall t :: t in cancelled ==> t < nextTask)
    }

    /** The cache is what the log says of Nautilus, and the events waited for are among those sent. */
    ghost predicate InStep()
      reads this`log, this`orders, this`applied, this`unapplied
    {
      && Founded(log) && applied == AppliedIn(log) && orders == KnownIn(log)
      && forall id :: id in unapplied ==> Event(id, unapplied[id]) in SentIn(log)
    }

    constructor ()
      ensures Valid() && log == [] && submitted == [] && outbox == [] && unapplied == map[] && task.None?
      ensures wake.None? && !woken && !suspended && cancelled == {} && expiredHeld == 0
      ensures nextEvent == 0 && nextTask == 0
    {
      outbox, unapplied, expiredHeld := [], map[], 0;
      task, wake, woken, delivering, suspended := None, None, false, false, false;
      cancelled, nextTask, nextEvent := {}, 0, 0;
      orders, applied := {}, {};
      log, submitted := [], [];
    }

    // -- Waiting for events -----------------------------------------------------------------

    /** Whether Nautilus applied the event; without its order it never can. */
    predicate IsSettled(id: EventId, order: OrderId)
      reads this`orders, this`applied
    {
      order !in orders || id in applied
    }

    /** What the waiting keeps whether or not an item is being delivered. */
    ghost predicate Waiting()
      reads this
    {
      && InStep() && InOrder(log) && Awaited(log) == unapplied.Keys
      && (task.Some? && suspended ==> wake == task && (woken || unapplied != map[]))
    }

    /** Stops waiting for an event, and wakes the delivery waiting for it. */
    method Forget(id: EventId, expired: bool)
      requires Waiting() && id in unapplied && (!expired ==> IsSettled(id, unapplied[id]))
      modifies this`unapplied, this`woken, this`log
      ensures Waiting() && unapplied == old(unapplied) - {id} && Delivered(log) == old(Delivered(log))
      ensures log == old(log) + [if expired then Expired(id) else Settled(id)]
      ensures woken == (wake.Some? || old(woken))
    {
      var entry := if expired then Expired(id) else Settled(id);
      Append(log, entry);
      AppendNautilus(log, entry);
      unapplied := unapplied - {id};
      if wake.Some? {
        woken := true;
      }
      log := log + [entry];
    }

    /** The events waited for that Nautilus has applied, or never can. */
    function SettledIds(): set<EventId>
      reads this`unapplied, this`orders, this`applied
    {
      set id | id in unapplied && IsSettled(id, unapplied[id])
    }

    /** Forgets every event that Nautilus applied, and no other. */
    method CheckUnapplied()
      requires Waiting()
      modifies this`unapplied, this`woken, this`log
      ensures Waiting() && Delivered(log) == old(Delivered(log)) && (wake.None? ==> woken == old(woken))
      ensures unapplied == old(unapplied) - old(SettledIds())
      ensures forall id :: id in unapplied <==>
                id in old(unapplied) && old(unapplied)[id] in orders && id !in applied
      ensures old(log) <= log && forall k :: |old(log)| <= k < |log| ==> log[k].Settled?
    {
      var settled := SettledIds();
      ghost var gone := {};
      while settled != {}
        invariant Waiting() && Delivered(log) == old(Delivered(log)) && (wake.None? ==> woken == old(woken))
        invariant settled <= unapplied.Keys && settled + gone == old(SettledIds()) && settled !! gone
        invariant unapplied == old(unapplied) - gone
        invariant forall id :: id in settled ==> IsSettled(id, unapplied[id])
        invariant old(log) <= log && forall k :: |old(log)| <= k < |log| ==> log[k].Settled?
        decreases settled
      {
        Sets.HasMember(settled);
        var id :| id in settled;
        Forget(id, false);
        settled, gone := settled - {id}, gone + {id};
      }
    }

    // -- Handing over -----------------------------------------------------------------------

    /** Hands an order event to Nautilus and waits for it, unless it could overtake a held record. */
    method SendOrderEvent(event: Event, own: bool)
      requires Waiting()
      requires own || delivering || outbox == []
      modifies this`outbox, this`unapplied, this`log
      ensures Waiting()
      ensures if old(outbox) != [] && !delivering
              then outbox == old(outbox) + [Deferred(event)] && unapplied == old(unapplied) && log == old(log)
              else && outbox == old(outbox) && unapplied == old(unapplied)[event.id := event.order]
                   && log == old(log) + [Sent(event, own)]
                   && Delivered(log) == old(Delivered(log)) + if own then [Deferred(event)] else []
    {
      if outbox != [] && !delivering {
        outbox := outbox + [Deferred(event)];
        return;
      }
      Append(log, Sent(event, own));
      AppendNautilus(log, Sent(event, own));
      unapplied := unapplied[event.id := event.order];
      log := log + [Sent(event, own)];
    }

    /**
     Hands a record to Nautilus: a node's order becomes its order events, if its order is known. An
     error in handling one record is logged and leaves the next to be handled as usual.
     */
    method HandleRecord(record: Record)
      requires Waiting() && (delivering || outbox == [])
      requires record.Report? ==> unapplied == map[]
      modifies this`outbox, this`unapplied, this`log, this`nextEvent
      ensures Waiting() && outbox == old(outbox)
      ensures Delivered(log) == old(Delivered(log)) + [Held(record)]
      ensures if record.OwnOrder? && record.order in orders
              then && log == old(log) + [Took(record)] + EventSends(old(nextEvent), record.order, record.events)
                   && nextEvent == old(nextEvent) + record.events
              else log == old(log) + [Took(record)] && nextEvent == old(nextEvent)
    {
      hide Awaited, AppliedIn, KnownIn, SentIn, Founded, InOrder, Delivered;
      Append(log, Took(record));
      AppendNautilus(log, Took(record));
      log := log + [Took(record)];
      if record.OwnOrder? && record.order in orders {
        for n := 0 to record.events
          invariant Waiting() && outbox == old(outbox)
          invariant Delivered(log) == old(Delivered(log)) + [Held(record)]
          invariant log == old(log) + [Took(record)] + EventSends(old(nextEvent), record.order, n)
          invariant nextEvent == old(nextEvent) + n
        {
          var event := Event(nextEvent, record.order);
          nextEvent := nextEvent + 1;
          SendOrderEvent(event, false);
        }
      }
    }

    /** A command is answered by an order event of the client's own. */
    method Answer(order: OrderId)
      requires Valid()
      modifies this`outbox, this`unapplied, this`log, this`nextEvent, this`submitted
      ensures Valid() && submitted == old(submitted) + [Deferred(Event(old(nextEvent), order))]
      ensures nextEvent == old(nextEvent) + 1
    {
      var event := Event(nextEvent, order);
      nextEvent := nextEvent + 1;
      ghost var delivered, held := Delivered(log), outbox;
      SendOrderEvent(event, true);
      assert Delivered(log) + outbox == (delivered + held) + [Deferred(event)];
      submitted := submitted + [Deferred(event)];
    }

    /** Delivers the records in order, each behind the events sent before it. */
    method HandleRecords(records: seq<Record>)
      requires Valid()
      modifies this`outbox, this`unapplied, this`log, this`nextEvent, this`submitted, this`woken, this`task,
               this`nextTask, this`suspended
      ensures Valid()
      ensures |submitted| == |old(submitted)| + |records| && submitted[..|old(submitted)|] == old(submitted)
      ensures forall i :: 0 <= i < |records| ==> submitted[|old(submitted)| + i] == Held(records[i])
    {
      for i := 0 to |records|
        invariant Valid()
        invariant |submitted| == |old(submitted)| + i && submitted[..|old(submitted)|] == old(submitted)
        invariant forall k :: 0 <= k < i ==> submitted[|old(submitted)| + k] == Held(records[k])
      {
        HandleOne(records[i]);
      }
    }

    /** The record waits behind what is held, or behind the events it must not overtake. */
    method HoldBack(record: Record)
      requires Waiting() && (task.Some? ==> task.value < nextTask) && forall t :: t in cancelled ==> t < nextTask
      modifies this`outbox, this`task, this`nextTask, this`suspended
      ensures Waiting() && outbox == old(outbox) + [Held(record)]
      ensures task == (if old(task).Some? then old(task) else Some(old(nextTask)))
      ensures nextTask == old(nextTask) + (if old(task).None? then 1 else 0)
      ensures suspended == (old(task).Some? && old(suspended))
    {
      outbox := outbox + [Held(record)];
      if task.None? {
        task, nextTask, suspended := Some(nextTask), nextTask + 1, false;
      }
    }

    method HandleOne(record: Record)
      requires Valid()
      modifies this`outbox, this`unapplied, this`log, this`nextEvent, this`submitted, this`woken, this`task,
               this`nextTask, this`suspended
      ensures Valid() && submitted == old(submitted) + [Held(record)]
      ensures if old(outbox) != [] ||
                 (record.Report? && exists id :: id in old(unapplied) && old(unapplied)[id] in orders && id !in applied)
              then outbox == old(outbox) + [Held(record)]
              else outbox == []
      ensures task == if old(task).Some? then old(task) else if outbox == [] then None else Some(old(nextTask))
      ensures nextTask == old(nextTask) + if old(task).None? && outbox != [] then 1 else 0
      ensures !record.Report? && outbox != [] ==> unapplied == old(unapplied) && log == old(log)
    {
      hide Awaited, AppliedIn, KnownIn, SentIn, Founded, InOrder, Delivered;
      if AppliedAtOnce(Held(record)) {
        CheckUnapplied();
      }
      if outbox != [] || (AppliedAtOnce(Held(record)) && unapplied != map[]) {
        HoldBack(record);
      } else {
        HandleRecord(record);
      }
      submitted := submitted + [Held(record)];
    }

    // -- The delivery task ------------------------------------------------------------------

    /** Hands over the held items up to a report or an activity behind events these sent. */
    method DeliverReady()
      requires Valid() && unapplied == map[] && outbox != [] && !suspended
      modifies this`outbox, this`unapplied, this`log, this`nextEvent, this`delivering
      ensures Valid() && |outbox| < |old(outbox)|
      ensures outbox != [] ==> outbox[0].Held? && outbox[0].record.Report? && unapplied != map[]
    {
      hide Awaited, AppliedIn, KnownIn, SentIn, Founded, InOrder, Delivered;
      while outbox != []
        invariant Valid() && |outbox| <= |old(outbox)|
        invariant |outbox| == |old(outbox)| ==> unapplied == map[]
      {
        var item := outbox[0];
        if AppliedAtOnce(item) && unapplied != map[] {
          break;
        }
        assert outbox == [item] + outbox[1..];
        assert Delivered(log) + outbox == (Delivered(log) + [item]) + outbox[1..];
        outbox := outbox[1..];
        delivering := true;
        match item {
          case Held(record) => HandleRecord(record);
          case Deferred(event) => SendOrderEvent(event, true);
        }
        delivering := false;
      }
    }

    /** One round of the delivery task: awaits while an event is waited for, else delivers. */
    method DeliverRound() returns (awaits: bool)
      requires Valid() && task.Some? && !suspended && outbox != []
      modifies this`outbox, this`unapplied, this`expiredHeld, this`log, this`nextEvent, this`delivering, this`woken,
               this`wake, this`suspended
      ensures Valid() && suspended == awaits
      ensures awaits ==> outbox == old(outbox) && !woken && unapplied != map[]
      ensures !awaits ==> |outbox| < |old(outbox)|
      ensures expiredHeld == if awaits then old(expiredHeld) else 0
      ensures wake == if awaits then task else old(wake)
      ensures !awaits && old(wake).None? ==> woken == old(woken)
      ensures awaits ==> old(SettledIds() < unapplied.Keys)
    {
      hide Awaited, AppliedIn, KnownIn, SentIn, Founded, InOrder, Delivered;
      CheckUnapplied();
      if unapplied != map[] {
        wake, woken, suspended := task, false, true;
        return true;
      }
      expiredHeld := 0;
      DeliverReady();
      return false;
    }

    /**
     One run of the delivery task, from its start or its waking to where it awaits again or ends.
     It ends only with the outbox empty, and awaits only while an event is waited for.
     */
    method Deliver()
      requires Valid() && task.Some? && (suspended ==> woken)
      modifies this`outbox, this`unapplied, this`expiredHeld, this`log, this`nextEvent, this`delivering, this`woken,
               this`wake, this`suspended, this`task
      ensures Valid()
      ensures task.None? ==> outbox == []
      ensures wake == if task.Some? then task else if old(suspended) then None else old(wake)
      ensures task.None? && old(suspended) ==> !woken
      ensures task.Some? ==> task == old(task) && suspended && !woken && outbox != [] && unapplied != map[]
      ensures old(outbox) != [] && outbox == old(outbox) ==> old(SettledIds() < unapplied.Keys)
    {
      if suspended {
        wake, woken, suspended := None, false, false;
      }
      var awaits := false;
      while outbox != [] && !awaits
        invariant Valid() && suspended == awaits && task == old(task) && |outbox| <= |old(outbox)|
        invariant wake == if awaits then task else if old(suspended) then None else old(wake)
        invariant !awaits && old(suspended) ==> !woken
        invariant awaits ==> !woken && outbox != [] && unapplied != map[]
        invariant |outbox| == |old(outbox)| && !awaits ==> unapplied == old(unapplied)
        invariant |outbox| == |old(outbox)| && awaits ==> old(SettledIds() < unapplied.Keys)
        decreases !awaits, |outbox|
      {
        awaits := DeliverRound();
      }
      if !awaits {
        task := None;
      }
    }

    // -- What ends a wait -------------------------------------------------------------------

    /** Nautilus published an order event; a refused one is published too, and waits for its expiry. */
    method Published(id: EventId)
      requires Valid()
      modifies this`unapplied, this`woken, this`log
      ensures Valid()
      ensures if id in old(unapplied) && (id in applied || old(unapplied)[id] !in orders)
              then unapplied == old(unapplied) - {id} && log == old(log) + [Settled(id)]
              else unapplied == old(unapplied) && log == old(log)
    {
      if id in unapplied && IsSettled(id, unapplied[id]) {
        Forget(id, false);
      }
    }

    /** The timer of an event ran out. */
    method Expire(id: EventId)
      requires Valid()
      modifies this`unapplied, this`expiredHeld, this`woken, this`log
      ensures Valid() && unapplied == old(unapplied) - {id}
      ensures log == if id !in old(unapplied) then old(log)
                     else if id in applied || old(unapplied)[id] !in orders then old(log) + [Settled(id)]
                     else old(log) + [Expired(id)]
      ensures expiredHeld == old(expiredHeld) + if outbox != [] && log == old(log) + [Expired(id)] then 1 else 0
      ensures id in old(unapplied) && outbox != [] && task.Some? && suspended ==> woken
    {
      if id in unapplied {
        var settled := IsSettled(id, unapplied[id]);
        if outbox != [] && !settled {
          expiredHeld := expiredHeld + 1;
        }
        Forget(id, !settled);
      }
    }

    // -- Detaching --------------------------------------------------------------------------

    /** Sends the client's own events among the held items, and waits for nothing any more. */
    method SendOwn(held: seq<Item>)
      requires InOrder(log)
      modifies this`log
      ensures log == old(log) + OwnSends(held) + [Detached]
      ensures InOrder(log) && Awaited(log) == {} && Delivered(log) == []
      ensures old(Founded(log)) ==> Founded(log)
      ensures AppliedIn(log) == old(AppliedIn(log)) && KnownIn(log) == old(KnownIn(log))
    {
      hide Awaited, AppliedIn, KnownIn, SentIn, Founded, InOrder, Delivered;
      for i := 0 to |held|
        invariant log == old(log) + OwnSends(held[..i]) && InOrder(log)
        invariant old(Founded(log)) ==> Founded(log)
        invariant AppliedIn(log) == old(AppliedIn(log)) && KnownIn(log) == old(KnownIn(log))
      {
        assert held[..i + 1][..i] == held[..i];
        if held[i].Deferred? {
          Append(log, Sent(held[i].event, true));
          AppendNautilus(log, Sent(held[i].event, true));
          log := log + [Sent(held[i].event, true)];
        }
      }
      assert held[..|held|] == held;
      Append(log, Detached);
      AppendNautilus(log, Detached);
      log := log + [Detached];
    }

    /** Cancels the delivery task; it ends later, and by then another may have taken its place. */
    method CancelDelivery()
      requires forall t :: t in cancelled ==> t < nextTask
      requires task.Some? ==> task.value < nextTask
      modifies this`task, this`cancelled, this`suspended
      ensures task.None? && forall t :: t in cancelled ==> t < nextTask
      ensures if old(task).Some? then cancelled == old(cancelled) + {old(task).value} && !suspended
              else cancelled == old(cancelled) && suspended == old(suspended)
    {
      if task.Some? {
        cancelled, task, suspended := cancelled + {task.value}, None, false;
      }
    }

    /** The client detaches: held records are dropped, its own deferred events are sent in order. */
    method Detach()
      requires Valid()
      modifies this`outbox, this`unapplied, this`expiredHeld, this`task, this`cancelled, this`suspended, this`log,
               this`submitted
      ensures Valid() && outbox == [] && unapplied == map[] && submitted == [] && task.None?
      ensures log == old(log) + OwnSends(old(outbox)) + [Detached] && expiredHeld == 0
      ensures cancelled == old(cancelled) + (if old(task).Some? then {old(task).value} else {})
    {
      hide Awaited, AppliedIn, KnownIn, SentIn, Founded, InOrder, Delivered;
      CancelDelivery();
      SendOwn(outbox);
      outbox, unapplied, expiredHeld := [], map[], 0;
      submitted := [];
      assert Delivered(log) + outbox == submitted;
    }

    // -- Nautilus --

    /** Nautilus applies an event it was sent. */
    method Apply(id: EventId)
      requires Valid()
      modifies this`applied, this`log
      ensures Valid() && applied == old(applied) + {id} && log == old(log) + [Applied(id)]
    {
      Append(log, Applied(id));
      AppendNautilus(log, Applied(id));
      applied, log := applied + {id}, log + [Applied(id)];
    }

    /** Nautilus learns or drops an order. */
    method Know(order: OrderId, known: bool)
      requires Valid()
      modifies this`orders, this`log
      ensures Valid() && orders == if known then old(orders) + {order} else old(orders) - {order}
      ensures log == old(log) + [if known then Known(order) else Gone(order)]
    {
      var entry := if known then Known(order) else Gone(order);
      Append(log, entry);
      AppendNautilus(log, entry);
      orders, log := if known then orders + {order} else orders - {order}, log + [entry];
    }

    /** A cancelled delivery task ends; another may have replaced it, and made a future of its own. */
    method CancelledEnds(t: TaskId)
      requires Valid() && t in cancelled
      modifies this`cancelled, this`wake
      ensures Valid() && cancelled == old(cancelled) - {t}
      ensures wake == if old(wake) == Some(t) then None else old(wake)
    {
      cancelled := cancelled - {t};
      if wake == Some(t) {
        wake := None;
      }
    }
  }

  // -- Whole runs ---------------------------------------------------------------------------

  datatype Step =
    | Command(order: OrderId)
    | Records(records: seq<Record>)
    | Run
    | Publish(id: EventId)
    | Timeout(id: EventId)
    | Applies(id: EventId)
    | OrderKnown(order: OrderId)
    | OrderGone(order: OrderId)
    | Disconnect
    | TaskEnds(t: TaskId)

  /** The records among the items, in order. */
  function RecordsOf(items: seq<Item>): seq<Record> {
    if items == [] then []
    else
      var last := items[|items| - 1];
      RecordsOf(items[..|items| - 1]) + if last.Held? then [last.record] else []
  }

  lemma {:induction false} RecordsGrow(items: seq<Item>, more: seq<Item>, records: seq<Record>)
    requires |more| == |records| && forall i :: 0 <= i < |more| ==> more[i] == Held(records[i])
    ensures RecordsOf(items + more) == RecordsOf(items) + records
  {
    if more == [] {
      assert items + more == items && RecordsOf(items) + records == RecordsOf(items);
    } else {
      var n := |more| - 1;
      RecordsGrow(items, more[..n], records[..n]);
      assert (items + more)[..|items| + n] == items + more[..n];
      assert records == records[..n] + [records[n]];
    }
  }

  lemma NoRecord(items: seq<Item>, item: Item)
    requires item.Deferred?
    ensures RecordsOf(items + [item]) == RecordsOf(items)
  {
    assert (items + [item])[..|items|] == items;
  }

  lemma NoneGiven()
    ensures RecordsOf([]) == []
  {
  }

  /** The records given to the client since the last detach of a run. */
  function RecordsGiven(steps: seq<Step>): seq<Record> {
    if steps == [] then []
    else
      var before, last := RecordsGiven(steps[..|steps| - 1]), steps[|steps| - 1];
      match last
      case Records(records) => before + records
      case Disconnect => []
      case _ => before
  }

  /** One step; one that cannot happen now changes nothing. */
  method Take(client: Client, step: Step)
    requires client.Valid()
    modifies client
    ensures client.Valid()
    ensures RecordsOf(client.submitted) ==
            if step == Disconnect then []
            else old(RecordsOf(client.submitted)) + if step.Records? then step.records else []
    ensures client.applied == old(client.applied) + (if step.Applies? then {step.id} else {})
    ensures client.orders == if step.OrderKnown? then old(client.orders) + {step.order}
                             else if step.OrderGone? then old(client.orders) - {step.order}
                             else old(client.orders)
    ensures step == Run && old(client.task.Some? && (client.suspended ==> client.woken)) ==>
              client.task.None? || (client.suspended && !client.woken)
    ensures step.TaskEnds? ==> client.cancelled == old(client.cancelled) - {step.t}
    ensures step.Timeout? ==> client.unapplied == old(client.unapplied) - {step.id}
    ensures step.Publish? && step.id in old(client.applied) ==> client.unapplied == old(client.unapplied) - {step.id}
  {
    ghost var given := client.submitted;
    hide RecordsOf;
    match step {
      case Command(order) =>
        client.Answer(order);
        NoRecord(given, client.submitted[|given|]);
      case Records(records) =>
        client.HandleRecords(records);
        assert client.submitted == given + client.submitted[|given|..];
        RecordsGrow(given, client.submitted[|given|..], records);
      case Run =>
        if client.task.Some? && (client.suspended ==> client.woken) {
          client.Deliver();
        }
      case Publish(id) => client.Published(id);
      case Timeout(id) => client.Expire(id);
      case Applies(id) => client.Apply(id);
      case OrderKnown(order) => client.Know(order, true);
      case OrderGone(order) => client.Know(order, false);
      case Disconnect =>
        client.Detach();
        NoneGiven();
      case TaskEnds(t) =>
        if t in client.cancelled {
          client.CancelledEnds(t);
        }
    }
  }

  /**
   Over every run: what Nautilus was handed since the last detach, followed by what is held, is
   what was submitted; no report or activity overtook an event, none of which was taken for settled
   before Nautilus had applied it or lost its order; and held items never lack a task
   that will run, being awake or waiting for an event whose timer is armed.
   */
  method RunAll(steps: seq<Step>) returns (client: Client)
    ensures Delivered(client.log) + client.outbox == client.submitted
    ensures RecordsOf(client.submitted) == RecordsGiven(steps)
    ensures forall i, j ::
              0 <= j < i < |client.log| && client.log[j].Sent? && client.log[i].Took? &&
              client.log[i].record.Report? ==>
                Over(client.log, j, i, client.log[j].event.id)
    ensures forall k :: 0 <= k < |client.log| && client.log[k].Settled? ==>
              NoLongerQueued(client.log[..k], client.log[k].id)
    ensures client.outbox != [] ==>
              client.task.Some? && (!client.suspended || client.woken || client.unapplied != map[])
  {
    client := new Client();
    for i := 0 to |steps|
      invariant fresh(client) && client.Valid() && RecordsOf(client.submitted) == RecordsGiven(steps[..i])
    {
      assert steps[..i + 1][..i] == steps[..i];
      Take(client, steps[i]);
    }
    assert steps[..|steps|] == steps;
    ghost var log := client.log;
    forall i, j | 0 <= j < i < |log| && log[j].Sent? && log[i].Took? && log[i].record.Report?
      ensures Over(log, j, i, log[j].event.id)
    {
      NothingOvertaken(log, j, i);
    }
    forall k | 0 <= k < |log| && log[k].Settled?
      ensures NoLongerQueued(log[..k], log[k].id)
    {
      FoundedAt(log, k);
    }
  }
}
