/**
 Subscribes that wait for their instrument's conversion chain, in the data client. A subscribe
 converts the chain first; a refused chain is retried on a timer, with the subscribes waiting on
 it. An unsubscribe may come at any await in between. One instrument is modelled, with any number
 of consumers and of subscribes; every method is one step between awaits.
 */
module Conversion {
  import opened Wrappers

  type Consumer = nat
  type SubId = nat
  type RetryId = nat

  /** One subscribe of a consumer. */
  datatype Sub = Sub(id: SubId, consumer: Consumer)

  /** How a conversion ended: usable, refused for now, its instrument dropped, or an error raised. */
  datatype Conversion = Ready | Refused | Dropped | Raised

  /** Why a wanted subscribe was given up for good. */
  datatype Cause = InstrumentDropped | NotLoaded | NotConnected | AdapterRaised

  datatype Entry =
    | Subscribed(sub: Sub)
    | Unsubscribed(consumer: Consumer)
    | Started(sub: Sub)
    | GivenUp(sub: Sub)
    | Replaced(sub: Sub, heir: Sub)
    | Lost(subs: set<Sub>, cause: Cause)
    | Reset

  /** The subscribes made since their consumer last unsubscribed and the client last connected. */
  ghost function Wanted(log: seq<Entry>): set<Sub> {
    if log == [] then {}
    else
      WantedAfter(Wanted(log[..|log| - 1]), log[|log| - 1])
  }

  ghost function WantedAfter(before: set<Sub>, entry: Entry): set<Sub> {
    match entry
    case Subscribed(sub) => before + {sub}
    case Unsubscribed(consumer) => set sub | sub in before && sub.consumer != consumer
    case Reset => {}
    case _ => before
  }

  /** The subscribes whose venue subscription was started. */
  ghost function Begun(log: seq<Entry>): set<Sub> {
    if log == [] then {}
    else
      var before, last := Begun(log[..|log| - 1]), log[|log| - 1];
      if last.Started? then before + {last.sub} else before
  }

  /** The subscribes that gave their place in the retry to another one of their consumer. */
  ghost function Superseded(log: seq<Entry>): set<Sub> {
    if log == [] then {}
    else
      var before, last := Superseded(log[..|log| - 1]), log[|log| - 1];
      if last.Replaced? then before + {last.sub} else before
  }

  /** The subscribes lost while they were wanted. */
  ghost function LostSubs(log: seq<Entry>): set<Sub> {
    if log == [] then {}
    else
      var before, last := LostSubs(log[..|log| - 1]), log[|log| - 1];
      if last.Lost? then before + last.subs else before
  }

  /** What consumers and connections did, without what came of it. */
  datatype Command = Asks(consumer: Consumer) | Leaves(consumer: Consumer) | Reconnects

  /** The commands behind a log, in order. */
  ghost function Commands(log: seq<Entry>): seq<Command> {
    if log == [] then []
    else
      var before, last := Commands(log[..|log| - 1]), log[|log| - 1];
      match last
      case Subscribed(sub) => before + [Asks(sub.consumer)]
      case Unsubscribed(consumer) => before + [Leaves(consumer)]
      case Reset => before + [Reconnects]
      case _ => before
  }

  /** Whether an entry may follow when `wanted` are the subscribes wanted. */
  ghost predicate Allowed(entry: Entry, wanted: set<Sub>) {
    match entry
    case Started(sub) => sub in wanted
    case GivenUp(sub) => sub !in wanted
    case Replaced(sub, heir) => sub in wanted && heir in wanted && heir.consumer == sub.consumer && heir != sub
    case Lost(subs, _) => subs <= wanted
    case _ => true
  }

  /** Only wanted subscribes were started, none of them was given up as unwanted, and one only gave way to another. */
  ghost predicate Faithful(log: seq<Entry>) {
    log == [] || (Faithful(log[..|log| - 1]) && Allowed(log[|log| - 1], Wanted(log[..|log| - 1])))
  }

  lemma Append(log: seq<Entry>, entry: Entry)
    ensures Wanted(log + [entry]) == WantedAfter(Wanted(log), entry)
    ensures Begun(log + [entry]) == if entry.Started? then Begun(log) + {entry.sub} else Begun(log)
    ensures Superseded(log + [entry]) == if entry.Replaced? then Superseded(log) + {entry.sub} else Superseded(log)
    ensures LostSubs(log + [entry]) == if entry.Lost? then LostSubs(log) + entry.subs else LostSubs(log)
    ensures Faithful(log + [entry]) <==> Faithful(log) && Allowed(entry, Wanted(log))
    ensures entry.Subscribed? ==> Commands(log + [entry]) == Commands(log) + [Asks(entry.sub.consumer)]
    ensures entry.Unsubscribed? ==> Commands(log + [entry]) == Commands(log) + [Leaves(entry.consumer)]
    ensures entry.Reset? ==> Commands(log + [entry]) == Commands(log) + [Reconnects]
    ensures !entry.Subscribed? && !entry.Unsubscribed? && !entry.Reset? ==> Commands(log + [entry]) == Commands(log)
  {
    var now := log + [entry];
    assert now[..|now| - 1] == log && now[|now| - 1] == entry;
  }

  /** The consumer unsubscribed, or the client connected anew, between `j` and `i`. */
  ghost predicate Withdrawn(log: seq<Entry>, j: int, i: int, consumer: Consumer)
    requires 0 <= j && i <= |log|
  {
    exists k :: j < k < i && (log[k] == Unsubscribed(consumer) || log[k] == Reset)
  }

  /** `sub` was made at `j`, and not again since. */
  ghost predicate MadeAt(log: seq<Entry>, j: int, sub: Sub) {
    0 <= j < |log| && log[j] == Subscribed(sub) && forall k :: j < k < |log| ==> log[k] != Subscribed(sub)
  }

  /** A subscribe is wanted exactly while it is made and not withdrawn since. */
  lemma {:induction false} WantedUntilWithdrawn(log: seq<Entry>, j: nat, sub: Sub)
    requires MadeAt(log, j, sub)
    ensures sub in Wanted(log) <==> !Withdrawn(log, j, |log|, sub.consumer)
  {
    var n := |log| - 1;
    var before := log[..n];
    if j < n {
      assert forall k :: 0 <= k < n ==> before[k] == log[k];
      WantedUntilWithdrawn(before, j, sub);
      assert Withdrawn(log, j, |log|, sub.consumer) <==>
          Withdrawn(before, j, n, sub.consumer) || log[n] == Unsubscribed(sub.consumer) || log[n] == Reset;
    }
  }

  /** A wanted subscribe was made. */
  lemma {:induction false} WantedWasMade(log: seq<Entry>, sub: Sub) returns (j: nat)
    requires sub in Wanted(log)
    ensures MadeAt(log, j, sub)
  {
    var n := |log| - 1;
    if log[n] == Subscribed(sub) {
      j := n;
    } else {
      j := WantedWasMade(log[..n], sub);
      assert forall k :: 0 <= k < n ==> log[..n][k] == log[k];
    }
  }

  lemma {:induction false} FaithfulAt(log: seq<Entry>, i: nat)
    requires Faithful(log) && i < |log|
    ensures Allowed(log[i], Wanted(log[..i]))
  {
    var before := log[..|log| - 1];
    if i < |log| - 1 {
      FaithfulAt(before, i);
      assert before[..i] == log[..i];
    }
  }

  /**
   Once a consumer unsubscribes, no earlier subscribe of it is started; and a subscribe given up
   as unwanted was followed by an unsubscribe: none abandons a subscribe made after it.
   */
  lemma StartedOnlyWanted(log: seq<Entry>, j: nat, i: nat)
    requires Faithful(log) && j < i < |log| && (log[i].Started? || log[i].GivenUp?)
    requires MadeAt(log[..i], j, log[i].sub)
    ensures log[i].Started? ==> !Withdrawn(log, j, i, log[i].sub.consumer)
    ensures log[i].GivenUp? ==> Withdrawn(log, j, i, log[i].sub.consumer)
  {
    FaithfulAt(log, i);
    WantedUntilWithdrawn(log[..i], j, log[i].sub);
    assert forall k :: 0 <= k < i ==> log[..i][k] == log[k];
    assert Withdrawn(log[..i], j, i, log[i].sub.consumer) <==> Withdrawn(log, j, i, log[i].sub.consumer);
  }

  /** Every venue subscription started goes back to a subscribe not withdrawn in between. */
  lemma StartedWasMade(log: seq<Entry>, i: nat) returns (j: nat)
    requires Faithful(log) && i < |log| && log[i].Started?
    ensures j < i && log[j] == Subscribed(log[i].sub) && !Withdrawn(log, j, i, log[i].sub.consumer)
  {
    FaithfulAt(log, i);
    j := WantedWasMade(log[..i], log[i].sub);
    StartedOnlyWanted(log, j, i);
  }

  /** Where a retry is: between attempts, converting the chain, completing those waiting, or over. */
  datatype Phase = Sleeping | Attempting | Completing | Over

  /** The timer retrying the refused chain, and the subscribe of each consumer waiting on it. */
  datatype Retry = Retry(id: RetryId, waiting: map<Consumer, SubId>, phase: Phase)
  {
    predicate Running() {
      phase != Over
    }

    predicate Holds(sub: Sub) {
      Running() && sub.consumer in waiting && waiting[sub.consumer] == sub.id
    }

    function Waiting(): (subs: set<Sub>)
      ensures Running() ==> forall sub :: sub in subs <==> Holds(sub)
    {
      set c | c in waiting :: Sub(waiting[c], c)
    }
  }

  /** A conversion under way for a subscribe, begun on connection `generation`. */
  datatype Converting = Converting(consumer: Consumer, generation: nat)

  /** Something will still come of the subscribe: it converts its chain, or waits on the running retry. */
  predicate Placed(sub: Sub, converting: map<SubId, Converting>, retry: Option<Retry>) {
    || (sub.id in converting && converting[sub.id].consumer == sub.consumer)
    || (retry.Some? && retry.value.Holds(sub))
  }

  /** Started, lost, or with a place where something will still come of it. */
  ghost predicate Answered(sub: Sub, log: seq<Entry>, converting: map<SubId, Converting>, retry: Option<Retry>) {
    sub in Begun(log) || sub in LostSubs(log) || Placed(sub, converting, retry)
  }

  /** Who leaves the retry takes no other's place away. */
  lemma PlacedWithout(consumer: Consumer, converting: map<SubId, Converting>, retry: Retry)
    ensures var left := retry.(waiting := retry.waiting - {consumer});
      && (forall s: Sub :: s.consumer != consumer ==>
            (Placed(s, converting, Some(retry)) <==> Placed(s, converting, Some(left))))
      && (forall s: Sub :: Placed(s, converting, Some(retry)) && !Placed(s, converting, Some(left)) ==>
            consumer in retry.waiting && s == Sub(retry.waiting[consumer], consumer))
      && (left.waiting == map[] ==> forall s: Sub :: Placed(s, converting, Some(left)) <==> Placed(s, converting, None))
  {
  }

  /** Who joins a running retry takes a place, and at most one of its own consumer's away. */
  lemma PlacedAfter(sub: Sub, converting: map<SubId, Converting>, retry: Retry)
    requires retry.Running()
    ensures var joined := Some(retry.(waiting := retry.waiting[sub.consumer := sub.id]));
      && Placed(sub, converting, joined)
      && forall s :: Placed(s, converting, Some(retry)) ==>
           || Placed(s, converting, joined)
           || (sub.consumer in retry.waiting && s == Sub(retry.waiting[sub.consumer], sub.consumer))
  {
  }

  /** A new conversion is a place more. */
  lemma PlacedIn(sub: Sub, converting: map<SubId, Converting>, now: map<SubId, Converting>, retry: Option<Retry>)
    requires sub.id !in converting && now - {sub.id} == converting
    requires sub.id in now && now[sub.id].consumer == sub.consumer
    ensures Placed(sub, now, retry) && forall s :: Placed(s, converting, retry) ==> Placed(s, now, retry)
  {
  }

  /** Why a wanted subscribe is lost when a conversion ends so, if it is. */
  function CauseOf(result: Conversion, connected: bool): Option<Cause> {
    match result
    case Ready => None
    case Refused => if connected then None else Some(NotConnected)
    case Dropped => Some(InstrumentDropped)
    case Raised => Some(AdapterRaised)
  }

  /** The retry a refused subscribe joins: the one that is running, or a new one. */
  function RetryFor(retry: Option<Retry>, next: RetryId): Retry {
    if retry.Some? && retry.value.Running() then retry.value else Retry(next, map[], Sleeping)
  }

  /** A retry once a subscribe has joined it, in the place of any other of its consumer. */
  function Joined(retry: Retry, sub: Sub): Retry {
    retry.(waiting := retry.waiting[sub.consumer := sub.id])
  }

  function LogJoined(log: seq<Entry>, retry: Retry, sub: Sub): seq<Entry> {
    if sub.consumer !in retry.waiting then log
    else log + [Replaced(Sub(retry.waiting[sub.consumer], sub.consumer), sub)]
  }

  /** The retry and the log that a conversion's end leaves, for a wanted subscribe. */
  function Resolved(sub: Sub, result: Conversion, connected: bool, retry: Option<Retry>, next: RetryId, log: seq<Entry>)
    : (Option<Retry>, seq<Entry>)
  {
    match CauseOf(result, connected)
    case Some(cause) => (retry, log + [Lost({sub}, cause)])
    case None =>
      if result == Ready then (retry, log + [Started(sub)])
      else (Some(Joined(RetryFor(retry, next), sub)), LogJoined(log, RetryFor(retry, next), sub))
  }

  class Client {
    /** The markers of the conversions under way, by consumer; an unsubscribe takes its own away. */
    var preparing: map<Consumer, set<SubId>>
    var converting: map<SubId, Converting>
    var retry: Option<Retry>
    var generation: nat
    var connected: bool
    var nextSub: SubId
    var nextRetry: RetryId
    /** The subscribes and unsubscribes of the run, and what became of them. */
    var log: seq<Entry>
    /** Of each consumer that wants something, a subscribe that did not give way to another. */
    ghost var standing: map<Consumer, Sub>

    predicate Marked(id: SubId, consumer: Consumer)
      reads this`preparing
    {
      consumer in preparing && id in preparing[consumer]
    }

    ghost predicate Valid()
      reads this
    {
      Consistent() && forall sub :: sub in Wanted(log) ==> Accounted(sub, None)
    }

    /** Valid, but for one subscribe that has left its place and not come to another yet. */
    ghost predicate ValidBut(moving: Sub)
      reads this
    {
      && Consistent() && moving in Wanted(log)
      && forall sub :: sub in Wanted(log) && sub != moving ==> Accounted(sub, Some(moving))
    }

    /** The markers and the retry agree with what is wanted. */
    ghost predicate Consistent()
      reads this
    {
      && Faithful(log)
      && (forall sub :: sub in Wanted(log) ==> sub.id < nextSub)
      && (forall id :: id in converting ==> id < nextSub)
      && (forall id :: id in converting ==>
            (Marked(id, converting[id].consumer) <==> Sub(id, converting[id].consumer) in Wanted(log)))
      && (forall id :: id in converting && Sub(id, converting[id].consumer) in Wanted(log) ==>
            converting[id].generation == generation)
      && (forall c, id :: Marked(id, c) ==> id in converting && converting[id].consumer == c)
      && (retry.Some? ==> retry.value.id < nextRetry)
      && (retry.Some? ==> forall sub :: retry.value.Holds(sub) ==> sub in Wanted(log))
      && (retry.Some? ==> forall id :: id in converting ==> !retry.value.Holds(Sub(id, converting[id].consumer)))
    }

    /** A wanted subscribe is answered or gave way, and one of its consumer that is wanted is answered. */
    ghost predicate Accounted(sub: Sub, moving: Option<Sub>)
      reads this`converting, this`retry, this`log, this`standing
    {
      && (Answered(sub, log, converting, retry) || sub in Superseded(log))
      && sub.consumer in standing
      && (var heir := standing[sub.consumer];
          && heir in Wanted(log) && heir.consumer == sub.consumer
          && (Answered(heir, log, converting, retry) || moving == Some(heir)))
    }

    constructor ()
      ensures Valid() && log == [] && connected && retry == None && converting == map[]
    {
      preparing, converting, retry := map[], map[], None;
      generation, connected, nextSub, nextRetry := 0, true, 0, 0;
      log, standing := [], map[];
    }

    /** The subscribe is started on the venue. */
    method Start(sub: Sub)
      requires ValidBut(sub) && (retry.Some? ==> !retry.value.Holds(sub))
      modifies this`log, this`standing
      ensures Valid() && log == old(log) + [Started(sub)]
      ensures LostSubs(log) == old(LostSubs(log)) && Wanted(log) == old(Wanted(log))
      ensures Commands(log) == old(Commands(log))
    {
      hide Wanted, Begun, Superseded, LostSubs, Faithful, Commands, Placed;
      Append(log, Started(sub));
      log, standing := log + [Started(sub)], standing[sub.consumer := sub];
    }

    /** Nothing will come of the subscribe any more. */
    method Lose(sub: Sub, cause: Cause)
      requires ValidBut(sub)
      modifies this`log, this`standing
      ensures Valid() && log == old(log) + [Lost({sub}, cause)]
      ensures LostSubs(log) == old(LostSubs(log)) + {sub} && Wanted(log) == old(Wanted(log))
      ensures Commands(log) == old(Commands(log))
    {
      hide Wanted, Begun, Superseded, LostSubs, Faithful, Commands, Placed;
      Append(log, Lost({sub}, cause));
      log, standing := log + [Lost({sub}, cause)], standing[sub.consumer := sub];
    }

    /** The subscribe waits on the running retry, in the place of any other of its consumer. */
    method Enqueue(sub: Sub)
      requires ValidBut(sub) && sub.id !in converting
      requires retry.Some? && retry.value.Running() && !retry.value.Holds(sub)
      modifies this`retry, this`log, this`standing
      ensures Valid() && retry == Some(Joined(old(retry).value, sub))
      ensures log == LogJoined(old(log), old(retry).value, sub)
      ensures LostSubs(log) == old(LostSubs(log)) && Wanted(log) == old(Wanted(log))
      ensures Commands(log) == old(Commands(log))
    {
      hide Wanted, Begun, Superseded, LostSubs, Faithful, Commands, Placed;
      PlacedAfter(sub, converting, retry.value);
      if sub.consumer in retry.value.waiting {
        var gone := Sub(retry.value.waiting[sub.consumer], sub.consumer);
        assert retry.value.Holds(gone);
        Append(log, Replaced(gone, sub));
        log := log + [Replaced(gone, sub)];
      }
      retry := Some(retry.value.(waiting := retry.value.waiting[sub.consumer := sub.id]));
      standing := standing[sub.consumer := sub];
    }

    /** A subscribe: it joins the retry that is running, or converts the chain itself. */
    method Subscribe(consumer: Consumer) returns (id: SubId)
      requires Valid()
      modifies this
      ensures Valid() && id == old(nextSub) && generation == old(generation) && connected == old(connected)
      ensures old(retry).Some? && old(retry).value.Running() ==>
                converting == old(converting) && retry == Some(Joined(old(retry).value, Sub(id, consumer)))
      ensures !(old(retry).Some? && old(retry).value.Running()) ==>
                && converting == old(converting)[id := Converting(consumer, generation)]
                && retry == old(retry) && Marked(id, consumer)
      ensures Sub(id, consumer) in Wanted(log) && nextRetry == old(nextRetry)
      ensures Commands(log) == old(Commands(log)) + [Asks(consumer)]
      ensures LostSubs(log) == old(LostSubs(log))
    {
      hide *;
      id := Note(consumer);
      if retry.Some? && retry.value.Running() {
        Enqueue(Sub(id, consumer));
      } else {
        Convert(Sub(id, consumer));
      }
    }

    method Note(consumer: Consumer) returns (id: SubId)
      requires Valid()
      modifies this`nextSub, this`log
      ensures id == old(nextSub) && log == old(log) + [Subscribed(Sub(id, consumer))]
      ensures LostSubs(log) == old(LostSubs(log)) && Sub(id, consumer) in Wanted(log)
      ensures Commands(log) == old(Commands(log)) + [Asks(consumer)]
      ensures ValidBut(Sub(id, consumer)) && (retry.Some? ==> !retry.value.Holds(Sub(id, consumer)))
      ensures nextSub == id + 1 && id !in converting
    {
      hide Wanted, Begun, Superseded, LostSubs, Faithful, Commands, Placed;
      id := nextSub;
      nextSub := nextSub + 1;
      Append(log, Subscribed(Sub(id, consumer)));
      log := log + [Subscribed(Sub(id, consumer))];
    }

    /** The subscribe converts its chain, marked for its consumer to take back. */
    method Convert(sub: Sub)
      requires ValidBut(sub) && sub.id !in converting && (retry.Some? ==> !retry.value.Holds(sub))
      modifies this`converting, this`preparing, this`standing
      ensures Valid() && converting == old(converting)[sub.id := Converting(sub.consumer, generation)]
      ensures Marked(sub.id, sub.consumer)
    {
      hide Wanted, Begun, Superseded, LostSubs, Faithful, Commands, Placed;
      var now := converting[sub.id := Converting(sub.consumer, generation)];
      PlacedIn(sub, converting, now, retry);
      converting := converting[sub.id := Converting(sub.consumer, generation)];
      AddMarker(sub.id, sub.consumer);
      standing := standing[sub.consumer := sub];
    }

    method AddMarker(id: SubId, consumer: Consumer)
      modifies this`preparing
      ensures forall i, c :: Marked(i, c) <==> old(Marked(i, c)) || (i == id && c == consumer)
    {
      var markers := if consumer in preparing then preparing[consumer] else {};
      preparing := preparing[consumer := markers + {id}];
    }

    method RemoveMarker(id: SubId, consumer: Consumer)
      modifies this`preparing
      ensures forall i, c :: Marked(i, c) <==> old(Marked(i, c)) && !(i == id && c == consumer)
    {
      if consumer in preparing {
        var markers := preparing[consumer] - {id};
        assert forall i :: i in preparing[consumer] && i != id ==> i in markers;
        preparing := if markers == {} then preparing - {consumer} else preparing[consumer := markers];
      }
    }

    method RemoveMarkers(consumer: Consumer)
      modifies this`preparing
      ensures forall i, c :: Marked(i, c) <==> old(Marked(i, c)) && c != consumer
    {
      preparing := preparing - {consumer};
    }

    /** The wanted subscribe that is lost when conversion `id` ends so. */
    ghost function LosesConverted(id: SubId, result: Conversion): set<Sub>
      reads this
    {
      if id !in converting || CauseOf(result, connected).None? then {}
      else {Sub(id, converting[id].consumer)} * Wanted(log)
    }

    /** Those that are lost when the retry's attempt ends so. */
    ghost function LosesAttempted(result: Conversion): set<Sub>
      reads this
    {
      if retry.None? || retry.value.phase != Attempting || CauseOf(result, true).None? then {}
      else retry.value.Waiting()
    }

    /** Those that are lost if the retry, when it wakes, finds its instrument not loaded. */
    ghost function LosesUnloaded(): set<Sub>
      reads this
    {
      if retry.None? || retry.value.phase != Sleeping then {} else retry.value.Waiting()
    }

    /** Takes a conversion's marker away; whether it was still there says whether it is wanted. */
    method TakeMarker(id: SubId) returns (wanted: bool)
      requires Valid() && id in converting
      modifies this`preparing, this`converting
      ensures converting == old(converting) - {id}
      ensures wanted <==> Sub(id, old(converting)[id].consumer) in Wanted(log)
      ensures wanted ==> old(converting)[id].generation == generation
      ensures retry.Some? ==> !retry.value.Holds(Sub(id, old(converting)[id].consumer))
      ensures if wanted then ValidBut(Sub(id, old(converting)[id].consumer)) else Valid()
    {
      hide Wanted, Begun, Superseded, LostSubs, Faithful, Commands;
      var consumer := converting[id].consumer;
      wanted := Marked(id, consumer);
      RemoveMarker(id, consumer);
      converting := converting - {id};
    }

    /** An unwanted subscribe comes to nothing. */
    method GiveUp(sub: Sub)
      requires Valid() && sub !in Wanted(log)
      modifies this`log
      ensures Valid() && log == old(log) + [GivenUp(sub)]
      ensures LostSubs(log) == old(LostSubs(log)) && Wanted(log) == old(Wanted(log))
      ensures Commands(log) == old(Commands(log))
    {
      hide Wanted, Begun, Superseded, LostSubs, Faithful, Commands, Placed;
      Append(log, GivenUp(sub));
      log := log + [GivenUp(sub)];
    }

    /** Starts a retry, unless one is running already. */
    method EnsureRetry(sub: Sub)
      requires ValidBut(sub) && (retry.Some? ==> !retry.value.Holds(sub))
      modifies this`retry, this`nextRetry
      ensures ValidBut(sub) && retry.Some? && retry.value.Running() && !retry.value.Holds(sub)
      ensures retry == Some(RetryFor(old(retry), old(nextRetry)))
    {
      hide Wanted, Begun, Superseded, LostSubs, Faithful, Commands;
      if retry.None? || !retry.value.Running() {
        retry, nextRetry := Some(Retry(nextRetry, map[], Sleeping)), nextRetry + 1;
      }
    }

    /**
     A subscribe's conversion ended. An unwanted one is given up; a wanted one starts, waits on the
     retry if it was refused, or is lost with its instrument, the connection or an error.
     */
    method ConversionEnds(id: SubId, result: Conversion)
      requires Valid() && id in converting
      modifies this
      ensures Valid() && converting == old(converting) - {id} && connected == old(connected)
      ensures var sub := Sub(id, old(converting)[id].consumer);
              if sub in old(Wanted(log))
              then (retry, log) == Resolved(sub, result, connected, old(retry), old(nextRetry), old(log))
              else log == old(log) + [GivenUp(sub)] && retry == old(retry)
      ensures LostSubs(log) == old(LostSubs(log)) + old(LosesConverted(id, result)) && Wanted(log) == old(Wanted(log))
      ensures Commands(log) == old(Commands(log))
    {
      var sub := Sub(id, converting[id].consumer);
      // The client connected or disconnected meanwhile: its subscribe is not wanted any more.
      var stale := converting[id].generation != generation;
      hide Client.Valid, Client.ValidBut, Wanted, LostSubs, Resolved;
      var wanted := TakeMarker(id);
      Resolve(sub, wanted && !stale, result);
    }

    method Resolve(sub: Sub, wanted: bool, result: Conversion)
      requires wanted <==> sub in Wanted(log)
      requires if wanted then ValidBut(sub) else Valid()
      requires (retry.Some? ==> !retry.value.Holds(sub)) && sub.id !in converting
      modifies this`retry, this`nextRetry, this`log, this`standing
      ensures Valid()
      ensures if wanted then (retry, log) == Resolved(sub, result, connected, old(retry), old(nextRetry), old(log))
              else log == old(log) + [GivenUp(sub)] && retry == old(retry)
      ensures LostSubs(log) ==
              old(LostSubs(log)) + if wanted && CauseOf(result, connected).Some? then {sub} else {}
      ensures Wanted(log) == old(Wanted(log))
      ensures Commands(log) == old(Commands(log))
    {
      hide Client.Valid, Client.ValidBut, Wanted, LostSubs;
      if !wanted {
        GiveUp(sub);
        return;
      }
      match result {
        case Ready => Start(sub);
        case Dropped => Lose(sub, InstrumentDropped);
        case Raised => Lose(sub, AdapterRaised);
        case Refused =>
          if connected {
            EnsureRetry(sub);
            Enqueue(sub);
          } else {
            Lose(sub, NotConnected);
          }
      }
    }

    // -- The retry --

    /** The retry goes on to another phase. */
    method Proceed(phase: Phase)
      requires Valid() && retry.Some? && retry.value.Running() && phase != Over
      modifies this`retry
      ensures Valid() && retry == Some(old(retry).value.(phase := phase))
    {
      hide Wanted, Begun, Superseded, LostSubs, Faithful, Commands;
      retry := Some(retry.value.(phase := phase));
    }

    /** The retry wakes with the session ready and its instrument loaded. */
    method AttemptStarts()
      requires Valid() && retry.Some? && retry.value.phase == Sleeping
      modifies this`retry
      ensures Valid() && retry == Some(old(retry).value.(phase := Attempting))
    {
      Proceed(Attempting);
    }

    /** The retry is over, and whoever still waits on it is lost. */
    method EndRetry(cause: Cause)
      requires Valid() && retry.Some? && retry.value.Running()
      modifies this`retry, this`log
      ensures Valid() && retry == Some(old(retry).value.(phase := Over))
      ensures log == old(log) + [Lost(old(retry).value.Waiting(), cause)] && Wanted(log) == old(Wanted(log))
      ensures Commands(log) == old(Commands(log))
      ensures LostSubs(log) == old(LostSubs(log)) + old(retry).value.Waiting()
    {
      hide Wanted, Begun, Superseded, LostSubs, Faithful, Commands;
      var lost := retry.value.Waiting();
      Append(log, Lost(lost, cause));
      log := log + [Lost(lost, cause)];
      retry := Some(retry.value.(phase := Over));
    }

    /** The retry wakes and finds its instrument gone. */
    method InstrumentGone()
      requires Valid() && retry.Some? && retry.value.phase == Sleeping
      modifies this`retry, this`log
      ensures Valid() && retry == Some(old(retry).value.(phase := Over))
      ensures log == old(log) + [Lost(old(retry).value.Waiting(), NotLoaded)] && Wanted(log) == old(Wanted(log))
      ensures Commands(log) == old(Commands(log))
      ensures LostSubs(log) == old(LostSubs(log)) + old(retry).value.Waiting()
    {
      EndRetry(NotLoaded);
    }

    /** An attempt ended; the retry goes on after a refusal with somebody waiting, and completes a usable chain. */
    method AttemptEnds(result: Conversion)
      requires Valid() && retry.Some? && retry.value.phase == Attempting
      modifies this`retry, this`log
      ensures Valid() && retry.Some? && retry.value.waiting == old(retry).value.waiting
      ensures result == Ready ==> retry.value.phase == Completing
      ensures result == Refused ==> retry.value.phase == if old(retry).value.waiting == map[] then Over else Sleeping
      ensures result == Dropped || result == Raised ==> retry.value.phase == Over
      ensures log == match CauseOf(result, true)
                     case Some(cause) => old(log) + [Lost(old(retry).value.Waiting(), cause)]
                     case None => old(log)
      ensures LostSubs(log) == old(LostSubs(log)) + old(LosesAttempted(result)) && Wanted(log) == old(Wanted(log))
      ensures Commands(log) == old(Commands(log))
    {
      hide Client.Valid, Wanted, LostSubs;
      if CauseOf(result, true).Some? {
        EndRetry(CauseOf(result, true).value);
      } else if result == Refused && retry.value.waiting == map[] {
        Finish();
      } else {
        Proceed(if result == Ready then Completing else Sleeping);
      }
    }

    /** The chain is subscribed: the retry starts one of those waiting, the others after it. */
    method CompleteOne(consumer: Consumer)
      requires Valid() && retry.Some? && retry.value.phase == Completing && consumer in retry.value.waiting
      modifies this`retry, this`log, this`standing
      ensures Valid() && retry == Some(old(retry).value.(waiting := old(retry).value.waiting - {consumer}))
      ensures log == old(log) + [Started(Sub(old(retry).value.waiting[consumer], consumer))]
      ensures LostSubs(log) == old(LostSubs(log)) && Commands(log) == old(Commands(log))
    {
      var sub := Sub(retry.value.waiting[consumer], consumer);
      Leave(consumer);
      Start(sub);
    }

    /** One consumer's subscribe leaves the retry. */
    method Leave(consumer: Consumer)
      requires Valid() && retry.Some? && retry.value.Running() && consumer in retry.value.waiting
      modifies this`retry
      ensures ValidBut(Sub(old(retry).value.waiting[consumer], consumer))
      ensures retry == Some(old(retry).value.(waiting := old(retry).value.waiting - {consumer}))
    {
      hide Wanted, Begun, Superseded, LostSubs, Faithful, Commands, Placed;
      assert retry.value.Holds(Sub(retry.value.waiting[consumer], consumer));
      PlacedWithout(consumer, converting, retry.value);
      retry := Some(retry.value.(waiting := retry.value.waiting - {consumer}));
    }

    /** Nobody waits any more: the retry is over. */
    method Finish()
      requires Valid() && retry.Some? && retry.value.Running() && retry.value.waiting == map[]
      modifies this`retry
      ensures Valid() && retry == Some(old(retry).value.(phase := Over))
    {
      hide Wanted, Begun, Superseded, LostSubs, Faithful, Commands;
      retry := Some(retry.value.(phase := Over));
    }

    /** A finished retry's done-callback: another may be registered by now. */
    method ForgetRetry(id: RetryId)
      requires Valid() && (retry.Some? && retry.value.id == id ==> !retry.value.Running())
      modifies this`retry
      ensures Valid() && retry == if old(retry).Some? && old(retry).value.id == id then None else old(retry)
    {
      hide Wanted, Begun, Superseded, LostSubs, Faithful, Commands;
      if retry.Some? && retry.value.id == id {
        retry := None;
      }
    }

    // -- Unsubscribing --

    /** An unsubscribe: nothing its consumer asked for before is wanted any more, and nobody else loses a place. */
    method Unsubscribe(consumer: Consumer)
      requires Valid()
      modifies this`retry, this`preparing, this`log
      ensures Valid() && log == old(log) + [Unsubscribed(consumer)] && LostSubs(log) == old(LostSubs(log))
      ensures Commands(log) == old(Commands(log)) + [Leaves(consumer)]
      ensures forall i, c :: Marked(i, c) <==> old(Marked(i, c)) && c != consumer
      ensures forall sub: Sub :: sub.consumer != consumer ==>
                (Placed(sub, converting, retry) <==> Placed(sub, converting, old(retry)))
      ensures old(retry.None? || consumer !in retry.value.waiting) ==> retry == old(retry)
      ensures old(retry.Some? && consumer in retry.value.waiting) ==>
                var waiting := old(retry).value.waiting - {consumer};
                retry == if waiting == map[] && old(retry).value.phase in {Sleeping, Over} then None
                         else Some(old(retry).value.(waiting := waiting))
    {
      hide Wanted, Begun, Superseded, LostSubs, Faithful, Commands, Placed;
      ghost var before := retry;
      if retry.Some? && consumer in retry.value.waiting {
        var waiting := retry.value.waiting - {consumer};
        PlacedWithout(consumer, converting, retry.value);
        // A retry in the middle of an attempt stays registered, for a disconnect to cancel.
        var attempting := retry.value.phase == Attempting || retry.value.phase == Completing;
        retry := if waiting == map[] && !attempting then None else Some(retry.value.(waiting := waiting));
      }
      RemoveMarkers(consumer);
      Append(log, Unsubscribed(consumer));
      log := log + [Unsubscribed(consumer)];
    }

    /** The client connects or disconnects: every subscribe so far is forgotten. */
    method Restart(connected: bool)
      requires Valid()
      modifies this`generation, this`preparing, this`retry, this`connected, this`log
      ensures Valid() && log == old(log) + [Reset] && this.connected == connected && LostSubs(log) == old(LostSubs(log))
      ensures retry == None && Wanted(log) == {} && Commands(log) == old(Commands(log)) + [Reconnects]
      ensures generation == old(generation) + 1 && preparing == map[]
    {
      hide Wanted, Begun, Superseded, LostSubs, Faithful, Commands;
      generation, preparing, retry := generation + 1, map[], None;
      this.connected := connected;
      Append(log, Reset);
      log := log + [Reset];
    }
  }

  // -- Whole runs ---------------------------------------------------------------------------

  datatype Step =
    | Command(command: Command, connected: bool)
    | Converted(id: SubId, result: Conversion)
    | RetryBegins
    | RetryUnloaded
    | RetryConverted(result: Conversion)
    | RetryCompletes(consumer: Consumer)
    | RetryReturns
    | RetryDone(id: RetryId)
    | SessionUp

  /** The subscribes that a step loses, from the state before it. */
  ghost function Loses(client: Client, step: Step): set<Sub>
    reads client
  {
    match step
    case Converted(id, result) => client.LosesConverted(id, result)
    case RetryConverted(result) => client.LosesAttempted(result)
    case RetryUnloaded => client.LosesUnloaded()
    case _ => {}
  }

  /** The steps after which a wanted subscribe may be lost. */
  predicate Fails(step: Step) {
    || (step.Converted? && (step.result == Dropped || step.result == Raised))
    || (step.RetryConverted? && (step.result == Dropped || step.result == Raised))
    || step.RetryUnloaded?
    || (step.Command? && step.command == Reconnects && !step.connected)
  }

  /** Where a step of the retry's own leaves it; one that cannot happen now leaves it where it is. */
  function PhaseAfter(retry: Retry, step: Step): Phase {
    match step
    case RetryBegins => if retry.phase == Sleeping then Attempting else retry.phase
    case RetryUnloaded => if retry.phase == Sleeping then Over else retry.phase
    case RetryConverted(result) =>
      if retry.phase != Attempting then retry.phase
      else if result == Ready then Completing
      else if result == Refused && retry.waiting != map[] then Sleeping
      else Over
    case RetryReturns => if retry.phase == Completing && retry.waiting == map[] then Over else retry.phase
    case _ => retry.phase
  }

  /** A step of the retry's own, rather than of a consumer, a conversion or the connection. */
  predicate OfRetry(step: Step) {
    step.RetryBegins? || step.RetryUnloaded? || step.RetryConverted? || step.RetryCompletes? || step.RetryReturns?
  }

  /** One step; one that cannot happen now changes nothing. */
  method Take(client: Client, step: Step)
    requires client.Valid()
    modifies client
    ensures client.Valid()
    ensures LostSubs(client.log) == old(LostSubs(client.log)) + old(Loses(client, step))
    ensures Commands(client.log) == old(Commands(client.log)) + (if step.Command? then [step.command] else [])
    ensures old(client.connected) && !Fails(step) ==> client.connected
    ensures client.connected == if step == SessionUp then true
                                else if step.Command? && step.command == Reconnects then step.connected
                                else old(client.connected)
    ensures step.Converted? ==> step.id !in client.converting
    ensures step.RetryDone? && old(client.retry).Some? && old(client.retry).value.id == step.id &&
            !old(client.retry).value.Running() ==>
              client.retry.None?
    ensures OfRetry(step) && old(client.retry).Some? ==>
              client.retry.Some? && client.retry.value.phase == PhaseAfter(old(client.retry).value, step)
    ensures step.RetryCompletes? && old(client.retry.Some? && client.retry.value.phase == Completing) ==>
              step.consumer !in client.retry.value.waiting
  {
    hide Client.Valid, LostSubs, Commands;
    match step {
      case Command(Asks(consumer), _) => var _ := client.Subscribe(consumer);
      case Command(Leaves(consumer), _) => client.Unsubscribe(consumer);
      case Command(Reconnects, connected) => client.Restart(connected);
      case Converted(id, result) => if id in client.converting { client.ConversionEnds(id, result); }
      case RetryDone(id) =>
        if client.retry.None? || client.retry.value.id != id || !client.retry.value.Running() {
          client.ForgetRetry(id);
        }
      case SessionUp => SetConnected(client);
      case _ => if client.retry.Some? { TakeRetry(client, step); }
    }
  }

  method SetConnected(client: Client)
    requires client.Valid()
    modifies client`connected
    ensures client.Valid() && client.connected
  {
    client.connected := true;
  }

  /** A step of the retry's own. */
  method TakeRetry(client: Client, step: Step)
    requires client.Valid() && client.retry.Some? && OfRetry(step)
    modifies client
    ensures client.Valid()
    ensures LostSubs(client.log) == old(LostSubs(client.log)) + old(Loses(client, step))
    ensures Commands(client.log) == old(Commands(client.log))
    ensures client.connected == old(client.connected) && client.converting == old(client.converting)
    ensures client.retry.Some? && client.retry.value.phase == PhaseAfter(old(client.retry).value, step)
    ensures step.RetryCompletes? && old(client.retry).value.phase == Completing ==>
              step.consumer !in client.retry.value.waiting
  {
    hide Client.Valid, LostSubs, Commands;
    var retry := client.retry.value;
    match step {
      case RetryBegins => if retry.phase == Sleeping { client.AttemptStarts(); }
      case RetryUnloaded => if retry.phase == Sleeping { client.InstrumentGone(); }
      case RetryConverted(result) => if retry.phase == Attempting { client.AttemptEnds(result); }
      case RetryCompletes(consumer) =>
        if retry.phase == Completing && consumer in retry.waiting { client.CompleteOne(consumer); }
      case RetryReturns => if retry.phase == Completing && retry.waiting == map[] { client.Finish(); }
    }
  }

  /** The commands of a run, in order. */
  function CommandsGiven(steps: seq<Step>): seq<Command> {
    if steps == [] then []
    else
      var last := steps[|steps| - 1];
      CommandsGiven(steps[..|steps| - 1]) + if last.Command? then [last.command] else []
  }

  /**
   Over every interleaving only wanted subscribes start and only unwanted ones are given up; and a
   subscribe not withdrawn since is started, under way or lost, or gave its place in the retry to
   another one of its consumer that is. None is lost without a failure or a disconnect.
   */
  method RunAll(steps: seq<Step>) returns (log: seq<Entry>, converting: map<SubId, Converting>, retry: Option<Retry>)
    ensures Faithful(log) && Commands(log) == CommandsGiven(steps)
    ensures forall j, sub :: MadeAt(log, j, sub) && !Withdrawn(log, j, |log|, sub.consumer) ==>
              || Answered(sub, log, converting, retry)
              || (&& sub in Superseded(log)
                  && exists heir :: heir in Wanted(log) && heir.consumer == sub.consumer
                       && Answered(heir, log, converting, retry))
    ensures (forall i :: 0 <= i < |steps| ==> !Fails(steps[i])) ==> LostSubs(log) == {}
  {
    var client := new Client();
    for i := 0 to |steps|
      invariant fresh(client) && client.Valid() && Commands(client.log) == CommandsGiven(steps[..i])
      invariant (forall k :: 0 <= k < i ==> !Fails(steps[k])) ==> client.connected && LostSubs(client.log) == {}
    {
      assert steps[..i + 1][..i] == steps[..i];
      ghost var loses := Loses(client, steps[i]);
      assert client.connected && !Fails(steps[i]) ==> loses == {};
      Take(client, steps[i]);
    }
    assert steps[..|steps|] == steps;
    log, converting, retry := client.log, client.converting, client.retry;
    forall j, sub | MadeAt(log, j, sub) && !Withdrawn(log, j, |log|, sub.consumer)
      ensures client.Accounted(sub, None)
    {
      WantedUntilWithdrawn(log, j, sub);
    }
  }

  // -- Losing a subscribe that waits --------------------------------------------------------

  /** A consumer's first subscribe is refused and waits on a retry of its own. */
  method Waits(client: Client, consumer: Consumer) returns (sub: Sub)
    requires client.Valid() && client.connected && client.retry == None
    modifies client
    ensures client.Valid() && client.retry.Some?
    ensures client.retry.value.phase == Sleeping && client.retry.value.Holds(sub)
    ensures sub.consumer == consumer && sub in Wanted(client.log) && sub.id !in client.converting
  {
    hide Wanted, Client.Valid;
    var id := client.Subscribe(consumer);
    sub := Sub(id, consumer);
    client.ConversionEnds(id, Refused);
  }

  /** An error raised in an attempt loses a subscribe that is still wanted: nothing will come of it. */
  method RaiseLoses(client: Client, consumer: Consumer) returns (sub: Sub)
    requires client.Valid() && client.connected && client.retry == None
    modifies client
    ensures client.Valid() && sub.consumer == consumer && sub in Wanted(client.log) && sub in LostSubs(client.log)
    ensures !Placed(sub, client.converting, client.retry)
  {
    hide Wanted, LostSubs, Client.Valid;
    sub := Waits(client, consumer);
    client.AttemptStarts();
    client.AttemptEnds(Raised);
  }

  /** So does an instrument that is not loaded when the retry wakes. */
  method UnloadedLoses(client: Client, consumer: Consumer) returns (sub: Sub)
    requires client.Valid() && client.connected && client.retry == None
    modifies client
    ensures client.Valid() && sub.consumer == consumer && sub in Wanted(client.log) && sub in LostSubs(client.log)
    ensures !Placed(sub, client.converting, client.retry)
  {
    hide Wanted, LostSubs, Client.Valid;
    sub := Waits(client, consumer);
    client.InstrumentGone();
  }
}
