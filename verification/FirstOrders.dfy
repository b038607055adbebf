/**
 The fixed sequence of `first_orders.py` as a state machine: events in, actions out. It buys with
 two levels, cancels the take-profit and closes; buys again, waits for two changes by hand, and
 closes the rest. Whatever goes wrong, it stops.
 */
module FirstOrders {
  import opened Wrappers

  type OrderId = nat
  type PositionId = nat

  datatype Stage =
    | WaitQuote
    | FirstBracket
    | CancellingTakeProfit
    | ClosingFirst
    | SecondBracket
    | Manual
    | ClosingSecond
    | Finished

  datatype Ids = Ids(entry: OrderId, stopLoss: OrderId, takeProfit: OrderId)

  datatype Change = LevelMoved | PartiallyClosed

  /** What the machine is fed; `Activity` names one of the two changes, or something else by hand. */
  datatype Event =
    | Quote(ask: int)
    | BracketSubmitted(ids: Ids)
    | Refused(order: OrderId)
    | CancelRefused(order: OrderId)
    | Activity(byHand: bool, change: Option<Change>)
    | WaitExpired
    | Canceled(order: OrderId)
    | Expired(order: OrderId)
    | Accepted(order: OrderId)
    | Opened(order: OrderId, position: PositionId, quantity: int)
    | Changed(position: PositionId, quantity: int)
    | Closed(position: PositionId)
    | Other

  datatype Action =
    | Submit(quantity: int, stopLoss: int, takeProfit: int)
    | CancelLeg(order: OrderId)
    | Close(position: PositionId)
    | Prompt(waits: bool)
    | Done

  /** The distance of the levels, and the quantity of each bracket. */
  datatype Plan = Plan(distance: int, first: int, second: int)

  datatype State = State(
    stage: Stage,
    ask: Option<int>,
    bracket: Option<Ids>,
    accepted: set<OrderId>,
    position: Option<PositionId>,
    quantity: Option<int>,
    seen: set<Change>)

  const START := State(WaitQuote, None, None, {}, None, None, {})

  // -- One event ----------------------------------------------------------------------------

  function Stopped(s: State): (State, seq<Action>) {
    (s.(stage := Finished), [Prompt(false), Done])
  }

  function Buy(s: State, plan: Plan, quantity: int): Action
    requires s.ask.Some?
  {
    Submit(quantity, s.ask.value - plan.distance, s.ask.value + plan.distance)
  }

  /** Closes the rest of the second position, if one was reported for its entry. */
  function ClosedSecond(s: State, before: seq<Action>): (State, seq<Action>) {
    if s.position.None? then Stopped(s)
    else (s.(stage := ClosingSecond), before + [Close(s.position.value)])
  }

  /** Closes it once both changes are seen and the position shows the partial close. */
  function ClosedSecondWhenReady(s: State, plan: Plan): (State, seq<Action>) {
    if s.seen != {LevelMoved, PartiallyClosed} then (s, [])
    else if s.position.Some? && !(s.quantity.Some? && s.quantity.value < plan.second) then (s, [])
    else ClosedSecond(s, [])
  }

  function OnBothLegs(s: State, ids: Ids): (State, seq<Action>) {
    match s.stage
    case FirstBracket => (s.(stage := CancellingTakeProfit), [CancelLeg(ids.takeProfit)])
    case SecondBracket => (s.(stage := Manual), [Prompt(true)])
    case _ => (s, [])
  }

  function OnClosed(s: State, plan: Plan): (State, seq<Action>) {
    match s.stage
    case ClosingFirst =>
      if s.ask.None? then (s, []) else (s.(stage := SecondBracket), [Buy(s, plan, plan.second)])
    case ClosingSecond => (s.(stage := Finished), [Done])
    case _ => Stopped(s)
  }

  function OnBracketEvent(s: State, plan: Plan, event: Event, ids: Ids): (State, seq<Action>) {
    match event
    case Canceled(order) =>
      if order == ids.entry then Stopped(s)
      else if order == ids.takeProfit && s.stage == CancellingTakeProfit then
        if s.position.None? then Stopped(s) else (s.(stage := ClosingFirst), [Close(s.position.value)])
      else (s, [])
    case Expired(order) => if order == ids.entry then Stopped(s) else (s, [])
    case Opened(order, position, quantity) =>
      if order == ids.entry then (s.(position := Some(position), quantity := Some(quantity)), []) else (s, [])
    case Changed(position, quantity) =>
      if s.position == Some(position) then
        var now := s.(quantity := Some(quantity));
        if s.stage == Manual then ClosedSecondWhenReady(now, plan) else (now, [])
      else (s, [])
    case Closed(position) => if s.position == Some(position) then OnClosed(s, plan) else (s, [])
    case Accepted(order) =>
      if order == ids.stopLoss || order == ids.takeProfit then
        var now := s.(accepted := s.accepted + {order});
        if |now.accepted| == 2 then OnBothLegs(now, ids) else (now, [])
      else (s, [])
    case _ => (s, [])
  }

  /** What one event does: the next state, and the actions asked for. */
  function Next(s: State, plan: Plan, event: Event): (State, seq<Action>) {
    if s.stage == Finished then (s, [])
    else
      match event
      case Quote(ask) =>
        var now := s.(ask := Some(ask));
        if s.stage == WaitQuote then (now.(stage := FirstBracket), [Buy(now, plan, plan.first)]) else (now, [])
      case BracketSubmitted(ids) =>
        (s.(bracket := Some(ids), accepted := {}, position := None, quantity := None), [])
      case Refused(_) => Stopped(s)
      case CancelRefused(_) => Stopped(s)
      case Activity(byHand, change) =>
        if s.stage != Manual || !byHand then (s, [])
        else ClosedSecondWhenReady(if change.Some? then s.(seen := s.seen + {change.value}) else s, plan)
      case WaitExpired => if s.stage != Manual then (s, []) else ClosedSecond(s, [Prompt(false)])
      case _ => if s.bracket.None? then (s, []) else OnBracketEvent(s, plan, event, s.bracket.value)
  }

  // -- The driver ---------------------------------------------------------------------------

  class Steps {
    const plan: Plan
    var stage: Stage
    var ask: Option<int>
    var bracket: Option<Ids>
    var accepted: set<OrderId>
    var position: Option<PositionId>
    var quantity: Option<int>
    var seen: set<Change>

    function View(): State
      reads this
    {
      State(stage, ask, bracket, accepted, position, quantity, seen)
    }

    constructor (plan: Plan)
      ensures View() == START && this.plan == plan
    {
      this.plan := plan;
      stage, ask, bracket, accepted := WaitQuote, None, None, {};
      position, quantity, seen := None, None, {};
    }

    method On(event: Event) returns (actions: seq<Action>)
      modifies this
      ensures (View(), actions) == Next(old(View()), plan, event)
    {
      actions := [];
      if stage == Finished {
        return;
      }
      match event {
        case Quote(price) =>
          ask := Some(price);
          if stage == WaitQuote {
            stage := FirstBracket;
            return [Submit(plan.first, price - plan.distance, price + plan.distance)];
          }
        case BracketSubmitted(ids) =>
          bracket, accepted, position, quantity := Some(ids), {}, None, None;
        case Refused(_) => actions := Stop();
        case CancelRefused(_) => actions := Stop();
        case Activity(byHand, change) =>
          if stage == Manual && byHand {
            if change.Some? {
              seen := seen + {change.value};
            }
            actions := CloseSecondWhenReady();
          }
        case WaitExpired =>
          if stage == Manual {
            actions := CloseSecond([Prompt(false)]);
          }
        case _ =>
          if bracket.Some? {
            actions := OnBracket(event, bracket.value);
          }
      }
    }

    method OnBracket(event: Event, ids: Ids) returns (actions: seq<Action>)
      modifies this
      ensures (View(), actions) == OnBracketEvent(old(View()), plan, event, ids)
    {
      actions := [];
      match event {
        case Canceled(order) =>
          if order == ids.entry {
            actions := Stop();
          } else if order == ids.takeProfit && stage == CancellingTakeProfit {
            if position.None? {
              actions := Stop();
            } else {
              stage := ClosingFirst;
              actions := [Close(position.value)];
            }
          }
        case Expired(order) =>
          if order == ids.entry {
            actions := Stop();
          }
        case Opened(order, p, q) =>
          if order == ids.entry {
            position, quantity := Some(p), Some(q);
          }
        case Changed(p, q) =>
          if position == Some(p) {
            quantity := Some(q);
            if stage == Manual {
              actions := CloseSecondWhenReady();
            }
          }
        case Closed(p) =>
          if position == Some(p) {
            actions := OnPositionClosed();
          }
        case Accepted(order) =>
          if order == ids.stopLoss || order == ids.takeProfit {
            accepted := accepted + {order};
            if |accepted| == 2 {
              if stage == FirstBracket {
                stage := CancellingTakeProfit;
                actions := [CancelLeg(ids.takeProfit)];
              } else if stage == SecondBracket {
                stage := Manual;
                actions := [Prompt(true)];
              }
            }
          }
        case _ =>
      }
    }

    method OnPositionClosed() returns (actions: seq<Action>)
      modifies this`stage
      ensures (View(), actions) == OnClosed(old(View()), plan)
    {
      if stage == ClosingFirst {
        if ask.None? {
          return [];
        }
        stage := SecondBracket;
        actions := [Submit(plan.second, ask.value - plan.distance, ask.value + plan.distance)];
      } else if stage == ClosingSecond {
        stage := Finished;
        actions := [Done];
      } else {
        actions := Stop();
      }
    }

    method CloseSecondWhenReady() returns (actions: seq<Action>)
      modifies this`stage
      ensures (View(), actions) == ClosedSecondWhenReady(old(View()), plan)
    {
      if seen != {LevelMoved, PartiallyClosed} {
        return [];
      }
      var reduced := quantity.Some? && quantity.value < plan.second;
      if position.Some? && !reduced {
        return [];
      }
      actions := CloseSecond([]);
    }

    method CloseSecond(before: seq<Action>) returns (actions: seq<Action>)
      modifies this`stage
      ensures (View(), actions) == ClosedSecond(old(View()), before)
    {
      if position.None? {
        actions := Stop();
      } else {
        stage := ClosingSecond;
        actions := before + [Close(position.value)];
      }
    }

    method Stop() returns (actions: seq<Action>)
      modifies this`stage
      ensures (View(), actions) == Stopped(old(View()))
    {
      stage := Finished;
      actions := [Prompt(false), Done];
    }
  }

  // -- Whole runs ---------------------------------------------------------------------------

  /** The state after a run of events, and every action asked for in it, in order. */
  function Run(plan: Plan, events: seq<Event>): (State, seq<Action>) {
    if events == [] then (START, [])
    else
      var before := Run(plan, events[..|events| - 1]);
      var after := Next(before.0, plan, events[|events| - 1]);
      (after.0, before.1 + after.1)
  }

  function Rank(stage: Stage): nat {
    match stage
    case WaitQuote => 0
    case FirstBracket => 1
    case CancellingTakeProfit => 2
    case ClosingFirst => 3
    case SecondBracket => 4
    case Manual => 5
    case ClosingSecond => 6
    case Finished => 7
  }

  datatype Kind = Submits | Cancels | Closes | Dones

  predicate Is(action: Action, kind: Kind) {
    match kind
    case Submits => action.Submit?
    case Cancels => action.CancelLeg?
    case Closes => action.Close?
    case Dones => action.Done?
  }

  function Count(actions: seq<Action>, kind: Kind): nat {
    if actions == [] then 0
    else Count(actions[..|actions| - 1], kind) + if Is(actions[|actions| - 1], kind) then 1 else 0
  }

  /** How many actions of a kind have been asked for by the time a stage is reached. */
  function Budget(stage: Stage, kind: Kind): nat {
    var rank := Rank(stage);
    match kind
    case Submits => (if rank >= 1 then 1 else 0) + if rank >= 4 then 1 else 0
    case Cancels => if rank >= 2 then 1 else 0
    case Closes => (if rank >= 3 then 1 else 0) + if rank >= 6 then 1 else 0
    case Dones => if rank >= 7 then 1 else 0
  }

  lemma {:induction false} CountOfConcat(a: seq<Action>, b: seq<Action>, kind: Kind)
    ensures Count(a + b, kind) == Count(a, kind) + Count(b, kind)
  {
    if b == [] {
      assert a + b == a;
    } else {
      var n := |b| - 1;
      CountOfConcat(a, b[..n], kind);
      assert (a + b)[..|a + b| - 1] == a + b[..n];
    }
  }

  lemma CountOfFew(a: Action, b: Action, kind: Kind)
    ensures Count([], kind) == 0
    ensures Count([a], kind) == if Is(a, kind) then 1 else 0
    ensures Count([a, b], kind) == (if Is(a, kind) then 1 else 0) + if Is(b, kind) then 1 else 0
  {
    assert [a][..0] == [];
    assert [a, b][..1] == [a];
  }

  /** The moves there are: from one stage to the next with its action, or to the end. */
  predicate Moves(from: Stage, to: Stage, actions: seq<Action>) {
    || (to == from && actions == [])
    || (to == Finished && from != Finished && |actions| == 2 && actions[0].Prompt? && actions[1].Done?)
    || (from == ClosingSecond && to == Finished && |actions| == 1 && actions[0].Done?)
    || (from == Manual && to == ClosingSecond && |actions| == 2 && actions[0].Prompt? && actions[1].Close?)
    || (&& |actions| == 1
        && match from
           case WaitQuote => to == FirstBracket && actions[0].Submit?
           case FirstBracket => to == CancellingTakeProfit && actions[0].CancelLeg?
           case CancellingTakeProfit => to == ClosingFirst && actions[0].Close?
           case ClosingFirst => to == SecondBracket && actions[0].Submit?
           case SecondBracket => to == Manual && actions[0].Prompt?
           case Manual => to == ClosingSecond && actions[0].Close?
           case _ => false)
  }

  lemma StepMoves(s: State, plan: Plan, event: Event)
    ensures Moves(s.stage, Next(s, plan, event).0.stage, Next(s, plan, event).1)
  {
  }

  /** A move goes forward if anywhere, and asks for no more than the stage it reaches allows. */
  lemma MovesWithinBudget(from: Stage, to: Stage, actions: seq<Action>, kind: Kind)
    requires Moves(from, to, actions)
    ensures Rank(from) <= Rank(to)
    ensures Budget(from, kind) + Count(actions, kind) <= Budget(to, kind)
    ensures to != Finished || kind == Dones ==> Budget(from, kind) + Count(actions, kind) == Budget(to, kind)
  {
    CountOfFew(Done, Done, kind);
    if |actions| == 1 {
      assert actions == [actions[0]];
      CountOfFew(actions[0], Done, kind);
    } else if |actions| == 2 {
      assert actions == [actions[0], actions[1]];
      CountOfFew(actions[0], actions[1], kind);
    }
  }

  /**
   For every event sequence: at most two brackets, one leg cancel and two closes are asked for, as
   far as the stage reached allows, and exactly as many until it finishes; and exactly one `Done`
   once finished, none before.
   */
  lemma {:induction false} RunWithinBudget(plan: Plan, events: seq<Event>, kind: Kind)
    ensures var r := Run(plan, events);
            && Count(r.1, kind) <= Budget(r.0.stage, kind) <= (if kind == Cancels || kind == Dones then 1 else 2)
            && (r.0.stage != Finished || kind == Dones ==> Count(r.1, kind) == Budget(r.0.stage, kind))
  {
    if events != [] {
      var n := |events| - 1;
      var before := Run(plan, events[..n]);
      RunWithinBudget(plan, events[..n], kind);
      var after := Next(before.0, plan, events[n]);
      StepMoves(before.0, plan, events[n]);
      MovesWithinBudget(before.0.stage, after.0.stage, after.1, kind);
      CountOfConcat(before.1, after.1, kind);
    }
  }

  /** A longer run is the shorter one with one more event. */
  lemma RunExtends(plan: Plan, events: seq<Event>, event: Event)
    ensures var before, after := Run(plan, events), Next(Run(plan, events).0, plan, event);
            Run(plan, events + [event]) == (after.0, before.1 + after.1)
  {
    assert (events + [event])[..|events + [event]| - 1] == events;
  }

  /** The stage only moves forward. */
  lemma {:induction false} RunMovesForward(plan: Plan, events: seq<Event>, more: seq<Event>)
    ensures Rank(Run(plan, events).0.stage) <= Rank(Run(plan, events + more).0.stage)
  {
    if more == [] {
      assert events + more == events;
    } else {
      var n := |more| - 1;
      var longer := events + more[..n];
      RunMovesForward(plan, events, more[..n]);
      assert events + more == longer + [more[n]];
      RunExtends(plan, longer, more[n]);
      var after := Next(Run(plan, longer).0, plan, more[n]);
      StepMoves(Run(plan, longer).0, plan, more[n]);
      MovesWithinBudget(Run(plan, longer).0.stage, after.0.stage, after.1, Dones);
    }
  }

  /** Once finished, whatever it is fed, nothing more is asked for. */
  lemma {:induction false} RunEndsFinished(plan: Plan, events: seq<Event>, more: seq<Event>)
    requires Run(plan, events).0.stage == Finished
    ensures Run(plan, events + more) == Run(plan, events)
  {
    if more == [] {
      assert events + more == events;
    } else {
      var n := |more| - 1;
      var longer := events + more[..n];
      RunEndsFinished(plan, events, more[..n]);
      assert events + more == longer + [more[n]];
      RunExtends(plan, longer, more[n]);
      StepAfterFinished(Run(plan, longer).0, plan, more[n]);
      assert Run(plan, longer).1 + [] == Run(plan, longer).1;
    }
  }

  lemma StepAfterFinished(s: State, plan: Plan, event: Event)
    ensures s.stage == Finished ==> Next(s, plan, event) == (s, [])
  {
  }

  /** `Done` is the last action of a finished run and no action of an unfinished one. */
  lemma {:induction false} DoneComesLast(plan: Plan, events: seq<Event>, i: nat)
    requires i < |Run(plan, events).1|
    ensures Run(plan, events).1[i] == Done <==> Run(plan, events).0.stage == Finished && i == |Run(plan, events).1| - 1
  {
    var n := |events| - 1;
    var before := Run(plan, events[..n]);
    StepMoves(before.0, plan, events[n]);
    StepAfterFinished(before.0, plan, events[n]);
    if i < |before.1| {
      DoneComesLast(plan, events[..n], i);
    }
  }

  /** The bracket last reported submitted. */
  function LatestBracket(events: seq<Event>): Option<Ids> {
    if events == [] then None
    else
      var last := events[|events| - 1];
      if last.BracketSubmitted? then Some(last.ids) else LatestBracket(events[..|events| - 1])
  }

  /** The position last reported opened by that bracket's entry. */
  function LatestPosition(events: seq<Event>): Option<PositionId> {
    if events == [] then None
    else
      var before, last := events[..|events| - 1], events[|events| - 1];
      PositionAfter(LatestBracket(before), LatestPosition(before), last)
  }

  function PositionAfter(latest: Option<Ids>, position: Option<PositionId>, event: Event): Option<PositionId> {
    if event.BracketSubmitted? then None
    else if event.Opened? && latest.Some? && event.order == latest.value.entry then Some(event.position)
    else position
  }

  /** The legs of that bracket reported accepted since it was submitted. */
  function AcceptedLegs(events: seq<Event>): set<OrderId> {
    if events == [] then {}
    else
      var before, last := events[..|events| - 1], events[|events| - 1];
      LegsAfter(LatestBracket(before), AcceptedLegs(before), last)
  }

  function LegsAfter(latest: Option<Ids>, legs: set<OrderId>, event: Event): set<OrderId> {
    if event.BracketSubmitted? then {}
    else if event.Accepted? && latest.Some? && event.order in {latest.value.stopLoss, latest.value.takeProfit}
    then legs + {event.order}
    else legs
  }

  /** The quantity last reported of that position. */
  function LatestQuantity(events: seq<Event>): Option<int> {
    if events == [] then None
    else
      var before, last := events[..|events| - 1], events[|events| - 1];
      QuantityAfter(LatestBracket(before), LatestPosition(before), LatestQuantity(before), last)
  }

  function QuantityAfter(latest: Option<Ids>, position: Option<PositionId>, quantity: Option<int>, event: Event)
    : Option<int>
  {
    if event.BracketSubmitted? then None
    else if event.Opened? && latest.Some? && event.order == latest.value.entry then Some(event.quantity)
    else if event.Changed? && latest.Some? && position == Some(event.position) then Some(event.quantity)
    else quantity
  }

  /** The last ask quoted. */
  function LatestAsk(events: seq<Event>): Option<int> {
    if events == [] then None
    else if events[|events| - 1].Quote? then Some(events[|events| - 1].ask)
    else LatestAsk(events[..|events| - 1])
  }

  /** The changes by hand reported while they were waited for. */
  function SeenByHand(plan: Plan, events: seq<Event>): set<Change> {
    if events == [] then {}
    else
      var before, last := events[..|events| - 1], events[|events| - 1];
      SeenAfter(Run(plan, before).0.stage, SeenByHand(plan, before), last)
  }

  function SeenAfter(stage: Stage, seen: set<Change>, event: Event): set<Change> {
    if stage == Manual && event.Activity? && event.byHand && event.change.Some? then seen + {event.change.value}
    else seen
  }

  /** What the machine holds is what it was told last. */
  predicate Follows(s: State, latest: Option<Ids>, position: Option<PositionId>, quantity: Option<int>,
                    legs: set<OrderId>, ask: Option<int>, seen: set<Change>)
  {
    && s.bracket == latest && s.position == position && s.quantity == quantity && s.accepted == legs
    && s.ask == ask && s.seen == seen
    && (s.position.Some? ==> s.bracket.Some?)
    && (s.stage != WaitQuote ==> s.ask.Some?)
  }

  lemma StepFollows(s: State, plan: Plan, event: Event)
    requires s.stage != Finished && (s.position.Some? ==> s.bracket.Some?) && (s.stage != WaitQuote ==> s.ask.Some?)
    ensures var next := Next(s, plan, event).0;
            next.stage != Finished ==>
            Follows(next, if event.BracketSubmitted? then Some(event.ids) else s.bracket,
                    PositionAfter(s.bracket, s.position, event),
                    QuantityAfter(s.bracket, s.position, s.quantity, event),
                    LegsAfter(s.bracket, s.accepted, event),
                    if event.Quote? then Some(event.ask) else s.ask,
                    SeenAfter(s.stage, s.seen, event))
  {
  }

  /** The machine's state is what was told until it finished. */
  ghost predicate Told(plan: Plan, events: seq<Event>) {
    Follows(Run(plan, events).0, LatestBracket(events), LatestPosition(events), LatestQuantity(events),
            AcceptedLegs(events), LatestAsk(events), SeenByHand(plan, events))
  }

  /** Until it finishes, the machine acts on the latest bracket and on the position its entry opened last. */
  lemma {:induction false} ActsOnLatest(plan: Plan, events: seq<Event>)
    requires Run(plan, events).0.stage != Finished
    ensures Told(plan, events)
  {
    if events != [] {
      var n := |events| - 1;
      StepAfterFinished(Run(plan, events[..n]).0, plan, events[n]);
      ActsOnLatest(plan, events[..n]);
      StepFollows(Run(plan, events[..n]).0, plan, events[n]);
    }
  }

  /** A close names only the position that the entry of the bracket last submitted opened last. */
  lemma ClosesOnlyOwn(plan: Plan, events: seq<Event>, event: Event, position: PositionId)
    requires Close(position) in Next(Run(plan, events).0, plan, event).1
    ensures LatestPosition(events) == Some(position)
  {
    ActsOnLatest(plan, events);
  }

  // -- What each action follows from --------------------------------------------------------

  /** What a run has asked for: brackets, leg cancels and closes, whether it prompted for changes, and no end. */
  predicate HasAsked(plan: Plan, events: seq<Event>, brackets: nat, cancels: nat, closes: nat, prompted: bool) {
    var actions := Run(plan, events).1;
    && Count(actions, Submits) == brackets && Count(actions, Cancels) == cancels && Count(actions, Closes) == closes
    && (Prompt(true) in actions <==> prompted) && Count(actions, Dones) == 0
  }

  /** The prompt for changes by hand is asked for by the time they are waited for, and not before. */
  lemma {:induction false} PromptedFrom(plan: Plan, events: seq<Event>)
    requires Run(plan, events).0.stage != Finished
    ensures Prompt(true) in Run(plan, events).1 <==> Rank(Run(plan, events).0.stage) >= 5
  {
    if events != [] {
      var n := |events| - 1;
      var before := Run(plan, events[..n]).0;
      StepAfterFinished(before, plan, events[n]);
      PromptedFrom(plan, events[..n]);
      PromptStep(before, plan, events[n]);
    }
  }

  lemma PromptStep(s: State, plan: Plan, event: Event)
    requires s.stage != Finished && Next(s, plan, event).0.stage != Finished
    ensures Prompt(true) in Next(s, plan, event).1 <==> Rank(s.stage) < 5 <= Rank(Next(s, plan, event).0.stage)
    ensures Rank(s.stage) <= Rank(Next(s, plan, event).0.stage)
  {
  }

  /** What was asked for tells the stage. */
  lemma StageAsked(plan: Plan, events: seq<Event>)
    ensures Run(plan, events).0.stage == FirstBracket <==> HasAsked(plan, events, 1, 0, 0, false)
    ensures Run(plan, events).0.stage == CancellingTakeProfit <==> HasAsked(plan, events, 1, 1, 0, false)
    ensures Run(plan, events).0.stage == ClosingFirst <==> HasAsked(plan, events, 1, 1, 1, false)
    ensures Run(plan, events).0.stage == SecondBracket <==> HasAsked(plan, events, 2, 1, 1, false)
    ensures Run(plan, events).0.stage == Manual <==> HasAsked(plan, events, 2, 1, 1, true)
    ensures Run(plan, events).0.stage == ClosingSecond <==> HasAsked(plan, events, 2, 1, 2, true)
    ensures Run(plan, events).0.stage == Finished <==> Count(Run(plan, events).1, Dones) > 0
  {
    RunWithinBudget(plan, events, Submits);
    RunWithinBudget(plan, events, Cancels);
    RunWithinBudget(plan, events, Closes);
    RunWithinBudget(plan, events, Dones);
    if Run(plan, events).0.stage != Finished {
      PromptedFrom(plan, events);
    }
  }

  /** Both legs of the latest bracket are accepted, with this event. */
  ghost predicate BothLegsNow(events: seq<Event>, event: Event) {
    && event.Accepted? && LatestBracket(events).Some?
    && event.order in {LatestBracket(events).value.stopLoss, LatestBracket(events).value.takeProfit}
    && |AcceptedLegs(events) + {event.order}| == 2
  }

  /** The take-profit is cancelled exactly when both legs of the first bracket are accepted. */
  lemma CancelsExactly(plan: Plan, events: seq<Event>, event: Event, order: OrderId)
    ensures CancelLeg(order) in Next(Run(plan, events).0, plan, event).1 <==>
      && HasAsked(plan, events, 1, 0, 0, false) && BothLegsNow(events, event)
      && order == LatestBracket(events).value.takeProfit
  {
    StageAsked(plan, events);
    hide HasAsked, Run, Count, LatestBracket, LatestPosition, LatestQuantity, AcceptedLegs, SeenByHand, LatestAsk;
    if Run(plan, events).0.stage != Finished {
      ActsOnLatest(plan, events);
    }
  }

  /** The changes by hand are prompted for exactly when both legs of the second bracket are accepted. */
  lemma PromptsExactly(plan: Plan, events: seq<Event>, event: Event)
    ensures Prompt(true) in Next(Run(plan, events).0, plan, event).1 <==>
      HasAsked(plan, events, 2, 1, 1, false) && BothLegsNow(events, event)
  {
    StageAsked(plan, events);
    hide HasAsked, Run, Count, LatestBracket, LatestPosition, LatestQuantity, AcceptedLegs, SeenByHand, LatestAsk;
    if Run(plan, events).0.stage != Finished {
      ActsOnLatest(plan, events);
    }
  }

  /** The first take-profit is reported cancelled, as was asked for. */
  ghost predicate FirstCancelled(plan: Plan, events: seq<Event>, event: Event) {
    && HasAsked(plan, events, 1, 1, 0, false) && LatestBracket(events).Some?
    && event == Canceled(LatestBracket(events).value.takeProfit)
    && LatestBracket(events).value.takeProfit != LatestBracket(events).value.entry
  }

  /** The changes by hand are over: both reported and shown by the position, or not waited for any longer. */
  ghost predicate ChangesOver(plan: Plan, events: seq<Event>, event: Event) {
    && HasAsked(plan, events, 2, 1, 1, true)
    && (|| event == WaitExpired
        || (&& SeenAfter(Manual, SeenByHand(plan, events), event) == {LevelMoved, PartiallyClosed}
            && ((event.Activity? && event.byHand) ||
                (event.Changed? && LatestBracket(events).Some? && LatestPosition(events) == Some(event.position)))
            && (LatestPosition(events).Some? ==>
                  var quantity :=
                    QuantityAfter(LatestBracket(events), LatestPosition(events), LatestQuantity(events), event);
                  quantity.Some? && quantity.value < plan.second)))
  }

  /** A position is closed exactly when the first take-profit is cancelled, or the changes by hand are over. */
  lemma ClosesExactly(plan: Plan, events: seq<Event>, event: Event, position: PositionId)
    ensures Close(position) in Next(Run(plan, events).0, plan, event).1 <==>
      && LatestPosition(events) == Some(position)
      && (FirstCancelled(plan, events, event) || ChangesOver(plan, events, event))
  {
    StageAsked(plan, events);
    hide HasAsked, Run, Count, LatestBracket, LatestPosition, LatestQuantity, AcceptedLegs, SeenByHand, LatestAsk;
    if Run(plan, events).0.stage != Finished {
      ActsOnLatest(plan, events);
    }
  }

  /** The machine finishes exactly on these. */
  ghost predicate Ends(plan: Plan, events: seq<Event>, event: Event) {
    || event.Refused? || event.CancelRefused?
    || (LatestBracket(events).Some? && event in {Canceled(LatestBracket(events).value.entry),
                                                Expired(LatestBracket(events).value.entry)})
    || (LatestPosition(events).None? && (FirstCancelled(plan, events, event) || ChangesOver(plan, events, event)))
    || (event.Closed? && LatestPosition(events) == Some(event.position) && !HasAsked(plan, events, 1, 1, 1, false))
  }

  /** It finishes exactly on a refusal, an entry that ends, any other close than the first, or nothing to close. */
  lemma EndsExactly(plan: Plan, events: seq<Event>, event: Event)
    ensures Done in Next(Run(plan, events).0, plan, event).1 <==>
      Count(Run(plan, events).1, Dones) == 0 && Ends(plan, events, event)
  {
    StageAsked(plan, events);
    hide HasAsked, Run, Count, LatestBracket, LatestPosition, LatestQuantity, AcceptedLegs, SeenByHand, LatestAsk;
    if Run(plan, events).0.stage != Finished {
      ActsOnLatest(plan, events);
    }
  }

  // -- The second bracket -------------------------------------------------------------------

  /** Whether an event makes the machine ask for a bracket. */
  ghost predicate AsksBracket(plan: Plan, events: seq<Event>, event: Event) {
    exists a :: a in Next(Run(plan, events).0, plan, event).1 && a.Submit?
  }

  /** A run asked for so many brackets and closes, and is not finished. */
  predicate Asked(plan: Plan, events: seq<Event>, brackets: nat, closes: nat) {
    var actions := Run(plan, events).1;
    Count(actions, Submits) == brackets && Count(actions, Closes) == closes && Count(actions, Dones) == 0
  }

  /** The actions asked for tell the stage as far as brackets go. */
  lemma StageOf(plan: Plan, events: seq<Event>)
    ensures Run(plan, events).0.stage == WaitQuote <==> Asked(plan, events, 0, 0)
    ensures Run(plan, events).0.stage == ClosingFirst <==> Asked(plan, events, 1, 1)
  {
    RunWithinBudget(plan, events, Submits);
    RunWithinBudget(plan, events, Closes);
    RunWithinBudget(plan, events, Dones);
  }

  /**
   A bracket is asked for exactly at the first quote, and at the close of the latest position once
   one bracket and one close have been asked for.
   */
  lemma BracketsOnlyInTurn(plan: Plan, events: seq<Event>, event: Event)
    ensures AsksBracket(plan, events, event) <==>
      || (Asked(plan, events, 0, 0) && event.Quote?)
      || (Asked(plan, events, 1, 1) && event.Closed? && LatestPosition(events) == Some(event.position))
  {
    StageOf(plan, events);
    var s := Run(plan, events).0;
    var actions := Next(s, plan, event).1;
    if s.stage != Finished {
      ActsOnLatest(plan, events);
      if s.stage == WaitQuote && event.Quote? {
        assert actions[0].Submit?;
      } else if s.stage == ClosingFirst && event.Closed? && s.position == Some(event.position) {
        assert actions[0].Submit?;
      }
    }
  }

  /** Each bracket is of its planned quantity, its levels at the planned distance from the last ask. */
  lemma BracketsAsPlanned(plan: Plan, events: seq<Event>, event: Event, quantity: int, stopLoss: int, takeProfit: int)
    requires Submit(quantity, stopLoss, takeProfit) in Next(Run(plan, events).0, plan, event).1
    ensures quantity == if Asked(plan, events, 0, 0) then plan.first else plan.second
    ensures var ask := if event.Quote? then Some(event.ask) else LatestAsk(events);
      ask.Some? && stopLoss == ask.value - plan.distance && takeProfit == ask.value + plan.distance
  {
    StageOf(plan, events);
    hide Asked, Run, Count, LatestBracket, LatestPosition, LatestQuantity, AcceptedLegs, SeenByHand, LatestAsk;
    if Run(plan, events).0.stage != Finished {
      ActsOnLatest(plan, events);
    }
  }

  /** The position that the last close asked for names. */
  function LastClose(actions: seq<Action>): Option<PositionId> {
    if actions == [] then None
    else
      var last := actions[|actions| - 1];
      if last.Close? then Some(last.position) else LastClose(actions[..|actions| - 1])
  }

  lemma {:induction false} LastCloseOfConcat(a: seq<Action>, b: seq<Action>)
    ensures LastClose(a + b) == if LastClose(b).Some? then LastClose(b) else LastClose(a)
  {
    if b == [] {
      assert a + b == a;
    } else {
      LastCloseOfConcat(a, b[..|b| - 1]);
      assert (a + b)[..|a + b| - 1] == a + b[..|b| - 1];
    }
  }

  lemma {:induction false} LastCloseCounted(actions: seq<Action>)
    ensures LastClose(actions).Some? <==> Count(actions, Closes) > 0
  {
    if actions != [] {
      LastCloseCounted(actions[..|actions| - 1]);
    }
  }

  /**
   Whatever event asks for the second bracket reports closed the position whose close was asked
   for, exactly if the latest position told is that one, or none is known. Otherwise the close of
   another position does.
   */
  lemma SecondFollowsCloseExactly(plan: Plan, events: seq<Event>)
    requires Asked(plan, events, 1, 1)
    ensures var closing := LastClose(Run(plan, events).1);
      && closing.Some?
      && ((forall event :: AsksBracket(plan, events, event) ==> event == Closed(closing.value)) <==>
          LatestPosition(events) == None || LatestPosition(events) == closing)
  {
    LastCloseCounted(Run(plan, events).1);
    var closing := LastClose(Run(plan, events).1);
    forall event
      ensures AsksBracket(plan, events, event) <==> event.Closed? && LatestPosition(events) == Some(event.position)
    {
      BracketsOnlyInTurn(plan, events, event);
    }
    if LatestPosition(events).Some? {
      assert AsksBracket(plan, events, Closed(LatestPosition(events).value));
    }
  }

  /** Since the last close was asked for, no bracket was submitted and the entry opened no other position. */
  predicate Undisturbed(plan: Plan, events: seq<Event>) {
    if events == [] then true
    else
      var before, last := events[..|events| - 1], events[|events| - 1];
      var actions := Run(plan, before).1;
      if LastClose(Next(Run(plan, before).0, plan, last).1).Some? then true
      else
        && Undisturbed(plan, before)
        && !last.BracketSubmitted?
        && (last.Opened? && LatestBracket(before).Some? && last.order == LatestBracket(before).value.entry ==>
              LastClose(actions) == Some(last.position))
  }

  /** Undisturbed, the latest position told is the one whose close was asked for. */
  lemma {:induction false} UndisturbedKeeps(plan: Plan, events: seq<Event>)
    requires Undisturbed(plan, events) && Run(plan, events).0.stage != Finished && LastClose(Run(plan, events).1).Some?
    ensures LatestPosition(events) == LastClose(Run(plan, events).1)
  {
    if events != [] {
      var before, last := events[..|events| - 1], events[|events| - 1];
      var s, asked := Run(plan, before), Next(Run(plan, before).0, plan, last).1;
      StepAfterFinished(s.0, plan, last);
      ActsOnLatest(plan, before);
      LastCloseOfConcat(s.1, asked);
      if LastClose(asked).Some? {
        CloseIsLast(asked);
        ClosesOnlyOwn(plan, before, last, LastClose(asked).value);
      } else {
        UndisturbedKeeps(plan, before);
      }
    }
  }

  lemma {:induction false} CloseIsLast(actions: seq<Action>)
    requires LastClose(actions).Some?
    ensures Close(LastClose(actions).value) in actions
  {
    if !actions[|actions| - 1].Close? {
      CloseIsLast(actions[..|actions| - 1]);
    }
  }

  /** So the second bracket then follows the close that was asked for. */
  lemma SecondFollowsClose(plan: Plan, events: seq<Event>, event: Event)
    requires Asked(plan, events, 1, 1) && Undisturbed(plan, events) && AsksBracket(plan, events, event)
    ensures event.Closed? && LastClose(Run(plan, events).1) == Some(event.position)
  {
    StageOf(plan, events);
    BracketsOnlyInTurn(plan, events, event);
    LastCloseCounted(Run(plan, events).1);
    UndisturbedKeeps(plan, events);
  }

  /** The first bracket in its turn: both legs accepted, its take-profit cancelled, its position's close asked for. */
  method RehearseFirst(steps: Steps, ask: int, ids: Ids, position: PositionId) returns (actions: seq<Action>)
    requires steps.View() == START && ids.stopLoss != ids.takeProfit && ids.entry != ids.takeProfit
    modifies steps
    ensures steps.View() == State(ClosingFirst, Some(ask), Some(ids), {ids.stopLoss, ids.takeProfit}, Some(position),
                                  Some(steps.plan.first), {})
    ensures actions == [Submit(steps.plan.first, ask - steps.plan.distance, ask + steps.plan.distance),
                        CancelLeg(ids.takeProfit), Close(position)]
  {
    var a := steps.On(Quote(ask));
    var b := steps.On(BracketSubmitted(ids));
    var c := steps.On(Opened(ids.entry, position, steps.plan.first));
    var d := steps.On(Accepted(ids.stopLoss));
    assert |{} + {ids.stopLoss}| == 1;
    assert |{ids.stopLoss} + {ids.takeProfit}| == 2;
    var e := steps.On(Accepted(ids.takeProfit));
    var f := steps.On(Canceled(ids.takeProfit));
    actions := a + b + c + d + e + f;
  }

  /**
   The close of any other position the entry is then reported to have opened asks for the second
   bracket as well, although the position whose close was asked for is never reported closed.
   */
  method OtherCloseSuffices(steps: Steps, ask: int, ids: Ids, position: PositionId, other: PositionId)
    returns (actions: seq<Action>)
    requires steps.View() == START && ids.stopLoss != ids.takeProfit && ids.entry != ids.takeProfit && other != position
    modifies steps
    ensures actions == [Submit(steps.plan.first, ask - steps.plan.distance, ask + steps.plan.distance),
                        CancelLeg(ids.takeProfit), Close(position),
                        Submit(steps.plan.second, ask - steps.plan.distance, ask + steps.plan.distance)]
  {
    var a := RehearseFirst(steps, ask, ids, position);
    var b := steps.On(Opened(ids.entry, other, steps.plan.first));
    var c := steps.On(Closed(other));
    actions := a + b + c;
  }
}
