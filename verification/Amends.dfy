/**
 Level amends whose answers get lost: `_send_amend`, `_amend` and `_amend_legs` of the execution
 client, with the guards around them. A cancel or a modify is refused to Nautilus only when the
 broker cannot have applied it.
 */
module Amends {
  import opened Wrappers
  import Brackets

  type Level = Brackets.Level
  type Levels = Brackets.Levels
  type View = Brackets.View

  const AMEND_ATTEMPTS := 3

  /** What one send of a request comes to; `Raises` is a failure of the adapter itself. */
  datatype Send = Answer | Refusal(retryable: bool) | NoAnswer | Raises

  datatype AmendResult = Answered | Refused | Unknown | Raised

  /**
   What the broker and the adapter do: the sends, the waits between them, the levels the answer
   states, if it states any, and those the model shows once it is applied, none if the position is
   gone.
   */
  datatype World = World(
    sends: nat -> Send,
    waitRaises: nat -> bool,
    answerRaises: bool,
    stated: Option<Levels>,
    shown: Levels)
  {
    /** Where a move is looked up: a trailing move applied after the answer is no refusal. */
    function Moved(): (levels: Levels)
      ensures stated.Some? ==> levels == stated.value
      ensures stated.None? ==> levels == shown
    {
      if stated.Some? then stated.value else shown
    }
  }

  /** `n` sends were made: each but the last left a reason to send again, and the wait after it did not raise. */
  ghost predicate Tried(world: World, n: nat) {
    forall i :: 0 <= i < n - 1 ==>
      (world.sends(i).NoAnswer? || (world.sends(i).Refusal? && world.sends(i).retryable)) && !world.waitRaises(i + 1)
  }

  ghost predicate SomeLost(sends: nat -> Send, n: nat) {
    exists i :: 0 <= i < n && sends(i).NoAnswer?
  }

  ghost predicate SomeAnswered(sends: nat -> Send, n: nat) {
    exists i :: 0 <= i < n && sends(i).Answer?
  }

  /**
   Sends a level amend, again while it got no answer, never left, or was asked to wait. The
   result is unknown exactly when a send was lost and none was answered, whatever came later.
   */
  method SendAmend(world: World) returns (r: AmendResult, n: nat)
    ensures 1 <= n <= AMEND_ATTEMPTS && Tried(world, n)
    ensures r == Answered <==> SomeAnswered(world.sends, n)
    ensures r == Unknown <==> SomeLost(world.sends, n) && !SomeAnswered(world.sends, n)
    ensures r == Refused <==>
              && !SomeLost(world.sends, n) && !SomeAnswered(world.sends, n)
              && world.sends(n - 1).Refusal? && (n == AMEND_ATTEMPTS || !world.sends(n - 1).retryable)
    ensures n < AMEND_ATTEMPTS ==>
              || world.sends(n - 1).Answer? || world.sends(n - 1).Raises? || world.waitRaises(n)
              || (world.sends(n - 1).Refusal? && !world.sends(n - 1).retryable)
  {
    var lost := false;
    n := 0;
    while n < AMEND_ATTEMPTS
      invariant n <= AMEND_ATTEMPTS && Tried(world, n) && !SomeAnswered(world.sends, n)
      invariant n < AMEND_ATTEMPTS ==> Tried(world, n + 1)
      invariant n > 0 ==> world.sends(n - 1).NoAnswer? || world.sends(n - 1).Refusal?
      invariant lost <==> SomeLost(world.sends, n)
      invariant n > 0 && !lost ==> world.sends(n - 1).Refusal? && world.sends(n - 1).retryable
    {
      var outcome := world.sends(n);
      n := n + 1;
      match outcome {
        case Raises =>
          return if lost then Unknown else Raised, n;
        case Answer =>
          return Answered, n;
        case NoAnswer =>
          lost := true;
        case Refusal(retryable) =>
          if !retryable {
            return if lost then Unknown else Refused, n;
          }
      }
      if n < AMEND_ATTEMPTS && world.waitRaises(n) {
        return if lost then Unknown else Raised, n;
      }
    }
    return if lost then Unknown else Refused, n;
  }

  /** What Nautilus is told: the cancels and the moves refused, by level. */
  datatype Refusals = Refusals(cancels: set<Level>, moves: set<Level>)

  /** The levels one amend sets: those cancelled gone, those moved whose leg is alive at their price. */
  function AmendedLevels(view: View, cancels: set<Level>, moves: Levels): (levels: Levels)
    ensures forall level :: level in levels <==>
              (level in moves && view.LegAlive(level)) || (level in view.levels && level !in cancels)
    ensures forall level :: level in levels ==>
              levels[level] == if level in moves && view.LegAlive(level) then moves[level] else view.levels[level]
  {
    (view.levels - cancels) + (map level | level in moves && view.LegAlive(level) :: moves[level])
  }

  /** The moves left out of an amend because their leg ended while they waited. */
  function Ended(view: View, moves: Levels): (ended: set<Level>)
    ensures forall level :: level in ended <==> level in moves && !(level in view.alive && view.alive[level])
  {
    set level | level in moves && !view.LegAlive(level)
  }

  /**
   Removes the levels of `cancels` and moves those of `moves` in one amend, and answers them:
   refused together if the amend was; if it was answered, the cancels from what the model then
   shows and the moves from what the answer states; and not at all if its outcome is unknown.
   `raised` tells the guard around it that the adapter failed.
   */
  method AmendLegs(view: Option<View>, loaded: bool, cancels: set<Level>, moves: Levels, world: World)
    returns (refusals: Refusals, raised: bool, n: nat)
    ensures n <= AMEND_ATTEMPTS
    ensures refusals.cancels <= cancels && refusals.moves <= moves.Keys
    ensures SomeLost(world.sends, n) && !SomeAnswered(world.sends, n) ==>
              !raised && refusals.cancels == {} && view.Some? && refusals.moves == Ended(view.value, moves)
    ensures SomeAnswered(world.sends, n) ==> !raised
    ensures n > 0 ==> view.Some? && view.value.open && AmendedLevels(view.value, cancels, moves) != view.value.levels
    ensures view.None? || !view.value.open ==> n == 0 && !raised && refusals == Refusals(cancels, moves.Keys)
    ensures n == 0 && view.Some? && view.value.open ==>
              !raised &&
              refusals == if AmendedLevels(view.value, cancels, moves) == view.value.levels
                          then Refusals(cancels * view.value.levels.Keys, Ended(view.value, moves))
                          else Refusals(cancels, moves.Keys)
    ensures !loaded ==> n == 0
    ensures n == 0 && view.Some? && view.value.open ==>
              !loaded || AmendedLevels(view.value, cancels, moves) == view.value.levels
    ensures n > 0 && !SomeLost(world.sends, n) && !SomeAnswered(world.sends, n) ==>
              if world.sends(n - 1).Refusal? && (n == AMEND_ATTEMPTS || !world.sends(n - 1).retryable)
              then !raised && refusals == Refusals(cancels, moves.Keys)
              else raised && refusals == Refusals({}, {})
    ensures n > 0 && SomeAnswered(world.sends, n) ==> Ended(view.value, moves) <= refusals.moves
    ensures n > 0 && SomeAnswered(world.sends, n) && world.answerRaises ==>
              refusals == Refusals({}, Ended(view.value, moves))
    ensures n > 0 && SomeAnswered(world.sends, n) && !world.answerRaises ==>
              && (forall level :: level in cancels ==> (level in refusals.cancels <==> level in world.shown))
              && (forall level :: level in moves && view.value.LegAlive(level) ==>
                    (level in refusals.moves <==> !(level in world.Moved() && world.Moved()[level] == moves[level])))
  {
    raised, n := false, 0;
    if view.None? || !view.value.open {
      return Refusals(cancels, moves.Keys), false, 0;
    }
    var levels, ended := AmendedLevels(view.value, cancels, moves), Ended(view.value, moves);
    var shown, moved := view.value.levels, view.value.levels;
    if levels != view.value.levels {
      if !loaded {
        return Refusals(cancels, moves.Keys), false, 0;
      }
      var r;
      r, n := SendAmend(world);
      match r {
        case Raised => return Refusals({}, {}), true, n;
        case Unknown => return Refusals({}, ended), false, n;
        case Refused => return Refusals(cancels, moves.Keys), false, n;
        case Answered =>
          // A failure while the answer is handled never refuses what the broker received.
          if world.answerRaises {
            return Refusals({}, ended), false, n;
          }
          shown, moved := world.shown, world.Moved();
      }
    }
    var kept := set level | level in cancels && level in shown;
    var unmoved := set level | level in moves && level !in ended && !(level in moved && moved[level] == moves[level]);
    refusals := Refusals(kept, ended + unmoved);
  }

  /**
   The commands' own guard: a failure of the adapter refuses them all. Whatever later sends
   returned or raised, a cancel or a move carried by an amend that was lost is never refused.
   */
  method Guarded(view: Option<View>, loaded: bool, cancels: set<Level>, moves: Levels, world: World)
    returns (refusals: Refusals, n: nat)
    ensures n <= AMEND_ATTEMPTS
    ensures SomeLost(world.sends, n) && !SomeAnswered(world.sends, n) ==>
              && refusals.cancels == {} && view.Some?
              && forall level :: level in refusals.moves ==> !view.value.LegAlive(level)
    ensures n > 0 && !SomeLost(world.sends, n) && !SomeAnswered(world.sends, n) ==>
              refusals == Refusals(cancels, moves.Keys)
    ensures view.None? || !view.value.open ==> n == 0 && refusals == Refusals(cancels, moves.Keys)
    ensures n > 0 && SomeAnswered(world.sends, n) && !world.answerRaises ==>
              && refusals.cancels == cancels * world.shown.Keys
              && forall level :: level in moves && view.value.LegAlive(level) ==>
                   (level in refusals.moves <==> !(level in world.Moved() && world.Moved()[level] == moves[level]))
  {
    var raised;
    refusals, raised, n := AmendLegs(view, loaded, cancels, moves, world);
    if raised {
      refusals := Refusals(cancels, moves.Keys);
    }
  }
}
