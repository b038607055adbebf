/**
 The correcting amends of a bracket: the client drives a new position's stop-loss and take-profit
 to the prices asked for, against a broker that may answer, refuse or stay silent.

 `_settle_brackets` treats each pending bracket by itself, so one bracket is modelled: the object,
 whether it is still registered, the view of its position, and the tasks started for it.
 */
module Brackets {
  import opened Wrappers

  const CORRECTION_ROUNDS := 3

  datatype Level = StopLoss | TakeProfit
  type Price = int
  type Levels = map<Level, Price>

  /** What the venue model shows of a position; `alive` holds each of its legs with its life. */
  datatype View = View(levels: Levels, alive: map<Level, bool>, open: bool, protective: bool)
  {
    predicate LegAlive(level: Level) {
      level in alive && alive[level]
    }

    /** Not open, with every leg ended: a position only created is not open either. */
    predicate Ended() {
      !open && forall level :: level in alive ==> !alive[level]
    }
  }

  /** A position has ended exactly if it is not open and none of its legs lives. */
  lemma EndedExactly(view: View)
    ensures view.Ended() <==> !view.open && forall level :: level in view.alive ==> !view.alive[level]
  {
  }

  /** What a bracket asks for: its legs, the price of each, and the legs cancelled or modified since. */
  datatype Asked = Asked(legs: set<Level>, requested: Levels, cancels: set<Level>, modified: set<Level>)
  {
    predicate Valid() {
      legs <= requested.Keys && cancels <= legs && modified <= legs
    }
  }

  /** The broker's levels, with each live leg's at its asked price and a cancelled one gone. */
  function WantedLevels(asked: Asked, view: View): (wanted: Levels)
    requires asked.Valid()
  {
    map level | level in asked.legs + view.levels.Keys && Keeps(asked, view, level) ::
      if level in asked.legs && view.LegAlive(level) then asked.requested[level] else view.levels[level]
  }

  /** Whether a level is wanted at all. */
  predicate Keeps(asked: Asked, view: View, level: Level) {
    if level in asked.legs && level in asked.cancels then false
    else (level in asked.legs && view.LegAlive(level)) || level in view.levels
  }

  /** The broker holds what was asked: nothing cancelled, every live leg at its price. */
  predicate HoldsAsked(asked: Asked, view: View)
    requires asked.Valid()
  {
    forall level :: level in asked.legs ==>
      if level in asked.cancels then level !in view.levels
      else level in view.alive && view.alive[level] ==>
             level in view.levels && view.levels[level] == asked.requested[level]
  }

  /** The wanted levels are the broker's own exactly when it holds what was asked. */
  lemma WantedIsHeld(asked: Asked, view: View)
    requires asked.Valid()
    ensures WantedLevels(asked, view) == view.levels <==> HoldsAsked(asked, view)
  {
  }

  /** Setting the wanted levels leaves nothing more to set. */
  lemma WantedIsFixpoint(asked: Asked, view: View)
    requires asked.Valid()
    ensures WantedLevels(asked, view.(levels := WantedLevels(asked, view))) == WantedLevels(asked, view)
  {
  }

  /** How a bracket left the pending ones; a stashed one may come back. */
  datatype Ending = Pending | Done | Refused | PositionClosed | SettledFromBroker | Stashed | EndedElsewhere

  /** A task started for the bracket: an amend waiting for its turn, one sent, or a rebuild. */
  datatype Task = Waiting | Sent(levels: Levels, token: nat) | Unsent | Rebuilding

  /** What came of an amend. */
  datatype Outcome = Answered | RefusedByBroker | Lost | Raised

  /** How the rebuild that was to settle a bracket ended; one that stood may have kept the position. */
  datatype Exit = HeldOff | Failed | Rebuilt(stillKept: bool)

  /** What a pass over the brackets does with one: nothing, ends it, starts an amend or a rebuild. */
  datatype Verdict = Skips | Ends(how: Ending) | Amends | Rebuilds

  class Bracket {
    var asked: Asked
    var correcting: bool
    var rounds: nat
    /** The levels of the last amend while its answer is lost, and which send that was. */
    var unanswered: Option<(Levels, nat)>
    var answerLost: bool
    /** A timer will try a failed rebuild again. */
    var retry: bool
    var ending: Ending
    /** The position's view, and whether the model keeps a position gone at the broker. */
    var view: Option<View>
    var kept: bool
    var tasks: seq<Task>
    var nextToken: nat
    /** The sends whose lost answer a timer still holds. */
    var holds: set<nat>

    /** The client is attached, and a rebuild holds the buffer, whose release settles again. */
    var attached: bool
    var buffered: bool

    /** The correcting amends started. */
    ghost var started: nat
    /** Since the last pass over the bracket, a task, a release or an event failed in the adapter. */
    ghost var raised: bool
    /** Since the last pass over the bracket, the model changed without one. */
    ghost var overlooked: bool
    /** What the pass that ended the bracket saw and wanted. */
    ghost var last: Option<(View, Asked)>

    ghost predicate Valid()
      reads this
    {
      Sound() && (Idle() ==> Coming() || Stranded() || overlooked || raised)
    }

    /** Since the last pass nothing failed and nothing changed unsettled. */
    ghost predicate Watched()
      reads this`raised, this`overlooked
    {
      !raised && !overlooked
    }

    ghost predicate Sound()
      reads this
    {
      && asked.Valid()
      && started == rounds <= CORRECTION_ROUNDS
      && |tasks| == (if correcting then 1 else 0)
      && Tokens()
      && (ending == PositionClosed ==> last.Some? && last.value.0.Ended())
      && (ending == Done ==> last.Some? && last.value.1.Valid() && HoldsAsked(last.value.1, last.value.0))
    }

    /** Every send has a token of its own, so that a timer tells its send from every other. */
    ghost predicate Tokens()
      reads this`holds, this`unanswered, this`tasks, this`nextToken
    {
      && (forall token :: token in holds ==> token < nextToken)
      && (unanswered.Some? ==> unanswered.value.1 < nextToken)
      && (|tasks| == 1 && tasks[0].Sent? ==> tasks[0].token < nextToken)
    }

    predicate Free()
      reads this
    {
      ending == Pending && !correcting
    }

    /** An amend can reach the position: it has a protective order, has not ended, and is not kept. */
    predicate Reachable()
      reads this
    {
      view.Some? && !view.value.Ended() && view.value.protective && !kept
    }

    /** The position is not known, has no protective order yet, or is gone at the broker. */
    predicate PassedOver()
      reads this
    {
      view.None? || (!view.value.Ended() && (kept || !view.value.protective))
    }

    /** It can, and the broker does not hold what was asked. */
    predicate Awry()
      reads this
      requires asked.Valid()
    {
      Reachable() && !HoldsAsked(asked, view.value)
    }

    /** The bracket could be corrected, and nothing is correcting it. */
    predicate Idle()
      reads this
      requires asked.Valid()
    {
      attached && Free() && Awry()
    }

    /** Something will settle it again: the timer of the lost amend or of a failed rebuild, or a release. */
    predicate Coming()
      reads this
    {
      (unanswered.Some? && unanswered.value.1 in holds) || retry || buffered
    }

    /** The levels wanted are those of a lost amend: the broker may hold them already. */
    predicate HeldBack()
      reads this
      requires asked.Valid()
    {
      unanswered.Some? && view.Some? && WantedLevels(asked, view.value) == unanswered.value.0
    }

    /** They are, and no timer lets the amend be repeated. */
    predicate Stranded()
      reads this
      requires asked.Valid()
    {
      HeldBack() && unanswered.value.1 !in holds
    }

    constructor (asked: Asked)
      requires asked.Valid()
      ensures Valid() && Free() && rounds == 0 && this.asked == asked && view.None? && !kept
      ensures attached && !buffered && !retry && holds == {} && unanswered.None? && !answerLost && Watched()
    {
      this.asked := asked;
      correcting, rounds, unanswered, answerLost, retry := false, 0, None, false, false;
      ending, view, kept, tasks := Pending, None, false, [];
      nextToken, holds, started := 0, {}, 0;
      attached, buffered, raised, overlooked, last := true, false, false, false, None;
    }

    /** What a pass does with the bracket. */
    function Decide(): (v: Verdict)
      reads this
      requires asked.Valid()
      ensures v != Skips ==> Free() && !PassedOver() && (Reachable() ==> !HeldBack() || HoldsAsked(asked, view.value))
      ensures v == Ends(Done) ==> view.Some? && HoldsAsked(asked, view.value)
      ensures Free() && Reachable() && HoldsAsked(asked, view.value) ==> v == Ends(Done)
      ensures v == Amends || v == Rebuilds ==> !HeldBack()
      ensures v == Amends ==> rounds < CORRECTION_ROUNDS
      ensures v == Ends(PositionClosed) <==> Free() && view.Some? && view.value.Ended()
      ensures v.Ends? ==> v.how in {PositionClosed, Done, Refused}
      ensures v == Ends(Refused) ==> rounds >= CORRECTION_ROUNDS && !answerLost
      ensures Free() && Awry() && !HeldBack() ==>
                v == if rounds < CORRECTION_ROUNDS then Amends
                     else if !answerLost then Ends(Refused)
                     else if retry then Skips
                     else Rebuilds
    {
      if ending != Pending || correcting || view.None? then Skips
      else if view.value.Ended() then Ends(PositionClosed)
      else if !view.value.protective || kept then Skips
      else
        var wanted := WantedLevels(asked, view.value);
        WantedIsHeld(asked, view.value);
        if wanted == view.value.levels then Ends(Done)
        else if unanswered.Some? && wanted == unanswered.value.0 then Skips
        else if rounds >= CORRECTION_ROUNDS && answerLost then if retry then Skips else Rebuilds
        else if rounds >= CORRECTION_ROUNDS then Ends(Refused)
        else Amends
    }

    /**
     One pass of `_settle_brackets` over this bracket. It is done exactly when the broker holds
     what was asked; otherwise it starts one amend, holds back while that amend's answer is lost,
     and gives up after three rounds, by a rebuild if the last answer was lost.
     */
    method Settle()
      requires Sound()
      modifies this`correcting, this`rounds, this`ending, this`tasks, this`started, this`raised, this`overlooked,
               this`last
      ensures Valid() && (!old(correcting) || old(Watched()) ==> Watched())
      ensures (raised ==> old(raised)) && (overlooked ==> old(overlooked))
      ensures rounds == old(rounds) || (rounds == old(rounds) + 1 && tasks == [Waiting] && correcting)
      ensures ending != old(ending) ==> old(Free()) && !correcting && rounds == old(rounds)
      ensures old(Free()) ==> (ending == PositionClosed <==> view.Some? && view.value.Ended())
      ensures ending == Done && old(Free()) ==> view.Some? && HoldsAsked(asked, view.value)
      ensures ending == Refused && old(Free()) ==> rounds == CORRECTION_ROUNDS && !answerLost
      ensures !old(Free()) || PassedOver() ==>
                tasks == old(tasks) && correcting == old(correcting) && rounds == old(rounds) && ending == old(ending)
      ensures old(Free()) && Reachable() && HoldsAsked(asked, view.value) ==> ending == Done
      ensures old(Free()) && Awry() && HeldBack() ==> Free() && rounds == old(rounds)
      ensures old(Free()) && Awry() && !HeldBack() ==>
                if old(rounds) < CORRECTION_ROUNDS then
                  ending == Pending && tasks == [Waiting] && rounds == old(rounds) + 1
                else if answerLost then ending == Pending && tasks == if retry then [] else [Rebuilding]
                else ending == Refused
      ensures HeldBack() ==> rounds == old(rounds)
      ensures tasks == old(tasks) || tasks == [Waiting] || tasks == [Rebuilding]
    {
      hide WantedLevels, HoldsAsked, Decide, View.Ended;
      raised, overlooked := raised && correcting, overlooked && correcting;
      match Decide() {
        case Skips =>
        case Ends(how) => ending, last := how, Some((view.value, asked));
        case Rebuilds => correcting, tasks := true, tasks + [Rebuilding];
        case Amends =>
          correcting, rounds, tasks := true, rounds + 1, tasks + [Waiting];
          started := started + 1;
      }
    }

    /** The amend's turn comes: what it sets is read from the position as it is now. */
    method Begin()
      requires Valid() && tasks == [Waiting]
      modifies this`tasks, this`nextToken
      ensures Valid()
      ensures view.Some? && view.value.open && !HoldsAsked(asked, view.value) ==>
                tasks == [Sent(WantedLevels(asked, view.value), old(nextToken))]
      ensures !(view.Some? && view.value.open && !HoldsAsked(asked, view.value)) ==> tasks == [Unsent]
      ensures tasks[0].Sent? ==>
                tasks[0].token !in holds && (unanswered.Some? ==> unanswered.value.1 != tasks[0].token)
    {
      if view.Some? {
        WantedIsHeld(asked, view.value);
      }
      if view.None? || !view.value.open || WantedLevels(asked, view.value) == view.value.levels {
        tasks := [Unsent];
      } else {
        tasks := [Sent(WantedLevels(asked, view.value), nextToken)];
        nextToken := nextToken + 1;
      }
    }

    /** The amend ended; its answer, if any, has reached the model. A raise only ends the task. */
    method End(outcome: Outcome)
      requires Valid() && |tasks| == 1 && (tasks[0].Sent? || tasks[0].Unsent?)
      requires outcome == Lost ==> tasks[0].Sent?
      modifies this
      ensures Valid() && view == old(view) && kept == old(kept) && asked == old(asked)
      ensures attached == old(attached) && buffered == old(buffered) && retry == old(retry)
      ensures outcome != Lost ==> holds == old(holds)
      ensures (raised ==> old(raised) || outcome == Raised) && (overlooked ==> old(overlooked))
      ensures outcome == Raised ==> !correcting && ending == old(ending) && raised
      ensures outcome == RefusedByBroker ==>
                !correcting && ending == if old(ending) == Pending then Refused else old(ending)
      ensures outcome == Answered ==> unanswered.None? && !answerLost
      ensures outcome == Answered && old(ending) == Pending && Reachable() && HoldsAsked(asked, view.value) ==>
                ending == Done
      ensures outcome == Answered && old(ending) == Pending && Awry() ==>
                if old(rounds) == CORRECTION_ROUNDS then ending == Refused
                else ending == Pending && tasks == [Waiting] && rounds == old(rounds) + 1
      ensures outcome == Lost ==> answerLost && unanswered == Some((old(tasks)[0].levels, old(tasks)[0].token))
      ensures outcome == Lost && old(ending) == Pending && Awry() ==>
                LostWhile(old(rounds), old(holds), old(tasks)[0].token)
      ensures ending != Pending ==> !correcting && rounds == old(rounds)
      ensures tasks == [] || tasks == [Waiting] || tasks == [Rebuilding]
    {
      hide WantedLevels, HoldsAsked, View.Ended, Coming, Stranded;
      var task := tasks[0];
      correcting, tasks := false, [];
      if outcome == Raised {
        raised := true;
      } else if outcome == RefusedByBroker {
        if ending == Pending {
          ending := Refused;
        }
      } else if outcome == Answered {
        answerLost, unanswered := false, None;
        Settle();
      } else {
        LoseAnswer(task.levels, task.token);
      }
    }

    /** What a lost answer leaves: the amend held by its timer, or without one while the bracket is settled anew. */
    ghost predicate LostWhile(rounds: nat, holds: set<nat>, token: nat)
      reads this
      requires asked.Valid()
    {
      && (HeldBack() && attached ==> Free() && this.holds == holds + {token} && this.rounds == rounds)
      && (!HeldBack() && rounds == CORRECTION_ROUNDS && !retry ==>
            ending == Pending && tasks == [Rebuilding] && this.rounds == rounds && this.holds == holds && !raised)
    }

    /** The answer of a send was lost: it is not sent again before its timer, a command or a rebuild. */
    method LoseAnswer(levels: Levels, token: nat)
      requires Sound() && !correcting && token < nextToken
      modifies this
      ensures Valid() && view == old(view) && kept == old(kept) && asked == old(asked)
      ensures attached == old(attached) && buffered == old(buffered) && retry == old(retry)
      ensures answerLost && unanswered == Some((levels, token)) && Watched()
      ensures tasks == [] || tasks == [Waiting] || tasks == [Rebuilding]
      ensures holds == old(holds) + (if !correcting && ending == Pending && attached then {token} else {})
      ensures old(ending) == Pending && Awry() ==> LostWhile(old(rounds), old(holds), token)
      ensures ending != Pending ==> !correcting && rounds == old(rounds)
    {
      hide WantedLevels, HoldsAsked, View.Ended;
      answerLost, unanswered := true, Some((levels, token));
      Settle();
      // Held only while this send is the one unanswered: a newer lost one holds by its own timer.
      if !correcting && ending == Pending && attached {
        holds := holds + {token};
      }
    }

    /** The timer of a lost send runs out: it may be sent again, unless a newer one was lost since. */
    method HoldEnds(token: nat)
      requires Valid() && token in holds
      modifies this
      ensures Valid() && holds == old(holds) - {token}
      ensures view == old(view) && kept == old(kept) && asked == old(asked)
      ensures attached == old(attached) && buffered == old(buffered) && retry == old(retry)
      ensures (raised ==> old(raised)) && (overlooked ==> old(overlooked))
      ensures old(ending) == Pending && old(unanswered).Some? && old(unanswered).value.1 == token ==> unanswered.None?
      ensures old(unanswered).Some? && old(unanswered).value.1 == token && old(Free()) && Awry() &&
              old(rounds) < CORRECTION_ROUNDS ==>
                tasks == [Waiting] && rounds == old(rounds) + 1
      ensures old(unanswered).None? || old(unanswered).value.1 != token || old(ending) != Pending ==>
                && unanswered == old(unanswered) && rounds == old(rounds) && tasks == old(tasks)
                && ending == old(ending) && correcting == old(correcting)
    {
      hide WantedLevels, HoldsAsked;
      holds := holds - {token};
      if unanswered.Some? && unanswered.value.1 == token && ending == Pending {
        unanswered := None;
        Settle();
      }
    }

    /**
     The rebuild that was to settle the bracket ended: held off by another one, failed, or done. A
     client that detached meanwhile leaves the bracket pending, for its next connect. A bracket
     whose position the rebuild kept is stashed until the keep ends.
     */
    method RebuildEnds(exit: Exit)
      requires Valid() && tasks == [Rebuilding] && (exit == HeldOff ==> buffered)
      modifies this`correcting, this`tasks, this`retry, this`ending, this`raised
      ensures Valid() && !correcting && tasks == [] && !raised
      ensures exit == HeldOff || !attached || old(ending) != Pending ==> retry == old(retry) && ending == old(ending)
      ensures exit == Failed && attached && old(ending) == Pending ==> retry && ending == Pending
      ensures exit.Rebuilt? && attached && old(ending) == Pending ==>
                ending == if exit.stillKept then Stashed else SettledFromBroker
    {
      correcting, tasks, raised := false, [], false;
      if exit == HeldOff || !attached || ending != Pending {
        return;
      }
      match exit {
        case Failed => retry := true;
        case Rebuilt(stillKept) => ending := if stillKept then Stashed else SettledFromBroker;
        case _ =>
      }
    }

    method RetryEnds()
      requires Valid() && retry
      modifies this
      ensures Valid() && !retry && view == old(view) && asked == old(asked) && kept == old(kept)
      ensures attached == old(attached) && buffered == old(buffered) && holds == old(holds)
      ensures unanswered == old(unanswered) && (raised ==> old(raised)) && (overlooked ==> old(overlooked))
      ensures old(Free()) && Awry() && !HeldBack() && answerLost && old(rounds) == CORRECTION_ROUNDS ==>
                tasks == [Rebuilding]
      ensures old(Free()) && Awry() && HeldBack() ==> Free() && Watched()
    {
      hide WantedLevels, HoldsAsked;
      retry := false;
      Settle();
    }

    // -- Rebuilds --

    /** A rebuild begins to hold what arrives, or joins one that does. */
    method RebuildStarts()
      requires Valid()
      modifies this`buffered
      ensures Valid() && buffered
    {
      buffered := true;
    }

    /** A rebuild's model stands: the position shows as the broker's snapshot has it. Nothing is settled by it. */
    method Stands(view: Option<View>, kept: bool)
      requires Valid()
      modifies this`view, this`kept, this`overlooked
      ensures Valid() && this.view == view && this.kept == kept && overlooked
    {
      this.view, this.kept, overlooked := view, kept, true;
    }

    /**
     The buffer is released: the model shows what the broker holds, so a lost send may be repeated.
     Nothing is settled if no buffer is held any more, as for a rebuild that joined one released
     since, or if applying what was held raises; nor by a detached client.
     */
    method Released(rebuilt: bool, raises: bool)
      requires Valid()
      modifies this
      ensures Valid() && !buffered && view == old(view) && kept == old(kept) && asked == old(asked)
      ensures attached == old(attached) && retry == old(retry) && holds == old(holds)
      ensures !old(buffered) || !attached || raises ==>
                unanswered == old(unanswered) && tasks == old(tasks) && ending == old(ending) && rounds == old(rounds)
                && correcting == old(correcting) && overlooked == old(overlooked)
      ensures !old(buffered) ==> raised == old(raised)
      ensures old(buffered) && attached && !raises ==>
                && unanswered == (if rebuilt then None else old(unanswered))
                && (old(Free()) ==> Watched())
                && (old(Free()) && Reachable() && HoldsAsked(asked, view.value) ==> ending == Done)
                && (old(Free()) && Awry() && rebuilt && old(rounds) < CORRECTION_ROUNDS ==>
                      tasks == [Waiting] && rounds == old(rounds) + 1)
                && (old(Free()) && PassedOver() ==> Free() && rounds == old(rounds))
      ensures (raised ==> old(raised) || raises) && (overlooked ==> old(overlooked))
    {
      hide WantedLevels, HoldsAsked;
      if !buffered {
        return;
      }
      buffered := false;
      if !attached {
        return;
      }
      if raises {
        raised := true;
        return;
      }
      if rebuilt {
        unanswered := None;
      }
      Settle();
    }

    /** A stashed bracket is handed back, by a detach or by a pass that holds the buffer. */
    method Unstash()
      requires Valid() && (buffered || !attached)
      modifies this`ending
      ensures Valid() && ending == if old(ending) == Stashed then Pending else old(ending)
    {
      if ending == Stashed {
        ending := Pending;
      }
    }

    /** The client leaves: every timer is cancelled, and the next connect rebuilds. */
    method Detach()
      requires Valid()
      modifies this`attached, this`holds, this`retry, this`buffered
      ensures Valid() && !attached && holds == {} && !retry && !buffered
    {
      attached, holds, retry, buffered := false, {}, false, false;
    }

    /** The client is back, with a rebuild under way. */
    method Attach()
      requires Valid()
      modifies this`attached, this`buffered
      ensures Valid() && attached && buffered
    {
      attached, buffered := true, true;
    }

    // -- Changes --

    /** The bracket is forgotten while it may be correcting: its entry ended without a live leg. */
    method Removed()
      requires Valid()
      modifies this`ending
      ensures Valid() && ending == if old(ending) == Pending then EndedElsewhere else old(ending)
    {
      if ending == Pending {
        ending := EndedElsewhere;
      }
    }

    /** An execution event changed the position, or a command what is asked: both settle the bracket again. */
    method Changed(view: Option<View>, kept: bool, asked: Asked)
      requires Valid() && asked.Valid()
      modifies this
      ensures Valid() && this.view == view && this.kept == kept && this.asked == asked
      ensures attached == old(attached) && buffered == old(buffered) && retry == old(retry) && holds == old(holds)
      ensures unanswered == old(unanswered) && answerLost == old(answerLost) && nextToken == old(nextToken)
      ensures (raised ==> old(raised)) && (overlooked ==> old(overlooked)) && (old(Free()) ==> Watched())
      ensures old(correcting) ==>
                tasks == old(tasks) && correcting && rounds == old(rounds) && ending == old(ending)
      ensures old(Free()) && Awry() && unanswered.None? && old(rounds) < CORRECTION_ROUNDS ==>
                ending == Pending && tasks == [Waiting] && rounds == old(rounds) + 1
      ensures old(Free()) && Awry() && HeldBack() ==> Free() && rounds == old(rounds)
    {
      hide WantedLevels, HoldsAsked;
      this.view, this.kept, this.asked := view, kept, asked;
      Settle();
    }

    /** An event changed the position, and handling it raised before the pass. */
    method ChangeRaises(view: Option<View>, kept: bool)
      requires Valid()
      modifies this`view, this`kept, this`raised
      ensures Valid() && this.view == view && this.kept == kept && raised
    {
      this.view, this.kept, raised := view, kept, true;
    }

    /** The deals of a kept position show it open: its keep ends, and nothing is settled. */
    method KeepEnds()
      requires Valid()
      modifies this`kept, this`overlooked
      ensures Valid() && !kept && overlooked
    {
      kept, overlooked := false, true;
    }

    /** The broker moved a trailing stop, an entry was found, or an answer ended a leg: nothing is settled. */
    method MovesUnsettled(view: Option<View>)
      requires Valid()
      modifies this`view, this`overlooked
      ensures Valid() && this.view == view && overlooked
    {
      this.view, overlooked := view, true;
    }
  }

  // -- Whole runs ---------------------------------------------------------------------------

  datatype Step =
    | Turn
    | AmendEnds(outcome: Outcome)
    | HoldTimer(token: nat)
    | OwnRebuild(exit: Exit)
    | RetryTimer
    | Buffers
    | Stand(view: Option<View>, kept: bool)
    | Release(rebuilt: bool, raises: bool)
    | Change(view: Option<View>, kept: bool, asked: Asked)
    | Raise(view: Option<View>, kept: bool)
    | EndKeep
    | Move(view: Option<View>)
    | HandBack
    | Forget
    | Leave
    | Return

  /** One step; one that cannot happen now changes nothing. */
  method Take(b: Bracket, step: Step)
    requires b.Valid()
    modifies b
    ensures b.Valid()
    ensures b.asked == (if step.Change? && step.asked.Valid() then step.asked else old(b.asked))
    ensures b.view == (if step.Change? && !step.asked.Valid() then old(b.view)
                       else if step.Change? || step.Stand? || step.Raise? || step.Move? then step.view
                       else old(b.view))
    ensures b.attached == ((old(b.attached) || step == Return) && step != Leave)
    ensures b.kept == (if (step.Change? && step.asked.Valid()) || step.Stand? || step.Raise? then step.kept
                       else if step == EndKeep then false
                       else old(b.kept))
    ensures step == Turn && old(b.tasks) == [Waiting] ==> b.tasks != [Waiting]
    ensures step.AmendEnds? && old(|b.tasks| == 1 && b.tasks[0].Sent?) ==>
              if step.outcome == Lost then b.answerLost && b.unanswered.Some?
              else step.outcome == Answered ==> b.unanswered.None? && !b.answerLost
    ensures step.AmendEnds? && old(|b.tasks| == 1 && (b.tasks[0].Sent? || b.tasks[0].Unsent?)) ==>
              (b.tasks == old(b.tasks) <==> old(b.tasks[0].Unsent?) && step.outcome == Lost)
    ensures step.HoldTimer? ==> step.token !in b.holds
    ensures step.OwnRebuild? && old(b.tasks) == [Rebuilding] && (step.exit == HeldOff ==> old(b.buffered)) ==>
              b.tasks == []
    ensures step == RetryTimer ==> !b.retry
    ensures step == Buffers ==> b.buffered
    ensures step.Release? ==> !b.buffered
    ensures step == HandBack && old(b.ending == Stashed && (b.buffered || !b.attached)) ==> b.ending == Pending
    ensures step == Forget ==> b.ending != Pending
    ensures b.overlooked && !old(b.overlooked) ==> Unsettled(step)
    ensures b.raised && !old(b.raised) ==> Raises(step)
  {
    hide Bracket.Valid, WantedLevels, HoldsAsked;
    match step {
      case Turn => if b.tasks == [Waiting] { b.Begin(); }
      case AmendEnds(outcome) =>
        if |b.tasks| == 1 && (b.tasks[0].Sent? || (b.tasks[0].Unsent? && outcome != Lost)) {
          b.End(outcome);
        }
      case HoldTimer(token) => if token in b.holds { b.HoldEnds(token); }
      case OwnRebuild(exit) =>
        if b.tasks == [Rebuilding] && (exit == HeldOff ==> b.buffered) { b.RebuildEnds(exit); }
      case RetryTimer => if b.retry { b.RetryEnds(); }
      case Buffers => b.RebuildStarts();
      case Stand(view, kept) => b.Stands(view, kept);
      case Release(rebuilt, raises) => b.Released(rebuilt, raises);
      case Change(view, kept, asked) => if asked.Valid() { b.Changed(view, kept, asked); }
      case Raise(view, kept) => b.ChangeRaises(view, kept);
      case EndKeep => b.KeepEnds();
      case Move(view) => b.MovesUnsettled(view);
      case HandBack => if b.buffered || !b.attached { b.Unstash(); }
      case Forget => b.Removed();
      case Leave => b.Detach();
      case Return => b.Attach();
    }
  }

  /** The steps that change the model without a pass over the brackets. */
  predicate Unsettled(step: Step) {
    step.Stand? || step.EndKeep? || step.Move?
  }

  /** The steps in which the adapter fails. */
  predicate Raises(step: Step) {
    step == AmendEnds(Raised) || step.Raise? || (step.Release? && step.raises)
  }

  /** What is asked at the end of a run. */
  function AskedAfter(asked: Asked, steps: seq<Step>): Asked {
    if steps == [] then asked
    else
      var last := steps[|steps| - 1];
      if last.Change? && last.asked.Valid() then last.asked else AskedAfter(asked, steps[..|steps| - 1])
  }

  /**
   Over every run, at most three correcting amends are started and never two tasks at once; and a
   pending bracket that could be corrected and is not being corrected will be settled again by a
   timer or a release, with these exceptions: the levels wanted are those of a lost amend without a
   timer, or since the last pass the model changed without one or the adapter failed. In a run
   without such steps only the first is left. No pass drops a bracket whose position has a live leg,
   or calls one done that the broker does not hold as asked.
   */
  method RunAll(asked: Asked, steps: seq<Step>) returns (b: Bracket)
    requires asked.Valid()
    ensures b.asked == AskedAfter(asked, steps)
    ensures b.started <= CORRECTION_ROUNDS && |b.tasks| <= 1 && (b.correcting <==> |b.tasks| == 1)
    ensures b.ending == PositionClosed ==>
              && b.last.Some? && !b.last.value.0.open
              && forall level :: level in b.last.value.0.alive ==> !b.last.value.0.alive[level]
    ensures b.ending == Done ==> b.last.Some? && b.last.value.1.Valid() && HoldsAsked(b.last.value.1, b.last.value.0)
    ensures b.asked.Valid() && (b.Idle() ==> b.Coming() || b.Stranded() || b.overlooked || b.raised)
    ensures (forall i :: 0 <= i < |steps| ==> !Unsettled(steps[i]) && !Raises(steps[i])) ==>
              !b.overlooked && !b.raised
  {
    b := new Bracket(asked);
    for i := 0 to |steps|
      invariant fresh(b) && b.Valid() && b.asked == AskedAfter(asked, steps[..i])
      invariant (forall k :: 0 <= k < i ==> !Unsettled(steps[k]) && !Raises(steps[k])) ==> !b.overlooked && !b.raised
    {
      assert steps[..i + 1][..i] == steps[..i];
      Take(b, steps[i]);
    }
    assert steps[..|steps|] == steps;
  }

  // -- The exceptions -----------------------------------------------------------------------

  /** A bracket just submitted, or one still as it was then. */
  ghost predicate Fresh(b: Bracket)
    reads b
  {
    && b.Valid() && b.attached && !b.buffered && !b.retry && b.holds == {} && b.Free()
    && b.rounds == 0 && b.unanswered.None?
  }

  /** A position an amend can reach, at which the broker does not hold what is asked. */
  predicate Wrong(view: View, asked: Asked) {
    asked.Valid() && view.open && view.protective && !HoldsAsked(asked, view)
  }

  /** Two amends are answered and set nothing; the third is sent. */
  method SendsThree(b: Bracket, view: View, asked: Asked)
    requires Fresh(b) && Wrong(view, asked)
    modifies b
    ensures b.Valid() && b.attached && !b.buffered && !b.retry && b.holds == {}
    ensures b.ending == Pending && b.rounds == CORRECTION_ROUNDS && b.correcting && |b.tasks| == 1
    ensures b.tasks[0].Sent? && b.tasks[0].levels == WantedLevels(asked, view)
    ensures b.view == Some(view) && !b.kept && b.asked == asked
  {
    b.Changed(Some(view), false, asked);
    b.Begin();
    b.End(Answered);
    b.Begin();
    b.End(Answered);
    b.Begin();
  }

  /**
   How a bracket is stranded: its third amend is lost while another level is asked for, so no timer
   holds it; the rebuild it then takes fails; the first level is asked for again; and the timer of
   the failed rebuild finds the levels wanted to be those of the lost amend. Nothing failed in the
   adapter, and nothing will settle the bracket.
   */
  method Strands(b: Bracket, view: View, first: Asked, other: Asked)
    requires Fresh(b) && Wrong(view, first) && Wrong(view, other)
    requires WantedLevels(first, view) != WantedLevels(other, view)
    modifies b
    ensures b.Valid() && b.Idle() && !b.Coming() && b.Stranded() && b.Watched()
  {
    hide WantedLevels, HoldsAsked;
    SendsThree(b, view, first);
    b.Changed(Some(view), false, other);
    b.End(Lost);
    b.RebuildEnds(Failed);
    b.Changed(Some(view), false, first);
    b.RetryEnds();
  }

  /** An amend is lost, and its timer armed. */
  method LosesOne(b: Bracket, view: View, asked: Asked) returns (token: nat)
    requires Fresh(b) && Wrong(view, asked)
    modifies b
    ensures b.Valid() && b.attached && !b.buffered && !b.retry && b.holds == {token} && b.Free() && b.Watched()
    ensures b.view == Some(view) && b.asked == asked && b.unanswered == Some((WantedLevels(asked, view), token))
  {
    b.Changed(Some(view), false, asked);
    b.Begin();
    token := b.tasks[0].token;
    b.End(Lost);
  }

  /**
   How a keep's end is overlooked: an amend is lost and held; another bracket's rebuild keeps this
   position and forgets the lost amend, so the timer finds nothing to release; then the position's
   deals show it open, and its keep ends without a pass.
   */
  method KeepEndsOverlooked(b: Bracket, view: View, asked: Asked)
    requires Fresh(b) && Wrong(view, asked)
    modifies b
    ensures b.Valid() && b.Idle() && !b.Coming() && !b.Stranded() && !b.raised && b.holds == {}
  {
    hide WantedLevels, HoldsAsked;
    var token := LosesOne(b, view, asked);
    b.RebuildStarts();
    b.Stands(Some(view), true);
    b.Released(true, false);
    b.HoldEnds(token);
    b.KeepEnds();
  }

  /**
   How a rebuild is overlooked: it joins another one, whose release serves both while the model
   does not know the position yet; its own model then stands with nothing held, and its release
   settles nothing.
   */
  method StandsOverlooked(b: Bracket, view: View)
    requires Fresh(b) && b.view.None? && Wrong(view, b.asked)
    modifies b
    ensures b.Valid() && b.Idle() && !b.Coming() && !b.Stranded() && !b.raised
  {
    b.RebuildStarts();
    b.RebuildStarts();
    b.Released(true, false);
    b.Stands(Some(view), false);
    b.Released(true, false);
  }

  // -- What a broker that answers does ------------------------------------------------------

  /** One round: the amend is sent, and its answer leaves this position and this bracket. */
  method AnsweredRound(b: Bracket, view: View, asked: Asked)
    requires b.Valid() && b.Reachable() && b.ending == Pending && b.tasks == [Waiting]
    requires view.open && view.protective && asked.Valid()
    modifies b
    ensures b.Valid() && b.view == Some(view) && b.asked == asked && b.Reachable()
    ensures b.ending == Pending ==> b.tasks == [Waiting] && b.rounds == old(b.rounds) + 1
    ensures b.ending != Pending ==> b.ending in {Done, Refused} && !b.correcting && b.rounds == old(b.rounds)
    ensures b.ending == Done ==> HoldsAsked(b.asked, b.view.value)
  {
    hide WantedLevels, HoldsAsked;
    b.Begin();
    b.view, b.asked := Some(view), asked;
    b.End(Answered);
  }

  /**
   While the position can be reached and amends are answered, the bracket is always removed,
   whatever the broker sets and whatever is asked meanwhile: `views(n)` and `asks(n)` are the
   position and the bracket as the `n`-th answer leaves them.
   */
  method SettlesWhenAnswered(b: Bracket, views: nat -> View, asks: nat -> Asked) returns (n: nat)
    requires b.Valid() && b.Free() && b.Reachable() && b.unanswered.None?
    requires b.rounds < CORRECTION_ROUNDS || !b.answerLost
    requires forall n :: views(n).open && views(n).protective && asks(n).Valid()
    modifies b
    ensures b.Valid() && b.ending in {Done, Refused} && !b.correcting
    ensures b.ending == Done ==> b.view.Some? && HoldsAsked(b.asked, b.view.value)
    ensures n == b.rounds - old(b.rounds)
    ensures b.view == if n == 0 then old(b.view) else Some(views(n - 1))
    ensures b.asked == if n == 0 then old(b.asked) else asks(n - 1)
  {
    hide WantedLevels, HoldsAsked;
    b.Settle();
    hide Bracket.Valid;
    n := 0;
    while b.ending == Pending
      invariant b.Valid() && b.Reachable() && b.ending in {Pending, Done, Refused}
      invariant b.ending == Pending ==> b.tasks == [Waiting]
      invariant b.ending != Pending ==> !b.correcting
      invariant b.ending == Done ==> HoldsAsked(b.asked, b.view.value)
      invariant b.rounds == old(b.rounds) + n + if b.ending == Pending then 1 else 0
      invariant b.view == if n == 0 then old(b.view) else Some(views(n - 1))
      invariant b.asked == if n == 0 then old(b.asked) else asks(n - 1)
      decreases b.ending == Pending, CORRECTION_ROUNDS - b.rounds
    {
      AnsweredRound(b, views(n), asks(n));
      n := n + 1;
    }
  }

  /** With nothing asked anew, a broker that sets exactly what was sent ends the bracket in one round. */
  method SettlesInOneRound(b: Bracket)
    requires b.Valid() && b.Free() && b.Awry() && b.view.value.open
    requires b.unanswered.None? && b.rounds < CORRECTION_ROUNDS
    modifies b
    ensures b.ending == Done && b.rounds == old(b.rounds) + 1 && b.tasks == []
  {
    b.Settle();
    b.Begin();
    ghost var view := b.view.value;
    WantedIsFixpoint(b.asked, view);
    b.view := Some(b.view.value.(levels := b.tasks[0].levels));
    WantedIsHeld(b.asked, b.view.value);
    b.End(Answered);
  }
}
