/**
 Answering data requests exactly once: `_submit`, `_claim`, `_on_request_done` and the handler
 `_request_bars` of the data client. A request's handler runs in a task of its own; a task
 cancelled before its first step never runs its handler, and the task's done-callback then answers
 in its place.
 */
module Requests {
  type RequestId = nat

  datatype By = Handler | Callback

  datatype Reason = BadPeriod | NotConnected | NotLoaded | ConnectionClosed | VenueReason | InternalReason

  datatype Content = Bars | Failed(reason: Reason)

  datatype Answer = Answer(who: By, content: Content)

  /**
   A request's task: created, awaiting the history inside its handler since connection
   `connection`, or finished. `cancel` marks a cancellation not delivered yet; `claimed` that the
   handler ran and took the request.
   */
  datatype Task =
    | Created(cancel: bool)
    | Awaiting(cancel: bool, connection: nat)
    | Finished(cancelled: bool, claimed: bool, callbackRan: bool)

  /** What the handler finds before it asks the venue. */
  datatype Checks = Checks(periodKnown: bool, connected: bool, loaded: bool)

  /** What the awaited history does when the handler's task runs: it goes on awaiting, returns or raises. */
  datatype History = Suspends | Returns | RaisesTimeout | RaisesConnection | RaisesVenue | RaisesBug | RaisesCancelled

  class Client {
    var unanswered: set<RequestId>
    var tasks: map<RequestId, Task>
    var answers: map<RequestId, seq<Answer>>
    var next: RequestId
    /** Counts the connects and disconnects. */
    var generation: nat

    ghost predicate Valid()
      reads this
    {
      && tasks.Keys <= answers.Keys
      && (forall r :: r in tasks || r in answers || r in unanswered ==> r < next)
      && (forall r :: r in tasks ==> Fits(tasks[r], r in unanswered, answers[r]))
      && (forall r :: r in answers && r !in tasks ==> answers[r] == [] && r !in unanswered)
    }

    /** What a task's state says of its request: still up for claiming or not, and its answers. */
    static predicate Fits(task: Task, unclaimed: bool, got: seq<Answer>) {
      match task
      case Created(_) => unclaimed && got == []
      case Awaiting(_, _) => !unclaimed && got == []
      case Finished(cancelled, claimed, callbackRan) =>
        if claimed then
          && !unclaimed && |got| == 1 && got[0].who == Handler
          && (cancelled ==> got[0].content == Failed(ConnectionClosed))
        else if callbackRan then !unclaimed && got == [Answer(Callback, Failed(ConnectionClosed))]
        else cancelled && unclaimed && got == []
    }

    constructor ()
      ensures Valid() && tasks == map[] && answers == map[] && next == 0 && generation == 0
    {
      unanswered, tasks, answers, next, generation := {}, map[], map[], 0, 0;
    }

    /** A request arrives and is given a task, or none at all: nothing will then claim it. */
    method Submit(scheduled: bool) returns (r: RequestId)
      requires Valid()
      modifies this
      ensures Valid() && r == old(next) && next == r + 1 && answers == old(answers)[r := []]
      ensures generation == old(generation)
      ensures tasks == if scheduled then old(tasks)[r := Created(false)] else old(tasks)
    {
      r := next;
      next := next + 1;
      answers := answers[r := []];
      unanswered := unanswered + {r};
      if scheduled {
        tasks := tasks[r := Created(false)];
      } else {
        unanswered := unanswered - {r};
      }
    }

    method Cancel(r: RequestId)
      requires Valid() && r in tasks
      modifies this`tasks
      ensures Valid()
      ensures tasks == if old(tasks)[r].Finished? then old(tasks) else old(tasks)[r := old(tasks)[r].(cancel := true)]
    {
      if !tasks[r].Finished? {
        tasks := tasks[r := tasks[r].(cancel := true)];
      }
    }

    /** An answer goes out. */
    method Respond(r: RequestId, who: By, content: Content)
      requires r in answers
      modifies this`answers
      ensures answers == old(answers)[r := old(answers)[r] + [Answer(who, content)]]
    {
      answers := answers[r := answers[r] + [Answer(who, content)]];
    }

    /**
     The handler up to its await: `finished` if one of its three checks failed the request. It takes
     the request for itself first.
     */
    method Claim(r: RequestId, checks: Checks) returns (finished: bool)
      requires r in answers
      modifies this`unanswered, this`answers
      ensures unanswered == old(unanswered) - {r}
      ensures finished <==> !(checks.periodKnown && checks.connected && checks.loaded)
      ensures Answered(r, old(answers), answers, if finished then 1 else 0)
      ensures finished ==>
                answers[r][|old(answers)[r]|].content == Failed(if !checks.periodKnown then BadPeriod
                                                               else if !checks.connected then NotConnected
                                                               else NotLoaded)
    {
      unanswered := unanswered - {r};
      if !checks.periodKnown {
        Respond(r, Handler, Failed(BadPeriod));
        return true;
      }
      if !checks.connected {
        Respond(r, Handler, Failed(NotConnected));
        return true;
      }
      if !checks.loaded {
        Respond(r, Handler, Failed(NotLoaded));
        return true;
      }
      return false;
    }

    /**
     The handler from its await on: caught cancellations and errors fail the request, and the bars
     are handed over outside the `try`. `raised` tells whether it ends in an exception, and
     `cancelled` whether that is a cancellation.
     */
    method Conclude(r: RequestId, history: History, connection: nat) returns (raised: bool, cancelled: bool)
      requires r in answers && history != Suspends
      modifies this`answers
      ensures Answered(r, old(answers), answers, 1)
      ensures cancelled <==> history == RaisesCancelled
      ensures raised <==> history == RaisesCancelled || history == RaisesBug
      ensures var content := answers[r][|old(answers)[r]|].content;
        content == match history
                   case Returns => Bars
                   case RaisesCancelled => Failed(ConnectionClosed)
                   case RaisesConnection => Failed(if connection != generation then ConnectionClosed else VenueReason)
                   case RaisesBug => Failed(InternalReason)
                   case _ => Failed(VenueReason)
    {
      raised, cancelled := false, false;
      match history {
        case RaisesCancelled =>
          Respond(r, Handler, Failed(ConnectionClosed));
          return true, true;
        case RaisesTimeout | RaisesConnection | RaisesVenue | RaisesBug =>
          var reason := if history == RaisesBug then InternalReason else VenueReason;
          if history == RaisesConnection && connection != generation {
            reason := ConnectionClosed;
          }
          Respond(r, Handler, Failed(reason));
          if history == RaisesBug {
            raised := true;
          }
          return;
        case Returns =>
      }
      Respond(r, Handler, Bars);
    }

    /** The task's first step: a cancelled one ends before its handler, which otherwise claims the request. */
    method Begin(r: RequestId, checks: Checks, history: History)
      requires Valid() && r in tasks && tasks[r].Created?
      modifies this`tasks, this`unanswered, this`answers
      ensures Valid()
      ensures old(tasks)[r].cancel ==> tasks == old(tasks)[r := Finished(true, false, false)] && answers == old(answers)
      ensures answers.Keys == old(answers.Keys) && (!old(tasks)[r].cancel ==> r !in unanswered)
      ensures !old(tasks)[r].cancel ==>
                tasks == old(tasks)[r := if !(checks.periodKnown && checks.connected && checks.loaded)
                                         then Finished(false, true, false)
                                         else if history == Suspends then Awaiting(false, generation)
                                         else Finished(history == RaisesCancelled, true, false)]
    {
      if tasks[r].cancel {
        tasks := tasks[r := Finished(true, false, false)];
        return;
      }
      var finished := Claim(r, checks);
      if finished {
        tasks := tasks[r := Finished(false, true, false)];
      } else if history == Suspends {
        tasks := tasks[r := Awaiting(false, generation)];
      } else {
        var _, cancelled := Conclude(r, history, generation);
        tasks := tasks[r := Finished(cancelled, true, false)];
      }
    }

    /** The handler goes on; a cancellation is delivered at its await, whatever the history would do. */
    method Resume(r: RequestId, history: History)
      requires Valid() && r in tasks && tasks[r].Awaiting?
      modifies this`tasks, this`answers
      ensures Valid() && answers.Keys == old(answers.Keys)
      ensures !old(tasks)[r].cancel && history == Suspends ==> tasks == old(tasks) && answers == old(answers)
      ensures old(tasks)[r].cancel || history != Suspends ==>
                tasks == old(tasks)[r := Finished(old(tasks)[r].cancel || history == RaisesCancelled, true, false)]
    {
      var awaited := if tasks[r].cancel then RaisesCancelled else history;
      if awaited != Suspends {
        var _, cancelled := Conclude(r, awaited, tasks[r].connection);
        tasks := tasks[r := Finished(cancelled, true, false)];
      }
    }

    /** The task's done-callback: it answers a cancelled request that nothing claimed. */
    method Done(r: RequestId)
      requires Valid() && r in tasks && tasks[r].Finished? && !tasks[r].callbackRan
      modifies this`tasks, this`unanswered, this`answers
      ensures Valid() && r in tasks && tasks[r] == old(tasks)[r].(callbackRan := true)
      ensures answers == if old(tasks)[r].claimed then old(answers)
                         else old(answers)[r := [Answer(Callback, Failed(ConnectionClosed))]]
    {
      if tasks[r].cancelled && r in unanswered {
        unanswered := unanswered - {r};
        assert [] + [Answer(Callback, Failed(ConnectionClosed))] == [Answer(Callback, Failed(ConnectionClosed))];
        Respond(r, Callback, Failed(ConnectionClosed));
      }
      tasks := tasks[r := tasks[r].(callbackRan := true)];
    }
  }

  /** The handler gave request `r`, and no other, so many answers more. */
  predicate Answered(r: RequestId, before: map<RequestId, seq<Answer>>, after: map<RequestId, seq<Answer>>, count: nat)
    requires r in before
  {
    && r in after && after == before[r := after[r]]
    && |after[r]| == |before[r]| + count && after[r][..|before[r]|] == before[r]
    && forall i :: |before[r]| <= i < |after[r]| ==> after[r][i].who == Handler
  }

  datatype Step =
    | Arrives(scheduled: bool)
    | Cancels(r: RequestId)
    | Begins(r: RequestId, checks: Checks, history: History)
    | Resumes(r: RequestId, history: History)
    | CallsBack(r: RequestId)
    | Reconnects

  /** One step; one that cannot happen now changes nothing. */
  method Take(client: Client, step: Step)
    requires client.Valid()
    modifies client
    ensures client.Valid()
    ensures client.next == old(client.next) + (if step.Arrives? then 1 else 0)
    ensures client.generation == old(client.generation) + (if step == Reconnects then 1 else 0)
    ensures client.answers.Keys == old(client.answers.Keys) + (if step.Arrives? then {old(client.next)} else {})
  {
    match step {
      case Arrives(scheduled) => var _ := client.Submit(scheduled);
      case Cancels(r) => if r in client.tasks { client.Cancel(r); }
      case Begins(r, checks, history) =>
        if r in client.tasks && client.tasks[r].Created? { client.Begin(r, checks, history); }
      case Resumes(r, history) => if r in client.tasks && client.tasks[r].Awaiting? { client.Resume(r, history); }
      case CallsBack(r) =>
        if r in client.tasks && client.tasks[r].Finished? && !client.tasks[r].callbackRan { client.Done(r); }
      case Reconnects => client.generation := client.generation + 1;
    }
  }

  /** How many requests arrive in a run. */
  function Arrivals(steps: seq<Step>): nat {
    if steps == [] then 0
    else Arrivals(steps[..|steps| - 1]) + if steps[|steps| - 1].Arrives? then 1 else 0
  }

  /**
   For every order of starts, cancellations, failures, completions and callbacks: a request given
   a task is answered at most once, and exactly once when its task is over, by its handler if it
   claimed the request and by the callback otherwise. A cancelled one is told the connection closed.
   */
  method RunAll(steps: seq<Step>) returns (tasks: map<RequestId, Task>, answers: map<RequestId, seq<Answer>>)
    ensures tasks.Keys <= answers.Keys && forall r: RequestId :: r in answers <==> r < Arrivals(steps)
    ensures forall r :: r in tasks ==> |answers[r]| <= 1
    ensures forall r :: r in tasks && tasks[r].Finished? && (tasks[r].callbackRan || tasks[r].claimed) ==>
              && |answers[r]| == 1
              && answers[r][0].who == (if tasks[r].claimed then Handler else Callback)
              && (tasks[r].cancelled || !tasks[r].claimed ==> answers[r][0].content == Failed(ConnectionClosed))
    ensures forall r :: r in answers && r !in tasks ==> answers[r] == []
  {
    var client := new Client();
    for i := 0 to |steps|
      invariant fresh(client) && client.Valid() && client.next == Arrivals(steps[..i])
      invariant forall r: RequestId :: r in client.answers <==> r < client.next
    {
      assert steps[..i + 1][..i] == steps[..i];
      Take(client, steps[i]);
    }
    assert steps[..|steps|] == steps;
    tasks, answers := client.tasks, client.answers;
  }
}
