/**
 The rebuild buffer of the execution client: venue events that arrive while the venue model is
 being replaced are held, and applied in order once it stands. Rebuilds overlap: one that starts
 while another holds the buffer joins it, and the first release serves both.
 */
module Buffer {
  import opened Wrappers

  /** A venue event: an execution event, or a trailing stop the broker moved. */
  datatype Event = Execution(id: nat) | TrailingStop(id: nat)

  type StatusId = nat

  /** What a release applies of the events held: up to the one it fails on. */
  function Applied(held: seq<Event>, failsAt: Option<nat>): seq<Event> {
    if failsAt.Some? && failsAt.value < |held| then held[..failsAt.value + 1] else held
  }

  class Client {
    /** The events held while the model is rebuilt. */
    var buffer: Option<seq<Event>>
    var attached: bool
    /** Set while the model stands, for a command that waits for its held answer. */
    var modelStanding: bool
    var rebuilding: bool
    /** The mass status whose reconciliation releases the buffer, and the timer that does so too. */
    var awaited: Option<StatusId>
    var releaseTimer: bool
    /** The events applied to the venue model, in order. */
    var model: seq<Event>

    /** The events that arrived, less those a detached client dropped. */
    ghost var arrived: seq<Event>
    /** A release failed in the adapter with events still behind the one it failed on. */
    ghost var cut: bool

    ghost function Held(): seq<Event>
      reads this`buffer
    {
      if buffer.Some? then buffer.value else []
    }

    /** Nothing is lost or out of order, unless a release was cut; then something is missing for good. */
    ghost predicate Valid()
      reads this
    {
      && (!cut ==> model + Held() == arrived)
      && (cut ==> |model + Held()| < |arrived|)
      && (modelStanding <==> buffer.None?)
      && (releaseTimer ==> awaited.Some?)
    }

    constructor ()
      ensures Valid() && !cut && arrived == [] && model == [] && !attached && buffer.None?
      ensures !rebuilding && awaited.None? && !releaseTimer
    {
      buffer, attached, modelStanding, rebuilding := None, false, true, false;
      awaited, releaseTimer, model := None, false, [];
      arrived, cut := [], false;
    }

    /** An event reaches the client: held while a rebuild is under way, applied otherwise. */
    method Arrive(event: Event)
      requires Valid()
      modifies this`buffer, this`model, this`arrived
      ensures Valid() && arrived == old(arrived) + [event]
      ensures old(buffer).None? ==> model == old(model) + [event] && buffer.None?
      ensures old(buffer).Some? ==> model == old(model) && buffer == Some(old(buffer).value + [event])
    {
      ghost var before := model + Held();
      if buffer.Some? {
        buffer := Some(buffer.value + [event]);
      } else {
        model := model + [event];
      }
      assert model + Held() == before + [event];
      arrived := arrived + [event];
    }

    method Hold()
      requires Valid()
      modifies this`buffer, this`modelStanding, this`rebuilding
      ensures Valid() && Held() == old(Held()) && buffer.Some? && rebuilding
    {
      if buffer.None? {
        buffer := Some([]);
      }
      modelStanding, rebuilding := false, true;
    }

    /**
     Applies the events held, in order; a second call applies nothing. Applying event `failsAt`, if
     there is one, raises in the adapter, and what is behind it is then not applied. A detached
     client applies nothing: its next connect rebuilds anew.
     */
    method Release(failsAt: Option<nat>)
      requires Valid()
      modifies this`buffer, this`modelStanding, this`rebuilding, this`awaited, this`releaseTimer, this`model,
               this`arrived, this`cut
      ensures Valid() && buffer.None? && awaited.None? && !rebuilding
      ensures attached ==> arrived == old(arrived)
      ensures attached ==> model == old(model) + Applied(old(Held()), failsAt)
      ensures !attached ==> model == old(model)
      ensures attached ==> (cut <==> old(cut) || Applied(old(Held()), failsAt) != old(Held()))
    {
      awaited, releaseTimer := None, false;
      var held := if buffer.Some? then buffer.value else [];
      ghost var before := model + held;
      buffer, rebuilding, modelStanding := None, false, true;
      if !attached {
        arrived, cut := model, false;
        return;
      }
      var i := 0;
      while i < |held| && (failsAt.None? || i <= failsAt.value)
        invariant i <= |Applied(held, failsAt)| && model == old(model) + held[..i]
        modifies this`model
      {
        model := model + [held[i]];
        i := i + 1;
      }
      assert i == |held| ==> model == before && held[..i] == held;
      if i < |held| {
        cut := true;
      }
    }

    /** The start's mass status is handed to Nautilus: its reconciliation releases the buffer. */
    method AwaitReconciliation(status: StatusId)
      requires Valid()
      modifies this`awaited, this`releaseTimer
      ensures Valid() && awaited == Some(status) && releaseTimer
    {
      awaited, releaseTimer := Some(status), true;
    }

    /** Nautilus published a reconciled mass status, maybe not the first time. */
    method Reconciled(status: StatusId, failsAt: Option<nat>)
      requires Valid()
      modifies this
      ensures Valid() && attached == old(attached)
      ensures attached ==> arrived == old(arrived) && (failsAt.None? ==> cut == old(cut))
      ensures old(awaited) != Some(status) ==> model == old(model) && buffer == old(buffer) && awaited == old(awaited)
      ensures old(awaited) == Some(status) ==> awaited.None? && buffer.None?
      ensures old(awaited) == Some(status) && attached ==> model == old(model) + Applied(old(Held()), failsAt)
    {
      if awaited == Some(status) {
        Release(failsAt);
      }
    }

    /** Nautilus did not reconcile the mass status in time. */
    method Waited(failsAt: Option<nat>)
      requires Valid() && releaseTimer
      modifies this
      ensures Valid() && attached == old(attached) && buffer.None? && awaited.None? && !releaseTimer
      ensures attached ==> model == old(model) + Applied(old(Held()), failsAt)
      ensures attached ==> arrived == old(arrived) && (failsAt.None? ==> cut == old(cut))
    {
      releaseTimer := false;
      Release(failsAt);
    }

    method Connect()
      requires Valid()
      modifies this`buffer, this`modelStanding, this`rebuilding, this`attached
      ensures Valid() && attached && buffer.Some? && Held() == old(Held())
    {
      Hold();
      attached := true;
    }

    /** Whatever was held is dropped: the next connect rebuilds anew. */
    method Detach()
      requires Valid()
      modifies this
      ensures Valid() && !attached && buffer.None? && model == old(model) && !cut && arrived == model
      ensures awaited.None? && !releaseTimer && !rebuilding
    {
      awaited, releaseTimer := None, false;
      buffer, modelStanding, rebuilding, attached := None, true, false, false;
      arrived, cut := model, false;
    }
  }

  // -- Whole runs ---------------------------------------------------------------------------

  /** Each release names the event it fails on, if any. */
  datatype Step =
    | Arrives(event: Event)
    | RebuildStarts
    | RebuildEnds(failsAt: Option<nat>)
    | StatusSent(status: StatusId)
    | StatusReconciled(status: StatusId, failsAt: Option<nat>)
    | WaitEnds(failsAt: Option<nat>)

  /** The events that arrive in a run, in order. */
  function Arrivals(steps: seq<Step>): seq<Event> {
    if steps == [] then []
    else
      var before, last := Arrivals(steps[..|steps| - 1]), steps[|steps| - 1];
      if last.Arrives? then before + [last.event] else before
  }

  /** A release that fails, if enough events are held by then. */
  predicate Fails(step: Step) {
    match step
    case RebuildEnds(failsAt) => failsAt.Some?
    case StatusReconciled(_, failsAt) => failsAt.Some?
    case WaitEnds(failsAt) => failsAt.Some?
    case _ => false
  }

  method TakeAttached(client: Client, step: Step)
    requires client.Valid() && client.attached
    modifies client
    ensures client.Valid() && client.attached
    ensures client.arrived == old(client.arrived) + if step.Arrives? then [step.event] else []
    ensures step.RebuildEnds? ==> client.buffer.None?
    ensures !Fails(step) ==> client.cut == old(client.cut)
  {
    match step {
      case Arrives(event) => client.Arrive(event);
      case RebuildStarts => client.Hold();
      case RebuildEnds(failsAt) => client.Release(failsAt);
      case StatusSent(status) => client.AwaitReconciliation(status);
      case StatusReconciled(status, failsAt) => client.Reconciled(status, failsAt);
      case WaitEnds(failsAt) => if client.releaseTimer { client.Waited(failsAt); }
    }
  }

  /**
   Between detaches, over any interleaving of overlapping rebuilds, awaited mass statuses, timers
   and failing releases: what the model was given, followed by what is held, is what arrived,
   exactly if no release failed before its last event; if one did, something is missing for good.
   */
  method RunAttached(client: Client, steps: seq<Step>)
    requires client.Valid() && client.attached && !client.cut
    modifies client
    ensures client.Valid() && client.attached
    ensures !client.cut <==> client.model + client.Held() == old(client.model + client.Held()) + Arrivals(steps)
    ensures client.cut ==> |client.model + client.Held()| < |old(client.model + client.Held()) + Arrivals(steps)|
    ensures (forall i :: 0 <= i < |steps| ==> !Fails(steps[i])) ==>
              client.model + client.Held() == old(client.model + client.Held()) + Arrivals(steps)
    ensures !client.cut && steps != [] && steps[|steps| - 1].RebuildEnds? ==>
              client.model == old(client.model + client.Held()) + Arrivals(steps)
  {
    ghost var before := client.model + client.Held();
    for i := 0 to |steps|
      invariant client.Valid() && client.attached
      invariant client.arrived == before + Arrivals(steps[..i])
      invariant i > 0 && steps[i - 1].RebuildEnds? ==> client.buffer.None?
      invariant (forall k :: 0 <= k < i ==> !Fails(steps[k])) ==> !client.cut
    {
      assert steps[..i + 1][..i] == steps[..i];
      TakeAttached(client, steps[i]);
    }
    assert steps[..|steps|] == steps;
  }
}
