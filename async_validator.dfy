/**
  The validator that asks a remote service (validateService). It owns two
  cells, the error message and the "validating" flag, which three events write:
  a change of the watched value (a service call is issued), the call resolving
  with a result, and the call failing. Nothing ties a completion to the call
  that produced it, so whichever completion arrives last decides the message.
 */
module AsyncValidator {
  import opened Wrappers

  /** The two cells at one moment. */
  datatype Cells = Cells(errorMessage: Option<string>, validating: bool)

  /** What can happen to a service validator. */
  datatype Event = Change | Resolve(result: Option<string>) | Reject

  /** The cells of a newly created service validator. */
  const Initial := Cells(None, false)

  /** The effect of one event on the cells: only a change sets the flag, only
      a resolution writes the message. */
  function Step(c: Cells, e: Event): (r: Cells)
    ensures r.validating <==> e.Change?
    ensures r.errorMessage == if e.Resolve? then e.result else c.errorMessage
  {
    match e
    case Change => Cells(c.errorMessage, true)
    case Resolve(result) => Cells(result, false)
    case Reject => Cells(c.errorMessage, false)
  }

  /** The cells after a sequence of events, oldest first. The flag is set
      exactly while the most recent event is a value change: a completion of
      either kind always clears it, so it never stays stuck. */
  function Replay(c: Cells, events: seq<Event>): (r: Cells)
    ensures events == [] ==> r == c
    ensures events != [] ==> (r.validating <==> events[|events| - 1].Change?)
    decreases |events|
  {
    if events == [] then c
    else Step(Replay(c, events[..|events| - 1]), events[|events| - 1])
  }

  /** With no resolution among the events the message is left as it was. */
  lemma {:induction false} ReplayWithoutResolution(c: Cells, events: seq<Event>)
    requires forall i :: 0 <= i < |events| ==> !events[i].Resolve?
    ensures Replay(c, events).errorMessage == c.errorMessage
    decreases |events|
  {
    if events != [] {
      var n := |events| - 1;
      assert forall i :: 0 <= i < n ==> events[..n][i] == events[i];
      ReplayWithoutResolution(c, events[..n]);
    }
  }

  /** A resolution followed by no other resolution fixes the message. */
  lemma {:induction false} ReplayAfterResolution(c: Cells, events: seq<Event>, i: nat)
    requires i < |events| && events[i].Resolve?
    requires forall j :: i < j < |events| ==> !events[j].Resolve?
    ensures Replay(c, events).errorMessage == events[i].result
    decreases |events|
  {
    var n := |events| - 1;
    if i < n {
      var prefix := events[..n];
      assert prefix[i] == events[i];
      assert forall j :: i < j < n ==> prefix[j] == events[j];
      ReplayAfterResolution(c, prefix, i);
    }
  }

  /** After any sequence of events the error message is the result of the last
      resolution, or the starting message if no call resolved; rejections never
      touch it. */
  lemma {:induction false} ReplayErrorIsLastResolution(c: Cells, events: seq<Event>)
    ensures (forall i :: 0 <= i < |events| ==> !events[i].Resolve?) ==>
      Replay(c, events).errorMessage == c.errorMessage
    ensures forall i ::
              0 <= i < |events| && events[i].Resolve? && (forall j :: i < j < |events| ==> !events[j].Resolve?)
              ==> Replay(c, events).errorMessage == events[i].result
  {
    if forall i :: 0 <= i < |events| ==> !events[i].Resolve? {
      ReplayWithoutResolution(c, events);
    }
    forall i | 0 <= i < |events| && events[i].Resolve? &&
      (forall j :: i < j < |events| ==> !events[j].Resolve?)
      ensures Replay(c, events).errorMessage == events[i].result
    {
      ReplayAfterResolution(c, events, i);
    }
  }

  /** The last completion wins, whichever change issued it: a resolution that
      arrives after newer changes still overwrites the message. */
  lemma StaleResolutionWins(c: Cells, result: Option<string>, newer: Option<string>)
    ensures Replay(c, [Change, Change, Resolve(newer), Resolve(result)]).errorMessage == result
  {
  }

  /** The live validator: its cells as fields, the events as methods. */
  class ServiceValidator {
    var errorMessage: Option<string>
    var validating: bool

    constructor()
      ensures State() == Initial
    {
      errorMessage := None;
      validating := false;
    }

    function State(): Cells
      reads this
    {
      Cells(errorMessage, validating)
    }

    /** The watched value changed and a service call was issued. */
    method OnChange()
      modifies this
      ensures validating && errorMessage == old(errorMessage)
      ensures State() == Step(old(State()), Change)
    {
      validating := true;
    }

    /** A service call resolved with `result`. */
    method OnResolve(result: Option<string>)
      modifies this
      ensures errorMessage == result && !validating
      ensures State() == Step(old(State()), Resolve(result))
    {
      errorMessage := result;
      validating := false;
    }

    /** A service call failed; the failure is swallowed. */
    method OnReject()
      modifies this
      ensures !validating && errorMessage == old(errorMessage)
      ensures State() == Step(old(State()), Reject)
    {
      validating := false;
    }
  }
}
