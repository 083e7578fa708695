/** The saga orchestrator: it runs actions in order and, when one fails or the run is cancelled, undoes what was done. */
module Saga {
  import opened Options

  /** What an action or a compensation leaves behind. */
  datatype Effect<D> = Effect(data: D, failed: bool)

  datatype Step<!D> = Step(name: string, action: D -> Effect<D>, compensation: Option<D -> Effect<D>>) {

    /** A missing compensation does nothing and cannot fail. */
    function Compensate(d: D): Effect<D> {
      if compensation.None? then Effect(d, false) else (compensation.value)(d)
    }
  }

  datatype Event = Acted(i: nat) | Undid(i: nat)

  /** The data after the first `k` actions. */
  function Forward<D>(steps: seq<Step<D>>, k: nat, d: D): D
    requires k <= |steps|
  {
    if k == 0 then d else steps[k - 1].action(Forward(steps, k - 1, d)).data
  }

  /** The data after the compensations of the first `k` steps, the last step first. */
  function Backward<D>(steps: seq<Step<D>>, k: nat, d: D): D
    requires k <= |steps|
  {
    if k == 0 then d else Backward(steps, k - 1, steps[k - 1].Compensate(d).data)
  }

  /** Some of those compensations fails. */
  predicate BackwardFails<D>(steps: seq<Step<D>>, k: nat, d: D)
    requires k <= |steps|
  {
    k > 0 && (steps[k - 1].Compensate(d).failed || BackwardFails(steps, k - 1, steps[k - 1].Compensate(d).data))
  }

  function Actions(k: nat): (trace: seq<Event>)
    ensures |trace| == k && forall i :: 0 <= i < k ==> trace[i] == Acted(i)
  {
    seq(k, i requires 0 <= i < k => Acted(i))
  }

  /** The compensations that the first `k` steps have, the last step first. */
  function Compensations<D>(steps: seq<Step<D>>, k: nat): seq<Event>
    requires k <= |steps|
  {
    if k == 0 then []
    else (if steps[k - 1].compensation.Some? then [Undid(k - 1)] else []) + Compensations(steps, k - 1)
  }

  datatype Result = Success | StepFailed(name: string, compensationFailed: bool) | CompensationFailed

  /** How a run came to its end: after all actions, because the context was done, or because an action failed. */
  datatype Ending = Completed | Cancelled | Failed

  /** The data when the compensations begin. */
  function AtEnd<D>(steps: seq<Step<D>>, k: nat, ending: Ending, d: D): D
    requires k <= |steps| && (ending.Failed? ==> k < |steps|)
  {
    if ending.Failed? then steps[k].action(Forward(steps, k, d)).data else Forward(steps, k, d)
  }

  /** The run gets to step `i` and its action succeeds. */
  ghost predicate Succeeds<D>(steps: seq<Step<D>>, cancelled: nat -> bool, d: D, i: nat)
    requires i < |steps|
  {
    !cancelled(i) && !steps[i].action(Forward(steps, i, d)).failed
  }

  /** A run whose first `k` actions succeeded: what it did, what it left behind and what it reported. */
  ghost predicate IsRun<D>(steps: seq<Step<D>>, cancelled: nat -> bool, d: D, k: nat, ending: Ending, d': D, trace: seq<Event>, r: Result) {
    && k <= |steps|
    && (forall i :: 0 <= i < k ==> Succeeds(steps, cancelled, d, i))
    && match ending
       case Completed =>
         k == |steps| && d' == Forward(steps, k, d) && trace == Actions(k) && r == Success
       case Cancelled =>
         && k < |steps| && cancelled(k)
         && d' == Backward(steps, k, Forward(steps, k, d))
         && trace == Actions(k) + Compensations(steps, k)
         && r == if BackwardFails(steps, k, Forward(steps, k, d)) then CompensationFailed else Success
       case Failed =>
         && k < |steps| && !cancelled(k) && steps[k].action(Forward(steps, k, d)).failed
         && d' == Backward(steps, k, AtEnd(steps, k, ending, d))
         && trace == Actions(k + 1) + Compensations(steps, k)
         && r == StepFailed(steps[k].name, BackwardFails(steps, k, AtEnd(steps, k, ending, d)))
  }

  /** The first `i` actions have been performed and have succeeded. */
  ghost predicate Progress<D>(steps: seq<Step<D>>, cancelled: nat -> bool, d: D, i: nat, d': D, trace: seq<Event>) {
    && i <= |steps| && d' == Forward(steps, i, d) && trace == Actions(i)
    && forall j :: 0 <= j < i ==> Succeeds(steps, cancelled, d, j)
  }

  lemma ProgressNext<D>(steps: seq<Step<D>>, cancelled: nat -> bool, d: D, i: nat, d': D, trace: seq<Event>)
    requires Progress(steps, cancelled, d, i, d', trace) && i < |steps| && !cancelled(i)
    ensures trace + [Acted(i)] == Actions(i + 1)
    ensures !steps[i].action(d').failed ==> Progress(steps, cancelled, d, i + 1, steps[i].action(d').data, trace + [Acted(i)])
  {
  }

  // The same in terms of the data between the steps.

  /** `states[i]` are the data before action `i`. */
  ghost predicate Doing<D>(steps: seq<Step<D>>, k: nat, d: D, states: seq<D>) {
    && k <= |steps| && |states| == k + 1 && states[0] == d
    && forall i :: 0 <= i < k ==> states[i + 1] == steps[i].action(states[i]).data
  }

  /** `states[i + 1]` are the data that the compensation of step `i` is given, and `states[i]` what it leaves behind. */
  ghost predicate Undoing<D>(steps: seq<Step<D>>, k: nat, d: D, states: seq<D>) {
    && k <= |steps| && |states| == k + 1 && states[k] == d
    && forall i :: 0 <= i < k ==>
                     states[i] == match steps[i].compensation
                                  case None => states[i + 1]
                                  case Some(undo) => undo(states[i + 1]).data
  }

  /** Some step has a compensation that fails on the data it is given. */
  ghost predicate UndoFails<D>(steps: seq<Step<D>>, k: nat, states: seq<D>)
    requires k <= |steps| && |states| == k + 1
  {
    exists i :: 0 <= i < k && steps[i].compensation.Some? && (steps[i].compensation.value)(states[i + 1]).failed
  }

  lemma {:induction false} ForwardStates<D>(steps: seq<Step<D>>, k: nat, d: D) returns (states: seq<D>)
    requires k <= |steps|
    ensures Doing(steps, k, d, states) && forall i :: 0 <= i <= k ==> Forward(steps, i, d) == states[i]
  {
    if k == 0 {
      states := [d];
    } else {
      var before := ForwardStates(steps, k - 1, d);
      states := before + [Forward(steps, k, d)];
    }
  }

  lemma {:induction false} BackwardStates<D>(steps: seq<Step<D>>, k: nat, d: D) returns (states: seq<D>)
    requires k <= |steps|
    ensures Undoing(steps, k, d, states)
    ensures Backward(steps, k, d) == states[0] && (BackwardFails(steps, k, d) <==> UndoFails(steps, k, states))
  {
    if k == 0 {
      states := [d];
    } else {
      var rest := BackwardStates(steps, k - 1, steps[k - 1].Compensate(d).data);
      states := rest + [d];
      UndoFailsNext(steps, k, rest, d);
    }
  }

  lemma UndoFailsNext<D>(steps: seq<Step<D>>, k: nat, rest: seq<D>, d: D)
    requires 0 < k <= |steps| && Undoing(steps, k - 1, steps[k - 1].Compensate(d).data, rest)
    ensures UndoFails(steps, k, rest + [d]) <==> steps[k - 1].Compensate(d).failed || UndoFails(steps, k - 1, rest)
  {
    var states := rest + [d];
    if UndoFails(steps, k - 1, rest) {
      var i :| 0 <= i < k - 1 && steps[i].compensation.Some? && (steps[i].compensation.value)(rest[i + 1]).failed;
      assert states[i + 1] == rest[i + 1];
    }
    if UndoFails(steps, k, states) {
      var i :| 0 <= i < k && steps[i].compensation.Some? && (steps[i].compensation.value)(states[i + 1]).failed;
      assert i < k - 1 ==> states[i + 1] == rest[i + 1];
    }
  }

  /** What a run does to the data, step by step: every action is given what the one before it left behind, the
      compensations of the completed steps start from what the last action left and hand the data on in reverse, and the
      reported failure is that of an action or of some compensation on the data it was given. */
  lemma RunUnfolds<D>(steps: seq<Step<D>>, cancelled: nat -> bool, d: D, k: nat, ending: Ending, d': D, trace: seq<Event>, r: Result)
    returns (forth: seq<D>, back: seq<D>)
    requires IsRun(steps, cancelled, d, k, ending, d', trace, r)
    ensures Doing(steps, k, d, forth)
    ensures forall i :: 0 <= i < k ==> !cancelled(i) && !steps[i].action(forth[i]).failed
    ensures ending.Completed? ==> k == |steps| && d' == forth[k] && r == Success
    ensures ending.Cancelled? ==>
              && k < |steps| && cancelled(k) && Undoing(steps, k, forth[k], back) && d' == back[0]
              && r == if UndoFails(steps, k, back) then CompensationFailed else Success
    ensures ending.Failed? ==>
              && k < |steps| && !cancelled(k) && steps[k].action(forth[k]).failed
              && Undoing(steps, k, steps[k].action(forth[k]).data, back) && d' == back[0]
              && r == StepFailed(steps[k].name, UndoFails(steps, k, back))
  {
    forth := ForwardStates(steps, k, d);
    back := BackwardStates(steps, k, if ending.Failed? then steps[k].action(forth[k]).data else forth[k]);
    forall i | 0 <= i < k
      ensures !cancelled(i) && !steps[i].action(forth[i]).failed
    {
      assert Succeeds(steps, cancelled, d, i);
    }
  }

  class Orchestrator<D> {
    var steps: seq<Step<D>>
    var completedSteps: seq<Step<D>>

    constructor ()
      ensures steps == [] && completedSteps == []
    {
      steps, completedSteps := [], [];
    }

    method AddStep(step: Step<D>)
      modifies this`steps
      ensures steps == old(steps) + [step]
    {
      steps := steps + [step];
    }

    /** Every run is one of the three kinds, and the completed steps are those whose actions succeeded. */
    method Execute(data: D, cancelled: nat -> bool)
      returns (data': D, trace: seq<Event>, r: Result, ghost k: nat, ghost ending: Ending)
      modifies this`completedSteps
      ensures IsRun(steps, cancelled, data, k, ending, data', trace, r)
      ensures completedSteps == steps[..k]
    {
      completedSteps := [];
      data', trace := data, [];
      for i := 0 to |steps|
        invariant completedSteps == steps[..i] && Progress(steps, cancelled, data, i, data', trace)
      {
        k := i;
        if cancelled(i) {
          PrefixUndone(steps, i, data');
          var undone, events, failed, _ := RunCompensations(data');
          return undone, trace + events, if failed then CompensationFailed else Success, k, Cancelled;
        }
        ProgressNext(steps, cancelled, data, i, data', trace);
        var effect := steps[i].action(data');
        if effect.failed {
          PrefixUndone(steps, i, effect.data);
          var undone, events, failed, _ := RunCompensations(effect.data);
          return undone, trace + [Acted(i)] + events, StepFailed(steps[i].name, failed), k, Failed;
        }
        data', trace := effect.data, trace + [Acted(i)];
        completedSteps := completedSteps + [steps[i]];
      }
      k, ending, r := |steps|, Completed, Success;
    }

    /** Runs the compensations of the completed steps in reverse, and goes on when one fails. */
    method RunCompensations(data: D) returns (data': D, trace: seq<Event>, failed: bool, ghost states: seq<D>)
      ensures data' == Backward(completedSteps, |completedSteps|, data)
      ensures trace == Compensations(completedSteps, |completedSteps|)
      ensures failed == BackwardFails(completedSteps, |completedSteps|, data)
      ensures Undoing(completedSteps, |completedSteps|, data, states) && data' == states[0]
      ensures failed <==> UndoFails(completedSteps, |completedSteps|, states)
    {
      states := BackwardStates(completedSteps, |completedSteps|, data);
      data', trace, failed := data, [], false;
      for i := |completedSteps| downto 0
        invariant Backward(completedSteps, |completedSteps|, data) == Backward(completedSteps, i, data')
        invariant Compensations(completedSteps, |completedSteps|) == trace + Compensations(completedSteps, i)
        invariant BackwardFails(completedSteps, |completedSteps|, data) == (failed || BackwardFails(completedSteps, i, data'))
      {
        var step := completedSteps[i];
        if step.compensation.Some? {
          var effect := (step.compensation.value)(data');
          data', trace := effect.data, trace + [Undid(i)];
          if effect.failed {
            failed := true;
          }
        }
      }
    }
  }

  lemma {:induction false} PrefixUndone<D>(steps: seq<Step<D>>, k: nat, d: D)
    requires k <= |steps|
    ensures Backward(steps[..k], k, d) == Backward(steps, k, d)
    ensures BackwardFails(steps[..k], k, d) == BackwardFails(steps, k, d)
    ensures Compensations(steps[..k], k) == Compensations(steps, k)
  {
    PrefixUndoneUpTo(steps, k, k, d);
  }

  lemma {:induction false} PrefixUndoneUpTo<D>(steps: seq<Step<D>>, n: nat, k: nat, d: D)
    requires k <= n <= |steps|
    ensures Backward(steps[..n], k, d) == Backward(steps, k, d)
    ensures BackwardFails(steps[..n], k, d) == BackwardFails(steps, k, d)
    ensures Compensations(steps[..n], k) == Compensations(steps, k)
    decreases k
  {
    if k == 0 {
    } else {
      PrefixUndoneUpTo(steps, n, k - 1, steps[k - 1].Compensate(d).data);
    }
  }

  /** The compensation undoes the action, and a failed action changes nothing. */
  ghost predicate Reversible<D(!new)>(step: Step<D>) {
    forall d :: var effect := step.action(d);
                if effect.failed then effect.data == d else step.Compensate(effect.data).data == d
  }

  lemma {:induction false} BackwardUndoes<D(!new)>(steps: seq<Step<D>>, cancelled: nat -> bool, k: nat, d: D)
    requires k <= |steps| && forall i :: 0 <= i < k ==> Reversible(steps[i])
    requires forall i :: 0 <= i < k ==> Succeeds(steps, cancelled, d, i)
    ensures Backward(steps, k, Forward(steps, k, d)) == d
  {
    if k == 0 {
    } else {
      assert Reversible(steps[k - 1]) && Succeeds(steps, cancelled, d, k - 1);
      BackwardUndoes(steps, cancelled, k - 1, d);
    }
  }

  /** With reversible steps an unfinished run leaves the data as it found them. */
  lemma UnfinishedRunRestores<D(!new)>(steps: seq<Step<D>>, cancelled: nat -> bool, d: D, k: nat, ending: Ending, d': D, trace: seq<Event>, r: Result)
    requires IsRun(steps, cancelled, d, k, ending, d', trace, r) && !ending.Completed?
    requires forall i :: 0 <= i < |steps| ==> Reversible(steps[i])
    ensures d' == d
  {
    BackwardUndoes(steps, cancelled, k, d);
    if ending.Failed? {
      assert Reversible(steps[k]);
    }
  }

  /** The run compensates exactly the completed steps that have a compensation. */
  lemma {:induction false} CompensationsComplete<D>(steps: seq<Step<D>>, k: nat, i: nat)
    requires k <= |steps|
    ensures Undid(i) in Compensations(steps, k) <==> i < k && steps[i].compensation.Some?
  {
    if k == 0 {
    } else {
      CompensationsComplete(steps, k - 1, i);
    }
  }

  /** It compensates later steps before earlier ones, each once. */
  lemma {:induction false} CompensationsReverse<D>(steps: seq<Step<D>>, k: nat, i: nat, j: nat)
    requires k <= |steps| && i <= j < |Compensations(steps, k)|
    ensures Compensations(steps, k)[i].Undid? && Compensations(steps, k)[j].Undid?
    ensures Compensations(steps, k)[i].i < k
    ensures i < j ==> Compensations(steps, k)[j].i < Compensations(steps, k)[i].i
  {
    var shift := if steps[k - 1].compensation.Some? then 1 else 0;
    if j >= shift {
      CompensationsReverse(steps, k - 1, if i >= shift then i - shift else j - shift, j - shift);
      assert Compensations(steps, k)[j] == Compensations(steps, k - 1)[j - shift];
    }
  }

  /** The run comes as far as step `j`, is cancelled there, and can be compensated without a failure. */
  ghost predicate CancelledAt<D>(steps: seq<Step<D>>, cancelled: nat -> bool, d: D, j: nat) {
    && j < |steps| && (forall i :: 0 <= i < j ==> Succeeds(steps, cancelled, d, i))
    && cancelled(j) && !BackwardFails(steps, j, Forward(steps, j, d))
  }

  /** Success is reported for an unfinished run exactly when it was cancelled before a step that it reaches and no
      compensation failed. */
  lemma UnfinishedSuccessExactly<D>(steps: seq<Step<D>>, cancelled: nat -> bool, d: D, k: nat, ending: Ending, d': D, trace: seq<Event>, r: Result)
    requires IsRun(steps, cancelled, d, k, ending, d', trace, r)
    ensures r == Success && !ending.Completed? <==> exists j :: CancelledAt(steps, cancelled, d, j)
  {
    if r == Success && !ending.Completed? {
      assert CancelledAt(steps, cancelled, d, k);
    }
    if j :| CancelledAt(steps, cancelled, d, j) {
      OneStop(steps, cancelled, d, k, ending, d', trace, r, j);
    }
  }

  /** A run stops at the first step that is cancelled or fails. */
  lemma OneStop<D>(steps: seq<Step<D>>, cancelled: nat -> bool, d: D, k: nat, ending: Ending, d': D, trace: seq<Event>, r: Result, j: nat)
    requires IsRun(steps, cancelled, d, k, ending, d', trace, r)
    requires j < |steps| && !Succeeds(steps, cancelled, d, j) && forall i :: 0 <= i < j ==> Succeeds(steps, cancelled, d, i)
    ensures k == j && !ending.Completed? && (ending.Cancelled? <==> cancelled(j))
  {
    assert k < j ==> Succeeds(steps, cancelled, d, k);
  }

  ghost predicate Dependable<D(!new)>(step: Step<D>) {
    forall d :: !step.Compensate(d).failed
  }

  /** With steps that can be undone, a cancelled run reports success although it leaves nothing behind. */
  lemma CancelledReportsSuccess<D(!new)>(steps: seq<Step<D>>, cancelled: nat -> bool, d: D, k: nat, ending: Ending, d': D, trace: seq<Event>, r: Result)
    requires IsRun(steps, cancelled, d, k, ending, d', trace, r) && ending.Cancelled?
    requires forall i :: 0 <= i < |steps| ==> Reversible(steps[i]) && Dependable(steps[i])
    ensures r == Success && d' == d && k < |steps|
  {
    UnfinishedRunRestores(steps, cancelled, d, k, ending, d', trace, r);
    NeverFails(steps, k, Forward(steps, k, d));
  }

  lemma {:induction false} NeverFails<D(!new)>(steps: seq<Step<D>>, k: nat, d: D)
    requires k <= |steps| && forall i :: 0 <= i < k ==> Dependable(steps[i])
    ensures !BackwardFails(steps, k, d)
  {
    if k == 0 {
    } else {
      assert Dependable(steps[k - 1]);
      NeverFails(steps, k - 1, steps[k - 1].Compensate(d).data);
    }
  }
}
