/** Where a response comes from: what a waiter gets is the message of the one lookup that found its entry. */
module ResponseOrigins {
  import opened Options
  import opened PendingRequests

  /** Step `i` looks an identifier up and finds the entry of waiter `w`. */
  ghost predicate Found(steps: seq<Step>, i: int, w: nat) {
    && 0 <= i < |steps| && steps[i].Lookup?
    && var pending := Run(steps[..i]).table.pending;
    steps[i].id in pending && pending[steps[i].id] == w
  }

  /** The response is the message of a lookup that found the entry of waiter `w`. */
  ghost predicate From(steps: seq<Step>, w: nat, r: Response) {
    exists i :: Found(steps, i, w) && steps[i] == Lookup(r.requestId, r.body)
  }

  /** The response a waiter has received, or has returned to its caller. */
  ghost predicate Holds(waiter: Waiter, r: Response) {
    waiter.status == Got(r) || waiter.status == Returned(Some(r))
  }

  ghost predicate FlightsTraced(steps: seq<Step>) {
    forall d :: d in Run(steps).inFlight ==> From(steps, d.ch, d.response)
  }

  ghost predicate BuffersTraced(steps: seq<Step>) {
    forall ch, r :: 0 <= ch < |Run(steps).table.channels| && r in Run(steps).table.channels[ch].buffer ==> From(steps, ch, r)
  }

  ghost predicate WaitersTraced(steps: seq<Step>) {
    forall w, r :: 0 <= w < |Run(steps).waiters| && Holds(Run(steps).waiters[w], r) ==> From(steps, Run(steps).waiters[w].ch, r)
  }

  lemma RunOne(steps: seq<Step>, step: Step)
    ensures Run(steps + [step]) == Next(Run(steps), step)
  {
    assert (steps + [step])[..|steps|] == steps;
  }

  lemma FromStays(steps: seq<Step>, step: Step, w: nat, r: Response)
    requires From(steps, w, r)
    ensures From(steps + [step], w, r)
  {
    var i :| Found(steps, i, w) && steps[i] == Lookup(r.requestId, r.body);
    assert (steps + [step])[..i] == steps[..i];
    assert Found(steps + [step], i, w);
  }

  lemma FlightsNext(steps: seq<Step>, step: Step)
    requires FlightsTraced(steps)
    ensures FlightsTraced(steps + [step])
  {
    RunOne(steps, step);
    var sys, after := Run(steps), Run(steps + [step]);
    forall d | d in after.inFlight
      ensures From(steps + [step], d.ch, d.response)
    {
      if d in sys.inFlight {
        FromStays(steps, step, d.ch, d.response);
      } else {
        assert (steps + [step])[..|steps|] == steps;
        assert Found(steps + [step], |steps|, d.ch);
      }
    }
  }

  lemma BuffersNext(steps: seq<Step>, step: Step)
    requires FlightsTraced(steps) && BuffersTraced(steps)
    ensures BuffersTraced(steps + [step])
  {
    RunOne(steps, step);
    var sys, after := Run(steps), Run(steps + [step]);
    forall ch, r | 0 <= ch < |after.table.channels| && r in after.table.channels[ch].buffer
      ensures From(steps + [step], ch, r)
    {
      if ch < |sys.table.channels| && r in sys.table.channels[ch].buffer {
        FromStays(steps, step, ch, r);
      } else {
        assert sys.inFlight[step.k] in sys.inFlight;
        FromStays(steps, step, ch, r);
      }
    }
  }

  lemma HeldBefore(sys: System, step: Step, w: nat, r: Response)
    requires WellFormed(sys) && w < |Next(sys, step).waiters| && Holds(Next(sys, step).waiters[w], r)
    ensures w < |sys.waiters| && Next(sys, step).waiters[w].ch == sys.waiters[w].ch
    ensures Holds(sys.waiters[w], r) || r in sys.table.channels[sys.waiters[w].ch].buffer
  {
  }

  lemma WaitersNext(steps: seq<Step>, step: Step)
    requires BuffersTraced(steps) && WaitersTraced(steps)
    ensures WaitersTraced(steps + [step])
  {
    RunOne(steps, step);
    var sys, after := Run(steps), Run(steps + [step]);
    forall w, r | 0 <= w < |after.waiters| && Holds(after.waiters[w], r)
      ensures From(steps + [step], after.waiters[w].ch, r)
    {
      HeldBefore(sys, step, w, r);
      assert From(steps, sys.waiters[w].ch, r);
      FromStays(steps, step, sys.waiters[w].ch, r);
    }
  }

  lemma {:induction false} RunsTraced(steps: seq<Step>)
    ensures FlightsTraced(steps) && BuffersTraced(steps) && WaitersTraced(steps)
  {
    if steps == [] {
    } else {
      var before, step := steps[..|steps| - 1], steps[|steps| - 1];
      RunsTraced(before);
      assert steps == before + [step];
      FlightsNext(before, step);
      BuffersNext(before, step);
      WaitersNext(before, step);
    }
  }

  /** The entry of waiter `w` is gone. */
  ghost predicate Gone(sys: System, w: nat) {
    w < |sys.table.channels| && forall id :: id in sys.table.pending ==> sys.table.pending[id] != w
  }

  lemma GoneNext(sys: System, step: Step, w: nat)
    requires WellFormed(sys) && Gone(sys, w)
    ensures Gone(Next(sys, step), w)
  {
  }

  /** Two identifiers never stand for the same entry, so the lookup that finds it takes it away. */
  lemma FoundIsGone(steps: seq<Step>, i: nat, w: nat)
    requires Found(steps, i, w)
    ensures Gone(Run(steps[..i + 1]), w)
  {
    var before, id := steps[..i], steps[i].id;
    assert steps[..i + 1] == before + [steps[i]];
    RunOne(before, steps[i]);
    RunsSound(before);
    var sys := Run(before);
    assert PendingOk(sys, id);
    forall x | x in sys.table.pending && x != id
      ensures sys.table.pending[x] != w
    {
      assert PendingOk(sys, x);
    }
  }

  lemma {:induction false} StaysGone(steps: seq<Step>, i: nat, j: nat, w: nat)
    requires i <= j <= |steps| && Gone(Run(steps[..i]), w)
    ensures Gone(Run(steps[..j]), w)
    decreases j
  {
    if i == j {
    } else {
      StaysGone(steps, i, j - 1, w);
      assert steps[..j] == steps[..j - 1] + [steps[j - 1]];
      RunOne(steps[..j - 1], steps[j - 1]);
      GoneNext(Run(steps[..j - 1]), steps[j - 1], w);
    }
  }

  /** Over every interleaving, the entry of a waiter is found at most once. */
  lemma FoundOnce(steps: seq<Step>, i: nat, j: nat, w: nat)
    requires Found(steps, i, w) && Found(steps, j, w)
    ensures i == j
  {
    var first, second := if i < j then i else j, if i < j then j else i;
    if first < second {
      FoundIsGone(steps, first, w);
      StaysGone(steps, first + 1, second, w);
      assert false;
    }
  }

  /** Over every interleaving: what a waiter has received or returned is the message, identifier and body, of the one
      lookup that found its entry. */
  lemma ResponsesOriginate(steps: seq<Step>, w: nat, r: Response)
    requires w < |Run(steps).waiters| && Holds(Run(steps).waiters[w], r)
    ensures exists i :: Found(steps, i, w) && steps[i] == Lookup(r.requestId, r.body)
    ensures forall i :: Found(steps, i, w) ==> steps[i] == Lookup(r.requestId, r.body)
  {
    RunsTraced(steps);
    RunsSound(steps);
    var i :| Found(steps, i, w) && steps[i] == Lookup(r.requestId, r.body);
    forall j | Found(steps, j, w)
      ensures steps[j] == Lookup(r.requestId, r.body)
    {
      FoundOnce(steps, i, j, w);
    }
  }
}
