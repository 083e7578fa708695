/** Requests to the executor service: a waiter registers a channel under a request identifier, responses arrive on other
    threads, and the waiter gives up after a while. Locked sections and channel operations are single steps. */
module PendingRequests {
  import opened Options

  datatype Response = Response(requestId: string, body: string)

  /** A channel of capacity one, with the request it was made for and what senders have done to it so far. */
  datatype Channel = Channel(owner: string, buffer: seq<Response>, sent: nat, dropped: nat)

  datatype Table = Table(pending: map<string, nat>, channels: seq<Channel>)

  function Registered(t: Table, requestId: string): Table {
    Table(t.pending[requestId := |t.channels|], t.channels + [Channel(requestId, [], 0, 0)])
  }

  function Removed(t: Table, requestId: string): Table {
    t.(pending := t.pending - {requestId})
  }

  /** A send that does not wait: a full channel drops the response. */
  function Offered(t: Table, ch: nat, r: Response): Table
    requires ch < |t.channels|
  {
    var c := t.channels[ch];
    t.(channels := t.channels[ch := if |c.buffer| < 1 then c.(buffer := c.buffer + [r], sent := c.sent + 1)
                                    else c.(dropped := c.dropped + 1)])
  }

  function Received(t: Table, ch: nat): Table
    requires ch < |t.channels| && t.channels[ch].buffer != []
  {
    var c := t.channels[ch];
    t.(channels := t.channels[ch := c.(buffer := c.buffer[1..])])
  }

  /** The orchestrator's table of pending requests. */
  class PendingTable {
    var pending: map<string, nat>
    var channels: seq<Channel>

    constructor ()
      ensures View() == Table(map[], [])
    {
      pending, channels := map[], [];
    }

    function View(): Table
      reads this
    {
      Table(pending, channels)
    }

    method RegisterPending(requestId: string) returns (ch: nat)
      modifies this
      ensures View() == Registered(old(View()), requestId)
      ensures ch == |old(channels)| && pending == old(pending)[requestId := ch]
      ensures channels == old(channels) + [Channel(requestId, [], 0, 0)]
    {
      ch := |channels|;
      channels := channels + [Channel(requestId, [], 0, 0)];
      pending := pending[requestId := ch];
    }

    /** The locked half of resolving a request: whoever finds the entry takes it. */
    method TakePending(requestId: string) returns (found: Option<nat>)
      modifies this
      ensures found == if requestId in old(pending) then Some(old(pending)[requestId]) else None
      ensures View() == Removed(old(View()), requestId)
      ensures pending == old(pending) - {requestId} && channels == old(channels)
    {
      if requestId in pending {
        found := Some(pending[requestId]);
        pending := pending - {requestId};
      } else {
        found := None;
        assert pending == pending - {requestId};
      }
    }

    /** The other half, outside the lock. */
    method Offer(ch: nat, r: Response)
      requires ch < |channels|
      modifies this
      ensures View() == Offered(old(View()), ch, r)
      ensures pending == old(pending) && |channels| == |old(channels)|
      ensures forall k :: 0 <= k < |channels| && k != ch ==> channels[k] == old(channels)[k]
      ensures var before, c := old(channels)[ch], channels[ch];
              && c.owner == before.owner
              && (before.buffer == [] ==> c.buffer == [r] && c.sent == before.sent + 1 && c.dropped == before.dropped)
              && (before.buffer != [] ==> c.buffer == before.buffer && c.sent == before.sent && c.dropped == before.dropped + 1)
    {
      var c := channels[ch];
      if |c.buffer| < 1 {
        channels := channels[ch := c.(buffer := c.buffer + [r], sent := c.sent + 1)];
      } else {
        channels := channels[ch := c.(dropped := c.dropped + 1)];
      }
    }

    method RejectPending(requestId: string)
      modifies this
      ensures View() == Removed(old(View()), requestId)
      ensures pending == old(pending) - {requestId} && channels == old(channels)
    {
      pending := pending - {requestId};
    }
  }

  // Waiters and responders.

  datatype Status = Waiting | Got(response: Response) | GaveUp | Returned(result: Option<Response>)

  datatype Waiter = Waiter(id: string, ch: nat, status: Status)

  /** A responder that has taken an entry and not yet sent. */
  datatype Delivery = Delivery(ch: nat, response: Response)

  datatype System = System(table: Table, waiters: seq<Waiter>, inFlight: seq<Delivery>)

  datatype Step =
    | Register(id: string)
    | Lookup(id: string, body: string)
    | Send(k: nat)
    | Receive(w: nat)
    | GiveUp(w: nat)
    | Reject(w: nat)

  function Initial(): System {
    System(Table(map[], []), [], [])
  }

  ghost predicate WellFormed(sys: System) {
    && (forall w :: 0 <= w < |sys.waiters| ==> sys.waiters[w].ch < |sys.table.channels|)
    && (forall k :: 0 <= k < |sys.inFlight| ==> sys.inFlight[k].ch < |sys.table.channels|)
    && (forall id :: id in sys.table.pending ==> sys.table.pending[id] < |sys.table.channels|)
  }

  /** What a step does. A step that does not fit changes nothing. */
  ghost function Next(sys: System, step: Step): (after: System)
    requires WellFormed(sys)
    ensures WellFormed(after)
  {
    match step
    case Register(id) =>
      System(Registered(sys.table, id), sys.waiters + [Waiter(id, |sys.table.channels|, Waiting)], sys.inFlight)
    case Lookup(id, body) =>
      if id !in sys.table.pending then sys
      else System(Removed(sys.table, id), sys.waiters, sys.inFlight + [Delivery(sys.table.pending[id], Response(id, body))])
    case Send(k) =>
      if k >= |sys.inFlight| then sys
      else
        var d := sys.inFlight[k];
        System(Offered(sys.table, d.ch, d.response), sys.waiters, sys.inFlight[..k] + sys.inFlight[k + 1..])
    case Receive(w) =>
      if w >= |sys.waiters| || !sys.waiters[w].status.Waiting? || sys.table.channels[sys.waiters[w].ch].buffer == [] then sys
      else
        var ch := sys.waiters[w].ch;
        sys.(table := Received(sys.table, ch),
             waiters := sys.waiters[w := sys.waiters[w].(status := Got(sys.table.channels[ch].buffer[0]))])
    case GiveUp(w) =>
      if w >= |sys.waiters| || !sys.waiters[w].status.Waiting? then sys
      else sys.(waiters := sys.waiters[w := sys.waiters[w].(status := GaveUp)])
    case Reject(w) =>
      if w >= |sys.waiters| || sys.waiters[w].status.Waiting? || sys.waiters[w].status.Returned? then sys
      else
        var waiter := sys.waiters[w];
        var result := if waiter.status.Got? then Some(waiter.status.response) else None;
        System(Removed(sys.table, waiter.id), sys.waiters[w := waiter.(status := Returned(result))], sys.inFlight)
  }

  ghost function Run(steps: seq<Step>): (sys: System)
    ensures WellFormed(sys)
  {
    if steps == [] then Initial() else Next(Run(steps[..|steps| - 1]), steps[|steps| - 1])
  }

  // The invariant.

  /** Waiter `w` waits on channel `w`. */
  ghost predicate Paired(sys: System) {
    && |sys.waiters| == |sys.table.channels|
    && (forall w :: 0 <= w < |sys.waiters| ==> sys.waiters[w].ch == w && sys.waiters[w].id == sys.table.channels[w].owner)
  }

  /** The one response a request can get: still to come, in flight, in the channel, or received. */
  ghost predicate ChannelOk(c: Channel, waiter: Waiter) {
    && c.dropped == 0 && c.sent <= 1 && |c.buffer| <= c.sent
    && (forall r :: r in c.buffer ==> r.requestId == c.owner)
    && (c.sent == 1 && c.buffer == [] <==> waiter.status.Got? || (waiter.status.Returned? && waiter.status.result.Some?))
    && (waiter.status.Got? ==> waiter.status.response.requestId == c.owner)
    && (waiter.status.Returned? && waiter.status.result.Some? ==> waiter.status.result.value.requestId == c.owner)
  }

  ghost predicate PendingOk(sys: System, id: string)
    requires WellFormed(sys) && Paired(sys)
  {
    id in sys.table.pending ==>
      var ch := sys.table.pending[id];
      sys.table.channels[ch].owner == id && sys.table.channels[ch].sent == 0 && !sys.waiters[ch].status.Returned?
  }

  ghost predicate DeliveryOk(sys: System, k: int)
    requires WellFormed(sys) && 0 <= k < |sys.inFlight|
  {
    var d := sys.inFlight[k];
    && sys.table.channels[d.ch].owner == d.response.requestId && sys.table.channels[d.ch].sent == 0
    && (forall id :: id in sys.table.pending ==> sys.table.pending[id] != d.ch)
    && forall j :: 0 <= j < |sys.inFlight| && j != k ==> sys.inFlight[j].ch != d.ch
  }

  ghost predicate Sound(sys: System) {
    && WellFormed(sys) && Paired(sys)
    && (forall w :: 0 <= w < |sys.waiters| ==> ChannelOk(sys.table.channels[w], sys.waiters[w]))
    && (forall id :: PendingOk(sys, id))
    && (forall k :: 0 <= k < |sys.inFlight| ==> DeliveryOk(sys, k))
  }

  lemma RegisterSound(sys: System, id: string)
    requires Sound(sys)
    ensures Sound(Next(sys, Register(id)))
  {
    var after := Next(sys, Register(id));
    forall x
      ensures PendingOk(after, x)
    {
      assert PendingOk(sys, x);
    }
    forall k | 0 <= k < |after.inFlight|
      ensures DeliveryOk(after, k)
    {
      assert DeliveryOk(sys, k);
    }
  }

  lemma LookupSound(sys: System, id: string, body: string)
    requires Sound(sys) && id in sys.table.pending
    ensures Sound(Next(sys, Lookup(id, body)))
  {
    var after := Next(sys, Lookup(id, body));
    assert PendingOk(sys, id);
    forall x
      ensures PendingOk(after, x)
    {
      assert PendingOk(sys, x);
    }
    forall k | 0 <= k < |after.inFlight|
      ensures DeliveryOk(after, k)
    {
      if k < |sys.inFlight| {
        assert DeliveryOk(sys, k);
      } else {
        forall j | 0 <= j < |sys.inFlight|
          ensures sys.inFlight[j].ch != sys.table.pending[id]
        {
          assert DeliveryOk(sys, j);
        }
        forall x | x in sys.table.pending && x != id
          ensures sys.table.pending[x] != sys.table.pending[id]
        {
          assert PendingOk(sys, x);
        }
      }
    }
  }

  lemma SendSound(sys: System, k: nat)
    requires Sound(sys) && k < |sys.inFlight|
    ensures Sound(Next(sys, Send(k)))
  {
    var after := Next(sys, Send(k));
    assert DeliveryOk(sys, k);
    var d := sys.inFlight[k];
    assert ChannelOk(sys.table.channels[d.ch], sys.waiters[d.ch]);
    forall w | 0 <= w < |after.waiters|
      ensures ChannelOk(after.table.channels[w], after.waiters[w])
    {
      assert ChannelOk(sys.table.channels[w], sys.waiters[w]);
    }
    forall x
      ensures PendingOk(after, x)
    {
      assert PendingOk(sys, x);
    }
    forall j | 0 <= j < |after.inFlight|
      ensures DeliveryOk(after, j)
    {
      DeliveryStays(sys, k, j);
    }
  }

  lemma DeliveryStays(sys: System, k: nat, j: nat)
    requires Sound(sys) && k < |sys.inFlight| && j < |sys.inFlight| - 1
    ensures DeliveryOk(Next(sys, Send(k)), j)
  {
    var after := Next(sys, Send(k));
    var i := if j < k then j else j + 1;
    assert after.inFlight[j] == sys.inFlight[i];
    assert DeliveryOk(sys, i);
    forall l | 0 <= l < |after.inFlight| && l != j
      ensures after.inFlight[l].ch != after.inFlight[j].ch
    {
      var m := if l < k then l else l + 1;
      assert after.inFlight[l] == sys.inFlight[m];
    }
  }

  /** A waiter changes its status, and its channel at most loses the response that it received. */
  lemma WaiterSound(sys: System, after: System, w: nat)
    requires Sound(sys) && WellFormed(after) && w < |sys.waiters| && after.inFlight == sys.inFlight
    requires |after.waiters| == |sys.waiters| && |after.table.channels| == |sys.table.channels|
    requires after.waiters[w].id == sys.waiters[w].id && after.waiters[w].ch == w
    requires after.table.channels[w].owner == sys.table.channels[w].owner
    requires after.table.channels[w].sent == sys.table.channels[w].sent
    requires ChannelOk(after.table.channels[w], after.waiters[w])
    requires forall v :: 0 <= v < |sys.waiters| && v != w ==>
                         after.waiters[v] == sys.waiters[v] && after.table.channels[v] == sys.table.channels[v]
    requires after.table.pending == sys.table.pending || after.table.pending == sys.table.pending - {sys.waiters[w].id}
    requires after.waiters[w].status.Returned? ==> sys.waiters[w].id !in after.table.pending
    ensures Sound(after)
  {
    assert Paired(after);
    forall v | 0 <= v < |after.waiters|
      ensures ChannelOk(after.table.channels[v], after.waiters[v])
    {
      assert ChannelOk(sys.table.channels[v], sys.waiters[v]);
    }
    forall x
      ensures PendingOk(after, x)
    {
      assert PendingOk(sys, x);
    }
    forall k | 0 <= k < |after.inFlight|
      ensures DeliveryOk(after, k)
    {
      assert DeliveryOk(sys, k);
    }
  }

  /** Every step keeps the protocol sound. */
  lemma NextSound(sys: System, step: Step)
    requires Sound(sys)
    ensures Sound(Next(sys, step))
  {
    var after := Next(sys, step);
    match step
    case Register(id) => RegisterSound(sys, id);
    case Lookup(id, body) =>
      if id in sys.table.pending {
        LookupSound(sys, id, body);
      }
    case Send(k) =>
      if k < |sys.inFlight| {
        SendSound(sys, k);
      }
    case Receive(w) =>
      if after != sys {
        assert ChannelOk(sys.table.channels[w], sys.waiters[w]);
        WaiterSound(sys, after, w);
      }
    case GiveUp(w) =>
      if after != sys {
        assert ChannelOk(sys.table.channels[w], sys.waiters[w]);
        WaiterSound(sys, after, w);
      }
    case Reject(w) =>
      if after != sys {
        assert ChannelOk(sys.table.channels[w], sys.waiters[w]);
        WaiterSound(sys, after, w);
      }
  }

  /** The protocol is sound in every interleaving, whatever identifiers are used. */
  lemma {:induction false} RunsSound(steps: seq<Step>)
    ensures Sound(Run(steps))
  {
    if steps == [] {
    } else {
      var n := |steps| - 1;
      RunsSound(steps[..n]);
      NextSound(Run(steps[..n]), steps[n]);
    }
  }

  /** At most one response was ever put on the channel and none was dropped; the waiter has received only a response to its own
      request; a response that was put on the channel is still there or with the waiter; and no entry leads to the channel of
      a waiter that has returned. */
  ghost predicate Safe(sys: System, w: nat)
    requires WellFormed(sys) && Paired(sys) && w < |sys.waiters|
  {
    var waiter, c := sys.waiters[w], sys.table.channels[w];
    && c.sent <= 1 && c.dropped == 0
    && (waiter.status.Got? ==> waiter.status.response.requestId == waiter.id)
    && (waiter.status.Returned? && waiter.status.result.Some? ==> waiter.status.result.value.requestId == waiter.id)
    && (c.sent == 1 ==>
          || (|c.buffer| == 1 && c.buffer[0].requestId == waiter.id)
          || waiter.status.Got? || (waiter.status.Returned? && waiter.status.result.Some?))
    && (waiter.status.Returned? ==> forall id :: id in sys.table.pending ==> sys.table.pending[id] != w)
  }

  lemma SoundIsSafe(sys: System, w: nat)
    requires Sound(sys) && w < |sys.waiters|
    ensures Safe(sys, w)
  {
    assert ChannelOk(sys.table.channels[w], sys.waiters[w]);
    forall id | id in sys.table.pending && sys.waiters[w].status.Returned?
      ensures sys.table.pending[id] != w
    {
      assert PendingOk(sys, id);
    }
  }

  /** Every interleaving is safe for every waiter. */
  lemma ProtocolSafe(steps: seq<Step>)
    ensures Paired(Run(steps)) && forall w :: 0 <= w < |Run(steps).waiters| ==> Safe(Run(steps), w)
  {
    RunsSound(steps);
    forall w | 0 <= w < |Run(steps).waiters|
      ensures Safe(Run(steps), w)
    {
      SoundIsSafe(Run(steps), w);
    }
  }

  // Which waiters can still be answered.

  ghost predicate Active(sys: System, w: int) {
    0 <= w < |sys.waiters| && !sys.waiters[w].status.Returned?
  }

  /** A response for the waiter's request finds its way: one has been sent or is in flight, or the entry of the request
      leads to the waiter's channel. */
  ghost predicate Answerable(sys: System, w: nat)
    requires WellFormed(sys) && Paired(sys) && w < |sys.waiters|
  {
    || sys.table.channels[w].sent > 0
    || (exists k :: 0 <= k < |sys.inFlight| && sys.inFlight[k].ch == w)
    || (sys.waiters[w].id in sys.table.pending && sys.table.pending[sys.waiters[w].id] == w)
  }

  ghost predicate AllAnswerable(sys: System)
    requires WellFormed(sys) && Paired(sys)
  {
    forall w :: Active(sys, w) ==> Answerable(sys, w)
  }

  /** No waiter that has not returned uses the identifier. */
  ghost predicate Free(sys: System, id: string) {
    forall w :: Active(sys, w) ==> sys.waiters[w].id != id
  }

  ghost predicate Separate(sys: System) {
    forall v, w :: Active(sys, v) && Active(sys, w) && v != w ==> sys.waiters[v].id != sys.waiters[w].id
  }

  ghost predicate FreeId(sys: System, step: Step) {
    step.Register? ==> Free(sys, step.id)
  }

  ghost predicate FreeIds(steps: seq<Step>) {
    forall i :: 0 <= i < |steps| ==> FreeId(Run(steps[..i]), steps[i])
  }

  ghost predicate Answering(sys: System) {
    Sound(sys) && Separate(sys) && AllAnswerable(sys)
  }

  /** A response on its way stays on its way or is sent. */
  lemma SendAnswers(sys: System, k: nat, w: nat)
    requires Sound(sys) && k < |sys.inFlight| && w < |sys.waiters| && Answerable(sys, w)
    ensures Sound(Next(sys, Send(k))) && Answerable(Next(sys, Send(k)), w)
  {
    SendSound(sys, k);
    var after := Next(sys, Send(k));
    assert ChannelOk(after.table.channels[w], after.waiters[w]) && DeliveryOk(sys, k);
    if j :| 0 <= j < |sys.inFlight| && sys.inFlight[j].ch == w && j != k {
      assert after.inFlight[if j < k then j else j - 1] == sys.inFlight[j];
    }
  }

  lemma LookupAnswers(sys: System, id: string, body: string, w: nat)
    requires Sound(sys) && id in sys.table.pending && w < |sys.waiters| && Answerable(sys, w)
    ensures Sound(Next(sys, Lookup(id, body))) && Answerable(Next(sys, Lookup(id, body)), w)
  {
    LookupSound(sys, id, body);
    var after := Next(sys, Lookup(id, body));
    var n := |sys.inFlight|;
    assert after.inFlight[..n] == sys.inFlight && after.inFlight[n].ch == sys.table.pending[id];
    if j :| 0 <= j < n && sys.inFlight[j].ch == w {
      assert after.inFlight[j].ch == w;
    }
  }

  /** While the identifiers of active waiters differ, every step keeps all of them answerable. */
  lemma NextAnswering(sys: System, step: Step)
    requires Answering(sys) && FreeId(sys, step)
    ensures Answering(Next(sys, step))
  {
    var after := Next(sys, step);
    NextSound(sys, step);
    forall w | Active(after, w)
      ensures Answerable(after, w)
    {
      if w < |sys.waiters| {
        assert Active(sys, w) && Answerable(sys, w);
        StaysAnswerable(sys, step, w);
      }
    }
    StaysSeparate(sys, step);
  }

  lemma StaysSeparate(sys: System, step: Step)
    requires WellFormed(sys) && Separate(sys) && FreeId(sys, step)
    ensures Separate(Next(sys, step))
  {
    var after := Next(sys, step);
    assert forall w :: Active(after, w) && w < |sys.waiters| ==> Active(sys, w) && sys.waiters[w].id == after.waiters[w].id;
  }

  lemma StaysAnswerable(sys: System, step: Step, w: nat)
    requires Answering(sys) && FreeId(sys, step) && w < |sys.waiters| && Answerable(sys, w)
    requires Sound(Next(sys, step)) && Active(Next(sys, step), w)
    ensures Answerable(Next(sys, step), w)
  {
    assert Active(sys, w);
    match step
    case Register(id) =>
    case Lookup(id, body) =>
      if id in sys.table.pending {
        LookupAnswers(sys, id, body, w);
      }
    case Send(k) =>
      if k < |sys.inFlight| {
        SendAnswers(sys, k, w);
      }
    case Receive(v) =>
    case GiveUp(v) =>
    case Reject(v) =>
      if Next(sys, step) != sys {
        assert Active(sys, v) && v != w;
      }
  }

  /** If no identifier is used while a waiter with it is active, responses to active waiters always find their way. */
  lemma {:induction false} ResponsesFound(steps: seq<Step>)
    requires FreeIds(steps)
    ensures Answering(Run(steps))
  {
    if steps == [] {
    } else {
      var n := |steps| - 1;
      forall i | 0 <= i < n
        ensures FreeId(Run(steps[..n][..i]), steps[..n][i])
      {
        assert steps[..n][..i] == steps[..i];
      }
      ResponsesFound(steps[..n]);
      NextAnswering(Run(steps[..n]), steps[n]);
    }
  }

  ghost function RunFrom(sys: System, steps: seq<Step>): (after: System)
    requires WellFormed(sys)
    ensures WellFormed(after)
  {
    if steps == [] then sys else Next(RunFrom(sys, steps[..|steps| - 1]), steps[|steps| - 1])
  }

  ghost predicate NoRegister(steps: seq<Step>) {
    forall i :: 0 <= i < |steps| ==> !steps[i].Register?
  }

  lemma {:induction false} QuietAnswering(sys: System, steps: seq<Step>)
    requires Answering(sys) && NoRegister(steps)
    ensures Answering(RunFrom(sys, steps))
  {
    if steps == [] {
    } else {
      var n := |steps| - 1;
      QuietAnswering(sys, steps[..n]);
      NextAnswering(RunFrom(sys, steps[..n]), steps[n]);
    }
  }

  lemma TwoSteps(sys: System, one: Step, two: Step)
    requires WellFormed(sys)
    ensures RunFrom(sys, [one, two]) == Next(Next(sys, one), two)
  {
    assert [one, two][..1] == [one] && [one][..0] == [];
    assert RunFrom(sys, [one]) == Next(sys, one);
  }

  /** Otherwise the return of the earlier waiter removes the entry of the later one. */
  lemma ReusedIdLosesResponse(sys: System, id: string, w: nat) returns (steps: seq<Step>)
    requires Sound(sys) && Active(sys, w) && sys.waiters[w].id == id
    ensures NoRegister(steps)
    ensures var after := RunFrom(Next(sys, Register(id)), steps);
            && Paired(after) && |after.waiters| == |sys.waiters| + 1 && Active(after, |sys.waiters|) && !Answerable(after, |sys.waiters|)
            && forall body :: Next(after, Lookup(id, body)) == after
  {
    var first := Next(sys, Register(id));
    RegisterSound(sys, id);
    steps := [GiveUp(w), Reject(w)];
    TwoSteps(first, GiveUp(w), Reject(w));
    forall k | 0 <= k < |sys.inFlight|
      ensures sys.inFlight[k].ch != |sys.waiters|
    {
      assert DeliveryOk(sys, k);
    }
  }

  /** Using an identifier for a new request keeps all waiters answerable, whatever follows, exactly when no active waiter
      has it. */
  lemma FreeIdExactly(sys: System, id: string)
    requires Answering(sys)
    ensures Free(sys, id) <==>
            forall steps :: NoRegister(steps) ==>
                              var after := RunFrom(Next(sys, Register(id)), steps); Paired(after) && AllAnswerable(after)
  {
    if Free(sys, id) {
      NextAnswering(sys, Register(id));
      forall steps | NoRegister(steps)
        ensures Answering(RunFrom(Next(sys, Register(id)), steps))
      {
        QuietAnswering(Next(sys, Register(id)), steps);
      }
    } else {
      var w :| Active(sys, w) && sys.waiters[w].id == id;
      var steps := ReusedIdLosesResponse(sys, id, w);
    }
  }
}
