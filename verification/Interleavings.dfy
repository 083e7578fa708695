/** Several clients that load, change and save aggregates at the same time. Every store transaction is one step, and
    any client may take a step between two transactions of another. */
module Interleavings {
  import opened Options
  import opened EventStore
  import opened Aggregates

  /** Where a client stands. Loading and saving each take two transactions. */
  datatype Client<S> =
    | Idle
    | Loading(aggregateId: string, restored: Restored<S>)
    | Holding(aggregate: Aggregate<S>)
    | Snapshotting(aggregate: Aggregate<S>)

  datatype System<S> = System(rows: seq<Event>, snapshots: map<string, Snapshot>, clients: map<nat, Client<S>>) {

    function ClientAt(c: nat): Client<S> {
      if c in clients then clients[c] else Idle
    }
  }

  datatype Step =
    | Create(c: nat, id: string)
    | BeginLoad(c: nat, id: string)
    | FinishLoad(c: nat, factoryId: string)
    | Change(c: nat, body: string)
    | SaveEvents(c: nat, newIds: int -> string, accepted: bool)
    | WriteSnapshot(c: nat, accepted: bool)

  function Initial<S>(): System<S> {
    System([], map[], map[])
  }

  /** What a client does in a step. A step that does not fit the client's position changes nothing. */
  ghost function Next<S>(kind: Kind<S>, sys: System<S>, step: Step): System<S> {
    var client := sys.ClientAt(step.c);
    match step
    case Create(c, id) => sys.(clients := sys.clients[c := Holding(Aggregate(id, 0, [], kind.initial))])
    case BeginLoad(c, id) =>
      var snapshot := if id in sys.snapshots then Some(sys.snapshots[id]) else None;
      sys.(clients := sys.clients[c := Loading(id, Restore(kind, snapshot))])
    case FinishLoad(c, factoryId) =>
      if !client.Loading? then sys
      else
        var found := Completed(kind, client.restored, ByVersion(LogOf(sys.rows, client.aggregateId)), factoryId);
        sys.(clients := sys.clients[c := if found.None? then Idle else Holding(found.value)])
    case Change(c, body) =>
      if !client.Holding? then sys
      else sys.(clients := sys.clients[c := Holding(Changed(kind, client.aggregate, body))])
    case SaveEvents(c, newIds, accepted) =>
      if !client.Holding? || !Saves(sys, client.aggregate) || !accepted then sys
      else
        var a := client.aggregate.(changes := []);
        System(sys.rows + Stamped(client.aggregate.changes, newIds), sys.snapshots,
               sys.clients[c := if a.version % 10 == 0 then Snapshotting(a) else Holding(a)])
    case WriteSnapshot(c, accepted) =>
      if !client.Snapshotting? then sys
      else
        var clients := sys.clients[c := Holding(client.aggregate)];
        var snapshot := SnapshotOf(kind, client.aggregate);
        if !accepted || snapshot.None? then sys.(clients := clients)
        else System(sys.rows, sys.snapshots[snapshot.value.aggregateId := snapshot.value], clients)
  }

  /** The store accepts the aggregate's changes, and there are some. */
  ghost predicate Saves<S>(sys: System<S>, a: Aggregate<S>) {
    a.changes != [] && Continues(sys.rows, a.changes)
  }

  ghost function Run<S>(kind: Kind<S>, steps: seq<Step>): System<S> {
    if steps == [] then Initial() else Next(kind, Run(kind, steps[..|steps| - 1]), steps[|steps| - 1])
  }

  // Versions and conflicts. None of this depends on the state of an aggregate or on whose identifier it carries.

  function Base<S>(a: Aggregate<S>): int {
    a.version - |a.changes|
  }

  /** The changes number on from the version that the aggregate was loaded at. */
  ghost predicate Numbered<S>(a: Aggregate<S>) {
    forall i :: 0 <= i < |a.changes| ==> a.changes[i].version == Base(a) + 1 + i && a.changes[i].aggregateId == a.id
  }

  /** A restored aggregate has no changes. */
  ghost predicate Clean<S>(r: Restored<S>) {
    r.FromSnapshot? ==> r.aggregate.changes == []
  }

  ghost predicate ClientNumbered<S>(client: Client<S>) {
    match client
    case Idle => true
    case Loading(_, r) => Clean(r)
    case Holding(a) => Numbered(a)
    case Snapshotting(a) => a.changes == []
  }

  ghost predicate SnapshotClean<S>(kind: Kind<S>, snapshots: map<string, Snapshot>, id: string) {
    id in snapshots ==> Clean(Restore(kind, Some(snapshots[id])))
  }

  ghost predicate Sequenced<S>(kind: Kind<S>, sys: System<S>) {
    && AllConsecutive(sys.rows)
    && (forall id :: SnapshotClean(kind, sys.snapshots, id))
    && (forall c :: ClientNumbered(sys.ClientAt(c)))
  }

  /** Changes are accepted exactly when nothing has been saved since the aggregate was loaded. */
  lemma SavesIffCurrent<S>(sys: System<S>, a: Aggregate<S>)
    requires AllConsecutive(sys.rows) && Numbered(a)
    ensures Saves(sys, a) <==> a.changes != [] && |LogOf(sys.rows, a.id)| == Base(a)
  {
    if a.changes != [] {
      assert a.changes[0].aggregateId == a.id && a.changes[0].version == Base(a) + 1;
      CurrentIsLength(sys.rows, a.id);
    }
  }

  lemma SavedLog(rows: seq<Event>, owner: string, added: seq<Event>, id: string)
    requires forall i :: 0 <= i < |added| ==> added[i].aggregateId == owner
    ensures LogOf(rows + added, id) == LogOf(rows, id) + if id == owner then added else []
  {
    LogOfConcat(rows, added, id);
    LogOfOwn(added, owner, id);
  }

  lemma SavedConsecutive<S>(rows: seq<Event>, a: Aggregate<S>, newIds: int -> string)
    requires AllConsecutive(rows) && Numbered(a) && |LogOf(rows, a.id)| == Base(a)
    ensures AllConsecutive(rows + Stamped(a.changes, newIds))
  {
    var added := Stamped(a.changes, newIds);
    forall id
      ensures Consecutive(LogOf(rows + added, id))
    {
      assert Consecutive(LogOf(rows, id));
      SavedLog(rows, a.id, added, id);
    }
  }

  lemma CompletedClean<S>(kind: Kind<S>, r: Restored<S>, log: seq<Event>, factoryId: string)
    requires Clean(r) && Completed(kind, r, log, factoryId).Some?
    ensures Completed(kind, r, log, factoryId).value.changes == []
  {
    if r.FromSnapshot? {
      LoadedReplays(kind, r.aggregate, After(log, r.version));
    } else {
      LoadedReplays(kind, Aggregate(factoryId, 0, [], kind.initial), log);
    }
  }

  lemma OthersNumbered<S>(kind: Kind<S>, sys: System<S>, c: nat, client: Client<S>)
    requires Sequenced(kind, sys) && ClientNumbered(client)
    ensures Sequenced(kind, sys.(clients := sys.clients[c := client]))
  {
    var after := sys.(clients := sys.clients[c := client]);
    forall d: nat
      ensures ClientNumbered(after.ClientAt(d))
    {
      assert ClientNumbered(sys.ClientAt(d));
    }
    forall id
      ensures SnapshotClean(kind, after.snapshots, id)
    {
      assert SnapshotClean(kind, sys.snapshots, id);
    }
  }

  lemma SaveSequenced<S>(kind: Kind<S>, sys: System<S>, c: nat, a: Aggregate<S>, newIds: int -> string)
    requires Sequenced(kind, sys) && sys.ClientAt(c) == Holding(a) && Saves(sys, a)
    ensures Sequenced(kind, Next(kind, sys, SaveEvents(c, newIds, true)))
  {
    assert ClientNumbered(sys.ClientAt(c));
    SavesIffCurrent(sys, a);
    SavedConsecutive(sys.rows, a, newIds);
    var after := Next(kind, sys, SaveEvents(c, newIds, true));
    OthersNumbered(kind, sys, c, after.clients[c]);
    assert after == System(after.rows, sys.snapshots, sys.clients[c := after.clients[c]]);
    forall d: nat
      ensures ClientNumbered(after.ClientAt(d))
    {
      assert ClientNumbered(sys.(clients := after.clients).ClientAt(d));
    }
    forall id
      ensures SnapshotClean(kind, after.snapshots, id)
    {
      assert SnapshotClean(kind, sys.snapshots, id);
    }
  }

  lemma SnapshotSequenced<S(!new)>(kind: Kind<S>, sys: System<S>, c: nat, a: Aggregate<S>, accepted: bool)
    requires Lawful(kind) && Sequenced(kind, sys) && sys.ClientAt(c) == Snapshotting(a)
    ensures Sequenced(kind, Next(kind, sys, WriteSnapshot(c, accepted)))
  {
    assert ClientNumbered(sys.ClientAt(c));
    var kept := sys.(clients := sys.clients[c := Holding(a)]);
    OthersNumbered(kind, sys, c, Holding(a));
    var after := Next(kind, sys, WriteSnapshot(c, accepted));
    forall d: nat
      ensures ClientNumbered(after.ClientAt(d))
    {
      assert ClientNumbered(kept.ClientAt(d));
    }
    forall id
      ensures SnapshotClean(kind, after.snapshots, id)
    {
      assert SnapshotClean(kind, sys.snapshots, id);
      if accepted && SnapshotOf(kind, a).Some? {
        assert kind.decode(kind.encode(a).value) == Some(a);
      }
    }
  }

  /** Every step of every client keeps the versions in sequence. */
  lemma NextSequenced<S(!new)>(kind: Kind<S>, sys: System<S>, step: Step)
    requires Lawful(kind) && Sequenced(kind, sys)
    ensures Sequenced(kind, Next(kind, sys, step))
  {
    var client := sys.ClientAt(step.c);
    assert ClientNumbered(client);
    match step
    case Create(c, id) =>
      OthersNumbered(kind, sys, c, Holding(Aggregate(id, 0, [], kind.initial)));
    case BeginLoad(c, id) =>
      assert SnapshotClean(kind, sys.snapshots, id);
      OthersNumbered(kind, sys, c, Next(kind, sys, step).clients[c]);
    case FinishLoad(c, factoryId) =>
      if client.Loading? {
        var log := ByVersion(LogOf(sys.rows, client.aggregateId));
        if Completed(kind, client.restored, log, factoryId).Some? {
          CompletedClean(kind, client.restored, log, factoryId);
        }
        OthersNumbered(kind, sys, c, Next(kind, sys, step).clients[c]);
      }
    case Change(c, body) =>
      if client.Holding? {
        OthersNumbered(kind, sys, c, Holding(Changed(kind, client.aggregate, body)));
      }
    case SaveEvents(c, newIds, accepted) =>
      if client.Holding? && Saves(sys, client.aggregate) && accepted {
        SaveSequenced(kind, sys, c, client.aggregate, newIds);
      }
    case WriteSnapshot(c, accepted) =>
      if client.Snapshotting? {
        SnapshotSequenced(kind, sys, c, client.aggregate, accepted);
      }
  }

  lemma RunNext<S>(kind: Kind<S>, steps: seq<Step>, step: Step)
    ensures Run(kind, steps + [step]) == Next(kind, Run(kind, steps), step)
  {
    assert (steps + [step])[..|steps|] == steps;
  }

  /** In every reachable state the versions are in sequence, however the clients' transactions interleave and whatever
      identifiers their loads leave behind. */
  lemma {:induction false} RunsSequenced<S(!new)>(kind: Kind<S>, steps: seq<Step>)
    requires Lawful(kind)
    ensures Sequenced(kind, Run(kind, steps))
  {
    if steps == [] {
    } else {
      var n := |steps| - 1;
      RunsSequenced(kind, steps[..n]);
      NextSequenced(kind, Run(kind, steps[..n]), steps[n]);
    }
  }

  /** The table only grows at its end. */
  lemma {:induction false} TableAppends<S>(kind: Kind<S>, steps: seq<Step>, more: seq<Step>)
    ensures Run(kind, steps).rows <= Run(kind, steps + more).rows
  {
    if more == [] {
      assert steps + more == steps;
    } else {
      var n := |more| - 1;
      TableAppends(kind, steps, more[..n]);
      assert steps + more == steps + more[..n] + [more[n]];
      RunNext(kind, steps + more[..n], more[n]);
      NextAppends(kind, Run(kind, steps + more[..n]), more[n]);
    }
  }

  lemma NextAppends<S>(kind: Kind<S>, sys: System<S>, step: Step)
    ensures sys.rows <= Next(kind, sys, step).rows
  {
  }

  /** The versions of each aggregate are always 1 to n, in the order in which they were stored. */
  lemma VersionsConsecutive<S(!new)>(kind: Kind<S>, steps: seq<Step>, id: string, i: nat)
    requires Lawful(kind) && i < |LogOf(Run(kind, steps).rows, id)|
    ensures LogOf(Run(kind, steps).rows, id)[i].version == i + 1
  {
    RunsSequenced(kind, steps);
    assert Consecutive(LogOf(Run(kind, steps).rows, id));
  }

  /** The client neither starts over nor loads again. */
  ghost predicate Keeps(steps: seq<Step>, c: nat) {
    forall i :: 0 <= i < |steps| ==> !(steps[i].c == c && (steps[i].Create? || steps[i].BeginLoad?))
  }

  /** The client holds what has become of `a`, and others have saved since it was loaded. */
  ghost predicate Overtaken<S>(sys: System<S>, c: nat, a: Aggregate<S>) {
    var client := sys.ClientAt(c);
    && client.Holding?
    && client.aggregate.id == a.id && Base(client.aggregate) == Base(a) && a.changes <= client.aggregate.changes
    && |LogOf(sys.rows, a.id)| > Base(a)
  }

  lemma OvertakenNext<S>(kind: Kind<S>, sys: System<S>, c: nat, a: Aggregate<S>, step: Step)
    requires Sequenced(kind, sys) && Overtaken(sys, c, a)
    requires !(step.c == c && (step.Create? || step.BeginLoad?))
    ensures Overtaken(Next(kind, sys, step), c, a)
  {
    LogLengthens(kind, sys, step, a.id);
    OvertakenRejected(kind, sys, c, a);
  }

  lemma LogLengthens<S>(kind: Kind<S>, sys: System<S>, step: Step, id: string)
    ensures |LogOf(sys.rows, id)| <= |LogOf(Next(kind, sys, step).rows, id)|
  {
    NextAppends(kind, sys, step);
    var after := Next(kind, sys, step);
    var more := after.rows[|sys.rows|..];
    assert after.rows == sys.rows + more;
    LogOfConcat(sys.rows, more, id);
  }

  /** A client that has been overtaken is rejected on every later attempt, whatever it changes in the meantime, until it
      loads again. */
  lemma {:induction false} OvertakenForever<S(!new)>(kind: Kind<S>, steps: seq<Step>, more: seq<Step>, c: nat, a: Aggregate<S>)
    requires Lawful(kind) && Overtaken(Run(kind, steps), c, a) && Keeps(more, c)
    ensures Overtaken(Run(kind, steps + more), c, a)
    ensures !Saves(Run(kind, steps + more), Run(kind, steps + more).ClientAt(c).aggregate)
  {
    if more == [] {
      assert steps + more == steps;
    } else {
      var n := |more| - 1;
      var before := steps + more[..n];
      assert steps + more == before + [more[n]];
      OvertakenForever(kind, steps, more[..n], c, a);
      RunsSequenced(kind, before);
      RunNext(kind, before, more[n]);
      OvertakenNext(kind, Run(kind, before), c, a, more[n]);
    }
    RunsSequenced(kind, steps + more);
    OvertakenRejected(kind, Run(kind, steps + more), c, a);
  }

  lemma OvertakenRejected<S>(kind: Kind<S>, sys: System<S>, c: nat, a: Aggregate<S>)
    requires Sequenced(kind, sys) && Overtaken(sys, c, a)
    ensures !Saves(sys, sys.ClientAt(c).aggregate)
  {
    assert ClientNumbered(sys.ClientAt(c));
    SavesIffCurrent(sys, sys.ClientAt(c).aggregate);
  }

  /** Of two clients that hold the same aggregate at the same version, once one has saved the other never can. */
  lemma AtMostOneSaves<S(!new)>(kind: Kind<S>, steps: seq<Step>, winner: nat, loser: nat, newIds: int -> string, more: seq<Step>)
    requires Lawful(kind) && winner != loser && Keeps(more, loser)
    requires var sys := Run(kind, steps);
             && sys.ClientAt(winner).Holding? && sys.ClientAt(loser).Holding?
             && sys.ClientAt(winner).aggregate.id == sys.ClientAt(loser).aggregate.id
             && Base(sys.ClientAt(winner).aggregate) == Base(sys.ClientAt(loser).aggregate)
             && Saves(sys, sys.ClientAt(winner).aggregate)
    ensures var sys := Run(kind, steps + [SaveEvents(winner, newIds, true)] + more);
            sys.ClientAt(loser).Holding? && !Saves(sys, sys.ClientAt(loser).aggregate)
  {
    var step := SaveEvents(winner, newIds, true);
    RunsSequenced(kind, steps);
    RunNext(kind, steps, step);
    var sys := Run(kind, steps);
    SaveOvertakes(kind, sys, winner, loser, newIds);
    OvertakenForever(kind, steps + [step], more, loser, sys.ClientAt(loser).aggregate);
  }

  lemma SaveOvertakes<S>(kind: Kind<S>, sys: System<S>, winner: nat, loser: nat, newIds: int -> string)
    requires Sequenced(kind, sys) && winner != loser
    requires sys.ClientAt(winner).Holding? && sys.ClientAt(loser).Holding?
    requires sys.ClientAt(winner).aggregate.id == sys.ClientAt(loser).aggregate.id
    requires Base(sys.ClientAt(winner).aggregate) == Base(sys.ClientAt(loser).aggregate)
    requires Saves(sys, sys.ClientAt(winner).aggregate)
    ensures Overtaken(Next(kind, sys, SaveEvents(winner, newIds, true)), loser, sys.ClientAt(loser).aggregate)
  {
    var a := sys.ClientAt(winner).aggregate;
    assert ClientNumbered(sys.ClientAt(winner));
    SavesIffCurrent(sys, a);
    SavedLog(sys.rows, a.id, Stamped(a.changes, newIds), a.id);
  }

  // Snapshots are taken at every tenth version.

  ghost predicate TenthVersions<S>(sys: System<S>) {
    && (forall id :: id in sys.snapshots ==> sys.snapshots[id].aggregateId == id && sys.snapshots[id].version % 10 == 0)
    && (forall c :: c in sys.clients && sys.clients[c].Snapshotting? ==> sys.clients[c].aggregate.version % 10 == 0)
  }

  lemma NextTenthVersions<S>(kind: Kind<S>, sys: System<S>, step: Step)
    requires TenthVersions(sys)
    ensures TenthVersions(Next(kind, sys, step))
  {
    var client, after := sys.ClientAt(step.c), Next(kind, sys, step);
    forall c | c in after.clients && after.clients[c].Snapshotting?
      ensures after.clients[c].aggregate.version % 10 == 0
    {
      assert c in sys.clients && (c == step.c || after.clients[c] == sys.clients[c]);
    }
  }

  /** Over every run, a stored snapshot is kept under its own identifier and its version is a multiple of 10. */
  lemma {:induction false} SnapshotsAtTenthVersions<S>(kind: Kind<S>, steps: seq<Step>)
    ensures TenthVersions(Run(kind, steps))
  {
    if steps == [] {
    } else {
      var n := |steps| - 1;
      SnapshotsAtTenthVersions(kind, steps[..n]);
      NextTenthVersions(kind, Run(kind, steps[..n]), steps[n]);
    }
  }

  // Every stored event is one that a client made.

  /** Step `i` is the change that made the event, and its client held the event's aggregate at the version before. */
  ghost predicate MadeAt<S>(kind: Kind<S>, steps: seq<Step>, e: Event, i: int) {
    && 0 <= i < |steps| && steps[i].Change? && steps[i].body == e.body
    && var client := Run(kind, steps[..i]).ClientAt(steps[i].c);
    client.Holding? && client.aggregate.id == e.aggregateId && client.aggregate.version + 1 == e.version
  }

  ghost predicate Made<S>(kind: Kind<S>, steps: seq<Step>, e: Event) {
    exists i :: MadeAt(kind, steps, e, i)
  }

  ghost predicate RowsMade<S>(kind: Kind<S>, steps: seq<Step>) {
    forall i :: 0 <= i < |Run(kind, steps).rows| ==> Made(kind, steps, Run(kind, steps).rows[i])
  }

  ghost predicate ChangesMade<S>(kind: Kind<S>, steps: seq<Step>) {
    forall c, i :: Run(kind, steps).ClientAt(c).Holding? && 0 <= i < |Run(kind, steps).ClientAt(c).aggregate.changes| ==>
                     Made(kind, steps, Run(kind, steps).ClientAt(c).aggregate.changes[i])
  }

  lemma MadeStays<S>(kind: Kind<S>, steps: seq<Step>, step: Step, e: Event)
    requires Made(kind, steps, e)
    ensures Made(kind, steps + [step], e)
  {
    var i :| MadeAt(kind, steps, e, i);
    assert (steps + [step])[..i] == steps[..i];
    assert MadeAt(kind, steps + [step], e, i);
  }

  /** A row is an old one, or a saved change with the identifier filled in. */
  lemma RowFrom<S>(kind: Kind<S>, sys: System<S>, step: Step, i: nat)
    requires i < |Next(kind, sys, step).rows|
    ensures var row := Next(kind, sys, step).rows[i];
            if i < |sys.rows| then row == sys.rows[i]
            else
              && sys.ClientAt(step.c).Holding? && i - |sys.rows| < |sys.ClientAt(step.c).aggregate.changes|
              && row == sys.ClientAt(step.c).aggregate.changes[i - |sys.rows|].(id := row.id)
  {
  }

  lemma RowsMadeNext<S>(kind: Kind<S>, steps: seq<Step>, step: Step)
    requires RowsMade(kind, steps) && ChangesMade(kind, steps)
    ensures RowsMade(kind, steps + [step])
  {
    RunNext(kind, steps, step);
    var sys, after := Run(kind, steps), Run(kind, steps + [step]);
    forall i | 0 <= i < |after.rows|
      ensures Made(kind, steps + [step], after.rows[i])
    {
      RowFrom(kind, sys, step, i);
      var e := if i < |sys.rows| then sys.rows[i] else sys.ClientAt(step.c).aggregate.changes[i - |sys.rows|];
      assert Made(kind, steps, e);
      var j :| MadeAt(kind, steps, e, j);
      assert MadeAt(kind, steps, after.rows[i], j);
      MadeStays(kind, steps, step, after.rows[i]);
    }
  }

  /** A change that a client holds is one it held before, or the one that this step makes. */
  lemma ChangeFrom<S>(kind: Kind<S>, sys: System<S>, step: Step, c: nat, i: nat)
    requires Sequenced(kind, sys)
    requires Next(kind, sys, step).ClientAt(c).Holding? && i < |Next(kind, sys, step).ClientAt(c).aggregate.changes|
    ensures var e, client := Next(kind, sys, step).ClientAt(c).aggregate.changes[i], sys.ClientAt(c);
            && client.Holding?
            && (|| (i < |client.aggregate.changes| && e == client.aggregate.changes[i])
                || (step == Change(c, e.body) && e.aggregateId == client.aggregate.id && e.version == client.aggregate.version + 1))
  {
    var client := sys.ClientAt(c);
    assert ClientNumbered(client);
    if c == step.c && step.FinishLoad? && client.Loading? {
      CompletedClean(kind, client.restored, ByVersion(LogOf(sys.rows, client.aggregateId)), step.factoryId);
    }
  }

  lemma ChangesMadeNext<S(!new)>(kind: Kind<S>, steps: seq<Step>, step: Step)
    requires Lawful(kind) && ChangesMade(kind, steps)
    ensures ChangesMade(kind, steps + [step])
  {
    RunNext(kind, steps, step);
    RunsSequenced(kind, steps);
    var sys, after := Run(kind, steps), Run(kind, steps + [step]);
    forall c, i | after.ClientAt(c).Holding? && 0 <= i < |after.ClientAt(c).aggregate.changes|
      ensures Made(kind, steps + [step], after.ClientAt(c).aggregate.changes[i])
    {
      ChangeFrom(kind, sys, step, c, i);
      var e := after.ClientAt(c).aggregate.changes[i];
      if i < |sys.ClientAt(c).aggregate.changes| && e == sys.ClientAt(c).aggregate.changes[i] {
        MadeStays(kind, steps, step, e);
      } else {
        assert (steps + [step])[..|steps|] == steps;
        assert MadeAt(kind, steps + [step], e, |steps|);
      }
    }
  }

  /** Over every run, each row of the table was made by a change: by a client that held the row's aggregate at the version
      before, and with the row's body. */
  lemma {:induction false} RowsOriginate<S(!new)>(kind: Kind<S>, steps: seq<Step>)
    requires Lawful(kind)
    ensures RowsMade(kind, steps) && ChangesMade(kind, steps)
  {
    if steps == [] {
    } else {
      var before, step := steps[..|steps| - 1], steps[|steps| - 1];
      RowsOriginate(kind, before);
      assert steps == before + [step];
      RowsMadeNext(kind, before, step);
      ChangesMadeNext(kind, before, step);
    }
  }
}
