/** What a load yields while other clients save and write snapshots: the replay of the log. */
module Coherence {
  import opened Options
  import opened EventStore
  import opened Aggregates
  import opened Interleavings

  // Where identifiers come from.

  /** The identifiers that aggregates are created with, and those that an aggregate can have after a full replay, given the
      one that was asked for: the factory or a handler decides that. */
  datatype World = World(created: string -> bool, gives: (string, string) -> bool)

  ghost predicate Finishes<S>(sys: System<S>, step: Step) {
    step.FinishLoad? && sys.ClientAt(step.c).Loading?
  }

  ghost predicate Allowed<S>(world: World, sys: System<S>, step: Step) {
    && (step.Create? ==> world.created(step.id))
    && (Finishes(sys, step) && sys.ClientAt(step.c).restored.NoSnapshot? ==>
          world.gives(sys.ClientAt(step.c).aggregateId, step.factoryId))
  }

  /** No full replay of a created aggregate ends with the identifier of another one. */
  ghost predicate Harmless(world: World) {
    forall y, x :: world.created(y) && world.created(x) && world.gives(y, x) ==> x == y
  }

  /** A run; steps that the world does not allow are left out. */
  ghost function RunIn<S>(kind: Kind<S>, world: World, steps: seq<Step>): System<S> {
    if steps == [] then Initial()
    else
      var sys, step := RunIn(kind, world, steps[..|steps| - 1]), steps[|steps| - 1];
      if Allowed(world, sys, step) then Next(kind, sys, step) else sys
  }

  /** Some run leads to `sys`. */
  ghost predicate Reached<S>(kind: Kind<S>, world: World, sys: System<S>) {
    exists steps :: RunIn(kind, world, steps) == sys
  }

  // The invariant of all runs.

  /** `a` is what the first `version` events of the log make of the initial state, and has no changes. */
  ghost predicate UpToDate<S>(kind: Kind<S>, rows: seq<Event>, id: string, version: int, a: Aggregate<S>) {
    var log := LogOf(rows, id);
    0 <= version <= |log| && a == Aggregate(id, version, [], Replay(kind, kind.initial, log[..version]))
  }

  /** `a` consists of a prefix of its log and of changes that number on from there. */
  ghost predicate Grounded<S>(kind: Kind<S>, rows: seq<Event>, a: Aggregate<S>) {
    var log := LogOf(rows, a.id);
    && 0 <= Base(a) <= |log|
    && a.state == Replay(kind, Replay(kind, kind.initial, log[..Base(a)]), a.changes)
    && Numbered(a)
  }

  ghost predicate RestoredOk<S>(kind: Kind<S>, rows: seq<Event>, id: string, r: Restored<S>) {
    match r
    case NoSnapshot => true
    case Unreadable => false
    case FromSnapshot(a, version) => UpToDate(kind, rows, id, version, a)
  }

  /** A held aggregate is grounded in its log, or has an identifier that no aggregate was created with and changes that do not
      number from 1, so that they can never be saved. */
  ghost predicate HeldOk<S>(kind: Kind<S>, world: World, rows: seq<Event>, a: Aggregate<S>) {
    if world.created(a.id) then Grounded(kind, rows, a) else Numbered(a) && Base(a) >= 1
  }

  ghost predicate ClientOk<S>(kind: Kind<S>, world: World, rows: seq<Event>, client: Client<S>) {
    match client
    case Idle => true
    case Loading(id, r) => RestoredOk(kind, rows, id, r) && (r.FromSnapshot? ==> world.created(id))
    case Holding(a) => HeldOk(kind, world, rows, a)
    case Snapshotting(a) => world.created(a.id) && Grounded(kind, rows, a) && a.changes == []
  }

  ghost predicate SnapshotOk<S>(kind: Kind<S>, rows: seq<Event>, snapshots: map<string, Snapshot>, id: string) {
    id in snapshots ==> RestoredOk(kind, rows, id, Restore(kind, Some(snapshots[id])))
  }

  ghost predicate Unused<S>(sys: System<S>, id: string) {
    LogOf(sys.rows, id) == [] && id !in sys.snapshots
  }

  ghost predicate Coherent<S>(kind: Kind<S>, world: World, sys: System<S>) {
    && AllConsecutive(sys.rows)
    && (forall id :: SnapshotOk(kind, sys.rows, sys.snapshots, id))
    && (forall id :: !world.created(id) ==> Unused(sys, id))
    && (forall c :: ClientOk(kind, world, sys.rows, sys.ClientAt(c)))
  }

  // Appending rows keeps whatever was known about a prefix of a log.

  lemma LogGrows(rows: seq<Event>, more: seq<Event>, id: string, v: int)
    requires 0 <= v <= |LogOf(rows, id)|
    ensures v <= |LogOf(rows + more, id)| && LogOf(rows + more, id)[..v] == LogOf(rows, id)[..v]
  {
    LogOfConcat(rows, more, id);
  }

  lemma RestoredGrows<S>(kind: Kind<S>, rows: seq<Event>, more: seq<Event>, id: string, r: Restored<S>)
    requires RestoredOk(kind, rows, id, r)
    ensures RestoredOk(kind, rows + more, id, r)
  {
    if r.FromSnapshot? {
      LogGrows(rows, more, id, r.version);
    }
  }

  lemma GroundedGrows<S>(kind: Kind<S>, rows: seq<Event>, more: seq<Event>, a: Aggregate<S>)
    requires Grounded(kind, rows, a)
    ensures Grounded(kind, rows + more, a)
  {
    LogGrows(rows, more, a.id, Base(a));
  }

  lemma ClientGrows<S>(kind: Kind<S>, world: World, rows: seq<Event>, more: seq<Event>, client: Client<S>)
    requires ClientOk(kind, world, rows, client)
    ensures ClientOk(kind, world, rows + more, client)
  {
    match client
    case Idle =>
    case Loading(id, r) => RestoredGrows(kind, rows, more, id, r);
    case Holding(a) =>
      if world.created(a.id) {
        GroundedGrows(kind, rows, more, a);
      }
    case Snapshotting(a) => GroundedGrows(kind, rows, more, a);
  }

  // The steps.

  /** Snapshot and later events together give what the whole log gives. The identifier is right exactly when it
      comes from a snapshot or the factory already has it. */
  lemma CompletedIsReplay<S>(kind: Kind<S>, rows: seq<Event>, id: string, r: Restored<S>, factoryId: string)
    requires Consecutive(LogOf(rows, id)) && RestoredOk(kind, rows, id, r)
    ensures var log := LogOf(rows, id);
            var found := Completed(kind, r, ByVersion(log), factoryId);
            && (found.None? <==> r.NoSnapshot? && log == [])
            && (found.Some? ==>
                  found.value == Aggregate(if r.NoSnapshot? then factoryId else id, |log|, [], Replay(kind, kind.initial, log)))
  {
    var log := LogOf(rows, id);
    ReadAsWritten(log);
    match r
    case NoSnapshot =>
      LoadedReplays(kind, Aggregate(factoryId, 0, [], kind.initial), log);
    case FromSnapshot(a, version) =>
      TailReplayed(kind, id, log, version);
    case Unreadable =>
  }

  lemma TailReplayed<S>(kind: Kind<S>, id: string, log: seq<Event>, version: nat)
    requires Consecutive(log) && version <= |log|
    ensures LoadedFrom(kind, Aggregate(id, version, [], Replay(kind, kind.initial, log[..version])), After(log, version)) ==
            Aggregate(id, |log|, [], Replay(kind, kind.initial, log))
  {
    AfterIsSuffix(log, version);
    assert log[..version] + log[version..] == log;
    LoadedOn(kind, id, log[..version], log[version..]);
  }

  lemma LoadedOn<S>(kind: Kind<S>, id: string, head: seq<Event>, tail: seq<Event>)
    requires Consecutive(head + tail)
    ensures LoadedFrom(kind, Aggregate(id, |head|, [], Replay(kind, kind.initial, head)), tail) ==
            Aggregate(id, |head + tail|, [], Replay(kind, kind.initial, head + tail))
  {
    LoadedReplays(kind, Aggregate(id, |head|, [], Replay(kind, kind.initial, head)), tail);
    ReplayConcat(kind, kind.initial, head, tail);
    if tail != [] {
      assert (head + tail)[|head + tail| - 1] == tail[|tail| - 1];
    }
  }

  lemma ChangedGrounded<S>(kind: Kind<S>, rows: seq<Event>, a: Aggregate<S>, body: string)
    requires Grounded(kind, rows, a)
    ensures Grounded(kind, rows, Changed(kind, a, body)) && Base(Changed(kind, a, body)) == Base(a)
  {
    var b := Changed(kind, a, body);
    assert b.changes[..|b.changes| - 1] == a.changes;
  }

  lemma LoadedGrounded<S>(kind: Kind<S>, rows: seq<Event>, id: string)
    ensures Grounded(kind, rows, Aggregate(id, |LogOf(rows, id)|, [], Replay(kind, kind.initial, LogOf(rows, id))))
  {
    var log := LogOf(rows, id);
    assert log[..|log|] == log;
  }

  lemma SavedGrounded<S(!new)>(kind: Kind<S>, rows: seq<Event>, a: Aggregate<S>, newIds: int -> string)
    requires Lawful(kind) && Grounded(kind, rows, a) && |LogOf(rows, a.id)| == Base(a)
    ensures Grounded(kind, rows + Stamped(a.changes, newIds), a.(changes := []))
  {
    var log, added := LogOf(rows, a.id), Stamped(a.changes, newIds);
    ReplayStamped(kind, Replay(kind, kind.initial, log), a.changes, newIds);
    AppendedGrounded(kind, rows, a, added);
  }

  lemma AppendedGrounded<S>(kind: Kind<S>, rows: seq<Event>, a: Aggregate<S>, added: seq<Event>)
    requires Grounded(kind, rows, a) && |LogOf(rows, a.id)| == Base(a) && |added| == |a.changes|
    requires forall i :: 0 <= i < |added| ==> added[i].aggregateId == a.id
    requires var s := Replay(kind, kind.initial, LogOf(rows, a.id)); Replay(kind, s, added) == Replay(kind, s, a.changes)
    ensures Grounded(kind, rows + added, a.(changes := []))
  {
    var log := LogOf(rows, a.id);
    StateAtEnd(kind, rows, a);
    SavedLog(rows, a.id, added, a.id);
    ReplayConcat(kind, kind.initial, log, added);
    assert a.(changes := []) == Aggregate(a.id, |log + added|, [], Replay(kind, kind.initial, log + added));
    LoadedGrounded(kind, rows + added, a.id);
  }

  lemma StateAtEnd<S>(kind: Kind<S>, rows: seq<Event>, a: Aggregate<S>)
    requires Grounded(kind, rows, a) && |LogOf(rows, a.id)| == Base(a)
    ensures a.state == Replay(kind, Replay(kind, kind.initial, LogOf(rows, a.id)), a.changes)
  {
    assert LogOf(rows, a.id)[..Base(a)] == LogOf(rows, a.id);
  }

  lemma WrittenSnapshot<S(!new)>(kind: Kind<S>, rows: seq<Event>, a: Aggregate<S>)
    requires Lawful(kind) && Grounded(kind, rows, a) && a.changes == [] && SnapshotOf(kind, a).Some?
    ensures RestoredOk(kind, rows, a.id, Restore(kind, SnapshotOf(kind, a)))
  {
    assert kind.decode(kind.encode(a).value) == Some(a);
  }

  lemma ChangedHeld<S>(kind: Kind<S>, world: World, rows: seq<Event>, a: Aggregate<S>, body: string)
    requires HeldOk(kind, world, rows, a)
    ensures HeldOk(kind, world, rows, Changed(kind, a, body))
  {
    if world.created(a.id) {
      ChangedGrounded(kind, rows, a, body);
    }
  }

  /** What a load without a snapshot yields is grounded, or can never be saved. */
  lemma LoadedHeld<S>(kind: Kind<S>, world: World, rows: seq<Event>, id: string, x: string)
    requires world.created(id) && LogOf(rows, id) != [] && (x == id || !world.created(x))
    ensures HeldOk(kind, world, rows, Aggregate(x, |LogOf(rows, id)|, [], Replay(kind, kind.initial, LogOf(rows, id))))
  {
    LoadedGrounded(kind, rows, id);
  }

  /** Every step of every client keeps the system coherent. */
  lemma NextCoherent<S(!new)>(kind: Kind<S>, world: World, sys: System<S>, step: Step)
    requires Lawful(kind) && Harmless(world) && Coherent(kind, world, sys) && Allowed(world, sys, step)
    ensures Coherent(kind, world, Next(kind, sys, step))
  {
    var client := sys.ClientAt(step.c);
    assert ClientOk(kind, world, sys.rows, client);
    match step
    case Create(c, id) =>
      OthersOk(kind, world, sys, c, Holding(Aggregate(id, 0, [], kind.initial)));
    case BeginLoad(c, id) =>
      assert SnapshotOk(kind, sys.rows, sys.snapshots, id);
      assert id in sys.snapshots ==> !Unused(sys, id);
      OthersOk(kind, world, sys, c, Next(kind, sys, step).clients[c]);
    case FinishLoad(c, factoryId) =>
      if client.Loading? {
        LoadCoherent(kind, world, sys, c, client.aggregateId, client.restored, factoryId);
      }
    case Change(c, body) =>
      if client.Holding? {
        ChangedHeld(kind, world, sys.rows, client.aggregate, body);
        OthersOk(kind, world, sys, c, Holding(Changed(kind, client.aggregate, body)));
      }
    case SaveEvents(c, newIds, accepted) =>
      if client.Holding? && Saves(sys, client.aggregate) && accepted {
        SaveCoherent(kind, world, sys, c, client.aggregate, newIds);
      }
    case WriteSnapshot(c, accepted) =>
      if client.Snapshotting? {
        SnapshotCoherent(kind, world, sys, c, client.aggregate, accepted);
      }
  }

  lemma LoadCoherent<S>(kind: Kind<S>, world: World, sys: System<S>, c: nat, id: string, r: Restored<S>, x: string)
    requires Harmless(world) && Coherent(kind, world, sys) && sys.ClientAt(c) == Loading(id, r) && Allowed(world, sys, FinishLoad(c, x))
    ensures Coherent(kind, world, Next(kind, sys, FinishLoad(c, x)))
  {
    assert ClientOk(kind, world, sys.rows, sys.ClientAt(c));
    CompletedIsReplay(kind, sys.rows, id, r, x);
    if LogOf(sys.rows, id) == [] {
      LoadedGrounded(kind, sys.rows, id);
    } else {
      assert !Unused(sys, id);
      LoadedHeld(kind, world, sys.rows, id, if r.NoSnapshot? then x else id);
    }
    OthersOk(kind, world, sys, c, Next(kind, sys, FinishLoad(c, x)).clients[c]);
  }

  /** Replacing one client by another one that is all right. */
  lemma OthersOk<S>(kind: Kind<S>, world: World, sys: System<S>, c: nat, client: Client<S>)
    requires Coherent(kind, world, sys) && ClientOk(kind, world, sys.rows, client)
    ensures Coherent(kind, world, sys.(clients := sys.clients[c := client]))
  {
    var after := sys.(clients := sys.clients[c := client]);
    forall d: nat
      ensures ClientOk(kind, world, after.rows, after.ClientAt(d))
    {
      assert ClientOk(kind, world, sys.rows, sys.ClientAt(d));
    }
    forall id
      ensures SnapshotOk(kind, after.rows, after.snapshots, id)
    {
      assert SnapshotOk(kind, sys.rows, sys.snapshots, id);
    }
    forall id | !world.created(id)
      ensures Unused(after, id)
    {
      assert Unused(sys, id);
    }
  }

  /** Only what is grounded can be saved: the log of any other identifier is empty. */
  lemma SavesCreated<S>(kind: Kind<S>, world: World, sys: System<S>, a: Aggregate<S>)
    requires Coherent(kind, world, sys) && HeldOk(kind, world, sys.rows, a) && Saves(sys, a)
    ensures world.created(a.id) && Grounded(kind, sys.rows, a) && |LogOf(sys.rows, a.id)| == Base(a)
  {
    SavesIffCurrent(sys, a);
    assert world.created(a.id) || Unused(sys, a.id);
  }

  lemma SaveCoherent<S(!new)>(kind: Kind<S>, world: World, sys: System<S>, c: nat, a: Aggregate<S>, newIds: int -> string)
    requires Lawful(kind) && Coherent(kind, world, sys) && sys.ClientAt(c) == Holding(a) && Saves(sys, a)
    ensures Coherent(kind, world, Next(kind, sys, SaveEvents(c, newIds, true)))
  {
    assert ClientOk(kind, world, sys.rows, sys.ClientAt(c));
    SavesCreated(kind, world, sys, a);
    SavedConsecutive(sys.rows, a, newIds);
    SavedGrounded(kind, sys.rows, a, newIds);
    var more := Stamped(a.changes, newIds);
    var after := Next(kind, sys, SaveEvents(c, newIds, true));
    forall d: nat
      ensures ClientOk(kind, world, after.rows, after.ClientAt(d))
    {
      assert ClientOk(kind, world, sys.rows, sys.ClientAt(d));
      if d != c {
        ClientGrows(kind, world, sys.rows, more, sys.ClientAt(d));
      }
    }
    forall id
      ensures SnapshotOk(kind, after.rows, after.snapshots, id)
    {
      assert SnapshotOk(kind, sys.rows, sys.snapshots, id);
      if id in sys.snapshots {
        RestoredGrows(kind, sys.rows, more, id, Restore(kind, Some(sys.snapshots[id])));
      }
    }
    forall id | !world.created(id)
      ensures Unused(after, id)
    {
      assert Unused(sys, id);
      SavedLog(sys.rows, a.id, more, id);
    }
  }

  lemma SnapshotCoherent<S(!new)>(kind: Kind<S>, world: World, sys: System<S>, c: nat, a: Aggregate<S>, accepted: bool)
    requires Lawful(kind) && Coherent(kind, world, sys) && sys.ClientAt(c) == Snapshotting(a)
    ensures Coherent(kind, world, Next(kind, sys, WriteSnapshot(c, accepted)))
  {
    assert ClientOk(kind, world, sys.rows, sys.ClientAt(c));
    OthersOk(kind, world, sys, c, Holding(a));
    if accepted && SnapshotOf(kind, a).Some? {
      WrittenSnapshot(kind, sys.rows, a);
      var after := Next(kind, sys, WriteSnapshot(c, accepted));
      forall id
        ensures SnapshotOk(kind, after.rows, after.snapshots, id)
      {
        assert SnapshotOk(kind, sys.rows, sys.snapshots, id);
      }
      forall id | !world.created(id)
        ensures Unused(after, id)
      {
        assert Unused(sys, id);
      }
      forall d: nat
        ensures ClientOk(kind, world, after.rows, after.ClientAt(d))
      {
        assert ClientOk(kind, world, sys.rows, sys.ClientAt(d));
      }
    }
  }

  // Whole runs.

  /** In a harmless world every reachable state is coherent, however the clients' transactions interleave. */
  lemma {:induction false} RunsCoherent<S(!new)>(kind: Kind<S>, world: World, steps: seq<Step>)
    requires Lawful(kind) && Harmless(world)
    ensures Coherent(kind, world, RunIn(kind, world, steps))
  {
    if steps == [] {
    } else {
      var n := |steps| - 1;
      var sys := RunIn(kind, world, steps[..n]);
      RunsCoherent(kind, world, steps[..n]);
      if Allowed(world, sys, steps[n]) {
        NextCoherent(kind, world, sys, steps[n]);
      }
    }
  }

  /** The load that `step` finishes yields the version and state of replaying the whole log from scratch and no changes, or
      nothing if there are no events. */
  ghost predicate LoadReplays<S>(kind: Kind<S>, sys: System<S>, step: Step)
    requires Finishes(sys, step)
  {
    var log := LogOf(sys.rows, sys.ClientAt(step.c).aggregateId);
    match Next(kind, sys, step).ClientAt(step.c)
    case Holding(a) => a.version == |log| && a.state == Replay(kind, kind.initial, log) && a.changes == []
    case Idle => log == []
    case _ => false
  }

  /** The aggregate that is loaded, if any, has the identifier that was asked for. */
  ghost predicate LoadKeepsId<S>(kind: Kind<S>, sys: System<S>, step: Step)
    requires Finishes(sys, step)
  {
    var client := Next(kind, sys, step).ClientAt(step.c);
    client.Holding? ==> client.aggregate.id == sys.ClientAt(step.c).aggregateId
  }

  /** Whether or not a load goes through a snapshot and whatever happens between its two transactions, it replays the log. */
  lemma LoadMatchesReplay<S(!new)>(kind: Kind<S>, world: World, sys: System<S>, step: Step)
    requires Lawful(kind) && Harmless(world) && Reached(kind, world, sys) && Finishes(sys, step)
    ensures LoadReplays(kind, sys, step)
  {
    var steps :| RunIn(kind, world, steps) == sys;
    RunsCoherent(kind, world, steps);
    CoherentLoad(kind, world, sys, step);
  }

  lemma CoherentLoad<S>(kind: Kind<S>, world: World, sys: System<S>, step: Step)
    requires Coherent(kind, world, sys) && Finishes(sys, step)
    ensures LoadReplays(kind, sys, step)
    ensures sys.ClientAt(step.c).restored.FromSnapshot? || step.factoryId == sys.ClientAt(step.c).aggregateId ==>
              LoadKeepsId(kind, sys, step)
  {
    var client := sys.ClientAt(step.c);
    assert ClientOk(kind, world, sys.rows, client);
    CompletedIsReplay(kind, sys.rows, client.aggregateId, client.restored, step.factoryId);
  }

  /** With a new identifier of its own, an aggregate that was loaded by replay can never be saved: its changes do not
      start at version 1. */
  lemma NewIdCannotSave<S>(kind: Kind<S>, sys: System<S>, y: string, newId: string, body: string)
    requires AllConsecutive(sys.rows) && LogOf(sys.rows, y) != [] && LogOf(sys.rows, newId) == []
    ensures var loaded := Completed(kind, NoSnapshot, ByVersion(LogOf(sys.rows, y)), newId).value;
            !Saves(sys, Changed(kind, loaded, body))
  {
    ReadAsWritten(LogOf(sys.rows, y));
    LoadedReplays(kind, Aggregate(newId, 0, [], kind.initial), LogOf(sys.rows, y));
    assert Consecutive(LogOf(sys.rows, y));
    var a := Changed(kind, Completed(kind, NoSnapshot, ByVersion(LogOf(sys.rows, y)), newId).value, body);
    assert a.changes[0].version == |LogOf(sys.rows, y)| + 1 && a.changes[0].aggregateId == newId;
  }
}
