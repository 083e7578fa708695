/** Exactly when all loads replay the log, and exactly when they keep the identifier, over all runs. */
module Factories {
  import opened Options
  import opened EventStore
  import opened Aggregates
  import opened Interleavings
  import opened Coherence

  // Reaching states.

  lemma ReachedInitially<S>(kind: Kind<S>, world: World)
    ensures Reached(kind, world, Initial())
  {
    assert RunIn(kind, world, []) == Initial();
  }

  lemma ReachedNext<S>(kind: Kind<S>, world: World, sys: System<S>, step: Step)
    requires Reached(kind, world, sys) && Allowed(world, sys, step)
    ensures Reached(kind, world, Next(kind, sys, step))
  {
    var steps :| RunIn(kind, world, steps) == sys;
    assert (steps + [step])[..|steps|] == steps;
    assert RunIn(kind, world, steps + [step]) == Next(kind, sys, step);
  }

  /** An aggregate that was created and changed. */
  function Drafted<S>(kind: Kind<S>, id: string, bodies: seq<string>): (a: Aggregate<S>)
    ensures a.id == id && a.version == |a.changes| == |bodies|
    ensures forall i :: 0 <= i < |bodies| ==> a.changes[i].version == i + 1 && a.changes[i].aggregateId == id
  {
    if bodies == [] then Aggregate(id, 0, [], kind.initial)
    else Changed(kind, Drafted(kind, id, bodies[..|bodies| - 1]), bodies[|bodies| - 1])
  }

  lemma {:induction false} DraftedReplays<S>(kind: Kind<S>, id: string, bodies: seq<string>)
    ensures Drafted(kind, id, bodies).state == Replay(kind, kind.initial, Drafted(kind, id, bodies).changes)
  {
    if bodies == [] {
    } else {
      var n := |bodies| - 1;
      DraftedReplays(kind, id, bodies[..n]);
      assert Drafted(kind, id, bodies).changes[..n] == Drafted(kind, id, bodies[..n]).changes;
    }
  }

  function With<S>(sys: System<S>, c: nat, client: Client<S>): System<S> {
    sys.(clients := sys.clients[c := client])
  }

  lemma {:induction false} DraftReached<S>(kind: Kind<S>, world: World, sys: System<S>, c: nat, id: string, bodies: seq<string>)
    requires Reached(kind, world, sys) && world.created(id)
    ensures Reached(kind, world, With(sys, c, Holding(Drafted(kind, id, bodies))))
  {
    if bodies == [] {
      ReachedNext(kind, world, sys, Create(c, id));
    } else {
      var n := |bodies| - 1;
      var a, b := Drafted(kind, id, bodies[..n]), Drafted(kind, id, bodies);
      DraftReached(kind, world, sys, c, id, bodies[..n]);
      var before := With(sys, c, Holding(a));
      ReachedNext(kind, world, before, Change(c, bodies[n]));
      assert before.clients[c := Holding(b)] == sys.clients[c := Holding(b)];
    }
  }

  /** The first events of an aggregate have been written, and nothing else. */
  ghost predicate Written<S>(kind: Kind<S>, sys: System<S>, after: System<S>, id: string, bodies: seq<string>, newIds: int -> string) {
    && after.snapshots == sys.snapshots
    && forall other :: LogOf(after.rows, other) ==
                       if other == id then Stamped(Drafted(kind, id, bodies).changes, newIds) else LogOf(sys.rows, other)
  }

  lemma WriteReached<S>(kind: Kind<S>, world: World, sys: System<S>, c: nat, id: string, bodies: seq<string>, newIds: int -> string)
    returns (after: System<S>)
    requires Reached(kind, world, sys) && world.created(id) && LogOf(sys.rows, id) == [] && bodies != []
    ensures Reached(kind, world, after) && Written(kind, sys, after, id, bodies, newIds)
  {
    var a := Drafted(kind, id, bodies);
    var drafted := With(sys, c, Holding(a));
    DraftReached(kind, world, sys, c, id, bodies);
    ReachedNext(kind, world, drafted, SaveEvents(c, newIds, true));
    after := Next(kind, drafted, SaveEvents(c, newIds, true));
    assert a.changes[0].aggregateId == id;
    assert drafted.ClientAt(c) == Holding(a) && Saves(drafted, a);
    forall other
      ensures LogOf(sys.rows + Stamped(a.changes, newIds), other) ==
              if other == id then Stamped(a.changes, newIds) else LogOf(sys.rows, other)
    {
      SavedLog(sys.rows, id, Stamped(a.changes, newIds), other);
    }
  }

  // The identifier of a loaded aggregate.

  /** Every full replay of a created aggregate ends with the identifier that was asked for. */
  ghost predicate RestoresAll(world: World) {
    forall y, x :: world.created(y) && world.gives(y, x) ==> x == y
  }

  lemma ForeignIdLoaded<S>(kind: Kind<S>, world: World, y: string, x: string) returns (sys: System<S>, step: Step)
    requires world.created(y) && world.gives(y, x) && x != y
    ensures Reached(kind, world, sys) && Finishes(sys, step) && Allowed(world, sys, step) && !LoadKeepsId(kind, sys, step)
  {
    var newIds, bodies := (_: int) => "", [""];
    ReachedInitially(kind, world);
    var written := WriteReached(kind, world, Initial(), 0, y, bodies, newIds);
    ReachedNext(kind, world, written, BeginLoad(1, y));
    sys, step := Next(kind, written, BeginLoad(1, y)), FinishLoad(1, x);
    CompletedIsReplay(kind, sys.rows, y, NoSnapshot, x);
  }

  /** All loads keep the identifier exactly when full replays end with it. */
  lemma IdentifiersExactly<S(!new)>(kind: Kind<S>, world: World)
    requires Lawful(kind)
    ensures RestoresAll(world) <==>
            forall sys, step :: Reached(kind, world, sys) && Finishes(sys, step) && Allowed(world, sys, step) ==>
                                  LoadKeepsId(kind, sys, step)
  {
    if RestoresAll(world) {
      forall sys, step | Reached(kind, world, sys) && Finishes(sys, step) && Allowed(world, sys, step)
        ensures LoadKeepsId(kind, sys, step)
      {
        var steps :| RunIn(kind, world, steps) == sys;
        RunsCoherent(kind, world, steps);
        CoherentLoad(kind, world, sys, step);
        UnusedLoad(kind, world, sys, step);
      }
    } else {
      var y, x :| world.created(y) && world.gives(y, x) && x != y;
      var sys, step := ForeignIdLoaded(kind, world, y, x);
    }
  }

  /** Loading an identifier that no aggregate was created with yields nothing. */
  lemma UnusedLoad<S>(kind: Kind<S>, world: World, sys: System<S>, step: Step)
    requires Coherent(kind, world, sys) && Finishes(sys, step)
    ensures world.created(sys.ClientAt(step.c).aggregateId) || Next(kind, sys, step).ClientAt(step.c) == Idle
  {
    var client := sys.ClientAt(step.c);
    assert ClientOk(kind, world, sys.rows, client);
    CompletedIsReplay(kind, sys.rows, client.aggregateId, client.restored, step.factoryId);
    assert world.created(client.aggregateId) || Unused(sys, client.aggregateId);
  }

  // Version and state of a loaded aggregate.

  /** The run that loads `y`, gets the identifier `x`, and saves a change and a snapshot. */
  ghost function Foreign<S>(kind: Kind<S>, sys: System<S>, c: nat, x: string, body: string, newIds: int -> string): System<S> {
    var changed := Next(kind, Next(kind, sys, FinishLoad(c, x)), Change(c, body));
    Next(kind, Next(kind, changed, SaveEvents(c, newIds, true)), WriteSnapshot(c, true))
  }

  /** Two histories of equal length that lead to different states after one more change, at a version with a snapshot. */
  ghost predicate Differ<S>(kind: Kind<S>, x: string, y: string, xs: seq<string>, ys: seq<string>, body: string) {
    var mixed := Changed(kind, Drafted(kind, y, ys).(id := x, changes := []), body);
    && |xs| == |ys| && (|xs| + 1) % 10 == 0
    && mixed.state != Drafted(kind, x, xs + [body]).state && kind.encode(mixed.(changes := [])).Some?
  }

  ghost predicate CanDiffer<S>(kind: Kind<S>, x: string, y: string) {
    exists xs, ys, body :: Differ(kind, x, y, xs, ys, body)
  }

  /** The states of the kind tell histories apart. */
  ghost predicate TellsApart<S>(kind: Kind<S>, world: World) {
    forall x, y :: world.created(x) && world.created(y) && x != y ==> CanDiffer(kind, x, y)
  }

  /** If a replay of `y` can end with the identifier `x` of another aggregate, some run leaves a snapshot behind that
      disagrees with its log: what was loaded from one log is saved into the other, which is equally long. */
  lemma ForeignIdCorruptsSnapshot<S(!new)>(kind: Kind<S>, world: World, x: string, y: string, xs: seq<string>, ys: seq<string>, body: string)
    returns (sys: System<S>)
    requires Lawful(kind) && x != y && world.created(x) && world.created(y) && world.gives(y, x) && Differ(kind, x, y, xs, ys, body)
    ensures Reached(kind, world, sys) && WrongSnapshot(kind, sys, x)
  {
    var newIds := (_: int) => "";
    var loading := ReachBoth(kind, world, x, y, xs, ys, newIds);
    sys := Foreign(kind, loading, 1, x, body, newIds);
    ForeignReached(kind, world, loading, x, y, body, newIds);
    MixedLogs(kind, loading, x, y, xs, ys, body, newIds);
    ForeignSnapshot(kind, loading, 1, x, y, body, newIds);
  }

  lemma ReachBoth<S>(kind: Kind<S>, world: World, x: string, y: string, xs: seq<string>, ys: seq<string>, newIds: int -> string)
    returns (sys: System<S>)
    requires x != y && world.created(x) && world.created(y) && xs != [] && ys != []
    ensures Reached(kind, world, sys) && sys.ClientAt(1) == Loading(y, NoSnapshot)
    ensures LogOf(sys.rows, x) == Stamped(Drafted(kind, x, xs).changes, newIds)
    ensures LogOf(sys.rows, y) == Stamped(Drafted(kind, y, ys).changes, newIds)
  {
    ReachedInitially(kind, world);
    var first := WriteReached(kind, world, Initial(), 0, x, xs, newIds);
    var both := WriteReached(kind, world, first, 1, y, ys, newIds);
    ReachedNext(kind, world, both, BeginLoad(1, y));
    sys := Next(kind, both, BeginLoad(1, y));
  }

  lemma ForeignReached<S>(kind: Kind<S>, world: World, sys: System<S>, x: string, y: string, body: string, newIds: int -> string)
    requires Reached(kind, world, sys) && sys.ClientAt(1) == Loading(y, NoSnapshot) && world.gives(y, x)
    ensures Reached(kind, world, Foreign(kind, sys, 1, x, body, newIds))
  {
    ReachedNext(kind, world, sys, FinishLoad(1, x));
    var loaded := Next(kind, sys, FinishLoad(1, x));
    ReachedNext(kind, world, loaded, Change(1, body));
    var changed := Next(kind, loaded, Change(1, body));
    ReachedNext(kind, world, changed, SaveEvents(1, newIds, true));
    ReachedNext(kind, world, Next(kind, changed, SaveEvents(1, newIds, true)), WriteSnapshot(1, true));
  }

  /** The snapshot of `id` is as recent as its log and has another state. */
  ghost predicate WrongSnapshot<S>(kind: Kind<S>, sys: System<S>, id: string) {
    var log := LogOf(sys.rows, id);
    && Consecutive(log) && id in sys.snapshots
    && var r := Restore(kind, Some(sys.snapshots[id]));
       r.FromSnapshot? && r.version == |log| && r.aggregate.state != Replay(kind, kind.initial, log)
  }

  /** Loading through such a snapshot yields a wrong state. */
  lemma WrongSnapshotLoads<S>(kind: Kind<S>, world: World, sys: System<S>, id: string) returns (loading: System<S>, step: Step)
    requires Reached(kind, world, sys) && WrongSnapshot(kind, sys, id)
    ensures Reached(kind, world, loading) && Finishes(loading, step) && Allowed(world, loading, step)
    ensures !LoadReplays(kind, loading, step)
  {
    var log := LogOf(sys.rows, id);
    ReachedNext(kind, world, sys, BeginLoad(2, id));
    loading, step := Next(kind, sys, BeginLoad(2, id)), FinishLoad(2, id);
    var r := Restore(kind, Some(sys.snapshots[id]));
    assert loading.ClientAt(2) == Loading(id, r) && loading.rows == sys.rows;
    ReadAsWritten(log);
    AfterIsSuffix(log, r.version);
    assert Completed(kind, r, ByVersion(log), id) == Some(r.aggregate);
    assert Next(kind, loading, step).ClientAt(2) == Holding(r.aggregate);
  }

  /** For kinds whose states tell histories apart, all loads of all runs have the version and state of a full replay and no
      changes, exactly when no full replay of a created aggregate ends with the identifier of another one. */
  lemma LoadsExactly<S(!new)>(kind: Kind<S>, world: World)
    requires Lawful(kind) && TellsApart(kind, world)
    ensures Harmless(world) <==>
            forall sys, step :: Reached(kind, world, sys) && Finishes(sys, step) && Allowed(world, sys, step) ==>
                                  LoadReplays(kind, sys, step)
  {
    if Harmless(world) {
      forall sys, step | Reached(kind, world, sys) && Finishes(sys, step) && Allowed(world, sys, step)
        ensures LoadReplays(kind, sys, step)
      {
        LoadMatchesReplay(kind, world, sys, step);
      }
    } else {
      var y, x :| world.created(y) && world.created(x) && world.gives(y, x) && x != y;
      assert CanDiffer(kind, x, y);
      var xs, ys, body :| Differ(kind, x, y, xs, ys, body);
      var sys := ForeignIdCorruptsSnapshot(kind, world, x, y, xs, ys, body);
      var loading, step := WrongSnapshotLoads(kind, world, sys, x);
    }
  }

  /** A factory that generates identifiers is harmless: they are different from all that aggregates are created with. */
  lemma GeneratedIdsReplay<S(!new)>(kind: Kind<S>, world: World, sys: System<S>, step: Step)
    requires Lawful(kind) && forall y, x :: world.gives(y, x) ==> x == y || !world.created(x)
    requires Reached(kind, world, sys) && Finishes(sys, step)
    ensures LoadReplays(kind, sys, step)
  {
    LoadMatchesReplay(kind, world, sys, step);
  }

  /** A factory that always gives the same identifier is harmless exactly when that is not the identifier of one aggregate
      among others. */
  lemma FixedIdHarmless(created: string -> bool, given: string)
    ensures Harmless(World(created, (y, x) => x == given)) <==> created(given) ==> forall y :: created(y) ==> y == given
  {
    var world := World(created, (y, x) => x == given);
    if created(given) && exists y :: created(y) && y != given {
      var y :| created(y) && y != given;
      assert world.created(y) && world.created(given) && world.gives(y, given);
    }
  }

  /** What the two logs and the change make of the initial state. */
  lemma MixedLogs<S(!new)>(kind: Kind<S>, sys: System<S>, x: string, y: string, xs: seq<string>, ys: seq<string>, body: string, newIds: int -> string)
    requires Lawful(kind) && |xs| == |ys|
    requires LogOf(sys.rows, x) == Stamped(Drafted(kind, x, xs).changes, newIds)
    requires LogOf(sys.rows, y) == Stamped(Drafted(kind, y, ys).changes, newIds)
    ensures var e := Event("", x, |xs| + 1, body);
            && kind.apply(Replay(kind, kind.initial, LogOf(sys.rows, x)), e) == Drafted(kind, x, xs + [body]).state
            && kind.apply(Replay(kind, kind.initial, LogOf(sys.rows, y)), e) ==
               Changed(kind, Drafted(kind, y, ys).(id := x, changes := []), body).state
    ensures Consecutive(LogOf(sys.rows, x)) && Consecutive(LogOf(sys.rows, y))
  {
    DraftedLog(kind, x, xs, newIds);
    DraftedLog(kind, y, ys, newIds);
    assert (xs + [body])[..|xs|] == xs;
  }

  lemma DraftedLog<S(!new)>(kind: Kind<S>, id: string, bodies: seq<string>, newIds: int -> string)
    requires Lawful(kind)
    ensures var log := Stamped(Drafted(kind, id, bodies).changes, newIds);
            Replay(kind, kind.initial, log) == Drafted(kind, id, bodies).state && Consecutive(log)
  {
    ReplayStamped(kind, kind.initial, Drafted(kind, id, bodies).changes, newIds);
    DraftedReplays(kind, id, bodies);
  }

  lemma ForeignSnapshot<S(!new)>(kind: Kind<S>, sys: System<S>, c: nat, x: string, y: string, body: string, newIds: int -> string)
    requires Lawful(kind) && Consecutive(LogOf(sys.rows, x)) && Consecutive(LogOf(sys.rows, y)) && x != y
    requires sys.ClientAt(c) == Loading(y, NoSnapshot)
    requires var n := |LogOf(sys.rows, x)|; |LogOf(sys.rows, y)| == n > 0 && (n + 1) % 10 == 0
    requires var e := Event("", x, |LogOf(sys.rows, x)| + 1, body);
             && kind.apply(Replay(kind, kind.initial, LogOf(sys.rows, x)), e) != kind.apply(Replay(kind, kind.initial, LogOf(sys.rows, y)), e)
             && kind.encode(Aggregate(x, e.version, [], kind.apply(Replay(kind, kind.initial, LogOf(sys.rows, y)), e))).Some?
    ensures WrongSnapshot(kind, Foreign(kind, sys, c, x, body, newIds), x)
  {
    var e := Event("", x, |LogOf(sys.rows, x)| + 1, body);
    var a := Aggregate(x, e.version, [e], kind.apply(Replay(kind, kind.initial, LogOf(sys.rows, y)), e));
    var changed := Next(kind, Next(kind, sys, FinishLoad(c, x)), Change(c, body));
    ForeignLoad(kind, sys, c, x, y, body);
    ForeignSave(kind, changed, c, a, e, newIds);
    var saved := Next(kind, changed, SaveEvents(c, newIds, true));
    SavedLog(sys.rows, x, Stamped([e], newIds), x);
    ReplayOne(kind, LogOf(sys.rows, x), e, newIds);
    WritesWrong(kind, saved, c, a.(changes := []));
  }

  lemma ForeignSave<S>(kind: Kind<S>, sys: System<S>, c: nat, a: Aggregate<S>, e: Event, newIds: int -> string)
    requires sys.ClientAt(c) == Holding(a) && a.changes == [e] && a.version == e.version && a.version % 10 == 0
    requires Consecutive(LogOf(sys.rows, e.aggregateId)) && e.version == |LogOf(sys.rows, e.aggregateId)| + 1
    ensures var saved := Next(kind, sys, SaveEvents(c, newIds, true));
            saved.rows == sys.rows + Stamped([e], newIds) && saved.ClientAt(c) == Snapshotting(a.(changes := []))
  {
    CurrentIsLength(sys.rows, e.aggregateId);
    assert Saves(sys, a);
  }

  lemma ForeignLoad<S>(kind: Kind<S>, sys: System<S>, c: nat, x: string, y: string, body: string)
    requires Consecutive(LogOf(sys.rows, y)) && LogOf(sys.rows, y) != [] && sys.ClientAt(c) == Loading(y, NoSnapshot)
    ensures var log := LogOf(sys.rows, y);
            var e := Event("", x, |log| + 1, body);
            var changed := Next(kind, Next(kind, sys, FinishLoad(c, x)), Change(c, body));
            && changed.rows == sys.rows && changed.snapshots == sys.snapshots
            && changed.ClientAt(c) == Holding(Aggregate(x, |log| + 1, [e], kind.apply(Replay(kind, kind.initial, log), e)))
  {
    ReadAsWritten(LogOf(sys.rows, y));
    LoadedReplays(kind, Aggregate(x, 0, [], kind.initial), LogOf(sys.rows, y));
  }

  /** Writing a snapshot of a state that the log does not lead to. */
  lemma WritesWrong<S(!new)>(kind: Kind<S>, sys: System<S>, c: nat, a: Aggregate<S>)
    requires Lawful(kind) && sys.ClientAt(c) == Snapshotting(a) && kind.encode(a).Some? && Consecutive(LogOf(sys.rows, a.id))
    requires a.version == |LogOf(sys.rows, a.id)| && a.state != Replay(kind, kind.initial, LogOf(sys.rows, a.id))
    ensures WrongSnapshot(kind, Next(kind, sys, WriteSnapshot(c, true)), a.id)
  {
    var after := Next(kind, sys, WriteSnapshot(c, true));
    assert kind.decode(kind.encode(a).value) == Some(a);
    assert Restore(kind, Some(after.snapshots[a.id])) == FromSnapshot(a, a.version);
  }

  lemma ReplayOne<S(!new)>(kind: Kind<S>, log: seq<Event>, e: Event, newIds: int -> string)
    requires Lawful(kind)
    ensures Replay(kind, kind.initial, log + Stamped([e], newIds)) == kind.apply(Replay(kind, kind.initial, log), e)
  {
    ReplayConcat(kind, kind.initial, log, Stamped([e], newIds));
    ReplayStamped(kind, Replay(kind, kind.initial, log), [e], newIds);
    assert [e][..0] == [];
  }
}
