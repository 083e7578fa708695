/** Aggregates that are changed through events, and the repository that loads and saves them. */
module Aggregates {
  import opened Options
  import opened EventStore

  /** The value of an aggregate: what its fields hold and what its snapshot stores. */
  datatype Aggregate<S> = Aggregate(id: string, version: int, changes: seq<Event>, state: S)

  /** An aggregate type: its initial state, its event handlers and its serialisation. */
  datatype Kind<!S> = Kind(
    initial: S,
    apply: (S, Event) -> S,
    encode: Aggregate<S> -> Option<string>,
    decode: string -> Option<Aggregate<S>>)

  /** Snapshots can be read back, and handlers do not look at the row identifier, which only the store assigns. */
  ghost predicate Lawful<S(!new)>(kind: Kind<S>) {
    && (forall a :: kind.encode(a).Some? ==> kind.decode(kind.encode(a).value) == Some(a))
    && (forall s, e: Event, id :: kind.apply(s, e.(id := id)) == kind.apply(s, e))
  }

  function Replay<S>(kind: Kind<S>, s: S, events: seq<Event>): S {
    if events == [] then s else kind.apply(Replay(kind, s, events[..|events| - 1]), events[|events| - 1])
  }

  lemma {:induction false} ReplayConcat<S>(kind: Kind<S>, s: S, a: seq<Event>, b: seq<Event>)
    ensures Replay(kind, s, a + b) == Replay(kind, Replay(kind, s, a), b)
  {
    if b == [] {
      assert a + b == a;
    } else {
      assert (a + b)[..|a + b| - 1] == a + b[..|b| - 1];
      ReplayConcat(kind, s, a, b[..|b| - 1]);
    }
  }

  lemma {:induction false} ReplayStamped<S(!new)>(kind: Kind<S>, s: S, events: seq<Event>, newIds: int -> string)
    requires Lawful(kind)
    ensures Replay(kind, s, Stamped(events, newIds)) == Replay(kind, s, events)
  {
    if events == [] {
    } else {
      var n := |events| - 1;
      ReplayStamped(kind, s, events[..n], newIds);
      assert Stamped(events, newIds)[..n] == Stamped(events[..n], newIds);
      var e := events[n];
      assert kind.apply(Replay(kind, s, events[..n]), e.(id := newIds(n))) == kind.apply(Replay(kind, s, events[..n]), e);
    }
  }

  /** Applies an event; a new one is also recorded as a change. */
  function Applied<S>(kind: Kind<S>, a: Aggregate<S>, e: Event, isNew: bool): Aggregate<S> {
    Aggregate(a.id, e.version, if isNew then a.changes + [e] else a.changes, kind.apply(a.state, e))
  }

  function Changed<S>(kind: Kind<S>, a: Aggregate<S>, body: string): Aggregate<S> {
    Applied(kind, a, Event("", a.id, a.version + 1, body), true)
  }

  function LoadedFrom<S>(kind: Kind<S>, a: Aggregate<S>, events: seq<Event>): Aggregate<S> {
    if events == [] then a else Applied(kind, LoadedFrom(kind, a, events[..|events| - 1]), events[|events| - 1], false)
  }

  lemma {:induction false} LoadedReplays<S>(kind: Kind<S>, a: Aggregate<S>, events: seq<Event>)
    ensures LoadedFrom(kind, a, events) ==
            Aggregate(a.id, if events == [] then a.version else events[|events| - 1].version, a.changes, Replay(kind, a.state, events))
  {
    if events == [] {
    } else {
      LoadedReplays(kind, a, events[..|events| - 1]);
    }
  }

  class AggregateRoot<S> {
    const kind: Kind<S>
    var id: string
    var version: int
    var changes: seq<Event>
    var state: S

    constructor (kind: Kind<S>, id: string)
      ensures this.kind == kind && Value() == Aggregate(id, 0, [], kind.initial)
    {
      this.kind, this.id, version, changes, state := kind, id, 0, [], kind.initial;
    }

    function Value(): Aggregate<S>
      reads this
    {
      Aggregate(id, version, changes, state)
    }

    method ApplyEvent(e: Event, isNew: bool)
      modifies this
      ensures Value() == Applied(kind, old(Value()), e, isNew)
      ensures id == old(id) && version == e.version && state == kind.apply(old(state), e)
      ensures changes == if isNew then old(changes) + [e] else old(changes)
    {
      state := kind.apply(state, e);
      version := e.version;
      if isNew {
        changes := changes + [e];
      }
    }

    method ApplyChange(body: string)
      modifies this
      ensures Value() == Changed(kind, old(Value()), body)
      ensures var e := Event("", old(id), old(version) + 1, body);
              id == old(id) && version == e.version && state == kind.apply(old(state), e) && changes == old(changes) + [e]
    {
      ApplyEvent(Event("", id, version + 1, body), true);
    }

    method LoadFromEvents(events: seq<Event>)
      modifies this
      ensures Value() == LoadedFrom(kind, old(Value()), events)
      ensures id == old(id) && changes == old(changes) && state == Replay(kind, old(state), events)
      ensures version == if events == [] then old(version) else events[|events| - 1].version
    {
      LoadedReplays(kind, Value(), events);
      for i := 0 to |events|
        invariant Value() == LoadedFrom(kind, old(Value()), events[..i])
      {
        assert events[..i + 1][..i] == events[..i];
        ApplyEvent(events[i], false);
      }
      assert events[..|events|] == events;
    }

    method MarkChangesAsCommitted()
      modifies this
      ensures Value() == old(Value()).(changes := [])
    {
      changes := [];
    }
  }

  // What the repository does, in the pieces that other writers can come between.

  /** What the snapshot query yields: no snapshot, a restored aggregate, or one that cannot be read. */
  datatype Restored<S> = NoSnapshot | Unreadable | FromSnapshot(aggregate: Aggregate<S>, version: int)

  function Restore<S>(kind: Kind<S>, snapshot: Option<Snapshot>): Restored<S> {
    match snapshot
    case None => NoSnapshot
    case Some(s) =>
      match kind.decode(s.state)
      case None => Unreadable
      case Some(a) => FromSnapshot(a, s.version)
  }

  /** The aggregate that results from the second query. Replaying events does not set the identifier, so without a
      snapshot the aggregate keeps the one that the factory gave it. */
  function Completed<S>(kind: Kind<S>, restored: Restored<S>, log: seq<Event>, factoryId: string): Option<Aggregate<S>> {
    match restored
    case Unreadable => None
    case FromSnapshot(a, version) => Some(LoadedFrom(kind, a, After(log, version)))
    case NoSnapshot => if log == [] then None else Some(LoadedFrom(kind, Aggregate(factoryId, 0, [], kind.initial), log))
  }

  function SnapshotOf<S>(kind: Kind<S>, a: Aggregate<S>): Option<Snapshot> {
    match kind.encode(a)
    case None => None
    case Some(state) => Some(Snapshot(a.id, a.version, state))
  }

  class Repository<S> {
    const kind: Kind<S>
    const store: EventTable

    constructor (kind: Kind<S>, store: EventTable)
      ensures this.kind == kind && this.store == store
    {
      this.kind, this.store := kind, store;
    }

    method Load(aggregateId: string, factoryId: string) returns (r: Option<AggregateRoot<S>>)
      ensures var found := Completed(kind,
                                     Restore(kind, if aggregateId in store.snapshots then Some(store.snapshots[aggregateId]) else None),
                                     ByVersion(LogOf(store.rows, aggregateId)), factoryId);
              && (r.Some? <==> found.Some?)
              && (r.Some? ==> fresh(r.value) && r.value.kind == kind && r.value.Value() == found.value)
      ensures var log := ByVersion(LogOf(store.rows, aggregateId));
              if aggregateId !in store.snapshots then
                && (r.None? <==> log == [])
                && (r.Some? ==> r.value.id == factoryId && r.value.state == Replay(kind, kind.initial, log) && r.value.changes == []
                                && r.value.version == log[|log| - 1].version)
              else
                var snapshot := store.snapshots[aggregateId];
                var restored, events := kind.decode(snapshot.state), After(log, snapshot.version);
                && (r.None? <==> restored.None?)
                && (r.Some? ==>
                      && r.value.id == restored.value.id && r.value.changes == restored.value.changes
                      && r.value.state == Replay(kind, restored.value.state, events)
                      && r.value.version == if events == [] then restored.value.version else events[|events| - 1].version)
    {
      var snapshot := store.LoadSnapshot(aggregateId);
      var aggregate := new AggregateRoot(kind, factoryId);
      if snapshot.Some? {
        var restored := kind.decode(snapshot.value.state);
        if restored.None? {
          return None;
        }
        var a := restored.value;
        aggregate.id, aggregate.version, aggregate.changes, aggregate.state := a.id, a.version, a.changes, a.state;
        assert aggregate.Value() == a;
        var events := store.LoadFromVersion(aggregateId, snapshot.value.version);
        aggregate.LoadFromEvents(events);
      } else {
        var events := store.Load(aggregateId);
        if |events| == 0 {
          return None;
        }
        aggregate.LoadFromEvents(events);
      }
      r := Some(aggregate);
    }

    /** A snapshot that cannot be encoded or stored does not make the call fail. */
    method Save(aggregate: AggregateRoot<S>, newIds: int -> string, inserted: int -> bool, stored: bool) returns (ok: bool)
      requires aggregate.kind == kind
      modifies aggregate, store
      ensures var a := old(aggregate.Value());
              && (ok <==> a.changes == [] || (Continues(old(store.rows), a.changes) && forall i :: 0 <= i < |a.changes| ==> inserted(i)))
              && (ok && a.changes != [] ==>
                    && aggregate.Value() == a.(changes := [])
                    && store.rows == old(store.rows) + Stamped(a.changes, newIds)
                    && store.snapshots ==
                       var encoded := kind.encode(a.(changes := []));
                       if a.version % 10 == 0 && encoded.Some? && stored then
                         old(store.snapshots)[a.id := Snapshot(a.id, a.version, encoded.value)]
                       else old(store.snapshots))
              && (!ok || a.changes == [] ==>
                    aggregate.Value() == a && store.rows == old(store.rows) && store.snapshots == old(store.snapshots))
    {
      var changes := aggregate.changes;
      if |changes| == 0 {
        return true;
      }
      ok := store.Save(changes, newIds, inserted);
      if !ok {
        return;
      }
      aggregate.MarkChangesAsCommitted();
      if aggregate.version % 10 == 0 {
        var snapshot := SnapshotOf(kind, aggregate.Value());
        if snapshot.Some? {
          var _ := store.SaveSnapshot(snapshot.value, stored);
        }
      }
    }
  }
}
