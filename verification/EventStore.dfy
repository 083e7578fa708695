/** The event store: a table of event rows and one snapshot per aggregate. Each transaction is one atomic step. */
module EventStore {
  import opened Options

  /** `body` stands for the type, payload, metadata, time and user of an event, which the store never reads. */
  datatype Event = Event(id: string, aggregateId: string, version: int, body: string)

  datatype Snapshot = Snapshot(aggregateId: string, version: int, state: string)

  /** The rows of one aggregate, in the order of insertion. */
  function LogOf(rows: seq<Event>, aggregateId: string): (log: seq<Event>)
    ensures forall i :: 0 <= i < |log| ==> log[i].aggregateId == aggregateId
  {
    if rows == [] then []
    else
      var before, row := LogOf(rows[..|rows| - 1], aggregateId), rows[|rows| - 1];
      if row.aggregateId == aggregateId then before + [row] else before
  }

  lemma {:induction false} LogOfConcat(rows: seq<Event>, more: seq<Event>, aggregateId: string)
    ensures LogOf(rows + more, aggregateId) == LogOf(rows, aggregateId) + LogOf(more, aggregateId)
  {
    if more == [] {
      assert rows + more == rows;
    } else {
      var n := |more| - 1;
      LogOfConcat(rows, more[..n], aggregateId);
      assert (rows + more)[..|rows + more| - 1] == rows + more[..n];
    }
  }

  /** All rows belong to the same aggregate, so its log is all of them and every other log is empty. */
  lemma {:induction false} LogOfOwn(rows: seq<Event>, owner: string, aggregateId: string)
    requires forall i :: 0 <= i < |rows| ==> rows[i].aggregateId == owner
    ensures LogOf(rows, aggregateId) == if aggregateId == owner then rows else []
  {
    if rows == [] {
    } else {
      LogOfOwn(rows[..|rows| - 1], owner, aggregateId);
    }
  }

  function MaxVersion(log: seq<Event>): (max: int)
    requires log != []
    ensures forall i :: 0 <= i < |log| ==> log[i].version <= max
    ensures exists i :: 0 <= i < |log| && log[i].version == max
  {
    var last := log[|log| - 1].version;
    if |log| == 1 then last
    else
      var before := MaxVersion(log[..|log| - 1]);
      if before > last then before else last
  }

  /** The largest version, or zero without rows. */
  function CurrentVersion(rows: seq<Event>, aggregateId: string): int {
    if LogOf(rows, aggregateId) == [] then 0 else MaxVersion(LogOf(rows, aggregateId))
  }

  /** The rows after a version. */
  function After(log: seq<Event>, version: int): seq<Event> {
    if log == [] then []
    else
      var before, row := After(log[..|log| - 1], version), log[|log| - 1];
      if row.version > version then before + [row] else before
  }

  /** The versions are 1, 2, 3 and so on without a gap. */
  ghost predicate Consecutive(log: seq<Event>) {
    forall i :: 0 <= i < |log| ==> log[i].version == i + 1
  }

  ghost predicate AllConsecutive(rows: seq<Event>) {
    forall id :: Consecutive(LogOf(rows, id))
  }

  lemma {:induction false} ConsecutiveMax(log: seq<Event>)
    requires Consecutive(log) && log != []
    ensures MaxVersion(log) == |log|
  {
    if |log| == 1 {
    } else {
      ConsecutiveMax(log[..|log| - 1]);
    }
  }

  lemma CurrentIsLength(rows: seq<Event>, aggregateId: string)
    requires Consecutive(LogOf(rows, aggregateId))
    ensures CurrentVersion(rows, aggregateId) == |LogOf(rows, aggregateId)|
  {
    if LogOf(rows, aggregateId) != [] {
      ConsecutiveMax(LogOf(rows, aggregateId));
    }
  }

  lemma {:induction false} AfterIsSuffix(log: seq<Event>, version: nat)
    requires Consecutive(log)
    ensures After(log, version) == if version <= |log| then log[version..] else []
  {
    if log == [] {
    } else {
      var n := |log| - 1;
      assert log[n].version == n + 1;
      AfterIsSuffix(log[..n], version);
      if version <= n {
        SuffixOfInit(log, version);
      }
    }
  }

  lemma SuffixOfInit<T>(s: seq<T>, i: nat)
    requires i < |s|
    ensures s[i..] == s[..|s| - 1][i..] + [s[|s| - 1]]
  {
  }

  ghost predicate Rising(rows: seq<Event>) {
    forall i, j :: 0 <= i < j < |rows| ==> rows[i].version <= rows[j].version
  }

  lemma RisingPrefix(rows: seq<Event>, n: nat)
    requires n <= |rows|
    ensures Rising(rows) ==> Rising(rows[..n])
    ensures Consecutive(rows) ==> Consecutive(rows[..n])
  {
  }

  /** Ordering by version is no choice: the log is the only arrangement of its rows with rising versions. */
  lemma {:induction false} OrderIsForced(log: seq<Event>, rows: seq<Event>)
    requires Consecutive(log) && multiset(rows) == multiset(log)
    requires Rising(rows)
    ensures rows == log
  {
    SameLength(log, rows);
    if rows == [] {
    } else {
      var n := |log| - 1;
      LastIsForced(log, rows);
      var l, r, x := log[..n], rows[..n], log[n];
      assert log == l + [x] && rows == r + [x];
      SameInit(l, r, x);
      RisingPrefix(rows, n);
      RisingPrefix(log, n);
      OrderIsForced(l, r);
    }
  }

  lemma SameLength<T>(a: seq<T>, b: seq<T>)
    requires multiset(a) == multiset(b)
    ensures |a| == |b|
  {
    assert |multiset(a)| == |a| && |multiset(b)| == |b|;
  }

  lemma SameInit<T>(a: seq<T>, b: seq<T>, x: T)
    requires multiset(a + [x]) == multiset(b + [x])
    ensures multiset(a) == multiset(b)
  {
    assert multiset(a) == multiset(a + [x]) - multiset{x};
    assert multiset(b) == multiset(b + [x]) - multiset{x};
  }

  lemma LastIsForced(log: seq<Event>, rows: seq<Event>)
    requires Consecutive(log) && multiset(rows) == multiset(log) && |rows| == |log| > 0
    requires Rising(rows)
    ensures rows[|rows| - 1] == log[|log| - 1]
  {
    var n := |log| - 1;
    assert log[n] in multiset(rows) && rows[n] in multiset(log);
    var i :| 0 <= i < |rows| && rows[i] == log[n];
    var j :| 0 <= j < |log| && log[j] == rows[n];
    assert rows[i].version <= rows[n].version;
  }

  // Reading rows in the order of their versions.

  /** Puts a row behind the rows with the same or a smaller version. */
  function Inserted(sorted: seq<Event>, row: Event): seq<Event> {
    var n := |sorted| - 1;
    if n < 0 || sorted[n].version <= row.version then sorted + [row]
    else Inserted(sorted[..n], row) + [sorted[n]]
  }

  function ByVersion(rows: seq<Event>): seq<Event> {
    if rows == [] then [] else Inserted(ByVersion(rows[..|rows| - 1]), rows[|rows| - 1])
  }

  ghost predicate UpTo(rows: seq<Event>, version: int) {
    forall i :: 0 <= i < |rows| ==> rows[i].version <= version
  }

  lemma {:induction false} InsertedSorts(sorted: seq<Event>, row: Event)
    requires Rising(sorted)
    ensures Rising(Inserted(sorted, row)) && multiset(Inserted(sorted, row)) == multiset(sorted) + multiset{row}
  {
    var n := |sorted| - 1;
    if n < 0 || sorted[n].version <= row.version {
      RisingAppend(sorted, row);
    } else {
      RisingPrefix(sorted, n);
      InsertedSorts(sorted[..n], row);
      InsertedUpTo(sorted[..n], row, sorted[n].version);
      RisingAppend(Inserted(sorted[..n], row), sorted[n]);
      assert sorted == sorted[..n] + [sorted[n]];
    }
  }

  lemma RisingAppend(sorted: seq<Event>, row: Event)
    requires Rising(sorted) && (sorted == [] || sorted[|sorted| - 1].version <= row.version || UpTo(sorted, row.version))
    ensures Rising(sorted + [row])
  {
  }

  lemma {:induction false} InsertedUpTo(sorted: seq<Event>, row: Event, version: int)
    requires UpTo(sorted, version) && row.version <= version
    ensures UpTo(Inserted(sorted, row), version)
  {
    var n := |sorted| - 1;
    if n < 0 || sorted[n].version <= row.version {
    } else {
      InsertedUpTo(sorted[..n], row, version);
    }
  }

  /** The query returns the rows themselves, by rising version. */
  lemma {:induction false} ByVersionSorts(rows: seq<Event>)
    ensures Rising(ByVersion(rows)) && multiset(ByVersion(rows)) == multiset(rows)
  {
    if rows == [] {
    } else {
      var n := |rows| - 1;
      ByVersionSorts(rows[..n]);
      InsertedSorts(ByVersion(rows[..n]), rows[n]);
      assert rows == rows[..n] + [rows[n]];
    }
  }

  /** A log without gaps is read in the order in which it was written. */
  lemma ReadAsWritten(log: seq<Event>)
    requires Consecutive(log)
    ensures ByVersion(log) == log
  {
    ByVersionSorts(log);
    OrderIsForced(log, ByVersion(log));
  }

  /** `events` holds the rows of the aggregate, each as often as the table and by rising version. */
  ghost predicate Reads(rows: seq<Event>, aggregateId: string, events: seq<Event>) {
    Rising(events) && forall e :: multiset(events)[e] == if e.aggregateId == aggregateId then multiset(rows)[e] else 0
  }

  /** The same for the rows after a version. */
  ghost predicate ReadsAfter(rows: seq<Event>, aggregateId: string, version: int, events: seq<Event>) {
    && Rising(events)
    && forall e :: multiset(events)[e] == if e.aggregateId == aggregateId && e.version > version then multiset(rows)[e] else 0
  }

  lemma {:induction false} LogCount(rows: seq<Event>, aggregateId: string, e: Event)
    ensures multiset(LogOf(rows, aggregateId))[e] == if e.aggregateId == aggregateId then multiset(rows)[e] else 0
  {
    if rows == [] {
    } else {
      var n := |rows| - 1;
      LogCount(rows[..n], aggregateId, e);
      assert rows == rows[..n] + [rows[n]];
    }
  }

  lemma {:induction false} AfterCount(log: seq<Event>, version: int, e: Event)
    ensures multiset(After(log, version))[e] == if e.version > version then multiset(log)[e] else 0
  {
    if log == [] {
    } else {
      var n := |log| - 1;
      AfterCount(log[..n], version, e);
      assert log == log[..n] + [log[n]];
    }
  }

  lemma {:induction false} AfterRises(log: seq<Event>, version: int, max: int)
    requires Rising(log) && UpTo(log, max)
    ensures Rising(After(log, version)) && UpTo(After(log, version), max)
  {
    if log == [] {
    } else {
      var n := |log| - 1;
      RisingPrefix(log, n);
      AfterRises(log[..n], version, log[n].version);
      RisingAppend(After(log[..n], version), log[n]);
    }
  }

  lemma LoadReads(rows: seq<Event>, aggregateId: string)
    ensures Reads(rows, aggregateId, ByVersion(LogOf(rows, aggregateId)))
  {
    ByVersionSorts(LogOf(rows, aggregateId));
    forall e
      ensures multiset(LogOf(rows, aggregateId))[e] == if e.aggregateId == aggregateId then multiset(rows)[e] else 0
    {
      LogCount(rows, aggregateId, e);
    }
  }

  lemma LoadReadsAfter(rows: seq<Event>, aggregateId: string, version: int)
    ensures ReadsAfter(rows, aggregateId, version, After(ByVersion(LogOf(rows, aggregateId)), version))
  {
    LoadReads(rows, aggregateId);
    RestReads(rows, aggregateId, version, ByVersion(LogOf(rows, aggregateId)));
  }

  lemma RestReads(rows: seq<Event>, aggregateId: string, version: int, log: seq<Event>)
    requires Reads(rows, aggregateId, log)
    ensures ReadsAfter(rows, aggregateId, version, After(log, version))
  {
    var events := After(log, version);
    RestRises(log, version);
    forall e: Event
      ensures multiset(events)[e] == if e.aggregateId == aggregateId && e.version > version then multiset(rows)[e] else 0
    {
      AfterCount(log, version, e);
    }
  }

  lemma RestRises(log: seq<Event>, version: int)
    requires Rising(log)
    ensures Rising(After(log, version))
  {
    if log != [] {
      AfterRises(log, version, log[|log| - 1].version);
    }
  }

  // Saving events.

  /** The row that is inserted for an event: an identifier is added if there is none. */
  function Stamp(e: Event, newId: string): Event {
    if e.id == "" then e.(id := newId) else e
  }

  function Stamped(events: seq<Event>, newIds: int -> string): (rows: seq<Event>)
    ensures |rows| == |events|
    ensures forall i :: 0 <= i < |events| ==> rows[i] == Stamp(events[i], newIds(i))
  {
    seq(|events|, i requires 0 <= i < |events| => Stamp(events[i], newIds(i)))
  }

  /** The versions of the events continue those of the first event's aggregate. */
  ghost predicate Continues(rows: seq<Event>, events: seq<Event>) {
    events != [] ==>
      forall i :: 0 <= i < |events| ==> events[i].version == CurrentVersion(rows, events[0].aggregateId) + 1 + i
  }

  method RowsAfter(log: seq<Event>, version: int) returns (events: seq<Event>)
    ensures events == After(log, version)
  {
    events := [];
    for i := 0 to |log|
      invariant events == After(log[..i], version)
    {
      assert log[..i + 1][..i] == log[..i];
      if log[i].version > version {
        events := events + [log[i]];
      }
    }
    assert log[..|log|] == log;
  }

  class EventTable {
    var rows: seq<Event>
    var snapshots: map<string, Snapshot>

    constructor ()
      ensures rows == [] && snapshots == map[]
    {
      rows, snapshots := [], map[];
    }

    /** One transaction: all events are inserted or none. `inserted` says which inserts the database accepts. */
    method Save(events: seq<Event>, newIds: int -> string, inserted: int -> bool) returns (ok: bool)
      modifies this`rows
      ensures ok <==> Continues(old(rows), events) && forall i :: 0 <= i < |events| ==> inserted(i)
      ensures rows == if ok then old(rows) + Stamped(events, newIds) else old(rows)
      ensures ok ==> |rows| == |old(rows)| + |events| && forall i :: 0 <= i < |events| ==>
                       rows[|old(rows)| + i] == events[i].(id := if events[i].id != "" then events[i].id else newIds(i))
    {
      if |events| == 0 {
        assert rows == rows + Stamped(events, newIds);
        return true;
      }
      var expected := CurrentVersion(rows, events[0].aggregateId);
      var created: seq<Event> := [];
      for i := 0 to |events|
        invariant expected == CurrentVersion(rows, events[0].aggregateId) + i
        invariant forall k :: 0 <= k < i ==> events[k].version == CurrentVersion(rows, events[0].aggregateId) + 1 + k && inserted(k)
        invariant created == Stamped(events, newIds)[..i]
      {
        expected := expected + 1;
        if events[i].version != expected {
          return false;
        }
        if !inserted(i) {
          return false;
        }
        created := created + [Stamp(events[i], newIds(i))];
      }
      rows := rows + created;
      ok := true;
    }

    method Load(aggregateId: string) returns (events: seq<Event>)
      ensures events == ByVersion(LogOf(rows, aggregateId))
      ensures Reads(rows, aggregateId, events)
    {
      LoadReads(rows, aggregateId);
      events := [];
      for i := 0 to |rows|
        invariant events == ByVersion(LogOf(rows[..i], aggregateId))
      {
        assert rows[..i + 1][..i] == rows[..i];
        if rows[i].aggregateId == aggregateId {
          assert LogOf(rows[..i + 1], aggregateId) == LogOf(rows[..i], aggregateId) + [rows[i]];
          events := Inserted(events, rows[i]);
        }
      }
      assert rows[..|rows|] == rows;
    }

    method LoadFromVersion(aggregateId: string, version: int) returns (events: seq<Event>)
      ensures events == After(ByVersion(LogOf(rows, aggregateId)), version)
      ensures ReadsAfter(rows, aggregateId, version, events)
    {
      var log := Load(aggregateId);
      events := RowsAfter(log, version);
      LoadReadsAfter(rows, aggregateId, version);
    }

    method LoadSnapshot(aggregateId: string) returns (snapshot: Option<Snapshot>)
      ensures snapshot == if aggregateId in snapshots then Some(snapshots[aggregateId]) else None
    {
      snapshot := if aggregateId in snapshots then Some(snapshots[aggregateId]) else None;
    }

    /** Replaces whatever snapshot the aggregate had, or rolls back. */
    method SaveSnapshot(snapshot: Snapshot, created: bool) returns (ok: bool)
      modifies this`snapshots
      ensures ok == created
      ensures snapshots == if created then old(snapshots)[snapshot.aggregateId := snapshot] else old(snapshots)
    {
      var before := snapshots;
      snapshots := snapshots - {snapshot.aggregateId};
      if !created {
        snapshots := before;
        return false;
      }
      snapshots := snapshots[snapshot.aggregateId := snapshot];
      ok := true;
    }
  }
}
