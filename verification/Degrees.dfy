/** Counting how many connections arrive at each node. */
module Degrees {
  import opened Workflows
  import opened Graphs

  /** Looking up a missing key yields zero. */
  function Count(counts: map<Id, int>, v: Id): int {
    if v in counts then counts[v] else 0
  }

  ghost predicate CountsArrivals(counts: map<Id, int>, cs: seq<Connection>) {
    forall v :: Count(counts, v) == Arriving(cs, v, {})
  }

  /** Adds one for every occurrence of a target. */
  method AddTargets(counts: map<Id, int>, targets: seq<Id>) returns (r: map<Id, int>)
    ensures forall v :: Count(r, v) == Count(counts, v) + multiset(targets)[v]
    ensures r.Keys == counts.Keys + Elems(targets)
  {
    r := counts;
    for i := 0 to |targets|
      invariant forall v :: Count(r, v) == Count(counts, v) + multiset(targets[..i])[v]
      invariant r.Keys == counts.Keys + Elems(targets[..i])
    {
      assert targets[..i + 1] == targets[..i] + [targets[i]];
      r := r[targets[i] := Count(r, targets[i]) + 1];
    }
    assert targets[..|targets|] == targets;
  }

  /** What is still to be counted once the sources in `done` have been. */
  ghost predicate PartlyCounted(counts: map<Id, int>, initial: map<Id, int>, cs: seq<Connection>, done: set<Id>) {
    forall v :: Count(counts, v) + Arriving(cs, v, done) == Count(initial, v) + Arriving(cs, v, {})
  }

  lemma CountedOne(counts: map<Id, int>, next: map<Id, int>, initial: map<Id, int>, cs: seq<Connection>,
                   done: set<Id>, u: Id)
    requires PartlyCounted(counts, initial, cs, done) && u !in done
    requires forall v :: Count(next, v) == Count(counts, v) + multiset(Targets(cs, u))[v]
    ensures PartlyCounted(next, initial, cs, done + {u})
  {
    forall v
      ensures Count(next, v) + Arriving(cs, v, done + {u}) == Count(initial, v) + Arriving(cs, v, {})
    {
      ArrivingAfter(cs, v, done, u);
    }
  }

  ghost function TargetIds(cs: seq<Connection>): set<Id> {
    set c | c in cs :: c.target
  }

  ghost predicate KeysSoFar(keys: set<Id>, initial: set<Id>, cs: seq<Connection>, done: set<Id>) {
    forall v :: v in keys <==> v in initial || exists u :: u in done && Edge(cs, u, v)
  }

  lemma KeysOne(keys: set<Id>, initial: set<Id>, cs: seq<Connection>, done: set<Id>, u: Id)
    requires KeysSoFar(keys, initial, cs, done)
    ensures KeysSoFar(keys + Elems(Targets(cs, u)), initial, cs, done + {u})
  {
    forall v
      ensures v in Elems(Targets(cs, u)) <==> Edge(cs, u, v)
    {
      TargetsAreEdges(cs, u, v);
    }
  }

  /** The DAG counts arrivals by walking its adjacency map in an arbitrary order. */
  method CountFromEdges(edges: Adjacency, initial: map<Id, int>, ghost cs: seq<Connection>)
    returns (counts: map<Id, int>)
    requires Represents(edges, cs)
    ensures forall v :: Count(counts, v) == Count(initial, v) + Arriving(cs, v, {})
    ensures counts.Keys == initial.Keys + TargetIds(cs)
  {
    counts := initial;
    var rest := edges.Keys;
    ghost var done: set<Id> := {};
    while rest != {}
      invariant done == edges.Keys - rest && rest <= edges.Keys
      invariant PartlyCounted(counts, initial, cs, done)
      invariant KeysSoFar(counts.Keys, initial.Keys, cs, done)
    {
      var u :| u in rest;
      rest := rest - {u};
      KeysOne(counts.Keys, initial.Keys, cs, done, u);
      var next := AddTargets(counts, Out(edges, u));
      CountedOne(counts, next, initial, cs, done, u);
      counts, done := next, done + {u};
    }
    assert done == edges.Keys;
    AllCounted(counts, initial, edges, cs);
  }

  lemma AllCounted(counts: map<Id, int>, initial: map<Id, int>, edges: Adjacency, cs: seq<Connection>)
    requires Represents(edges, cs)
    requires PartlyCounted(counts, initial, cs, edges.Keys)
    requires KeysSoFar(counts.Keys, initial.Keys, cs, edges.Keys)
    ensures forall v :: Count(counts, v) == Count(initial, v) + Arriving(cs, v, {})
    ensures counts.Keys == initial.Keys + TargetIds(cs)
  {
    forall u, v | Edge(cs, u, v)
      ensures u in edges
    {
      TargetsAreEdges(cs, u, v);
    }
    forall v
      ensures Arriving(cs, v, edges.Keys) == 0
      ensures v in TargetIds(cs) <==> exists u :: Edge(cs, u, v)
    {
      ArrivingIsZero(cs, v, edges.Keys);
      if v in TargetIds(cs) {
        var c :| c in cs && c.target == v;
        assert Edge(cs, c.source, v);
      }
    }
  }

  /** The validator counts arrivals connection by connection. */
  method CountFromConnections(cs: seq<Connection>, initial: map<Id, int>) returns (counts: map<Id, int>)
    ensures forall v :: Count(counts, v) == Count(initial, v) + Arriving(cs, v, {})
    ensures counts.Keys == initial.Keys + TargetIds(cs)
  {
    counts := initial;
    for i := 0 to |cs|
      invariant forall v :: Count(counts, v) == Count(initial, v) + Arriving(cs[..i], v, {})
      invariant counts.Keys == initial.Keys + TargetIds(cs[..i])
    {
      assert cs[..i + 1][..i] == cs[..i] && cs[..i + 1] == cs[..i] + [cs[i]];
      counts := counts[cs[i].target := Count(counts, cs[i].target) + 1];
    }
    assert cs[..|cs|] == cs;
  }
}
