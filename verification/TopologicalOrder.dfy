/** Kahn's topological sort, which the repository contains twice: in the DAG and in the validator. */
module TopologicalOrder {
  import opened Workflows
  import opened Graphs
  import opened CycleCheck
  import opened Degrees
  import opened Dags

  datatype Order = Sorted(ids: seq<Id>) | Cyclic

  /** The nodes that get an in-degree: the declared ones and the target of every connection. */
  ghost function Keys(declared: set<Id>, cs: seq<Connection>): set<Id> {
    declared + TargetIds(cs)
  }

  /** No path into `v` repeats a node or comes from outside `keys`. */
  ghost predicate Rooted(cs: seq<Connection>, keys: set<Id>, v: Id) {
    && v in keys
    && forall p :: IsPath(cs, p) && Last(p) == v ==> Distinct(p) && Elems(p) <= keys
  }

  /** What the sort can order, in any workflow. */
  ghost function RootedIds(declared: set<Id>, cs: seq<Connection>): set<Id> {
    set v | v in Keys(declared, cs) && Rooted(cs, Keys(declared, cs), v)
  }

  /** Every connection into a listed node comes from a node listed earlier. */
  ghost predicate Forward(cs: seq<Connection>, ids: seq<Id>) {
    forall u, i {:trigger Edge(cs, u, ids[i])} :: 0 <= i < |ids| && Edge(cs, u, ids[i]) ==> u in ids[..i]
  }

  ghost predicate TopologicallySorted(declared: set<Id>, cs: seq<Connection>, ids: seq<Id>) {
    Distinct(ids) && Elems(ids) == RootedIds(declared, cs) && Forward(cs, ids)
  }

  // The loop's invariant.

  ghost predicate Sorting(cs: seq<Connection>, keys: set<Id>, inDegree: map<Id, int>, queue: seq<Id>, result: seq<Id>) {
    && inDegree.Keys == keys
    && (forall v :: v in keys ==> inDegree[v] == Arriving(cs, v, Elems(result)))
    && Distinct(result + queue)
    && (forall v :: v in result + queue <==> v in keys && Arriving(cs, v, Elems(result)) == 0)
    && Forward(cs, result)
  }

  /** How the inner loop changes the degrees: one less for every occurrence of a neighbor. */
  ghost predicate Lowered(inDegree: map<Id, int>, lowered: map<Id, int>, neighbors: seq<Id>) {
    && lowered.Keys == inDegree.Keys
    && forall v :: v in inDegree ==> lowered[v] == inDegree[v] - multiset(neighbors)[v]
  }

  /** The neighbors whose degree drops to zero. */
  ghost predicate Freed(inDegree: map<Id, int>, neighbors: seq<Id>, freed: seq<Id>) {
    && Distinct(freed)
    && forall v :: v in freed <==> v in neighbors && v in inDegree && inDegree[v] == multiset(neighbors)[v]
  }

  method LowerDegrees(neighbors: seq<Id>, inDegree: map<Id, int>, queue: seq<Id>)
    returns (lowered: map<Id, int>, queue': seq<Id>, ghost freed: seq<Id>)
    requires Elems(neighbors) <= inDegree.Keys
    requires forall v :: v in neighbors ==> multiset(neighbors)[v] <= inDegree[v]
    ensures Lowered(inDegree, lowered, neighbors)
    ensures queue' == queue + freed && Freed(inDegree, neighbors, freed)
  {
    lowered, queue', freed := inDegree, queue, [];
    for i := 0 to |neighbors|
      invariant Lowered(inDegree, lowered, neighbors[..i])
      invariant queue' == queue + freed && Freed(inDegree, neighbors[..i], freed)
    {
      var v := neighbors[i];
      assert v in Elems(neighbors);
      LoweredNext(inDegree, lowered, neighbors, i);
      lowered := lowered[v := lowered[v] - 1];
      FreedNext(inDegree, neighbors, i, freed);
      if lowered[v] == 0 {
        queue' := queue' + [v];
        freed := freed + [v];
      }
    }
    assert neighbors[..|neighbors|] == neighbors;
  }

  lemma PrefixCounts(s: seq<Id>, i: nat, x: Id)
    requires i < |s|
    ensures multiset(s[..i + 1])[x] == multiset(s[..i])[x] + (if s[i] == x then 1 else 0)
    ensures multiset(s[..i + 1])[x] <= multiset(s)[x]
    ensures x in s[..i + 1] <==> x in s[..i] || x == s[i]
  {
    assert s[..i + 1] == s[..i] + [s[i]];
    assert s == s[..i + 1] + s[i + 1..];
  }

  lemma LoweredNext(inDegree: map<Id, int>, lowered: map<Id, int>, neighbors: seq<Id>, i: nat)
    requires i < |neighbors| && neighbors[i] in inDegree && Lowered(inDegree, lowered, neighbors[..i])
    ensures Lowered(inDegree, lowered[neighbors[i] := lowered[neighbors[i]] - 1], neighbors[..i + 1])
  {
    var after := lowered[neighbors[i] := lowered[neighbors[i]] - 1];
    forall x | x in inDegree
      ensures after[x] == inDegree[x] - multiset(neighbors[..i + 1])[x]
    {
      PrefixCounts(neighbors, i, x);
    }
  }

  lemma FreedNext(inDegree: map<Id, int>, neighbors: seq<Id>, i: nat, freed: seq<Id>)
    requires i < |neighbors| && Elems(neighbors) <= inDegree.Keys
    requires forall v :: v in neighbors ==> multiset(neighbors)[v] <= inDegree[v]
    requires Freed(inDegree, neighbors[..i], freed)
    ensures neighbors[i] in inDegree
    ensures Freed(inDegree, neighbors[..i + 1],
                  if inDegree[neighbors[i]] == multiset(neighbors[..i + 1])[neighbors[i]] then freed + [neighbors[i]] else freed)
  {
    var v := neighbors[i];
    assert v in Elems(neighbors);
    ElemsAppend(freed, v);
    PrefixCounts(neighbors, i, v);
    forall x
      ensures multiset(neighbors[..i + 1])[x] == multiset(neighbors[..i])[x] + (if v == x then 1 else 0)
      ensures x in neighbors[..i + 1] <==> x in neighbors[..i] || x == v
    {
      PrefixCounts(neighbors, i, x);
    }
  }

  /** Enough degree is left for every connection that leaves the next node. */
  lemma DegreesSuffice(cs: seq<Connection>, keys: set<Id>, inDegree: map<Id, int>, queue: seq<Id>, result: seq<Id>)
    requires Sorting(cs, keys, inDegree, queue, result) && queue != [] && TargetIds(cs) <= keys
    ensures Elems(Targets(cs, queue[0])) <= keys
    ensures forall v :: v in Targets(cs, queue[0]) ==> multiset(Targets(cs, queue[0]))[v] <= inDegree[v]
  {
    CurrentIsNew(queue, result);
    forall v | v in Targets(cs, queue[0])
      ensures v in keys && multiset(Targets(cs, queue[0]))[v] <= inDegree[v]
    {
      TargetsAreEdges(cs, queue[0], v);
      assert Connection(queue[0], v) in cs;
      ArrivingAfter(cs, v, Elems(result), queue[0]);
    }
  }

  lemma CurrentIsNew(queue: seq<Id>, result: seq<Id>)
    requires queue != [] && Distinct(result + queue)
    ensures queue[0] !in result
  {
    forall i | 0 <= i < |result|
      ensures result[i] != queue[0]
    {
      assert (result + queue)[i] != (result + queue)[|result|];
    }
  }

  lemma ForwardNext(cs: seq<Connection>, keys: set<Id>, inDegree: map<Id, int>, queue: seq<Id>, result: seq<Id>)
    requires Sorting(cs, keys, inDegree, queue, result) && queue != []
    ensures Forward(cs, result + [queue[0]])
  {
    var next := result + [queue[0]];
    forall u, i | 0 <= i < |next| && Edge(cs, u, next[i])
      ensures u in next[..i]
    {
      if i < |result| {
        assert next[..i] == result[..i];
        assert Edge(cs, u, result[i]);
      } else {
        assert next[..i] == result;
        assert queue[0] in result + queue;
        ArrivingIsZero(cs, queue[0], Elems(result));
      }
    }
  }

  /** The nodes without remaining arrivals are exactly the old ones and those just freed. */
  lemma ReadyNext(cs: seq<Connection>, keys: set<Id>, inDegree: map<Id, int>, queue: seq<Id>, result: seq<Id>,
                  freed: seq<Id>, v: Id)
    requires Sorting(cs, keys, inDegree, queue, result) && queue != [] && TargetIds(cs) <= keys
    requires Freed(inDegree, Targets(cs, queue[0]), freed)
    ensures v in keys ==>
              (Arriving(cs, v, Elems(result) + {queue[0]}) == 0 <==> Arriving(cs, v, Elems(result)) == 0 || v in freed)
    ensures v in freed ==> v in keys && v !in result + queue
  {
    CurrentIsNew(queue, result);
    ArrivingAfter(cs, v, Elems(result), queue[0]);
    assert v in Targets(cs, queue[0]) <==> multiset(Targets(cs, queue[0]))[v] > 0;
  }

  lemma DistinctNext(result: seq<Id>, queue: seq<Id>, freed: seq<Id>)
    requires queue != [] && Distinct(result + queue) && Distinct(freed)
    requires forall v :: v in freed ==> v !in result + queue
    ensures Distinct(result + [queue[0]] + (queue[1..] + freed))
    ensures forall v :: v in result + [queue[0]] + (queue[1..] + freed) <==> v in result + queue || v in freed
  {
    var before := result + queue;
    assert result + [queue[0]] + (queue[1..] + freed) == before + freed;
    forall i, j | 0 <= i < j < |before + freed|
      ensures (before + freed)[i] != (before + freed)[j]
    {
      if i < |before| <= j {
        assert freed[j - |before|] in freed && before[i] in before;
      }
    }
  }

  lemma SortingNext(cs: seq<Connection>, keys: set<Id>, inDegree: map<Id, int>, queue: seq<Id>, result: seq<Id>,
                    lowered: map<Id, int>, freed: seq<Id>)
    requires Sorting(cs, keys, inDegree, queue, result) && queue != [] && TargetIds(cs) <= keys
    requires Lowered(inDegree, lowered, Targets(cs, queue[0])) && Freed(inDegree, Targets(cs, queue[0]), freed)
    ensures Sorting(cs, keys, lowered, queue[1..] + freed, result + [queue[0]])
  {
    var done := Elems(result);
    ElemsAppend(result, queue[0]);
    CurrentIsNew(queue, result);
    ForwardNext(cs, keys, inDegree, queue, result);
    forall v
      ensures v in keys ==> lowered[v] == Arriving(cs, v, done + {queue[0]})
    {
      ArrivingAfter(cs, v, done, queue[0]);
    }
    forall v
      ensures v in result + queue || v in freed <==> v in keys && Arriving(cs, v, done + {queue[0]}) == 0
      ensures v in freed ==> v !in result + queue
    {
      ReadyNext(cs, keys, inDegree, queue, result, freed, v);
    }
    DistinctNext(result, queue, freed);
  }

  // What the finished loop has sorted.

  lemma {:induction false} PathInOrder(cs: seq<Connection>, ids: seq<Id>, p: seq<Id>, i: nat)
    requires Forward(cs, ids) && Distinct(ids) && IsPath(cs, p) && i < |ids| && Last(p) == ids[i]
    ensures Distinct(p) && Elems(p) <= Elems(ids[..i + 1])
    decreases |p|
  {
    if |p| < 2 {
    } else {
      var n := |p| - 1;
      assert Joined(cs, p, n - 1);
      assert Edge(cs, p[n - 1], ids[i]);
      var j :| 0 <= j < i && ids[j] == p[n - 1];
      Slice(cs, p, 0, n);
      PathInOrder(cs, ids, p[..n], j);
      assert p == p[..n] + [ids[i]];
      ElemsAppend(p[..n], ids[i]);
      assert ids[i] !in Elems(ids[..j + 1]);
      assert Elems(ids[..j + 1]) <= Elems(ids[..i + 1]);
    }
  }

  lemma SortedIsRooted(cs: seq<Connection>, keys: set<Id>, ids: seq<Id>, v: Id)
    requires Forward(cs, ids) && Distinct(ids) && Elems(ids) <= keys && v in ids
    ensures Rooted(cs, keys, v)
  {
    assert v in Elems(ids);
    var i :| 0 <= i < |ids| && ids[i] == v;
    forall p | IsPath(cs, p) && Last(p) == v
      ensures Distinct(p) && Elems(p) <= keys
    {
      PathInOrder(cs, ids, p, i);
    }
  }

  /** A predecessor of a rooted node is rooted. */
  lemma RootedBack(cs: seq<Connection>, keys: set<Id>, u: Id, v: Id)
    requires Rooted(cs, keys, v) && Edge(cs, u, v)
    ensures Rooted(cs, keys, u)
  {
    forall p | IsPath(cs, p) && Last(p) == u
      ensures Distinct(p) && Elems(p) <= keys
    {
      Extend(cs, p, v);
      ElemsAppend(p, v);
      assert Elems(p) <= Elems(p + [v]);
    }
    assert IsPath(cs, [u]) && Last([u]) == u && u in Elems([u]);
  }

  lemma RootedIsSorted(cs: seq<Connection>, keys: set<Id>, ids: seq<Id>, v: Id)
    requires forall x :: x in keys && x !in ids ==> Arriving(cs, x, Elems(ids)) != 0
    requires Rooted(cs, keys, v)
    ensures v in ids
  {
    var left := set x | x in keys && x !in ids && Rooted(cs, keys, x);
    if v in left {
      forall x | x in left
        ensures PredecessorIn(cs, left, x)
      {
        ArrivingIsZero(cs, x, Elems(ids));
        var u :| Edge(cs, u, x) && u !in Elems(ids);
        RootedBack(cs, keys, u, x);
      }
      var p := WalkBack(cs, left, v, |left| + 1);
      Pigeonhole(p, left);
    }
  }

  lemma SortedAll(declared: set<Id>, cs: seq<Connection>, inDegree: map<Id, int>, result: seq<Id>)
    requires Sorting(cs, Keys(declared, cs), inDegree, [], result)
    ensures TopologicallySorted(declared, cs, result)
  {
    assert result + [] == result;
    assert Elems(result) <= Keys(declared, cs);
    forall v
      ensures v in result <==> v in RootedIds(declared, cs)
    {
      if v in result {
        SortedIsRooted(cs, Keys(declared, cs), result, v);
      }
      if v in RootedIds(declared, cs) {
        RootedIsSorted(cs, Keys(declared, cs), result, v);
      }
    }
  }

  /** The loop that both copies share, from the counted degrees on. */
  method SortByDegree(edges: Adjacency, counts: map<Id, int>, nodeCount: nat, ghost declared: set<Id>, ghost cs: seq<Connection>)
    returns (r: Order)
    requires Represents(edges, cs)
    requires counts.Keys == Keys(declared, cs) && forall v :: v in counts ==> counts[v] == Arriving(cs, v, {})
    ensures r.Sorted? ==> TopologicallySorted(declared, cs, r.ids)
    ensures r.Sorted? <==> |RootedIds(declared, cs)| == nodeCount
  {
    var inDegree := counts;
    var queue := CollectZeros(counts);
    var result: seq<Id> := [];
    SortingStarts(cs, Keys(declared, cs), inDegree, queue);
    ghost var open := Keys(declared, cs);
    while queue != []
      invariant Sorting(cs, Keys(declared, cs), inDegree, queue, result)
      invariant open == Keys(declared, cs) - Elems(result)
      decreases open
    {
      var current := queue[0];
      DegreesSuffice(cs, Keys(declared, cs), inDegree, queue, result);
      var lowered, queue', freed := LowerDegrees(Out(edges, current), inDegree, queue[1..]);
      SortingNext(cs, Keys(declared, cs), inDegree, queue, result, lowered, freed);
      CurrentIsNew(queue, result);
      ElemsAppend(result, current);
      assert current in result + queue;
      open := open - {current};
      inDegree, queue, result := lowered, queue', result + [current];
    }
    SortedAll(declared, cs, inDegree, result);
    DistinctSize(result);
    if |result| != nodeCount {
      return Cyclic;
    }
    r := Sorted(result);
  }

  lemma {:induction false} DistinctSize<T>(s: seq<T>)
    requires Distinct(s)
    ensures |Elems(s)| == |s|
  {
    if s == [] {
      assert Elems(s) == {};
    } else {
      var n := |s| - 1;
      assert s == s[..n] + [s[n]];
      ElemsAppend(s[..n], s[n]);
      DistinctSize(s[..n]);
    }
  }

  lemma SortingStarts(cs: seq<Connection>, keys: set<Id>, inDegree: map<Id, int>, queue: seq<Id>)
    requires inDegree.Keys == keys && forall v :: v in keys ==> inDegree[v] == Arriving(cs, v, {})
    requires Distinct(queue) && forall v :: v in queue <==> v in inDegree && inDegree[v] == 0
    ensures Sorting(cs, keys, inDegree, queue, [])
  {
    assert [] + queue == queue;
    assert Elems<Id>([]) == {};
  }

  method CollectZeros(counts: map<Id, int>) returns (zeros: seq<Id>)
    ensures Distinct(zeros) && forall v :: v in zeros <==> v in counts && counts[v] == 0
  {
    zeros := [];
    var rest := counts.Keys;
    while rest != {}
      invariant rest <= counts.Keys && Distinct(zeros)
      invariant forall v :: v in zeros <==> v in counts.Keys - rest && counts[v] == 0
    {
      var v :| v in rest;
      rest := rest - {v};
      if counts[v] == 0 {
        zeros := zeros + [v];
      }
    }
  }

  method GetTopologicalOrder(d: Dag) returns (r: Order)
    requires d.Valid()
    ensures r.Sorted? ==> TopologicallySorted(d.workflow.Declared(), d.workflow.connections, r.ids)
    ensures r.Sorted? <==> |RootedIds(d.workflow.Declared(), d.workflow.connections)| == |d.workflow.Declared()|
    ensures d.workflow.Closed() ==>
              && (r.Sorted? <==> !CycleFrom(d.workflow.connections, d.workflow.Declared()))
              && (r.Sorted? ==> Elems(r.ids) == d.workflow.Declared())
    ensures TargetIds(d.workflow.connections) <= d.workflow.Declared() ==>
              && (r.Sorted? <==> d.workflow.Closed() && Acyclic(d.workflow.connections))
              && (r.Sorted? ==> Elems(r.ids) == d.workflow.Declared())
    ensures r.Sorted? && Elems(r.ids) != d.workflow.Declared() <==> Substitutes(d.workflow)
  {
    var zeros := map v | v in d.nodes :: 0;
    var counts := CountFromEdges(d.edges, zeros, d.workflow.connections);
    assert forall v :: v in counts ==> counts[v] == Count(counts, v);
    r := SortByDegree(d.edges, counts, |d.nodes|, d.workflow.Declared(), d.workflow.connections);
    assert |d.nodes| == |d.nodes.Keys|;
    if d.workflow.Closed() {
      ClosedSorts(d.workflow);
    }
    if TargetIds(d.workflow.connections) <= d.workflow.Declared() {
      TargetsSort(d.workflow);
    }
    MissortsExactly(d.workflow);
  }

  /** Undeclared nodes stand in for declared ones that cannot be ordered, equally many and at least one. */
  ghost predicate Substitutes(w: Workflow) {
    var declared, sorted := w.Declared(), RootedIds(w.Declared(), w.connections);
    |sorted - declared| == |declared - sorted| && sorted - declared != {}
  }

  /** When all targets are declared, the sort succeeds exactly if all sources are, too, and there is no cycle. */
  lemma TargetsSort(w: Workflow)
    requires TargetIds(w.connections) <= w.Declared()
    ensures |RootedIds(w.Declared(), w.connections)| == |w.Declared()| <==> w.Closed() && Acyclic(w.connections)
    ensures |RootedIds(w.Declared(), w.connections)| == |w.Declared()| ==> RootedIds(w.Declared(), w.connections) == w.Declared()
  {
    var cs, declared := w.connections, w.Declared();
    var rooted := RootedIds(declared, cs);
    assert Keys(declared, cs) == declared;
    if |rooted| == |declared| {
      SameSize(rooted, declared);
      forall c | c in cs
        ensures c.source in declared && c.target in declared
      {
        assert c.target in TargetIds(cs) && Edge(cs, c.source, c.target) && Rooted(cs, declared, c.target);
        assert Joined(cs, [c.source, c.target], 0);
        assert IsPath(cs, [c.source, c.target]) && c.source in Elems([c.source, c.target]);
      }
    }
    if w.Closed() {
      ClosedSorts(w);
      NoCycleAcyclic(cs, declared);
    }
  }

  /** On a closed workflow the sort succeeds exactly when there is no cycle, and then orders every node. */
  lemma ClosedSorts(w: Workflow)
    requires w.Closed()
    ensures |RootedIds(w.Declared(), w.connections)| == |w.Declared()| <==> !CycleFrom(w.connections, w.Declared())
    ensures |RootedIds(w.Declared(), w.connections)| == |w.Declared()| ==>
              RootedIds(w.Declared(), w.connections) == w.Declared()
  {
    var cs, declared := w.connections, w.Declared();
    assert Keys(declared, cs) == declared;
    var rooted := RootedIds(declared, cs);
    assert rooted <= declared;
    NoCycleAcyclic(cs, declared);
    if |rooted| == |declared| {
      SameSize(rooted, declared);
      RootedNoCycle(cs, declared);
    }
    if Acyclic(cs) {
      forall v | v in declared
        ensures v in rooted
      {
        ClosedIsRooted(w, v);
      }
      assert rooted == declared;
    }
  }

  lemma SameSize<T>(a: set<T>, b: set<T>)
    requires a <= b && |a| == |b|
    ensures a == b
  {
    if x :| x in b && x !in a {
      SubsetSize(a, b - {x});
    }
  }

  lemma RootedNoCycle(cs: seq<Connection>, keys: set<Id>)
    requires forall v :: v in keys ==> Rooted(cs, keys, v)
    requires forall u, v {:trigger Edge(cs, u, v)} :: Edge(cs, u, v) ==> v in keys
    ensures Acyclic(cs)
  {
    forall p | IsPath(cs, p) && |p| >= 2
      ensures p[0] != Last(p)
    {
      assert Joined(cs, p, |p| - 2);
      assert Rooted(cs, keys, Last(p));
    }
  }

  lemma ClosedIsRooted(w: Workflow, v: Id)
    requires w.Closed() && Acyclic(w.connections) && v in w.Declared()
    ensures Rooted(w.connections, w.Declared(), v)
  {
    forall p | IsPath(w.connections, p) && Last(p) == v
      ensures Distinct(p) && Elems(p) <= w.Declared()
    {
      AcyclicNoCycle(w.connections, {p[0]});
      NoCycleDistinct(w.connections, {p[0]}, p);
      forall i | 0 <= i < |p|
        ensures p[i] in w.Declared()
      {
        if i < |p| - 1 {
          assert Joined(w.connections, p, i);
          assert Connection(p[i], p[i + 1]) in w.connections;
        }
      }
    }
  }

  /** The counts agree although the sets differ exactly when there are substitutes. */
  lemma MissortsExactly(w: Workflow)
    ensures var declared, sorted := w.Declared(), RootedIds(w.Declared(), w.connections);
            |sorted| == |declared| && sorted != declared <==> Substitutes(w)
  {
    var declared, sorted := w.Declared(), RootedIds(w.Declared(), w.connections);
    var both := sorted * declared;
    assert sorted == both + (sorted - declared) && declared == both + (declared - sorted);
    assert |sorted| == |both| + |sorted - declared| && |declared| == |both| + |declared - sorted|;
    if sorted - declared == {} && |sorted| == |declared| {
      SameSize(sorted, declared);
    }
  }

  /** Closedness is needed: here the sort succeeds, yet it lists an undeclared node instead of a declared one. */
  lemma OpenWorkflowMissorted(a: Id, v: Id, t: Id, u: Id)
    requires Distinct([a, v, t, u])
    ensures var w := Workflow([Node(a, TRIGGER, false), Node(v, "action", false)], [Connection(a, t), Connection(u, v)]);
            && Acyclic(w.connections) && !w.Closed()
            && w.Declared() == {a, v}
            && RootedIds(w.Declared(), w.connections) == {a, t}
  {
    var w := Workflow([Node(a, TRIGGER, false), Node(v, "action", false)], [Connection(a, t), Connection(u, v)]);
    assert [a, v, t, u][0] == a && [a, v, t, u][1] == v && [a, v, t, u][2] == t && [a, v, t, u][3] == u;
    assert w.nodes[0].id == a && w.nodes[1].id == v;
    assert w.Declared() == {a, v};
    assert w.connections[0] == Connection(a, t) && w.connections[1] == Connection(u, v);
    assert Connection(u, v) in w.connections;
    assert TargetIds(w.connections) == {t, v};
    TwoEdges(w.connections, a, v, t, u);
  }

  lemma TwoEdges(cs: seq<Connection>, a: Id, v: Id, t: Id, u: Id)
    requires a != v && a != t && a != u && v != t && v != u && t != u
    requires forall x, y :: Edge(cs, x, y) <==> (x == a && y == t) || (x == u && y == v)
    ensures Acyclic(cs)
    ensures Rooted(cs, {a, v, t}, a) && Rooted(cs, {a, v, t}, t) && !Rooted(cs, {a, v, t}, v)
  {
    forall p | IsPath(cs, p) && |p| >= 2
      ensures p[0] != Last(p)
    {
      assert Joined(cs, p, 0) && Joined(cs, p, |p| - 2);
    }
    assert [a, t][..1] == [a];
    SortedIsRooted(cs, {a, v, t}, [a, t], a);
    SortedIsRooted(cs, {a, v, t}, [a, t], t);
    assert Joined(cs, [u, v], 0);
    assert IsPath(cs, [u, v]) && Last([u, v]) == v && u in Elems([u, v]);
  }
}
