/** The enumeration of all execution paths by depth-first search. */
module ExecutionPaths {
  import opened Workflows
  import opened Graphs
  import opened Dags

  /** How many ways connections offer to walk along `p` to a node without outgoing connections. */
  function Ways(cs: seq<Connection>, p: seq<Id>): nat {
    if p == [] then 0
    else if |p| == 1 then (if Targets(cs, p[0]) == [] then 1 else 0)
    else multiset(Targets(cs, p[0]))[p[1]] * Ways(cs, p[1..])
  }

  /** A path that ends where no connection leaves. */
  ghost predicate RunsOut(cs: seq<Connection>, p: seq<Id>) {
    IsPath(cs, p) && Targets(cs, Last(p)) == []
  }

  lemma {:induction false} SomeWay(cs: seq<Connection>, p: seq<Id>)
    ensures Ways(cs, p) > 0 <==> RunsOut(cs, p)
  {
    if |p| < 2 {
    } else {
      SomeWay(cs, p[1..]);
      TargetsAreEdges(cs, p[0], p[1]);
      assert p[1] in Targets(cs, p[0]) <==> multiset(Targets(cs, p[0]))[p[1]] > 0;
      if Ways(cs, p) > 0 {
        assert IsPath(cs, p[1..]);
        Prepend(cs, p[0], p[1..]);
        assert p == [p[0]] + p[1..];
      }
      if RunsOut(cs, p) {
        assert Joined(cs, p, 0);
        Slice(cs, p, 1, |p|);
      }
    }
  }

  /** Some step along `p` is offered by several connections. */
  ghost predicate Parallel(cs: seq<Connection>, p: seq<Id>) {
    exists i :: 0 <= i < |p| - 1 && multiset(Targets(cs, p[i]))[p[i + 1]] > 1
  }

  lemma {:induction false} OneWay(cs: seq<Connection>, p: seq<Id>)
    requires RunsOut(cs, p)
    ensures Ways(cs, p) == 1 <==> !Parallel(cs, p)
  {
    if |p| < 2 {
    } else {
      assert Joined(cs, p, 0);
      Slice(cs, p, 1, |p|);
      OneWay(cs, p[1..]);
      SomeWay(cs, p[1..]);
      TargetsAreEdges(cs, p[0], p[1]);
      var m, n := multiset(Targets(cs, p[0]))[p[1]], Ways(cs, p[1..]);
      assert m > 0 && n > 0;
      assert m * n == 1 <==> m == 1 && n == 1 by {
        OneProduct(m, n);
      }
      ParallelTail(cs, p);
    }
  }

  lemma OneProduct(m: nat, n: nat)
    requires m > 0 && n > 0
    ensures m * n == 1 <==> m == 1 && n == 1
  {
    if m > 1 {
      assert m * n >= 2 * n;
    }
  }

  lemma ParallelTail(cs: seq<Connection>, p: seq<Id>)
    requires |p| >= 2
    ensures Parallel(cs, p) <==> multiset(Targets(cs, p[0]))[p[1]] > 1 || Parallel(cs, p[1..])
  {
    var q := p[1..];
    if Parallel(cs, q) {
      var i :| 0 <= i < |q| - 1 && multiset(Targets(cs, q[i]))[q[i + 1]] > 1;
      assert p[i + 1] == q[i] && p[i + 1 + 1] == q[i + 1];
    }
    if Parallel(cs, p) {
      var i :| 0 <= i < |p| - 1 && multiset(Targets(cs, p[i]))[p[i + 1]] > 1;
      if i > 0 {
        assert q[i - 1] == p[i] && q[i - 1 + 1] == p[i + 1];
      }
    }
  }

  /** How often a search that has come along `prefix` records `p`. */
  ghost function Found(cs: seq<Connection>, prefix: seq<Id>, p: seq<Id>): nat
    requires prefix != []
  {
    if prefix <= p then Ways(cs, p[|prefix| - 1..]) else 0
  }

  /** How often it records `p` while it is at the given neighbors of the last node. */
  ghost function FoundVia(cs: seq<Connection>, prefix: seq<Id>, neighbors: seq<Id>, p: seq<Id>): nat {
    if prefix < p then multiset(neighbors)[p[|prefix|]] * Ways(cs, p[|prefix|..]) else 0
  }

  lemma FoundViaNext(cs: seq<Connection>, prefix: seq<Id>, neighbors: seq<Id>, i: nat, p: seq<Id>)
    requires i < |neighbors|
    ensures FoundVia(cs, prefix, neighbors[..i + 1], p) ==
            FoundVia(cs, prefix, neighbors[..i], p) + Found(cs, prefix + [neighbors[i]], p)
  {
    assert neighbors[..i + 1] == neighbors[..i] + [neighbors[i]];
    if prefix < p {
      var v, ways := p[|prefix|], Ways(cs, p[|prefix|..]);
      PrefixStep(prefix, neighbors[i], p);
      var m := multiset(neighbors[..i])[v];
      assert multiset(neighbors[..i + 1])[v] == m + if neighbors[i] == v then 1 else 0;
      assert (m + 1) * ways == m * ways + ways;
    }
  }

  lemma PrefixStep(prefix: seq<Id>, v: Id, p: seq<Id>)
    requires prefix < p
    ensures prefix + [v] <= p <==> p[|prefix|] == v
  {
    assert p[..|prefix| + 1] == prefix + [p[|prefix|]];
    assert (prefix + [v])[|prefix|] == v;
  }

  lemma FoundAtNode(cs: seq<Connection>, prefix: seq<Id>, p: seq<Id>)
    requires prefix != []
    ensures Targets(cs, Last(prefix)) != [] ==>
              Found(cs, prefix, p) == FoundVia(cs, prefix, Targets(cs, Last(prefix)), p)
    ensures Targets(cs, Last(prefix)) == [] ==> Found(cs, prefix, p) == if p == prefix then 1 else 0
  {
    if prefix <= p {
      var q := p[|prefix| - 1..];
      assert q[0] == Last(prefix);
      if |q| >= 2 {
        assert q[1..] == p[|prefix|..] && q[1] == p[|prefix|];
      } else {
        assert p == prefix;
      }
    }
  }

  /** The recursive closure: records every continuation of `current` over `node`. */
  method Search(edges: Adjacency, node: Id, current: seq<Id>, paths: seq<seq<Id>>, ghost cs: seq<Connection>, ghost from: set<Id>)
    returns (paths': seq<seq<Id>>)
    requires Represents(edges, cs) && !CycleFrom(cs, from)
    requires IsPath(cs, current + [node]) && (current + [node])[0] in from
    ensures forall p :: multiset(paths')[p] == multiset(paths)[p] + Found(cs, current + [node], p)
    decreases |from + Ids(cs)| - |current|
  {
    var path := current + [node];
    NoCycleBounded(cs, from, path);
    var neighbors := Out(edges, node);
    forall p
      ensures neighbors != [] ==> Found(cs, path, p) == FoundVia(cs, path, neighbors, p)
      ensures neighbors == [] ==> Found(cs, path, p) == if p == path then 1 else 0
    {
      FoundAtNode(cs, path, p);
    }
    if |neighbors| == 0 {
      return paths + [path];
    }
    paths' := paths;
    for i := 0 to |neighbors|
      invariant forall p :: multiset(paths')[p] == multiset(paths)[p] + FoundVia(cs, path, neighbors[..i], p)
    {
      TargetsAreEdges(cs, node, neighbors[i]);
      Extend(cs, path, neighbors[i]);
      forall p
        ensures FoundVia(cs, path, neighbors[..i + 1], p) ==
                FoundVia(cs, path, neighbors[..i], p) + Found(cs, path + [neighbors[i]], p)
      {
        FoundViaNext(cs, path, neighbors, i, p);
      }
      paths' := Search(edges, neighbors[i], path, paths', cs, from);
    }
    assert neighbors[..|neighbors|] == neighbors;
  }

  /** Each path from one of `starts` is listed once for each way to walk it. */
  ghost predicate ListsWays(cs: seq<Connection>, starts: seq<Id>, paths: seq<seq<Id>>) {
    forall p :: multiset(paths)[p] == if p != [] && p[0] in starts then Ways(cs, p) else 0
  }

  lemma ListsWaysNext(cs: seq<Connection>, starts: seq<Id>, start: Id, paths: seq<seq<Id>>, paths': seq<seq<Id>>)
    requires ListsWays(cs, starts, paths) && start !in starts
    requires forall p :: multiset(paths')[p] == multiset(paths)[p] + Found(cs, [start], p)
    ensures ListsWays(cs, starts + [start], paths')
  {
    forall p
      ensures multiset(paths')[p] == if p != [] && p[0] in starts + [start] then Ways(cs, p) else 0
    {
      assert multiset(paths)[p] == if p != [] && p[0] in starts then Ways(cs, p) else 0;
      if [start] <= p {
        assert p[0..] == p;
      }
    }
  }

  /** A path is returned once for each way to walk it from a start node to its end. */
  method GetExecutionPaths(d: Dag) returns (paths: seq<seq<Id>>)
    requires d.Valid() && !CycleFrom(d.workflow.connections, d.workflow.Starts())
    ensures forall p :: multiset(paths)[p] ==
                        if p != [] && p[0] in d.workflow.Starts() then Ways(d.workflow.connections, p) else 0
  {
    ghost var cs := d.workflow.connections;
    paths := [];
    for i := 0 to |d.startNodes|
      invariant ListsWays(cs, d.startNodes[..i], paths)
    {
      var start := d.startNodes[i];
      assert [] + [start] == [start] && IsPath(cs, [start]) && start in Elems(d.startNodes);
      var paths' := Search(d.edges, start, [], paths, cs, d.workflow.Starts());
      ListsWaysNext(cs, d.startNodes[..i], start, paths, paths');
      assert d.startNodes[..i + 1] == d.startNodes[..i] + [start];
      paths := paths';
    }
    assert d.startNodes[..|d.startNodes|] == d.startNodes;
    assert forall p: seq<Id> :: p != [] ==> (p[0] in d.startNodes <==> p[0] in Elems(d.startNodes));
  }

  /** The paths returned are exactly those from a start node to a node that no connection leaves. */
  lemma PathsAreComplete(w: Workflow, paths: seq<seq<Id>>, p: seq<Id>)
    requires forall q :: multiset(paths)[q] == if q != [] && q[0] in w.Starts() then Ways(w.connections, q) else 0
    ensures p in paths <==> RunsOut(w.connections, p) && p[0] in w.Starts()
    ensures p in paths ==> (multiset(paths)[p] == 1 <==> !Parallel(w.connections, p))
  {
    assert p in paths <==> multiset(paths)[p] > 0;
    SomeWay(w.connections, p);
    if RunsOut(w.connections, p) {
      OneWay(w.connections, p);
    }
  }

  // The calls of the recursive closure.

  /** The call for `node` returns, and no call below it is nested deeper than `depth`: a call makes one call for each
      neighbor and returns after them. */
  ghost predicate Returns(edges: Adjacency, node: Id, depth: nat)
    decreases depth
  {
    depth > 0 && forall i :: 0 <= i < |Out(edges, node)| ==> Returns(edges, Out(edges, node)[i], depth - 1)
  }

  ghost predicate AllReturn(edges: Adjacency, starts: set<Id>, depth: nat) {
    forall v :: v in starts ==> Returns(edges, v, depth)
  }

  /** A call is nested as deeply as the longest path from its node. */
  lemma {:induction false} PathNests(edges: Adjacency, cs: seq<Connection>, p: seq<Id>, depth: nat)
    requires SameGraph(edges, cs) && IsPath(cs, p) && Returns(edges, p[0], depth)
    ensures |p| <= depth
  {
    if |p| == 1 {
    } else {
      assert Joined(cs, p, 0) && Lists(cs, p[0], Out(edges, p[0]));
      assert p[1] in Out(edges, p[0]);
      Slice(cs, p, 1, |p|);
      PathNests(edges, cs, p[1..], depth - 1);
    }
  }

  lemma {:induction false} BoundedReturns(edges: Adjacency, cs: seq<Connection>, from: set<Id>, p: seq<Id>, depth: nat)
    requires SameGraph(edges, cs) && !CycleFrom(cs, from) && IsPath(cs, p) && p[0] in from
    requires |p| + depth == |from + Ids(cs)| + 1
    ensures Returns(edges, Last(p), depth)
    decreases depth
  {
    NoCycleBounded(cs, from, p);
    var neighbors := Out(edges, Last(p));
    forall i | 0 <= i < |neighbors|
      ensures Returns(edges, neighbors[i], depth - 1)
    {
      assert Lists(cs, Last(p), neighbors) && neighbors[i] in neighbors;
      Extend(cs, p, neighbors[i]);
      NoCycleBounded(cs, from, p + [neighbors[i]]);
      BoundedReturns(edges, cs, from, p + [neighbors[i]], depth - 1);
    }
  }

  /** All calls return exactly when no cycle is in reach of a start node. */
  lemma ReturnsExactly(edges: Adjacency, cs: seq<Connection>, starts: set<Id>)
    requires SameGraph(edges, cs)
    ensures (exists depth :: AllReturn(edges, starts, depth)) <==> !CycleFrom(cs, starts)
  {
    if CycleFrom(cs, starts) {
      forall depth: nat
        ensures !AllReturn(edges, starts, depth)
      {
        var p := RecursionUnbounded(cs, starts, depth);
        if Returns(edges, p[0], depth) {
          PathNests(edges, cs, p, depth);
        }
      }
    } else {
      var depth := |starts + Ids(cs)|;
      forall v | v in starts
        ensures Returns(edges, v, depth)
      {
        BoundedReturns(edges, cs, starts, [v], depth);
      }
      assert AllReturn(edges, starts, depth);
    }
  }

  /** With a cycle in reach there is a path longer than any bound. */
  lemma RecursionUnbounded(cs: seq<Connection>, from: set<Id>, n: nat) returns (p: seq<Id>)
    requires CycleFrom(cs, from)
    ensures IsPath(cs, p) && p[0] in from && |p| > n
  {
    var lasso :| Lasso(cs, from, lasso);
    var i :| 0 <= i < |lasso| - 1 && lasso[i] == Last(lasso);
    var loop := LoopNodes(cs, lasso, i);
    var q := WalkOn(cs, loop, lasso[i], n + 1);
    Slice(cs, lasso, 0, i + 1);
    Join(cs, lasso[..i + 1], q);
    p := lasso[..i + 1] + q[1..];
  }

  lemma LoopNodes(cs: seq<Connection>, lasso: seq<Id>, i: nat) returns (loop: set<Id>)
    requires IsPath(cs, lasso) && i < |lasso| - 1 && lasso[i] == Last(lasso)
    ensures lasso[i] in loop && forall v {:trigger SuccessorIn(cs, loop, v)} :: v in loop ==> SuccessorIn(cs, loop, v)
  {
    loop := Elems(lasso[i..]);
    assert lasso[i..][0] == lasso[i];
    forall v | v in loop
      ensures SuccessorIn(cs, loop, v)
    {
      var k :| 0 <= k < |lasso[i..]| && lasso[i..][k] == v;
      var j := if i + k == |lasso| - 1 then i else i + k;
      assert Joined(cs, lasso, j);
      assert lasso[i..][j + 1 - i] == lasso[j + 1];
    }
  }
}
