/** Node levels: a queue that relabels a node whenever a longer path to it turns up. */
module Levels {
  import opened Workflows
  import opened Graphs
  import opened Degrees
  import opened Dags

  /** `n` is the number of edges on a longest path from `from` to `v`, and -1 when there is no path. */
  ghost predicate IsLevel(cs: seq<Connection>, from: set<Id>, v: Id, n: int) {
    && n >= -1
    && (n >= 0 ==> HasPath(cs, from, v, n + 1))
    && forall p :: IsPath(cs, p) && p[0] in from && Last(p) == v ==> |p| <= n + 1
  }

  ghost predicate AreLevels(w: Workflow, levels: map<Id, int>) {
    && (forall v :: v in levels <==> v in w.Declared() || Reachable(w.connections, w.Starts(), v))
    && forall v :: v in levels ==> IsLevel(w.connections, w.Starts(), v, levels[v])
  }

  // One turn of the loop.

  datatype Labels = Labels(levels: map<Id, int>, queue: seq<Id>)

  /** Raises each neighbor below level `n` to `n` and queues it. */
  function Raise(neighbors: seq<Id>, n: int, s: Labels): Labels {
    if neighbors == [] then s
    else
      var before := Raise(neighbors[..|neighbors| - 1], n, s);
      var v := neighbors[|neighbors| - 1];
      if Count(before.levels, v) < n then Labels(before.levels[v := n], before.queue + [v]) else before
  }

  /** Takes the first node off the queue and raises its neighbors. */
  function Turn(edges: Adjacency, s: Labels): Labels
    requires s.queue != []
  {
    var current := s.queue[0];
    Raise(Out(edges, current), Count(s.levels, current) + 1, Labels(s.levels, s.queue[1..]))
  }

  ghost predicate Raised(neighbors: seq<Id>, n: int, s: Labels, r: Labels) {
    && (forall v :: Count(r.levels, v) == if v in neighbors && Count(s.levels, v) < n then n else Count(s.levels, v))
    && (forall v :: v in r.levels <==> v in s.levels || (v in neighbors && Count(s.levels, v) < n))
    && (forall v :: v in r.queue <==> v in s.queue || (v in neighbors && Count(s.levels, v) < n))
    && (r == s || exists v :: v in neighbors && Count(s.levels, v) < n)
  }

  lemma {:induction false} RaiseRaises(neighbors: seq<Id>, n: int, s: Labels)
    ensures Raised(neighbors, n, s, Raise(neighbors, n, s))
  {
    if neighbors == [] {
    } else {
      var k := |neighbors| - 1;
      RaiseRaises(neighbors[..k], n, s);
      assert neighbors == neighbors[..k] + [neighbors[k]];
    }
  }

  // What every turn keeps.

  ghost predicate Leveled(s: Labels, v: Id) {
    v in s.levels && s.levels[v] >= 0
  }

  /** The keys are as the loop leaves them, and start nodes and queued nodes have a level. */
  ghost predicate Tidy(declared: set<Id>, from: set<Id>, s: Labels) {
    && (forall v :: v in from || v in s.queue ==> Leveled(s, v))
    && (forall v :: v in declared ==> v in s.levels)
    && (forall v :: v in s.levels ==> s.levels[v] >= -1 && (v in declared || Leveled(s, v)))
  }

  /** The level of `v` is the length of some path to it. */
  ghost predicate LevelOfPath(cs: seq<Connection>, from: set<Id>, s: Labels, v: Id) {
    Leveled(s, v) ==> HasPath(cs, from, v, s.levels[v] + 1)
  }

  ghost predicate Witnessed(cs: seq<Connection>, from: set<Id>, s: Labels) {
    forall v :: LevelOfPath(cs, from, s, v)
  }

  /** The edge goes up in level, unless its source is still queued. */
  ghost predicate Rises(s: Labels, u: Id, w: Id) {
    Leveled(s, u) ==> (Leveled(s, w) && s.levels[w] > s.levels[u]) || u in s.queue
  }

  ghost predicate EdgesRise(cs: seq<Connection>, s: Labels) {
    forall u, w {:trigger Edge(cs, u, w)} :: Edge(cs, u, w) ==> Rises(s, u, w)
  }

  ghost predicate Labeling(cs: seq<Connection>, declared: set<Id>, from: set<Id>, s: Labels) {
    Tidy(declared, from, s) && Witnessed(cs, from, s) && EdgesRise(cs, s)
  }

  lemma LabelingNext(edges: Adjacency, cs: seq<Connection>, declared: set<Id>, from: set<Id>, s: Labels)
    requires SameGraph(edges, cs) && s.queue != [] && Labeling(cs, declared, from, s)
    ensures Labeling(cs, declared, from, Turn(edges, s))
  {
    var neighbors, n := Out(edges, s.queue[0]), Count(s.levels, s.queue[0]) + 1;
    assert Lists(cs, s.queue[0], neighbors);
    var r := Turn(edges, s);
    RaiseRaises(neighbors, n, Labels(s.levels, s.queue[1..]));
    TidyNext(declared, from, s, neighbors, r);
    WitnessedNext(cs, declared, from, s, neighbors, r);
    forall u, w | Edge(cs, u, w)
      ensures Rises(r, u, w)
    {
      RisesNext(cs, declared, from, s, neighbors, r, u, w);
    }
  }

  /** The neighbors of the first queued node have been raised above it. */
  ghost predicate Turned(s: Labels, neighbors: seq<Id>, r: Labels)
    requires s.queue != []
  {
    Raised(neighbors, Count(s.levels, s.queue[0]) + 1, Labels(s.levels, s.queue[1..]), r)
  }

  lemma TidyNext(declared: set<Id>, from: set<Id>, s: Labels, neighbors: seq<Id>, r: Labels)
    requires s.queue != [] && Tidy(declared, from, s) && Turned(s, neighbors, r)
    ensures Tidy(declared, from, r)
  {
    assert Leveled(s, s.queue[0]);
    forall v
      ensures Leveled(s, v) ==> Leveled(r, v)
      ensures v in r.queue ==> Leveled(r, v)
      ensures v in r.levels ==> r.levels[v] >= -1 && (v in declared || Leveled(r, v))
    {
      assert Count(r.levels, v) >= Count(s.levels, v);
      assert v in s.queue[1..] ==> v in s.queue;
    }
  }

  lemma WitnessedNext(cs: seq<Connection>, declared: set<Id>, from: set<Id>, s: Labels, neighbors: seq<Id>, r: Labels)
    requires s.queue != [] && Tidy(declared, from, s) && Witnessed(cs, from, s)
    requires Lists(cs, s.queue[0], neighbors) && Turned(s, neighbors, r)
    ensures Witnessed(cs, from, r)
  {
    var current := s.queue[0];
    assert Leveled(s, current) && LevelOfPath(cs, from, s, current);
    forall v
      ensures LevelOfPath(cs, from, r, v)
    {
      assert LevelOfPath(cs, from, s, v);
      if Leveled(r, v) {
        assert Count(r.levels, v) == r.levels[v];
        if v in neighbors && Count(s.levels, v) < s.levels[current] + 1 {
          LongerPath(cs, from, current, s.levels[current] + 1, v);
        }
      }
    }
  }

  lemma RisesNext(cs: seq<Connection>, declared: set<Id>, from: set<Id>, s: Labels, neighbors: seq<Id>,
                  r: Labels, u: Id, w: Id)
    requires s.queue != [] && Tidy(declared, from, s) && Rises(s, u, w)
    requires Lists(cs, s.queue[0], neighbors) && Turned(s, neighbors, r) && Edge(cs, u, w)
    ensures Rises(r, u, w)
  {
    var current := s.queue[0];
    assert Leveled(s, current);
    if Leveled(r, u) && u !in r.queue {
      assert Count(r.levels, u) == Count(s.levels, u) && Leveled(s, u);
      if u == current {
        assert w in neighbors;
      } else {
        assert s.queue == [current] + s.queue[1..];
        assert u !in s.queue;
      }
      assert Count(r.levels, w) >= Count(s.levels, w);
    }
  }

  // When the queue runs empty.

  /** Along a path from a start node the levels rise at every step. */
  lemma {:induction false} LevelsRise(cs: seq<Connection>, declared: set<Id>, from: set<Id>, s: Labels, p: seq<Id>, i: nat)
    requires Labeling(cs, declared, from, s) && s.queue == []
    requires IsPath(cs, p) && p[0] in from && i < |p|
    ensures Leveled(s, p[i]) && s.levels[p[i]] >= i
    ensures forall j :: 0 <= j < i ==> Leveled(s, p[j]) && s.levels[p[j]] < s.levels[p[i]]
    decreases i
  {
    if i == 0 {
    } else {
      LevelsRise(cs, declared, from, s, p, i - 1);
      assert Joined(cs, p, i - 1);
    }
  }

  lemma SettledLevels(w: Workflow, s: Labels)
    requires Labeling(w.connections, w.Declared(), w.Starts(), s) && s.queue == []
    ensures AreLevels(w, s.levels)
    ensures !CycleFrom(w.connections, w.Starts())
  {
    var cs, from := w.connections, w.Starts();
    forall v
      ensures v in s.levels <==> v in w.Declared() || Reachable(cs, from, v)
      ensures v in s.levels ==> IsLevel(cs, from, v, s.levels[v])
    {
      SettledLevel(cs, w.Declared(), from, s, v);
    }
    SettledNoCycle(cs, w.Declared(), from, s);
  }

  lemma SettledNoCycle(cs: seq<Connection>, declared: set<Id>, from: set<Id>, s: Labels)
    requires Labeling(cs, declared, from, s) && s.queue == []
    ensures !CycleFrom(cs, from)
  {
    if p :| Lasso(cs, from, p) {
      LevelsRise(cs, declared, from, s, p, |p| - 1);
    }
  }

  lemma SettledLevel(cs: seq<Connection>, declared: set<Id>, from: set<Id>, s: Labels, v: Id)
    requires Labeling(cs, declared, from, s) && s.queue == []
    ensures v in s.levels <==> v in declared || Reachable(cs, from, v)
    ensures v in s.levels ==> IsLevel(cs, from, v, s.levels[v])
  {
    forall p | IsPath(cs, p) && p[0] in from && Last(p) == v
      ensures Leveled(s, v) && |p| <= s.levels[v] + 1
    {
      LevelsRise(cs, declared, from, s, p, |p| - 1);
    }
    assert LevelOfPath(cs, from, s, v);
  }

  // The whole loop.

  /** `k` turns of the loop, or fewer when the queue runs empty. */
  ghost function Turns(edges: Adjacency, s: Labels, k: nat): Labels {
    if k == 0 then s
    else
      var before := Turns(edges, s, k - 1);
      if before.queue == [] then before else Turn(edges, before)
  }

  ghost predicate StartLabels(w: Workflow, s: Labels) {
    && s.levels.Keys == w.Declared() && Elems(s.queue) == w.Starts()
    && forall v :: v in s.levels ==> s.levels[v] == if v in w.Starts() then 0 else -1
  }

  lemma StartIsLabeling(w: Workflow, s: Labels)
    requires StartLabels(w, s)
    ensures Labeling(w.connections, w.Declared(), w.Starts(), s)
  {
    forall v
      ensures v in s.queue <==> v in w.Starts()
      ensures v in w.Starts() ==> HasPath(w.connections, w.Starts(), v, 1)
    {
      assert v in s.queue <==> v in Elems(s.queue);
      assert IsPath(w.connections, [v]) && Last([v]) == v;
    }
  }

  /** With a cycle within reach of a start node the queue never runs empty. */
  lemma NeverSettles(w: Workflow, edges: Adjacency, s: Labels, k: nat)
    requires SameGraph(edges, w.connections) && StartLabels(w, s)
    requires CycleFrom(w.connections, w.Starts())
    ensures Turns(edges, s, k).queue != []
  {
    TurnsLabel(w, edges, s, k);
    if Turns(edges, s, k).queue == [] {
      SettledLevels(w, Turns(edges, s, k));
    }
  }

  lemma {:induction false} TurnsLabel(w: Workflow, edges: Adjacency, s: Labels, k: nat)
    requires SameGraph(edges, w.connections) && StartLabels(w, s)
    ensures Labeling(w.connections, w.Declared(), w.Starts(), Turns(edges, s, k))
  {
    if k == 0 {
      StartIsLabeling(w, s);
    } else {
      TurnsLabel(w, edges, s, k - 1);
      if Turns(edges, s, k - 1).queue != [] {
        LabelingNext(edges, w.connections, w.Declared(), w.Starts(), Turns(edges, s, k - 1));
      }
    }
  }

  /** How far the levels still are from a bound that they cannot pass. */
  ghost function Slack(order: seq<Id>, levels: map<Id, int>, bound: int): int {
    if order == [] then 0 else bound - Count(levels, order[0]) + Slack(order[1..], levels, bound)
  }

  lemma {:induction false} SlackDrops(order: seq<Id>, levels: map<Id, int>, raised: map<Id, int>, bound: int)
    requires forall v :: Count(levels, v) <= Count(raised, v) <= bound
    ensures 0 <= Slack(order, raised, bound) <= Slack(order, levels, bound)
    ensures (exists v :: v in order && Count(levels, v) < Count(raised, v)) ==>
              Slack(order, raised, bound) < Slack(order, levels, bound)
  {
    if order == [] {
    } else {
      SlackDrops(order[1..], levels, raised, bound);
      if v :| v in order && Count(levels, v) < Count(raised, v) {
        assert v == order[0] || v in order[1..];
      }
    }
  }

  ghost function Bound(cs: seq<Connection>, from: set<Id>): nat {
    |from + Ids(cs)|
  }

  lemma LevelsBounded(cs: seq<Connection>, declared: set<Id>, from: set<Id>, s: Labels)
    requires Labeling(cs, declared, from, s) && !CycleFrom(cs, from)
    ensures forall v :: Count(s.levels, v) <= Bound(cs, from)
  {
    forall v
      ensures Count(s.levels, v) <= Bound(cs, from)
    {
      assert LevelOfPath(cs, from, s, v);
      if Leveled(s, v) {
        var p :| IsPath(cs, p) && p[0] in from && Last(p) == v && |p| == s.levels[v] + 1;
        NoCycleBounded(cs, from, p);
      }
    }
  }

  /** The measure of the loop: the slack first, the length of the queue second. */
  ghost predicate Shrinks(order: seq<Id>, bound: int, s: Labels, r: Labels) {
    && 0 <= Slack(order, s.levels, bound)
    && (Slack(order, r.levels, bound) < Slack(order, s.levels, bound)
        || (r.levels == s.levels && |r.queue| < |s.queue|))
  }

  lemma TurnedShrinks(order: seq<Id>, bound: int, s: Labels, neighbors: seq<Id>, r: Labels)
    requires s.queue != [] && Turned(s, neighbors, r) && Elems(neighbors) <= Elems(order)
    requires forall v :: Count(s.levels, v) <= bound && Count(r.levels, v) <= bound
    ensures Shrinks(order, bound, s, r)
  {
    SlackDrops(order, s.levels, r.levels, bound);
    if r != Labels(s.levels, s.queue[1..]) {
      var v :| v in neighbors && Count(s.levels, v) < Count(s.levels, s.queue[0]) + 1;
      assert v in Elems(order) && Count(s.levels, v) < Count(r.levels, v);
    }
  }

  lemma TurnShrinks(edges: Adjacency, cs: seq<Connection>, declared: set<Id>, from: set<Id>, order: seq<Id>, s: Labels)
    requires SameGraph(edges, cs) && s.queue != [] && Ids(cs) <= Elems(order)
    requires Labeling(cs, declared, from, s) && !CycleFrom(cs, from)
    ensures Shrinks(order, Bound(cs, from), s, Turn(edges, s))
  {
    var neighbors := Out(edges, s.queue[0]);
    RaiseRaises(neighbors, Count(s.levels, s.queue[0]) + 1, Labels(s.levels, s.queue[1..]));
    LabelingNext(edges, cs, declared, from, s);
    LevelsBounded(cs, declared, from, s);
    LevelsBounded(cs, declared, from, Turn(edges, s));
    NeighborsInIds(cs, s.queue[0], neighbors);
    TurnedShrinks(order, Bound(cs, from), s, neighbors, Turn(edges, s));
  }

  lemma NeighborsInIds(cs: seq<Connection>, v: Id, neighbors: seq<Id>)
    requires Lists(cs, v, neighbors)
    ensures Elems(neighbors) <= Ids(cs)
  {
    forall w | w in neighbors
      ensures w in Ids(cs)
    {
      EdgeInIds(cs, v, w);
    }
  }

  lemma {:induction false} Enumerate(s: set<Id>) returns (order: seq<Id>)
    ensures Elems(order) == s
  {
    if s == {} {
      order := [];
    } else {
      var x :| x in s;
      var rest := Enumerate(s - {x});
      order := rest + [x];
      ElemsAppend(rest, x);
    }
  }

  /** The loop over a dequeued node's neighbors. */
  method RaiseNeighbors(neighbors: seq<Id>, n: int, levels: map<Id, int>, queue: seq<Id>)
    returns (levels': map<Id, int>, queue': seq<Id>)
    ensures Labels(levels', queue') == Raise(neighbors, n, Labels(levels, queue))
  {
    levels', queue' := levels, queue;
    for i := 0 to |neighbors|
      invariant Labels(levels', queue') == Raise(neighbors[..i], n, Labels(levels, queue))
    {
      assert neighbors[..i + 1][..i] == neighbors[..i];
      if Count(levels', neighbors[i]) < n {
        levels' := levels'[neighbors[i] := n];
        queue' := queue' + [neighbors[i]];
      }
    }
    assert neighbors[..|neighbors|] == neighbors;
  }

  /** Every node starts at -1, the start nodes at 0 and in the queue. */
  method Initialize(d: Dag) returns (levels: map<Id, int>, queue: seq<Id>)
    requires d.Valid()
    ensures StartLabels(d.workflow, Labels(levels, queue))
  {
    queue := [];
    levels := map v | v in d.nodes :: -1;
    for i := 0 to |d.startNodes|
      invariant queue == d.startNodes[..i] && levels.Keys == d.nodes.Keys
      invariant forall v :: v in levels ==> levels[v] == if v in d.startNodes[..i] then 0 else -1
    {
      assert d.startNodes[i] in Elems(d.startNodes);
      levels := levels[d.startNodes[i] := 0];
      queue := queue + [d.startNodes[i]];
    }
    assert d.startNodes[..|d.startNodes|] == d.startNodes;
    assert forall v :: v in d.startNodes <==> v in Elems(d.startNodes);
  }

  /** The loop over the queue. */
  method DrainQueue(edges: Adjacency, initial: Labels, ghost cs: seq<Connection>, ghost declared: set<Id>, ghost from: set<Id>)
    returns (levels: map<Id, int>)
    requires SameGraph(edges, cs) && !CycleFrom(cs, from) && Labeling(cs, declared, from, initial)
    ensures Labeling(cs, declared, from, Labels(levels, []))
  {
    var queue;
    levels, queue := initial.levels, initial.queue;
    ghost var order := Enumerate(Ids(cs));
    while queue != []
      invariant Labeling(cs, declared, from, Labels(levels, queue))
      decreases Slack(order, levels, Bound(cs, from)), |queue|
    {
      LabelingNext(edges, cs, declared, from, Labels(levels, queue));
      TurnShrinks(edges, cs, declared, from, order, Labels(levels, queue));
      levels, queue := RaiseNeighbors(Out(edges, queue[0]), Count(levels, queue[0]) + 1, levels, queue[1..]);
    }
  }

  /** Without a cycle in reach of the start nodes the loop stops, and each level is a longest distance. */
  method CalculateLevels(d: Dag) returns (levels: map<Id, int>)
    requires d.Valid() && !CycleFrom(d.workflow.connections, d.workflow.Starts())
    ensures AreLevels(d.workflow, levels)
  {
    ghost var w := d.workflow;
    var start, queue := Initialize(d);
    StartIsLabeling(w, Labels(start, queue));
    RepresentsSameGraph(d.edges, w.connections);
    levels := DrainQueue(d.edges, Labels(start, queue), w.connections, w.Declared(), w.Starts());
    SettledLevels(w, Labels(levels, []));
  }

  /** In a closed acyclic workflow every node has a level and every connection goes strictly up. */
  lemma EdgesGoUp(w: Workflow, levels: map<Id, int>, u: Id, v: Id)
    requires w.Closed() && Acyclic(w.connections) && AreLevels(w, levels) && Edge(w.connections, u, v)
    ensures u in levels && v in levels && 0 <= levels[u] < levels[v]
  {
    assert Connection(u, v) in w.connections;
    StartsReachAll(w, u);
    var p :| IsPath(w.connections, p) && p[0] in w.Starts() && Last(p) == u;
    assert HasPath(w.connections, w.Starts(), u, levels[u] + 1);
    LongerPath(w.connections, w.Starts(), u, levels[u] + 1, v);
    var q :| IsPath(w.connections, q) && q[0] in w.Starts() && Last(q) == v && |q| == levels[u] + 2;
  }
}
