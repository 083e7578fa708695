/** Exactly when finished runs execute every node after the nodes that lead to it, over all ways to list a workflow. */
module RunPrecedence {
  import opened Workflows
  import opened Graphs
  import opened CycleCheck
  import opened QueueOrder
  import opened RunLoop
  import opened Precedence

  // The one order of a finished run is breadth first.

  lemma SomeRun(cs: seq<Connection>, starts: seq<Id>) returns (ids: seq<Id>)
    ensures Exhausted(cs, starts, ids) && ListsAll(cs, Elems(starts), ids)
  {
    var all := Elems(starts) + Ids(cs);
    var queue, taken: seq<Id>, executed: set<Id> := starts, [], {};
    var entries, done: seq<Entry> := Starting(starts), [];
    ids := [];
    IdsCover(cs, Elems(starts));
    TurningStarts(cs, starts);
    while queue != []
      invariant Turning(cs, starts, queue, taken, ids, executed, entries, done)
      decreases |all - executed|, |queue|
    {
      var v := queue[0];
      if v in executed {
        TurnSkips(cs, starts, queue, taken, ids, executed, entries, done);
        queue, taken, entries := queue[1..], taken + [v], entries[1..];
      } else {
        TurnAttempts(cs, starts, queue, taken, ids, executed, entries, done, all);
        var children := EntriesFor(cs, v, executed + {v}, entries[0].depth);
        TurnExecutes(cs, starts, queue, taken, ids, executed, entries, done, children);
        taken, entries, done := taken + [v], entries[1..] + children, done + [entries[0]];
        queue, executed, ids := queue[1..] + Names(children), executed + {v}, ids + [v];
      }
    }
    TurnEnds(cs, starts, queue, taken, ids, executed, entries, done, turn => false);
  }

  lemma FinishedListsAll(cs: seq<Connection>, starts: seq<Id>, ids: seq<Id>)
    requires Exhausted(cs, starts, ids)
    ensures ListsAll(cs, Elems(starts), ids)
  {
    var run := SomeRun(cs, starts);
    OneExhausted(cs, starts, run, ids);
    OneExhausted(cs, starts, ids, run);
    assert run == ids;
  }

  /** Every run, finished or not, attempts a node after all that are nearer: a node that leads to a nearer one comes after it. */
  lemma NearerTargetFirst(cs: seq<Connection>, starts: seq<Id>, ids: seq<Id>, i: nat, v: Id, d: nat, e: nat)
    requires InQueueOrder(cs, starts, ids) && i < |ids|
    requires AtDistance(cs, Elems(starts), ids[i], d) && AtDistance(cs, Elems(starts), v, e) && e < d
    ensures v in ids[..i]
  {
    var run := SomeRun(cs, starts);
    OneExhausted(cs, starts, run, ids);
    assert run[i] == ids[i] && run[..i] == ids[..i];
    assert ListsNearer(cs, Elems(starts), run[..i], d);
  }

  // Listing the connections of a path first makes its nodes the first ones at their distances.

  lemma {:induction false} FollowedConcat(cs: seq<Connection>, a: seq<Id>, b: seq<Id>)
    ensures Followed(cs, a + b) == Followed(cs, a) + Followed(cs, b)
  {
    if b == [] {
      assert a + b == a;
    } else {
      var n := |b| - 1;
      FollowedConcat(cs, a, b[..n]);
      assert (a + b)[..|a + b| - 1] == a + b[..n];
    }
  }

  lemma {:induction false} FollowedElems(cs: seq<Connection>, ids: seq<Id>, x: Id) returns (u: Id)
    requires x in Followed(cs, ids)
    ensures u in ids && Edge(cs, u, x)
  {
    var n := |ids| - 1;
    if x in Targets(cs, ids[n]) {
      u := ids[n];
      TargetsAreEdges(cs, u, x);
    } else {
      u := FollowedElems(cs, ids[..n], x);
    }
  }

  /** What the nodes nearer than `d` put into the queue is no further than `d`. */
  lemma FollowedWithin(cs: seq<Connection>, starts: seq<Id>, ids: seq<Id>, d: nat, x: Id)
    requires AllNearer(cs, Elems(starts), ids, d) && x in starts + Followed(cs, ids)
    ensures WithinDistance(cs, Elems(starts), x, d)
  {
    var from := Elems(starts);
    if x in starts {
      assert IsPath(cs, [x]) && Last([x]) == x && x in from;
      assert HasPath(cs, from, x, 0 + 1);
      var e := SomeDistance(cs, from, x, 0);
    } else {
      var u := FollowedElems(cs, ids, x);
      var e :| e <= d - 1 && AtDistance(cs, from, u, e);
      DistanceIsNat(cs, from, u, e);
      LongerPath(cs, from, u, e + 1, x);
      var f := SomeDistance(cs, from, x, e + 1);
    }
  }

  /** If the targets of `ids[k]` begin with `v`, which is one further away, then `v` is the first at its distance. */
  lemma FirstTarget(cs: seq<Connection>, starts: seq<Id>, ids: seq<Id>, k: nat, v: Id, d: nat) returns (m: nat)
    requires Exhausted(cs, starts, ids) && k < |ids| && AllNearer(cs, Elems(starts), ids[..k], d)
    requires Targets(cs, ids[k]) != [] && Targets(cs, ids[k])[0] == v && AtDistance(cs, Elems(starts), v, d + 1)
    ensures m < |ids| && ids[m] == v && AllNearer(cs, Elems(starts), ids[..m], d + 1)
  {
    var from, before := Elems(starts), starts + Followed(cs, ids[..k]);
    forall x | x in before
      ensures WithinDistance(cs, from, x, d)
    {
      FollowedWithin(cs, starts, ids[..k], d, x);
    }
    NotWithin(cs, from, v, d + 1, d);
    var rest := RestOfQueue(cs, starts, ids, k, v);
    m := NextFirst(before, v, rest, ids);
  }

  lemma NextFirst(before: seq<Id>, v: Id, rest: seq<Id>, ids: seq<Id>) returns (m: nat)
    requires v !in before && ids == Firsts(before + [v] + rest)
    ensures m < |ids| && ids[m] == v && forall x :: x in ids[..m] ==> x in before
  {
    FirstsAppend(before, v);
    FirstsElems(before);
    FirstsPrefix(before + [v], rest);
    m := |Firsts(before)|;
    assert ids[..m] == Firsts(before);
  }

  lemma RestOfQueue(cs: seq<Connection>, starts: seq<Id>, ids: seq<Id>, k: nat, v: Id) returns (rest: seq<Id>)
    requires k < |ids| && Targets(cs, ids[k]) != [] && Targets(cs, ids[k])[0] == v
    ensures starts + Followed(cs, ids) == starts + Followed(cs, ids[..k]) + [v] + rest
  {
    var targets, after := Targets(cs, ids[k]), Followed(cs, ids[k + 1..]);
    rest := targets[1..] + after;
    FollowedSplit(cs, ids, k);
    assert targets + after == [v] + rest;
  }

  lemma FollowedSplit(cs: seq<Connection>, ids: seq<Id>, k: nat)
    requires k < |ids|
    ensures Followed(cs, ids) == Followed(cs, ids[..k]) + (Targets(cs, ids[k]) + Followed(cs, ids[k + 1..]))
  {
    assert ids == ids[..k + 1] + ids[k + 1..] && ids[..k + 1][..k] == ids[..k];
    FollowedConcat(cs, ids[..k + 1], ids[k + 1..]);
  }

  /** A shortest path, whose connections are each the first of their source. */
  ghost predicate Preferred(cs: seq<Connection>, starts: seq<Id>, p: seq<Id>) {
    && p != [] && starts != [] && starts[0] == p[0]
    && (forall i :: 0 <= i < |p| ==> AtDistance(cs, Elems(starts), p[i], i))
    && (forall i :: 0 <= i < |p| - 1 ==> FirstStep(cs, p, i))
  }

  ghost predicate FirstStep(cs: seq<Connection>, p: seq<Id>, i: nat)
    requires i < |p| - 1
  {
    Targets(cs, p[i]) != [] && Targets(cs, p[i])[0] == p[i + 1]
  }

  lemma {:induction false} PreferredFirst(cs: seq<Connection>, starts: seq<Id>, ids: seq<Id>, p: seq<Id>, i: nat) returns (k: nat)
    requires Exhausted(cs, starts, ids) && Preferred(cs, starts, p) && i < |p|
    ensures k < |ids| && ids[k] == p[i] && AllNearer(cs, Elems(starts), ids[..k], i)
  {
    if i == 0 {
      k := 0;
      FirstStart(cs, starts, ids);
    } else {
      var j := PreferredFirst(cs, starts, ids, p, i - 1);
      assert FirstStep(cs, p, i - 1);
      k := FirstTarget(cs, starts, ids, j, p[i], i - 1);
    }
  }

  lemma FirstStart(cs: seq<Connection>, starts: seq<Id>, ids: seq<Id>)
    requires Exhausted(cs, starts, ids) && starts != []
    ensures ids != [] && ids[0] == starts[0]
  {
    TakenNew(starts + Followed(cs, ids), []);
    assert [] + (starts + Followed(cs, ids)) == starts + Followed(cs, ids);
  }

  // Listing things in another order.

  /** The elements with a property, in their order. */
  ghost function Chosen<T>(s: seq<T>, p: T -> bool): seq<T> {
    if s == [] then []
    else
      var n := |s| - 1;
      if p(s[n]) then Chosen(s[..n], p) + [s[n]] else Chosen(s[..n], p)
  }

  ghost function Others<T>(s: seq<T>, p: T -> bool): seq<T> {
    if s == [] then []
    else
      var n := |s| - 1;
      if p(s[n]) then Others(s[..n], p) else Others(s[..n], p) + [s[n]]
  }

  lemma {:induction false} ChosenElems<T>(s: seq<T>, p: T -> bool)
    ensures multiset(Chosen(s, p) + Others(s, p)) == multiset(s)
    ensures forall x :: x in Chosen(s, p) <==> x in s && p(x)
  {
    if s == [] {
    } else {
      var n := |s| - 1;
      ChosenElems(s[..n], p);
      assert s == s[..n] + [s[n]];
    }
  }

  ghost predicate SameUpToOrder(w: Workflow, other: Workflow) {
    multiset(w.nodes) == multiset(other.nodes) && multiset(w.connections) == multiset(other.connections)
  }

  /** The start nodes and the connections, listed so that those of the path `p` come first. */
  ghost function Prefer(w: Workflow, p: seq<Id>): Workflow
    requires p != []
  {
    var first := (node: Node) => node.kind == TRIGGER && node.id == p[0];
    var along := (c: Connection) => Along(p, c);
    Workflow(Chosen(w.nodes, first) + Others(w.nodes, first), Chosen(w.connections, along) + Others(w.connections, along))
  }

  predicate Along(p: seq<Id>, c: Connection) {
    exists i :: 0 <= i < |p| - 1 && c.source == p[i] && c.target == p[i + 1]
  }

  lemma PreferSame(w: Workflow, p: seq<Id>)
    requires p != []
    ensures SameUpToOrder(w, Prefer(w, p))
  {
    var first := (node: Node) => node.kind == TRIGGER && node.id == p[0];
    var along := (c: Connection) => Along(p, c);
    ChosenElems(w.nodes, first);
    ChosenElems(w.connections, along);
  }

  lemma {:induction false} TargetsConcat(a: seq<Connection>, b: seq<Connection>, v: Id)
    ensures Targets(a + b, v) == Targets(a, v) + Targets(b, v)
  {
    if b == [] {
      assert a + b == a;
    } else {
      var n := |b| - 1;
      TargetsConcat(a, b[..n], v);
      assert (a + b)[..|a + b| - 1] == a + b[..n];
    }
  }

  lemma {:induction false} TriggersConcat(a: seq<Node>, b: seq<Node>)
    ensures Triggers(a + b) == Triggers(a) + Triggers(b)
  {
    if b == [] {
      assert a + b == a;
    } else {
      var n := |b| - 1;
      TriggersConcat(a, b[..n]);
      assert (a + b)[..|a + b| - 1] == a + b[..n];
    }
  }

  /** The path's connections come first at their sources. */
  lemma PreferStep(w: Workflow, p: seq<Id>, i: nat)
    requires IsPath(w.connections, p) && Distinct(p) && i < |p| - 1
    ensures FirstStep(Prefer(w, p).connections, p, i)
  {
    var along := (c: Connection) => Along(p, c);
    var chosen, others := Chosen(w.connections, along), Others(w.connections, along);
    ChosenElems(w.connections, along);
    TargetsConcat(chosen, others, p[i]);
    assert Joined(w.connections, p, i);
    assert Along(p, Connection(p[i], p[i + 1])) && Edge(chosen, p[i], p[i + 1]);
    TargetsAreEdges(chosen, p[i], p[i + 1]);
    var v := Targets(chosen, p[i])[0];
    TargetsAreEdges(chosen, p[i], v);
    assert Connection(p[i], v) in chosen;
    var j :| 0 <= j < |p| - 1 && p[i] == p[j] && v == p[j + 1];
  }

  lemma PreferStart(w: Workflow, p: seq<Id>)
    requires p != [] && p[0] in Triggers(w.nodes)
    ensures var starts := Triggers(Prefer(w, p).nodes); starts != [] && starts[0] == p[0]
  {
    var first := (node: Node) => node.kind == TRIGGER && node.id == p[0];
    var chosen, others := Chosen(w.nodes, first), Others(w.nodes, first);
    ChosenElems(w.nodes, first);
    TriggersConcat(chosen, others);
    TriggersElems(w.nodes);
    TriggersElems(chosen);
    var node :| node in w.nodes && node.kind == TRIGGER && node.id == p[0];
    assert node in chosen;
    assert p[0] in Triggers(chosen);
    assert Triggers(chosen)[0] in Triggers(chosen);
  }

  // What does not depend on the order.

  ghost predicate SameEdges(a: seq<Connection>, b: seq<Connection>) {
    forall u, v :: Edge(a, u, v) <==> Edge(b, u, v)
  }

  lemma OrderIrrelevant(w: Workflow, other: Workflow)
    requires SameUpToOrder(w, other)
    ensures SameEdges(w.connections, other.connections) && Elems(Triggers(w.nodes)) == Elems(Triggers(other.nodes))
  {
    forall c: Connection
      ensures c in w.connections <==> c in other.connections
    {
      assert c in w.connections <==> c in multiset(w.connections);
    }
    forall node: Node
      ensures node in w.nodes <==> node in other.nodes
    {
      assert node in w.nodes <==> node in multiset(w.nodes);
    }
    TriggersElems(w.nodes);
    TriggersElems(other.nodes);
  }

  lemma SamePaths(a: seq<Connection>, b: seq<Connection>, p: seq<Id>)
    requires SameEdges(a, b)
    ensures IsPath(a, p) <==> IsPath(b, p)
  {
    forall i | 0 <= i < |p| - 1
      ensures Joined(a, p, i) <==> Joined(b, p, i)
    {
      assert Edge(a, p[i], p[i + 1]) <==> Edge(b, p[i], p[i + 1]);
    }
  }

  lemma SameDistances(a: seq<Connection>, b: seq<Connection>, from: set<Id>, v: Id, d: int)
    requires SameEdges(a, b)
    ensures AtDistance(a, from, v, d) <==> AtDistance(b, from, v, d)
  {
    forall p
      ensures IsPath(a, p) <==> IsPath(b, p)
    {
      SamePaths(a, b, p);
    }
  }

  lemma SameUp(a: seq<Connection>, b: seq<Connection>, from: set<Id>)
    requires SameEdges(a, b) && GoesUp(a, from)
    ensures GoesUp(b, from)
  {
    forall u, v, d, e | Edge(b, u, v) && AtDistance(b, from, u, d) && AtDistance(b, from, v, e)
      ensures d < e
    {
      SameDistances(a, b, from, u, d);
      SameDistances(a, b, from, v, e);
    }
  }

  /** Every node of a shortest path is as far away as its place says. */
  lemma ShortestPrefix(cs: seq<Connection>, from: set<Id>, p: seq<Id>, i: nat)
    requires IsPath(cs, p) && p[0] in from && i < |p| && AtDistance(cs, from, Last(p), |p| - 1)
    ensures AtDistance(cs, from, p[i], i)
  {
    Slice(cs, p, 0, i + 1);
    Slice(cs, p, i, |p|);
    assert Last(p[..i + 1]) == p[i] && HasPath(cs, from, p[i], i + 1);
    forall q | IsPath(cs, q) && q[0] in from && Last(q) == p[i]
      ensures |q| > i
    {
      Join(cs, q, p[i..]);
    }
  }

  lemma ShortestDistinct(cs: seq<Connection>, from: set<Id>, p: seq<Id>)
    requires IsPath(cs, p) && forall i :: 0 <= i < |p| ==> AtDistance(cs, from, p[i], i)
    ensures Distinct(p)
  {
    forall i, j | 0 <= i < j < |p|
      ensures p[i] != p[j]
    {
      assert AtDistance(cs, from, p[i], i) && AtDistance(cs, from, p[j], j);
    }
  }

  /** The workflow can be listed so that a finished run executes `v` before everything that is as far away. */
  lemma PreferRuns(w: Workflow, v: Id, d: nat) returns (other: Workflow, ids: seq<Id>, k: nat)
    requires AtDistance(w.connections, Elems(Triggers(w.nodes)), v, d)
    ensures SameUpToOrder(w, other) && Exhausted(other.connections, Triggers(other.nodes), ids)
    ensures k < |ids| && ids[k] == v && AllNearer(other.connections, Elems(Triggers(other.nodes)), ids[..k], d)
  {
    var cs, from := w.connections, Elems(Triggers(w.nodes));
    var p :| IsPath(cs, p) && p[0] in from && Last(p) == v && |p| == d + 1;
    forall i | 0 <= i < |p|
      ensures AtDistance(cs, from, p[i], i)
    {
      ShortestPrefix(cs, from, p, i);
    }
    ShortestDistinct(cs, from, p);
    other := Prefer(w, p);
    PreferSame(w, p);
    ids := SomeRun(other.connections, Triggers(other.nodes));
    PreferPreferred(w, p);
    k := PreferredFirst(other.connections, Triggers(other.nodes), ids, p, d);
  }

  lemma PreferPreferred(w: Workflow, p: seq<Id>)
    requires IsPath(w.connections, p) && p[0] in Triggers(w.nodes) && Distinct(p)
    requires forall i :: 0 <= i < |p| ==> AtDistance(w.connections, Elems(Triggers(w.nodes)), p[i], i)
    ensures Preferred(Prefer(w, p).connections, Triggers(Prefer(w, p).nodes), p)
  {
    var other, from := Prefer(w, p), Elems(Triggers(w.nodes));
    PreferSame(w, p);
    OrderIrrelevant(w, other);
    PreferStart(w, p);
    forall i | 0 <= i < |p|
      ensures AtDistance(other.connections, from, p[i], i)
    {
      SameDistances(w.connections, other.connections, from, p[i], i);
    }
    forall i | 0 <= i < |p| - 1
      ensures FirstStep(other.connections, p, i)
    {
      PreferStep(w, p, i);
    }
  }

  /** In the finished runs of a workflow, however its nodes and connections are listed, all predecessors come first exactly
      when every connection leads further away from the triggers. */
  lemma RunsExactly(w: Workflow)
    ensures GoesUp(w.connections, Elems(Triggers(w.nodes))) <==>
            forall other, ids :: SameUpToOrder(w, other) && Exhausted(other.connections, Triggers(other.nodes), ids) ==>
                                   PredecessorsFirst(other.connections, Elems(Triggers(other.nodes)), ids)
  {
    var cs, from := w.connections, Elems(Triggers(w.nodes));
    if GoesUp(cs, from) {
      forall other, ids | SameUpToOrder(w, other) && Exhausted(other.connections, Triggers(other.nodes), ids)
        ensures PredecessorsFirst(other.connections, Elems(Triggers(other.nodes)), ids)
      {
        OrderIrrelevant(w, other);
        SameUp(cs, other.connections, from);
        FinishedListsAll(other.connections, Triggers(other.nodes), ids);
        UpIsFirst(other.connections, from, ids);
      }
    } else {
      var u, v, d, e :| Edge(cs, u, v) && AtDistance(cs, from, u, d) && AtDistance(cs, from, v, e) && d >= e;
      DistanceIsNat(cs, from, v, e);
      var other, ids, k := PreferRuns(w, v, e);
      OrderIrrelevant(w, other);
      SameDistances(cs, other.connections, from, u, d);
      NotFirst(other.connections, from, ids, k, u, d, e);
    }
  }

  /** For example: if the only trigger leads to `v` first and to `u` next, every finished run executes `v` before `u`, also
      when `v` is to merge what comes from `u`. */
  lemma RunsBeforePredecessor(cs: seq<Connection>, t: Id, u: Id, v: Id, ids: seq<Id>) returns (k: nat)
    requires t != u && t != v && u != v && Targets(cs, t) == [v, u] && Edge(cs, u, v)
    requires Exhausted(cs, [t], ids)
    ensures k < |ids| && ids[k] == v && u in ids && u !in ids[..k]
  {
    FirstStart(cs, [t], ids);
    NextToTrigger(cs, t, u);
    NextToTrigger(cs, t, v);
    k := FirstTarget(cs, [t], ids, 0, v, 0);
    NotWithin(cs, {t}, u, 1, 0);
    assert Elems([t]) == {t};
    FinishedListsAll(cs, [t], ids);
    ReachableByPath(cs, {t}, u, 2);
  }

  lemma NextToTrigger(cs: seq<Connection>, t: Id, x: Id)
    requires t != x && x in Targets(cs, t)
    ensures AtDistance(cs, {t}, x, 1)
  {
    TargetsAreEdges(cs, t, x);
    assert Joined(cs, [t, x], 0);
    assert IsPath(cs, [t, x]) && Last([t, x]) == x && HasPath(cs, {t}, x, 2);
  }
}
