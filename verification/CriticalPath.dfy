/** The critical path: a longest-path computation over the topological order. */
module CriticalPath {
  import opened Workflows
  import opened Graphs
  import opened Degrees
  import opened Dags
  import opened TopologicalOrder
  import opened Levels

  /** The empty identifier, which the loop that follows the parents takes as the end. */
  const NONE := Id("")

  /** A path to `v` that meets no start node after its first node: a start node resets the distance. */
  ghost predicate Segment(cs: seq<Connection>, starts: set<Id>, v: Id, p: seq<Id>) {
    IsPath(cs, p) && Last(p) == v && forall i :: 1 <= i < |p| ==> p[i] !in starts
  }

  ghost predicate SegmentOf(cs: seq<Connection>, starts: set<Id>, v: Id, n: int) {
    exists p :: Segment(cs, starts, v, p) && |p| == n
  }

  /** The longest such path has `n` nodes. */
  ghost predicate LongestSegment(cs: seq<Connection>, starts: set<Id>, v: Id, n: int) {
    SegmentOf(cs, starts, v, n) && forall p :: Segment(cs, starts, v, p) ==> |p| <= n
  }

  // The distances after part of the order has been scanned.

  datatype Distances = Distances(dist: map<Id, int>, parent: map<Id, Id>)

  /** What is known of a node that the scan has passed. */
  ghost predicate Passed(cs: seq<Connection>, starts: set<Id>, s: Distances, v: Id) {
    LongestSegment(cs, starts, v, Count(s.dist, v))
  }

  /** The parent of `v`, if any, is a passed predecessor that gave `v` its distance. */
  ghost predicate ParentFits(cs: seq<Connection>, starts: set<Id>, done: set<Id>, s: Distances, v: Id) {
    if v in s.parent then
      && s.parent[v] in done && Edge(cs, s.parent[v], v)
      && ((v in done && v in starts) || Count(s.dist, v) == Count(s.dist, s.parent[v]) + 1)
    else
      v !in done ==> Count(s.dist, v) == 0
  }

  /** A passed predecessor has been taken into account. */
  ghost predicate EdgeFits(done: set<Id>, s: Distances, u: Id, v: Id) {
    u in done ==> v in s.parent && (v !in done ==> Count(s.dist, v) >= Count(s.dist, u) + 1)
  }

  ghost predicate Scanned(cs: seq<Connection>, starts: set<Id>, done: set<Id>, s: Distances) {
    && (forall v :: v in done ==> Passed(cs, starts, s, v))
    && (forall v :: ParentFits(cs, starts, done, s, v))
    && forall u, v {:trigger Edge(cs, u, v)} :: Edge(cs, u, v) ==> EdgeFits(done, s, u, v)
  }

  /** The distance that a node gets when the scan arrives at it. */
  function Settle(starts: seq<Id>, dist: map<Id, int>, v: Id): map<Id, int> {
    if v in starts then dist[v := 1] else if Count(dist, v) == 0 then dist[v := 1] else dist
  }

  lemma SettledSegment(cs: seq<Connection>, starts: seq<Id>, done: set<Id>, s: Distances, v: Id)
    requires Scanned(cs, Elems(starts), done, s) && v !in done
    requires forall u :: Edge(cs, u, v) ==> u in done
    ensures LongestSegment(cs, Elems(starts), v, Count(Settle(starts, s.dist, v), v))
  {
    var from := Elems(starts);
    var n := Count(Settle(starts, s.dist, v), v);
    assert ParentFits(cs, from, done, s, v);
    if v in starts || v !in s.parent {
      assert IsPath(cs, [v]) && Segment(cs, from, v, [v]);
    } else {
      var u := s.parent[v];
      assert Passed(cs, from, s, u);
      SegmentExtends(cs, from, u, Count(s.dist, u), v);
    }
    forall p | Segment(cs, from, v, p)
      ensures |p| <= n
    {
      if |p| >= 2 {
        SegmentBound(cs, starts, done, s, v, p);
      }
    }
  }

  lemma SegmentExtends(cs: seq<Connection>, from: set<Id>, u: Id, n: int, v: Id)
    requires SegmentOf(cs, from, u, n) && Edge(cs, u, v) && v !in from
    ensures SegmentOf(cs, from, v, n + 1) && n >= 1
  {
    var p :| Segment(cs, from, u, p) && |p| == n;
    Extend(cs, p, v);
    assert Segment(cs, from, v, p + [v]);
  }

  lemma SegmentBound(cs: seq<Connection>, starts: seq<Id>, done: set<Id>, s: Distances, v: Id, p: seq<Id>)
    requires Scanned(cs, Elems(starts), done, s) && v !in done
    requires forall u :: Edge(cs, u, v) ==> u in done
    requires Segment(cs, Elems(starts), v, p) && |p| >= 2
    ensures |p| <= Count(Settle(starts, s.dist, v), v)
  {
    var from, n := Elems(starts), |p| - 1;
    assert v == p[n] && v !in from;
    assert Joined(cs, p, n - 1);
    var u := p[n - 1];
    Slice(cs, p, 0, n);
    assert Segment(cs, from, u, p[..n]);
    assert Passed(cs, from, s, u);
    assert EdgeFits(done, s, u, v);
  }

  /** The neighbors of `v` for which the path over `v` is longer get it as their parent. */
  ghost predicate Relaxed(s: Distances, v: Id, neighbors: seq<Id>, r: Distances) {
    forall w ::
      if w in neighbors && Count(s.dist, v) + 1 > Count(s.dist, w)
      then Count(r.dist, w) == Count(s.dist, v) + 1 && w in r.parent && r.parent[w] == v
      else Count(r.dist, w) == Count(s.dist, w) && (w in r.parent <==> w in s.parent)
           && (w in s.parent ==> r.parent[w] == s.parent[w])
  }

  method RelaxNeighbors(v: Id, neighbors: seq<Id>, s: Distances) returns (r: Distances)
    requires v !in neighbors
    ensures Relaxed(s, v, neighbors, r)
  {
    r := s;
    for i := 0 to |neighbors|
      invariant Relaxed(s, v, neighbors[..i], r)
    {
      assert neighbors[..i + 1] == neighbors[..i] + [neighbors[i]];
      assert Count(r.dist, v) == Count(s.dist, v);
      if Count(r.dist, v) + 1 > Count(r.dist, neighbors[i]) {
        r := Distances(r.dist[neighbors[i] := Count(r.dist, v) + 1], r.parent[neighbors[i] := v]);
      }
    }
    assert neighbors[..|neighbors|] == neighbors;
  }

  lemma ScannedNext(cs: seq<Connection>, starts: seq<Id>, done: set<Id>, s: Distances, v: Id, neighbors: seq<Id>, r: Distances)
    requires Scanned(cs, Elems(starts), done, s) && v !in done
    requires forall u :: Edge(cs, u, v) ==> u in done
    requires forall u, w {:trigger Edge(cs, u, w)} :: w in done && Edge(cs, u, w) ==> u in done
    requires Lists(cs, v, neighbors) && Relaxed(Distances(Settle(starts, s.dist, v), s.parent), v, neighbors, r)
    ensures Scanned(cs, Elems(starts), done + {v}, r)
  {
    var from := Elems(starts);
    var t := Distances(Settle(starts, s.dist, v), s.parent);
    SettledSegment(cs, starts, done, s, v);
    assert v !in neighbors;
    forall x
      ensures x in done + {v} ==> Passed(cs, from, r, x)
      ensures ParentFits(cs, from, done + {v}, r, x)
    {
      PassedNext(cs, starts, done, s, v, neighbors, r, x);
    }
    forall u, w | Edge(cs, u, w)
      ensures EdgeFits(done + {v}, r, u, w)
    {
      assert EdgeFits(done, s, u, w);
      assert ParentFits(cs, from, done, s, w);
    }
  }

  lemma PassedNext(cs: seq<Connection>, starts: seq<Id>, done: set<Id>, s: Distances, v: Id, neighbors: seq<Id>,
                   r: Distances, x: Id)
    requires Scanned(cs, Elems(starts), done, s) && v !in done && v !in neighbors
    requires forall u, w {:trigger Edge(cs, u, w)} :: w in done && Edge(cs, u, w) ==> u in done
    requires Lists(cs, v, neighbors) && Relaxed(Distances(Settle(starts, s.dist, v), s.parent), v, neighbors, r)
    requires LongestSegment(cs, Elems(starts), v, Count(Settle(starts, s.dist, v), v))
    ensures x in done + {v} ==> Passed(cs, Elems(starts), r, x)
    ensures ParentFits(cs, Elems(starts), done + {v}, r, x)
  {
    var t := Settle(starts, s.dist, v);
    assert ParentFits(cs, Elems(starts), done, s, x);
    assert x != v ==> Count(t, x) == Count(s.dist, x);
    assert forall y :: y in neighbors ==> Edge(cs, v, y);
    if x in s.parent {
      assert Count(t, s.parent[x]) == Count(s.dist, s.parent[x]);
    }
  }

  /** The scan over the topological order. */
  method ScanOrder(d: Dag, ids: seq<Id>) returns (s: Distances)
    requires d.Valid() && Distinct(ids) && Forward(d.workflow.connections, ids)
    ensures Scanned(d.workflow.connections, d.workflow.Starts(), Elems(ids), s)
  {
    ghost var cs := d.workflow.connections;
    RepresentsSameGraph(d.edges, cs);
    s := Distances(map[], map[]);
    for i := 0 to |ids|
      invariant Scanned(cs, Elems(d.startNodes), Elems(ids[..i]), s)
    {
      var v := ids[i];
      assert ids[..i + 1] == ids[..i] + [v];
      ElemsAppend(ids[..i], v);
      OrderFacts(cs, ids, i);
      var neighbors := Out(d.edges, v);
      assert Lists(cs, v, neighbors);
      var r := RelaxNeighbors(v, neighbors, Distances(Settle(d.startNodes, s.dist, v), s.parent));
      ScannedNext(cs, d.startNodes, Elems(ids[..i]), s, v, neighbors, r);
      s := r;
    }
    assert ids[..|ids|] == ids;
  }

  lemma OrderFacts(cs: seq<Connection>, ids: seq<Id>, i: nat)
    requires Distinct(ids) && Forward(cs, ids) && i < |ids|
    ensures ids[i] !in Elems(ids[..i]) && !Edge(cs, ids[i], ids[i])
    ensures forall u :: Edge(cs, u, ids[i]) ==> u in Elems(ids[..i])
    ensures forall u, w {:trigger Edge(cs, u, w)} :: w in Elems(ids[..i]) && Edge(cs, u, w) ==> u in Elems(ids[..i])
  {
    forall u, w | w in Elems(ids[..i]) && Edge(cs, u, w)
      ensures u in Elems(ids[..i])
    {
      var j :| 0 <= j < i && ids[j] == w;
      assert Edge(cs, u, ids[j]);
    }
  }

  /** The first end node whose distance is largest, or the empty identifier when no distance is positive. */
  method FindEnd(endNodes: seq<Id>, dist: map<Id, int>) returns (end: Id)
    ensures forall e :: e in endNodes && Count(dist, e) > 0 ==> end in endNodes && Count(dist, end) >= Count(dist, e)
    ensures end == NONE || (end in endNodes && Count(dist, end) > 0)
  {
    var maxDist := 0;
    end := NONE;
    for i := 0 to |endNodes|
      invariant forall e :: e in endNodes[..i] ==> Count(dist, e) <= maxDist
      invariant maxDist == 0 ==> end == NONE
      invariant maxDist > 0 ==> end in endNodes && Count(dist, end) == maxDist
      invariant maxDist >= 0
    {
      if Count(dist, endNodes[i]) > maxDist {
        maxDist, end := Count(dist, endNodes[i]), endNodes[i];
      }
    }
  }

  /** Each node of the path is the parent of the next, and the first one has no parent. */
  ghost predicate Chain(parent: map<Id, Id>, end: Id, path: seq<Id>) {
    && path != [] && Last(path) == end
    && (forall i :: 0 < i < |path| ==> path[i] in parent && path[i - 1] == parent[path[i]])
    && (path[0] in parent ==> parent[path[0]] == NONE)
  }

  /** Parents stand earlier in the order, so following them comes to an end. */
  ghost predicate ParentsEarlier(ids: seq<Id>, parent: map<Id, Id>) {
    && (forall v :: v in parent ==> parent[v] in ids)
    && forall i :: 0 <= i < |ids| && ids[i] in parent ==> parent[ids[i]] in ids[..i]
  }

  method FollowParents(end: Id, parent: map<Id, Id>, ghost ids: seq<Id>) returns (path: seq<Id>)
    requires ParentsEarlier(ids, parent)
    ensures end == NONE <==> path == []
    ensures end != NONE ==> Chain(parent, end, path)
  {
    path := [];
    var current := end;
    ghost var left := |ids| + 1;
    while current != NONE
      invariant 0 <= left <= |ids| + 1 && (left <= |ids| && current != NONE ==> current in ids[..left])
      invariant if path == [] then current == end && left == |ids| + 1 else left <= |ids| && Climbed(parent, end, path, current)
      decreases left
    {
      ClimbNext(parent, end, path, current);
      left := EarlierPlace(ids, parent, current, left);
      path := [current] + path;
      current := if current in parent then parent[current] else NONE;
    }
  }

  /** A chain of parents whose first node is about to be followed to `next`. */
  ghost predicate Climbed(parent: map<Id, Id>, end: Id, path: seq<Id>, next: Id) {
    && path != [] && Last(path) == end && end != NONE
    && (forall i :: 0 < i < |path| ==> path[i] in parent && path[i - 1] == parent[path[i]])
    && next == if path[0] in parent then parent[path[0]] else NONE
  }

  lemma ClimbNext(parent: map<Id, Id>, end: Id, path: seq<Id>, current: Id)
    requires current != NONE && if path == [] then current == end else Climbed(parent, end, path, current)
    ensures Climbed(parent, end, [current] + path, if current in parent then parent[current] else NONE)
  {
  }

  /** Where in the order the search for the next parent can stop. */
  lemma EarlierPlace(ids: seq<Id>, parent: map<Id, Id>, current: Id, left: nat) returns (j: nat)
    requires ParentsEarlier(ids, parent) && left <= |ids| + 1 && (left <= |ids| ==> current in ids[..left])
    ensures j < left && j <= |ids| && (current in parent ==> parent[current] in ids[..j])
  {
    if left == |ids| + 1 {
      j := |ids|;
      assert ids[..j] == ids;
    } else {
      j :| 0 <= j < left && ids[j] == current;
    }
  }

  // What the path is.

  /** A closed acyclic workflow in which the empty identifier names no node. */
  ghost predicate Usable(w: Workflow) {
    w.Closed() && Acyclic(w.connections) && NONE !in w.Declared()
  }

  /** A path from a node without incoming connections to an end node, at least as long as every path to an
      end node that meets start nodes only at its beginning. */
  ghost predicate Critical(w: Workflow, path: seq<Id>) {
    && IsPath(w.connections, path) && Elems(path) <= w.Declared()
    && !w.HasIncoming(path[0]) && Last(path) in w.Ends()
    && exists n :: CriticalLength(w, Last(path), n) && n <= |path|
  }

  ghost predicate CriticalLength(w: Workflow, end: Id, n: int) {
    && LongestSegment(w.connections, w.Starts(), end, n)
    && forall e, p :: e in w.Ends() && Segment(w.connections, w.Starts(), e, p) ==> |p| <= n
  }

  /** No path of the graph has more nodes. */
  ghost predicate IsLongest(w: Workflow, path: seq<Id>) {
    forall p :: IsPath(w.connections, p) && p[0] in w.Declared() ==> |p| <= |path|
  }

  /** Triggers and webhooks have no incoming connections. */
  ghost predicate EntriesAreSources(w: Workflow) {
    forall v :: v in w.Starts() ==> !w.HasIncoming(v)
  }

  lemma ScannedParents(cs: seq<Connection>, starts: set<Id>, ids: seq<Id>, s: Distances)
    requires Forward(cs, ids) && Scanned(cs, starts, Elems(ids), s)
    ensures ParentsEarlier(ids, s.parent)
  {
    forall v | v in s.parent
      ensures s.parent[v] in ids && Edge(cs, s.parent[v], v)
    {
      assert ParentFits(cs, starts, Elems(ids), s, v);
    }
    forall i | 0 <= i < |ids| && ids[i] in s.parent
      ensures s.parent[ids[i]] in ids[..i]
    {
      assert Edge(cs, s.parent[ids[i]], ids[i]);
    }
  }

  lemma ChainFollowsEdges(cs: seq<Connection>, starts: set<Id>, done: set<Id>, s: Distances, end: Id, path: seq<Id>)
    requires Scanned(cs, starts, done, s) && Chain(s.parent, end, path)
    ensures IsPath(cs, path)
  {
    forall i | 0 <= i < |path| - 1
      ensures Joined(cs, path, i)
    {
      assert path[i + 1] in s.parent && path[i + 1 - 1] == s.parent[path[i + 1]];
      assert ParentFits(cs, starts, done, s, path[i + 1]);
    }
  }

  lemma ChainIsPath(w: Workflow, s: Distances, end: Id, path: seq<Id>)
    requires Usable(w) && Scanned(w.connections, w.Starts(), w.Declared(), s)
    requires end in w.Declared() && Chain(s.parent, end, path)
    ensures IsPath(w.connections, path) && Elems(path) <= w.Declared() && !w.HasIncoming(path[0])
  {
    var cs := w.connections;
    forall v | v in s.parent
      ensures s.parent[v] in w.Declared() && Edge(cs, s.parent[v], v)
    {
      assert ParentFits(cs, w.Starts(), w.Declared(), s, v);
    }
    ChainFollowsEdges(cs, w.Starts(), w.Declared(), s, end, path);
    forall i | 0 <= i < |path|
      ensures path[i] in w.Declared()
    {
      if i < |path| - 1 {
        assert path[i + 1] in s.parent && path[i + 1 - 1] == s.parent[path[i + 1]];
      }
    }
    forall u
      ensures !Edge(cs, u, path[0])
    {
      assert Edge(cs, u, path[0]) ==> EdgeFits(w.Declared(), s, u, path[0]);
    }
  }

  lemma {:induction false} ChainLength(w: Workflow, s: Distances, path: seq<Id>, i: nat)
    requires Scanned(w.connections, w.Starts(), w.Declared(), s)
    requires path != [] && Elems(path) <= w.Declared() && !w.HasIncoming(path[0])
    requires forall k :: 0 < k < |path| ==> path[k] in s.parent && path[k - 1] == s.parent[path[k]]
    requires i < |path|
    ensures Count(s.dist, path[i]) <= i + 1
  {
    var v := path[i];
    assert v in Elems(path) && Passed(w.connections, w.Starts(), s, v);
    var p :| Segment(w.connections, w.Starts(), v, p) && |p| == Count(s.dist, v);
    if |p| < 2 {
    } else {
      assert Joined(w.connections, p, |p| - 2);
      assert p[|p| - 1] !in w.Starts();
      assert ParentFits(w.connections, w.Starts(), w.Declared(), s, v);
      ChainLength(w, s, path, i - 1);
    }
  }

  lemma ChainIsCritical(w: Workflow, s: Distances, end: Id, path: seq<Id>)
    requires Usable(w) && Scanned(w.connections, w.Starts(), w.Declared(), s)
    requires end in w.Ends() && forall e :: e in w.Ends() ==> Count(s.dist, end) >= Count(s.dist, e)
    requires Chain(s.parent, end, path)
    ensures Critical(w, path)
  {
    ChainIsPath(w, s, end, path);
    ChainLength(w, s, path, |path| - 1);
    var n := Count(s.dist, end);
    assert Passed(w.connections, w.Starts(), s, end);
    forall e, p | e in w.Ends() && Segment(w.connections, w.Starts(), e, p)
      ensures |p| <= n
    {
      assert Passed(w.connections, w.Starts(), s, e);
    }
    assert CriticalLength(w, end, n);
  }

  method GetCriticalPath(d: Dag) returns (path: seq<Id>)
    requires d.Valid()
    ensures |RootedIds(d.workflow.Declared(), d.workflow.connections)| != |d.workflow.Declared()| ==> path == []
    ensures path != [] ==> IsPath(d.workflow.connections, path) && Last(path) in d.workflow.Ends()
    ensures Usable(d.workflow) && d.workflow.Declared() != {} ==> Critical(d.workflow, path)
    ensures Usable(d.workflow) && EntriesAreSources(d.workflow) ==> IsLongest(d.workflow, path)
    ensures Usable(d.workflow) && (exists r :: LongestUnbroken(d.workflow, r)) ==> IsLongest(d.workflow, path)
  {
    ghost var w := d.workflow;
    var order := GetTopologicalOrder(d);
    if order.Cyclic? {
      UsableSorts(w);
      return [];
    }
    var s := ScanOrder(d, order.ids);
    var end := FindEnd(d.endNodes, s.dist);
    ScannedParents(w.connections, w.Starts(), order.ids, s);
    path := FollowParents(end, s.parent, order.ids);
    if end != NONE {
      ChainFollowsEdges(w.connections, w.Starts(), Elems(order.ids), s, end, path);
      assert end in Elems(d.endNodes);
    }
    if Usable(w) {
      UsableSorts(w);
      EndFound(w, s, d.endNodes, end);
      if w.Declared() != {} {
        ChainIsCritical(w, s, end, path);
        if EntriesAreSources(w) {
          CriticalIsLongest(w, path);
        }
        forall r | LongestUnbroken(w, r)
          ensures IsLongest(w, path)
        {
          UnbrokenIsLongest(w, path, r);
        }
      }
    }
  }

  lemma UsableSorts(w: Workflow)
    ensures Usable(w) ==> |RootedIds(w.Declared(), w.connections)| == |w.Declared()|
    ensures Usable(w) ==> RootedIds(w.Declared(), w.connections) == w.Declared()
  {
    if Usable(w) {
      AcyclicNoCycle(w.connections, w.Declared());
      ClosedSorts(w);
    }
  }

  lemma EndFound(w: Workflow, s: Distances, endNodes: seq<Id>, end: Id)
    requires Usable(w) && Elems(endNodes) == w.Ends()
    requires Scanned(w.connections, w.Starts(), w.Declared(), s)
    requires forall e :: e in endNodes && Count(s.dist, e) > 0 ==> end in endNodes && Count(s.dist, end) >= Count(s.dist, e)
    requires end == NONE || (end in endNodes && Count(s.dist, end) > 0)
    ensures w.Declared() != {} ==> end in w.Ends() && end != NONE
    ensures forall e :: e in w.Ends() ==> Count(s.dist, end) >= Count(s.dist, e)
  {
    forall e | e in w.Ends()
      ensures e in endNodes && Count(s.dist, e) > 0
    {
      assert e in Elems(endNodes);
      assert Passed(w.connections, w.Starts(), s, e);
    }
    if w.Declared() != {} {
      var v :| v in w.Declared();
      AllReachEnds(w, v);
      assert end in Elems(endNodes);
    }
  }

  /** A longest path that meets no start node after its first. */
  ghost predicate LongestUnbroken(w: Workflow, r: seq<Id>) {
    && IsPath(w.connections, r) && r[0] in w.Declared() && IsLongest(w, r)
    && forall i :: 1 <= i < |r| ==> r[i] !in w.Starts()
  }

  /** When some longest path meets no start node after its first, the critical path is a longest path. */
  lemma UnbrokenIsLongest(w: Workflow, path: seq<Id>, r: seq<Id>)
    requires w.Closed() && Acyclic(w.connections) && Critical(w, path) && LongestUnbroken(w, r)
    ensures IsLongest(w, path)
  {
    LongestEnds(w, r);
    assert Segment(w.connections, w.Starts(), Last(r), r);
    var n :| CriticalLength(w, Last(path), n) && n <= |path|;
  }

  lemma LongestEnds(w: Workflow, r: seq<Id>)
    requires w.Closed() && Acyclic(w.connections) && IsPath(w.connections, r) && r[0] in w.Declared() && IsLongest(w, r)
    ensures Last(r) in w.Ends()
  {
    LastDeclared(w, r);
    AllReachEnds(w, Last(r));
    var q :| IsPath(w.connections, q) && q[0] == Last(r) && Last(q) in w.Ends();
    Join(w.connections, r, q);
  }

  /** In particular it is when no trigger or webhook has an incoming connection. */
  lemma CriticalIsLongest(w: Workflow, path: seq<Id>)
    requires w.Closed() && Acyclic(w.connections) && EntriesAreSources(w) && Critical(w, path)
    ensures IsLongest(w, path)
  {
    var cs := w.connections;
    var n :| CriticalLength(w, Last(path), n) && n <= |path|;
    forall p | IsPath(cs, p) && p[0] in w.Declared()
      ensures |p| <= |path|
    {
      LastDeclared(w, p);
      AllReachEnds(w, Last(p));
      var q :| IsPath(cs, q) && q[0] == Last(p) && Last(q) in w.Ends();
      Join(cs, p, q);
      var r := p + q[1..];
      forall i | 1 <= i < |r|
        ensures r[i] !in w.Starts()
      {
        assert Joined(cs, r, i - 1);
        assert Edge(cs, r[i - 1], r[i]);
      }
      assert Segment(cs, w.Starts(), Last(q), r);
    }
  }

  lemma LastDeclared(w: Workflow, p: seq<Id>)
    requires w.Closed() && IsPath(w.connections, p) && p[0] in w.Declared()
    ensures Last(p) in w.Declared()
  {
    forall u, v | Edge(w.connections, u, v)
      ensures v in w.Declared()
    {
      assert Connection(u, v) in w.connections;
    }
    PathStaysIn(w.connections, p, w.Declared());
  }

  /** The critical path has one node more than the largest level. */
  lemma CriticalPathMatchesLevels(w: Workflow, levels: map<Id, int>, path: seq<Id>)
    requires w.Closed() && Acyclic(w.connections) && EntriesAreSources(w)
    requires AreLevels(w, levels) && Critical(w, path)
    ensures forall v :: v in levels ==> levels[v] + 1 <= |path|
    ensures Last(path) in levels && levels[Last(path)] + 1 == |path|
  {
    var cs := w.connections;
    CriticalIsLongest(w, path);
    assert path[0] in Elems(path) && path[0] in w.Starts();
    assert Last(path) in Elems(path);
    forall v | v in levels
      ensures levels[v] + 1 <= |path|
    {
      assert IsLevel(cs, w.Starts(), v, levels[v]);
      if levels[v] >= 0 {
        var p :| IsPath(cs, p) && p[0] in w.Starts() && Last(p) == v && |p| == levels[v] + 1;
      }
    }
  }

  /** Entry nodes of other kinds than `kind` have no incoming connections. */
  ghost predicate OthersAreSources(w: Workflow, kind: string) {
    forall v :: v in w.Declared() && w.NodeMap()[v].IsEntry() && w.NodeMap()[v].kind != kind ==> !w.HasIncoming(v)
  }

  /** Incoming connections are harmless exactly at the kinds of nodes that are not entries: when no entry of another
      kind has any, every critical path of every workflow is a longest one. */
  lemma LongestExactly(kind: string)
    ensures kind != TRIGGER && kind != WEBHOOK <==>
            forall w, path :: Usable(w) && OthersAreSources(w, kind) && Critical(w, path) ==> IsLongest(w, path)
  {
    if kind == TRIGGER || kind == WEBHOOK {
      var ids := [Id("x"), Id("s"), Id("t"), Id("y"), Id("z")];
      assert forall i :: 0 <= i < |ids| ==> |ids[i].name| == 1;
      assert Distinct(ids);
      EntryWithIncoming(kind, Id("x"), Id("s"), Id("t"), Id("y"), Id("z"));
    } else {
      forall w, path | Usable(w) && OthersAreSources(w, kind) && Critical(w, path)
        ensures IsLongest(w, path)
      {
        CriticalIsLongest(w, path);
      }
    }
  }

  /** Here `t` is an entry at the end of the path from `x`, so its distance is reset to one, and the two nodes
      from `y` are preferred over the three that lead to `t`. */
  lemma EntryWithIncoming(kind: string, x: Id, s: Id, t: Id, y: Id, z: Id)
    requires (kind == TRIGGER || kind == WEBHOOK) && Distinct([x, s, t, y, z]) && NONE !in [x, s, t, y, z]
    ensures var w := Detour(kind, x, s, t, y, z);
            && Usable(w) && OthersAreSources(w, kind)
            && (forall path :: Critical(w, path) <==> path == [y, z])
            && !IsLongest(w, [y, z])
  {
    var w := Detour(kind, x, s, t, y, z);
    DetourEdges(kind, x, s, t, y, z);
    DetourDeclares(kind, x, s, t, y, z);
    DetourUsable(w, x, s, t, y, z);
    DetourStarts(kind, x, s, t, y, z);
    DetourEnds(kind, x, s, t, y, z);
    DetourCritical(w, x, s, t, y, z);
    forall path | Critical(w, path)
      ensures path == [y, z]
    {
      DetourPath(w, x, s, t, y, z, path);
    }
    DetourLonger(w, x, s, t, y, z);
  }

  lemma DetourLonger(w: Workflow, x: Id, s: Id, t: Id, y: Id, z: Id)
    requires DetourShape(w.connections, x, s, t, y, z) && x in w.Declared()
    ensures !IsLongest(w, [y, z])
  {
    var p := [x, s, t];
    assert Joined(w.connections, p, 0) && Joined(w.connections, p, 1);
    assert IsPath(w.connections, p) && p[0] in w.Declared();
  }

  ghost predicate DetourShape(cs: seq<Connection>, x: Id, s: Id, t: Id, y: Id, z: Id) {
    && x != y && s != y && t != y && s != z && t != z && x != t && x != z && s != t && y != z && x != s
    && forall a, b :: Edge(cs, a, b) <==> (a == x && b == s) || (a == s && b == t) || (a == y && b == z)
  }

  lemma DetourPath(w: Workflow, x: Id, s: Id, t: Id, y: Id, z: Id, path: seq<Id>)
    requires DetourShape(w.connections, x, s, t, y, z)
    requires t in w.Starts() && z !in w.Starts() && w.Ends() == {t, z} && Critical(w, path)
    ensures path == [y, z]
  {
    var cs := w.connections;
    assert Joined(cs, [y, z], 0);
    assert Segment(cs, w.Starts(), z, [y, z]);
    var n :| CriticalLength(w, Last(path), n) && n <= |path|;
    var p :| Segment(cs, w.Starts(), Last(path), p) && |p| == n;
    assert p[n - 1] !in w.Starts();
    assert Last(path) == z;
    assert Joined(cs, path, |path| - 2);
    if |path| > 2 {
      PredecessorOnPath(cs, path, |path| - 2);
    }
  }

  lemma DetourCritical(w: Workflow, x: Id, s: Id, t: Id, y: Id, z: Id)
    requires DetourShape(w.connections, x, s, t, y, z)
    requires t in w.Starts() && z !in w.Starts() && w.Ends() == {t, z} && {y, z} <= w.Declared()
    ensures Critical(w, [y, z])
  {
    var cs := w.connections;
    assert Joined(cs, [y, z], 0);
    assert Segment(cs, w.Starts(), z, [y, z]);
    forall e, p | e in w.Ends() && Segment(cs, w.Starts(), e, p)
      ensures |p| <= 2
    {
      if |p| > 2 {
        PredecessorOnPath(cs, p, |p| - 1);
        PredecessorOnPath(cs, p, |p| - 2);
      }
    }
    assert CriticalLength(w, z, 2);
  }

  lemma PredecessorOnPath(cs: seq<Connection>, p: seq<Id>, i: nat)
    requires IsPath(cs, p) && 0 < i < |p|
    ensures Edge(cs, p[i - 1], p[i])
  {
    assert Joined(cs, p, i - 1);
  }

  function Detour(kind: string, x: Id, s: Id, t: Id, y: Id, z: Id): Workflow {
    Workflow([Node(x, TRIGGER, false), Node(s, "action", false), Node(t, kind, false),
              Node(y, TRIGGER, false), Node(z, "action", false)],
             [Connection(x, s), Connection(s, t), Connection(y, z)])
  }

  lemma DetourEdges(kind: string, x: Id, s: Id, t: Id, y: Id, z: Id)
    requires Distinct([x, s, t, y, z])
    ensures DetourShape(Detour(kind, x, s, t, y, z).connections, x, s, t, y, z)
  {
    var ids := [x, s, t, y, z];
    assert ids[0] == x && ids[1] == s && ids[2] == t && ids[3] == y && ids[4] == z;
  }

  lemma DetourDeclares(kind: string, x: Id, s: Id, t: Id, y: Id, z: Id)
    ensures Detour(kind, x, s, t, y, z).Declared() == {x, s, t, y, z}
  {
    var w := Detour(kind, x, s, t, y, z);
    assert w.nodes[0].id == x && w.nodes[1].id == s && w.nodes[2].id == t && w.nodes[3].id == y && w.nodes[4].id == z;
  }

  lemma DetourUsable(w: Workflow, x: Id, s: Id, t: Id, y: Id, z: Id)
    requires DetourShape(w.connections, x, s, t, y, z) && w.Declared() == {x, s, t, y, z} && NONE !in w.Declared()
    ensures Usable(w)
  {
    DetourAcyclic(w.connections, x, s, t, y, z);
    forall c | c in w.connections
      ensures c.source in w.Declared() && c.target in w.Declared()
    {
      assert Edge(w.connections, c.source, c.target);
    }
  }

  lemma DetourAcyclic(cs: seq<Connection>, x: Id, s: Id, t: Id, y: Id, z: Id)
    requires DetourShape(cs, x, s, t, y, z)
    ensures Acyclic(cs)
  {
    forall p | IsPath(cs, p) && |p| >= 2
      ensures p[0] != Last(p)
    {
      PredecessorOnPath(cs, p, 1);
      PredecessorOnPath(cs, p, |p| - 1);
      if |p| > 2 {
        PredecessorOnPath(cs, p, 2);
      }
    }
  }

  lemma DetourStarts(kind: string, x: Id, s: Id, t: Id, y: Id, z: Id)
    requires (kind == TRIGGER || kind == WEBHOOK) && Distinct([x, s, t, y, z])
    ensures var w := Detour(kind, x, s, t, y, z);
            t in w.Starts() && z !in w.Starts() && OthersAreSources(w, kind)
  {
    var w := Detour(kind, x, s, t, y, z);
    var ids := [x, s, t, y, z];
    assert forall i :: 0 <= i < 5 ==> w.nodes[i].id == ids[i];
    forall i: nat | i < 5
      ensures w.nodes[i].id in w.NodeMap() && w.NodeMap()[w.nodes[i].id] == w.nodes[i]
    {
      NodeById(w.nodes, i);
    }
    assert w.nodes[0].id == x && w.nodes[1].id == s && w.nodes[2].id == t && w.nodes[3].id == y && w.nodes[4].id == z;
    DetourEdges(kind, x, s, t, y, z);
    assert Edge(w.connections, y, z);
  }

  lemma DetourEnds(kind: string, x: Id, s: Id, t: Id, y: Id, z: Id)
    requires Distinct([x, s, t, y, z])
    ensures Detour(kind, x, s, t, y, z).Ends() == {t, z}
  {
    var w := Detour(kind, x, s, t, y, z);
    DetourEdges(kind, x, s, t, y, z);
    assert w.nodes[0].id == x && w.nodes[1].id == s && w.nodes[2].id == t && w.nodes[3].id == y && w.nodes[4].id == z;
    TargetsAreEdges(w.connections, x, s);
    TargetsAreEdges(w.connections, s, t);
    TargetsAreEdges(w.connections, y, z);
    forall v | v == t || v == z
      ensures Targets(w.connections, v) == []
    {
      forall b
        ensures b !in Targets(w.connections, v)
      {
        TargetsAreEdges(w.connections, v, b);
      }
      ElemsEmpty(Targets(w.connections, v));
    }
  }

  lemma {:induction false} NodeById(nodes: seq<Node>, i: nat)
    requires i < |nodes| && forall j, k :: 0 <= j < k < |nodes| ==> nodes[j].id != nodes[k].id
    ensures nodes[i].id in NodesById(nodes) && NodesById(nodes)[nodes[i].id] == nodes[i]
  {
    var n := |nodes| - 1;
    if i < n {
      NodeById(nodes[..n], i);
    }
  }
}
