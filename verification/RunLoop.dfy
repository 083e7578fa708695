/** The orchestrator's run loop: it executes nodes breadth first from the triggers, each at most once. */
module RunLoop {
  import opened Workflows
  import opened Graphs
  import opened CycleCheck
  import opened QueueOrder

  /** The identifiers of the trigger nodes, in the order of the list. */
  function Triggers(nodes: seq<Node>): seq<Id> {
    if nodes == [] then []
    else
      var before, last := Triggers(nodes[..|nodes| - 1]), nodes[|nodes| - 1];
      if last.kind == TRIGGER then before + [last.id] else before
  }

  /** The first node with the identifier stands at `k`. */
  ghost predicate FirstNode(nodes: seq<Node>, v: Id, k: int) {
    0 <= k < |nodes| && nodes[k].id == v && forall j :: 0 <= j < k ==> nodes[j].id != v
  }

  /** No node has the identifier, or the first one that has it is enabled and `oracle` says that its execution fails. */
  ghost predicate Fails(nodes: seq<Node>, oracle: Id -> bool, v: Id) {
    || (forall k :: 0 <= k < |nodes| ==> nodes[k].id != v)
    || (exists k :: FirstNode(nodes, v, k) && !nodes[k].disabled && oracle(v))
  }

  // Distances.

  /** A shortest path from `from` to `v` has `d` edges. */
  ghost predicate AtDistance(cs: seq<Connection>, from: set<Id>, v: Id, d: int) {
    HasPath(cs, from, v, d + 1) && forall p :: IsPath(cs, p) && p[0] in from && Last(p) == v ==> |p| > d
  }

  lemma {:induction false} SomeDistance(cs: seq<Connection>, from: set<Id>, v: Id, n: nat) returns (d: nat)
    requires HasPath(cs, from, v, n + 1)
    ensures d <= n && AtDistance(cs, from, v, d)
    decreases n
  {
    if p :| IsPath(cs, p) && p[0] in from && Last(p) == v && |p| <= n {
      assert HasPath(cs, from, v, |p| - 1 + 1);
      d := SomeDistance(cs, from, v, |p| - 1);
    } else {
      d := n;
    }
  }

  lemma OneDistance(cs: seq<Connection>, from: set<Id>, v: Id, d: int, e: int)
    requires AtDistance(cs, from, v, d) && HasPath(cs, from, v, e + 1)
    ensures d <= e
  {
  }

  /** Nodes are listed once and by rising distance, and before a node come all that are nearer. */
  ghost predicate BreadthFirst(cs: seq<Connection>, from: set<Id>, ids: seq<Id>) {
    && Distinct(ids)
    && (forall i :: 0 <= i < |ids| ==> Reachable(cs, from, ids[i]))
    && (forall i, j, d, e :: 0 <= i < j < |ids| && AtDistance(cs, from, ids[i], d) && AtDistance(cs, from, ids[j], e) ==> d <= e)
    && (forall i, d :: 0 <= i < |ids| && AtDistance(cs, from, ids[i], d) ==> ListsNearer(cs, from, ids[..i], d))
  }

  /** Every node nearer than `d` is listed. */
  ghost predicate ListsNearer(cs: seq<Connection>, from: set<Id>, ids: seq<Id>, d: int) {
    forall v, e :: AtDistance(cs, from, v, e) && e < d ==> v in ids
  }

  ghost predicate NoFurther(cs: seq<Connection>, from: set<Id>, ids: seq<Id>, d: int) {
    forall i :: 0 <= i < |ids| ==> WithinDistance(cs, from, ids[i], d)
  }

  ghost predicate WithinDistance(cs: seq<Connection>, from: set<Id>, v: Id, d: int) {
    exists e :: e <= d && AtDistance(cs, from, v, e)
  }

  // The queue with the depth at which each entry was put in, and the executed nodes with theirs.

  datatype Entry = Entry(id: Id, depth: nat)

  ghost function Names(es: seq<Entry>): (ids: seq<Id>)
    ensures |ids| == |es| && forall i :: 0 <= i < |es| ==> ids[i] == es[i].id
  {
    seq(|es|, i requires 0 <= i < |es| => es[i].id)
  }

  /** `v` has been executed or queued at depth `d` or less. */
  ghost predicate Covered(queue: seq<Entry>, done: seq<Entry>, v: Id, d: int) {
    exists e :: (e in queue || e in done) && e.id == v && e.depth <= d
  }

  /** The depths in the queue rise by at most one from its first entry. */
  ghost predicate Layered(queue: seq<Entry>) {
    && (forall i, j :: 0 <= i < j < |queue| ==> queue[i].depth <= queue[j].depth)
    && (forall i :: 0 <= i < |queue| ==> queue[i].depth <= queue[0].depth + 1)
  }

  ghost predicate Tracked(cs: seq<Connection>, from: set<Id>, queue: seq<Entry>, done: seq<Entry>) {
    && (forall e :: e in queue ==> HasPath(cs, from, e.id, e.depth + 1))
    && (forall e :: e in done ==> AtDistance(cs, from, e.id, e.depth))
    && (forall v {:trigger Covered(queue, done, v, 0)} :: v in from ==> Covered(queue, done, v, 0))
    && (forall e, w {:trigger e in done, Edge(cs, e.id, w)} :: e in done && Edge(cs, e.id, w) ==> Covered(queue, done, w, e.depth + 1))
  }

  ghost predicate Behind(queue: seq<Entry>, done: seq<Entry>) {
    && (forall i, j :: 0 <= i < j < |done| ==> done[i].depth <= done[j].depth)
    && (queue != [] ==> forall e :: e in done ==> e.depth <= queue[0].depth)
  }

  ghost predicate DoneBy(done: seq<Entry>, v: Id, d: int) {
    exists e :: e in done && e.id == v && e.depth <= d
  }

  lemma CoveredIsDone(queue: seq<Entry>, done: seq<Entry>, v: Id, d: int)
    requires Covered(queue, done, v, d) && Layered(queue) && (queue == [] || d < queue[0].depth)
    ensures DoneBy(done, v, d)
  {
    assert forall x :: x in queue ==> |queue| > 0 && queue[0].depth <= x.depth;
  }

  /** What is nearer than the front of the queue has been executed. */
  lemma {:induction false} NearerIsDone(cs: seq<Connection>, from: set<Id>, queue: seq<Entry>, done: seq<Entry>, p: seq<Id>)
    requires Tracked(cs, from, queue, done) && Layered(queue)
    requires IsPath(cs, p) && p[0] in from && (queue == [] || |p| <= queue[0].depth)
    ensures DoneBy(done, Last(p), |p| - 1)
  {
    var n := |p| - 1;
    if n > 0 {
      Slice(cs, p, 0, n);
      NearerIsDone(cs, from, queue, done, p[..n]);
      var u :| u in done && u.id == Last(p[..n]) && u.depth <= n - 1;
      assert Joined(cs, p, n - 1);
      assert Edge(cs, u.id, p[n]);
      CoveredIsDone(queue, done, p[n], u.depth + 1);
    } else {
      assert Covered(queue, done, p[0], 0);
      CoveredIsDone(queue, done, p[0], 0);
    }
  }

  lemma FrontIsNearest(cs: seq<Connection>, from: set<Id>, queue: seq<Entry>, done: seq<Entry>)
    requires Tracked(cs, from, queue, done) && Layered(queue) && queue != [] && queue[0].id !in Names(done)
    ensures AtDistance(cs, from, queue[0].id, queue[0].depth)
    ensures ListsNearer(cs, from, Names(done), queue[0].depth)
  {
    forall p | IsPath(cs, p) && p[0] in from && |p| <= queue[0].depth
      ensures Last(p) in Names(done)
    {
      NearerIsDone(cs, from, queue, done, p);
      var e :| e in done && e.id == Last(p);
    }
    assert queue[0] in queue;
  }

  lemma BreadthFirstNext(cs: seq<Connection>, from: set<Id>, ids: seq<Id>, v: Id, d: nat)
    requires BreadthFirst(cs, from, ids) && v !in ids && AtDistance(cs, from, v, d)
    requires NoFurther(cs, from, ids, d) && ListsNearer(cs, from, ids, d)
    ensures BreadthFirst(cs, from, ids + [v])
  {
    var next := ids + [v];
    forall i, j, e, f | 0 <= i < j < |next| && AtDistance(cs, from, next[i], e) && AtDistance(cs, from, next[j], f)
      ensures e <= f
    {
      if j == |ids| {
        assert WithinDistance(cs, from, ids[i], d);
        var g :| g <= d && AtDistance(cs, from, ids[i], g);
        OneDistance(cs, from, ids[i], e, g);
        OneDistance(cs, from, v, d, f);
      } else {
        assert AtDistance(cs, from, ids[i], e) && AtDistance(cs, from, ids[j], f);
      }
    }
    forall i, e | 0 <= i < |next| && AtDistance(cs, from, next[i], e)
      ensures ListsNearer(cs, from, next[..i], e)
    {
      if i == |ids| {
        OneDistance(cs, from, v, e, d);
        assert next[..i] == ids;
      } else {
        assert AtDistance(cs, from, ids[i], e);
        assert next[..i] == ids[..i];
      }
    }
    ReachableByPath(cs, from, v, d + 1);
  }

  lemma ReachableByPath(cs: seq<Connection>, from: set<Id>, v: Id, n: int)
    requires HasPath(cs, from, v, n)
    ensures Reachable(cs, from, v)
  {
  }

  /** What the loop keeps. */
  ghost predicate Searching(cs: seq<Connection>, from: set<Id>, queue: seq<Entry>, done: seq<Entry>) {
    && Tracked(cs, from, queue, done) && Layered(queue) && Behind(queue, done)
    && BreadthFirst(cs, from, Names(done))
  }

  /** The entries that executing `v` adds: its targets that have not been executed. */
  ghost predicate Children(cs: seq<Connection>, v: Id, executed: set<Id>, depth: nat, children: seq<Entry>) {
    && (forall e :: e in children ==> e.depth == depth + 1 && Edge(cs, v, e.id))
    && (forall w :: Edge(cs, v, w) ==> w in executed || Entry(w, depth + 1) in children)
  }

  /** Taking the front off the queue loses no cover when its node has been executed. */
  lemma StillCovered(cs: seq<Connection>, from: set<Id>, queue: seq<Entry>, done: seq<Entry>, rest: seq<Entry>, done': seq<Entry>, v: Id, d: int)
    requires queue != [] && Covered(queue, done, v, d)
    requires forall e :: e in queue[1..] ==> e in rest
    requires forall e :: e in done ==> e in done'
    requires DoneBy(done', queue[0].id, queue[0].depth)
    ensures Covered(rest, done', v, d)
  {
    var e :| (e in queue || e in done) && e.id == v && e.depth <= d;
    if e in queue && e != queue[0] {
      assert queue == [queue[0]] + queue[1..];
      assert e in rest;
    } else if e == queue[0] {
      var x :| x in done' && x.id == queue[0].id && x.depth <= queue[0].depth;
    }
  }

  lemma DropExecuted(cs: seq<Connection>, from: set<Id>, queue: seq<Entry>, done: seq<Entry>)
    requires Searching(cs, from, queue, done) && queue != [] && queue[0].id in Names(done)
    ensures Searching(cs, from, queue[1..], done)
  {
    ExecutedIsDone(cs, from, queue, done);
    TrackedNext(cs, from, queue, done, queue[1..], done);
    LayeredRest(queue, done);
  }

  lemma ExecutedIsDone(cs: seq<Connection>, from: set<Id>, queue: seq<Entry>, done: seq<Entry>)
    requires Tracked(cs, from, queue, done) && queue != [] && queue[0].id in Names(done)
    ensures DoneBy(done, queue[0].id, queue[0].depth)
  {
    var i :| 0 <= i < |done| && done[i].id == queue[0].id;
    assert queue[0] in queue && done[i] in done;
    OneDistance(cs, from, queue[0].id, done[i].depth, queue[0].depth);
  }

  lemma LayeredRest(queue: seq<Entry>, done: seq<Entry>)
    requires queue != [] && Layered(queue) && Behind(queue, done)
    ensures Layered(queue[1..]) && Behind(queue[1..], done)
  {
    assert forall i :: 0 <= i < |queue[1..]| ==> queue[1..][i] == queue[i + 1];
  }

  lemma TrackedNext(cs: seq<Connection>, from: set<Id>, queue: seq<Entry>, done: seq<Entry>, rest: seq<Entry>, done': seq<Entry>)
    requires queue != [] && Tracked(cs, from, queue, done)
    requires forall e :: e in queue[1..] ==> e in rest
    requires forall e :: e in done ==> e in done'
    requires DoneBy(done', queue[0].id, queue[0].depth)
    requires forall e :: e in rest ==> e in queue || HasPath(cs, from, e.id, e.depth + 1)
    requires forall e :: e in done' ==> e in done || (AtDistance(cs, from, e.id, e.depth) && AllCovered(cs, e, rest, done'))
    ensures Tracked(cs, from, rest, done')
  {
    forall v | v in from
      ensures Covered(rest, done', v, 0)
    {
      assert Covered(queue, done, v, 0);
      StillCovered(cs, from, queue, done, rest, done', v, 0);
    }
    forall e, w | e in done' && Edge(cs, e.id, w)
      ensures Covered(rest, done', w, e.depth + 1)
    {
      if e in done {
        StillCovered(cs, from, queue, done, rest, done', w, e.depth + 1);
      } else {
        assert AllCovered(cs, e, rest, done');
      }
    }
  }

  ghost predicate AllCovered(cs: seq<Connection>, e: Entry, queue: seq<Entry>, done: seq<Entry>) {
    forall w {:trigger Edge(cs, e.id, w)} :: Edge(cs, e.id, w) ==> Covered(queue, done, w, e.depth + 1)
  }

  lemma ExecuteFront(cs: seq<Connection>, from: set<Id>, queue: seq<Entry>, done: seq<Entry>, children: seq<Entry>)
    requires Searching(cs, from, queue, done) && queue != [] && queue[0].id !in Names(done)
    requires Children(cs, queue[0].id, Elems(Names(done + [queue[0]])), queue[0].depth, children)
    ensures Searching(cs, from, queue[1..] + children, done + [queue[0]])
  {
    TrackedFront(cs, from, queue, done, children);
    LayeredNext(queue, children);
    BehindNext(queue, done, queue[1..] + children);
    ListedFront(cs, from, queue, done);
  }

  lemma TrackedFront(cs: seq<Connection>, from: set<Id>, queue: seq<Entry>, done: seq<Entry>, children: seq<Entry>)
    requires Tracked(cs, from, queue, done) && Layered(queue) && queue != [] && queue[0].id !in Names(done)
    requires Children(cs, queue[0].id, Elems(Names(done + [queue[0]])), queue[0].depth, children)
    ensures Tracked(cs, from, queue[1..] + children, done + [queue[0]])
  {
    var v := queue[0];
    var rest, done' := queue[1..] + children, done + [v];
    assert v in queue && v in done';
    FrontIsNearest(cs, from, queue, done);
    FrontCovered(cs, from, queue, done, children);
    forall e | e in children
      ensures HasPath(cs, from, e.id, e.depth + 1)
    {
      LongerPath(cs, from, v.id, v.depth + 1, e.id);
    }
    assert DoneBy(done', v.id, v.depth);
    TrackedNext(cs, from, queue, done, rest, done');
  }

  lemma BehindNext(queue: seq<Entry>, done: seq<Entry>, rest: seq<Entry>)
    requires queue != [] && Behind(queue, done) && (rest != [] ==> rest[0].depth >= queue[0].depth)
    ensures Behind(rest, done + [queue[0]])
  {
    var done' := done + [queue[0]];
    forall i, j | 0 <= i < j < |done'|
      ensures done'[i].depth <= done'[j].depth
    {
      assert done[i] in done;
    }
  }

  lemma ListedFront(cs: seq<Connection>, from: set<Id>, queue: seq<Entry>, done: seq<Entry>)
    requires Tracked(cs, from, queue, done) && Layered(queue) && Behind(queue, done)
    requires queue != [] && queue[0].id !in Names(done) && BreadthFirst(cs, from, Names(done))
    ensures BreadthFirst(cs, from, Names(done + [queue[0]]))
  {
    FrontIsNearest(cs, from, queue, done);
    DoneNoFurther(cs, from, queue, done);
    BreadthFirstNext(cs, from, Names(done), queue[0].id, queue[0].depth);
    assert Names(done + [queue[0]]) == Names(done) + [queue[0].id];
  }

  lemma DoneNoFurther(cs: seq<Connection>, from: set<Id>, queue: seq<Entry>, done: seq<Entry>)
    requires Tracked(cs, from, queue, done) && Behind(queue, done) && queue != []
    ensures NoFurther(cs, from, Names(done), queue[0].depth)
  {
    forall i | 0 <= i < |Names(done)|
      ensures WithinDistance(cs, from, Names(done)[i], queue[0].depth)
    {
      assert done[i] in done;
    }
  }

  lemma FrontCovered(cs: seq<Connection>, from: set<Id>, queue: seq<Entry>, done: seq<Entry>, children: seq<Entry>)
    requires Tracked(cs, from, queue, done) && queue != [] && AtDistance(cs, from, queue[0].id, queue[0].depth)
    requires Children(cs, queue[0].id, Elems(Names(done + [queue[0]])), queue[0].depth, children)
    ensures AllCovered(cs, queue[0], queue[1..] + children, done + [queue[0]])
  {
    var v, done' := queue[0], done + [queue[0]];
    forall w | Edge(cs, v.id, w)
      ensures Covered(queue[1..] + children, done', w, v.depth + 1)
    {
      LongerPath(cs, from, v.id, v.depth + 1, w);
      if w in Names(done') {
        var i :| 0 <= i < |done'| && done'[i].id == w;
        assert done'[i] in done';
        assert AtDistance(cs, from, w, done'[i].depth);
        OneDistance(cs, from, w, done'[i].depth, v.depth + 1);
      } else {
        assert Entry(w, v.depth + 1) in queue[1..] + children;
      }
    }
  }

  lemma LayeredNext(queue: seq<Entry>, children: seq<Entry>)
    requires queue != [] && Layered(queue) && forall e :: e in children ==> e.depth == queue[0].depth + 1
    ensures Layered(queue[1..] + children)
    ensures queue[1..] + children != [] ==> (queue[1..] + children)[0].depth >= queue[0].depth
  {
    var rest := queue[1..] + children;
    forall i | 0 <= i < |rest|
      ensures queue[0].depth <= rest[i].depth <= queue[0].depth + 1
      ensures i >= |queue| - 1 ==> rest[i].depth == queue[0].depth + 1
    {
      if i < |queue| - 1 {
        assert rest[i] == queue[i + 1];
      } else {
        assert rest[i] in children;
      }
    }
  }

  // The loop.

  datatype Outcome = Finished | Cancelled | Failed(node: Id)

  ghost function Starting(ids: seq<Id>): (es: seq<Entry>)
    ensures Names(es) == ids && forall i :: 0 <= i < |es| ==> es[i].depth == 0
  {
    var es := seq(|ids|, i requires 0 <= i < |ids| => Entry(ids[i], 0));
    assert Names(es) == ids;
    es
  }

  lemma SearchStarts(cs: seq<Connection>, ids: seq<Id>)
    ensures Searching(cs, Elems(ids), Starting(ids), [])
  {
    var queue := Starting(ids);
    forall e | e in queue
      ensures HasPath(cs, Elems(ids), e.id, e.depth + 1)
    {
      var i :| 0 <= i < |queue| && queue[i] == e;
      assert IsPath(cs, [ids[i]]) && Last([ids[i]]) == ids[i] && ids[i] in Elems(ids);
    }
    forall v | v in Elems(ids)
      ensures Covered(queue, [], v, 0)
    {
      var i :| 0 <= i < |ids| && ids[i] == v;
      assert queue[i] in queue && queue[i].id == Names(queue)[i];
    }
  }

  lemma SearchEnds(cs: seq<Connection>, from: set<Id>, done: seq<Entry>)
    requires Searching(cs, from, [], done)
    ensures forall v :: v in Names(done) <==> Reachable(cs, from, v)
  {
    forall p | IsPath(cs, p) && p[0] in from
      ensures Last(p) in Names(done)
    {
      NearerIsDone(cs, from, [], done, p);
      var e :| e in done && e.id == Last(p);
    }
  }

  lemma {:induction false} TriggersElems(nodes: seq<Node>)
    ensures forall v :: v in Triggers(nodes) <==> exists node :: node in nodes && node.kind == TRIGGER && node.id == v
  {
    if nodes == [] {
    } else {
      var n := |nodes| - 1;
      TriggersElems(nodes[..n]);
      assert nodes == nodes[..n] + [nodes[n]];
    }
  }

  method FindStartNodes(w: Workflow) returns (starts: seq<Id>)
    ensures starts == Triggers(w.nodes)
    ensures forall v :: v in starts <==> exists node :: node in w.nodes && node.kind == TRIGGER && node.id == v
  {
    TriggersElems(w.nodes);
    starts := [];
    for i := 0 to |w.nodes|
      invariant starts == Triggers(w.nodes[..i])
    {
      assert w.nodes[..i + 1][..i] == w.nodes[..i];
      if w.nodes[i].kind == TRIGGER {
        starts := starts + [w.nodes[i].id];
      }
    }
    assert w.nodes[..|w.nodes|] == w.nodes;
  }

  /** Looks the node up in the list and runs it. */
  method ExecuteNode(nodes: seq<Node>, oracle: Id -> bool, v: Id) returns (failed: bool)
    ensures failed <==>
            || (forall k :: 0 <= k < |nodes| ==> nodes[k].id != v)
            || (exists k :: FirstNode(nodes, v, k) && !nodes[k].disabled && oracle(v))
    ensures failed <==> Fails(nodes, oracle, v)
  {
    for i := 0 to |nodes|
      invariant forall k :: 0 <= k < i ==> nodes[k].id != v
    {
      if nodes[i].id == v {
        assert FirstNode(nodes, v, i);
        return !nodes[i].disabled && oracle(v);
      }
    }
    failed := true;
  }

  /** The loop over the connections after a node has run. */
  method EnqueueTargets(cs: seq<Connection>, v: Id, executed: set<Id>, queue: seq<Id>) returns (queue': seq<Id>)
    ensures queue' == queue + Without(Targets(cs, v), executed)
  {
    queue' := queue;
    for i := 0 to |cs|
      invariant queue' == queue + Without(Targets(cs[..i], v), executed)
    {
      var c := cs[i];
      assert cs[..i + 1][..i] == cs[..i];
      if c.source == v {
        var targets := Targets(cs[..i], v);
        assert Targets(cs[..i + 1], v) == targets + [c.target] && (targets + [c.target])[..|targets|] == targets;
      }
      if c.source == v && c.target !in executed {
        queue' := queue' + [c.target];
      }
    }
    assert cs[..|cs|] == cs;
  }

  /** The entries for the targets that are put into the queue. */
  lemma EntriesFor(cs: seq<Connection>, v: Id, executed: set<Id>, depth: nat) returns (children: seq<Entry>)
    ensures Names(children) == Without(Targets(cs, v), executed) && Children(cs, v, executed, depth, children)
  {
    var targets := Without(Targets(cs, v), executed);
    children := seq(|targets|, i requires 0 <= i < |targets| => Entry(targets[i], depth + 1));
    assert Names(children) == targets;
    forall w
      ensures w in targets <==> Edge(cs, v, w) && w !in executed
    {
      WithoutElems(Targets(cs, v), executed, w);
      TargetsAreEdges(cs, v, w);
    }
    forall w | w in targets
      ensures Entry(w, depth + 1) in children
    {
      var i :| 0 <= i < |targets| && targets[i] == w;
      assert children[i] == Entry(w, depth + 1);
    }
    forall e | e in children
      ensures e.depth == depth + 1 && e.id in targets
    {
      var i :| 0 <= i < |children| && children[i] == e;
    }
  }

  lemma {:induction false} WithoutElems(s: seq<Id>, done: set<Id>, x: Id)
    ensures x in Without(s, done) <==> x in s && x !in done
  {
    if s == [] {
    } else {
      var n := |s| - 1;
      WithoutElems(s[..n], done, x);
      assert s == s[..n] + [s[n]];
    }
  }

  /** Those of the nodes that fail, in their order. */
  ghost function Failing(nodes: seq<Node>, oracle: Id -> bool, ids: seq<Id>): seq<Id> {
    if ids == [] then []
    else
      var before, last := Failing(nodes, oracle, ids[..|ids| - 1]), ids[|ids| - 1];
      if Fails(nodes, oracle, last) then before + [last] else before
  }

  /** The loop's variables and the depths that go with them. */
  ghost predicate Running(cs: seq<Connection>, from: set<Id>, queue: seq<Id>, attempts: seq<Id>, executed: set<Id>,
                          entries: seq<Entry>, done: seq<Entry>)
  {
    queue == Names(entries) && attempts == Names(done) && executed == Elems(attempts) && Searching(cs, from, entries, done)
  }

  lemma RunSkips(cs: seq<Connection>, from: set<Id>, queue: seq<Id>, attempts: seq<Id>, executed: set<Id>,
                 entries: seq<Entry>, done: seq<Entry>)
    requires Running(cs, from, queue, attempts, executed, entries, done) && queue != [] && queue[0] in executed
    ensures Running(cs, from, queue[1..], attempts, executed, entries[1..], done)
  {
    DropExecuted(cs, from, entries, done);
    assert queue[1..] == Names(entries[1..]);
  }

  lemma RunAttempts(cs: seq<Connection>, from: set<Id>, queue: seq<Id>, attempts: seq<Id>, executed: set<Id>,
                    entries: seq<Entry>, done: seq<Entry>, all: set<Id>)
    requires Running(cs, from, queue, attempts, executed, entries, done) && queue != [] && queue[0] !in executed
    requires Covers(all, cs, from)
    ensures BreadthFirst(cs, from, attempts + [queue[0]])
    ensures queue[0] in all && |all - (executed + {queue[0]})| < |all - executed|
  {
    ListedFront(cs, from, entries, done);
    assert Names(done + [entries[0]]) == attempts + [queue[0]];
    FrontInReach(cs, from, all, entries, done);
    SmallerRest(all, executed, executed + {queue[0]}, queue[0]);
  }

  lemma RunExecutes(cs: seq<Connection>, from: set<Id>, queue: seq<Id>, attempts: seq<Id>, executed: set<Id>,
                    entries: seq<Entry>, done: seq<Entry>, children: seq<Entry>)
    requires Running(cs, from, queue, attempts, executed, entries, done) && queue != [] && queue[0] !in executed
    requires Children(cs, queue[0], executed + {queue[0]}, entries[0].depth, children)
    ensures Running(cs, from, queue[1..] + Names(children), attempts + [queue[0]], executed + {queue[0]},
                    entries[1..] + children, done + [entries[0]])
  {
    NamesStep(queue, attempts, entries, done, children);
    ExecuteFront(cs, from, entries, done, children);
  }

  lemma NamesStep(queue: seq<Id>, attempts: seq<Id>, entries: seq<Entry>, done: seq<Entry>, children: seq<Entry>)
    requires queue == Names(entries) && attempts == Names(done) && queue != []
    ensures Names(done + [entries[0]]) == attempts + [queue[0]]
    ensures Names(entries[1..] + children) == queue[1..] + Names(children)
    ensures Elems(attempts + [queue[0]]) == Elems(attempts) + {queue[0]}
  {
    ElemsAppend(attempts, queue[0]);
  }

  /** The failed nodes that have been recorded. */
  ghost predicate Recorded(nodes: seq<Node>, oracle: Id -> bool, continueOnFail: bool, attempts: seq<Id>, errors: seq<Id>) {
    if continueOnFail then errors == Failing(nodes, oracle, attempts) else errors == [] == Failing(nodes, oracle, attempts)
  }

  lemma {:induction false} FailingElems(nodes: seq<Node>, oracle: Id -> bool, ids: seq<Id>)
    ensures forall v :: v in Failing(nodes, oracle, ids) <==> v in ids && Fails(nodes, oracle, v)
  {
    if ids == [] {
    } else {
      var n := |ids| - 1;
      FailingElems(nodes, oracle, ids[..n]);
      assert ids == ids[..n] + [ids[n]];
    }
  }

  /** With failures tolerated, the errors name exactly the attempted nodes that fail, in their order. Otherwise none is recorded, and the
      run is aborted exactly if an attempted node fails: it is the last one, and no earlier one failed. */
  ghost predicate Reported(nodes: seq<Node>, oracle: Id -> bool, continueOnFail: bool, attempts: seq<Id>, errors: seq<Id>,
                           outcome: Outcome)
  {
    && (errors == if continueOnFail then Failing(nodes, oracle, attempts) else [])
    && (forall v :: v in errors <==> continueOnFail && v in attempts && Fails(nodes, oracle, v))
    && (outcome.Failed? <==> !continueOnFail && exists v :: v in attempts && Fails(nodes, oracle, v))
    && (outcome.Failed? ==> attempts != [] && outcome.node == Last(attempts) && Fails(nodes, oracle, outcome.node)
                            && forall i :: 0 <= i < |attempts| - 1 ==> !Fails(nodes, oracle, attempts[i]))
  }

  lemma RunReported(nodes: seq<Node>, oracle: Id -> bool, continueOnFail: bool, attempts: seq<Id>, errors: seq<Id>,
                    outcome: Outcome)
    requires Recorded(nodes, oracle, continueOnFail, attempts, errors) && !outcome.Failed?
    ensures Reported(nodes, oracle, continueOnFail, attempts, errors, outcome)
  {
    FailingElems(nodes, oracle, attempts);
    forall v | v in attempts
      ensures Fails(nodes, oracle, v) <==> v in Failing(nodes, oracle, attempts)
    {
    }
  }

  lemma AbortReported(nodes: seq<Node>, oracle: Id -> bool, attempts: seq<Id>, errors: seq<Id>, v: Id)
    requires Recorded(nodes, oracle, false, attempts, errors) && Fails(nodes, oracle, v)
    ensures Reported(nodes, oracle, false, attempts + [v], errors, Failed(v))
  {
    FailingElems(nodes, oracle, attempts);
    assert v in attempts + [v];
    forall i | 0 <= i < |attempts|
      ensures !Fails(nodes, oracle, attempts[i])
    {
      assert attempts[i] in attempts;
    }
  }

  lemma FailingNext(nodes: seq<Node>, oracle: Id -> bool, attempts: seq<Id>, v: Id)
    ensures Failing(nodes, oracle, attempts + [v]) == Failing(nodes, oracle, attempts) + if Fails(nodes, oracle, v) then [v] else []
  {
    assert (attempts + [v])[..|attempts|] == attempts;
  }

  lemma RecordedNext(nodes: seq<Node>, oracle: Id -> bool, continueOnFail: bool, attempts: seq<Id>, errors: seq<Id>, v: Id,
                     failed: bool)
    requires Recorded(nodes, oracle, continueOnFail, attempts, errors)
    requires (failed <==> Fails(nodes, oracle, v)) && (failed ==> continueOnFail)
    ensures Recorded(nodes, oracle, continueOnFail, attempts + [v], if failed then errors + [v] else errors)
  {
    FailingNext(nodes, oracle, attempts, v);
  }

  // The turns of the loop.

  /** The loop's variables, with the nodes taken from the queue, one in every turn. */
  ghost predicate Turning(cs: seq<Connection>, starts: seq<Id>, queue: seq<Id>, taken: seq<Id>, attempts: seq<Id>, executed: set<Id>,
                          entries: seq<Entry>, done: seq<Entry>)
  {
    && Running(cs, Elems(starts), queue, attempts, executed, entries, done)
    && Handed(cs, starts, queue, taken, attempts) && Queued(cs, starts, taken, queue)
  }

  lemma TurningStarts(cs: seq<Connection>, starts: seq<Id>)
    ensures Turning(cs, starts, starts, [], [], {}, Starting(starts), [])
  {
    SearchStarts(cs, starts);
    HandedStarts(cs, starts);
  }

  lemma TurnSkips(cs: seq<Connection>, starts: seq<Id>, queue: seq<Id>, taken: seq<Id>, attempts: seq<Id>, executed: set<Id>,
                  entries: seq<Entry>, done: seq<Entry>)
    requires Turning(cs, starts, queue, taken, attempts, executed, entries, done) && queue != [] && queue[0] in executed
    ensures Turning(cs, starts, queue[1..], taken + [queue[0]], attempts, executed, entries[1..], done)
  {
    RunSkips(cs, Elems(starts), queue, attempts, executed, entries, done);
    HandedSkips(cs, starts, queue, taken, attempts);
    QueuedSkips(cs, starts, taken, queue);
  }

  lemma TurnAttempts(cs: seq<Connection>, starts: seq<Id>, queue: seq<Id>, taken: seq<Id>, attempts: seq<Id>, executed: set<Id>,
                     entries: seq<Entry>, done: seq<Entry>, all: set<Id>)
    requires Turning(cs, starts, queue, taken, attempts, executed, entries, done) && queue != [] && queue[0] !in executed
    requires Covers(all, cs, Elems(starts))
    ensures BreadthFirst(cs, Elems(starts), attempts + [queue[0]]) && InQueueOrder(cs, starts, attempts + [queue[0]])
    ensures attempts + [queue[0]] == Firsts(taken + [queue[0]])
    ensures queue[0] in all && |all - (executed + {queue[0]})| < |all - executed|
  {
    RunAttempts(cs, Elems(starts), queue, attempts, executed, entries, done, all);
    HandedNew(cs, starts, queue, taken, attempts);
  }

  lemma TurnExecutes(cs: seq<Connection>, starts: seq<Id>, queue: seq<Id>, taken: seq<Id>, attempts: seq<Id>, executed: set<Id>,
                     entries: seq<Entry>, done: seq<Entry>, children: seq<Entry>)
    requires Turning(cs, starts, queue, taken, attempts, executed, entries, done) && queue != [] && queue[0] !in executed
    requires Children(cs, queue[0], executed + {queue[0]}, entries[0].depth, children)
    requires Names(children) == Without(Targets(cs, queue[0]), executed + {queue[0]})
    ensures Turning(cs, starts, queue[1..] + Names(children), taken + [queue[0]], attempts + [queue[0]], executed + {queue[0]},
                    entries[1..] + children, done + [entries[0]])
  {
    RunExecutes(cs, Elems(starts), queue, attempts, executed, entries, done, children);
    ElemsAppend(attempts, queue[0]);
    HandedNext(cs, starts, queue, taken, attempts, executed + {queue[0]});
    QueuedNext(cs, starts, taken, queue, executed + {queue[0]});
  }

  /** No turn that was begun before the last found the context cancelled. A run that is cancelled finds it so at a turn that
      it begins, with nodes left in the queue; one that finishes has taken all that was put there. */
  ghost predicate Ends(cs: seq<Connection>, starts: seq<Id>, cancelled: nat -> bool, taken: seq<Id>, outcome: Outcome) {
    && GoesOn(cancelled, |taken|)
    && match outcome
       case Finished => taken == Fed(cs, starts, taken)
       case Cancelled => taken < Fed(cs, starts, taken) && cancelled(|taken|)
       case Failed(_) => true
  }

  ghost predicate GoesOn(cancelled: nat -> bool, turns: nat) {
    forall turn :: 0 <= turn < turns ==> !cancelled(turn)
  }

  lemma GoesOnNext(cancelled: nat -> bool, turns: nat)
    requires GoesOn(cancelled, turns) && !cancelled(turns)
    ensures GoesOn(cancelled, turns + 1)
  {
  }

  lemma TurnEnds(cs: seq<Connection>, starts: seq<Id>, queue: seq<Id>, taken: seq<Id>, attempts: seq<Id>, executed: set<Id>,
                 entries: seq<Entry>, done: seq<Entry>, cancelled: nat -> bool)
    requires Turning(cs, starts, queue, taken, attempts, executed, entries, done) && GoesOn(cancelled, |taken|)
    ensures attempts == Firsts(taken) && InQueueOrder(cs, starts, attempts) && BreadthFirst(cs, Elems(starts), attempts)
    ensures queue != [] && cancelled(|taken|) ==> Ends(cs, starts, cancelled, taken, Cancelled)
    ensures queue == [] ==> Ends(cs, starts, cancelled, taken, Finished) && Exhausted(cs, starts, attempts)
    ensures queue == [] ==> forall v :: v in attempts <==> Reachable(cs, Elems(starts), v)
  {
    QueuedRest(cs, starts, taken, queue);
    if queue == [] {
      HandedAll(cs, starts, taken, attempts);
      SearchEnds(cs, Elems(starts), done);
    }
  }

  /** Terminates on every workflow. The attempted nodes are in breadth-first order, each once, and the order of the list
      and of the connections decides between equally distant ones; a run that is not aborted attempts exactly what the
      triggers reach. Every turn takes one node from the queue, and a run is cancelled at the first turn it begins that
      finds the context cancelled. */
  method ExecuteNodes(w: Workflow, continueOnFail: bool, oracle: Id -> bool, cancelled: nat -> bool)
    returns (outcome: Outcome, attempts: seq<Id>, errors: seq<Id>, taken: seq<Id>)
    ensures BreadthFirst(w.connections, Elems(Triggers(w.nodes)), attempts)
    ensures InQueueOrder(w.connections, Triggers(w.nodes), attempts)
    ensures outcome.Finished? ==> Exhausted(w.connections, Triggers(w.nodes), attempts)
    ensures outcome.Finished? ==> forall v :: v in attempts <==> Reachable(w.connections, Elems(Triggers(w.nodes)), v)
    ensures attempts == Firsts(taken) && Ends(w.connections, Triggers(w.nodes), cancelled, taken, outcome)
    ensures Reported(w.nodes, oracle, continueOnFail, attempts, errors, outcome)
  {
    ghost var cs, starts := w.connections, Triggers(w.nodes);
    ghost var all := Elems(starts) + Ids(cs);
    IdsCover(cs, Elems(starts));
    var queue := FindStartNodes(w);
    var executed: set<Id> := {};
    attempts, errors, taken := [], [], [];
    ghost var entries, done: seq<Entry> := Starting(queue), [];
    TurningStarts(cs, starts);
    while queue != []
      invariant Turning(cs, starts, queue, taken, attempts, executed, entries, done)
      invariant GoesOn(cancelled, |taken|)
      invariant Recorded(w.nodes, oracle, continueOnFail, attempts, errors)
      decreases |all - executed|, |queue|
    {
      if cancelled(|taken|) {
        TurnEnds(cs, starts, queue, taken, attempts, executed, entries, done, cancelled);
        RunReported(w.nodes, oracle, continueOnFail, attempts, errors, Cancelled);
        return Cancelled, attempts, errors, taken;
      }
      GoesOnNext(cancelled, |taken|);
      var v := queue[0];
      if v in executed {
        TurnSkips(cs, starts, queue, taken, attempts, executed, entries, done);
        queue, taken, entries := queue[1..], taken + [v], entries[1..];
      } else {
        var failed := ExecuteNode(w.nodes, oracle, v);
        TurnAttempts(cs, starts, queue, taken, attempts, executed, entries, done, all);
        ghost var recorded := errors;
        if failed {
          if continueOnFail {
            errors := errors + [v];
          } else {
            AbortReported(w.nodes, oracle, attempts, errors, v);
            return Failed(v), attempts + [v], errors, taken + [v];
          }
        }
        RecordedNext(w.nodes, oracle, continueOnFail, attempts, recorded, v, failed);
        var queue' := EnqueueTargets(w.connections, v, executed + {v}, queue[1..]);
        ghost var children := EntriesFor(cs, v, executed + {v}, entries[0].depth);
        TurnExecutes(cs, starts, queue, taken, attempts, executed, entries, done, children);
        taken, entries, done := taken + [v], entries[1..] + children, done + [entries[0]];
        queue, executed, attempts := queue', executed + {v}, attempts + [v];
      }
    }
    TurnEnds(cs, starts, queue, taken, attempts, executed, entries, done, cancelled);
    RunReported(w.nodes, oracle, continueOnFail, attempts, errors, Finished);
    outcome := Finished;
  }

  lemma FrontInReach(cs: seq<Connection>, from: set<Id>, all: set<Id>, queue: seq<Entry>, done: seq<Entry>)
    requires Tracked(cs, from, queue, done) && queue != [] && Covers(all, cs, from)
    ensures queue[0].id in all
  {
    assert queue[0] in queue;
    var p :| IsPath(cs, p) && p[0] in from && Last(p) == queue[0].id;
    PathStaysIn(cs, p, all);
  }

  // An aborted run has attempted the beginning of a complete order.

  ghost predicate Unlisted(cs: seq<Connection>, from: set<Id>, ids: seq<Id>, v: Id, d: nat) {
    v !in ids && AtDistance(cs, from, v, d)
  }

  lemma {:induction false} NearestUnlisted(cs: seq<Connection>, from: set<Id>, ids: seq<Id>, v: Id, d: nat) returns (w: Id, e: nat)
    requires Unlisted(cs, from, ids, v, d)
    ensures Unlisted(cs, from, ids, w, e) && ListsNearer(cs, from, ids, e)
    decreases d
  {
    if x: Id, f: nat :| Unlisted(cs, from, ids, x, f) && f < d {
      w, e := NearestUnlisted(cs, from, ids, x, f);
    } else {
      w, e := v, d;
      forall x, f | AtDistance(cs, from, x, f) && f < d
        ensures x in ids
      {
        DistanceIsNat(cs, from, x, f);
        assert !Unlisted(cs, from, ids, x, f);
      }
    }
  }

  lemma DistanceIsNat(cs: seq<Connection>, from: set<Id>, v: Id, d: int)
    requires AtDistance(cs, from, v, d)
    ensures d >= 0
  {
    var p :| IsPath(cs, p) && |p| == d + 1;
  }

  lemma ListedNoFurther(cs: seq<Connection>, from: set<Id>, ids: seq<Id>, v: Id, d: nat)
    requires BreadthFirst(cs, from, ids) && Unlisted(cs, from, ids, v, d)
    ensures NoFurther(cs, from, ids, d)
  {
    forall i | 0 <= i < |ids|
      ensures WithinDistance(cs, from, ids[i], d)
    {
      var p :| IsPath(cs, p) && p[0] in from && Last(p) == ids[i];
      assert HasPath(cs, from, ids[i], |p| - 1 + 1);
      var e := SomeDistance(cs, from, ids[i], |p| - 1);
      assert ListsNearer(cs, from, ids[..i], e);
    }
  }

  /** The nearest missing node can come next. */
  lemma NextUnlisted(cs: seq<Connection>, from: set<Id>, ids: seq<Id>, v: Id, d: nat) returns (w: Id, e: nat)
    requires BreadthFirst(cs, from, ids) && Unlisted(cs, from, ids, v, d)
    ensures e <= d && AtDistance(cs, from, w, e) && BreadthFirst(cs, from, ids + [w])
    ensures |from + Ids(cs) - Elems(ids + [w])| < |from + Ids(cs) - Elems(ids)|
  {
    w, e := NearestUnlisted(cs, from, ids, v, d);
    ListedNoFurther(cs, from, ids, w, e);
    BreadthFirstNext(cs, from, ids, w, e);
    ElemsAppend(ids, w);
    IdsCover(cs, from);
    var q :| IsPath(cs, q) && q[0] in from && Last(q) == w;
    PathStaysIn(cs, q, from + Ids(cs));
    SmallerRest(from + Ids(cs), Elems(ids), Elems(ids + [w]), w);
  }

  /** Whatever a run has attempted can be continued to a breadth-first order of all that the triggers reach. */
  lemma {:induction false} Completable(cs: seq<Connection>, from: set<Id>, ids: seq<Id>) returns (full: seq<Id>)
    requires BreadthFirst(cs, from, ids)
    ensures ids <= full && BreadthFirst(cs, from, full)
    ensures forall v :: v in full <==> Reachable(cs, from, v)
    decreases |from + Ids(cs) - Elems(ids)|
  {
    if v :| Reachable(cs, from, v) && v !in ids {
      var p :| IsPath(cs, p) && p[0] in from && Last(p) == v;
      assert HasPath(cs, from, v, |p| - 1 + 1);
      var d := SomeDistance(cs, from, v, |p| - 1);
      var w, e := NextUnlisted(cs, from, ids, v, d);
      full := Completable(cs, from, ids + [w]);
    } else {
      full := ids;
    }
  }
}
