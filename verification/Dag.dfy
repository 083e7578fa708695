/** The DAG built from a workflow, and its validation. */
module Dags {
  import opened Workflows
  import opened Graphs
  import opened CycleCheck
  import opened Degrees

  datatype DagError =
    | WorkflowHasCycle
    | SourceNotFound(id: Id)
    | TargetNotFound(id: Id)
    | NoStartNodes
    | NoEndNodes
    | UnreachableNodes(ids: seq<Id>)
    | NoInput(id: Id)
    | TooFewMergeInputs(id: Id)
    | TooFewBranches(id: Id)

  datatype Verdict = Ok | Err(error: DagError)

  /** The node's inputs and branches are complete. */
  ghost predicate InputsMet(w: Workflow, v: Id)
    requires v in w.Declared()
  {
    var node := w.NodeMap()[v];
    node.IsEntry() || node.disabled ||
    (&& w.HasIncoming(v)
     && (node.kind == MERGE ==> Arriving(w.connections, v, {}) >= 2)
     && (node.kind == CONDITION ==> |Targets(w.connections, v)| >= 2))
  }

  /** What each complaint about a node's inputs or branches says. */
  ghost predicate Explains(w: Workflow, error: DagError) {
    match error
    case NoInput(v) => v in w.Declared() && !InputsMet(w, v) && !w.HasIncoming(v)
    case TooFewMergeInputs(v) =>
      v in w.Declared() && !InputsMet(w, v) && w.NodeMap()[v].kind == MERGE && Arriving(w.connections, v, {}) == 1
    case TooFewBranches(v) =>
      v in w.Declared() && !InputsMet(w, v) && w.NodeMap()[v].kind == CONDITION && |Targets(w.connections, v)| < 2
    case _ => false
  }

  ghost predicate AllInputsMet(w: Workflow) {
    forall v :: v in w.Declared() ==> InputsMet(w, v)
  }

  // Every node of a closed acyclic workflow lies between a start node and an end node.

  lemma StartsReachAll(w: Workflow, v: Id)
    requires w.Closed() && Acyclic(w.connections) && v in w.Declared()
    ensures Reachable(w.connections, w.Starts(), v)
  {
    var lost := set x | x in w.Declared() && !Reachable(w.connections, w.Starts(), x);
    if lost != {} {
      HasSource(w.connections, lost);
      var x :| x in lost && !PredecessorIn(w.connections, lost, x);
      assert IsPath(w.connections, [x]) && Last([x]) == x;
      var u :| Edge(w.connections, u, x);
      assert Connection(u, x) in w.connections;
      var p :| IsPath(w.connections, p) && p[0] in w.Starts() && Last(p) == u;
      Extend(w.connections, p, x);
    }
    assert v !in lost;
  }

  lemma AllReachEnds(w: Workflow, v: Id)
    requires w.Closed() && Acyclic(w.connections) && v in w.Declared()
    ensures exists p :: IsPath(w.connections, p) && p[0] == v && Last(p) in w.Ends()
  {
    var lost := set x | x in w.Declared() && !ReachesEnd(w, x);
    if lost != {} {
      HasSink(w.connections, lost);
      var x :| x in lost && !SuccessorIn(w.connections, lost, x);
      assert IsPath(w.connections, [x]) && Last([x]) == x;
      var y := Targets(w.connections, x)[0];
      TargetsAreEdges(w.connections, x, y);
      assert Connection(x, y) in w.connections;
      var p :| IsPath(w.connections, p) && p[0] == y && Last(p) in w.Ends();
      Prepend(w.connections, x, p);
    }
    assert v !in lost;
  }

  ghost predicate ReachesEnd(w: Workflow, v: Id) {
    exists p :: IsPath(w.connections, p) && p[0] == v && Last(p) in w.Ends()
  }

  // The search for unreachable nodes.

  /** A marked node that is no longer queued has only marked successors. */
  ghost predicate Expanded(cs: seq<Connection>, marked: set<Id>, queue: seq<Id>) {
    forall u, w {:trigger Edge(cs, u, w)} :: u in marked && Edge(cs, u, w) ==> w in marked || u in queue
  }

  ghost predicate AllReachable(cs: seq<Connection>, from: set<Id>, marked: set<Id>) {
    forall v :: v in marked ==> Reachable(cs, from, v)
  }

  /** The loop over a dequeued node's neighbors: marks and queues those not marked yet. */
  method MarkNeighbors(neighbors: seq<Id>, marked: set<Id>, queue: seq<Id>)
    returns (marked': set<Id>, queue': seq<Id>)
    ensures marked' == marked + Elems(neighbors)
    ensures queue <= queue' && Elems(queue') == Elems(queue) + (Elems(neighbors) - marked)
    ensures marked' == marked ==> queue' == queue
  {
    marked', queue' := marked, queue;
    for i := 0 to |neighbors|
      invariant marked' == marked + Elems(neighbors[..i])
      invariant queue <= queue' && Elems(queue') == Elems(queue) + (Elems(neighbors[..i]) - marked)
      invariant marked' == marked ==> queue' == queue
    {
      assert neighbors[..i + 1] == neighbors[..i] + [neighbors[i]];
      ElemsAppend(neighbors[..i], neighbors[i]);
      if neighbors[i] !in marked' {
        ElemsAppend(queue', neighbors[i]);
        marked' := marked' + {neighbors[i]};
        queue' := queue' + [neighbors[i]];
      }
    }
    assert neighbors[..|neighbors|] == neighbors;
  }

  lemma ExpandedNext(cs: seq<Connection>, from: set<Id>, marked: set<Id>, queue: seq<Id>, neighbors: seq<Id>,
                     marked': set<Id>, queue': seq<Id>)
    requires queue != [] && Lists(cs, queue[0], neighbors) && queue[0] in marked
    requires Expanded(cs, marked, queue) && AllReachable(cs, from, marked)
    requires marked' == marked + Elems(neighbors)
    requires Elems(queue') == Elems(queue[1..]) + (Elems(neighbors) - marked)
    ensures Expanded(cs, marked', queue') && AllReachable(cs, from, marked')
  {
    forall u, w | u in marked' && Edge(cs, u, w)
      ensures w in marked' || u in queue'
    {
      if u in marked && u != queue[0] && u in queue {
        assert u in queue[1..];
        assert u in Elems(queue');
      } else if u !in marked {
        assert u in Elems(queue');
      }
    }
    forall v | v in marked'
      ensures Reachable(cs, from, v)
    {
      if v !in marked {
        assert Edge(cs, queue[0], v);
        var p :| IsPath(cs, p) && p[0] in from && Last(p) == queue[0];
        Extend(cs, p, v);
      }
    }
  }

  lemma MarkedWithin(cs: seq<Connection>, u: Id, neighbors: seq<Id>, all: set<Id>, from: set<Id>,
                     marked: set<Id>, marked': set<Id>)
    requires Lists(cs, u, neighbors) && Covers(all, cs, from)
    requires marked <= all && marked' == marked + Elems(neighbors)
    ensures marked' <= all
    ensures marked' == marked || |all - marked'| < |all - marked|
  {
    forall w | w in neighbors
      ensures w in all
    {
      assert Edge(cs, u, w);
    }
    if marked' != marked {
      var w :| w in marked' && w !in marked;
      SmallerRest(all, marked, marked', w);
    }
  }

  lemma StartMarked(cs: seq<Connection>, from: set<Id>)
    ensures AllReachable(cs, from, from)
  {
    forall v | v in from
      ensures Reachable(cs, from, v)
    {
      assert IsPath(cs, [v]) && Last([v]) == v;
    }
  }

  /** What the marking loop keeps. */
  ghost predicate Marking(cs: seq<Connection>, from: set<Id>, all: set<Id>, marked: set<Id>, queue: seq<Id>) {
    && Covers(all, cs, from)
    && Elems(queue) <= marked && from <= marked <= all
    && Expanded(cs, marked, queue) && AllReachable(cs, from, marked)
  }

  lemma MarkingNext(cs: seq<Connection>, from: set<Id>, all: set<Id>, marked: set<Id>, queue: seq<Id>,
                    neighbors: seq<Id>, marked': set<Id>, queue': seq<Id>)
    requires queue != [] && Lists(cs, queue[0], neighbors) && Marking(cs, from, all, marked, queue)
    requires marked' == marked + Elems(neighbors)
    requires Elems(queue') == Elems(queue[1..]) + (Elems(neighbors) - marked)
    ensures Marking(cs, from, all, marked', queue')
    ensures marked' == marked || |all - marked'| < |all - marked|
  {
    assert queue[0] in Elems(queue);
    ExpandedNext(cs, from, marked, queue, neighbors, marked', queue');
    MarkedWithin(cs, queue[0], neighbors, all, from, marked, marked');
    forall v | v in Elems(queue[1..])
      ensures v in Elems(queue)
    {
    }
  }

  lemma ExpandedIsReachable(cs: seq<Connection>, from: set<Id>, marked: set<Id>)
    requires Expanded(cs, marked, []) && AllReachable(cs, from, marked) && from <= marked
    ensures forall v :: v in marked <==> Reachable(cs, from, v)
  {
    forall v | Reachable(cs, from, v)
      ensures v in marked
    {
      var p :| IsPath(cs, p) && p[0] in from && Last(p) == v;
      PathStaysIn(cs, p, marked);
    }
  }

  /** Marks what can be reached from `start`, breadth first. */
  method MarkReachable(edges: Adjacency, start: seq<Id>, ghost cs: seq<Connection>) returns (marked: set<Id>)
    requires SameGraph(edges, cs)
    ensures forall v :: v in marked <==> Reachable(cs, Elems(start), v)
  {
    var queue := start;
    marked := set v | v in start;
    ghost var all := Elems(start) + Ids(cs);
    IdsCover(cs, Elems(start));
    StartMarked(cs, Elems(start));
    while queue != []
      invariant Marking(cs, Elems(start), all, marked, queue)
      decreases |all - marked|, |queue|
    {
      var neighbors := Out(edges, queue[0]);
      var marked', queue' := MarkNeighbors(neighbors, marked, queue[1..]);
      MarkingNext(cs, Elems(start), all, marked, queue, neighbors, marked', queue');
      marked, queue := marked', queue';
    }
    ExpandedIsReachable(cs, Elems(start), marked);
  }

  ghost predicate EndpointsDeclared(w: Workflow, u: Id) {
    u in w.Declared() && forall j :: 0 <= j < |Targets(w.connections, u)| ==> Targets(w.connections, u)[j] in w.Declared()
  }

  lemma UndeclaredSource(w: Workflow, u: Id)
    requires u !in w.Declared() && Targets(w.connections, u) != []
    ensures !w.Closed()
  {
    var v := Targets(w.connections, u)[0];
    TargetsAreEdges(w.connections, u, v);
    assert Connection(u, v) in w.connections;
  }

  lemma EndpointsClosed(w: Workflow, edges: Adjacency)
    requires Represents(edges, w.connections)
    requires forall u :: u in edges.Keys ==> EndpointsDeclared(w, u)
    ensures w.Closed()
  {
    forall c | c in w.connections
      ensures c.source in w.Declared() && c.target in w.Declared()
    {
      TargetsAreEdges(w.connections, c.source, c.target);
      assert Edge(w.connections, c.source, c.target);
      assert EndpointsDeclared(w, c.source);
    }
  }

  lemma CyclicNotValid(w: Workflow)
    requires CycleFrom(w.connections, w.Declared())
    ensures !Acyclic(w.connections) && w.Declared() != {} && w.connections != []
  {
    if Acyclic(w.connections) {
      AcyclicNoCycle(w.connections, w.Declared());
    }
    var p :| Lasso(w.connections, w.Declared(), p);
    assert Joined(w.connections, p, 0);
  }

  /** What closedness and the absence of reachable cycles already settle about the later checks. */
  lemma ClosedFacts(w: Workflow)
    requires w.Closed() && !CycleFrom(w.connections, w.Declared())
    ensures Acyclic(w.connections)
    ensures w.Declared() == {} ==> w.connections == [] && w.Starts() == {}
    ensures w.Declared() != {} ==> w.Starts() != {} && w.Ends() != {}
    ensures forall v :: v in w.Declared() ==> Reachable(w.connections, w.Starts(), v)
  {
    NoCycleAcyclic(w.connections, w.Declared());
    if w.connections != [] {
      assert w.connections[0] in w.connections;
    }
    forall v | v in w.Declared()
      ensures Reachable(w.connections, w.Starts(), v) && w.Starts() != {} && w.Ends() != {}
    {
      StartsReachAll(w, v);
      AllReachEnds(w, v);
    }
  }

  class Dag {
    const workflow: Workflow
    const nodes: map<Id, Node>
    const edges: Adjacency
    const startNodes: seq<Id>
    const endNodes: seq<Id>

    ghost predicate Valid() {
      && nodes == workflow.NodeMap()
      && Represents(edges, workflow.connections)
      && (forall v :: v in edges <==> Targets(workflow.connections, v) != [])
      && Distinct(startNodes) && Elems(startNodes) == workflow.Starts()
      && Distinct(endNodes) && Elems(endNodes) == workflow.Ends()
    }

    constructor (w: Workflow)
      ensures Valid() && workflow == w
    {
      var nodes := map[];
      for i := 0 to |w.nodes|
        invariant nodes == NodesById(w.nodes[..i])
      {
        assert w.nodes[..i + 1][..i] == w.nodes[..i];
        nodes := nodes[w.nodes[i].id := w.nodes[i]];
      }
      assert w.nodes[..|w.nodes|] == w.nodes;
      var edges := BuildEdges(w.connections);
      var incoming := CountFromConnections(w.connections, map[]);
      var starts := CollectStarts(w, nodes, incoming);
      var ends := CollectEnds(w, nodes, edges);
      this.workflow, this.nodes, this.edges, this.startNodes, this.endNodes := w, nodes, edges, starts, ends;
    }

    method HasCycle() returns (found: bool)
      requires Valid()
      ensures found <==> CycleFrom(workflow.connections, workflow.Declared())
    {
      found := HasCycleAnyOrder(edges, nodes.Keys, workflow.connections);
    }

    /** The enabled nodes that no start node reaches. */
    method FindUnreachableNodes() returns (unreachable: seq<Id>)
      requires Valid()
      ensures Distinct(unreachable)
      ensures forall v :: v in unreachable <==>
                          && v in workflow.Declared() && !workflow.NodeMap()[v].disabled
                          && !Reachable(workflow.connections, workflow.Starts(), v)
    {
      RepresentsSameGraph(edges, workflow.connections);
      var reachable := MarkReachable(edges, startNodes, workflow.connections);
      unreachable := [];
      var rest := nodes.Keys;
      while rest != {}
        invariant rest <= nodes.Keys && Distinct(unreachable)
        invariant forall v :: v in unreachable <==> v in nodes.Keys - rest && !nodes[v].disabled && v !in reachable
      {
        var v :| v in rest;
        rest := rest - {v};
        if v !in reachable && !nodes[v].disabled {
          unreachable := unreachable + [v];
        }
      }
    }

    /** Looks for a connection whose source or target is not a node of the DAG. */
    method CheckConnections() returns (r: Verdict)
      requires Valid()
      ensures r == Ok <==> workflow.Closed()
      ensures r.Err? ==>
                || (r.error.SourceNotFound? && Targets(workflow.connections, r.error.id) != []
                    && r.error.id !in workflow.Declared())
                || (r.error.TargetNotFound? && workflow.HasIncoming(r.error.id)
                    && r.error.id !in workflow.Declared())
    {
      var rest := edges.Keys;
      while rest != {}
        invariant rest <= edges.Keys
        invariant forall u :: u in edges.Keys - rest ==> EndpointsDeclared(workflow, u)
      {
        var source :| source in rest;
        rest := rest - {source};
        if source !in nodes {
          UndeclaredSource(workflow, source);
          return Err(SourceNotFound(source));
        }
        var targets := Out(edges, source);
        for i := 0 to |targets|
          invariant forall j :: 0 <= j < i ==> targets[j] in nodes
        {
          if targets[i] !in nodes {
            TargetsAreEdges(workflow.connections, source, targets[i]);
            assert Connection(source, targets[i]) in workflow.connections;
            return Err(TargetNotFound(targets[i]));
          }
        }
      }
      EndpointsClosed(workflow, edges);
      r := Ok;
    }

    /** Looks for an enabled node that lacks inputs or branches. */
    method ValidateNodeDependencies() returns (r: Verdict)
      requires Valid()
      ensures r == Ok <==> AllInputsMet(workflow)
      ensures r.Err? ==> Explains(workflow, r.error)
    {
      var incoming := CountFromEdges(edges, map[], workflow.connections);
      var rest := nodes.Keys;
      while rest != {}
        invariant rest <= nodes.Keys
        invariant forall v :: v in nodes.Keys - rest ==> InputsMet(workflow, v)
      {
        var v :| v in rest;
        rest := rest - {v};
        var node := nodes[v];
        ArrivingIsZero(workflow.connections, v, {});
        if !node.IsEntry() && !node.disabled {
          if Count(incoming, v) == 0 {
            return Err(NoInput(v));
          }
          if node.kind == MERGE {
            if Count(incoming, v) < 2 {
              return Err(TooFewMergeInputs(v));
            }
          } else if node.kind == CONDITION {
            if |Out(edges, v)| < 2 {
              return Err(TooFewBranches(v));
            }
          }
        }
      }
      r := Ok;
    }

    /** A workflow is valid exactly when it is acyclic, closed, nonempty and its inputs are met. Two of
        the checks can never fail by the time they are made. */
    method Validate() returns (r: Verdict)
      requires Valid()
      ensures r == Ok <==>
              Acyclic(workflow.connections) && workflow.Closed() && workflow.Declared() != {} && AllInputsMet(workflow)
      ensures r == Err(WorkflowHasCycle) <==> CycleFrom(workflow.connections, workflow.Declared())
      ensures r == Err(NoStartNodes) <==> workflow.Declared() == {} && workflow.connections == []
      ensures r.Err? ==> !r.error.NoEndNodes? && !r.error.UnreachableNodes?
      ensures r.Err? && r.error.SourceNotFound? ==>
                Targets(workflow.connections, r.error.id) != [] && r.error.id !in workflow.Declared()
      ensures r.Err? && r.error.TargetNotFound? ==> workflow.HasIncoming(r.error.id) && r.error.id !in workflow.Declared()
      ensures r.Err? && (r.error.SourceNotFound? || r.error.TargetNotFound?) <==>
              !workflow.Closed() && !CycleFrom(workflow.connections, workflow.Declared())
      ensures r.Err? && (r.error.NoInput? || r.error.TooFewMergeInputs? || r.error.TooFewBranches?) ==> Explains(workflow, r.error)
    {
      var cyclic := HasCycle();
      if cyclic {
        CyclicNotValid(workflow);
        return Err(WorkflowHasCycle);
      }
      r := CheckConnections();
      if r.Err? {
        assert !workflow.Closed();
        return;
      }
      ClosedFacts(workflow);
      ElemsEmpty(startNodes);
      ElemsEmpty(endNodes);
      assert workflow.Declared() != {} <==> startNodes != [];
      assert workflow.Declared() != {} ==> endNodes != [];
      if |startNodes| == 0 {
        return Err(NoStartNodes);
      }
      if |endNodes| == 0 {
        return Err(NoEndNodes);
      }
      var unreachable := FindUnreachableNodes();
      ElemsEmpty(unreachable);
      if |unreachable| > 0 {
        return Err(UnreachableNodes(unreachable));
      }
      r := ValidateNodeDependencies();
    }
  }

  method CollectStarts(w: Workflow, nodes: map<Id, Node>, incoming: map<Id, int>) returns (starts: seq<Id>)
    requires nodes == w.NodeMap() && CountsArrivals(incoming, w.connections)
    ensures Distinct(starts) && Elems(starts) == w.Starts()
  {
    starts := [];
    var rest := nodes.Keys;
    while rest != {}
      invariant rest <= nodes.Keys && Distinct(starts)
      invariant Elems(starts) == w.Starts() - rest
    {
      var v :| v in rest;
      rest := rest - {v};
      ArrivingIsZero(w.connections, v, {});
      if Count(incoming, v) == 0 || nodes[v].IsEntry() {
        ElemsAppend(starts, v);
        starts := starts + [v];
      }
    }
  }

  method CollectEnds(w: Workflow, nodes: map<Id, Node>, edges: Adjacency) returns (ends: seq<Id>)
    requires nodes == w.NodeMap() && Represents(edges, w.connections)
    ensures Distinct(ends) && Elems(ends) == w.Ends()
  {
    ends := [];
    var rest := nodes.Keys;
    while rest != {}
      invariant rest <= nodes.Keys && Distinct(ends)
      invariant Elems(ends) == w.Ends() - rest
    {
      var v :| v in rest;
      rest := rest - {v};
      if |Out(edges, v)| == 0 {
        ElemsAppend(ends, v);
        ends := ends + [v];
      }
    }
  }
}
