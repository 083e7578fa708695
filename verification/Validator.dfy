/** The validator's copies of the cycle check and of the topological sort. */
module Validators {
  import opened Workflows
  import opened Graphs
  import opened CycleCheck
  import opened Degrees
  import opened Dags
  import opened TopologicalOrder

  class Validator {
    const workflow: Workflow
    var nodeMap: map<Id, Node>

    constructor (w: Workflow)
      ensures workflow == w && nodeMap == map[]
    {
      workflow, nodeMap := w, map[];
    }

    /** Adds the nodes to the map until an identifier is met twice. The map is never emptied, so a second
        call on the same validator fails on its first node. */
    method BuildNodeMap() returns (ok: bool)
      modifies this
      ensures ok <==> Distinct(Names(workflow.nodes)) && old(nodeMap).Keys !! workflow.Declared()
      ensures ok && old(nodeMap) == map[] ==> nodeMap == workflow.NodeMap()
    {
      assert workflow.nodes[..0] == [];
      for i := 0 to |workflow.nodes|
        invariant Built(old(nodeMap), workflow.nodes, i, nodeMap)
      {
        var node := workflow.nodes[i];
        if node.id in nodeMap {
          DuplicateFound(workflow, i, old(nodeMap).Keys);
          return false;
        }
        BuiltNext(old(nodeMap), workflow.nodes, i, nodeMap);
        nodeMap := nodeMap[node.id := node];
      }
      BuiltAll(old(nodeMap), workflow, nodeMap);
      ok := true;
    }

    method ValidateNoCycles() returns (ok: bool)
      ensures ok <==> !CycleFrom(workflow.connections, nodeMap.Keys)
    {
      var edges := BuildEdges(workflow.connections);
      var found := HasCycleAnyOrder(edges, nodeMap.Keys, workflow.connections);
      ok := !found;
    }

    method GetTopologicalOrder() returns (r: Order)
      ensures r.Sorted? ==> TopologicallySorted(nodeMap.Keys, workflow.connections, r.ids)
      ensures r.Sorted? <==> |RootedIds(nodeMap.Keys, workflow.connections)| == |nodeMap|
      ensures nodeMap.Keys == workflow.Declared() && workflow.Closed() ==>
                && (r.Sorted? <==> !CycleFrom(workflow.connections, workflow.Declared()))
                && (r.Sorted? ==> Elems(r.ids) == workflow.Declared())
    {
      assert |nodeMap| == |nodeMap.Keys|;
      if nodeMap.Keys == workflow.Declared() && workflow.Closed() {
        ClosedSorts(workflow);
      }
      var edges := BuildEdges(workflow.connections);
      var zeros := map v | v in nodeMap :: 0;
      var counts := CountFromConnections(workflow.connections, zeros);
      assert forall v :: v in counts ==> counts[v] == Count(counts, v);
      r := SortByDegree(edges, counts, |nodeMap|, nodeMap.Keys, workflow.connections);
    }
  }

  /** The map after the first `i` nodes, none of which was met twice. */
  ghost predicate Built(base: map<Id, Node>, nodes: seq<Node>, i: nat, m: map<Id, Node>)
    requires i <= |nodes|
  {
    && Distinct(Names(nodes[..i]))
    && base.Keys !! NodesById(nodes[..i]).Keys
    && m == base + NodesById(nodes[..i])
  }

  lemma BuiltNext(base: map<Id, Node>, nodes: seq<Node>, i: nat, m: map<Id, Node>)
    requires i < |nodes| && Built(base, nodes, i, m) && nodes[i].id !in m
    ensures Built(base, nodes, i + 1, m[nodes[i].id := nodes[i]])
  {
    var before, after := nodes[..i], nodes[..i + 1];
    assert after == before + [nodes[i]] && after[..i] == before;
    NamesNext(before, nodes[i]);
    MapNext(base, NodesById(before), nodes[i]);
  }

  lemma MapNext(base: map<Id, Node>, m: map<Id, Node>, node: Node)
    ensures (base + m)[node.id := node] == base + m[node.id := node]
    ensures base.Keys !! m.Keys && node.id !in base ==> base.Keys !! m[node.id := node].Keys
  {
  }

  lemma BuiltAll(base: map<Id, Node>, w: Workflow, m: map<Id, Node>)
    requires Built(base, w.nodes, |w.nodes|, m)
    ensures Distinct(Names(w.nodes)) && base.Keys !! w.Declared()
    ensures base == map[] ==> m == w.NodeMap()
  {
    assert w.nodes[..|w.nodes|] == w.nodes;
    assert NodesById(w.nodes).Keys == w.Declared();
  }

  function Names(nodes: seq<Node>): (ids: seq<Id>)
    ensures |ids| == |nodes| && forall i :: 0 <= i < |nodes| ==> ids[i] == nodes[i].id
  {
    seq(|nodes|, i requires 0 <= i < |nodes| => nodes[i].id)
  }

  lemma NamesNext(before: seq<Node>, node: Node)
    ensures Names(before + [node]) == Names(before) + [node.id]
    ensures Distinct(Names(before + [node])) <==> Distinct(Names(before)) && node.id !in Names(before)
    ensures node.id in Names(before) <==> node.id in NodesById(before)
  {
    assert Names(before + [node]) == Names(before) + [node.id];
    ElemsAppend(Names(before), node.id);
    if node.id in NodesById(before) {
      var i :| 0 <= i < |before| && before[i].id == node.id;
      assert Names(before)[i] == node.id;
    }
  }

  lemma DuplicateFound(w: Workflow, i: nat, taken: set<Id>)
    requires i < |w.nodes|
    requires w.nodes[i].id in taken || w.nodes[i].id in NodesById(w.nodes[..i])
    ensures !Distinct(Names(w.nodes)) || !(taken !! w.Declared())
  {
    if w.nodes[i].id in taken {
      assert w.nodes[i].id in w.Declared();
    } else {
      var k :| 0 <= k < i && w.nodes[..i][k].id == w.nodes[i].id;
      assert Names(w.nodes)[k] == Names(w.nodes)[i];
    }
  }

  /** The three cycle checks agree on every workflow without duplicate nodes, and so do the two sorts. */
  method ChecksAgree(w: Workflow)
    returns (built: bool, byDag: bool, byValidator: bool, byList: bool, dagOrder: Order, validatorOrder: Order)
    ensures built <==> Distinct(Names(w.nodes))
    ensures byDag == byList == CycleFrom(w.connections, w.Declared())
    ensures built ==> byValidator == byDag && dagOrder.Sorted? == validatorOrder.Sorted?
    ensures built && dagOrder.Sorted? ==> Elems(dagOrder.ids) == Elems(validatorOrder.ids)
    ensures w.Closed() ==> dagOrder.Sorted? == !byDag
  {
    var dag := new Dag(w);
    var validator := new Validator(w);
    built := validator.BuildNodeMap();
    byDag := dag.HasCycle();
    var noCycle := validator.ValidateNoCycles();
    byValidator := !noCycle;
    byList := HasCycleListOrder(w);
    dagOrder := TopologicalOrder.GetTopologicalOrder(dag);
    validatorOrder := validator.GetTopologicalOrder();
    assert |validator.nodeMap| == |validator.nodeMap.Keys|;
  }
}
