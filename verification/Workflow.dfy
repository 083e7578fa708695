/** The part of a workflow definition that the graph algorithms read: its nodes and the
    connections between them. Two connections may join the same pair of nodes. */
module Workflows {

  datatype Id = Id(name: string)

  const TRIGGER := "trigger"
  const WEBHOOK := "webhook"
  const MERGE := "merge"
  const CONDITION := "condition"

  datatype Node = Node(id: Id, kind: string, disabled: bool) {

    /** Triggers and webhooks start a run whether or not a connection arrives at them. */
    predicate IsEntry() {
      kind == TRIGGER || kind == WEBHOOK
    }
  }

  datatype Connection = Connection(source: Id, target: Id)

  datatype Workflow = Workflow(nodes: seq<Node>, connections: seq<Connection>) {

    /** The identifiers that some node declares. */
    function Declared(): set<Id> {
      set i | 0 <= i < |nodes| :: nodes[i].id
    }

    /** The node map of the DAG: of two nodes with the same identifier the later one stays. */
    function NodeMap(): (m: map<Id, Node>)
      ensures m.Keys == Declared()
    {
      NodesById(nodes)
    }

    ghost predicate HasIncoming(v: Id) {
      exists u :: Edge(connections, u, v)
    }

    /** The nodes a run can begin at. */
    ghost function Starts(): set<Id> {
      set v | v in Declared() && (!HasIncoming(v) || NodeMap()[v].IsEntry())
    }

    /** The nodes a run can finish at. */
    ghost function Ends(): set<Id> {
      set v | v in Declared() && Targets(connections, v) == []
    }

    /** Every connection joins declared nodes. */
    ghost predicate Closed() {
      forall c :: c in connections ==> c.source in Declared() && c.target in Declared()
    }
  }

  function NodesById(nodes: seq<Node>): (m: map<Id, Node>)
    ensures m.Keys == set i | 0 <= i < |nodes| :: nodes[i].id
  {
    if nodes == [] then map[]
    else
      var n := |nodes| - 1;
      NodesById(nodes[..n])[nodes[n].id := nodes[n]]
  }

  /** The last node with an identifier is the one that stays. */
  lemma {:induction false} LastNodeStays(nodes: seq<Node>, i: nat)
    requires i < |nodes| && forall j :: i < j < |nodes| ==> nodes[j].id != nodes[i].id
    ensures NodesById(nodes)[nodes[i].id] == nodes[i]
  {
    var n := |nodes| - 1;
    if i == n {
    } else {
      assert nodes[..n][i] == nodes[i];
      LastNodeStays(nodes[..n], i);
    }
  }

  /** The targets of the connections that leave `v`, in the order of the connections. */
  function Targets(cs: seq<Connection>, v: Id): seq<Id> {
    if cs == [] then []
    else
      var before := Targets(cs[..|cs| - 1], v);
      var last := cs[|cs| - 1];
      if last.source == v then before + [last.target] else before
  }

  /** How many connections arrive at `v` from a source outside `done`. */
  function Arriving(cs: seq<Connection>, v: Id, done: set<Id>): nat {
    if cs == [] then 0
    else
      var before := Arriving(cs[..|cs| - 1], v, done);
      var last := cs[|cs| - 1];
      if last.target == v && last.source !in done then before + 1 else before
  }

  predicate Edge(cs: seq<Connection>, a: Id, b: Id) {
    Connection(a, b) in cs
  }

  lemma {:induction false} TargetsAreEdges(cs: seq<Connection>, a: Id, b: Id)
    ensures b in Targets(cs, a) <==> Edge(cs, a, b)
  {
    if cs == [] {
    } else {
      TargetsAreEdges(cs[..|cs| - 1], a, b);
      assert cs == cs[..|cs| - 1] + [cs[|cs| - 1]];
    }
  }

  lemma {:induction false} ArrivingIsZero(cs: seq<Connection>, v: Id, done: set<Id>)
    ensures Arriving(cs, v, done) == 0 <==> forall u :: Edge(cs, u, v) ==> u in done
  {
    if cs == [] {
    } else {
      var last := cs[|cs| - 1];
      ArrivingIsZero(cs[..|cs| - 1], v, done);
      assert cs == cs[..|cs| - 1] + [last];
      if last.target == v {
        assert Edge(cs, last.source, v);
      }
    }
  }

  /** Finishing `u` takes away exactly one arrival for each connection from `u` to `v`. */
  lemma {:induction false} ArrivingAfter(cs: seq<Connection>, v: Id, done: set<Id>, u: Id)
    requires u !in done
    ensures Arriving(cs, v, done) == Arriving(cs, v, done + {u}) + multiset(Targets(cs, u))[v]
  {
    if cs == [] {
    } else {
      ArrivingAfter(cs[..|cs| - 1], v, done, u);
    }
  }

  type Adjacency = map<Id, seq<Id>>

  /** Looking up a missing key yields the empty slice. */
  function Out(edges: Adjacency, v: Id): seq<Id> {
    if v in edges then edges[v] else []
  }

  ghost predicate Represents(edges: Adjacency, cs: seq<Connection>) {
    forall v :: Out(edges, v) == Targets(cs, v)
  }

  /** `targets` names exactly the nodes that a connection from `v` leads to. */
  ghost predicate Lists(cs: seq<Connection>, v: Id, targets: seq<Id>) {
    forall w :: w in targets <==> Edge(cs, v, w)
  }

  /** The same graph, disregarding how often and in which order it lists a connection. */
  ghost predicate SameGraph(edges: Adjacency, cs: seq<Connection>) {
    forall v :: Lists(cs, v, Out(edges, v))
  }

  lemma RepresentsSameGraph(edges: Adjacency, cs: seq<Connection>)
    requires Represents(edges, cs)
    ensures SameGraph(edges, cs)
  {
    forall v, w
      ensures w in Out(edges, v) <==> Edge(cs, v, w)
    {
      TargetsAreEdges(cs, v, w);
    }
  }

  method BuildEdges(cs: seq<Connection>) returns (edges: Adjacency)
    ensures Represents(edges, cs)
    ensures forall v :: v in edges <==> Targets(cs, v) != []
  {
    edges := map[];
    for i := 0 to |cs|
      invariant Represents(edges, cs[..i])
      invariant forall v :: v in edges <==> Targets(cs[..i], v) != []
    {
      assert cs[..i + 1][..i] == cs[..i];
      var c := cs[i];
      edges := edges[c.source := Out(edges, c.source) + [c.target]];
    }
    assert cs[..|cs|] == cs;
  }
}
