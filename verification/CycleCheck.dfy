/** The depth-first cycle check, which the repository contains three times: in the DAG, in the
    validator and in the workflow itself. */
module CycleCheck {
  import opened Workflows
  import opened Graphs

  /** Each ranked node's successors are ranked below it: the order in which a search leaves nodes. */
  ghost predicate Ranked(cs: seq<Connection>, rank: map<Id, nat>) {
    forall u, w {:trigger Edge(cs, u, w)} :: u in rank && Edge(cs, u, w) ==> w in rank && rank[w] < rank[u]
  }

  /** A path from a ranked node goes strictly down in rank. */
  lemma {:induction false} PathsDescend(cs: seq<Connection>, rank: map<Id, nat>, p: seq<Id>)
    requires Ranked(cs, rank) && IsPath(cs, p) && p[0] in rank
    ensures Last(p) in rank && rank[Last(p)] + |p| - 1 <= rank[p[0]]
  {
    if |p| < 2 {
    } else {
      assert Joined(cs, p, 0);
      Slice(cs, p, 1, |p|);
      PathsDescend(cs, rank, p[1..]);
    }
  }

  lemma RankedNoCycle(cs: seq<Connection>, roots: set<Id>, rank: map<Id, nat>)
    requires Ranked(cs, rank) && roots <= rank.Keys
    ensures !CycleFrom(cs, roots)
  {
    if p :| Lasso(cs, roots, p) {
      var k :| 0 <= k < |p| - 1 && p[k] == Last(p);
      Slice(cs, p, 0, k + 1);
      PathsDescend(cs, rank, p[..k + 1]);
      Slice(cs, p, k, |p|);
      PathsDescend(cs, rank, p[k..]);
    }
  }

  /** `all` holds the roots and whatever an edge leads to. */
  ghost predicate Covers(all: set<Id>, cs: seq<Connection>, roots: set<Id>) {
    && roots <= all
    && forall u, w {:trigger Edge(cs, u, w)} :: Edge(cs, u, w) ==> w in all
  }

  lemma IdsCover(cs: seq<Connection>, roots: set<Id>)
    ensures Covers(roots + Ids(cs), cs, roots)
  {
    forall u, w | Edge(cs, u, w)
      ensures w in roots + Ids(cs)
    {
      EdgeInIds(cs, u, w);
    }
  }

  /** What a search knows: the open calls form a path from a root, the closed ones are ranked. */
  ghost predicate Sound(cs: seq<Connection>, roots: set<Id>, all: set<Id>, visited: set<Id>, recStack: set<Id>,
                        stack: seq<Id>, rank: map<Id, nat>, clock: nat)
  {
    && (stack != [] ==> IsPath(cs, stack) && stack[0] in roots)
    && recStack == Elems(stack)
    && visited == recStack + rank.Keys
    && recStack !! rank.Keys
    && Covers(all, cs, roots) && visited <= all
    && Ranked(cs, rank)
    && forall u :: u in rank ==> rank[u] < clock
  }

  /** A node that the search may open next. */
  ghost predicate CanOpen(cs: seq<Connection>, roots: set<Id>, stack: seq<Id>, node: Id) {
    if stack == [] then node in roots else Edge(cs, Last(stack), node)
  }

  lemma OpenSound(cs: seq<Connection>, roots: set<Id>, all: set<Id>, visited: set<Id>, recStack: set<Id>,
                  stack: seq<Id>, rank: map<Id, nat>, clock: nat, node: Id)
    requires Sound(cs, roots, all, visited, recStack, stack, rank, clock)
    requires node !in visited && CanOpen(cs, roots, stack, node)
    ensures Sound(cs, roots, all, visited + {node}, recStack + {node}, stack + [node], rank, clock)
    ensures node in all
  {
    if stack != [] {
      Extend(cs, stack, node);
    }
    assert Elems(stack + [node]) == Elems(stack) + {node};
  }

  lemma CloseSound(cs: seq<Connection>, roots: set<Id>, all: set<Id>, visited: set<Id>, recStack: set<Id>,
                   stack: seq<Id>, rank: map<Id, nat>, clock: nat, node: Id,
                   neighbors: seq<Id>)
    requires Sound(cs, roots, all, visited, recStack, stack + [node], rank, clock) && node !in stack
    requires Lists(cs, node, neighbors) && Left(neighbors, |neighbors|, visited, recStack)
    ensures Sound(cs, roots, all, visited, recStack - {node}, stack, rank[node := clock], clock + 1)
  {
    assert Elems(stack + [node]) == Elems(stack) + {node};
    forall w | Edge(cs, node, w)
      ensures w in rank
    {
      assert w in neighbors;
    }
    assert node in recStack;
    if stack != [] {
      Slice(cs, stack + [node], 0, |stack|);
      assert (stack + [node])[..|stack|] == stack;
    }
  }

  lemma BackEdge(cs: seq<Connection>, roots: set<Id>, stack: seq<Id>, node: Id)
    requires stack != [] && IsPath(cs, stack) && stack[0] in roots
    requires Edge(cs, Last(stack), node) && node in stack
    ensures CycleFrom(cs, roots)
  {
    Extend(cs, stack, node);
    assert (stack + [node])[..|stack|] == stack;
    assert Lasso(cs, roots, stack + [node]);
  }

  /** The calls for the first `n` neighbors have all returned. */
  ghost predicate Left(neighbors: seq<Id>, n: nat, visited: set<Id>, recStack: set<Id>)
    requires n <= |neighbors|
  {
    forall j :: 0 <= j < n ==> neighbors[j] in visited && neighbors[j] !in recStack
  }

  lemma LeftNext(neighbors: seq<Id>, n: nat, before: set<Id>, visited: set<Id>, recStack: set<Id>)
    requires n < |neighbors| && Left(neighbors, n, before, recStack) && before <= visited
    requires neighbors[n] in visited && neighbors[n] !in recStack
    ensures Left(neighbors, n + 1, visited, recStack)
  {
  }

  /** The maps that the recursive closure captures. The ghost fields keep the path of open calls
      and the order in which calls returned. */
  class CycleSearch {
    const edges: Adjacency
    ghost const cs: seq<Connection>
    ghost const roots: set<Id>
    ghost const all: set<Id>
    var visited: set<Id>
    var recStack: set<Id>
    ghost var stack: seq<Id>
    ghost var rank: map<Id, nat>
    ghost var clock: nat

    ghost predicate Valid()
      reads this
    {
      Sound(cs, roots, all, visited, recStack, stack, rank, clock)
    }

    constructor (edges: Adjacency, ghost cs: seq<Connection>, ghost roots: set<Id>)
      ensures Valid() && this.edges == edges && this.cs == cs && this.roots == roots
      ensures visited == {} && stack == []
    {
      this.edges, this.cs, this.roots := edges, cs, roots;
      all := roots + Ids(cs);
      visited, recStack, stack, rank, clock := {}, {}, [], map[], 0;
      IdsCover(cs, roots);
    }

    method HasCycleDFS(node: Id) returns (found: bool)
      requires SameGraph(edges, cs) && Valid() && node !in visited
      requires CanOpen(cs, roots, stack, node)
      modifies this
      ensures found ==> CycleFrom(cs, roots)
      ensures !found ==> Valid() && stack == old(stack) && recStack == old(recStack)
      ensures !found ==> old(visited) <= visited && node in visited && node !in recStack
      decreases |all - visited|, 0
    {
      Open(node);
      SmallerRest(all, old(visited), visited, node);
      var neighbors := Out(edges, node);
      found := CheckNeighbors(node, neighbors);
      if !found {
        Close(node, neighbors);
        assert stack == old(stack) && recStack == old(recStack);
      }
    }

    /** Marks a node as visited and as part of the open calls. */
    method Open(node: Id)
      requires Valid() && node !in visited && CanOpen(cs, roots, stack, node)
      modifies this
      ensures Valid() && node in all && node !in old(recStack)
      ensures visited == old(visited) + {node} && recStack == old(recStack) + {node} && stack == old(stack) + [node]
    {
      OpenSound(cs, roots, all, visited, recStack, stack, rank, clock, node);
      visited := visited + {node};
      recStack := recStack + {node};
      stack := stack + [node];
    }

    /** Takes a node whose neighbors have all been left off the open calls. */
    method Close(node: Id, ghost neighbors: seq<Id>)
      requires Valid() && stack != [] && node == Last(stack) && node !in stack[..|stack| - 1]
      requires Lists(cs, node, neighbors) && Left(neighbors, |neighbors|, visited, recStack)
      modifies this
      ensures Valid() && node in visited
      ensures visited == old(visited) && recStack == old(recStack) - {node} && stack == old(stack)[..|old(stack)| - 1]
    {
      ghost var below := stack[..|stack| - 1];
      assert stack == below + [node];
      CloseSound(cs, roots, all, visited, recStack, below, rank, clock, node, neighbors);
      recStack := recStack - {node};
      stack := below;
      rank, clock := rank[node := clock], clock + 1;
    }

    /** The loop over a node's neighbors. */
    method CheckNeighbors(node: Id, neighbors: seq<Id>) returns (found: bool)
      requires SameGraph(edges, cs) && Valid() && stack != [] && Last(stack) == node
      requires Lists(cs, node, neighbors)
      modifies this
      ensures found ==> CycleFrom(cs, roots)
      ensures !found ==> Valid() && stack == old(stack) && recStack == old(recStack)
      ensures !found ==> old(visited) <= visited
      ensures !found ==> Left(neighbors, |neighbors|, visited, recStack)
      decreases |all - visited|, 1
    {
      for i := 0 to |neighbors|
        invariant Valid() && stack == old(stack) && recStack == old(recStack) && old(visited) <= visited
        invariant Left(neighbors, i, visited, recStack)
      {
        SubsetSize(all - visited, all - old(visited));
        ghost var before := visited;
        if neighbors[i] !in visited {
          found := HasCycleDFS(neighbors[i]);
          if found {
            return;
          }
        } else if neighbors[i] in recStack {
          BackEdge(cs, roots, stack, neighbors[i]);
          return true;
        }
        LeftNext(neighbors, i, before, visited, recStack);
      }
      found := false;
    }
  }

  lemma SmallerRest(all: set<Id>, before: set<Id>, after: set<Id>, v: Id)
    requires v in all && v !in before && before + {v} <= after
    ensures |all - after| < |all - before|
  {
    assert all - after <= (all - before) - {v};
    SubsetSize(all - after, (all - before) - {v});
  }

  lemma {:induction false} SubsetSize<T>(a: set<T>, b: set<T>)
    requires a <= b
    ensures |a| <= |b|
  {
    if a == {} {
    } else {
      var x :| x in a;
      SubsetSize(a - {x}, b - {x});
    }
  }

  /** The drivers of the DAG and of the validator visit a map's keys in an arbitrary order. */
  method HasCycleAnyOrder(edges: Adjacency, keys: set<Id>, ghost cs: seq<Connection>) returns (found: bool)
    requires Represents(edges, cs)
    ensures found <==> CycleFrom(cs, keys)
  {
    RepresentsSameGraph(edges, cs);
    var search := new CycleSearch(edges, cs, keys);
    var rest := keys;
    while rest != {}
      invariant rest <= keys
      invariant search.Valid() && search.edges == edges && search.cs == cs && search.roots == keys && search.stack == []
      invariant keys - rest <= search.visited
    {
      var v :| v in rest;
      rest := rest - {v};
      if v !in search.visited {
        found := search.HasCycleDFS(v);
        if found {
          return;
        }
      }
    }
    RankedNoCycle(cs, keys, search.rank);
    found := false;
  }

  /** The workflow's own check visits its nodes in the order of the list. */
  method HasCycleListOrder(w: Workflow) returns (found: bool)
    ensures found <==> CycleFrom(w.connections, w.Declared())
  {
    var edges := BuildEdges(w.connections);
    RepresentsSameGraph(edges, w.connections);
    var search := new CycleSearch(edges, w.connections, w.Declared());
    for i := 0 to |w.nodes|
      invariant search.Valid() && search.edges == edges && search.cs == w.connections && search.roots == w.Declared() && search.stack == []
      invariant forall j :: 0 <= j < i ==> w.nodes[j].id in search.visited
    {
      if w.nodes[i].id !in search.visited {
        found := search.HasCycleDFS(w.nodes[i].id);
        if found {
          return;
        }
      }
    }
    RankedNoCycle(w.connections, w.Declared(), search.rank);
    found := false;
  }
}
