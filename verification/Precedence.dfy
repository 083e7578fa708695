/** When the run loop runs every node after the nodes that lead to it. */
module Precedence {
  import opened Workflows
  import opened Graphs
  import opened RunLoop

  /** Every connection between nodes in reach leads further away from the start nodes. */
  ghost predicate GoesUp(cs: seq<Connection>, from: set<Id>) {
    forall u, v, d, e :: Edge(cs, u, v) && AtDistance(cs, from, u, d) && AtDistance(cs, from, v, e) ==> d < e
  }

  /** A breadth-first list of all that is in reach. */
  ghost predicate ListsAll(cs: seq<Connection>, from: set<Id>, ids: seq<Id>) {
    BreadthFirst(cs, from, ids) && forall v :: v in ids <==> Reachable(cs, from, v)
  }

  /** Before a node come all predecessors that are in reach. */
  ghost predicate PredecessorsFirst(cs: seq<Connection>, from: set<Id>, ids: seq<Id>) {
    forall u, i {:trigger Edge(cs, u, ids[i])} ::
      0 <= i < |ids| && Edge(cs, u, ids[i]) && Reachable(cs, from, u) ==> u in ids[..i]
  }

  lemma DistanceOf(cs: seq<Connection>, from: set<Id>, v: Id) returns (d: nat)
    requires Reachable(cs, from, v)
    ensures AtDistance(cs, from, v, d)
  {
    var p :| IsPath(cs, p) && p[0] in from && Last(p) == v;
    assert HasPath(cs, from, v, |p| - 1 + 1);
    d := SomeDistance(cs, from, v, |p| - 1);
  }

  lemma UpIsFirst(cs: seq<Connection>, from: set<Id>, ids: seq<Id>)
    requires GoesUp(cs, from) && BreadthFirst(cs, from, ids)
    ensures PredecessorsFirst(cs, from, ids)
  {
    forall u, i | 0 <= i < |ids| && Edge(cs, u, ids[i]) && Reachable(cs, from, u)
      ensures u in ids[..i]
    {
      var d := DistanceOf(cs, from, u);
      var e := DistanceOf(cs, from, ids[i]);
      assert ListsNearer(cs, from, ids[..i], e);
    }
  }

  // Lists that put a given node first among the equally distant ones.

  /** All listed nodes are nearer than `d`. */
  ghost predicate AllNearer(cs: seq<Connection>, from: set<Id>, ids: seq<Id>, d: int) {
    forall v :: v in ids ==> WithinDistance(cs, from, v, d - 1)
  }

  lemma NotWithin(cs: seq<Connection>, from: set<Id>, v: Id, d: int, e: int)
    requires AtDistance(cs, from, v, d) && e < d
    ensures !WithinDistance(cs, from, v, e)
  {
    forall f | AtDistance(cs, from, v, f)
      ensures d <= f
    {
      OneDistance(cs, from, v, d, f);
    }
  }

  lemma NearerAppend(cs: seq<Connection>, from: set<Id>, ids: seq<Id>, w: Id, d: int, e: int)
    requires AllNearer(cs, from, ids, d) && AtDistance(cs, from, w, e) && e < d
    ensures AllNearer(cs, from, ids + [w], d)
  {
    assert WithinDistance(cs, from, w, d - 1);
  }

  lemma {:induction false} ListNearer(cs: seq<Connection>, from: set<Id>, ids: seq<Id>, d: nat) returns (all: seq<Id>)
    requires BreadthFirst(cs, from, ids) && AllNearer(cs, from, ids, d)
    ensures BreadthFirst(cs, from, all) && AllNearer(cs, from, all, d) && ListsNearer(cs, from, all, d)
    decreases |from + Ids(cs) - Elems(ids)|
  {
    if x: Id, f: nat :| Unlisted(cs, from, ids, x, f) && f < d {
      var w, e := NextUnlisted(cs, from, ids, x, f);
      NearerAppend(cs, from, ids, w, d, e);
      all := ListNearer(cs, from, ids + [w], d);
    } else {
      all := ids;
      forall v, e | AtDistance(cs, from, v, e) && e < d
        ensures v in ids
      {
        DistanceIsNat(cs, from, v, e);
        assert !Unlisted(cs, from, ids, v, e);
      }
    }
  }

  lemma PreferNode(cs: seq<Connection>, from: set<Id>, v: Id, d: nat) returns (ids: seq<Id>, i: nat)
    requires AtDistance(cs, from, v, d)
    ensures ListsAll(cs, from, ids) && i < |ids| && ids[i] == v && AllNearer(cs, from, ids[..i], d)
  {
    var nearer := ListNearer(cs, from, [], d);
    NotWithin(cs, from, v, d, d - 1);
    forall k | 0 <= k < |nearer|
      ensures WithinDistance(cs, from, nearer[k], d)
    {
      assert nearer[k] in nearer;
      var e :| e <= d - 1 && AtDistance(cs, from, nearer[k], e);
    }
    BreadthFirstNext(cs, from, nearer, v, d);
    ids := Completable(cs, from, nearer + [v]);
    i := |nearer|;
    assert ids[..i] == (nearer + [v])[..i] == nearer;
  }

  /** Breadth-first lists put all predecessors first exactly when every connection leads further away. */
  lemma ListsExactly(cs: seq<Connection>, from: set<Id>)
    ensures GoesUp(cs, from) <==> forall ids :: ListsAll(cs, from, ids) ==> PredecessorsFirst(cs, from, ids)
  {
    if GoesUp(cs, from) {
      forall ids | ListsAll(cs, from, ids)
        ensures PredecessorsFirst(cs, from, ids)
      {
        UpIsFirst(cs, from, ids);
      }
    } else {
      var u, v, d, e :| Edge(cs, u, v) && AtDistance(cs, from, u, d) && AtDistance(cs, from, v, e) && d >= e;
      DistanceIsNat(cs, from, v, e);
      var ids, i := PreferNode(cs, from, v, e);
      NotFirst(cs, from, ids, i, u, d, e);
    }
  }

  lemma NotFirst(cs: seq<Connection>, from: set<Id>, ids: seq<Id>, i: nat, u: Id, d: int, e: int)
    requires i < |ids| && Edge(cs, u, ids[i]) && AtDistance(cs, from, u, d) && d >= e && AllNearer(cs, from, ids[..i], e)
    ensures !PredecessorsFirst(cs, from, ids)
  {
    ReachableByPath(cs, from, u, d + 1);
    NotWithin(cs, from, u, d, e - 1);
  }
}
