/** Paths, cycles and reachability in the graph that a sequence of connections spans. */
module Graphs {
  import opened Workflows

  /** The nodes at positions `i` and `i + 1` are joined. */
  ghost predicate Joined(cs: seq<Connection>, p: seq<Id>, i: nat)
    requires i + 1 < |p|
  {
    Edge(cs, p[i], p[i + 1])
  }

  ghost predicate IsPath(cs: seq<Connection>, p: seq<Id>) {
    p != [] && forall i :: 0 <= i < |p| - 1 ==> Joined(cs, p, i)
  }

  function Last(p: seq<Id>): Id
    requires p != []
  {
    p[|p| - 1]
  }

  ghost predicate Distinct<T>(p: seq<T>) {
    forall i, j :: 0 <= i < j < |p| ==> p[i] != p[j]
  }

  ghost function Elems<T>(p: seq<T>): set<T> {
    set x | x in p
  }

  lemma ElemsAppend<T>(s: seq<T>, x: T)
    ensures Elems(s + [x]) == Elems(s) + {x}
    ensures Distinct(s + [x]) <==> Distinct(s) && x !in s
  {
    if Distinct(s + [x]) {
      forall i, j | 0 <= i < j < |s|
        ensures s[i] != s[j]
      {
        assert (s + [x])[i] != (s + [x])[j];
      }
      forall i | 0 <= i < |s|
        ensures s[i] != x
      {
        assert (s + [x])[i] != (s + [x])[|s|];
      }
    }
  }

  lemma ElemsEmpty<T>(s: seq<T>)
    ensures Elems(s) == {} <==> s == []
  {
    assert s != [] ==> s[0] in Elems(s);
  }

  /** A path from `from` that comes back to one of its own earlier nodes. */
  ghost predicate Lasso(cs: seq<Connection>, from: set<Id>, p: seq<Id>) {
    IsPath(cs, p) && p[0] in from && Last(p) in p[..|p| - 1]
  }

  /** Some cycle can be reached from `from`. */
  ghost predicate CycleFrom(cs: seq<Connection>, from: set<Id>) {
    exists p :: Lasso(cs, from, p)
  }

  ghost predicate Acyclic(cs: seq<Connection>) {
    forall p {:trigger IsPath(cs, p)} :: IsPath(cs, p) && |p| >= 2 ==> p[0] != Last(p)
  }

  ghost predicate PathBetween(cs: seq<Connection>, a: Id, b: Id, p: seq<Id>) {
    IsPath(cs, p) && p[0] == a && Last(p) == b
  }

  ghost predicate Reachable(cs: seq<Connection>, from: set<Id>, v: Id) {
    exists p :: IsPath(cs, p) && p[0] in from && Last(p) == v
  }

  /** Every identifier that a connection mentions. */
  function Ids(cs: seq<Connection>): set<Id> {
    (set i | 0 <= i < |cs| :: cs[i].source) + (set i | 0 <= i < |cs| :: cs[i].target)
  }

  lemma EdgeInIds(cs: seq<Connection>, a: Id, b: Id)
    requires Edge(cs, a, b)
    ensures a in Ids(cs) && b in Ids(cs)
  {
    var i :| 0 <= i < |cs| && cs[i] == Connection(a, b);
  }

  // Building and cutting paths.

  lemma Extend(cs: seq<Connection>, p: seq<Id>, v: Id)
    requires IsPath(cs, p) && Edge(cs, Last(p), v)
    ensures IsPath(cs, p + [v]) && Last(p + [v]) == v && (p + [v])[0] == p[0]
  {
    forall i | 0 <= i < |p|
      ensures Joined(cs, p + [v], i)
    {
      assert i < |p| - 1 ==> Joined(cs, p, i);
    }
  }

  lemma Prepend(cs: seq<Connection>, v: Id, p: seq<Id>)
    requires IsPath(cs, p) && Edge(cs, v, p[0])
    ensures IsPath(cs, [v] + p) && Last([v] + p) == Last(p)
  {
    forall i | 0 <= i < |p|
      ensures Joined(cs, [v] + p, i)
    {
      assert i > 0 ==> Joined(cs, p, i - 1);
    }
  }

  lemma Slice(cs: seq<Connection>, p: seq<Id>, i: nat, j: nat)
    requires IsPath(cs, p) && i < j <= |p|
    ensures IsPath(cs, p[i..j])
    ensures i == 0 ==> p[i..j] == p[..j]
    ensures j == |p| ==> p[i..j] == p[i..]
  {
    forall k | 0 <= k < j - i - 1
      ensures Joined(cs, p[i..j], k)
    {
      assert Joined(cs, p, i + k);
    }
  }

  lemma Join(cs: seq<Connection>, p: seq<Id>, q: seq<Id>)
    requires IsPath(cs, p) && IsPath(cs, q) && Last(p) == q[0]
    ensures IsPath(cs, p + q[1..]) && (p + q[1..])[0] == p[0] && Last(p + q[1..]) == Last(q)
  {
    forall i | 0 <= i < |p + q[1..]| - 1
      ensures Joined(cs, p + q[1..], i)
    {
      assert if i < |p| - 1 then Joined(cs, p, i) else Joined(cs, q, i - |p| + 1);
    }
  }

  lemma {:induction false} PathStaysIn(cs: seq<Connection>, p: seq<Id>, b: set<Id>)
    requires IsPath(cs, p) && p[0] in b
    requires forall u, v :: u in b && Edge(cs, u, v) ==> v in b
    ensures forall i :: 0 <= i < |p| ==> p[i] in b
  {
    if |p| == 1 {
    } else {
      Slice(cs, p, 0, |p| - 1);
      PathStaysIn(cs, p[..|p| - 1], b);
      assert Joined(cs, p, |p| - 2);
    }
  }

  // Finiteness.

  lemma {:induction false} Pigeonhole(p: seq<Id>, u: set<Id>)
    requires Distinct(p)
    requires forall i :: 0 <= i < |p| ==> p[i] in u
    ensures |p| <= |u|
  {
    if p == [] {
    } else {
      var n := |p| - 1;
      forall i | 0 <= i < n
        ensures p[..n][i] in u - {p[n]}
      {
      }
      Pigeonhole(p[..n], u - {p[n]});
    }
  }

  lemma NoCycleDistinct(cs: seq<Connection>, from: set<Id>, p: seq<Id>)
    requires !CycleFrom(cs, from) && IsPath(cs, p) && p[0] in from
    ensures Distinct(p)
  {
    forall i, j | 0 <= i < j < |p|
      ensures p[i] != p[j]
    {
      Slice(cs, p, 0, j + 1);
      if p[i] == p[j] {
        assert p[..j + 1][..j][i] == Last(p[..j + 1]);
        assert Lasso(cs, from, p[..j + 1]);
      }
    }
  }

  lemma NoCycleBounded(cs: seq<Connection>, from: set<Id>, p: seq<Id>)
    requires !CycleFrom(cs, from) && IsPath(cs, p) && p[0] in from
    ensures |p| <= |from + Ids(cs)|
  {
    NoCycleDistinct(cs, from, p);
    forall u, v | u in from + Ids(cs) && Edge(cs, u, v)
      ensures v in from + Ids(cs)
    {
      EdgeInIds(cs, u, v);
    }
    PathStaysIn(cs, p, from + Ids(cs));
    Pigeonhole(p, from + Ids(cs));
  }

  lemma AcyclicNoCycle(cs: seq<Connection>, from: set<Id>)
    requires Acyclic(cs)
    ensures !CycleFrom(cs, from)
  {
    if p :| Lasso(cs, from, p) {
      var i :| 0 <= i < |p| - 1 && p[i] == Last(p);
      Slice(cs, p, i, |p|);
    }
  }

  /** When every edge leaves a node of `from`, a cycle anywhere is a cycle reachable from `from`. */
  lemma NoCycleAcyclic(cs: seq<Connection>, from: set<Id>)
    requires forall u, v :: Edge(cs, u, v) ==> u in from
    ensures !CycleFrom(cs, from) <==> Acyclic(cs)
  {
    if Acyclic(cs) {
      AcyclicNoCycle(cs, from);
    }
    if !Acyclic(cs) {
      var p :| IsPath(cs, p) && |p| >= 2 && p[0] == Last(p);
      assert Joined(cs, p, 0);
      assert p[..|p| - 1][0] == Last(p);
      assert Lasso(cs, from, p);
    }
  }

  ghost predicate PredecessorIn(cs: seq<Connection>, b: set<Id>, v: Id) {
    exists u :: u in b && Edge(cs, u, v)
  }

  ghost predicate SuccessorIn(cs: seq<Connection>, b: set<Id>, v: Id) {
    exists w :: w in b && Edge(cs, v, w)
  }

  /** A walk of `n` nodes inside a set whose nodes all have a predecessor in the set. */
  lemma {:induction false} WalkBack(cs: seq<Connection>, b: set<Id>, v: Id, n: nat) returns (p: seq<Id>)
    requires v in b && n >= 1
    requires forall w {:trigger PredecessorIn(cs, b, w)} :: w in b ==> PredecessorIn(cs, b, w)
    ensures |p| == n && IsPath(cs, p) && Last(p) == v
    ensures forall i :: 0 <= i < |p| ==> p[i] in b
  {
    if n == 1 {
      p := [v];
    } else {
      var q := WalkBack(cs, b, v, n - 1);
      assert PredecessorIn(cs, b, q[0]);
      var u :| u in b && Edge(cs, u, q[0]);
      Prepend(cs, u, q);
      p := [u] + q;
    }
  }

  /** A walk of `n` nodes inside a set whose nodes all have a successor in the set. */
  lemma {:induction false} WalkOn(cs: seq<Connection>, b: set<Id>, v: Id, n: nat) returns (p: seq<Id>)
    requires v in b && n >= 1
    requires forall u {:trigger SuccessorIn(cs, b, u)} :: u in b ==> SuccessorIn(cs, b, u)
    ensures |p| == n && IsPath(cs, p) && p[0] == v
    ensures forall i :: 0 <= i < |p| ==> p[i] in b
  {
    if n == 1 {
      p := [v];
    } else {
      var q := WalkOn(cs, b, v, n - 1);
      assert SuccessorIn(cs, b, Last(q));
      var w :| w in b && Edge(cs, Last(q), w);
      Extend(cs, q, w);
      p := q + [w];
    }
  }

  /** A walk longer than the set that confines it closes a cycle. */
  lemma LongWalkCycles(cs: seq<Connection>, b: set<Id>, p: seq<Id>)
    requires IsPath(cs, p) && |p| > |b|
    requires forall i :: 0 <= i < |p| ==> p[i] in b
    ensures !Acyclic(cs)
  {
    if Acyclic(cs) {
      AcyclicNoCycle(cs, b);
      NoCycleDistinct(cs, b, p);
      Pigeonhole(p, b);
    }
  }

  /** In a finite acyclic graph a nonempty set has a node without a predecessor in the set. */
  lemma HasSource(cs: seq<Connection>, b: set<Id>)
    requires Acyclic(cs) && b != {}
    ensures exists v :: v in b && !PredecessorIn(cs, b, v)
  {
    if forall w {:trigger PredecessorIn(cs, b, w)} :: w in b ==> PredecessorIn(cs, b, w) {
      var v :| v in b;
      var p := WalkBack(cs, b, v, |b| + 1);
      LongWalkCycles(cs, b, p);
    }
  }

  /** In a finite acyclic graph a nonempty set has a node without a successor in the set. */
  lemma HasSink(cs: seq<Connection>, b: set<Id>)
    requires Acyclic(cs) && b != {}
    ensures exists v :: v in b && !SuccessorIn(cs, b, v)
  {
    if forall u {:trigger SuccessorIn(cs, b, u)} :: u in b ==> SuccessorIn(cs, b, u) {
      var v :| v in b;
      var p := WalkOn(cs, b, v, |b| + 1);
      LongWalkCycles(cs, b, p);
    }
  }

  /** A path of `n` nodes leads from `from` to `v`. */
  ghost predicate HasPath(cs: seq<Connection>, from: set<Id>, v: Id, n: int) {
    exists p :: IsPath(cs, p) && p[0] in from && Last(p) == v && |p| == n
  }

  lemma LongerPath(cs: seq<Connection>, from: set<Id>, u: Id, n: int, v: Id)
    requires HasPath(cs, from, u, n) && Edge(cs, u, v)
    ensures HasPath(cs, from, v, n + 1)
  {
    var p :| IsPath(cs, p) && p[0] in from && Last(p) == u && |p| == n;
    Extend(cs, p, v);
  }
}
