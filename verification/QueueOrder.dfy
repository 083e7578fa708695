/** The order in which a queue hands out nodes that are put in more than once. */
module QueueOrder {
  import opened Workflows
  import opened Graphs

  /** Keeps the first occurrence of every element. */
  function Firsts(s: seq<Id>): seq<Id> {
    if s == [] then []
    else
      var n := |s| - 1;
      if s[n] in s[..n] then Firsts(s[..n]) else Firsts(s[..n]) + [s[n]]
  }

  /** The targets of the given nodes, node by node. */
  function Followed(cs: seq<Connection>, ids: seq<Id>): seq<Id> {
    if ids == [] then [] else Followed(cs, ids[..|ids| - 1]) + Targets(cs, ids[|ids| - 1])
  }

  function Without(s: seq<Id>, done: set<Id>): seq<Id> {
    if s == [] then []
    else
      var n := |s| - 1;
      if s[n] in done then Without(s[..n], done) else Without(s[..n], done) + [s[n]]
  }

  /** The node at `k` is the next new one among the start nodes and the targets of the nodes before it. */
  ghost predicate ComesNext(cs: seq<Connection>, starts: seq<Id>, ids: seq<Id>, k: nat)
    requires k < |ids|
  {
    ids[..k + 1] <= Firsts(starts + Followed(cs, ids[..k]))
  }

  ghost predicate InQueueOrder(cs: seq<Connection>, starts: seq<Id>, ids: seq<Id>) {
    forall k :: 0 <= k < |ids| ==> ComesNext(cs, starts, ids, k)
  }

  /** No start node and no target of a listed node is missing. */
  ghost predicate Exhausted(cs: seq<Connection>, starts: seq<Id>, ids: seq<Id>) {
    InQueueOrder(cs, starts, ids) && ids == Firsts(starts + Followed(cs, ids))
  }

  lemma FirstsAppend(s: seq<Id>, x: Id)
    ensures Firsts(s + [x]) == if x in s then Firsts(s) else Firsts(s) + [x]
  {
    assert (s + [x])[..|s|] == s;
  }

  lemma {:induction false} FirstsElems(s: seq<Id>)
    ensures forall x :: x in Firsts(s) <==> x in s
  {
    if s == [] {
    } else {
      var n := |s| - 1;
      FirstsElems(s[..n]);
      assert s == s[..n] + [s[n]];
    }
  }

  /** What follows adds the same to lists with the same first occurrences. */
  lemma {:induction false} FirstsConcat(a: seq<Id>, b: seq<Id>, c: seq<Id>)
    requires Firsts(a) == Firsts(b)
    ensures Firsts(a + c) == Firsts(b + c)
  {
    if c == [] {
      assert a + c == a && b + c == b;
    } else {
      var n := |c| - 1;
      FirstsConcat(a, b, c[..n]);
      assert a + c == a + c[..n] + [c[n]] && b + c == b + c[..n] + [c[n]];
      FirstsAppend(a + c[..n], c[n]);
      FirstsAppend(b + c[..n], c[n]);
      FirstsElems(a + c[..n]);
      FirstsElems(b + c[..n]);
    }
  }

  lemma {:induction false} FirstsPrefix(a: seq<Id>, c: seq<Id>)
    ensures Firsts(a) <= Firsts(a + c)
  {
    if c == [] {
      assert a + c == a;
    } else {
      var n := |c| - 1;
      FirstsPrefix(a, c[..n]);
      assert a + c == a + c[..n] + [c[n]];
      FirstsAppend(a + c[..n], c[n]);
    }
  }

  /** Leaving out what has occurred before makes no difference. */
  lemma {:induction false} FirstsWithout(a: seq<Id>, c: seq<Id>, done: set<Id>)
    requires forall x :: x in done ==> x in a
    ensures Firsts(a + Without(c, done)) == Firsts(a + c)
  {
    if c == [] {
    } else {
      var n := |c| - 1;
      FirstsWithout(a, c[..n], done);
      assert a + c == a + c[..n] + [c[n]];
      FirstsAppend(a + c[..n], c[n]);
      if c[n] !in done {
        assert a + Without(c, done) == a + Without(c[..n], done) + [c[n]];
        FirstsAppend(a + Without(c[..n], done), c[n]);
        FirstsElems(a + c[..n]);
        FirstsElems(a + Without(c[..n], done));
      }
    }
  }

  /** All that has been put into the queue by the time that `taken` have been taken from it: the start nodes, and for every
      new node its targets that are not among the nodes taken. */
  function Fed(cs: seq<Connection>, starts: seq<Id>, taken: seq<Id>): seq<Id> {
    if taken == [] then starts
    else
      var n := |taken| - 1;
      var before := Fed(cs, starts, taken[..n]);
      if taken[n] in taken[..n] then before else before + Without(Targets(cs, taken[n]), set v | v in taken)
  }

  // A queue that nodes are taken from. `popped` are the nodes that have been taken so far, new or not.

  ghost predicate Handed(cs: seq<Connection>, starts: seq<Id>, queue: seq<Id>, popped: seq<Id>, ids: seq<Id>) {
    && ids == Firsts(popped) && Firsts(popped + queue) == Firsts(starts + Followed(cs, ids))
    && InQueueOrder(cs, starts, ids)
  }

  lemma HandedStarts(cs: seq<Connection>, starts: seq<Id>)
    ensures Handed(cs, starts, starts, [], [])
  {
    assert [] + starts == starts + Followed(cs, []);
  }

  lemma HandedSkips(cs: seq<Connection>, starts: seq<Id>, queue: seq<Id>, popped: seq<Id>, ids: seq<Id>)
    requires Handed(cs, starts, queue, popped, ids) && queue != [] && queue[0] in ids
    ensures Handed(cs, starts, queue[1..], popped + [queue[0]], ids)
  {
    FirstsElems(popped);
    FirstsAppend(popped, queue[0]);
    Rejoined(popped, queue);
  }

  lemma OrderAppend(cs: seq<Connection>, starts: seq<Id>, ids: seq<Id>, v: Id)
    requires InQueueOrder(cs, starts, ids) && ids + [v] <= Firsts(starts + Followed(cs, ids))
    ensures InQueueOrder(cs, starts, ids + [v])
  {
    var next := ids + [v];
    forall k | 0 <= k < |next|
      ensures ComesNext(cs, starts, next, k)
    {
      if k < |ids| {
        assert ComesNext(cs, starts, ids, k);
        assert next[..k + 1] == ids[..k + 1] && next[..k] == ids[..k];
      } else {
        assert next[..k + 1] == next && next[..k] == ids;
      }
    }
  }

  /** A new node at the front comes next. */
  lemma HandedNew(cs: seq<Connection>, starts: seq<Id>, queue: seq<Id>, popped: seq<Id>, ids: seq<Id>)
    requires Handed(cs, starts, queue, popped, ids) && queue != [] && queue[0] !in ids
    ensures ids + [queue[0]] == Firsts(popped + [queue[0]])
    ensures InQueueOrder(cs, starts, ids + [queue[0]])
  {
    TakenNew(queue, popped);
    OrderAppend(cs, starts, ids, queue[0]);
  }

  lemma TakenNew(queue: seq<Id>, popped: seq<Id>)
    requires queue != [] && queue[0] !in Firsts(popped)
    ensures Firsts(popped) + [queue[0]] == Firsts(popped + [queue[0]])
    ensures Firsts(popped + [queue[0]]) <= Firsts(popped + queue)
  {
    FirstsElems(popped);
    FirstsAppend(popped, queue[0]);
    FirstsPrefix(popped + [queue[0]], queue[1..]);
    Rejoined(popped, queue);
  }

  lemma Rejoined<T>(popped: seq<T>, queue: seq<T>)
    requires queue != []
    ensures popped + [queue[0]] + queue[1..] == popped + queue
  {
  }

  lemma HandedNext(cs: seq<Connection>, starts: seq<Id>, queue: seq<Id>, popped: seq<Id>, ids: seq<Id>, done: set<Id>)
    requires Handed(cs, starts, queue, popped, ids) && queue != [] && queue[0] !in ids && done == Elems(ids + [queue[0]])
    ensures Handed(cs, starts, queue[1..] + Without(Targets(cs, queue[0]), done), popped + [queue[0]], ids + [queue[0]])
  {
    HandedNew(cs, starts, queue, popped, ids);
    FirstsElems(popped + [queue[0]]);
    QueueGrows(starts + Followed(cs, ids), queue, popped, Targets(cs, queue[0]), done);
    FollowedNext(cs, starts, ids, queue[0]);
  }

  lemma FollowedNext(cs: seq<Connection>, starts: seq<Id>, ids: seq<Id>, v: Id)
    ensures starts + Followed(cs, ids + [v]) == starts + Followed(cs, ids) + Targets(cs, v)
  {
    assert (ids + [v])[..|ids|] == ids;
  }

  lemma QueueGrows(source: seq<Id>, queue: seq<Id>, popped: seq<Id>, targets: seq<Id>, done: set<Id>)
    requires queue != [] && Firsts(popped + queue) == Firsts(source) && forall x :: x in done ==> x in popped + [queue[0]]
    ensures Firsts(popped + [queue[0]] + (queue[1..] + Without(targets, done))) == Firsts(source + targets)
  {
    var whole := popped + queue;
    Regrouped(popped, queue, Without(targets, done));
    FirstsConcat(whole, source, targets);
    FirstsWithout(whole, targets, done);
  }

  lemma Regrouped<T>(popped: seq<T>, queue: seq<T>, tail: seq<T>)
    requires queue != []
    ensures popped + [queue[0]] + (queue[1..] + tail) == popped + queue + tail
    ensures forall x :: x in popped + [queue[0]] ==> x in popped + queue
  {
  }

  lemma HandedAll(cs: seq<Connection>, starts: seq<Id>, popped: seq<Id>, ids: seq<Id>)
    requires Handed(cs, starts, [], popped, ids)
    ensures Exhausted(cs, starts, ids)
  {
    assert popped + [] == popped;
  }

  lemma OrderPrefix(cs: seq<Connection>, starts: seq<Id>, ids: seq<Id>, n: nat)
    requires InQueueOrder(cs, starts, ids) && n <= |ids|
    ensures InQueueOrder(cs, starts, ids[..n])
  {
    forall k | 0 <= k < n
      ensures ComesNext(cs, starts, ids[..n], k)
    {
      assert ComesNext(cs, starts, ids, k);
      assert ids[..n][..k + 1] == ids[..k + 1] && ids[..n][..k] == ids[..k];
    }
  }

  // What is in the queue.

  ghost predicate Queued(cs: seq<Connection>, starts: seq<Id>, taken: seq<Id>, queue: seq<Id>) {
    taken <= Fed(cs, starts, taken) && queue == Fed(cs, starts, taken)[|taken|..]
  }

  lemma QueuedAll(cs: seq<Connection>, starts: seq<Id>, taken: seq<Id>, queue: seq<Id>)
    ensures Queued(cs, starts, taken, queue) <==> taken + queue == Fed(cs, starts, taken)
  {
    if taken + queue == Fed(cs, starts, taken) {
      assert (taken + queue)[|taken|..] == queue;
    }
  }

  lemma QueuedSkips(cs: seq<Connection>, starts: seq<Id>, taken: seq<Id>, queue: seq<Id>)
    requires Queued(cs, starts, taken, queue) && queue != [] && queue[0] in Firsts(taken)
    ensures Queued(cs, starts, taken + [queue[0]], queue[1..])
  {
    FirstsElems(taken);
    assert (taken + [queue[0]])[..|taken|] == taken;
    Rejoined(taken, queue);
    QueuedAll(cs, starts, taken, queue);
    QueuedAll(cs, starts, taken + [queue[0]], queue[1..]);
  }

  lemma QueuedNext(cs: seq<Connection>, starts: seq<Id>, taken: seq<Id>, queue: seq<Id>, done: set<Id>)
    requires Queued(cs, starts, taken, queue) && queue != [] && queue[0] !in Firsts(taken)
    requires done == Elems(Firsts(taken)) + {queue[0]}
    ensures Queued(cs, starts, taken + [queue[0]], queue[1..] + Without(Targets(cs, queue[0]), done))
  {
    FirstsElems(taken);
    var next := taken + [queue[0]];
    assert next[..|taken|] == taken;
    assert done == set v | v in next;
    Regrouped(taken, queue, Without(Targets(cs, queue[0]), done));
    QueuedAll(cs, starts, taken, queue);
    QueuedAll(cs, starts, next, queue[1..] + Without(Targets(cs, queue[0]), done));
  }

  lemma QueuedRest(cs: seq<Connection>, starts: seq<Id>, taken: seq<Id>, queue: seq<Id>)
    requires Queued(cs, starts, taken, queue)
    ensures taken <= Fed(cs, starts, taken) && (taken == Fed(cs, starts, taken) <==> queue == [])
  {
  }

  /** The order is determined: of two lists in queue order one continues the other. */
  lemma {:induction false} OneOrder(cs: seq<Connection>, starts: seq<Id>, a: seq<Id>, b: seq<Id>)
    requires InQueueOrder(cs, starts, a) && InQueueOrder(cs, starts, b) && |a| <= |b|
    ensures a <= b
  {
    if a == [] {
    } else {
      var n := |a| - 1;
      OrderPrefix(cs, starts, a, n);
      OneOrder(cs, starts, a[..n], b);
      assert a[..n] == b[..n] && a[..n + 1] == a;
      assert ComesNext(cs, starts, a, n) && ComesNext(cs, starts, b, n);
    }
  }

  lemma CanContinue(cs: seq<Connection>, starts: seq<Id>, a: seq<Id>, b: seq<Id>)
    requires InQueueOrder(cs, starts, b) && a < b
    ensures a != Firsts(starts + Followed(cs, a))
  {
    assert ComesNext(cs, starts, b, |a|);
    assert b[..|a|] == a;
  }

  /** An exhausted list is the end of the order: every other list in queue order is a prefix of it. */
  lemma OneExhausted(cs: seq<Connection>, starts: seq<Id>, a: seq<Id>, b: seq<Id>)
    requires Exhausted(cs, starts, a) && InQueueOrder(cs, starts, b)
    ensures b <= a
  {
    if |a| < |b| {
      OneOrder(cs, starts, a, b);
      CanContinue(cs, starts, a, b);
    } else {
      OneOrder(cs, starts, b, a);
    }
  }
}
