/** The execution queue: a binary heap by enqueue time, whose items know their position. */
module PriorityQueue {

  class QueueItem {
    const requestId: string
    const enqueuedAt: int
    var index: int

    constructor (requestId: string, enqueuedAt: int)
      ensures this.requestId == requestId && this.enqueuedAt == enqueuedAt
    {
      this.requestId, this.enqueuedAt, index := requestId, enqueuedAt, 0;
    }
  }

  // Heap order on a sequence of items. Enqueue times never change, so it does not depend on the heap.

  function Parent(k: nat): nat
    requires k > 0
  {
    (k - 1) / 2
  }

  ghost predicate OrderedAt(s: seq<QueueItem>, k: nat)
    requires k < |s|
  {
    k == 0 || s[Parent(k)].enqueuedAt <= s[k].enqueuedAt
  }

  ghost predicate Heap(s: seq<QueueItem>, n: nat)
    requires n <= |s|
  {
    forall k :: 0 <= k < n ==> OrderedAt(s, k)
  }

  /** In order everywhere but between `i` and its parent. */
  ghost predicate HeapBut(s: seq<QueueItem>, n: nat, i: nat)
    requires n <= |s|
  {
    forall k :: 0 <= k < n && k != i ==> OrderedAt(s, k)
  }

  ghost predicate ChildOf(k: nat, i: nat) {
    k > 0 && Parent(k) == i
  }

  /** In order everywhere but between `i` and its children, and, when `top` is set, its parent. */
  ghost predicate HeapAround(s: seq<QueueItem>, n: nat, i: nat, top: bool)
    requires n <= |s|
  {
    forall k :: 0 <= k < n && !ChildOf(k, i) && !(top && k == i) ==> OrderedAt(s, k)
  }

  /** The children of `i` are in order with the parent of `i`. */
  ghost predicate Bridged(s: seq<QueueItem>, n: nat, i: nat)
    requires n <= |s| && i < |s|
  {
    i > 0 ==> forall k :: 0 <= k < n && ChildOf(k, i) ==> s[Parent(i)].enqueuedAt <= s[k].enqueuedAt
  }

  function Swapped<T>(s: seq<T>, i: nat, j: nat): seq<T>
    requires i < |s| && j < |s|
  {
    s[i := s[j]][j := s[i]]
  }

  lemma SwappedMultiset<T>(s: seq<T>, i: nat, j: nat)
    requires i < |s| && j < |s|
    ensures multiset(Swapped(s, i, j)) == multiset(s)
  {
  }

  /** `s` has the items of `t`, and from `n` on also their order. */
  ghost predicate Rearranged<T>(s: seq<T>, t: seq<T>, n: nat)
    requires n <= |t|
  {
    && |s| == |t| && multiset(s) == multiset(t) && s[n..] == t[n..]
    && forall k :: 0 <= k < |s| ==> s[k] in t
  }

  lemma RearrangedSwap<T>(s: seq<T>, t: seq<T>, n: nat, i: nat, j: nat)
    requires i < n <= |t| && j < n && Rearranged(s, t, n)
    ensures Rearranged(Swapped(s, i, j), t, n)
  {
    SwappedMultiset(s, i, j);
  }

  /** Moving an item above its later parent. */
  lemma UpStep(s: seq<QueueItem>, n: nat, j: nat)
    requires 0 < j < n <= |s| && HeapBut(s, n, j) && Bridged(s, n, j) && s[j].enqueuedAt < s[Parent(j)].enqueuedAt
    ensures var r := Swapped(s, Parent(j), j); HeapBut(r, n, Parent(j)) && Bridged(r, n, Parent(j))
  {
    var i := Parent(j);
    var r := Swapped(s, i, j);
    forall k | 0 <= k < n && k != i
      ensures OrderedAt(r, k)
    {
      assert k != j ==> OrderedAt(s, k);
      assert ChildOf(k, j) ==> s[i].enqueuedAt <= s[k].enqueuedAt;
    }
    assert OrderedAt(s, i);
    forall k | 0 <= k < n && ChildOf(k, i)
      ensures i > 0 ==> r[Parent(i)].enqueuedAt <= r[k].enqueuedAt
    {
      assert k != j ==> OrderedAt(s, k);
    }
  }

  /** Moving an item below its earlier child. */
  lemma DownStep(s: seq<QueueItem>, n: nat, i: nat, j: nat, top: bool)
    requires i < n <= |s| && j < n && ChildOf(j, i)
    requires HeapAround(s, n, i, top) && Bridged(s, n, i)
    requires s[j].enqueuedAt < s[i].enqueuedAt && forall k :: 0 <= k < n && ChildOf(k, i) ==> s[j].enqueuedAt <= s[k].enqueuedAt
    ensures var r := Swapped(s, i, j); HeapAround(r, n, j, false) && Bridged(r, n, j)
  {
    var r := Swapped(s, i, j);
    forall k | 0 <= k < n && !ChildOf(k, j)
      ensures OrderedAt(r, k)
    {
      if k != i && !ChildOf(k, i) {
        assert OrderedAt(s, k);
      }
      assert ChildOf(k, i) ==> s[j].enqueuedAt <= s[k].enqueuedAt;
    }
    forall k | 0 <= k < n && ChildOf(k, j)
      ensures r[Parent(j)].enqueuedAt <= r[k].enqueuedAt
    {
      assert OrderedAt(s, k);
    }
  }

  /** The root of a heap is an earliest item. */
  lemma {:induction false} RootIsEarliest(s: seq<QueueItem>, k: nat)
    requires Heap(s, |s|) && k < |s|
    ensures s[0].enqueuedAt <= s[k].enqueuedAt
    decreases k
  {
    if k == 0 {
    } else {
      RootIsEarliest(s, Parent(k));
      assert OrderedAt(s, k);
    }
  }

  /** The first item with the identifier stands at `k`. */
  ghost predicate IsFirst(s: seq<QueueItem>, id: string, k: int) {
    0 <= k < |s| && s[k].requestId == id && forall j :: 0 <= j < k ==> s[j].requestId != id
  }

  class Queue {
    var items: seq<QueueItem>

    /** Every item knows its position; in particular no item stands at two positions. */
    ghost predicate Indexed()
      reads this, items
    {
      forall k :: 0 <= k < |items| ==> items[k].index == k
    }

    ghost predicate Valid()
      reads this
    {
      Heap(items, |items|)
    }

    constructor ()
      ensures Valid() && Indexed() && items == []
    {
      items := [];
    }

    method Swap(i: nat, j: nat)
      requires i < |items| && j < |items|
      modifies this, items[i], items[j]
      ensures items == Swapped(old(items), i, j) && (old(Indexed()) ==> Indexed())
    {
      items := items[i := items[j]][j := items[i]];
      items[i].index := i;
      items[j].index := j;
    }

    /** Moves an item up while it is earlier than its parent. */
    method Up(start: nat, ghost n: nat)
      requires start < n <= |items| && HeapBut(items, n, start) && Bridged(items, n, start)
      modifies this, items
      ensures (old(Indexed()) ==> Indexed()) && Rearranged(items, old(items), n) && Heap(items, n)
      ensures OrderedAt(old(items), start) ==> items == old(items)
    {
      var j: nat := start;
      while j > 0 && items[j].enqueuedAt < items[Parent(j)].enqueuedAt
        invariant (old(Indexed()) ==> Indexed()) && j < n <= |old(items)| && Rearranged(items, old(items), n)
        invariant HeapBut(items, n, j) && Bridged(items, n, j)
        invariant j == start ==> items == old(items)
        invariant j != start ==> !OrderedAt(old(items), start)
      {
        UpStep(items, n, j);
        RearrangedSwap(items, old(items), n, Parent(j), j);
        Swap(Parent(j), j);
        j := Parent(j);
      }
      assert OrderedAt(items, j);
    }

    /** The earlier of the children of `i`, the left one when they are equal. */
    method EarlierChild(i: nat, n: nat) returns (j: nat)
      requires n <= |items| && 2 * i + 1 < n
      ensures j < n && ChildOf(j, i)
      ensures forall k :: 0 <= k < n && ChildOf(k, i) ==> items[j].enqueuedAt <= items[k].enqueuedAt
    {
      j := 2 * i + 1;
      if 2 * i + 2 < n && items[2 * i + 2].enqueuedAt < items[j].enqueuedAt {
        j := 2 * i + 2;
      }
      assert forall k :: ChildOf(k, i) ==> k == 2 * i + 1 || k == 2 * i + 2;
    }

    /** Moves an item down while it is later than one of its children. */
    method Down(start: nat, n: nat) returns (moved: bool)
      requires start < n <= |items| && HeapAround(items, n, start, true) && Bridged(items, n, start)
      modifies this, items
      ensures (old(Indexed()) ==> Indexed()) && Rearranged(items, old(items), n)
      ensures moved ==> Heap(items, n) && 2 * start + 1 < n
      ensures !moved ==> items == old(items) && HeapBut(items, n, start)
    {
      var i := start;
      while 2 * i + 1 < n
        invariant (old(Indexed()) ==> Indexed()) && start <= i < n <= |old(items)| && Rearranged(items, old(items), n)
        invariant HeapAround(items, n, i, i == start) && Bridged(items, n, i)
        invariant i == start ==> items == old(items)
        invariant i != start ==> 2 * start + 1 < n
        decreases n - i
      {
        var j := EarlierChild(i, n);
        if items[j].enqueuedAt >= items[i].enqueuedAt {
          SettledBelow(items, n, i, i == start);
          return i > start;
        }
        DownStep(items, n, i, j, i == start);
        RearrangedSwap(items, old(items), n, i, j);
        Swap(i, j);
        i := j;
      }
      SettledBelow(items, n, i, i == start);
      moved := i > start;
    }

    /** Restores the order around a position whose item has changed. */
    method Fix(i: nat, n: nat)
      requires i < n <= |items| && HeapAround(items, n, i, true) && Bridged(items, n, i)
      modifies this, items
      ensures (old(Indexed()) ==> Indexed()) && Rearranged(items, old(items), n) && Heap(items, n)
      ensures 2 * i + 1 >= n && OrderedAt(old(items), i) ==> items == old(items)
    {
      var moved := Down(i, n);
      if !moved {
        Up(i, n);
      }
    }

    /** Adds an item. One that is later than all others goes to the end. Positions stay known unless the item was already
        in the queue. */
    method Enqueue(item: QueueItem)
      requires Valid()
      modifies this, items, item
      ensures Valid() && multiset(items) == multiset(old(items)) + multiset{item}
      ensures old(Indexed()) && item !in old(items) ==> Indexed()
      ensures (forall k :: 0 <= k < |old(items)| ==> old(items)[k].enqueuedAt <= item.enqueuedAt) ==> items == old(items) + [item]
    {
      item.index := |items|;
      items := items + [item];
      var n := |items| - 1;
      assert items[..n] == old(items);
      Appended(old(items), item);
      Fix(n, |items|);
      assert items == items[..|items|];
    }

    /** Takes the item in the last slot, which need not be an earliest one. */
    method Dequeue() returns (item: QueueItem?)
      requires Valid()
      modifies this, items
      ensures Valid() && (old(Indexed()) ==> Indexed())
      ensures old(items) == [] ==> item == null && items == []
      ensures old(items) != [] ==> old(items) == items + [item]
    {
      if |items| == 0 {
        return null;
      }
      item := Pop();
    }

    method Pop() returns (item: QueueItem)
      requires items != []
      modifies this, items
      ensures (old(Indexed()) ==> Indexed()) && old(items) == items + [item] && item.index == -1
      ensures Heap(old(items), |items|) ==> Heap(items, |items|)
    {
      var n := |items| - 1;
      item := items[n];
      item.index := -1;
      HeapPrefix(items, n);
      items := items[..n];
    }

    /** An earliest item. */
    method Peek() returns (item: QueueItem?)
      requires Valid()
      ensures items == [] ==> item == null
      ensures items != [] ==> item in items && forall k :: 0 <= k < |items| ==> item.enqueuedAt <= items[k].enqueuedAt
    {
      if |items| == 0 {
        return null;
      }
      item := items[0];
      forall k | 0 <= k < |items|
        ensures items[0].enqueuedAt <= items[k].enqueuedAt
      {
        RootIsEarliest(items, k);
      }
    }

    /** Removes the first item with the identifier, if there is one. */
    method Remove(id: string) returns (found: bool)
      requires Valid()
      modifies this, items
      ensures Valid() && (old(Indexed()) ==> Indexed())
      ensures found <==> exists k :: 0 <= k < |old(items)| && old(items)[k].requestId == id
      ensures !found ==> items == old(items)
      ensures found ==> exists k :: IsFirst(old(items), id, k) && multiset(items) == multiset(old(items)) - multiset{old(items)[k]}
    {
      for i := 0 to |items|
        invariant items == old(items) && Valid() && (old(Indexed()) ==> Indexed())
        invariant forall k :: 0 <= k < i ==> items[k].requestId != id
      {
        if items[i].requestId == id {
          assert IsFirst(items, id, i);
          RemoveAt(i);
          return true;
        }
      }
      found := false;
    }

    method RemoveAt(i: nat)
      requires Valid() && i < |items|
      modifies this, items
      ensures Valid() && (old(Indexed()) ==> Indexed())
      ensures multiset(items) == multiset(old(items)) - multiset{old(items)[i]}
    {
      if |items| - 1 != i {
        MoveToEnd(i);
      }
      ghost var moved := items;
      var removed := Pop();
      WithoutLast(moved, items, removed);
    }

    /** Brings an item to the last slot and restores the order of the others. */
    method MoveToEnd(i: nat)
      requires Valid() && i < |items| - 1
      modifies this, items
      ensures (old(Indexed()) ==> Indexed()) && |items| == |old(items)| && Heap(items, |items| - 1)
      ensures multiset(items) == multiset(old(items)) && items[|items| - 1] == old(items)[i]
      ensures forall k :: 0 <= k < |items| ==> items[k] in old(items)
    {
      var n := |items| - 1;
      ReplacedByLast(items, i);
      SwappedMultiset(items, i, n);
      Swap(i, n);
      ghost var swapped := items;
      Fix(i, n);
      assert items[n..][0] == swapped[n..][0];
    }

    method Clear()
      modifies this
      ensures Valid() && Indexed() && items == []
    {
      items := [];
    }
  }

  lemma HeapPrefix(s: seq<QueueItem>, n: nat)
    requires n <= |s|
    ensures Heap(s, n) ==> Heap(s[..n], n)
  {
    if Heap(s, n) {
      forall k | 0 <= k < n
        ensures OrderedAt(s[..n], k)
      {
        assert OrderedAt(s, k);
      }
    }
  }

  lemma SameLast<T>(a: seq<T>, x: T, b: seq<T>, y: T)
    requires a + [x] == b + [y]
    ensures a == b && x == y
  {
    assert (a + [x])[|a|] == x && (b + [y])[|b|] == y;
    assert a == (a + [x])[..|a|] && b == (b + [y])[..|b|];
  }

  lemma WithoutLast<T>(s: seq<T>, r: seq<T>, x: T)
    requires s == r + [x]
    ensures multiset(r) == multiset(s) - multiset{x} && s[|s| - 1] == x
  {
  }

  lemma SettledBelow(s: seq<QueueItem>, n: nat, i: nat, top: bool)
    requires i < n <= |s| && HeapAround(s, n, i, top)
    requires forall k :: 0 <= k < n && ChildOf(k, i) ==> s[i].enqueuedAt <= s[k].enqueuedAt
    ensures if top then HeapBut(s, n, i) else Heap(s, n)
  {
    forall k | 0 <= k < n && ChildOf(k, i)
      ensures OrderedAt(s, k)
    {
    }
  }

  lemma Appended(s: seq<QueueItem>, item: QueueItem)
    requires Heap(s, |s|)
    ensures var t := s + [item]; HeapAround(t, |t|, |s|, true) && Bridged(t, |t|, |s|)
    ensures (forall k :: 0 <= k < |s| ==> s[k].enqueuedAt <= item.enqueuedAt) ==> OrderedAt(s + [item], |s|)
  {
    var t := s + [item];
    forall k | 0 <= k < |s|
      ensures OrderedAt(t, k)
    {
      assert OrderedAt(s, k);
    }
  }

  lemma ReplacedByLast(s: seq<QueueItem>, i: nat)
    requires i < |s| - 1 && Heap(s, |s|)
    ensures var n := |s| - 1; var t := Swapped(s, i, n); HeapAround(t, n, i, true) && Bridged(t, n, i)
  {
    var n := |s| - 1;
    var t := Swapped(s, i, n);
    forall k | 0 <= k < n
      ensures !ChildOf(k, i) && k != i ==> OrderedAt(t, k)
      ensures ChildOf(k, i) && i > 0 ==> t[Parent(i)].enqueuedAt <= t[k].enqueuedAt
    {
      assert OrderedAt(s, k) && OrderedAt(s, i);
    }
  }

  // What the order of removal is.

  /** The last slot holds an earliest item exactly when its time equals that of the root. */
  lemma LastIsEarliest(s: seq<QueueItem>)
    requires Heap(s, |s|) && s != []
    ensures (forall k :: 0 <= k < |s| ==> s[|s| - 1].enqueuedAt <= s[k].enqueuedAt) <==>
            s[|s| - 1].enqueuedAt == s[0].enqueuedAt
  {
    forall k | 0 <= k < |s|
      ensures s[0].enqueuedAt <= s[k].enqueuedAt
    {
      RootIsEarliest(s, k);
    }
  }

  /** When no two items have the same time, taking the last slot takes the earliest item only from a queue of one. */
  lemma DequeueIsFifoOnlyForOne(s: seq<QueueItem>)
    requires Heap(s, |s|) && s != []
    requires forall i, j :: 0 <= i < j < |s| ==> s[i].enqueuedAt != s[j].enqueuedAt
    ensures (forall k :: 0 <= k < |s| ==> s[|s| - 1].enqueuedAt <= s[k].enqueuedAt) <==> |s| == 1
  {
    LastIsEarliest(s);
  }

  // Runs of enqueues, with times that never fall, and dequeues.

  datatype QueueOp = Put(item: QueueItem) | Take

  /** What a stack holds after the operations. */
  function Stacked(stack: seq<QueueItem>, ops: seq<QueueOp>): seq<QueueItem> {
    if ops == [] then stack
    else
      var before := Stacked(stack, ops[..|ops| - 1]);
      match ops[|ops| - 1]
      case Put(item) => before + [item]
      case Take => if before == [] then [] else before[..|before| - 1]
  }

  /** What a stack hands out, with `null` where it is empty. */
  function Unstacked(stack: seq<QueueItem>, ops: seq<QueueOp>): seq<QueueItem?> {
    if ops == [] then []
    else
      var n := |ops| - 1;
      var before, top := Unstacked(stack, ops[..n]), Stacked(stack, ops[..n]);
      if ops[n].Put? then before else before + [if top == [] then null else top[|top| - 1]]
  }

  ghost predicate NoneLater(s: seq<QueueItem>, time: int) {
    forall k :: 0 <= k < |s| ==> s[k].enqueuedAt <= time
  }

  /** The times of the enqueued items never fall, and none is before an item that is queued already. */
  ghost predicate InOrder(stack: seq<QueueItem>, ops: seq<QueueOp>) {
    && (forall i :: 0 <= i < |ops| && ops[i].Put? ==> NoneLater(stack, ops[i].item.enqueuedAt))
    && (forall i, j :: 0 <= i < j < |ops| && ops[i].Put? && ops[j].Put? ==> ops[i].item.enqueuedAt <= ops[j].item.enqueuedAt)
  }

  ghost function PutItems(ops: seq<QueueOp>): set<QueueItem> {
    set i | 0 <= i < |ops| && ops[i].Put? :: ops[i].item
  }

  /** What is on the stack was there at first or has been put there since. */
  lemma {:induction false} StackedFrom(stack: seq<QueueItem>, ops: seq<QueueOp>, x: QueueItem)
    requires x in Stacked(stack, ops)
    ensures x in stack || exists i :: 0 <= i < |ops| && ops[i] == Put(x)
  {
    if ops == [] {
    } else {
      var n := |ops| - 1;
      if ops[n] != Put(x) {
        StackedFrom(stack, ops[..n], x);
      }
    }
  }

  lemma StackedNoneLater(stack: seq<QueueItem>, ops: seq<QueueOp>, n: nat)
    requires InOrder(stack, ops) && n < |ops| && ops[n].Put?
    ensures NoneLater(Stacked(stack, ops[..n]), ops[n].item.enqueuedAt)
  {
    var s := Stacked(stack, ops[..n]);
    forall k | 0 <= k < |s|
      ensures s[k].enqueuedAt <= ops[n].item.enqueuedAt
    {
      StackedFrom(stack, ops[..n], s[k]);
      if s[k] in stack {
        var j :| 0 <= j < |stack| && stack[j] == s[k];
        assert NoneLater(stack, ops[n].item.enqueuedAt);
      } else {
        var i :| 0 <= i < n && ops[..n][i] == Put(s[k]);
        assert ops[i] == Put(s[k]);
      }
    }
  }

  /** With times that never fall the queue is a stack: last in, first out. */
  method QueueIsStack(q: Queue, ops: seq<QueueOp>) returns (taken: seq<QueueItem?>)
    requires q.Valid() && InOrder(q.items, ops)
    modifies q, q.items, PutItems(ops)
    ensures q.Valid() && q.items == Stacked(old(q.items), ops) && taken == Unstacked(old(q.items), ops)
  {
    taken := [];
    ghost var first := q.items;
    for i := 0 to |ops|
      invariant q.Valid() && q.items == Stacked(first, ops[..i]) && taken == Unstacked(first, ops[..i])
    {
      assert ops[..i + 1][..i] == ops[..i];
      forall x | x in q.items
        ensures x in first || x in PutItems(ops)
      {
        StackedFrom(first, ops[..i], x);
      }
      match ops[i] {
        case Put(item) =>
          StackedNoneLater(first, ops, i);
          assert item in PutItems(ops);
          q.Enqueue(item);
        case Take =>
          ghost var before := q.items;
          var item := q.Dequeue();
          taken := taken + [item];
          if before != [] {
            SameLast<QueueItem?>(before[..|before| - 1], before[|before| - 1], q.items, item);
          }
      }
    }
    assert ops[..|ops|] == ops;
  }
}
