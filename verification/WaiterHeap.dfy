/** The binary heap under the admission queue.

    `EmbeddingPriorityAdmission._waiters` is a Python list kept in heap order by
    `heapq`.  The list is a sequence here; push, pop and heapify are the usual
    sift loops.  Their contracts say which waiters the list holds afterwards and
    that slot 0 holds the least one, which is all the queue relies on. */
module WaiterHeap {

  datatype RequestType = Query | Document

  /** Queries outrank documents. */
  function Priority(requestType: RequestType): nat {
    match requestType
    case Query => 0
    case Document => 10
  }

  datatype Waiter = Waiter(priority: nat, sequence: nat, requestType: RequestType)

  /** The generated dataclass order: priority first, then sequence. */
  predicate Less(a: Waiter, b: Waiter) {
    a.priority < b.priority || (a.priority == b.priority && a.sequence < b.sequence)
  }

  function Parent(i: int): int {
    (i - 1) / 2
  }

  /** Slot `i` is no less than slot `p`. */
  predicate NotBelow(h: seq<Waiter>, i: int, p: int) {
    0 <= i < |h| && 0 <= p < |h| ==> !Less(h[i], h[p])
  }

  ghost predicate IsHeap(h: seq<Waiter>) {
    HeapFrom(h, 0)
  }

  /** Every slot whose parent is at or after `start` is no less than its parent. */
  ghost predicate HeapFrom(h: seq<Waiter>, start: int) {
    forall i :: 1 <= i < |h| && start <= Parent(i) ==> NotBelow(h, i, Parent(i))
  }

  /** Heap order everywhere except between slot `pos` and its parent. */
  ghost predicate AllButUp(h: seq<Waiter>, pos: int) {
    && 0 <= pos < |h|
    && (forall i :: 1 <= i < |h| && i != pos ==> NotBelow(h, i, Parent(i)))
    && (pos > 0 ==> forall i :: 1 <= i < |h| && Parent(i) == pos ==> NotBelow(h, i, Parent(pos)))
  }

  /** Heap order from `start` on, except between slot `pos` and its children. */
  ghost predicate AllButDown(h: seq<Waiter>, start: int, pos: int) {
    && 0 <= start <= pos < |h|
    && (forall i :: 1 <= i < |h| && start <= Parent(i) && Parent(i) != pos ==> NotBelow(h, i, Parent(i)))
    && (pos > start ==> start <= Parent(pos))
    && (pos > start ==> forall i :: 1 <= i < |h| && Parent(i) == pos ==> NotBelow(h, i, Parent(pos)))
  }

  lemma {:induction false} RootIsLeast(h: seq<Waiter>, i: nat)
    requires IsHeap(h) && i < |h|
    ensures !Less(h[i], h[0])
  {
    if i != 0 {
      assert NotBelow(h, i, Parent(i));
      RootIsLeast(h, Parent(i));
    }
  }

  function Swap(h: seq<Waiter>, i: nat, j: nat): (r: seq<Waiter>)
    requires i < |h| && j < |h|
    ensures |r| == |h| && multiset(r) == multiset(h)
  {
    h[i := h[j]][j := h[i]]
  }

  lemma SwapUp(h: seq<Waiter>, pos: nat)
    requires pos > 0 && AllButUp(h, pos) && Less(h[pos], h[Parent(pos)])
    ensures AllButUp(Swap(h, pos, Parent(pos)), Parent(pos))
  {
    var p := Parent(pos);
    var r := Swap(h, pos, p);
    forall i | 1 <= i < |r| && i != p ensures NotBelow(r, i, Parent(i)) {
      assert i != pos ==> NotBelow(h, i, Parent(i));
      if Parent(i) == pos {
        assert NotBelow(h, i, Parent(pos));
      }
    }
    if p > 0 {
      assert NotBelow(h, p, Parent(p));
      forall i | 1 <= i < |r| && Parent(i) == p ensures NotBelow(r, i, Parent(p)) {
        assert i != pos ==> NotBelow(h, i, Parent(i));
      }
    }
  }

  lemma SwapDown(h: seq<Waiter>, start: nat, pos: nat, child: nat)
    requires AllButDown(h, start, pos) && child < |h| && 1 <= child && Parent(child) == pos
    requires Less(h[child], h[pos])
    requires forall i :: 1 <= i < |h| && Parent(i) == pos ==> NotBelow(h, i, child)
    ensures AllButDown(Swap(h, pos, child), start, child)
  {
    var r := Swap(h, pos, child);
    forall i | 1 <= i < |r| && start <= Parent(i) && Parent(i) != child ensures NotBelow(r, i, Parent(i)) {
      if Parent(i) == pos {
        assert NotBelow(h, i, child);
      } else {
        assert NotBelow(h, i, Parent(i));
        if i == pos {
          assert NotBelow(h, child, Parent(pos));
        }
      }
    }
    forall i | 1 <= i < |r| && Parent(i) == child ensures NotBelow(r, i, pos) {
      assert NotBelow(h, i, Parent(i));
    }
  }

  method SiftUp(h: seq<Waiter>, start: nat) returns (r: seq<Waiter>)
    requires AllButUp(h, start)
    ensures IsHeap(r) && multiset(r) == multiset(h)
  {
    r := h;
    var pos := start;
    while pos > 0
      invariant AllButUp(r, pos) && multiset(r) == multiset(h)
    {
      var parent := Parent(pos);
      if !Less(r[pos], r[parent]) {
        return;
      }
      SwapUp(r, pos);
      r := Swap(r, pos, parent);
      pos := parent;
    }
  }

  method SiftDown(h: seq<Waiter>, start: nat) returns (r: seq<Waiter>)
    requires start < |h| && HeapFrom(h, start + 1)
    ensures HeapFrom(r, start) && multiset(r) == multiset(h) && |r| == |h|
  {
    r := h;
    var pos := start;
    while 2 * pos + 1 < |r|
      invariant AllButDown(r, start, pos) && multiset(r) == multiset(h) && |r| == |h|
    {
      var child := 2 * pos + 1;
      if child + 1 < |r| && !Less(r[child], r[child + 1]) {
        child := child + 1;
      }
      assert forall i :: 1 <= i < |r| && Parent(i) == pos ==> i == 2 * pos + 1 || i == 2 * pos + 2;
      if !Less(r[child], r[pos]) {
        return;
      }
      SwapDown(r, start, pos, child);
      r := Swap(r, pos, child);
      pos := child;
    }
  }

  method HeapPush(h: seq<Waiter>, w: Waiter) returns (r: seq<Waiter>)
    requires IsHeap(h)
    ensures IsHeap(r) && multiset(r) == multiset(h) + multiset{w}
  {
    var pushed := h + [w];
    forall i | 1 <= i < |h| ensures NotBelow(pushed, i, Parent(i)) {
      assert NotBelow(h, i, Parent(i));
    }
    r := SiftUp(pushed, |h|);
  }

  method HeapPop(h: seq<Waiter>) returns (top: Waiter, r: seq<Waiter>)
    requires IsHeap(h) && |h| > 0
    ensures IsHeap(r) && multiset(r) == multiset(h) - multiset{top}
    ensures top == h[0] && forall w :: w in h ==> !Less(w, top)
  {
    top := h[0];
    forall w | w in h ensures !Less(w, top) {
      var i: nat :| i < |h| && h[i] == w;
      RootIsLeast(h, i);
    }
    var last := |h| - 1;
    assert h == h[..last] + [h[last]];
    if last == 0 {
      r := [];
    } else {
      var moved := h[..last][0 := h[last]];
      assert multiset(moved) == multiset(h) - multiset{top};
      forall i | 1 <= i < |moved| && 1 <= Parent(i) ensures NotBelow(moved, i, Parent(i)) {
        assert NotBelow(h, i, Parent(i));
      }
      r := SiftDown(moved, 0);
    }
  }

  method Heapify(h: seq<Waiter>) returns (r: seq<Waiter>)
    ensures IsHeap(r) && multiset(r) == multiset(h)
  {
    r := h;
    var start := |h| / 2;
    while start > 0
      invariant 0 <= start <= |h| / 2 && |r| == |h|
      invariant HeapFrom(r, start) && multiset(r) == multiset(h)
    {
      start := start - 1;
      r := SiftDown(r, start);
    }
  }

  /** `list.remove` of the first equal element, then `heapify`. */
  method RemoveAndHeapify(h: seq<Waiter>, w: Waiter) returns (r: seq<Waiter>, found: bool)
    ensures found <==> w in h
    ensures found ==> IsHeap(r) && multiset(r) == multiset(h) - multiset{w}
    ensures !found ==> r == h
  {
    var i := 0;
    while i < |h| && h[i] != w
      invariant 0 <= i <= |h| && w !in h[..i]
    {
      i := i + 1;
    }
    found := i < |h|;
    r := h;
    if found {
      var rest := h[..i] + h[i + 1..];
      assert h == h[..i] + [w] + h[i + 1..];
      r := Heapify(rest);
    }
  }
}
