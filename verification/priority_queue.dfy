/** The comparators the queues are ordered by. */
module Orders {

  /** What the priority queue needs of its predecessor operator. */
  ghost predicate StrictWeakOrder<T(!new)>(pred: (T, T) -> bool) {
    && (forall x :: !pred(x, x))
    && (forall x, y, z :: pred(x, y) && pred(y, z) ==> pred(x, z))
    && (forall x, y, z :: !pred(x, y) && !pred(y, z) ==> !pred(x, z))
  }

  /** Two operators that order the elements of `s` other than `x` alike. */
  ghost predicate AgreeExcept<T(!new)>(p: (T, T) -> bool, q: (T, T) -> bool, s: set<T>, x: T) {
    forall a, b :: a in s && b in s && a != x && b != x ==> p(a, b) == q(a, b)
  }
}

/**
 * The binary heap whose elements carry their own slot number.
 *
 * The slot an element records for itself (`set_index` in the source) is kept
 * in `index`; an element that is in no slot records -1.  Because the slots and
 * the recorded numbers are inverse to each other, `Elems` says exactly which
 * elements are stored, each of them once.
 */
module PriorityQueues {
  import opened Orders

  datatype Option<+T> = None | Some(value: T)

  const DEFAULT_SIZE: nat := 100

  function LeftOf(i: nat): nat { 2 * i + 1 }

  function RightOf(i: nat): nat { 2 * i + 2 }

  /** Division truncates towards zero, so the parent of the root is the root. */
  function ParentOf(i: nat): nat { if i == 0 then 0 else (i - 1) / 2 }

  function Slot<T(==)>(index: map<T, int>, x: T): int {
    if x in index then index[x] else -1
  }

  /** The slots `h` and the recorded slot numbers are inverse to each other on `elems`. */
  ghost predicate Inverse<T(!new)>(h: seq<T>, index: map<T, int>, elems: set<T>) {
    && (forall j: nat :: j < |h| ==> h[j] in elems && Slot(index, h[j]) == j)
    && (forall x :: x in elems ==> 0 <= Slot(index, x) < |h| && h[Slot(index, x)] == x)
  }

  /** As `Inverse`, while `e` is held in a variable and slot `i` is a hole. */
  ghost predicate Hole<T(!new)>(h: seq<T>, index: map<T, int>, elems: set<T>, i: nat, e: T) {
    && i < |h|
    && e in elems
    && (forall j: nat :: j < |h| && j != i ==> h[j] in elems && h[j] != e && Slot(index, h[j]) == j)
    && (forall x :: x in elems && x != e ==> 0 <= Slot(index, x) < |h| && Slot(index, x) != i && h[Slot(index, x)] == x)
  }

  ghost predicate Ordered<T>(h: seq<T>, pred: (T, T) -> bool) {
    forall j: nat :: 0 < j < |h| ==> !pred(h[j], h[ParentOf(j)])
  }

  /** The heap order between all slots but the hole `i`, bridged over the hole. */
  ghost predicate OrderedAround<T>(h: seq<T>, pred: (T, T) -> bool, i: nat)
    requires i < |h|
  {
    && (forall j: nat :: 0 < j < |h| && j != i && ParentOf(j) != i ==> !pred(h[j], h[ParentOf(j)]))
    && (i > 0 ==> forall j: nat :: 0 < j < |h| && ParentOf(j) == i ==> !pred(h[j], h[ParentOf(i)]))
  }

  ghost predicate ChildrenAfter<T>(h: seq<T>, pred: (T, T) -> bool, i: nat, e: T) {
    forall j: nat :: 0 < j < |h| && ParentOf(j) == i ==> !pred(h[j], e)
  }

  /** Copying slot `j` into the hole and recording it moves the hole to `j`. */
  lemma HoleMoves<T(!new)>(h: seq<T>, index: map<T, int>, elems: set<T>, i: nat, e: T, j: nat)
    requires Hole(h, index, elems, i, e) && j < |h| && j != i
    ensures h[j] in elems && h[j] != e
    ensures Hole(h[i := h[j]], index[h[j] := i], elems, j, e)
  {
  }

  lemma FillHole<T(!new)>(h: seq<T>, index: map<T, int>, elems: set<T>, i: nat, e: T)
    requires Hole(h, index, elems, i, e)
    ensures Inverse(h[i := e], index[e := i], elems)
  {
  }

  /** What a hole holds does not matter. */
  lemma HoleContent<T(!new)>(h: seq<T>, index: map<T, int>, elems: set<T>, pred: (T, T) -> bool, i: nat, e: T, v: T)
    requires Hole(h, index, elems, i, e) && OrderedAround(h, pred, i)
    ensures Hole(h[i := v], index, elems, i, e) && OrderedAround(h[i := v], pred, i)
    ensures ChildrenAfter(h, pred, i, e) ==> ChildrenAfter(h[i := v], pred, i, e)
  {
  }

  /** The child that `TryPush` compares with: no child of the hole precedes it. */
  lemma LesserChild<T(!new)>(h: seq<T>, pred: (T, T) -> bool, i: nat, c: nat)
    requires LeftOf(i) < |h| && StrictWeakOrder(pred)
    requires c == if RightOf(i) < |h| && pred(h[RightOf(i)], h[LeftOf(i)]) then RightOf(i) else LeftOf(i)
    ensures forall j: nat :: 0 < j < |h| && ParentOf(j) == i ==> !pred(h[j], h[c])
  {
    assert forall j: nat :: 0 < j < |h| && ParentOf(j) == i ==> j == LeftOf(i) || j == RightOf(i);
  }

  /** The children of the hole come after whatever precedes the least of them. */
  lemma BeforeChildren<T(!new)>(h: seq<T>, pred: (T, T) -> bool, i: nat, e: T, c: nat)
    requires c < |h| && StrictWeakOrder(pred) && pred(e, h[c])
    requires forall j: nat :: 0 < j < |h| && ParentOf(j) == i ==> !pred(h[j], h[c])
    ensures ChildrenAfter(h, pred, i, e)
  {
  }

  lemma NoChildren<T>(h: seq<T>, pred: (T, T) -> bool, i: nat, e: T)
    requires |h| <= LeftOf(i)
    ensures ChildrenAfter(h, pred, i, e)
  {
  }

  /** The step of the loop that sifts up. */
  lemma HoleRises<T(!new)>(h: seq<T>, pred: (T, T) -> bool, i: nat, e: T)
    requires 0 < i < |h| && OrderedAround(h, pred, i)
    requires pred(e, h[ParentOf(i)]) && StrictWeakOrder(pred)
    ensures OrderedAround(h[i := h[ParentOf(i)]], pred, ParentOf(i))
    ensures ChildrenAfter(h[i := h[ParentOf(i)]], pred, ParentOf(i), e)
  {
    var p := ParentOf(i);
    var h' := h[i := h[p]];
    forall j: nat | 0 < j < |h| && ParentOf(j) == p ensures !pred(h'[j], e) {
      assert j != i ==> !pred(h[j], h[p]);
    }
  }

  /** The step of the recursion that sifts down: `c` is the lesser child of the hole. */
  lemma HoleSinks<T(!new)>(h: seq<T>, pred: (T, T) -> bool, i: nat, e: T, c: nat)
    requires 0 < c < |h| && ParentOf(c) == i && OrderedAround(h, pred, i)
    requires !pred(e, h[c]) && StrictWeakOrder(pred)
    requires forall j: nat :: 0 < j < |h| && ParentOf(j) == i ==> !pred(h[j], h[c])
    ensures OrderedAround(h[i := h[c]], pred, c)
    ensures !pred(e, h[i := h[c]][ParentOf(c)])
  {
    var h' := h[i := h[c]];
    forall j: nat | 0 < j < |h| && ParentOf(j) == c ensures !pred(h'[j], h'[i]) {
      assert !pred(h[j], h[c]);
    }
  }

  lemma AroundFilled<T>(h: seq<T>, pred: (T, T) -> bool, i: nat, e: T)
    requires i < |h| && OrderedAround(h, pred, i) && ChildrenAfter(h, pred, i, e)
    requires i > 0 ==> !pred(e, h[ParentOf(i)])
    ensures Ordered(h[i := e], pred)
  {
  }

  /** Overwriting one slot of a heap leaves the others ordered around it. */
  lemma AroundReplaced<T(!new)>(h: seq<T>, pred: (T, T) -> bool, i: nat, e: T)
    requires i < |h| && Ordered(h, pred) && StrictWeakOrder(pred)
    ensures OrderedAround(h[i := e], pred, i)
  {
    forall j: nat | i > 0 && 0 < j < |h| && ParentOf(j) == i ensures !pred(h[j], h[ParentOf(i)]) {
      assert !pred(h[j], h[i]) && !pred(h[i], h[ParentOf(i)]);
    }
  }

  /** No element of an ordered heap precedes the front one. */
  lemma {:induction false} FrontPrecedes<T(!new)>(h: seq<T>, pred: (T, T) -> bool, j: nat)
    requires j < |h| && Ordered(h, pred) && StrictWeakOrder(pred)
    ensures !pred(h[j], h[0])
  {
    if j > 0 {
      FrontPrecedes(h, pred, ParentOf(j));
    }
  }

  lemma AppendIsHole<T(!new)>(h: seq<T>, index: map<T, int>, elems: set<T>, pred: (T, T) -> bool, e: T)
    requires Inverse(h, index, elems) && Ordered(h, pred) && e !in elems
    ensures Hole(h + [e], index, elems + {e}, |h|, e)
    ensures OrderedAround(h + [e], pred, |h|) && ChildrenAfter(h + [e], pred, |h|, e)
  {
  }

  lemma LastDropped<T(!new)>(h: seq<T>, index: map<T, int>, elems: set<T>, pred: (T, T) -> bool)
    requires 0 < |h| && Inverse(h, index, elems) && Ordered(h, pred)
    ensures var e := h[|h| - 1];
            e in elems && Inverse(h[..|h| - 1], index[e := -1], elems - {e}) && Ordered(h[..|h| - 1], pred)
  {
  }

  /** Dropping the last slot and copying its element over slot `i`. */
  lemma LastFills<T(!new)>(h: seq<T>, index: map<T, int>, elems: set<T>, pred: (T, T) -> bool, i: nat)
    requires i < |h| - 1 && Inverse(h, index, elems) && Ordered(h, pred) && StrictWeakOrder(pred)
    ensures var e := h[|h| - 1]; var h' := h[..|h| - 1][i := e];
            && h[i] in elems && e in elems - {h[i]}
            && Hole(h', index[h[i] := -1], elems - {h[i]}, i, e)
            && Hole(h', index[h[i] := -1][e := i], elems - {h[i]}, i, e)
            && OrderedAround(h', pred, i)
  {
    AroundReplaced(h[..|h| - 1], pred, i, h[|h| - 1]);
  }

  class PriorityQueue<T(0, ==, !new)> {
    var heap: array<T>
    var fill: nat
    var index: map<T, int>
    ghost var Elems: set<T>

    function IndexOf(x: T): int
      reads this`index
    {
      Slot(index, x)
    }

    ghost predicate Valid()
      reads this, heap
    {
      fill <= heap.Length && 0 < heap.Length && Inverse(heap[..fill], index, Elems)
    }

    /** Every element outside the queue records the slot -1. */
    ghost predicate OutIsOut()
      reads this`index, this`Elems
    {
      forall x :: x !in Elems ==> IndexOf(x) == -1
    }

    ghost predicate HeapOrdered(pred: (T, T) -> bool)
      requires fill <= heap.Length
      reads this, heap
    {
      Ordered(heap[..fill], pred)
    }

    constructor ()
      ensures Valid() && OutIsOut() && Elems == {} && fresh(heap)
    {
      heap := new T[DEFAULT_SIZE];
      fill := 0;
      index := map[];
      Elems := {};
    }

    /** Moves the element of slot `start` towards the root; its own slot number
        is left for the caller to record. */
    method SiftUp(pred: (T, T) -> bool, start: nat) returns (i: nat)
      requires start < fill <= heap.Length && Hole(heap[..fill], index, Elems, start, heap[start])
      requires StrictWeakOrder(pred) && OrderedAround(heap[..fill], pred, start)
      modifies this`index, heap
      ensures i < fill && heap[i] == old(heap[start])
      ensures Hole(heap[..fill], index, Elems, i, heap[i])
      ensures OrderedAround(heap[..fill], pred, i)
      ensures i > 0 ==> !pred(heap[i], heap[ParentOf(i)])
      ensures old(ChildrenAfter(heap[..fill], pred, start, heap[start])) || i != start
              ==> ChildrenAfter(heap[..fill], pred, i, heap[i])
      ensures forall x :: x !in Elems || x == heap[i] ==> IndexOf(x) == old(IndexOf(x))
    {
      hide StrictWeakOrder, Hole, OrderedAround, ChildrenAfter;
      i := start;
      var pInd := ParentOf(i);
      var parent := heap[pInd];
      var e := heap[i];
      while i > 0 && pred(e, parent)
        invariant i <= start < fill && pInd == ParentOf(i)
        invariant Hole(heap[..fill], index, Elems, i, e)
        invariant i > 0 ==> parent == heap[pInd]
        invariant OrderedAround(heap[..fill], pred, i)
        invariant old(ChildrenAfter(heap[..fill], pred, start, heap[start])) || i != start
                  ==> ChildrenAfter(heap[..fill], pred, i, e)
        invariant forall x :: x !in Elems || x == e ==> IndexOf(x) == old(IndexOf(x))
      {
        ghost var h := heap[..fill];
        HoleMoves(h, index, Elems, i, e, pInd);
        HoleRises(h, pred, i, e);
        heap[i] := parent;
        index := index[parent := i];
        assert heap[..fill] == h[i := h[pInd]];
        i := pInd;
        pInd := ParentOf(i);
        parent := heap[pInd];
      }
      ghost var h := heap[..fill];
      HoleContent(h, index, Elems, pred, i, e, e);
      heap[i] := e;
      assert heap[..fill] == h[i := e];
    }

    /** Moves the hole `i` away from the root until `e` may fill it. */
    method TryPush(pred: (T, T) -> bool, e: T, i: nat) returns (r: nat)
      requires fill <= heap.Length && Hole(heap[..fill], index, Elems, i, e)
      requires StrictWeakOrder(pred) && OrderedAround(heap[..fill], pred, i)
      requires i > 0 ==> !pred(e, heap[ParentOf(i)])
      modifies this`index, heap
      ensures Hole(heap[..fill], index, Elems, r, e)
      ensures OrderedAround(heap[..fill], pred, r) && ChildrenAfter(heap[..fill], pred, r, e)
      ensures r > 0 ==> !pred(e, heap[ParentOf(r)])
      ensures forall x :: x !in Elems || x == e ==> IndexOf(x) == old(IndexOf(x))
      decreases fill - i
    {
      hide StrictWeakOrder, OrderedAround, ChildrenAfter;
      ghost var h := heap[..fill];
      var childI := LeftOf(i);
      if childI < fill {
        var child := heap[childI];
        var rightI := RightOf(i);
        if rightI < fill {
          var right := heap[rightI];
          if pred(right, child) {
            child := right;
            childI := rightI;
          }
        }
        LesserChild(h, pred, i, childI);
        if pred(e, child) {
          BeforeChildren(h, pred, i, e, childI);
          return i;
        } else {
          HoleMoves(h, index, Elems, i, e, childI);
          HoleSinks(h, pred, i, e, childI);
          heap[i] := child;
          index := index[child := i];
          assert heap[..fill] == h[i := h[childI]];
          r := TryPush(pred, e, childI);
        }
      } else {
        NoChildren(h, pred, i, e);
        r := i;
      }
    }

    /** Pushes an element down and records its slot. */
    method SiftDown(pred: (T, T) -> bool, e: T, start: nat) returns (i: nat)
      requires fill <= heap.Length && Hole(heap[..fill], index, Elems, start, e)
      requires StrictWeakOrder(pred) && OrderedAround(heap[..fill], pred, start)
      requires start > 0 ==> !pred(e, heap[ParentOf(start)])
      modifies this`index, heap
      ensures Valid() && HeapOrdered(pred)
      ensures forall x :: x !in Elems ==> IndexOf(x) == old(IndexOf(x))
    {
      i := TryPush(pred, e, start);
      ghost var h := heap[..fill];
      FillHole(h, index, Elems, i, e);
      AroundFilled(h, pred, i, e);
      heap[i] := e;
      index := index[e := i];
      assert heap[..fill] == h[i := e];
    }

    /** Doubles the array when it is full. */
    method Grow()
      requires fill <= heap.Length && 0 < heap.Length
      modifies this`heap
      ensures fill < heap.Length && heap[..fill] == old(heap[..fill])
      ensures heap == old(heap) || fresh(heap)
    {
      if heap.Length <= fill {
        var size := heap.Length * 2;
        var newHeap := new T[size];
        for i := 0 to fill
          invariant heap == old(heap) && newHeap[..i] == heap[..i]
        {
          newHeap[i] := heap[i];
        }
        heap := newHeap;
      }
    }

    method Add(pred: (T, T) -> bool, e: T)
      requires Valid() && HeapOrdered(pred) && StrictWeakOrder(pred)
      requires e !in Elems
      modifies this, heap
      ensures Valid() && HeapOrdered(pred) && Elems == old(Elems) + {e}
      ensures heap == old(heap) || fresh(heap)
      ensures fill == old(fill) + 1
      ensures forall x :: x !in Elems ==> IndexOf(x) == old(IndexOf(x))
    {
      hide StrictWeakOrder, Hole, OrderedAround, ChildrenAfter, Inverse, Ordered;
      ghost var h := heap[..fill];
      AppendIsHole(h, index, Elems, pred, e);
      Grow();
      heap[fill] := e;
      fill := fill + 1;
      Elems := Elems + {e};
      assert heap[..fill] == h + [e];
      var i := SiftUp(pred, fill - 1);
      ghost var h' := heap[..fill];
      FillHole(h', index, Elems, i, e);
      AroundFilled(h', pred, i, e);
      assert h'[i := e] == h';
      index := index[e := i];
    }

    /** Removes a minimum; nothing happens on an empty queue. */
    method Take(pred: (T, T) -> bool) returns (r: Option<T>)
      requires Valid() && HeapOrdered(pred) && StrictWeakOrder(pred)
      modifies this, heap
      ensures Valid() && HeapOrdered(pred) && heap == old(heap)
      ensures r.None? <==> old(Elems) == {}
      ensures r.None? ==> Elems == {} && index == old(index)
      ensures r.Some? ==> r.value in old(Elems) && Elems == old(Elems) - {r.value} && IndexOf(r.value) == -1
      ensures r.Some? ==> forall x :: x in old(Elems) ==> !pred(x, r.value)
      ensures forall x :: x !in old(Elems) ==> IndexOf(x) == old(IndexOf(x))
    {
      if fill == 0 {
        assert forall x :: x !in Elems;
        return None;
      }
      FrontIsMinimum(pred);
      hide StrictWeakOrder, Hole, OrderedAround, ChildrenAfter;
      ghost var h := heap[..fill];
      var e := heap[0];
      index := index[e := -1];
      heap[0] := heap[fill - 1];
      fill := fill - 1;
      Elems := Elems - {e};
      if fill > 0 {
        LastFills(h, old(index), old(Elems), pred, 0);
        assert heap[..fill] == h[..fill][0 := h[fill]];
        var _ := SiftDown(pred, heap[0], 0);
      }
      r := Some(e);
    }

    method Remove(pred: (T, T) -> bool, i: nat)
      requires Valid() && HeapOrdered(pred) && StrictWeakOrder(pred)
      requires i < fill
      modifies this, heap
      ensures Valid() && HeapOrdered(pred) && heap == old(heap)
      ensures Elems == old(Elems) - {old(heap[i])} && IndexOf(old(heap[i])) == -1
      ensures forall x :: x !in old(Elems) ==> IndexOf(x) == old(IndexOf(x))
    {
      hide StrictWeakOrder, Hole, OrderedAround, ChildrenAfter, Ordered, Inverse;
      ghost var h := heap[..fill];
      var gone := heap[i];
      assert h[i] == gone;
      index := index[gone := -1];
      heap[i] := heap[fill - 1];
      fill := fill - 1;
      Elems := Elems - {gone};
      if i < fill {
        LastFills(h, old(index), old(Elems), pred, i);
        assert heap[..fill] == h[..fill][i := h[fill]];
        var e := heap[i];
        index := index[e := i];
        var up := SiftUp(pred, i);
        var _ := SiftDown(pred, e, up);
      } else {
        LastDropped(h, old(index), old(Elems), pred);
        assert heap[..fill] == h[..fill];
      }
    }

    lemma FrontIsMinimum(pred: (T, T) -> bool)
      requires Valid() && HeapOrdered(pred) && StrictWeakOrder(pred)
      requires 0 < fill
      ensures heap[0] in Elems && forall x :: x in Elems ==> !pred(x, heap[0])
    {
      forall x | x in Elems ensures !pred(x, heap[0]) {
        FrontPrecedes(heap[..fill], pred, IndexOf(x));
      }
    }

    /** Restores the order after the key of the element in slot `i` has changed
        in any way: `was` is the order before the change. */
    method SeeUpdate(pred: (T, T) -> bool, i: nat, ghost was: (T, T) -> bool)
      requires Valid() && i < fill
      requires HeapOrdered(was) && StrictWeakOrder(was) && StrictWeakOrder(pred)
      requires AgreeExcept(pred, was, Elems, heap[i])
      modifies this`index, heap
      ensures Valid() && HeapOrdered(pred)
      ensures forall x :: x !in Elems ==> IndexOf(x) == old(IndexOf(x))
    {
      var e := heap[i];
      AroundReplaced(heap[..fill], was, i, e);
      assert heap[..fill][i := e] == heap[..fill];
      assert OrderedAround(heap[..fill], pred, i);
      var ind := SiftUp(pred, i);
      var _ := SiftDown(pred, e, ind);
    }

    method Front() returns (r: Option<T>)
      requires Valid()
      ensures r.None? <==> Elems == {}
      ensures r.Some? ==> 0 < fill && r.value == heap[0]
    {
      if fill == 0 {
        assert forall x :: x !in Elems;
        return None;
      }
      r := Some(heap[0]);
    }

    method Reset()
      requires Valid() && OutIsOut()
      modifies this
      ensures Valid() && OutIsOut() && Elems == {} && fresh(heap)
    {
      for i := 0 to fill
        invariant heap == old(heap) && fill == old(fill) && Elems == old(Elems)
        invariant forall x :: IndexOf(x) == -1 || (x in Elems && IndexOf(x) == old(IndexOf(x)) && i <= old(IndexOf(x)))
      {
        assert forall x :: x in Elems && old(IndexOf(x)) == i ==> x == heap[i];
        index := index[heap[i] := -1];
      }
      fill := 0;
      Elems := {};
      heap := new T[DEFAULT_SIZE];
    }

    /** Rebuilds the heap after all keys may have changed. */
    method Resort(pred: (T, T) -> bool)
      requires Valid() && OutIsOut() && StrictWeakOrder(pred)
      modifies this
      ensures Valid() && OutIsOut() && HeapOrdered(pred) && Elems == old(Elems) && fresh(heap)
    {
      var oldFill := fill;
      var oldHeap := heap;
      ghost var all := Elems;
      heap := new T[heap.Length];
      fill := 0;
      Elems := {};
      for i := 0 to oldFill
        invariant Valid() && HeapOrdered(pred) && fresh(heap) && oldHeap == old(heap)
        invariant forall x :: x in Elems <==> x in all && 0 <= old(IndexOf(x)) < i
        invariant forall x :: x !in Elems ==> IndexOf(x) == old(IndexOf(x))
      {
        assert oldHeap[i] == old(heap[..fill])[i];
        Add(pred, oldHeap[i]);
      }
      assert Elems == all;
    }
  }
}
