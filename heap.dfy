/**
 * The array-backed binary min-heap of DataStructs/Trees/heap.py.
 *
 * The heap keeps its elements in level order in a resizable list: the node at
 * index i has its parent at (i - 1) / 2 and its children at 2i + 1 and 2i + 2.
 * A three-way comparator decides the order; "greater" means `cmp(x, y) > 0`,
 * and no child may be greater than its parent.
 */
module Heaps {
  import opened Wrappers

  /** `_greater(heap, x, y)`: the comparator puts `x` after `y`. */
  predicate Greater<T>(cmp: (T, T) -> int, x: T, y: T) {
    cmp(x, y) > 0
  }

  /** What the heap needs of its comparator: "not greater" (`cmp(x, y) <= 0`)
    * is a total preorder, i.e. any two elements are ordered one way or the
    * other, and it is transitive. */
  ghost predicate TotalPreorder<T(!new)>(cmp: (T, T) -> int) {
    && (forall x, y :: cmp(x, y) <= 0 || cmp(y, x) <= 0)
    && (forall x, y, z :: cmp(x, y) <= 0 && cmp(y, z) <= 0 ==> cmp(x, z) <= 0)
  }

  /** Under a total-preorder comparator `_greater` is a strict weak order:
    * irreflexive, asymmetric and transitive. */
  lemma GreaterIsStrictOrder<T(!new)>(cmp: (T, T) -> int, x: T, y: T, z: T)
    requires TotalPreorder(cmp)
    ensures !Greater(cmp, x, x)
    ensures Greater(cmp, x, y) ==> !Greater(cmp, y, x)
    ensures Greater(cmp, x, y) && Greater(cmp, y, z) ==> Greater(cmp, x, z)
  {
  }

  function Parent(i: nat): nat
    requires i > 0
  {
    (i - 1) / 2
  }

  /** Heap order: no element is greater than its parent. */
  ghost predicate HeapOrdered<T>(cmp: (T, T) -> int, e: seq<T>) {
    forall i :: 0 < i < |e| ==> !Greater(cmp, e[Parent(i)], e[i])
  }

  /** `arlt.exchange(elements, i, j)`. */
  function Swap<T>(e: seq<T>, i: nat, j: nat): seq<T>
    requires i < |e| && j < |e|
  {
    e[i := e[j]][j := e[i]]
  }

  lemma SwapPermutes<T>(e: seq<T>, i: nat, j: nat)
    requires i < |e| && j < |e|
    ensures |Swap(e, i, j)| == |e| && multiset(Swap(e, i, j)) == multiset(e)
  {
  }

  /** `_swim` as a function: while the node at `k` is not the root and its
    * parent is greater, exchange the two and go on from the parent. */
  function SwimSpec<T>(cmp: (T, T) -> int, e: seq<T>, k: nat): seq<T>
    requires k < |e|
    decreases k
  {
    if k == 0 then e
    else if Greater(cmp, e[Parent(k)], e[k]) then SwimSpec(cmp, Swap(e, k, Parent(k)), Parent(k))
    else e
  }

  /** `_sink` as a function: while the node at `k` has a child, pick the left
    * child unless it is greater than the right one; stop if the node is not
    * greater than that child, else exchange the two and go on from the child. */
  function SinkSpec<T>(cmp: (T, T) -> int, e: seq<T>, k: nat): seq<T>
    decreases |e| - k
  {
    if 2 * k + 1 < |e| then
      var j := if 2 * k + 2 < |e| && Greater(cmp, e[2 * k + 1], e[2 * k + 2]) then 2 * k + 2 else 2 * k + 1;
      if !Greater(cmp, e[k], e[j]) then e
      else SinkSpec(cmp, Swap(e, k, j), j)
    else e
  }

  /** Heap order everywhere except between `k` and its parent; and `k`'s
    * children are not below `k`'s parent either.  `_swim` starts from this. */
  ghost predicate OrderedExceptAbove<T>(cmp: (T, T) -> int, e: seq<T>, k: nat) {
    && k < |e|
    && (forall i :: 0 < i < |e| && i != k ==> !Greater(cmp, e[Parent(i)], e[i]))
    && (0 < k && 2 * k + 1 < |e| ==> !Greater(cmp, e[Parent(k)], e[2 * k + 1]))
    && (0 < k && 2 * k + 2 < |e| ==> !Greater(cmp, e[Parent(k)], e[2 * k + 2]))
  }

  /** Heap order everywhere except between `k` and its children; and `k`'s
    * children are not below `k`'s parent.  `_sink` starts from this. */
  ghost predicate OrderedExceptBelow<T>(cmp: (T, T) -> int, e: seq<T>, k: nat) {
    && (forall i :: 0 < i < |e| && Parent(i) != k ==> !Greater(cmp, e[Parent(i)], e[i]))
    && (0 < k && 2 * k + 1 < |e| ==> !Greater(cmp, e[Parent(k)], e[2 * k + 1]))
    && (0 < k && 2 * k + 2 < |e| ==> !Greater(cmp, e[Parent(k)], e[2 * k + 2]))
  }

  lemma {:induction false} SwimPermutes<T>(cmp: (T, T) -> int, e: seq<T>, k: nat)
    requires k < |e|
    ensures |SwimSpec(cmp, e, k)| == |e| && multiset(SwimSpec(cmp, e, k)) == multiset(e)
    decreases k
  {
    if k > 0 && Greater(cmp, e[Parent(k)], e[k]) {
      SwapPermutes(e, k, Parent(k));
      SwimPermutes(cmp, Swap(e, k, Parent(k)), Parent(k));
    }
  }

  lemma {:induction false} SinkPermutes<T>(cmp: (T, T) -> int, e: seq<T>, k: nat)
    ensures |SinkSpec(cmp, e, k)| == |e| && multiset(SinkSpec(cmp, e, k)) == multiset(e)
    decreases |e| - k
  {
    if 2 * k + 1 < |e| {
      var j := if 2 * k + 2 < |e| && Greater(cmp, e[2 * k + 1], e[2 * k + 2]) then 2 * k + 2 else 2 * k + 1;
      if Greater(cmp, e[k], e[j]) {
        SwapPermutes(e, k, j);
        SinkPermutes(cmp, Swap(e, k, j), j);
      }
    }
  }

  /** One exchange of `_swim` moves the single violation up to the parent. */
  lemma SwimStep<T(!new)>(cmp: (T, T) -> int, e: seq<T>, k: nat)
    requires TotalPreorder(cmp)
    requires OrderedExceptAbove(cmp, e, k) && 0 < k
    requires Greater(cmp, e[Parent(k)], e[k])
    ensures OrderedExceptAbove(cmp, Swap(e, k, Parent(k)), Parent(k))
  {
    var p := Parent(k);
    var s := Swap(e, k, p);
    assert cmp(e[k], e[p]) <= 0;
    forall i | 0 < i < |s| && i != p
      ensures !Greater(cmp, s[Parent(i)], s[i])
    {
      if i == k {
      } else if Parent(i) == p {
        assert !Greater(cmp, e[p], e[i]);
      } else if Parent(i) == k {
        assert i == 2 * k + 1 || i == 2 * k + 2;
      } else {
        assert !Greater(cmp, e[Parent(i)], e[i]);
      }
    }
    if 0 < p {
      assert !Greater(cmp, e[Parent(p)], e[p]);
      if 2 * p + 1 < |s| {
        assert Parent(2 * p + 1) == p;
      }
      if 2 * p + 2 < |s| {
        assert Parent(2 * p + 2) == p;
      }
    }
  }

  /** `_swim` restores heap order from the state it starts in. */
  lemma {:induction false} SwimRestoresOrder<T(!new)>(cmp: (T, T) -> int, e: seq<T>, k: nat)
    requires TotalPreorder(cmp)
    requires OrderedExceptAbove(cmp, e, k)
    ensures HeapOrdered(cmp, SwimSpec(cmp, e, k))
    decreases k
  {
    if k > 0 && Greater(cmp, e[Parent(k)], e[k]) {
      SwimStep(cmp, e, k);
      SwimRestoresOrder(cmp, Swap(e, k, Parent(k)), Parent(k));
    }
  }

  /** One exchange of `_sink` moves the single violation down to the child. */
  lemma SinkStep<T>(cmp: (T, T) -> int, e: seq<T>, k: nat, j: nat)
    requires OrderedExceptBelow(cmp, e, k)
    requires j == 2 * k + 1 || j == 2 * k + 2
    requires j < |e|
    requires 2 * k + 1 < |e| && 2 * k + 2 < |e| ==> !Greater(cmp, e[j], e[4 * k + 3 - j])
    requires Greater(cmp, e[k], e[j]) && !Greater(cmp, e[j], e[k])
    ensures OrderedExceptBelow(cmp, Swap(e, k, j), j)
  {
    var s := Swap(e, k, j);
    forall i | 0 < i < |s| && Parent(i) != j
      ensures !Greater(cmp, s[Parent(i)], s[i])
    {
      if i == j {
      } else if Parent(i) == k {
        assert i == 4 * k + 3 - j;
      } else if i == k {
      } else {
        assert !Greater(cmp, e[Parent(i)], e[i]);
      }
    }
    if 2 * j + 1 < |s| {
      assert Parent(2 * j + 1) == j;
    }
    if 2 * j + 2 < |s| {
      assert Parent(2 * j + 2) == j;
    }
  }

  /** `_sink` restores heap order from the state it starts in. */
  lemma {:induction false} SinkRestoresOrder<T(!new)>(cmp: (T, T) -> int, e: seq<T>, k: nat)
    requires TotalPreorder(cmp)
    requires OrderedExceptBelow(cmp, e, k)
    ensures HeapOrdered(cmp, SinkSpec(cmp, e, k))
    decreases |e| - k
  {
    if 2 * k + 1 < |e| {
      var j := if 2 * k + 2 < |e| && Greater(cmp, e[2 * k + 1], e[2 * k + 2]) then 2 * k + 2 else 2 * k + 1;
      if Greater(cmp, e[k], e[j]) {
        assert cmp(e[j], e[k]) <= 0;
        SinkStep(cmp, e, k, j);
        SinkRestoresOrder(cmp, Swap(e, k, j), j);
      } else {
        forall i | 0 < i < |e| ensures !Greater(cmp, e[Parent(i)], e[i]) {
          if Parent(i) == k && i != j {
            assert i == 4 * k + 3 - j;
          }
        }
      }
    } else {
      forall i | 0 < i < |e| ensures !Greater(cmp, e[Parent(i)], e[i]) {
        assert Parent(i) != k;
      }
    }
  }

  /** In a heap-ordered sequence no element is below the one at index 0. */
  lemma {:induction false} RootIsMinimal<T(!new)>(cmp: (T, T) -> int, e: seq<T>, i: nat)
    requires TotalPreorder(cmp)
    requires HeapOrdered(cmp, e)
    requires i < |e|
    ensures !Greater(cmp, e[0], e[i])
    decreases i
  {
    if i > 0 {
      RootIsMinimal(cmp, e, Parent(i));
    }
  }

  /** What `insert` leaves in the list: the element appended, then swum up
    * from the last index. */
  function InsertSpec<T>(cmp: (T, T) -> int, e: seq<T>, x: T): seq<T> {
    SwimSpec(cmp, e + [x], |e|)
  }

  /** What `delete_min` leaves in a non-empty list: the last element moved to
    * index 0, the last slot removed, then sunk from the root. */
  function DeleteMinSpec<T>(cmp: (T, T) -> int, e: seq<T>): seq<T>
    requires |e| > 0
  {
    SinkSpec(cmp, e[0 := e[|e| - 1]][..|e| - 1], 0)
  }

  /** `insert` keeps heap order and adds exactly the one element. */
  lemma InsertKeepsHeap<T(!new)>(cmp: (T, T) -> int, e: seq<T>, x: T)
    requires TotalPreorder(cmp)
    requires HeapOrdered(cmp, e)
    ensures HeapOrdered(cmp, InsertSpec(cmp, e, x))
    ensures |InsertSpec(cmp, e, x)| == |e| + 1
    ensures multiset(InsertSpec(cmp, e, x)) == multiset(e) + multiset{x}
  {
    var a := e + [x];
    assert OrderedExceptAbove(cmp, a, |e|) by {
      forall i | 0 < i < |a| && i != |e| ensures !Greater(cmp, a[Parent(i)], a[i]) {
        assert a[i] == e[i] && a[Parent(i)] == e[Parent(i)];
      }
    }
    SwimPermutes(cmp, a, |e|);
    SwimRestoresOrder(cmp, a, |e|);
  }

  /** `delete_min` on a non-empty heap keeps heap order and removes exactly
    * one copy of the root. */
  lemma DeleteMinKeepsHeap<T(!new)>(cmp: (T, T) -> int, e: seq<T>)
    requires TotalPreorder(cmp)
    requires HeapOrdered(cmp, e) && |e| > 0
    ensures HeapOrdered(cmp, DeleteMinSpec(cmp, e))
    ensures |DeleteMinSpec(cmp, e)| == |e| - 1
    ensures multiset(DeleteMinSpec(cmp, e)) == multiset(e) - multiset{e[0]}
  {
    var n := |e|;
    var shrunk := e[0 := e[n - 1]][..n - 1];
    assert multiset(shrunk) == multiset(e) - multiset{e[0]} by {
      assert e == [e[0]] + e[1..];
      if n > 1 {
        assert shrunk == [e[n - 1]] + e[1..n - 1];
        assert e[1..] == e[1..n - 1] + [e[n - 1]];
      }
    }
    assert OrderedExceptBelow(cmp, shrunk, 0) by {
      forall i | 0 < i < |shrunk| && Parent(i) != 0
        ensures !Greater(cmp, shrunk[Parent(i)], shrunk[i])
      {
        assert shrunk[i] == e[i] && shrunk[Parent(i)] == e[Parent(i)];
      }
    }
    SinkPermutes(cmp, shrunk, 0);
    SinkRestoresOrder(cmp, shrunk, 0);
  }

  /** The root of a heap is not greater than anything still held after one
    * `delete_min`, in particular not greater than the next root. */
  lemma DeleteMinReturnsMinimum<T(!new)>(cmp: (T, T) -> int, e: seq<T>)
    requires TotalPreorder(cmp)
    requires HeapOrdered(cmp, e) && |e| > 0
    ensures forall x :: x in DeleteMinSpec(cmp, e) ==> !Greater(cmp, e[0], x)
  {
    DeleteMinKeepsHeap(cmp, e);
    forall x | x in DeleteMinSpec(cmp, e) ensures !Greater(cmp, e[0], x) {
      assert x in multiset(DeleteMinSpec(cmp, e));
      assert x in multiset(e);
      var i :| 0 <= i < |e| && e[i] == x;
      RootIsMinimal(cmp, e, i);
    }
  }

  /** Ordered by the comparator: no element greater than a later one. */
  ghost predicate SortedBy<T>(cmp: (T, T) -> int, s: seq<T>) {
    forall i, j :: 0 <= i < j < |s| ==> !Greater(cmp, s[i], s[j])
  }

  /** The values repeated `delete_min` calls return until the heap is empty. */
  function Drain<T>(cmp: (T, T) -> int, e: seq<T>): seq<T>
    decreases |e|
  {
    if |e| == 0 then []
    else
      SinkPermutes(cmp, e[0 := e[|e| - 1]][..|e| - 1], 0);
      [e[0]] + Drain(cmp, DeleteMinSpec(cmp, e))
  }

  /** Repeated `delete_min` returns every element held, each exactly as often
    * as it was held, in non-decreasing order. */
  lemma {:induction false} DrainIsSortedPermutation<T(!new)>(cmp: (T, T) -> int, e: seq<T>)
    requires TotalPreorder(cmp)
    requires HeapOrdered(cmp, e)
    ensures multiset(Drain(cmp, e)) == multiset(e)
    ensures SortedBy(cmp, Drain(cmp, e))
    decreases |e|
  {
    if |e| > 0 {
      var rest := DeleteMinSpec(cmp, e);
      DeleteMinKeepsHeap(cmp, e);
      DeleteMinReturnsMinimum(cmp, e);
      DrainIsSortedPermutation(cmp, rest);
      var d := Drain(cmp, e);
      assert d == [e[0]] + Drain(cmp, rest);
      assert multiset(e) == multiset{e[0]} + multiset(rest) by {
        assert e[0] in multiset(e);
      }
      forall i, j | 0 <= i < j < |d| ensures !Greater(cmp, d[i], d[j]) {
        if i == 0 {
          assert d[j] in multiset(Drain(cmp, rest));
          assert d[j] in rest;
        } else {
          assert d[i] == Drain(cmp, rest)[i - 1] && d[j] == Drain(cmp, rest)[j - 1];
        }
      }
    }
  }

  /** `dflt_heap_elm_cmp` on integers: 1, -1 or 0 as the first is greater,
    * smaller or equal. */
  function DfltHeapElmCmp(id1: int, id2: int): (r: int)
    ensures r in {-1, 0, 1}
    ensures r > 0 <==> id1 > id2
    ensures r < 0 <==> id1 < id2
  {
    if id1 > id2 then 1
    else if id1 < id2 then -1
    else 0
  }

  /** The default comparator is antisymmetric and a total preorder, so a heap
    * may be built on it. */
  lemma DfltHeapElmCmpIsTotalPreorder()
    ensures forall a, b :: DfltHeapElmCmp(a, b) == -DfltHeapElmCmp(b, a)
    ensures TotalPreorder(DfltHeapElmCmp)
  {
  }

  /** The heap record: the backing list, its size and the comparator. */
  class Heap<T(!new)> {
    var elements: seq<T>
    var size: nat
    const cmp: (T, T) -> int

    ghost predicate Valid()
      reads this
    {
      && size == |elements|
      && TotalPreorder(cmp)
      && HeapOrdered(cmp, elements)
    }

    /** `new_heap(cmp_function)` with a comparator supplied. */
    constructor (cmpFunction: (T, T) -> int)
      requires TotalPreorder(cmpFunction)
      ensures Valid()
      ensures elements == [] && size == 0 && cmp == cmpFunction
    {
      elements := [];
      size := 0;
      cmp := cmpFunction;
    }

    /** `size(heap)`. */
    function Size(): (n: nat)
      reads this
      requires Valid()
      ensures n == |elements|
    {
      size
    }

    /** `is_empty(heap)`. */
    function IsEmpty(): (b: bool)
      reads this
      requires Valid()
      ensures b <==> |elements| == 0
    {
      size == 0
    }

    /** `get_min(heap)`: `None` on an empty heap, otherwise the root, which
      * no element held is below. */
    function GetMin(): (r: Option<T>)
      reads this
      requires Valid()
      ensures r.None? <==> |elements| == 0
      ensures r.Some? ==> r.value == elements[0]
      ensures r.Some? ==> forall i :: 0 <= i < |elements| ==> !Greater(cmp, r.value, elements[i])
    {
      if IsEmpty() then None
      else
        assert forall i :: 0 <= i < |elements| ==> !Greater(cmp, elements[0], elements[i]) by {
          forall i | 0 <= i < |elements| ensures !Greater(cmp, elements[0], elements[i]) {
            RootIsMinimal(cmp, elements, i);
          }
        }
        Some(elements[0])
    }

    /** `_exchange(heap, idx1, idx2)`. */
    method Exchange(idx1: nat, idx2: nat)
      requires idx1 < |elements| && idx2 < |elements|
      modifies this
      ensures elements == Swap(old(elements), idx1, idx2)
      ensures multiset(elements) == multiset(old(elements))
      ensures size == old(size)
    {
      SwapPermutes(elements, idx1, idx2);
      elements := Swap(elements, idx1, idx2);
    }

    /** `_swim(heap, idx)`. */
    method Swim(idx: nat)
      requires idx < |elements|
      modifies this
      ensures elements == SwimSpec(cmp, old(elements), idx)
      ensures size == old(size)
    {
      var k: nat := idx;
      while k > 0
        invariant k < |elements|
        invariant SwimSpec(cmp, elements, k) == SwimSpec(cmp, old(elements), idx)
        invariant size == old(size)
        decreases k
      {
        var parentIdx := (k - 1) / 2;
        var parent := elements[parentIdx];
        var current := elements[k];
        if Greater(cmp, parent, current) {
          Exchange(k, parentIdx);
          k := parentIdx;
        } else {
          break;
        }
      }
    }

    /** `_sink(heap, idx)`; it reads the bound from `size`. */
    method Sink(idx: nat)
      requires size == |elements|
      modifies this
      ensures elements == SinkSpec(cmp, old(elements), idx)
      ensures size == old(size)
    {
      var k: nat := idx;
      var n := size;
      while 2 * k + 1 < n
        invariant n == size == |elements|
        invariant SinkSpec(cmp, elements, k) == SinkSpec(cmp, old(elements), idx)
        decreases n - k
      {
        var j := 2 * k + 1;
        if j + 1 < n {
          var left := elements[j];
          var right := elements[j + 1];
          if Greater(cmp, left, right) {
            j := j + 1;
          }
        }
        var current := elements[k];
        var child := elements[j];
        if !Greater(cmp, current, child) {
          break;
        }
        Exchange(k, j);
        k := j;
      }
    }

    /** `insert(heap, elm)`: append, update the size, swim up from the end. */
    method Insert(elm: T)
      requires Valid()
      modifies this
      ensures Valid()
      ensures size == old(size) + 1
      ensures multiset(elements) == multiset(old(elements)) + multiset{elm}
      ensures elements == InsertSpec(cmp, old(elements), elm)
    {
      InsertKeepsHeap(cmp, elements, elm);
      elements := elements + [elm];
      size := |elements|;
      Swim(size - 1);
    }

    /** `delete_min(heap)`: `None` and no change on an empty heap; otherwise
      * the root is returned, the last element takes its place, the list
      * shrinks by one and the new root sinks. */
    method DeleteMin() returns (r: Option<T>)
      requires Valid()
      modifies this
      ensures Valid()
      ensures old(size) == 0 ==> r.None? && elements == old(elements) && size == old(size)
      ensures old(size) > 0 ==> r == Some(old(elements)[0])
      ensures old(size) > 0 ==> size == old(size) - 1
      ensures old(size) > 0 ==>
                multiset(elements) == multiset(old(elements)) - multiset{old(elements)[0]}
      ensures old(size) > 0 ==> elements == DeleteMinSpec(cmp, old(elements))
      ensures r.Some? ==> forall x :: x in elements ==> !Greater(cmp, r.value, x)
    {
      if IsEmpty() {
        return None;
      }
      DeleteMinKeepsHeap(cmp, elements);
      DeleteMinReturnsMinimum(cmp, elements);
      var min := elements[0];
      var last := elements[size - 1];
      elements := elements[0 := last];
      elements := elements[..|elements| - 1];
      size := |elements|;
      Sink(0);
      r := Some(min);
    }
  }

  /** `new_heap(cmp_function)` for integer elements: the supplied comparator,
    * or `dflt_heap_elm_cmp` when none is given. */
  method NewHeap(cmpFunction: Option<(int, int) -> int>) returns (h: Heap<int>)
    requires cmpFunction.Some? ==> TotalPreorder(cmpFunction.value)
    ensures fresh(h) && h.Valid()
    ensures h.elements == [] && h.size == 0
    ensures h.cmp == if cmpFunction.Some? then cmpFunction.value else DfltHeapElmCmp
  {
    if cmpFunction.Some? {
      h := new Heap(cmpFunction.value);
    } else {
      DfltHeapElmCmpIsTotalPreorder();
      h := new Heap(DfltHeapElmCmp);
    }
  }
}
