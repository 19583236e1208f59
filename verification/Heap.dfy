/**
 The binary heap operations of Go's container/heap on a slice, for any order given by a "less" function.
 */
module Heap {
  /** A strict weak order: asymmetric, and incomparability is transitive. */
  ghost predicate StrictWeakOrder<T(!new)>(less: (T, T) -> bool) {
    && (forall a, b :: less(a, b) ==> !less(b, a))
    && (forall a, b, c :: !less(a, b) && !less(b, c) ==> !less(a, c))
  }

  function Parent(i: nat): nat
    requires i > 0
  {
    (i - 1) / 2
  }

  /** The element at i is not less than its parent. */
  predicate Ordered<T>(h: seq<T>, less: (T, T) -> bool, i: nat)
    requires 0 < i < |h|
  {
    !less(h[i], h[Parent(i)])
  }

  /** The element at i is not less than its grandparent. */
  predicate SkipOrdered<T>(h: seq<T>, less: (T, T) -> bool, i: nat)
    requires 0 < i < |h| && Parent(i) > 0
  {
    !less(h[i], h[Parent(Parent(i))])
  }

  ghost predicate IsHeap<T>(h: seq<T>, less: (T, T) -> bool) {
    forall i: nat {:trigger Ordered(h, less, i)} :: 0 < i < |h| ==> Ordered(h, less, i)
  }

  /** The heap order holds below every parent from lo on. */
  ghost predicate HeapFrom<T>(h: seq<T>, less: (T, T) -> bool, lo: nat) {
    forall i: nat {:trigger Ordered(h, less, i)} :: 0 < i < |h| && Parent(i) >= lo ==> Ordered(h, less, i)
  }

  lemma {:induction false} RootIsLeast<T(!new)>(h: seq<T>, less: (T, T) -> bool, i: nat)
    requires StrictWeakOrder(less) && IsHeap(h, less) && i < |h|
    ensures !less(h[i], h[0])
    decreases i
  {
    if i > 0 {
      assert Ordered(h, less, i);
      RootIsLeast(h, less, Parent(i));
    }
  }

  function Swap<T>(h: seq<T>, i: nat, j: nat): seq<T>
    requires i < |h| && j < |h|
  {
    h[i := h[j]][j := h[i]]
  }

  lemma SwapPermutes<T>(h: seq<T>, i: nat, j: nat)
    requires i < |h| && j < |h|
    ensures multiset(Swap(h, i, j)) == multiset(h)
  {
  }

  /** Only the element at j may be out of order with its parent. */
  ghost predicate UpPre<T>(h: seq<T>, less: (T, T) -> bool, j: nat) {
    && (forall i: nat {:trigger Ordered(h, less, i)} :: 0 < i < |h| && i != j ==> Ordered(h, less, i))
    && (forall i: nat {:trigger SkipOrdered(h, less, i)} ::
          0 < i < |h| && Parent(i) == j && j > 0 ==> SkipOrdered(h, less, i))
  }

  lemma UpStep<T(!new)>(h: seq<T>, less: (T, T) -> bool, j: nat)
    requires StrictWeakOrder(less) && 0 < j < |h| && UpPre(h, less, j) && less(h[j], h[Parent(j)])
    ensures UpPre(Swap(h, Parent(j), j), less, Parent(j))
  {
    var p := Parent(j);
    var g := Swap(h, p, j);
    forall i: nat | 0 < i < |g| && i != p
      ensures Ordered(g, less, i)
    {
      assert i != j ==> Ordered(h, less, i);
      assert Parent(i) == j ==> SkipOrdered(h, less, i);
    }
    if p > 0 {
      assert Ordered(h, less, p);
      forall i: nat | 0 < i < |g| && Parent(i) == p
        ensures SkipOrdered(g, less, i)
      {
        assert i != j ==> Ordered(h, less, i);
      }
    }
  }

  method Up<T(!new)>(h0: seq<T>, less: (T, T) -> bool, j0: nat) returns (h: seq<T>)
    requires StrictWeakOrder(less) && j0 < |h0| && UpPre(h0, less, j0)
    ensures IsHeap(h, less) && multiset(h) == multiset(h0)
  {
    h := h0;
    var j: nat := j0;
    while j > 0 && less(h[j], h[Parent(j)])
      invariant j < |h| == |h0| && UpPre(h, less, j) && multiset(h) == multiset(h0)
      decreases j
    {
      UpStep(h, less, j);
      SwapPermutes(h, Parent(j), j);
      h, j := Swap(h, Parent(j), j), Parent(j);
    }
    forall i: nat | 0 < i < |h|
      ensures Ordered(h, less, i)
    {
    }
  }

  /** Only children of i may be out of order with it. */
  ghost predicate DownPre<T>(h: seq<T>, less: (T, T) -> bool, lo: nat, i: nat) {
    && (forall k: nat {:trigger Ordered(h, less, k)} ::
          0 < k < |h| && Parent(k) >= lo && Parent(k) != i ==> Ordered(h, less, k))
    && (forall k: nat {:trigger SkipOrdered(h, less, k)} ::
          0 < k < |h| && Parent(k) == i && i > 0 && Parent(i) >= lo ==> SkipOrdered(h, less, k))
  }

  /** The smaller child of i, if any. */
  function SmallerChild<T>(h: seq<T>, less: (T, T) -> bool, i: nat): (j: nat)
    requires 2 * i + 1 < |h|
    ensures i < j < |h| && Parent(j) == i
  {
    if 2 * i + 2 < |h| && less(h[2 * i + 2], h[2 * i + 1]) then 2 * i + 2 else 2 * i + 1
  }

  lemma SmallerChildIsSmaller<T(!new)>(h: seq<T>, less: (T, T) -> bool, i: nat, k: nat)
    requires StrictWeakOrder(less) && 2 * i + 1 < |h| && 0 < k < |h| && Parent(k) == i
    ensures !less(h[k], h[SmallerChild(h, less, i)])
  {
    assert k == 2 * i + 1 || k == 2 * i + 2;
  }

  lemma DownStep<T(!new)>(h: seq<T>, less: (T, T) -> bool, lo: nat, i: nat)
    requires StrictWeakOrder(less) && 2 * i + 1 < |h| && lo <= i && DownPre(h, less, lo, i)
    requires less(h[SmallerChild(h, less, i)], h[i])
    ensures DownPre(Swap(h, i, SmallerChild(h, less, i)), less, lo, SmallerChild(h, less, i))
  {
    var j := SmallerChild(h, less, i);
    var g := Swap(h, i, j);
    forall k: nat | 0 < k < |g| && Parent(k) >= lo && Parent(k) != j
      ensures Ordered(g, less, k)
    {
      if Parent(k) == i {
        SmallerChildIsSmaller(h, less, i, k);
        assert k != j ==> g[k] == h[k] && g[i] == h[j];
      } else if k == i {
        assert SkipOrdered(h, less, j);
      } else {
        assert Ordered(h, less, k);
      }
    }
    forall k: nat | 0 < k < |g| && Parent(k) == j
      ensures SkipOrdered(g, less, k)
    {
      assert Ordered(h, less, k);
    }
  }

  /**
   Sifts the element at i0 down. If the order was right apart from its children the result is ordered
   from lo on; in any case it moves exactly when a child is less than it.
   */
  method Down<T(!new)>(h0: seq<T>, less: (T, T) -> bool, i0: nat, ghost lo: nat, ghost ordered: bool)
    returns (h: seq<T>, moved: bool)
    requires StrictWeakOrder(less) && lo <= i0
    requires ordered ==> DownPre(h0, less, lo, i0)
    ensures multiset(h) == multiset(h0) && |h| == |h0|
    ensures ordered ==> HeapFrom(h, less, lo)
    ensures moved <==> 2 * i0 + 1 < |h0| && less(h0[SmallerChild(h0, less, i0)], h0[i0])
    ensures !moved ==> h == h0
  {
    h, moved := h0, false;
    var i := i0;
    while 2 * i + 1 < |h|
      invariant i0 <= i && |h| == |h0| && multiset(h) == multiset(h0)
      invariant ordered ==> DownPre(h, less, lo, i)
      invariant i == i0 ==> !moved && h == h0
      invariant i > i0 ==> moved && 2 * i0 + 1 < |h0| && less(h0[SmallerChild(h0, less, i0)], h0[i0])
      decreases |h| - i
    {
      var j := SmallerChild(h, less, i);
      if !less(h[j], h[i]) {
        if ordered {
          DownDone(h, less, lo, i);
        }
        return;
      }
      if ordered {
        DownStep(h, less, lo, i);
      }
      SwapPermutes(h, i, j);
      h, i, moved := Swap(h, i, j), j, true;
    }
    if ordered {
      forall k: nat | 0 < k < |h| && Parent(k) >= lo
        ensures Ordered(h, less, k)
      {
      }
    }
  }

  lemma DownDone<T(!new)>(h: seq<T>, less: (T, T) -> bool, lo: nat, i: nat)
    requires StrictWeakOrder(less) && 2 * i + 1 < |h| && DownPre(h, less, lo, i)
    requires !less(h[SmallerChild(h, less, i)], h[i])
    ensures HeapFrom(h, less, lo)
  {
    forall k: nat | 0 < k < |h| && Parent(k) >= lo
      ensures Ordered(h, less, k)
    {
      if Parent(k) == i {
        SmallerChildIsSmaller(h, less, i, k);
      }
    }
  }

  method Push<T(!new)>(h0: seq<T>, less: (T, T) -> bool, x: T) returns (h: seq<T>)
    requires StrictWeakOrder(less) && IsHeap(h0, less)
    ensures IsHeap(h, less) && multiset(h) == multiset(h0) + multiset{x}
  {
    var g := h0 + [x];
    forall i: nat | 0 < i < |g| && i != |h0|
      ensures Ordered(g, less, i)
    {
      assert Ordered(h0, less, i);
    }
    h := Up(g, less, |h0|);
  }

  method Pop<T(!new)>(h0: seq<T>, less: (T, T) -> bool) returns (h: seq<T>, x: T)
    requires StrictWeakOrder(less) && IsHeap(h0, less) && h0 != []
    ensures IsHeap(h, less) && multiset(h0) == multiset(h) + multiset{x} && |h| == |h0| - 1
    ensures x == h0[0] && forall y :: y in h0 ==> !less(y, x)
  {
    forall i: nat | i < |h0|
      ensures !less(h0[i], h0[0])
    {
      RootIsLeast(h0, less, i);
    }
    h, x := RemoveAt(h0, less, 0);
  }

  /** The slice without the element at i, whose place the last element takes. */
  function Cut<T>(h: seq<T>, i: nat): seq<T>
    requires i < |h|
  {
    if i == |h| - 1 then h[..|h| - 1] else h[..|h| - 1][i := h[|h| - 1]]
  }

  lemma CutPermutes<T>(h: seq<T>, i: nat)
    requires i < |h|
    ensures multiset(h) == multiset(Cut(h, i)) + multiset{h[i]}
  {
    assert h == h[..|h| - 1] + [h[|h| - 1]];
  }

  method RemoveAt<T(!new)>(h0: seq<T>, less: (T, T) -> bool, i: nat) returns (h: seq<T>, x: T)
    requires StrictWeakOrder(less) && IsHeap(h0, less) && i < |h0|
    ensures IsHeap(h, less) && x == h0[i] && multiset(h0) == multiset(h) + multiset{x} && |h| == |h0| - 1
  {
    x := h0[i];
    CutPermutes(h0, i);
    var g := Cut(h0, i);
    CutOrdered(h0, less, i);
    if i == |h0| - 1 {
      return g, x;
    }
    ghost var ordered := i == 0 || !less(g[i], g[Parent(i)]);
    if ordered {
      CutDown(h0, less, i);
    }
    var moved;
    h, moved := Down(g, less, i, 0, ordered);
    if !moved {
      CutUp(h0, less, i);
      h := Up(g, less, i);
    } else if !ordered {
      CutStays(h0, less, i);
    }
    assert moved ==> HeapFrom(h, less, 0);
    forall k: nat | 0 < k < |h|
      ensures Ordered(h, less, k)
    {
    }
  }

  /** Cutting keeps the order of every pair that does not involve position i. */
  lemma CutOrdered<T(!new)>(h: seq<T>, less: (T, T) -> bool, i: nat)
    requires StrictWeakOrder(less) && IsHeap(h, less) && i < |h|
    ensures forall k: nat {:trigger Ordered(Cut(h, i), less, k)} ::
              0 < k < |h| - 1 && k != i && Parent(k) != i ==> Ordered(Cut(h, i), less, k)
    ensures forall k: nat {:trigger SkipOrdered(Cut(h, i), less, k)} ::
              0 < k < |h| - 1 && Parent(k) == i && i > 0 ==> SkipOrdered(Cut(h, i), less, k)
  {
    var g := Cut(h, i);
    forall k: nat | 0 < k < |h| - 1 && k != i && Parent(k) != i
      ensures Ordered(g, less, k)
    {
      assert Ordered(h, less, k);
    }
    if i > 0 {
      forall k: nat | 0 < k < |h| - 1 && Parent(k) == i
        ensures SkipOrdered(g, less, k)
      {
        assert Ordered(h, less, k) && Ordered(h, less, i);
      }
    }
  }

  lemma CutDown<T(!new)>(h: seq<T>, less: (T, T) -> bool, i: nat)
    requires StrictWeakOrder(less) && IsHeap(h, less) && i < |h| - 1
    requires i == 0 || !less(Cut(h, i)[i], Cut(h, i)[Parent(i)])
    ensures DownPre(Cut(h, i), less, 0, i)
  {
    CutOrdered(h, less, i);
  }

  /** If no child of the replaced element is less than it, only the way up is left to repair. */
  lemma CutUp<T(!new)>(h: seq<T>, less: (T, T) -> bool, i: nat)
    requires StrictWeakOrder(less) && IsHeap(h, less) && i < |h| - 1
    requires 2 * i + 1 < |h| - 1 ==> !less(Cut(h, i)[SmallerChild(Cut(h, i), less, i)], Cut(h, i)[i])
    ensures UpPre(Cut(h, i), less, i)
  {
    CutOrdered(h, less, i);
    var g := Cut(h, i);
    forall k: nat | 0 < k < |g| && k != i
      ensures Ordered(g, less, k)
    {
      if Parent(k) == i {
        SmallerChildIsSmaller(g, less, i, k);
      }
    }
  }

  /** An element less than its parent is not greater than any of its children, so it cannot move down. */
  lemma CutStays<T(!new)>(h: seq<T>, less: (T, T) -> bool, i: nat)
    requires StrictWeakOrder(less) && IsHeap(h, less) && 0 < i < |h| - 1
    requires less(Cut(h, i)[i], Cut(h, i)[Parent(i)])
    ensures 2 * i + 1 < |h| - 1 ==> !less(Cut(h, i)[SmallerChild(Cut(h, i), less, i)], Cut(h, i)[i])
  {
    CutOrdered(h, less, i);
    var g := Cut(h, i);
    if 2 * i + 1 < |g| {
      var j := SmallerChild(g, less, i);
      assert SkipOrdered(g, less, j);
    }
  }

  method Init<T(!new)>(h0: seq<T>, less: (T, T) -> bool) returns (h: seq<T>)
    requires StrictWeakOrder(less)
    ensures IsHeap(h, less) && multiset(h) == multiset(h0) && |h| == |h0|
  {
    h := h0;
    var i := |h| / 2;
    while i > 0
      invariant 0 <= i && |h| == |h0| && multiset(h) == multiset(h0) && HeapFrom(h, less, i)
    {
      i := i - 1;
      forall k: nat | 0 < k < |h| && Parent(k) >= i && Parent(k) != i
        ensures Ordered(h, less, k)
      {
      }
      var moved;
      h, moved := Down(h, less, i, i, true);
    }
    forall k: nat | 0 < k < |h|
      ensures Ordered(h, less, k)
    {
    }
  }
}
