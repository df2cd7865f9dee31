/** The binary heap of Go's container/heap over a slice, for any strict weak order. */
module Heap {
  import opened Basics

  function Parent(c: int): (p: int)
    requires c >= 1
    ensures 0 <= p < c
    ensures c == 2 * p + 1 || c == 2 * p + 2
  {
    (c - 1) / 2
  }

  function Swap<T>(h: seq<T>, i: nat, j: nat): (r: seq<T>)
    requires i < |h| && j < |h|
    ensures |r| == |h| && r[i] == h[j] && r[j] == h[i]
    ensures forall k :: 0 <= k < |h| && k != i && k != j ==> r[k] == h[k]
  {
    h[i := h[j]][j := h[i]]
  }

  lemma SwapMultiset<T>(h: seq<T>, i: nat, j: nat)
    requires i < |h| && j < |h|
    ensures multiset(Swap(h, i, j)) == multiset(h)
  {
    var r := Swap(h, i, j);
    assert multiset(h[i := h[j]]) == multiset(h) - multiset{h[i]} + multiset{h[j]};
  }

  /** Below `n`, no element sorts before its parent, for parents from `lo` on other than `except`. */
  ghost predicate Edges<T>(h: seq<T>, less: (T, T) -> bool, lo: int, n: int, except: int)
    requires n <= |h|
  {
    forall c :: 1 <= c < n && lo <= Parent(c) != except ==> !less(h[c], h[Parent(c)])
  }

  ghost predicate IsHeap<T>(h: seq<T>, less: (T, T) -> bool) { Edges(h, less, 0, |h|, -1) }

  /** The children of `i` do not sort before the parent of `i`. */
  ghost predicate Bridged<T>(h: seq<T>, less: (T, T) -> bool, lo: int, n: int, i: int)
    requires n <= |h|
  {
    i > lo >= 0 && lo <= Parent(i) ==>
      forall c :: 1 <= c < n && Parent(c) == i ==> !less(h[c], h[Parent(i)])
  }

  /** The root of a heap is a best element. */
  lemma {:induction false} RootIsBest<T(!new)>(h: seq<T>, less: (T, T) -> bool, i: nat)
    requires StrictWeakOrder(less) && IsHeap(h, less) && i < |h|
    ensures !less(h[i], h[0])
  {
    if i > 0 {
      RootIsBest(h, less, Parent(i));
      assert !less(h[i], h[Parent(i)]);
    }
  }

  /** The child that `down` compares with its parent: the better of the two. */
  function BetterChild<T>(h: seq<T>, less: (T, T) -> bool, i: nat, n: nat): (j: nat)
    requires 2 * i + 1 < n <= |h|
    ensures i < j < n && Parent(j) == i
  {
    var j1 := 2 * i + 1;
    if j1 + 1 < n && less(h[j1 + 1], h[j1]) then j1 + 1 else j1
  }

  lemma DownStep<T(!new)>(h: seq<T>, less: (T, T) -> bool, lo: nat, i: nat, n: nat)
    requires StrictWeakOrder(less) && lo <= i && 2 * i + 1 < n <= |h|
    requires Edges(h, less, lo, n, i) && Bridged(h, less, lo, n, i)
    requires less(h[BetterChild(h, less, i, n)], h[i])
    ensures var j := BetterChild(h, less, i, n);
            Edges(Swap(h, i, j), less, lo, n, j) && Bridged(Swap(h, i, j), less, lo, n, j)
  {
    var j := BetterChild(h, less, i, n);
    var r := Swap(h, i, j);
    forall c | 1 <= c < n && lo <= Parent(c) != j ensures !less(r[c], r[Parent(c)]) {
      if Parent(c) == i {
        assert c == 2 * i + 1 || c == 2 * i + 2;
      } else if c == i {
        assert !less(h[j], h[Parent(i)]);
      }
    }
  }

  lemma DownStop<T(!new)>(h: seq<T>, less: (T, T) -> bool, lo: nat, i: nat, n: nat)
    requires StrictWeakOrder(less) && lo <= i && n <= |h| && Edges(h, less, lo, n, i)
    requires 2 * i + 1 >= n || !less(h[BetterChild(h, less, i, n)], h[i])
    ensures Edges(h, less, lo, n, -1)
  {
    forall c | 1 <= c < n && lo <= Parent(c) ensures !less(h[c], h[Parent(c)]) {
      if Parent(c) == i {
        assert !less(h[c], h[BetterChild(h, less, i, n)]);
      }
    }
  }

  lemma DownStart<T>(h: seq<T>, less: (T, T) -> bool, i0: nat, n: nat)
    requires n <= |h| && Edges(h, less, i0 + 1, n, -1)
    ensures Edges(h, less, i0, n, i0) && Bridged(h, less, i0, n, i0)
  {}

  /** Sifts the element at `i0` down within the first `n`. */
  method Down<T(!new)>(h0: seq<T>, less: (T, T) -> bool, i0: nat, n: nat) returns (h: seq<T>)
    requires StrictWeakOrder(less) && i0 < |h0| && n <= |h0|
    requires Edges(h0, less, i0 + 1, n, -1)
    ensures |h| == |h0| && multiset(h) == multiset(h0)
    ensures forall k :: n <= k < |h| ==> h[k] == h0[k]
    ensures Edges(h, less, i0, n, -1)
  {
    hide Edges, Bridged, BetterChild, Swap, StrictWeakOrder;
    h := h0;
    var i := i0;
    DownStart(h, less, i0, n);
    while true
      invariant i0 <= i < |h| == |h0| && multiset(h) == multiset(h0)
      invariant forall k :: n <= k < |h| ==> h[k] == h0[k]
      invariant Edges(h, less, i0, n, i) && Bridged(h, less, i0, n, i)
      decreases |h| - i
    {
      if 2 * i + 1 >= n {
        break;
      }
      var j := BetterChild(h, less, i, n);
      if !less(h[j], h[i]) {
        break;
      }
      DownStep(h, less, i0, i, n);
      SwapMultiset(h, i, j);
      h := Swap(h, i, j);
      i := j;
    }
    DownStop(h, less, i0, i, n);
  }

  method Init<T(!new)>(h0: seq<T>, less: (T, T) -> bool) returns (h: seq<T>)
    requires StrictWeakOrder(less)
    ensures |h| == |h0| && multiset(h) == multiset(h0) && IsHeap(h, less)
  {
    h := h0;
    var n := |h|;
    var i := n / 2 - 1;
    while i >= 0
      invariant -1 <= i <= n / 2 - 1 && |h| == n == |h0| && multiset(h) == multiset(h0)
      invariant Edges(h, less, i + 1, n, -1)
    {
      h := Down(h, less, i, n);
      i := i - 1;
    }
  }

  /** Restores a heap whose root was replaced; sifting up from the root does nothing. */
  method FixRoot<T(!new)>(h0: seq<T>, less: (T, T) -> bool) returns (h: seq<T>)
    requires StrictWeakOrder(less) && |h0| > 0 && Edges(h0, less, 1, |h0|, -1)
    ensures |h| == |h0| && multiset(h) == multiset(h0) && IsHeap(h, less)
  {
    h := Down(h0, less, 0, |h0|);
  }

  /** Removes the root. */
  method Pop<T(!new)>(h0: seq<T>, less: (T, T) -> bool) returns (h: seq<T>)
    requires StrictWeakOrder(less) && |h0| > 0 && IsHeap(h0, less)
    ensures |h| == |h0| - 1 && multiset(h) == multiset(h0) - multiset{h0[0]} && IsHeap(h, less)
  {
    var n := |h0| - 1;
    var s := Swap(h0, 0, n);
    SwapMultiset(h0, 0, n);
    var t := Down(s, less, 0, n);
    h := t[..n];
    assert t == h + [h0[0]];
  }
}
