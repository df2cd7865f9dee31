/** A heap of queue heads: container/heap operations seen as operations on the queues. */
module HeadHeap {
  import opened Basics
  import opened Merge
  import Heap

  /** The slice is a heap of exactly the heads of `q`. */
  ghost predicate Represents<K(!new), T(!new)>(heads: seq<Head<K, T>>, q: Queues<K, T>, tip: T -> nat,
                                               before: Before<K, T>)
  {
    Heap.IsHeap(heads, before) && Holds(multiset(heads), q, tip)
  }

  /** The root is the head of a best queue; there is a root exactly when there is a queue. */
  lemma RootIsBest<K(!new), T(!new)>(heads: seq<Head<K, T>>, q: Queues<K, T>, tip: T -> nat, before: Before<K, T>)
    requires StrictWeakOrder(before) && Represents(heads, q, tip, before)
    ensures heads == [] <==> q == map[]
    ensures heads != [] ==> Best(q, tip, before, heads[0].key) && heads[0] == HeadFor(q, tip, heads[0].key)
  {
    NoHeadsNoQueues(heads, q, tip);
    if heads != [] {
      forall i | 0 <= i < |heads| ensures !before(heads[i], heads[0]) {
        Heap.RootIsBest(heads, before, i);
      }
      RootIsBestHead(heads, q, tip, before);
    }
  }

  method BuildHeap<K(!new), T(!new)>(hs: seq<Head<K, T>>, ghost q: Queues<K, T>, ghost tip: T -> nat,
                                     before: Before<K, T>)
    returns (heads: seq<Head<K, T>>)
    requires StrictWeakOrder(before) && Holds(multiset(hs), q, tip)
    ensures Represents(heads, q, tip, before)
  {
    heads := Heap.Init(hs, before);
  }

  /** The root's queue moves on to its next transaction. */
  method ReplaceRoot<K(!new), T(!new)>(hs: seq<Head<K, T>>, next: Head<K, T>, ghost q: Queues<K, T>,
                                       ghost tip: T -> nat, before: Before<K, T>)
    returns (heads: seq<Head<K, T>>)
    requires StrictWeakOrder(before) && Represents(hs, q, tip, before) && hs != []
    requires hs[0].key in q && |q[hs[0].key]| > 1 && next == Head(hs[0].key, q[hs[0].key][1], tip(q[hs[0].key][1]))
    ensures Represents(heads, Advance(q, hs[0].key), tip, before)
  {
    RootIsBest(hs, q, tip, before);
    HoldsReplace(multiset(hs), q, tip, hs[0].key);
    assert multiset(hs[0 := next]) == multiset(hs) - multiset{hs[0]} + multiset{next};
    heads := Heap.FixRoot(hs[0 := next], before);
  }

  /** The root's queue is removed altogether. */
  method RemoveRoot<K(!new), T(!new)>(hs: seq<Head<K, T>>, ghost q: Queues<K, T>, ghost tip: T -> nat,
                                      before: Before<K, T>)
    returns (heads: seq<Head<K, T>>)
    requires StrictWeakOrder(before) && Represents(hs, q, tip, before) && hs != []
    ensures Represents(heads, q - {hs[0].key}, tip, before)
  {
    RootIsBest(hs, q, tip, before);
    HoldsRemove(multiset(hs), q, tip, hs[0].key);
    heads := Heap.Pop(hs, before);
  }
}
