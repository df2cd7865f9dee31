/** The reference for block building: repeatedly take a best head among a set of queues. */
module Merge {
  import opened Basics

  /** The front of one queue, with the tip it is ordered by. */
  datatype Head<K, T> = Head(key: K, tx: T, tip: nat)

  type Queues<K, T> = map<K, seq<T>>

  type Before<!K, !T> = (Head<K, T>, Head<K, T>) -> bool

  ghost predicate Filled<K, T>(q: Queues<K, T>) { forall k :: k in q ==> q[k] != [] }

  function HeadFor<K, T>(q: Queues<K, T>, tip: T -> nat, k: K): (h: Head<K, T>)
    requires k in q && q[k] != []
  {
    Head(k, q[k][0], tip(q[k][0]))
  }

  /** Taking the head of queue `k`. */
  function Advance<K, T>(q: Queues<K, T>, k: K): (r: Queues<K, T>)
    requires k in q && q[k] != []
  {
    if |q[k]| == 1 then q - {k} else q[k := q[k][1..]]
  }

  /** No head sorts before the head of `k`. */
  ghost predicate Best<K, T>(q: Queues<K, T>, tip: T -> nat, before: Before<K, T>, k: K)
  {
    Filled(q) && k in q && forall j :: j in q ==> !before(HeadFor(q, tip, j), HeadFor(q, tip, k))
  }

  /** `out` is obtained by taking best heads until no queue is left. */
  ghost predicate IsMerge<K(!new), T>(q: Queues<K, T>, tip: T -> nat, before: Before<K, T>, out: seq<Head<K, T>>)
    decreases |out|
  {
    if out == [] then q == map[]
    else
      var k := out[0].key;
      Best(q, tip, before, k) && out[0] == HeadFor(q, tip, k) && IsMerge(Advance(q, k), tip, before, out[1..])
  }

  /** The transactions of one queue, in the order they were taken. */
  function Project<K(==), T>(out: seq<Head<K, T>>, k: K): (r: seq<T>)
  {
    if out == [] then []
    else if out[0].key == k then [out[0].tx] + Project(out[1..], k)
    else Project(out[1..], k)
  }

  function QueueOf<K, T>(q: Queues<K, T>, k: K): (r: seq<T>) { if k in q then q[k] else [] }

  /** A merge takes every transaction of every queue exactly once, and keeps the order of each queue. */
  lemma {:induction false} MergeIsExact<K(!new), T>(q: Queues<K, T>, tip: T -> nat, before: Before<K, T>,
                                                    out: seq<Head<K, T>>, k: K)
    requires IsMerge(q, tip, before, out)
    ensures Project(out, k) == QueueOf(q, k)
  {
    if out != [] {
      MergeIsExact(Advance(q, out[0].key), tip, before, out[1..], k);
    }
  }

  /** Heads of different queues are never tied. */
  ghost predicate Decides<K(!new), T(!new)>(before: Before<K, T>)
  {
    (forall a: Head<K, T>, b: Head<K, T> :: before(a, b) ==> !before(b, a)) &&
    (forall a: Head<K, T>, b: Head<K, T> :: a.key != b.key ==> before(a, b) || before(b, a))
  }

  /** Without ties the merge is a function of the queues alone. */
  lemma {:induction false} MergeIsDetermined<K(!new), T(!new)>(q: Queues<K, T>, tip: T -> nat, before: Before<K, T>,
                                                               a: seq<Head<K, T>>, b: seq<Head<K, T>>)
    requires Decides(before) && IsMerge(q, tip, before, a) && IsMerge(q, tip, before, b)
    ensures a == b
  {
    if a != [] && b != [] {
      var j, k := a[0].key, b[0].key;
      assert !before(HeadFor(q, tip, j), HeadFor(q, tip, k)) && !before(HeadFor(q, tip, k), HeadFor(q, tip, j));
      MergeIsDetermined(Advance(q, j), tip, before, a[1..], b[1..]);
      assert a == [a[0]] + a[1..] && b == [b[0]] + b[1..];
    }
  }

  // ---- how much is left -------------------------------------------------------------------------------

  ghost function Places<K, T>(q: Queues<K, T>): (s: set<(K, nat)>)
  {
    set k, i: nat | k in q && i < |q[k]| :: (k, i)
  }

  ghost function Size<K, T>(q: Queues<K, T>): (n: nat) { |Places(q)| }

  lemma AdvanceShrinks<K, T>(q: Queues<K, T>, k: K)
    requires k in q && q[k] != []
    ensures Size(Advance(q, k)) == Size(q) - 1
  {
    var last := (k, |q[k]| - 1);
    assert last in Places(q);
    assert Places(Advance(q, k)) == Places(q) - {last};
  }

  // ---- heads kept in a bag ------------------------------------------------------------------------------

  /** The bag holds exactly the heads of the queues. */
  ghost predicate Holds<K(!new), T(!new)>(bag: multiset<Head<K, T>>, q: Queues<K, T>, tip: T -> nat)
  {
    Filled(q) && forall h: Head<K, T> :: bag[h] == if h.key in q && h == HeadFor(q, tip, h.key) then 1 else 0
  }

  lemma HoldsReplace<K(!new), T(!new)>(bag: multiset<Head<K, T>>, q: Queues<K, T>, tip: T -> nat, k: K)
    requires Holds(bag, q, tip) && k in q && |q[k]| > 1
    ensures Holds(bag - multiset{HeadFor(q, tip, k)} + multiset{HeadFor(Advance(q, k), tip, k)}, Advance(q, k), tip)
  {
    var h, n := HeadFor(q, tip, k), HeadFor(Advance(q, k), tip, k);
    var bag' := bag - multiset{h} + multiset{n};
    forall x: Head<K, T>
      ensures bag'[x] == if x.key in Advance(q, k) && x == HeadFor(Advance(q, k), tip, x.key) then 1 else 0
    {
      assert bag[x] == if x.key in q && x == HeadFor(q, tip, x.key) then 1 else 0;
      assert bag[h] == 1;
    }
  }

  lemma HoldsRemove<K(!new), T(!new)>(bag: multiset<Head<K, T>>, q: Queues<K, T>, tip: T -> nat, k: K)
    requires Holds(bag, q, tip) && k in q
    ensures Holds(bag - multiset{HeadFor(q, tip, k)}, q - {k}, tip)
  {
    var h := HeadFor(q, tip, k);
    forall x: Head<K, T>
      ensures (bag - multiset{h})[x] == if x.key in q - {k} && x == HeadFor(q - {k}, tip, x.key) then 1 else 0
    {
      assert bag[x] == if x.key in q && x == HeadFor(q, tip, x.key) then 1 else 0;
      assert bag[h] == 1;
    }
  }

  lemma HoldsAdd<K(!new), T(!new)>(bag: multiset<Head<K, T>>, q: Queues<K, T>, tip: T -> nat, k: K, s: seq<T>)
    requires Holds(bag, q, tip) && k !in q && s != []
    ensures Holds(bag + multiset{Head(k, s[0], tip(s[0]))}, q[k := s], tip)
  {
    var n := Head(k, s[0], tip(s[0]));
    forall x: Head<K, T>
      ensures (bag + multiset{n})[x] == if x.key in q[k := s] && x == HeadFor(q[k := s], tip, x.key) then 1 else 0
    {
      assert bag[x] == if x.key in q && x == HeadFor(q, tip, x.key) then 1 else 0;
    }
  }

  /** An element of the bag that nothing precedes is the head of a best queue. */
  lemma RootIsBestHead<K(!new), T(!new)>(heads: seq<Head<K, T>>, q: Queues<K, T>, tip: T -> nat, before: Before<K, T>)
    requires Holds(multiset(heads), q, tip) && heads != []
    requires forall i :: 0 <= i < |heads| ==> !before(heads[i], heads[0])
    ensures Best(q, tip, before, heads[0].key) && heads[0] == HeadFor(q, tip, heads[0].key)
  {
    assert heads[0] in multiset(heads);
    forall j | j in q ensures !before(HeadFor(q, tip, j), HeadFor(q, tip, heads[0].key)) {
      assert multiset(heads)[HeadFor(q, tip, j)] == 1;
      assert HeadFor(q, tip, j) in heads;
    }
  }

  lemma NoHeadsNoQueues<K(!new), T(!new)>(heads: seq<Head<K, T>>, q: Queues<K, T>, tip: T -> nat)
    requires Holds(multiset(heads), q, tip)
    ensures heads == [] <==> q == map[]
  {
    if q != map[] {
      var k :| k in q;
      assert HeadFor(q, tip, k) in multiset(heads);
    }
    if heads != [] { assert heads[0] in multiset(heads); }
  }
}
