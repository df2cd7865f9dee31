/** Adding a batch of transactions: split across the subpools, then join their errors in the original order. */
module SubpoolAdd {
  import opened Basics

  datatype Subpool<!T, !E> = Subpool(filter: T -> bool, add: seq<T> -> seq<E>)

  /** The first subpool from `j` on that accepts a transaction, or -1. */
  function Owner<T, E>(pools: seq<Subpool<T, E>>, tx: T, j: nat): (r: int)
    requires j <= |pools|
    ensures r == -1 || j <= r < |pools|
    decreases |pools| - j
  {
    if j == |pools| then -1 else if pools[j].filter(tx) then j else Owner(pools, tx, j + 1)
  }

  /** What subpool `j` receives of the first `n` transactions. */
  function Batch<T, E>(pools: seq<Subpool<T, E>>, txs: seq<T>, j: nat, n: nat): (r: seq<T>)
    requires n <= |txs|
  {
    if n == 0 then []
    else if Owner(pools, txs[n - 1], 0) == j then Batch(pools, txs, j, n - 1) + [txs[n - 1]]
    else Batch(pools, txs, j, n - 1)
  }

  /** A subpool answers every transaction it is given. */
  ghost predicate AnswersAll<T(!new), E>(pools: seq<Subpool<T, E>>)
  {
    forall j, s :: 0 <= j < |pools| ==> |pools[j].add(s)| == |s|
  }

  /** `e` is what the transaction's own subpool said about it, at its place in the batch. */
  ghost predicate IsErrorFor<T, E>(pools: seq<Subpool<T, E>>, txs: seq<T>, unsupported: T -> E, i: nat, e: E)
    requires i < |txs|
  {
    var j := Owner(pools, txs[i], 0);
    if j < 0 then e == unsupported(txs[i])
    else
      var answers, place := pools[j].add(Batch(pools, txs, j, |txs|)), |Batch(pools, txs, j, i)|;
      place < |answers| && e == answers[place]
  }

  lemma {:induction false} BatchGrows<T, E>(pools: seq<Subpool<T, E>>, txs: seq<T>, j: nat, m: nat, n: nat)
    requires m <= n <= |txs|
    ensures Batch(pools, txs, j, m) <= Batch(pools, txs, j, n)
  {
    if m < n { BatchGrows(pools, txs, j, m, n - 1); }
  }

  /** A transaction has its place in its subpool's batch, and that place holds it. */
  lemma BatchHolds<T, E>(pools: seq<Subpool<T, E>>, txs: seq<T>, i: nat)
    requires i < |txs| && Owner(pools, txs[i], 0) >= 0
    ensures var j := Owner(pools, txs[i], 0);
            && |Batch(pools, txs, j, i)| < |Batch(pools, txs, j, |txs|)|
            && Batch(pools, txs, j, |txs|)[|Batch(pools, txs, j, i)|] == txs[i]
  {
    BatchGrows(pools, txs, Owner(pools, txs[i], 0), i + 1, |txs|);
  }

  method FindOwner<T, E>(pools: seq<Subpool<T, E>>, tx: T) returns (split: int)
    ensures split == Owner(pools, tx, 0)
  {
    split := -1;
    for j := 0 to |pools|
      invariant split == -1 && Owner(pools, tx, 0) == Owner(pools, tx, j)
    {
      if pools[j].filter(tx) {
        return j;
      }
    }
  }

  /** Marks which subpool each transaction goes to, and fills the batches. */
  method Split<T, E>(pools: seq<Subpool<T, E>>, txs: seq<T>) returns (txsets: seq<seq<T>>, splits: seq<int>)
    ensures |txsets| == |pools| && forall j :: 0 <= j < |pools| ==> txsets[j] == Batch(pools, txs, j, |txs|)
    ensures |splits| == |txs| && forall i :: 0 <= i < |txs| ==> splits[i] == Owner(pools, txs[i], 0)
  {
    txsets := seq(|pools|, _ => []);
    splits := [];
    for i := 0 to |txs|
      invariant |txsets| == |pools| && forall j :: 0 <= j < |pools| ==> txsets[j] == Batch(pools, txs, j, i)
      invariant |splits| == i && forall k :: 0 <= k < i ==> splits[k] == Owner(pools, txs[k], 0)
    {
      var j := FindOwner(pools, txs[i]);
      if j != -1 {
        txsets := txsets[j := txsets[j] + [txs[i]]];
      }
      splits := splits + [j];
    }
  }

  /** How many answers of subpool `j` the first `i` transactions have used. */
  ghost function Used<T, E>(pools: seq<Subpool<T, E>>, txs: seq<T>, j: nat, i: nat): (n: nat)
    requires i <= |txs|
  {
    |Batch(pools, txs, j, i)|
  }

  lemma UsedStep<T(!new), E>(pools: seq<Subpool<T, E>>, txs: seq<T>, i: nat)
    requires AnswersAll(pools) && i < |txs|
    ensures forall j: nat :: Used(pools, txs, j, i + 1) == Used(pools, txs, j, i) + (if Owner(pools, txs[i], 0) == j then 1 else 0)
    ensures var j := Owner(pools, txs[i], 0);
            j >= 0 ==> Used(pools, txs, j, i) < |pools[j].add(Batch(pools, txs, j, |txs|))|
  {
    if Owner(pools, txs[i], 0) >= 0 {
      BatchHolds(pools, txs, i);
    }
  }

  /** Takes the errors off the fronts of the subpools' answers, in the original order. */
  method Join<T(!new), E>(pools: seq<Subpool<T, E>>, txs: seq<T>, unsupported: T -> E, splits: seq<int>, errsets0: seq<seq<E>>)
    returns (errs: seq<E>)
    requires AnswersAll(pools)
    requires |splits| == |txs| && forall i :: 0 <= i < |txs| ==> splits[i] == Owner(pools, txs[i], 0)
    requires |errsets0| == |pools|
    requires forall j :: 0 <= j < |pools| ==> errsets0[j] == pools[j].add(Batch(pools, txs, j, |txs|))
    ensures |errs| == |txs| && forall i :: 0 <= i < |txs| ==> IsErrorFor(pools, txs, unsupported, i, errs[i])
  {
    hide Batch, Owner, AnswersAll;
    var errsets := errsets0;
    errs := [];
    NoneUsed(pools, txs);
    for i := 0 to |txs|
      invariant |errs| == i && |errsets| == |pools|
      invariant forall j :: 0 <= j < |pools| ==>
                  Used(pools, txs, j, i) <= |errsets0[j]| && errsets[j] == errsets0[j][Used(pools, txs, j, i)..]
      invariant forall k :: 0 <= k < i ==> IsErrorFor(pools, txs, unsupported, k, errs[k])
    {
      var split := splits[i];
      UsedStep(pools, txs, i);
      if split == -1 {
        errs := errs + [unsupported(txs[i])];
      } else {
        errs := errs + [errsets[split][0]];
        errsets := errsets[split := errsets[split][1..]];
      }
    }
  }

  lemma NoneUsed<T, E>(pools: seq<Subpool<T, E>>, txs: seq<T>)
    ensures forall j: nat :: Used(pools, txs, j, 0) == 0
  {}

  method Add<T(!new), E>(pools: seq<Subpool<T, E>>, txs: seq<T>, unsupported: T -> E) returns (errs: seq<E>)
    requires AnswersAll(pools)
    ensures |errs| == |txs| && forall i :: 0 <= i < |txs| ==> IsErrorFor(pools, txs, unsupported, i, errs[i])
  {
    var txsets, splits := Split(pools, txs);
    var errsets: seq<seq<E>> := [];
    for j := 0 to |pools|
      invariant |errsets| == j && forall k :: 0 <= k < j ==> errsets[k] == pools[k].add(txsets[k])
    {
      errsets := errsets + [pools[j].add(txsets[j])];
    }
    errs := Join(pools, txs, unsupported, splits, errsets);
  }
}
