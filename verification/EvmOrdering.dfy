/** EVM transactions by price and nonce: one queue per account, a heap of the account heads. */
module EvmOrdering {
  import opened Basics
  import opened Merge
  import opened HeadHeap

  type Address = Bytes

  datatype EvmTx = EvmTx(hash: nat, tipCap: nat, feeCap: nat, time: int)

  /** The effective miner tip, or none when the fee cap does not cover the base fee. */
  function MinerTip(tx: EvmTx, baseFee: Option<nat>): (tip: Option<nat>)
  {
    match baseFee
    case None => Some(tx.tipCap)
    case Some(fee) =>
      if tx.feeCap < fee then None
      else if tx.feeCap - fee > tx.tipCap then Some(tx.tipCap)
      else Some(tx.feeCap - fee)
  }

  /** The EIP-1559 meaning of the tip: what the sender pays above the base fee, capped by both caps. */
  lemma MinerTipIsPriorityFee(tx: EvmTx, fee: nat)
    ensures MinerTip(tx, Some(fee)).Some? <==> tx.feeCap >= fee
    ensures MinerTip(tx, Some(fee)).Some? ==>
              var t := MinerTip(tx, Some(fee)).value;
              && fee + t <= tx.feeCap && t <= tx.tipCap
              && (t == tx.tipCap || fee + t == tx.feeCap)
  {}

  function TipBy(baseFee: Option<nat>): (f: EvmTx -> nat)
  {
    tx => if MinerTip(tx, baseFee).Some? then MinerTip(tx, baseFee).value else 0
  }

  /** Higher tip first; at equal tips, the transaction seen earlier. */
  function PriceThenTime(): (f: Before<Address, EvmTx>)
  {
    (a: Head<Address, EvmTx>, b: Head<Address, EvmTx>) => if a.tip == b.tip then a.tx.time < b.tx.time else a.tip > b.tip
  }

  /** The longest prefix whose fee caps cover the base fee. */
  function Payable(txs: seq<EvmTx>, baseFee: Option<nat>): (r: seq<EvmTx>)
    ensures r <= txs
    ensures forall i :: 0 <= i < |r| ==> MinerTip(r[i], baseFee).Some?
    ensures |r| < |txs| ==> MinerTip(txs[|r|], baseFee).None?
  {
    if txs == [] || MinerTip(txs[0], baseFee).None? then []
    else [txs[0]] + Payable(txs[1..], baseFee)
  }

  /** The queues a set of pending transactions stands for: per account, its payable prefix. */
  ghost function PayableQueues(txs: map<Address, seq<EvmTx>>, baseFee: Option<nat>): (q: Queues<Address, EvmTx>)
  {
    map a | a in txs && Payable(txs[a], baseFee) != [] :: Payable(txs[a], baseFee)
  }

  lemma PriceThenTimeIsOrder()
    ensures StrictWeakOrder(PriceThenTime())
  {}

  /** `q` holds the payable prefixes of the accounts in `done`. */
  ghost predicate QueuesOf(q: Queues<Address, EvmTx>, txs: map<Address, seq<EvmTx>>, done: set<Address>,
                           baseFee: Option<nat>)
  {
    forall a :: if a in txs && a in done && Payable(txs[a], baseFee) != []
                then a in q && q[a] == Payable(txs[a], baseFee) else a !in q
  }

  /** `rest` is what follows the heads. */
  ghost predicate RestOf(q: Queues<Address, EvmTx>, rest: map<Address, seq<EvmTx>>, baseFee: Option<nat>)
  {
    forall a :: a in q ==> a in rest && q[a] != [] && q[a][1..] == Payable(rest[a], baseFee)
  }

  /** Ranges over the pending map in any order, splitting off every payable head. */
  method CollectHeads(pending: map<Address, seq<EvmTx>>, baseFee: Option<nat>)
    returns (hs: seq<Head<Address, EvmTx>>, rest: map<Address, seq<EvmTx>>, ghost q: Queues<Address, EvmTx>)
    requires forall a :: a in pending ==> pending[a] != []
    ensures QueuesOf(q, pending, pending.Keys, baseFee) && RestOf(q, rest, baseFee)
    ensures Holds(multiset(hs), q, TipBy(baseFee))
  {
    hs, rest, q := [], pending, map[];
    var todo := pending.Keys;
    while todo != {}
      invariant todo <= pending.Keys
      invariant QueuesOf(q, pending, pending.Keys - todo, baseFee) && RestOf(q, rest, baseFee)
      invariant Holds(multiset(hs), q, TipBy(baseFee))
      invariant forall a :: a in todo ==> a in rest && rest[a] == pending[a]
      decreases todo
    {
      var from :| from in todo;
      var accTxs := rest[from];
      var tip := MinerTip(accTxs[0], baseFee);
      if tip.None? {
        rest := rest - {from};
      } else {
        HoldsAdd(multiset(hs), q, TipBy(baseFee), from, Payable(accTxs, baseFee));
        q := q[from := Payable(accTxs, baseFee)];
        hs := hs + [Head(from, accTxs[0], tip.value)];
        rest := rest[from := accTxs[1..]];
      }
      todo := todo - {from};
    }
    assert pending.Keys - todo == pending.Keys;
  }

  class TransactionsByPriceAndNonce {
    var txs: map<Address, seq<EvmTx>>
    var heads: seq<Head<Address, EvmTx>>
    const baseFee: Option<nat>
    ghost var queues: Queues<Address, EvmTx>

    ghost predicate Valid()
      reads this
    {
      Represents(heads, queues, TipBy(baseFee), PriceThenTime()) && RestOf(queues, txs, baseFee)
    }

    constructor (pending: map<Address, seq<EvmTx>>, baseFee: Option<nat>)
      requires forall a :: a in pending ==> pending[a] != []
      ensures Valid() && this.baseFee == baseFee
      ensures queues == PayableQueues(pending, baseFee)
    {
      PriceThenTimeIsOrder();
      var hs, rest, q := CollectHeads(pending, baseFee);
      hs := BuildHeap(hs, q, TipBy(baseFee), PriceThenTime());
      this.txs := rest;
      this.heads := hs;
      this.baseFee := baseFee;
      this.queues := q;
    }

    method Peek() returns (r: Option<(EvmTx, nat)>)
      requires Valid()
      ensures r.None? <==> queues == map[]
      ensures r.Some? ==> heads != [] && r.value == (heads[0].tx, heads[0].tip)
      ensures r.Some? ==> Best(queues, TipBy(baseFee), PriceThenTime(), heads[0].key)
      ensures r.Some? ==> heads[0] == HeadFor(queues, TipBy(baseFee), heads[0].key)
    {
      PriceThenTimeIsOrder();
      RootIsBest(heads, queues, TipBy(baseFee), PriceThenTime());
      if |heads| == 0 {
        return None;
      }
      return Some((heads[0].tx, heads[0].tip));
    }

    /** Replaces the best head by the next payable transaction of its account, or retires the account. */
    method Shift()
      requires Valid() && heads != []
      modifies this
      ensures Valid()
      ensures old(heads[0].key) in old(queues) && queues == Advance(old(queues), old(heads[0].key))
    {
      hide Represents;
      PriceThenTimeIsOrder();
      RootIsBest(heads, queues, TipBy(baseFee), PriceThenTime());
      var acc := heads[0].key;
      if acc in txs && |txs[acc]| > 0 {
        var rest := txs[acc];
        var tip := MinerTip(rest[0], baseFee);
        if tip.Some? {
          assert queues[acc][1] == rest[0];
          var hs := ReplaceRoot(heads, Head(acc, rest[0], tip.value), queues, TipBy(baseFee), PriceThenTime());
          heads := hs;
          txs := txs[acc := rest[1..]];
          queues := Advance(queues, acc);
          return;
        }
      }
      var hs := RemoveRoot(heads, queues, TipBy(baseFee), PriceThenTime());
      heads := hs;
      queues := queues - {acc};
    }

    /** Removes the best head together with everything queued behind it. */
    method Pop()
      requires Valid() && heads != []
      modifies this
      ensures Valid()
      ensures old(heads[0].key) in old(queues) && queues == old(queues) - {old(heads[0].key)}
    {
      hide Represents;
      PriceThenTimeIsOrder();
      RootIsBest(heads, queues, TipBy(baseFee), PriceThenTime());
      var hs := RemoveRoot(heads, queues, TipBy(baseFee), PriceThenTime());
      queues := queues - {heads[0].key};
      heads := hs;
    }

    method Empty() returns (r: bool)
      requires Valid()
      ensures r <==> queues == map[]
    {
      PriceThenTimeIsOrder();
      RootIsBest(heads, queues, TipBy(baseFee), PriceThenTime());
      r := |heads| == 0;
    }
  }
}
