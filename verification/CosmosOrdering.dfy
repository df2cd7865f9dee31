/** Cosmos transactions by price and nonce: one queue per signer bucket, a heap of the bucket heads. */
module CosmosOrdering {
  import opened Basics
  import opened Merge
  import opened HeadHeap
  import opened TxKeys
  import opened TxStore

  const UINT256 := 0x1_0000_0000_0000_0000_0000_0000_0000_0000_0000_0000_0000_0000_0000_0000_0000_0000

  /** The amount offered in `denom`; if a denomination occurs twice, the last one counts. */
  function AmountIn(coins: seq<Coin>, denom: Bytes): (r: nat)
  {
    if coins == [] then 0
    else
      var last := coins[|coins| - 1];
      if last.denom == denom then last.amount else AmountIn(coins[..|coins| - 1], denom)
  }

  /** Price per unit of gas; none for a transaction without fee, without gas, or priced beyond 256 bits. */
  function GasPrice(tx: Tx, denom: Bytes): (p: Option<nat>)
  {
    if tx.fee.None? || tx.fee.value.gas == 0 then None
    else
      var price := AmountIn(tx.fee.value.coins, denom) / tx.fee.value.gas;
      if price >= UINT256 then None else Some(price)
  }

  /** What a transaction offers above the base fee, and zero when it offers nothing valid. */
  function EffectiveTip(tx: Tx, denom: Bytes, baseFee: Option<nat>): (tip: nat)
  {
    match GasPrice(tx, denom)
    case None => 0
    case Some(price) =>
      match baseFee
      case None => price
      case Some(fee) => if price < fee then 0 else price - fee
  }

  /** Coin `k` is the last one of `denom`. */
  ghost predicate LastOf(coins: seq<Coin>, denom: Bytes, k: nat)
  {
    k < |coins| && coins[k].denom == denom && forall l :: k < l < |coins| ==> coins[l].denom != denom
  }

  lemma {:induction false} AmountOfLast(coins: seq<Coin>, denom: Bytes, k: nat)
    requires LastOf(coins, denom, k)
    ensures AmountIn(coins, denom) == coins[k].amount
  {
    var most := coins[..|coins| - 1];
    if k < |most| {
      assert coins[|most|].denom != denom;
      AmountOfLast(most, denom, k);
    }
  }

  lemma {:induction false} AmountOfNone(coins: seq<Coin>, denom: Bytes)
    requires forall l :: 0 <= l < |coins| ==> coins[l].denom != denom
    ensures AmountIn(coins, denom) == 0
  {
    if coins != [] { AmountOfNone(coins[..|coins| - 1], denom); }
  }

  /** Without a fee or without gas there is no tip. */
  lemma NoTipWithoutGas(tx: Tx, denom: Bytes, baseFee: Option<nat>)
    requires tx.fee.None? || tx.fee.value.gas == 0
    ensures EffectiveTip(tx, denom, baseFee) == 0
  {
  }

  /** The tip is the whole number of units that each unit of gas pays above the base fee; at a price beyond 256 bits there
      is none. */
  lemma TipIsPerGas(tx: Tx, denom: Bytes, baseFee: Option<nat>, fee: FeeData, amount: nat)
    requires tx.fee == Some(fee) && fee.gas > 0
    requires (exists k: nat :: LastOf(fee.coins, denom, k) && amount == fee.coins[k].amount) ||
             (amount == 0 && forall l :: 0 <= l < |fee.coins| ==> fee.coins[l].denom != denom)
    ensures var f, tip := FeeValue(baseFee), EffectiveTip(tx, denom, baseFee);
            if amount >= UINT256 * fee.gas then tip == 0
            else
              && (tip == 0 <==> amount < (f + 1) * fee.gas)
              && (tip > 0 ==> (f + tip) * fee.gas <= amount < (f + tip + 1) * fee.gas)
  {
    if k: nat :| LastOf(fee.coins, denom, k) && amount == fee.coins[k].amount {
      AmountOfLast(fee.coins, denom, k);
    } else {
      AmountOfNone(fee.coins, denom);
    }
    var price := amount / fee.gas;
    QuotientIff(amount, fee.gas, UINT256);
    QuotientIff(amount, fee.gas, FeeValue(baseFee) + 1);
    QuotientIff(amount, fee.gas, price);
    QuotientIff(amount, fee.gas, price + 1);
  }

  function TipBy(denom: Bytes, baseFee: Option<nat>): (f: Stored -> nat) { (s: Stored) => EffectiveTip(s.tx, denom, baseFee) }

  /** Higher tip first; then the lower signer key; within one bucket, the bucket order. */
  predicate Less(a: Head<Bytes, Stored>, b: Head<Bytes, Stored>)
  {
    if a.tip != b.tip then a.tip > b.tip
    else if a.key != b.key then LexLess(a.key, b.key)
    else Precedes(a.tx, b.tx)
  }

  function PriceThenKey(): (f: Before<Bytes, Stored>)
  {
    (a: Head<Bytes, Stored>, b: Head<Bytes, Stored>) => Less(a, b)
  }

  /** `Less` is a strict weak order, and a total one on heads of different buckets. */
  lemma LessIsTotal()
    ensures StrictWeakOrder(PriceThenKey()) && Decides(PriceThenKey())
  {
    LexIsOrder();
    PrecedesIsOrder();
    forall a: Head<Bytes, Stored>, b: Head<Bytes, Stored> | Less(a, b) ensures !Less(b, a) {
      assert !(LexOrder()(a.key, b.key) && LexOrder()(b.key, a.key));
      assert !(PrecedesOrder()(a.tx, b.tx) && PrecedesOrder()(b.tx, a.tx));
    }
    forall a: Head<Bytes, Stored>, b: Head<Bytes, Stored>, c: Head<Bytes, Stored> | !Less(a, b) && !Less(b, c)
      ensures !Less(a, c)
    {
      LexTotal(a.key, b.key);
      LexTotal(b.key, c.key);
      LexTotal(a.key, c.key);
      if a.tip == b.tip == c.tip {
        assert !LexOrder()(a.key, b.key) && !LexOrder()(b.key, c.key);
        assert !LexOrder()(a.key, c.key);
        if a.key == b.key == c.key {
          assert !PrecedesOrder()(a.tx, b.tx) && !PrecedesOrder()(b.tx, c.tx);
          assert !PrecedesOrder()(a.tx, c.tx);
        }
      }
    }
    forall a: Head<Bytes, Stored>, b: Head<Bytes, Stored> | a.key != b.key ensures Less(a, b) || Less(b, a) {
      LexTotal(a.key, b.key);
    }
  }

  /** No base fee is a base fee of zero. */
  function FeeValue(baseFee: Option<nat>): (r: nat) { if baseFee.Some? then baseFee.value else 0 }

  /** Whatever does not rank lower under one base fee does not rank lower under the other. */
  ghost predicate TipsAgree(denom: Bytes, orderFee: Option<nat>, compareFee: Option<nat>)
  {
    forall a: Tx, b: Tx ::
      EffectiveTip(a, denom, orderFee) >= EffectiveTip(b, denom, orderFee) ==>
      EffectiveTip(a, denom, compareFee) >= EffectiveTip(b, denom, compareFee)
  }

  /** This is so precisely when the second fee is not the lower one, or no price exceeds it. */
  lemma TipsAgreeIff(denom: Bytes, orderFee: Option<nat>, compareFee: Option<nat>)
    ensures TipsAgree(denom, orderFee, compareFee) <==>
              FeeValue(orderFee) <= FeeValue(compareFee) || FeeValue(compareFee) >= UINT256 - 1
  {
    var fee := FeeValue(compareFee);
    if fee < FeeValue(orderFee) && fee < UINT256 - 1 {
      var a := Tx(0, None, None, Some(FeeData([], 1)));
      var b := Tx(1, None, None, Some(FeeData([Coin(denom, fee + 1)], 1)));
      assert EffectiveTip(a, denom, orderFee) == EffectiveTip(b, denom, orderFee) == 0;
      assert EffectiveTip(a, denom, compareFee) == 0 && EffectiveTip(b, denom, compareFee) == 1;
    }
  }

  /** The two fees rank all transactions alike, ties included, exactly when they are equal or no price exceeds either. */
  lemma TipsSameIff(denom: Bytes, orderFee: Option<nat>, compareFee: Option<nat>)
    ensures TipsAgree(denom, orderFee, compareFee) && TipsAgree(denom, compareFee, orderFee) <==>
              FeeValue(orderFee) == FeeValue(compareFee) ||
              (FeeValue(orderFee) >= UINT256 - 1 && FeeValue(compareFee) >= UINT256 - 1)
  {
    TipsAgreeIff(denom, orderFee, compareFee);
    TipsAgreeIff(denom, compareFee, orderFee);
  }

  /** The buckets of a snapshot that hold anything. */
  ghost function NonEmptyQueues(txs: map<Bytes, seq<Stored>>): (q: Queues<Bytes, Stored>)
  {
    map k | k in txs && txs[k] != [] :: txs[k]
  }

  ghost predicate QueuesOf(q: Queues<Bytes, Stored>, txs: map<Bytes, seq<Stored>>, done: set<Bytes>)
  {
    forall k :: if k in txs && k in done && txs[k] != [] then k in q && q[k] == txs[k] else k !in q
  }

  ghost predicate RestOf(q: Queues<Bytes, Stored>, rest: map<Bytes, seq<Stored>>)
  {
    forall k :: k in q ==> k in rest && q[k] != [] && q[k][1..] == rest[k]
  }

  /** Ranges over the buckets in any order, splitting off the head of each. */
  method CollectHeads(txs: map<Bytes, seq<Stored>>, denom: Bytes, baseFee: Option<nat>)
    returns (hs: seq<Head<Bytes, Stored>>, rest: map<Bytes, seq<Stored>>, ghost q: Queues<Bytes, Stored>)
    ensures QueuesOf(q, txs, txs.Keys) && RestOf(q, rest)
    ensures Holds(multiset(hs), q, TipBy(denom, baseFee))
  {
    hs, rest, q := [], txs, map[];
    var todo := txs.Keys;
    ghost var done: set<Bytes> := {};
    while todo != {}
      invariant done !! todo && done + todo == txs.Keys
      invariant QueuesOf(q, txs, done) && RestOf(q, rest)
      invariant Holds(multiset(hs), q, TipBy(denom, baseFee))
      invariant forall k :: k in todo ==> k in rest && rest[k] == txs[k]
      decreases todo
    {
      var k :| k in todo;
      var bucket := rest[k];
      if |bucket| == 0 {
        rest := rest - {k};
      } else {
        HoldsAdd(multiset(hs), q, TipBy(denom, baseFee), k, bucket);
        q := q[k := bucket];
        hs := hs + [Head(k, bucket[0], EffectiveTip(bucket[0].tx, denom, baseFee))];
        rest := rest[k := bucket[1..]];
      }
      MoveOver(done, todo, k);
      todo := todo - {k};
      done := done + {k};
    }
    assert done == txs.Keys;
  }

  /** Builds the iterator, or none when there is nothing to iterate over. */
  method NewIterator(txs: map<Bytes, seq<Stored>>, denom: Bytes, baseFee: Option<nat>)
    returns (it: CosmosTransactionsByPriceAndNonce?)
    ensures it == null <==> NonEmptyQueues(txs) == map[]
    ensures it != null ==> fresh(it) && it.Valid() && it.queues == NonEmptyQueues(txs)
    ensures it != null ==> it.denom == denom && it.baseFee == baseFee
  {
    LessIsTotal();
    var hs, rest, q := CollectHeads(txs, denom, baseFee);
    assert q == NonEmptyQueues(txs);
    NoHeadsNoQueues(hs, q, TipBy(denom, baseFee));
    if |hs| == 0 {
      return null;
    }
    hs := BuildHeap(hs, q, TipBy(denom, baseFee), PriceThenKey());
    it := new CosmosTransactionsByPriceAndNonce(hs, rest, q, denom, baseFee);
  }

  class CosmosTransactionsByPriceAndNonce {
    var txs: map<Bytes, seq<Stored>>
    var heads: seq<Head<Bytes, Stored>>
    const denom: Bytes
    const baseFee: Option<nat>
    ghost var queues: Queues<Bytes, Stored>

    ghost predicate Valid()
      reads this
    {
      Represents(heads, queues, TipBy(denom, baseFee), PriceThenKey()) && RestOf(queues, txs)
    }

    constructor (heads: seq<Head<Bytes, Stored>>, txs: map<Bytes, seq<Stored>>, ghost q: Queues<Bytes, Stored>,
                 denom: Bytes, baseFee: Option<nat>)
      requires Represents(heads, q, TipBy(denom, baseFee), PriceThenKey()) && RestOf(q, txs)
      ensures Valid() && queues == q && this.denom == denom && this.baseFee == baseFee
    {
      this.heads := heads;
      this.txs := txs;
      this.queues := q;
      this.denom := denom;
      this.baseFee := baseFee;
    }

    method Tx() returns (r: Option<Stored>)
      requires Valid()
      ensures r.None? <==> queues == map[]
      ensures r.Some? ==> heads != [] && r.value == heads[0].tx
      ensures r.Some? ==> Best(queues, TipBy(denom, baseFee), PriceThenKey(), heads[0].key)
      ensures r.Some? ==> heads[0] == HeadFor(queues, TipBy(denom, baseFee), heads[0].key)
    {
      LessIsTotal();
      RootIsBest(heads, queues, TipBy(denom, baseFee), PriceThenKey());
      if |heads| == 0 {
        return None;
      }
      return Some(heads[0].tx);
    }

    /** Moves the best bucket on; false when nothing is left. */
    method Next() returns (more: bool)
      requires Valid()
      modifies this
      ensures Valid()
      ensures old(queues) == map[] ==> queues == map[]
      ensures old(heads) != [] ==>
                old(heads[0].key) in old(queues) && old(queues)[old(heads[0].key)] != [] &&
                queues == Advance(old(queues), old(heads[0].key))
      ensures more <==> queues != map[]
    {
      LessIsTotal();
      RootIsBest(heads, queues, TipBy(denom, baseFee), PriceThenKey());
      if |heads| == 0 {
        return false;
      }
      AdvanceRoot();
      RootIsBest(heads, queues, TipBy(denom, baseFee), PriceThenKey());
      return |heads| != 0;
    }

    method AdvanceRoot()
      requires Valid() && heads != []
      modifies this
      ensures Valid()
      ensures old(heads[0].key) in old(queues) && old(queues)[old(heads[0].key)] != []
      ensures queues == Advance(old(queues), old(heads[0].key))
    {
      hide Represents;
      LessIsTotal();
      RootIsBest(heads, queues, TipBy(denom, baseFee), PriceThenKey());
      var k := heads[0].key;
      var bucket := if k in txs then txs[k] else [];
      if |bucket| > 0 {
        assert queues[k][1] == bucket[0];
        var next := Head(k, bucket[0], EffectiveTip(bucket[0].tx, denom, baseFee));
        var hs := ReplaceRoot(heads, next, queues, TipBy(denom, baseFee), PriceThenKey());
        heads := hs;
        txs := txs[k := bucket[1..]];
        queues := Advance(queues, k);
      } else {
        var hs := RemoveRoot(heads, queues, TipBy(denom, baseFee), PriceThenKey());
        heads := hs;
        queues := queues - {k};
      }
    }
  }
}
