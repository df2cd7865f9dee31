/** Building a block from the pending EVM transactions and the Cosmos snapshot, and when it goes by fee. */
module BlockBuilding {
  import opened Basics
  import opened Merge
  import HeadHeap
  import opened TxKeys
  import opened TxStore
  import opened BlockIterator
  import Evm = EvmOrdering
  import Cosmos = CosmosOrdering

  type Pending = map<Evm.Address, seq<Evm.EvmTx>>

  // ---- priority by fee ------------------------------------------------------------------------------------------

  /** The largest 256-bit number. */
  const MAX_PRICE: nat := Cosmos.UINT256 - 1

  function EvmTip(tx: Evm.EvmTx, base: Option<nat>): (tip: nat) { Evm.TipBy(base)(tx) }

  function CosmosTip(s: Stored, denom: Bytes, base: Option<nat>): (tip: nat) { Cosmos.EffectiveTip(s.tx, denom, base) }

  function TipOf(p: Picked, denom: Bytes, base: Option<nat>): (tip: nat)
  {
    if p.FromEvm? then EvmTip(p.evm.tx, base) else CosmosTip(p.cosmos.tx, denom, base)
  }

  /** Under one base fee for both pools no head has a higher tip, and at equal tips the EVM pool goes first. */
  ghost predicate TakesHighest(e: EvmQueues, c: CosmosQueues, denom: Bytes, base: Option<nat>, p: Picked)
    requires Filled(e) && Filled(c)
  {
    var tip := TipOf(p, denom, base);
    && (forall a :: a in e ==> if p.FromEvm? then EvmTip(e[a][0], base) <= tip else EvmTip(e[a][0], base) < tip)
    && (forall k :: k in c ==> CosmosTip(c[k][0], denom, base) <= tip)
  }

  /** Every step takes a head with a highest tip, until both pools are empty. */
  ghost predicate IsBlock(e: EvmQueues, c: CosmosQueues, denom: Bytes, base: Option<nat>, out: seq<Picked>)
    decreases |out|
  {
    if out == [] then e == map[] && c == map[]
    else
      && Filled(e) && Filled(c) && TakesHighest(e, c, denom, base, out[0])
      && match out[0]
         case FromEvm(h) =>
           h.key in e && h.tx == e[h.key][0] && IsBlock(Merge.Advance(e, h.key), c, denom, base, out[1..])
         case FromCosmos(h) =>
           h.key in c && h.tx == c[h.key][0] && IsBlock(e, Merge.Advance(c, h.key), denom, base, out[1..])
  }

  /** What the pool admits: both caps have 256 bits, and the tip is within the fee cap. */
  predicate WellPriced(tx: Evm.EvmTx) { tx.tipCap <= tx.feeCap <= MAX_PRICE }

  ghost predicate PricedQueues(e: EvmQueues)
  {
    Filled(e) && forall a, i :: a in e && 0 <= i < |e[a]| ==> WellPriced(e[a][i])
  }

  /** All fees have 256 bits. */
  predicate FeesInRange(fees: Fees, base: Option<nat>)
  {
    && Cosmos.FeeValue(fees.evm) <= MAX_PRICE && Cosmos.FeeValue(fees.order) <= MAX_PRICE
    && Cosmos.FeeValue(fees.compare) <= MAX_PRICE && Cosmos.FeeValue(base) <= MAX_PRICE
  }

  /** The EVM pool and the comparison go by the base fee and the Cosmos heap by no higher one; or no price exceeds the
      fee of the comparison, nor the base fee. */
  predicate FeesAgree(fees: Fees, base: Option<nat>)
  {
    var fee := Cosmos.FeeValue(base);
    || (Cosmos.FeeValue(fees.evm) == fee && Cosmos.FeeValue(fees.compare) == fee && Cosmos.FeeValue(fees.order) <= fee)
    || (Cosmos.FeeValue(fees.compare) == MAX_PRICE && fee == MAX_PRICE)
  }

  /** For what the pool admits, no base fee is a base fee of zero. */
  lemma EvmTipByValue(tx: Evm.EvmTx, a: Option<nat>, b: Option<nat>)
    requires WellPriced(tx) && Cosmos.FeeValue(a) == Cosmos.FeeValue(b)
    ensures EvmTip(tx, a) == EvmTip(tx, b)
  {
  }

  lemma NoTipAtMax(tx: Evm.EvmTx, s: Stored, denom: Bytes, fee: Option<nat>)
    requires Cosmos.FeeValue(fee) == MAX_PRICE
    ensures WellPriced(tx) ==> EvmTip(tx, fee) == 0
    ensures CosmosTip(s, denom, fee) == 0
  {
  }

  /** Among EVM heads a best one has a highest tip under the fee of that pool. */
  lemma BestEvmIsHighest(e: EvmQueues, fees: Fees, a: Evm.Address, b: Evm.Address)
    requires BestEvm(e, fees, a) && b in e
    ensures EvmTip(e[b][0], fees.evm) <= EvmTip(e[a][0], fees.evm)
  {
    assert !Evm.PriceThenTime()(EvmHeadOf(e, fees, b), EvmHeadOf(e, fees, a));
  }

  /** Among Cosmos heads a best one has a highest tip under any fee that is not lower than the heap's. */
  lemma BestCosmosIsHighest(c: CosmosQueues, fees: Fees, base: Option<nat>, k: Bytes, j: Bytes)
    requires BestCosmos(c, fees, k) && j in c && Cosmos.FeeValue(fees.order) <= Cosmos.FeeValue(base)
    ensures CosmosTip(c[j][0], fees.denom, base) <= CosmosTip(c[k][0], fees.denom, base)
  {
    var tip := Cosmos.TipBy(fees.denom, fees.order);
    assert !Cosmos.PriceThenKey()(HeadFor(c, tip, j), HeadFor(c, tip, k));
    Cosmos.TipsAgreeIff(fees.denom, fees.order, base);
    assert CosmosTip(c[k][0], fees.denom, fees.order) >= CosmosTip(c[j][0], fees.denom, fees.order);
  }

  lemma EvmStepIsHighest(e: EvmQueues, c: CosmosQueues, fees: Fees, base: Option<nat>, convertible: Evm.EvmTx -> bool,
                         h: EvmHead)
    requires FeesAgree(fees, base) && PricedQueues(e) && Filled(c) && TakesEvm(e, c, fees, convertible, h)
    ensures TakesHighest(e, c, fees.denom, base, FromEvm(h))
  {
    hide Cosmos.EffectiveTip, Evm.TipBy, Best;
    NoBestEvm(e, fees, h.key);
    if Cosmos.FeeValue(base) == MAX_PRICE {
      forall a | a in e ensures EvmTip(e[a][0], base) == 0 { NoTipAtMax(e[a][0], ZERO, fees.denom, base); }
      forall k | k in c ensures CosmosTip(c[k][0], fees.denom, base) == 0 {
        NoTipAtMax(h.tx, c[k][0], fees.denom, base);
      }
    } else {
      forall a | a in e ensures EvmTip(e[a][0], base) <= EvmTip(h.tx, base) {
        BestEvmIsHighest(e, fees, h.key, a);
        EvmTipByValue(e[a][0], fees.evm, base);
        EvmTipByValue(h.tx, fees.evm, base);
      }
      forall k | k in c ensures CosmosTip(c[k][0], fees.denom, base) <= EvmTip(h.tx, base) {
        EvmAboveCosmos(e, c, fees, base, convertible, h, k);
      }
    }
  }

  lemma EvmAboveCosmos(e: EvmQueues, c: CosmosQueues, fees: Fees, base: Option<nat>, convertible: Evm.EvmTx -> bool,
                       h: EvmHead, k: Bytes)
    requires FeesAgree(fees, base) && Cosmos.FeeValue(base) != MAX_PRICE && PricedQueues(e) && Filled(c) && k in c
    requires TakesEvm(e, c, fees, convertible, h)
    ensures CosmosTip(c[k][0], fees.denom, base) <= EvmTip(h.tx, base)
  {
    var best := HasBestCosmos(c, fees);
    BestCosmosIsHighest(c, fees, base, best, k);
    hide Best;
    NoBestEvm(e, fees, h.key);
    NoBestCosmos(c, fees, best);
    EvmTipByValue(h.tx, fees.evm, base);
    CosmosTipByValue(c[best][0], fees.denom, fees.compare, base);
    assert CosmosHeadOf(c, fees, best).tip <= h.tip;
  }

  lemma CosmosTipByValue(s: Stored, denom: Bytes, a: Option<nat>, b: Option<nat>)
    requires Cosmos.FeeValue(a) == Cosmos.FeeValue(b)
    ensures CosmosTip(s, denom, a) == CosmosTip(s, denom, b)
  {
  }

  lemma CosmosStepIsHighest(e: EvmQueues, c: CosmosQueues, fees: Fees, base: Option<nat>, h: CosmosHead)
    requires FeesAgree(fees, base) && PricedQueues(e) && Filled(c) && TakesCosmos(c, fees, h)
    requires forall a :: BestEvm(e, fees, a) ==> EvmHeadOf(e, fees, a).tip < h.tip
    ensures TakesHighest(e, c, fees.denom, base, FromCosmos(h))
  {
    NoBestCosmos(c, fees, h.key);
    if Cosmos.FeeValue(base) == MAX_PRICE {
      forall k | k in c ensures CosmosTip(c[k][0], fees.denom, base) == 0 {
        NoTipAtMax(Evm.EvmTx(0, 0, 0, 0), c[k][0], fees.denom, base);
      }
      NoTipAtMax(Evm.EvmTx(0, 0, 0, 0), h.tx, fees.denom, fees.compare);
      if e != map[] { var a := HasBestEvm(e, fees); }
    } else {
      forall k | k in c ensures CosmosTip(c[k][0], fees.denom, base) <= CosmosTip(h.tx, fees.denom, base) {
        BestCosmosIsHighest(c, fees, base, h.key, k);
      }
      CosmosTipByValue(h.tx, fees.denom, fees.compare, base);
      forall a | a in e ensures EvmTip(e[a][0], base) < CosmosTip(h.tx, fees.denom, base) {
        var b := HasBestEvm(e, fees);
        BestEvmIsHighest(e, fees, b, a);
        EvmTipByValue(e[a][0], fees.evm, base);
      }
    }
  }

  /** Without failures a Cosmos step leaves the EVM pool alone. */
  lemma CosmosStepIsPlain(e: EvmQueues, c: CosmosQueues, fees: Fees, convertible: Evm.EvmTx -> bool, out: seq<Picked>,
                          left: EvmQueues)
    requires IsRun(e, c, fees, convertible, out, left) && out != [] && out[0].FromCosmos? && !SomeFails(e, convertible)
    ensures TakesCosmos(c, fees, out[0].cosmos)
    ensures forall a :: BestEvm(e, fees, a) ==> EvmHeadOf(e, fees, a).tip < out[0].cosmos.tip
    ensures IsRun(e, Merge.Advance(c, out[0].cosmos.key), fees, convertible, out[1..], left)
  {
    NoFailingHead(e, fees, convertible);
  }

  lemma NoFailingHead(e: EvmQueues, fees: Fees, convertible: Evm.EvmTx -> bool)
    requires !SomeFails(e, convertible)
    ensures forall a :: BestEvm(e, fees, a) ==> convertible(e[a][0])
  {
  }

  /** If the fees agree and everything can be converted, every step of a run takes a highest tip of both pools. */
  lemma {:induction false} RunIsBlock(e: EvmQueues, c: CosmosQueues, fees: Fees, base: Option<nat>,
                                      convertible: Evm.EvmTx -> bool, out: seq<Picked>, left: EvmQueues)
    requires IsRun(e, c, fees, convertible, out, left) && !SomeFails(e, convertible) && PricedQueues(e) && Filled(c)
    requires FeesAgree(fees, base)
    ensures IsBlock(e, c, fees.denom, base, out)
    decreases |out|
  {
    hide FeesAgree, TakesHighest;
    NoFailingHead(e, fees, convertible);
    if out != [] {
      match out[0]
      case FromEvm(h) =>
        if SomeFails(Merge.Advance(e, h.key), convertible) { AdvanceKeepsFailures(e, h.key, convertible); }
        AdvanceKeepsPriced(e, h.key);
        RunIsBlock(Merge.Advance(e, h.key), c, fees, base, convertible, out[1..], left);
        EvmStepIsHighest(e, c, fees, base, convertible, h);
      case FromCosmos(h) =>
        CosmosStepIsPlain(e, c, fees, convertible, out, left);
        RunIsBlock(e, Merge.Advance(c, h.key), fees, base, convertible, out[1..], left);
        CosmosStepIsHighest(e, c, fees, base, h);
    }
  }

  lemma AdvanceKeepsPriced(e: EvmQueues, k: Evm.Address)
    requires PricedQueues(e) && k in e
    ensures PricedQueues(Merge.Advance(e, k))
  {
    var r := Merge.Advance(e, k);
    forall a, i | a in r && 0 <= i < |r[a]| ensures WellPriced(r[a][i]) {
      assert r[a][i] == if a == k then e[k][i + 1] else e[a][i];
    }
  }

  // ---- and only then ----------------------------------------------------------------------------------------------

  /** Every pool can be run to the end. */
  lemma {:induction false} RunExists(e: EvmQueues, c: CosmosQueues, fees: Fees, convertible: Evm.EvmTx -> bool)
    returns (out: seq<Picked>, left: EvmQueues)
    requires Filled(e) && Filled(c)
    ensures IsRun(e, c, fees, convertible, out, left)
    decreases Left(e, c)
  {
    hide IsRun, Best, Left;
    var evm, cosmos := Tops(e, c, fees);
    TopsInQueues(e, c, fees, evm, cosmos);
    var r := Resolve(evm, cosmos, convertible);
    if r.current.None? {
      out, left := [], e;
      EndedIsRun(e, c, fees, convertible, evm, cosmos);
    } else {
      StepShrinks(e, c, evm, cosmos, convertible);
      var rest;
      rest, left := RunExists(Step(e, evm, r.evmAction), Step(c, cosmos, r.cosmosAction), fees, convertible);
      PickedIsStep(e, c, fees, convertible, evm, cosmos, r.current.value, rest, left);
      out := [r.current.value] + rest;
    }
  }

  lemma Tops(e: EvmQueues, c: CosmosQueues, fees: Fees) returns (evm: Option<EvmHead>, cosmos: Option<CosmosHead>)
    requires Filled(e) && Filled(c)
    ensures AreTops(e, c, fees, evm, cosmos)
  {
    evm, cosmos := None, None;
    if e != map[] {
      var a := HasBestEvm(e, fees);
      evm := Some(EvmHeadOf(e, fees, a));
    }
    if c != map[] {
      var k := HasBestCosmos(c, fees);
      cosmos := Some(CosmosHeadOf(c, fees, k));
    }
  }

  /** Two transactions tie for the EVM heap, and the one seen first has the lower tip. */
  lemma TwoAccountsFail(fees: Fees, base: Option<nat>, x: Evm.EvmTx, y: Evm.EvmTx, out: seq<Picked>, left: EvmQueues)
    requires EvmTip(x, fees.evm) == EvmTip(y, fees.evm) && x.time < y.time && EvmTip(x, base) < EvmTip(y, base)
    requires IsRun(map[[0] := [x], [1] := [y]], map[], fees, _ => true, out, left)
    ensures !IsBlock(map[[0] := [x], [1] := [y]], map[], fees.denom, base, out)
  {
    var e: EvmQueues := map[[0] := [x], [1] := [y]];
    hide Evm.MinerTip;
    assert [1] in e && [0] in e;
    assert Evm.PriceThenTime()(EvmHeadOf(e, fees, [0]), EvmHeadOf(e, fees, [1]));
    assert !BestEvm(e, fees, [1]);
  }

  /** A Cosmos transaction that is compared above an EVM transaction but has no higher tip, or the other way round. */
  lemma OneOfEachFails(fees: Fees, base: Option<nat>, y: Evm.EvmTx, k: Bytes, s: Stored, out: seq<Picked>,
                       left: EvmQueues)
    requires EvmTip(y, fees.evm) == EvmTip(y, base) == 0
    requires CosmosTip(s, fees.denom, fees.compare) > 0 <==> CosmosTip(s, fees.denom, base) == 0
    requires IsRun(map[[0] := [y]], map[k := [s]], fees, _ => true, out, left)
    ensures !IsBlock(map[[0] := [y]], map[k := [s]], fees.denom, base, out)
  {
    var e: EvmQueues, c: CosmosQueues := map[[0] := [y]], map[k := [s]];
    Cosmos.LessIsTotal();
    hide Evm.MinerTip, Cosmos.EffectiveTip, Cosmos.Less;
    assert BestEvm(e, fees, [0]) && BestCosmos(c, fees, k);
    assert EvmHeadOf(e, fees, [0]).tip == 0;
    assert [0] in e && k in c;
  }

  /** Two transactions tie for the Cosmos heap, and the one with the lower key has the lower tip. */
  lemma TwoBucketsFail(fees: Fees, base: Option<nat>, j: Bytes, k: Bytes, s: Stored, t: Stored, out: seq<Picked>,
                       left: EvmQueues)
    requires LexLess(j, k) && j != k
    requires CosmosTip(s, fees.denom, fees.order) == CosmosTip(t, fees.denom, fees.order)
    requires CosmosTip(s, fees.denom, base) < CosmosTip(t, fees.denom, base)
    requires IsRun(map[], map[j := [s], k := [t]], fees, _ => true, out, left)
    ensures !IsBlock(map[], map[j := [s], k := [t]], fees.denom, base, out)
  {
    var c: CosmosQueues := map[j := [s], k := [t]];
    hide Cosmos.EffectiveTip;
    var tip := Cosmos.TipBy(fees.denom, fees.order);
    assert j in c && k in c;
    assert Cosmos.PriceThenKey()(HeadFor(c, tip, j), HeadFor(c, tip, k));
    assert !BestCosmos(c, fees, k);
  }

  // ---- transactions that stand in real pools ------------------------------------------------------------------------

  /** A transaction of one signer that pays `price` for one unit of gas. */
  function Paying(denom: Bytes, signer: Bytes, price: nat): (tx: Tx)
  {
    Tx(price, Some([Signer(signer, 0)]), None, Some(FeeData([Coin(denom, price)], 1)))
  }

  lemma PayingIsRegular(denom: Bytes, signer: Bytes, price: nat)
    requires |signer| == SIGNER_LEN
    ensures NoncesOf(Paying(denom, signer, price)) == Some(map[signer := 0]) && RegularTx(Paying(denom, signer, price))
    ensures EntryFor(Paying(denom, signer, price), 0).signerKey == signer
  {
    var tx := Paying(denom, signer, price);
    assert NoncesUpTo(tx, tx.signers.value, 0) == Some(map[]);
    SingleSigner(signer);
  }

  lemma SingleSigner(signer: Bytes)
    ensures SignerSetKey(map[signer := 0]) == signer
  {
    var m: NonceMap := map[signer := 0];
    var s := SortedKeys(m.Keys);
    assert m.Keys == {signer};
    assert signer in Elements(s);
    if |s| > 1 {
      assert s[0] == s[1] == signer;
      assert LexOrder()(s[0], s[1]);
      LexIrreflexive(signer);
    }
  }

  lemma PayingTip(denom: Bytes, signer: Bytes, price: nat, fee: Option<nat>)
    requires price <= MAX_PRICE && |signer| == SIGNER_LEN
    ensures RegularTx(Paying(denom, signer, price))
    ensures CosmosTip(EntryFor(Paying(denom, signer, price), 0), denom, fee)
         == if price < Cosmos.FeeValue(fee) then 0 else price - Cosmos.FeeValue(fee)
  {
    PayingIsRegular(denom, signer, price);
    hide RegularTx, NoncesOf;
  }

  /** The snapshot that a recheck pass builds of these transactions, as the iterator sees it. */
  ghost function Snapshot(txs: seq<Tx>): (q: CosmosQueues)
    requires RegularTxs(txs)
  {
    Cosmos.NonEmptyQueues(BucketTxs(Rebuilt(txs, |txs|).0))
  }

  /** The first entry of a bucket opens it. */
  lemma AddOpens(bs: Buckets, s: Stored)
    requires s.signerKey !in bs
    ensures AddEntry(bs, s) == bs[s.signerKey := Bucket([s], s.nonceMap.Keys)]
  {
  }

  lemma SnapshotOfOne(x: Tx)
    requires RegularTx(x) && NoncesOf(x).Some?
    ensures var s := EntryFor(x, 0);
            && Rebuilt([x], 1) == (map[s.signerKey := Bucket([s], s.nonceMap.Keys)], 0)
            && Snapshot([x]) == map[s.signerKey := [s]]
  {
    hide EntryFor, RegularTx, NoncesOf, AddEntry;
    assert Rebuilt([x], 0) == (map[], 0);
    AddOpens(map[], EntryFor(x, 0));
  }

  lemma SnapshotOfTwo(x: Tx, y: Tx)
    requires RegularTx(x) && RegularTx(y) && NoncesOf(x).Some? && NoncesOf(y).Some?
    requires EntryFor(x, 0).signerKey != EntryFor(y, 0).signerKey
    ensures var s, t := EntryFor(x, 0), EntryFor(y, 0);
            Snapshot([x, y]) == map[s.signerKey := [s], t.signerKey := [t]]
  {
    hide EntryFor, RegularTx, NoncesOf, AddEntry;
    var bs, s, t := RebuiltOfTwo(x, y);
    assert BucketTxs(bs) == map[s.signerKey := [s], t.signerKey := [t]];
  }

  lemma RebuiltOfTwo(x: Tx, y: Tx) returns (bs: Buckets, s: Stored, t: Stored)
    requires RegularTx(x) && RegularTx(y) && NoncesOf(x).Some? && NoncesOf(y).Some?
    requires EntryFor(x, 0).signerKey != EntryFor(y, 0).signerKey
    ensures s == EntryFor(x, 0) && t == EntryFor(y, 0) && bs == Rebuilt([x, y], 2).0
    ensures bs == map[s.signerKey := Bucket([s], s.nonceMap.Keys), t.signerKey := Bucket([t], t.nonceMap.Keys)]
  {
    hide EntryFor, RegularTx, NoncesOf, AddEntry;
    SnapshotOfOne(x);
    assert Rebuilt([x, y], 0) == Rebuilt([x], 0);
    assert Rebuilt([x, y], 1) == Rebuilt([x], 1);
    bs, s, t := Rebuilt([x, y], 2).0, EntryFor(x, 0), EntryFor(y, 0);
    AddOpens(Rebuilt([x], 1).0, t);
  }

  // ---- the exact condition ----------------------------------------------------------------------------------------

  /** What the pools can hold: no empty account, admitted prices, signers that the store can key. */
  ghost predicate RealPools(pending: Pending, txs: seq<Tx>)
  {
    && (forall a :: a in pending ==> pending[a] != [])
    && (forall a, i :: a in pending && 0 <= i < |pending[a]| ==> WellPriced(pending[a][i]))
    && RegularTxs(txs)
  }

  /** Every run over real pools without failed conversions takes a highest tip at every step. */
  ghost predicate AlwaysHighest(fees: Fees, base: Option<nat>)
  {
    forall pending, txs, convertible, out, left ::
      RealPools(pending, txs) && AllConvertible(pending, convertible) &&
      IsRun(Evm.PayableQueues(pending, fees.evm), Snapshot(txs), fees, convertible, out, left) ==>
        IsBlock(Evm.PayableQueues(pending, fees.evm), Snapshot(txs), fees.denom, base, out)
  }

  lemma PayableIsPriced(pending: Pending, txs: seq<Tx>, fee: Option<nat>)
    requires RealPools(pending, txs)
    ensures PricedQueues(Evm.PayableQueues(pending, fee))
  {
    var e := Evm.PayableQueues(pending, fee);
    forall a, i | a in e && 0 <= i < |e[a]| ensures WellPriced(e[a][i]) {
      assert e[a][i] == pending[a][i];
    }
  }

  /** Two accounts, or an account and a bucket, or two buckets, in which a run takes a lower tip first. */
  lemma LowerTipFirst(fees: Fees, base: Option<nat>)
    returns (pending: Pending, txs: seq<Tx>, out: seq<Picked>, left: EvmQueues)
    requires FeesInRange(fees, base) && !FeesAgree(fees, base)
    ensures RealPools(pending, txs)
    ensures IsRun(Evm.PayableQueues(pending, fees.evm), Snapshot(txs), fees, _ => true, out, left)
    ensures !IsBlock(Evm.PayableQueues(pending, fees.evm), Snapshot(txs), fees.denom, base, out)
  {
    if Cosmos.FeeValue(fees.evm) != Cosmos.FeeValue(base) < MAX_PRICE {
      pending, out, left := EvmFeeDiffers(fees, base);
      txs := [];
    } else if Cosmos.FeeValue(fees.compare) != Cosmos.FeeValue(base) {
      pending, txs, out, left := CompareFeeDiffers(fees, base);
    } else {
      txs, out, left := OrderFeeHigher(fees, base);
      pending := map[];
    }
  }

  lemma EvmFeeDiffers(fees: Fees, base: Option<nat>) returns (pending: Pending, out: seq<Picked>, left: EvmQueues)
    requires FeesInRange(fees, base) && Cosmos.FeeValue(fees.evm) != Cosmos.FeeValue(base) < MAX_PRICE
    ensures RealPools(pending, [])
    ensures IsRun(Evm.PayableQueues(pending, fees.evm), Snapshot([]), fees, _ => true, out, left)
    ensures !IsBlock(Evm.PayableQueues(pending, fees.evm), Snapshot([]), fees.denom, base, out)
  {
    var x, y := TiedAccounts(fees.evm, base);
    pending := map[[0] := [x], [1] := [y]];
    TwoAccounts(x, y, fees.evm);
    hide IsRun, IsBlock, Snapshot, RealPools, WellPriced, EvmTip, Evm.MinerTip, Evm.PayableQueues;
    out, left := RunExists(map[[0] := [x], [1] := [y]], map[], fees, _ => true);
    TwoAccountsFail(fees, base, x, y, out, left);
  }

  lemma TwoAccounts(x: Evm.EvmTx, y: Evm.EvmTx, fee: Option<nat>)
    requires WellPriced(x) && WellPriced(y) && Evm.MinerTip(x, fee).Some? && Evm.MinerTip(y, fee).Some?
    ensures RealPools(map[[0] := [x], [1] := [y]], []) && Snapshot([]) == map[]
    ensures Evm.PayableQueues(map[[0] := [x], [1] := [y]], fee) == map[[0] := [x], [1] := [y]]
  {
    hide Evm.MinerTip, WellPriced;
    assert Evm.Payable([x], fee) == [x] && Evm.Payable([y], fee) == [y];
  }

  lemma TiedAccounts(evm: Option<nat>, base: Option<nat>) returns (x: Evm.EvmTx, y: Evm.EvmTx)
    requires Cosmos.FeeValue(evm) <= MAX_PRICE && Cosmos.FeeValue(evm) != Cosmos.FeeValue(base) < MAX_PRICE
    ensures WellPriced(x) && WellPriced(y) && x.time < y.time
    ensures Evm.MinerTip(x, evm).Some? && Evm.MinerTip(y, evm).Some?
    ensures EvmTip(x, evm) == EvmTip(y, evm) && EvmTip(x, base) < EvmTip(y, base)
  {
    var paid, due := Cosmos.FeeValue(evm), Cosmos.FeeValue(base);
    if paid < due {
      x, y := Evm.EvmTx(0, 1, paid + 1, 0), Evm.EvmTx(1, 1, due + 1, 1);
    } else {
      x, y := Evm.EvmTx(0, 0, paid, 0), Evm.EvmTx(1, 1, paid, 1);
    }
  }

  function Repeated(b: byte): (r: Bytes)
    ensures |r| == SIGNER_LEN
  {
    seq(SIGNER_LEN, _ => b)
  }

  lemma CompareFeeDiffers(fees: Fees, base: Option<nat>)
    returns (pending: Pending, txs: seq<Tx>, out: seq<Picked>, left: EvmQueues)
    requires FeesInRange(fees, base) && Cosmos.FeeValue(fees.compare) != Cosmos.FeeValue(base)
    ensures RealPools(pending, txs)
    ensures IsRun(Evm.PayableQueues(pending, fees.evm), Snapshot(txs), fees, _ => true, out, left)
    ensures !IsBlock(Evm.PayableQueues(pending, fees.evm), Snapshot(txs), fees.denom, base, out)
  {
    hide IsRun, IsBlock, Snapshot, Evm.PayableQueues, EntryFor, RegularTx, WellPriced, Cosmos.EffectiveTip;
    var y := Evm.EvmTx(0, 0, MAX_PRICE, 0);
    NoTip(y, fees.evm);
    NoTip(y, base);
    var compared, due := Cosmos.FeeValue(fees.compare), Cosmos.FeeValue(base);
    var price := (if compared < due then compared else due) + 1;
    var tx := Paying(fees.denom, Repeated(0), price);
    PayingTip(fees.denom, Repeated(0), price, fees.compare);
    PayingTip(fees.denom, Repeated(0), price, base);
    OneBucket(fees.denom, Repeated(0), price);
    pending, txs := map[[0] := [y]], [tx];
    out, left := RunExists(map[[0] := [y]], Snapshot(txs), fees, _ => true);
    OneOfEachFails(fees, base, y, Repeated(0), EntryFor(tx, 0), out, left);
  }

  /** A transaction that can pay any base fee, but no tip. */
  lemma NoTip(y: Evm.EvmTx, fee: Option<nat>)
    requires y.tipCap == 0 && y.feeCap == MAX_PRICE && Cosmos.FeeValue(fee) <= MAX_PRICE
    ensures WellPriced(y) && EvmTip(y, fee) == 0 && Evm.PayableQueues(map[[0] := [y]], fee) == map[[0] := [y]]
  {
    assert Evm.Payable([y], fee) == [y];
  }

  lemma OneBucket(denom: Bytes, signer: Bytes, price: nat)
    requires |signer| == SIGNER_LEN
    ensures RegularTx(Paying(denom, signer, price))
    ensures Snapshot([Paying(denom, signer, price)]) == map[signer := [EntryFor(Paying(denom, signer, price), 0)]]
  {
    PayingIsRegular(denom, signer, price);
    SnapshotOfOne(Paying(denom, signer, price));
  }

  lemma TwoBuckets(denom: Bytes, price: nat)
    ensures LexLess(Repeated(0), Repeated(1)) && Repeated(0) != Repeated(1)
    ensures RegularTx(Paying(denom, Repeated(0), 0)) && RegularTx(Paying(denom, Repeated(1), price))
    ensures Snapshot([Paying(denom, Repeated(0), 0), Paying(denom, Repeated(1), price)])
         == map[Repeated(0) := [EntryFor(Paying(denom, Repeated(0), 0), 0)],
                Repeated(1) := [EntryFor(Paying(denom, Repeated(1), price), 0)]]
  {
    assert Repeated(0)[0] == 0 && Repeated(1)[0] == 1;
    PayingIsRegular(denom, Repeated(0), 0);
    PayingIsRegular(denom, Repeated(1), price);
    hide Snapshot, EntryFor, Paying, RegularTx;
    SnapshotOfTwo(Paying(denom, Repeated(0), 0), Paying(denom, Repeated(1), price));
  }

  lemma OrderFeeHigher(fees: Fees, base: Option<nat>) returns (txs: seq<Tx>, out: seq<Picked>, left: EvmQueues)
    requires FeesInRange(fees, base) && Cosmos.FeeValue(base) < Cosmos.FeeValue(fees.order)
    ensures RealPools(map[], txs)
    ensures IsRun(Evm.PayableQueues(map[], fees.evm), Snapshot(txs), fees, _ => true, out, left)
    ensures !IsBlock(Evm.PayableQueues(map[], fees.evm), Snapshot(txs), fees.denom, base, out)
  {
    assert Evm.PayableQueues(map[], fees.evm) == map[];
    hide IsRun, IsBlock, Snapshot, Evm.PayableQueues, EntryFor, RegularTx, Repeated, Paying, CosmosTip, LexLess;
    var price := Cosmos.FeeValue(base) + 1;
    var x, y := Paying(fees.denom, Repeated(0), 0), Paying(fees.denom, Repeated(1), price);
    PayingTip(fees.denom, Repeated(0), 0, fees.order);
    PayingTip(fees.denom, Repeated(0), 0, base);
    PayingTip(fees.denom, Repeated(1), price, fees.order);
    PayingTip(fees.denom, Repeated(1), price, base);
    TwoBuckets(fees.denom, price);
    txs := [x, y];
    out, left := RunExists(map[], Snapshot(txs), fees, _ => true);
    TwoBucketsFail(fees, base, Repeated(0), Repeated(1), EntryFor(x, 0), EntryFor(y, 0), out, left);
  }

  /** Runs over real pools without failed conversions take a highest tip at every step exactly when the fees agree. */
  lemma HighestIffFeesAgree(fees: Fees, base: Option<nat>)
    requires FeesInRange(fees, base)
    ensures AlwaysHighest(fees, base) <==> FeesAgree(fees, base)
  {
    hide IsRun, IsBlock, WellPriced, RegularTx, Snapshot, FeesAgree, AllConvertible, Evm.PayableQueues;
    if FeesAgree(fees, base) {
      forall pending, txs, convertible, out, left
        | RealPools(pending, txs) && AllConvertible(pending, convertible) &&
          IsRun(Evm.PayableQueues(pending, fees.evm), Snapshot(txs), fees, convertible, out, left)
        ensures IsBlock(Evm.PayableQueues(pending, fees.evm), Snapshot(txs), fees.denom, base, out)
      {
        PayableIsPriced(pending, txs, fees.evm);
        AllConvert(pending, fees.evm, convertible);
        SnapshotIsFilled(txs);
        RunIsBlock(Evm.PayableQueues(pending, fees.evm), Snapshot(txs), fees, base, convertible, out, left);
      }
    } else {
      var pending, txs, out, left := LowerTipFirst(fees, base);
      assert AllConvertible(pending, _ => true) by { EverythingConverts(pending); }
    }
  }

  lemma EverythingConverts(pending: Pending)
    ensures AllConvertible(pending, _ => true)
  {
  }

  lemma SnapshotIsFilled(txs: seq<Tx>)
    requires RegularTxs(txs)
    ensures Filled(Snapshot(txs))
  {
  }

  // ---- from pool and snapshot to block ---------------------------------------------------------------------------

  ghost predicate AllConvertible(pending: Pending, convertible: Evm.EvmTx -> bool)
  {
    forall a, i :: a in pending && 0 <= i < |pending[a]| ==> convertible(pending[a][i])
  }

  ghost function BucketTxs(buckets: Buckets): (r: map<Bytes, seq<Stored>>) { map k | k in buckets :: buckets[k].txs }

  method SnapshotOf(buckets: Buckets) returns (snapshot: map<Bytes, seq<Stored>>)
    ensures snapshot == BucketTxs(buckets)
  {
    snapshot := map[];
    var todo := buckets.Keys;
    while todo != {}
      invariant todo <= buckets.Keys && snapshot == map k | k in buckets && k !in todo :: buckets[k].txs
      decreases todo
    {
      var k :| k in todo;
      snapshot := snapshot[k := buckets[k].txs];
      todo := todo - {k};
    }
  }

  /**
   * Builds the iterators over the pending accounts and the snapshot, and drains them: every stored transaction once and
   * in bucket order, and of every account the longest convertible prefix of its payable transactions, unless the run
   * stops early at a best head that cannot be converted. If everything can be converted and the fees agree, every step
   * takes a highest tip.
   */
  method BuildBlock(pending: Pending, buckets: Buckets, fees: Fees, convertible: Evm.EvmTx -> bool)
    returns (out: seq<Picked>, ghost left: EvmQueues)
    requires forall a :: a in pending ==> pending[a] != []
    ensures forall k :: k in buckets ==> Project(CosmosPart(out, fees), k) == buckets[k].txs
    ensures forall a :: a in pending ==>
              TakesPrefix(Evm.PayableQueues(pending, fees.evm), left, convertible, Project(EvmPart(out), a), a)
    ensures left != map[] ==> StoppedAt(left, fees, convertible)
    ensures AllConvertible(pending, convertible) ==>
              left == map[] &&
              forall a :: a in pending ==> Project(EvmPart(out), a) == Evm.Payable(pending[a], fees.evm)
    ensures IsRun(Evm.PayableQueues(pending, fees.evm), Cosmos.NonEmptyQueues(BucketTxs(buckets)), fees, convertible,
                  out, left)
    ensures forall base :: AllConvertible(pending, convertible) && RealPools(pending, []) && FeesAgree(fees, base) ==>
              IsBlock(Evm.PayableQueues(pending, fees.evm), Cosmos.NonEmptyQueues(BucketTxs(buckets)), fees.denom, base,
                      out)
  {
    hide HeadHeap.Represents;
    hide IsRun, IsBlock, FeesAgree, AllConvertible, RealPools, Best, CosmosPart, EvmPart, Project;
    hide Evm.Payable, Evm.PayableQueues, TakesPrefix, StoppedAt;
    var snapshot := SnapshotOf(buckets);
    var cosmos := Cosmos.NewIterator(snapshot, fees.denom, fees.order);
    var evm := new Evm.TransactionsByPriceAndNonce(pending, fees.evm);
    var it := new EVMMempoolIterator(evm, cosmos, fees.denom, fees.compare, convertible);
    ghost var used := it.AllFees();
    out, left := Drain(it);
    ghost var e, c := Evm.PayableQueues(pending, fees.evm), Cosmos.NonEmptyQueues(BucketTxs(buckets));
    OrderFeeOfEmpty(e, c, fees, used, convertible, out, left);
    LeftoverIsStopped(e, c, fees, convertible, out, left);
    ExactBlock(pending, buckets, fees, convertible, out, left);
    forall base | AllConvertible(pending, convertible) && RealPools(pending, []) && FeesAgree(fees, base)
      ensures IsBlock(e, c, fees.denom, base, out)
    {
      AllConvert(pending, fees.evm, convertible);
      PayableIsPriced(pending, [], fees.evm);
      BucketsAreFilled(buckets);
      RunIsBlock(e, c, fees, base, convertible, out, left);
    }
  }

  lemma BucketsAreFilled(buckets: Buckets)
    ensures Filled(Cosmos.NonEmptyQueues(BucketTxs(buckets)))
  {
  }

  lemma OrderFeeOfEmpty(e: EvmQueues, c: CosmosQueues, fees: Fees, used: Fees, convertible: Evm.EvmTx -> bool,
                        out: seq<Picked>, left: EvmQueues)
    requires IsRun(e, c, used, convertible, out, left)
    requires used == fees || (c == map[] && used == fees.(order := fees.compare))
    ensures IsRun(e, c, fees, convertible, out, left)
    decreases |out|
  {
    if used != fees {
      if out == [] {
        assert forall a :: BestEvm(left, used, a) <==> BestEvm(left, fees, a);
      } else {
        match out[0]
        case FromEvm(h) => OrderFeeOfEmpty(Merge.Advance(e, h.key), c, fees, used, convertible, out[1..], left);
        case FromCosmos(h) => NoBestCosmos(c, used, h.key);
      }
    }
  }

  lemma ExactBlock(pending: Pending, buckets: Buckets, fees: Fees, convertible: Evm.EvmTx -> bool, out: seq<Picked>,
                   left: EvmQueues)
    requires IsRun(Evm.PayableQueues(pending, fees.evm), Cosmos.NonEmptyQueues(BucketTxs(buckets)), fees, convertible,
                   out, left)
    ensures forall k :: k in buckets ==> Project(CosmosPart(out, fees), k) == buckets[k].txs
    ensures forall a :: a in pending ==>
              TakesPrefix(Evm.PayableQueues(pending, fees.evm), left, convertible, Project(EvmPart(out), a), a)
    ensures AllConvertible(pending, convertible) ==>
              left == map[] &&
              forall a :: a in pending ==> Project(EvmPart(out), a) == Evm.Payable(pending[a], fees.evm)
  {
    hide IsRun, CosmosPart, EvmPart, Project, TakesPrefix, AllConvertible;
    var e, c := Evm.PayableQueues(pending, fees.evm), Cosmos.NonEmptyQueues(BucketTxs(buckets));
    forall k | k in buckets ensures Project(CosmosPart(out, fees), k) == buckets[k].txs {
      RunIsExact(e, c, fees, convertible, out, left, [], k);
    }
    forall a | a in pending ensures TakesPrefix(e, left, convertible, Project(EvmPart(out), a), a) {
      RunIsExact(e, c, fees, convertible, out, left, a, []);
    }
    if AllConvertible(pending, convertible) {
      AllConvert(pending, fees.evm, convertible);
      AllIsTaken(e, c, fees, convertible, out, left, []);
      forall a | a in pending ensures Project(EvmPart(out), a) == Evm.Payable(pending[a], fees.evm) {
        AllIsTaken(e, c, fees, convertible, out, left, a);
        assert QueueOf(e, a) == Evm.Payable(pending[a], fees.evm);
      }
    }
  }

  lemma AllConvert(pending: Pending, fee: Option<nat>, convertible: Evm.EvmTx -> bool)
    requires AllConvertible(pending, convertible)
    ensures !SomeFails(Evm.PayableQueues(pending, fee), convertible)
  {
    var e := Evm.PayableQueues(pending, fee);
    forall a, i | a in e && 0 <= i < |e[a]| ensures convertible(e[a][i]) {
      assert e[a][i] == pending[a][i];
    }
  }
}
