/** The unified iterator over both pools that block building drains. */
module BlockIterator {
  import opened Basics
  import opened Merge
  import HeadHeap
  import opened TxKeys
  import opened TxStore
  import Evm = EvmOrdering
  import Cosmos = CosmosOrdering

  type EvmHead = Head<Evm.Address, Evm.EvmTx>

  type CosmosHead = Head<Bytes, Stored>

  type EvmQueues = Queues<Evm.Address, Evm.EvmTx>

  type CosmosQueues = Queues<Bytes, Stored>

  datatype Picked = FromEvm(evm: EvmHead) | FromCosmos(cosmos: CosmosHead)

  datatype Action = Stay | Advance | SkipAccount

  // ---- the choice ---------------------------------------------------------------------------------------

  /** Prefer EVM unless the Cosmos tip is strictly higher. */
  predicate ShouldSelectEvm(evm: Option<EvmHead>, cosmos: Option<CosmosHead>)
  {
    if evm.None? then false
    else if cosmos.None? then true
    else if cosmos.value.tip == 0 then true
    else !(cosmos.value.tip > evm.value.tip)
  }

  datatype Resolution = Resolution(current: Option<Picked>, evmAction: Action, cosmosAction: Action)

  /** The current transaction and what the next step does to each pool. An EVM transaction that cannot be
      converted retires its account and falls back to the Cosmos transaction, if there is one. */
  function Resolve(evm: Option<EvmHead>, cosmos: Option<CosmosHead>, convertible: Evm.EvmTx -> bool): (r: Resolution)
    ensures r.current.None? <==> cosmos.None? && (evm.None? || !convertible(evm.value.tx))
  {
    if evm.None? && cosmos.None? then Resolution(None, Stay, Stay)
    else if ShouldSelectEvm(evm, cosmos) then
      if convertible(evm.value.tx) then Resolution(Some(FromEvm(evm.value)), Advance, Stay)
      else Resolution(if cosmos.Some? then Some(FromCosmos(cosmos.value)) else None, SkipAccount, Advance)
    else Resolution(Some(FromCosmos(cosmos.value)), Stay, Advance)
  }

  /** What an action does to the queues, given their best head. */
  ghost function Step<K, T>(q: Queues<K, T>, top: Option<Head<K, T>>, action: Action): (r: Queues<K, T>)
    requires top.Some? ==> top.value.key in q && q[top.value.key] != []
  {
    if top.None? || action.Stay? then q
    else if action.Advance? then Merge.Advance(q, top.value.key)
    else q - {top.value.key}
  }

  // ---- the reference -------------------------------------------------------------------------------------

  /** The base fees in play: the one EVM tips are taken under, the one the Cosmos heap is ordered by, and the one the
      iterator compares Cosmos tips under. The last two are read at different times. */
  datatype Fees = Fees(evm: Option<nat>, denom: Bytes, order: Option<nat>, compare: Option<nat>)

  /** `a` is an account with a best head. */
  ghost predicate BestEvm(e: EvmQueues, fees: Fees, a: Evm.Address)
  {
    Best(e, Evm.TipBy(fees.evm), Evm.PriceThenTime(), a)
  }

  ghost predicate BestCosmos(c: CosmosQueues, fees: Fees, k: Bytes)
  {
    Best(c, Cosmos.TipBy(fees.denom, fees.order), Cosmos.PriceThenKey(), k)
  }

  function EvmHeadOf(e: EvmQueues, fees: Fees, a: Evm.Address): (h: EvmHead)
    requires a in e && e[a] != []
  {
    HeadFor(e, Evm.TipBy(fees.evm), a)
  }

  /** The head with the tip it is compared by. */
  function CosmosHeadOf(c: CosmosQueues, fees: Fees, k: Bytes): (h: CosmosHead)
    requires k in c && c[k] != []
  {
    HeadFor(c, Cosmos.TipBy(fees.denom, fees.compare), k)
  }

  /**
   * `out` is a run over both pools that leaves `left` of the EVM pool. Each step takes the best EVM head unless the
   * best Cosmos head has a strictly higher tip; an EVM head that cannot be converted drops its account and lets the
   * Cosmos head go first. The run ends when the Cosmos pool is empty and there is no EVM head, or a best one that
   * cannot be converted.
   */
  ghost predicate IsRun(e: EvmQueues, c: CosmosQueues, fees: Fees, convertible: Evm.EvmTx -> bool, out: seq<Picked>,
                        left: EvmQueues)
    decreases |out|
  {
    if out == [] then
      c == map[] && e == left && (left == map[] || StoppedAt(left, fees, convertible))
    else
      match out[0]
      case FromEvm(h) =>
        && TakesEvm(e, c, fees, convertible, h)
        && IsRun(Merge.Advance(e, h.key), c, fees, convertible, out[1..], left)
      case FromCosmos(h) =>
        && TakesCosmos(c, fees, h)
        && if forall a :: BestEvm(e, fees, a) ==> EvmHeadOf(e, fees, a).tip < h.tip then
             IsRun(e, Merge.Advance(c, h.key), fees, convertible, out[1..], left)
           else
             exists a ::
               && Skips(e, fees, convertible, h, a)
               && IsRun(e - {a}, Merge.Advance(c, h.key), fees, convertible, out[1..], left)
  }

  /** A best head cannot be converted. */
  ghost predicate StoppedAt(left: EvmQueues, fees: Fees, convertible: Evm.EvmTx -> bool)
  {
    exists a :: BestEvm(left, fees, a) && !convertible(left[a][0])
  }

  ghost predicate TakesEvm(e: EvmQueues, c: CosmosQueues, fees: Fees, convertible: Evm.EvmTx -> bool, h: EvmHead)
  {
    && BestEvm(e, fees, h.key) && h == EvmHeadOf(e, fees, h.key) && convertible(h.tx)
    && forall k :: BestCosmos(c, fees, k) ==> CosmosHeadOf(c, fees, k).tip <= h.tip
  }

  ghost predicate TakesCosmos(c: CosmosQueues, fees: Fees, h: CosmosHead)
  {
    BestCosmos(c, fees, h.key) && h == CosmosHeadOf(c, fees, h.key)
  }

  /** Account `a` was preferred to the Cosmos head `h`, but its head cannot be converted. */
  ghost predicate Skips(e: EvmQueues, fees: Fees, convertible: Evm.EvmTx -> bool, h: CosmosHead, a: Evm.Address)
  {
    BestEvm(e, fees, a) && EvmHeadOf(e, fees, a).tip >= h.tip && !convertible(e[a][0])
  }

  function EvmPart(out: seq<Picked>): (r: seq<EvmHead>)
  {
    if out == [] then []
    else if out[0].FromEvm? then [out[0].evm] + EvmPart(out[1..])
    else EvmPart(out[1..])
  }

  /** The Cosmos heads taken, with the tips that the heap ordered them by. */
  function CosmosPart(out: seq<Picked>, fees: Fees): (r: seq<CosmosHead>)
  {
    if out == [] then []
    else if out[0].FromCosmos? then
      var h := out[0].cosmos;
      [Head(h.key, h.tx, Cosmos.EffectiveTip(h.tx.tx, fees.denom, fees.order))] + CosmosPart(out[1..], fees)
    else CosmosPart(out[1..], fees)
  }

  // ---- what a run holds -------------------------------------------------------------------------------------

  /** Seen from the Cosmos pool, a run is that pool's own best-head merge, whatever becomes of the EVM pool. */
  lemma {:induction false} RunMergesCosmos(e: EvmQueues, c: CosmosQueues, fees: Fees, convertible: Evm.EvmTx -> bool,
                                           out: seq<Picked>, left: EvmQueues)
    requires IsRun(e, c, fees, convertible, out, left)
    ensures IsMerge(c, Cosmos.TipBy(fees.denom, fees.order), Cosmos.PriceThenKey(), CosmosPart(out, fees))
    decreases |out|
  {
    if out != [] {
      match out[0]
      case FromEvm(h) => RunMergesCosmos(Merge.Advance(e, h.key), c, fees, convertible, out[1..], left);
      case FromCosmos(h) =>
        var e' := AfterCosmos(e, c, fees, convertible, out, left);
        RunMergesCosmos(e', Merge.Advance(c, h.key), fees, convertible, out[1..], left);
        assert CosmosPart(out, fees)[1..] == CosmosPart(out[1..], fees);
    }
  }

  /** The EVM pool after a Cosmos step: as it was, or without an account that could not be converted. */
  lemma AfterCosmos(e: EvmQueues, c: CosmosQueues, fees: Fees, convertible: Evm.EvmTx -> bool, out: seq<Picked>,
                    left: EvmQueues)
    returns (e': EvmQueues)
    requires IsRun(e, c, fees, convertible, out, left) && out != [] && out[0].FromCosmos?
    ensures TakesCosmos(c, fees, out[0].cosmos)
    ensures IsRun(e', Merge.Advance(c, out[0].cosmos.key), fees, convertible, out[1..], left)
    ensures e' == e || exists a :: a in e && e[a] != [] && !convertible(e[a][0]) && e' == e - {a}
  {
    var h := out[0].cosmos;
    if forall a :: BestEvm(e, fees, a) ==> EvmHeadOf(e, fees, a).tip < h.tip {
      e' := e;
    } else {
      var a :| Skips(e, fees, convertible, h, a) &&
               IsRun(e - {a}, Merge.Advance(c, h.key), fees, convertible, out[1..], left);
      e' := e - {a};
    }
  }

  /** Some queued transaction cannot be converted. */
  ghost predicate SomeFails(e: EvmQueues, convertible: Evm.EvmTx -> bool)
  {
    exists a, i :: a in e && 0 <= i < |e[a]| && !convertible(e[a][i])
  }

  /** The longest prefix that can be converted. */
  function Convertible(txs: seq<Evm.EvmTx>, convertible: Evm.EvmTx -> bool): (r: seq<Evm.EvmTx>)
    ensures r <= txs && (forall i :: 0 <= i < |r| ==> convertible(r[i])) && (|r| < |txs| ==> !convertible(txs[|r|]))
  {
    if txs == [] || !convertible(txs[0]) then [] else [txs[0]] + Convertible(txs[1..], convertible)
  }

  /** What is taken of an account that is not left over is its longest convertible prefix; of one that is, all that came
      before what is left, and all of it convertible. */
  ghost predicate TakesPrefix(e: EvmQueues, left: EvmQueues, convertible: Evm.EvmTx -> bool, taken: seq<Evm.EvmTx>,
                              a: Evm.Address)
  {
    if a in left then QueueOf(e, a) == taken + left[a] && forall i :: 0 <= i < |taken| ==> convertible(taken[i])
    else taken == Convertible(QueueOf(e, a), convertible)
  }

  lemma {:induction false} RunTakesPrefix(e: EvmQueues, c: CosmosQueues, fees: Fees, convertible: Evm.EvmTx -> bool,
                                          out: seq<Picked>, left: EvmQueues, a: Evm.Address)
    requires IsRun(e, c, fees, convertible, out, left)
    ensures TakesPrefix(e, left, convertible, Project(EvmPart(out), a), a)
    decreases |out|
  {
    LeftoverIsStopped(e, c, fees, convertible, out, left);
    if out != [] {
      match out[0]
      case FromEvm(h) =>
        hide TakesPrefix;
        RunTakesPrefix(Merge.Advance(e, h.key), c, fees, convertible, out[1..], left, a);
        assert EvmPart(out)[1..] == EvmPart(out[1..]);
        PrefixBeforeEvm(e, h, left, convertible, Project(EvmPart(out[1..]), a), a);
      case FromCosmos(h) =>
        hide TakesPrefix;
        var e' := AfterCosmos(e, c, fees, convertible, out, left);
        RunTakesPrefix(e', Merge.Advance(c, h.key), fees, convertible, out[1..], left, a);
        PrefixBeforeCosmos(e, e', left, convertible, Project(EvmPart(out[1..]), a), a);
    }
  }

  lemma PrefixBeforeEvm(e: EvmQueues, h: EvmHead, left: EvmQueues, convertible: Evm.EvmTx -> bool,
                        taken: seq<Evm.EvmTx>, a: Evm.Address)
    requires h.key in e && e[h.key] != [] && h.tx == e[h.key][0] && convertible(h.tx)
    requires TakesPrefix(Merge.Advance(e, h.key), left, convertible, taken, a)
    ensures TakesPrefix(e, left, convertible, if h.key == a then [h.tx] + taken else taken, a)
  {
    if h.key == a {
      assert QueueOf(Merge.Advance(e, a), a) == e[a][1..];
      assert e[a] == [h.tx] + e[a][1..];
    }
  }

  lemma PrefixBeforeCosmos(e: EvmQueues, e': EvmQueues, left: EvmQueues, convertible: Evm.EvmTx -> bool,
                           taken: seq<Evm.EvmTx>, a: Evm.Address)
    requires e' == e || exists b :: b in e && e[b] != [] && !convertible(e[b][0]) && e' == e - {b}
    requires TakesPrefix(e', left, convertible, taken, a) && (a in left ==> left[a] != [])
    ensures TakesPrefix(e, left, convertible, taken, a)
  {
    if e' != e {
      var b :| b in e && e[b] != [] && !convertible(e[b][0]) && e' == e - {b};
    }
  }

  /** Accounts are left over only when a run stops at a best head that cannot be converted, and then none is empty. */
  lemma {:induction false} LeftoverIsStopped(e: EvmQueues, c: CosmosQueues, fees: Fees, convertible: Evm.EvmTx -> bool,
                                             out: seq<Picked>, left: EvmQueues)
    requires IsRun(e, c, fees, convertible, out, left)
    ensures left != map[] ==> StoppedAt(left, fees, convertible)
    ensures Filled(left)
    decreases |out|
  {
    if out != [] {
      match out[0]
      case FromEvm(h) => LeftoverIsStopped(Merge.Advance(e, h.key), c, fees, convertible, out[1..], left);
      case FromCosmos(h) =>
        var e' := AfterCosmos(e, c, fees, convertible, out, left);
        LeftoverIsStopped(e', Merge.Advance(c, h.key), fees, convertible, out[1..], left);
    }
  }

  lemma ConvertibleWhole(txs: seq<Evm.EvmTx>, convertible: Evm.EvmTx -> bool)
    requires forall i :: 0 <= i < |txs| ==> convertible(txs[i])
    ensures Convertible(txs, convertible) == txs
  {
    var r := Convertible(txs, convertible);
    assert r == txs[..|r|];
  }

  lemma LeftoverFails(e: EvmQueues, c: CosmosQueues, fees: Fees, convertible: Evm.EvmTx -> bool, out: seq<Picked>,
                      left: EvmQueues)
    requires IsRun(e, c, fees, convertible, out, left) && left != map[]
    ensures SomeFails(e, convertible)
  {
    hide IsRun, Project, EvmPart;
    LeftoverIsStopped(e, c, fees, convertible, out, left);
    var b :| BestEvm(left, fees, b) && !convertible(left[b][0]);
    RunTakesPrefix(e, c, fees, convertible, out, left, b);
    assert e[b][|Project(EvmPart(out), b)|] == left[b][0];
  }

  /** When everything can be converted, nothing is left and every account is taken whole. */
  lemma AllIsTaken(e: EvmQueues, c: CosmosQueues, fees: Fees, convertible: Evm.EvmTx -> bool, out: seq<Picked>,
                   left: EvmQueues, a: Evm.Address)
    requires IsRun(e, c, fees, convertible, out, left) && !SomeFails(e, convertible)
    ensures left == map[] && Project(EvmPart(out), a) == QueueOf(e, a)
  {
    hide IsRun, Project, EvmPart;
    if left != map[] { LeftoverFails(e, c, fees, convertible, out, left); }
    RunTakesPrefix(e, c, fees, convertible, out, left, a);
    ConvertibleWhole(QueueOf(e, a), convertible);
  }

  lemma AdvanceKeepsFailures(e: EvmQueues, k: Evm.Address, convertible: Evm.EvmTx -> bool)
    requires k in e && e[k] != [] && SomeFails(Merge.Advance(e, k), convertible)
    ensures SomeFails(e, convertible)
  {
    var r := Merge.Advance(e, k);
    var a, i :| a in r && 0 <= i < |r[a]| && !convertible(r[a][i]);
    if a == k { assert e[k][i + 1] == r[a][i]; } else { assert e[a][i] == r[a][i]; }
  }

  /** Every Cosmos transaction once, each bucket in order; of every account its longest convertible prefix, unless the
      run stops early and leaves some of it. */
  lemma RunIsExact(e: EvmQueues, c: CosmosQueues, fees: Fees, convertible: Evm.EvmTx -> bool, out: seq<Picked>,
                   left: EvmQueues, a: Evm.Address, k: Bytes)
    requires IsRun(e, c, fees, convertible, out, left)
    ensures Project(CosmosPart(out, fees), k) == QueueOf(c, k)
    ensures TakesPrefix(e, left, convertible, Project(EvmPart(out), a), a)
  {
    hide IsRun;
    RunMergesCosmos(e, c, fees, convertible, out, left);
    MergeIsExact(c, Cosmos.TipBy(fees.denom, fees.order), Cosmos.PriceThenKey(), CosmosPart(out, fees), k);
    RunTakesPrefix(e, c, fees, convertible, out, left, a);
  }

  /** The Cosmos transactions of any two runs over one snapshot come in the same order, whatever the EVM pools hold. */
  lemma CosmosPartIsDetermined(e: EvmQueues, f: EvmQueues, c: CosmosQueues, fees: Fees, p: Evm.EvmTx -> bool,
                               q: Evm.EvmTx -> bool, a: seq<Picked>, b: seq<Picked>, left: EvmQueues, left': EvmQueues)
    requires IsRun(e, c, fees, p, a, left) && IsRun(f, c, fees, q, b, left')
    ensures CosmosPart(a, fees) == CosmosPart(b, fees)
  {
    hide IsRun;
    RunMergesCosmos(e, c, fees, p, a, left);
    RunMergesCosmos(f, c, fees, q, b, left');
    Cosmos.LessIsTotal();
    MergeIsDetermined(c, Cosmos.TipBy(fees.denom, fees.order), Cosmos.PriceThenKey(), CosmosPart(a, fees), CosmosPart(b, fees));
  }

  // ---- best heads --------------------------------------------------------------------------------------------

  lemma HasBestEvm(e: EvmQueues, fees: Fees) returns (a: Evm.Address)
    requires Filled(e) && e != map[]
    ensures BestEvm(e, fees, a)
  {
    Evm.PriceThenTimeIsOrder();
    a := BestOf(e, e.Keys, Evm.TipBy(fees.evm), Evm.PriceThenTime());
  }

  lemma HasBestCosmos(c: CosmosQueues, fees: Fees) returns (k: Bytes)
    requires Filled(c) && c != map[]
    ensures BestCosmos(c, fees, k)
  {
    Cosmos.LessIsTotal();
    k := BestOf(c, c.Keys, Cosmos.TipBy(fees.denom, fees.order), Cosmos.PriceThenKey());
  }

  /** Among finitely many heads there is a best one. */
  lemma {:induction false} BestOf<K(!new), T(!new)>(q: Queues<K, T>, keys: set<K>, tip: T -> nat, before: Before<K, T>)
    returns (k: K)
    requires StrictWeakOrder(before) && Filled(q) && keys <= q.Keys && keys != {}
    ensures k in keys && forall j :: j in keys ==> !before(HeadFor(q, tip, j), HeadFor(q, tip, k))
    decreases |keys|
  {
    var x :| x in keys;
    if keys == {x} {
      k := x;
    } else {
      var y := BestOf(q, keys - {x}, tip, before);
      k := if before(HeadFor(q, tip, x), HeadFor(q, tip, y)) then x else y;
      forall j | j in keys ensures !before(HeadFor(q, tip, j), HeadFor(q, tip, k)) {
        if j != x { assert !before(HeadFor(q, tip, j), HeadFor(q, tip, y)); }
      }
    }
  }

  // ---- the iterator ----------------------------------------------------------------------------------------

  class EVMMempoolIterator {
    var evmIterator: Evm.TransactionsByPriceAndNonce?
    var cosmosIterator: Cosmos.CosmosTransactionsByPriceAndNonce?
    var currentTx: Option<Picked>
    var nextEvmAction: Action
    var nextCosmosAction: Action
    const denom: Bytes
    const baseFee: Option<nat>
    const convertible: Evm.EvmTx -> bool
    ghost const orderFee: Option<nat>

    ghost function EvmQ(): (q: EvmQueues)
      reads this, evmIterator, cosmosIterator
    {
      if evmIterator == null then map[] else evmIterator.queues
    }

    ghost function CosmosQ(): (q: CosmosQueues)
      reads this, evmIterator, cosmosIterator
    {
      if cosmosIterator == null then map[] else cosmosIterator.queues
    }

    ghost function EvmTop(): (h: Option<EvmHead>)
      reads this, evmIterator, cosmosIterator
    {
      if evmIterator == null || evmIterator.heads == [] then None else Some(evmIterator.heads[0])
    }

    ghost function CosmosTop(): (h: Option<CosmosHead>)
      reads this, evmIterator, cosmosIterator
    {
      if cosmosIterator == null || cosmosIterator.heads == [] then None
      else
        var h := cosmosIterator.heads[0];
        Some(Head(h.key, h.tx, Cosmos.EffectiveTip(h.tx.tx, denom, baseFee)))
    }

    ghost function AllFees(): (f: Fees)
      reads this
    {
      Fees(if evmIterator == null then None else evmIterator.baseFee, denom, orderFee, baseFee)
    }

    /** Both pools are sound. */
    ghost predicate Sound()
      reads this, evmIterator, cosmosIterator
    {
      && (evmIterator != null ==> evmIterator.Valid())
      && (cosmosIterator != null ==> cosmosIterator.Valid() && cosmosIterator.denom == denom && cosmosIterator.baseFee == orderFee)
    }

    /** ... and the current transaction is resolved. */
    ghost predicate Valid()
      reads this, evmIterator, cosmosIterator
    {
      Sound() && Resolution(currentTx, nextEvmAction, nextCosmosAction) == Resolve(EvmTop(), CosmosTop(), convertible)
    }

    constructor (evm: Evm.TransactionsByPriceAndNonce?, cosmos: Cosmos.CosmosTransactionsByPriceAndNonce?,
                 denom: Bytes, baseFee: Option<nat>, convertible: Evm.EvmTx -> bool)
      requires evm != null ==> evm.Valid()
      requires cosmos != null ==> cosmos.Valid() && cosmos.denom == denom
      ensures orderFee == if cosmos == null then baseFee else cosmos.baseFee
      ensures Valid() && evmIterator == evm && cosmosIterator == cosmos
      ensures this.denom == denom && this.baseFee == baseFee && this.convertible == convertible
    {
      evmIterator := evm;
      cosmosIterator := cosmos;
      this.denom := denom;
      this.baseFee := baseFee;
      this.convertible := convertible;
      orderFee := if cosmos == null then baseFee else cosmos.baseFee;
      currentTx, nextEvmAction, nextCosmosAction := None, Stay, Stay;
      new;
      ResolveCurrentTx();
    }

    method PeekEvm() returns (r: Option<EvmHead>)
      requires Sound()
      ensures r == EvmTop()
    {
      if evmIterator == null {
        return None;
      }
      var p := evmIterator.Peek();
      if p.None? {
        Evm.PriceThenTimeIsOrder();
        HeadHeap.RootIsBest(evmIterator.heads, evmIterator.queues, Evm.TipBy(evmIterator.baseFee), Evm.PriceThenTime());
        return None;
      }
      return Some(evmIterator.heads[0]);
    }

    method PeekCosmos() returns (r: Option<CosmosHead>)
      requires Sound()
      ensures r == CosmosTop()
    {
      if cosmosIterator == null {
        return None;
      }
      var tx := cosmosIterator.Tx();
      if tx.None? {
        Cosmos.LessIsTotal();
        HeadHeap.RootIsBest(cosmosIterator.heads, cosmosIterator.queues, Cosmos.TipBy(denom, orderFee), Cosmos.PriceThenKey());
        return None;
      }
      var tip := Cosmos.EffectiveTip(tx.value.tx, denom, baseFee);
      return Some(Head(cosmosIterator.heads[0].key, tx.value, tip));
    }

    method ResolveCurrentTx()
      requires Sound()
      modifies this`currentTx, this`nextEvmAction, this`nextCosmosAction
      requires nextEvmAction == Stay && nextCosmosAction == Stay
      ensures Valid()
    {
      hide HeadHeap.Represents;
      var evm := PeekEvm();
      var cosmos := PeekCosmos();
      if evm.None? && cosmos.None? {
        nextEvmAction, nextCosmosAction := Stay, Stay;
        currentTx := None;
        return;
      }
      if ShouldSelectEvm(evm, cosmos) {
        if convertible(evm.value.tx) {
          nextEvmAction := Advance;
          currentTx := Some(FromEvm(evm.value));
          return;
        }
        nextEvmAction := SkipAccount;
      }
      nextCosmosAction := Advance;
      currentTx := if cosmos.Some? then Some(FromCosmos(cosmos.value)) else None;
    }

    /** The best heads, if any, are heads of queues. */
    lemma TopsAreHeads()
      requires Sound()
      ensures EvmTop().None? <==> EvmQ() == map[]
      ensures CosmosTop().None? <==> CosmosQ() == map[]
      ensures EvmTop().Some? ==>
                BestEvm(EvmQ(), AllFees(), EvmTop().value.key) &&
                EvmTop().value == EvmHeadOf(EvmQ(), AllFees(), EvmTop().value.key)
      ensures CosmosTop().Some? ==>
                BestCosmos(CosmosQ(), AllFees(), CosmosTop().value.key) &&
                CosmosTop().value == CosmosHeadOf(CosmosQ(), AllFees(), CosmosTop().value.key)
    {
      if evmIterator != null {
        Evm.PriceThenTimeIsOrder();
        HeadHeap.RootIsBest(evmIterator.heads, evmIterator.queues, Evm.TipBy(evmIterator.baseFee), Evm.PriceThenTime());
      }
      if cosmosIterator != null {
        Cosmos.LessIsTotal();
        HeadHeap.RootIsBest(cosmosIterator.heads, cosmosIterator.queues, Cosmos.TipBy(denom, orderFee), Cosmos.PriceThenKey());
      }
    }

    method HandleNextEvmAction()
      requires Sound() && (nextEvmAction != Stay ==> EvmTop().Some?)
      requires EvmTop().Some? ==> EvmTop().value.key in EvmQ() && EvmQ()[EvmTop().value.key] != []
      modifies this`nextEvmAction, evmIterator
      ensures Sound() && nextEvmAction == Stay
      ensures EvmQ() == Step(old(EvmQ()), old(EvmTop()), old(nextEvmAction))
      ensures CosmosQ() == old(CosmosQ()) && CosmosTop() == old(CosmosTop())
    {
      hide HeadHeap.Represents;
      match nextEvmAction {
        case Advance =>
          if evmIterator != null {
            evmIterator.Shift();
          }
        case SkipAccount =>
          if evmIterator != null {
            evmIterator.Pop();
          }
        case Stay =>
      }
      nextEvmAction := Stay;
    }

    method HandleNextCosmosAction()
      requires Sound() && nextCosmosAction != SkipAccount
      requires CosmosTop().Some? ==> CosmosTop().value.key in CosmosQ() && CosmosQ()[CosmosTop().value.key] != []
      modifies this`nextCosmosAction, this`cosmosIterator, cosmosIterator
      ensures Sound() && nextCosmosAction == Stay && (cosmosIterator == old(cosmosIterator) || cosmosIterator == null)
      ensures CosmosQ() == Step(old(CosmosQ()), old(CosmosTop()), old(nextCosmosAction))
      ensures EvmQ() == old(EvmQ()) && EvmTop() == old(EvmTop())
    {
      hide HeadHeap.Represents;
      if nextCosmosAction == Advance && cosmosIterator != null {
        Cosmos.LessIsTotal();
        HeadHeap.RootIsBest(cosmosIterator.heads, cosmosIterator.queues, Cosmos.TipBy(denom, orderFee), Cosmos.PriceThenKey());
        var more := cosmosIterator.Next();
        if !more {
          cosmosIterator := null;
        }
      }
      nextCosmosAction := Stay;
    }

    /** Takes the recorded actions, then resolves again; false when there is no current transaction. */
    method Next() returns (more: bool)
      requires Valid()
      modifies this, evmIterator, cosmosIterator
      ensures Valid() && (more <==> currentTx.Some?)
      ensures evmIterator == old(evmIterator) && (cosmosIterator == old(cosmosIterator) || cosmosIterator == null)
      ensures old(EvmTop()).Some? ==>
                old(EvmTop()).value.key in old(EvmQ()) && old(EvmQ())[old(EvmTop()).value.key] != []
      ensures old(CosmosTop()).Some? ==>
                old(CosmosTop()).value.key in old(CosmosQ()) && old(CosmosQ())[old(CosmosTop()).value.key] != []
      ensures EvmQ() == Step(old(EvmQ()), old(EvmTop()), old(nextEvmAction))
      ensures CosmosQ() == Step(old(CosmosQ()), old(CosmosTop()), old(nextCosmosAction))
    {
      hide HeadHeap.Represents;
      TopsAreHeads();
      HandleNextEvmAction();
      HandleNextCosmosAction();
      ResolveCurrentTx();
      more := currentTx.Some?;
    }
  }

  /** Size of what both pools still hold. */
  ghost function Left(e: EvmQueues, c: CosmosQueues): (n: nat) { Size(e) + Size(c) }

  /** As long as either pool has a head, a step consumes something, whether or not conversion succeeds. */
  lemma StepShrinks(e: EvmQueues, c: CosmosQueues, evm: Option<EvmHead>, cosmos: Option<CosmosHead>,
                    convertible: Evm.EvmTx -> bool)
    requires evm.Some? ==> evm.value.key in e && e[evm.value.key] != []
    requires cosmos.Some? ==> cosmos.value.key in c && c[cosmos.value.key] != []
    requires evm.Some? || cosmos.Some?
    ensures var r := Resolve(evm, cosmos, convertible);
            Left(Step(e, evm, r.evmAction), Step(c, cosmos, r.cosmosAction)) < Left(e, c)
  {
    if evm.Some? {
      AdvanceShrinks(e, evm.value.key);
      RemoveShrinks(e, evm.value.key);
    }
    if cosmos.Some? {
      AdvanceShrinks(c, cosmos.value.key);
    }
  }

  lemma RemoveShrinks<K, T>(q: Queues<K, T>, k: K)
    requires k in q && q[k] != []
    ensures Size(q - {k}) < Size(q)
  {
    var first := (k, 0);
    assert first in Places(q) && first !in Places(q - {k});
    assert Places(q - {k}) <= Places(q) - {first};
    SubsetSize(Places(q - {k}), Places(q) - {first});
  }

  /** The best heads, when there are any. */
  ghost predicate AreTops(e: EvmQueues, c: CosmosQueues, fees: Fees, evm: Option<EvmHead>, cosmos: Option<CosmosHead>)
  {
    && (evm.None? <==> e == map[]) && (cosmos.None? <==> c == map[])
    && (evm.Some? ==> BestEvm(e, fees, evm.value.key) && evm.value == EvmHeadOf(e, fees, evm.value.key))
    && (cosmos.Some? ==> BestCosmos(c, fees, cosmos.value.key) && cosmos.value == CosmosHeadOf(c, fees, cosmos.value.key))
  }

  lemma OneBestCosmos(c: CosmosQueues, fees: Fees, j: Bytes, k: Bytes)
    ensures BestCosmos(c, fees, j) && BestCosmos(c, fees, k) ==> j == k
  {
    Cosmos.LessIsTotal();
    if BestCosmos(c, fees, j) && BestCosmos(c, fees, k) {
      var tip := Cosmos.TipBy(fees.denom, fees.order);
      assert !Cosmos.PriceThenKey()(HeadFor(c, tip, j), HeadFor(c, tip, k));
      assert !Cosmos.PriceThenKey()(HeadFor(c, tip, k), HeadFor(c, tip, j));
    }
  }

  lemma BestEvmTie(e: EvmQueues, fees: Fees, a: Evm.Address, b: Evm.Address)
    requires BestEvm(e, fees, a) && BestEvm(e, fees, b)
    ensures EvmHeadOf(e, fees, a).tip == EvmHeadOf(e, fees, b).tip
  {
    assert !Evm.PriceThenTime()(EvmHeadOf(e, fees, a), EvmHeadOf(e, fees, b));
    assert !Evm.PriceThenTime()(EvmHeadOf(e, fees, b), EvmHeadOf(e, fees, a));
  }

  /** Taking the transaction that the iterator resolves is a step of a run. */
  lemma PickedIsStep(e: EvmQueues, c: CosmosQueues, fees: Fees, convertible: Evm.EvmTx -> bool,
                     evm: Option<EvmHead>, cosmos: Option<CosmosHead>, p: Picked, rest: seq<Picked>,
                     left: EvmQueues)
    requires AreTops(e, c, fees, evm, cosmos)
    requires var r := Resolve(evm, cosmos, convertible);
             && r.current == Some(p)
             && IsRun(Step(e, evm, r.evmAction), Step(c, cosmos, r.cosmosAction), fees, convertible, rest, left)
    ensures IsRun(e, c, fees, convertible, [p] + rest, left)
  {
    assert ([p] + rest)[1..] == rest;
    hide Best, Cosmos.TipBy, Evm.TipBy;
    if p.FromEvm? {
      forall k | BestCosmos(c, fees, k) ensures CosmosHeadOf(c, fees, k).tip <= p.evm.tip {
        if cosmos.Some? { OneBestCosmos(c, fees, k, cosmos.value.key); } else { NoBestCosmos(c, fees, k); }
      }
    } else if evm.Some? {
      forall a | BestEvm(e, fees, a) ensures EvmHeadOf(e, fees, a).tip == evm.value.tip {
        BestEvmTie(e, fees, a, evm.value.key);
      }
      assert BestEvm(e, fees, evm.value.key);
    } else {
      forall a ensures !BestEvm(e, fees, a) { NoBestEvm(e, fees, a); }
    }
  }

  lemma NoBestCosmos(c: CosmosQueues, fees: Fees, k: Bytes)
    ensures BestCosmos(c, fees, k) ==> k in c && c[k] != []
  {
  }

  lemma NoBestEvm(e: EvmQueues, fees: Fees, a: Evm.Address)
    ensures BestEvm(e, fees, a) ==> a in e && e[a] != []
  {
  }

  /** Whatever completes the pools now completes the run begun with `out`. */
  ghost predicate Completes(e0: EvmQueues, c0: CosmosQueues, e: EvmQueues, c: CosmosQueues, fees: Fees,
                            convertible: Evm.EvmTx -> bool, out: seq<Picked>)
  {
    forall rest: seq<Picked>, left: EvmQueues ::
      IsRun(e, c, fees, convertible, rest, left) ==> IsRun(e0, c0, fees, convertible, out + rest, left)
  }

  lemma CompletesStep(e0: EvmQueues, c0: CosmosQueues, e: EvmQueues, c: CosmosQueues, fees: Fees,
                      convertible: Evm.EvmTx -> bool, out: seq<Picked>, evm: Option<EvmHead>,
                      cosmos: Option<CosmosHead>, p: Picked)
    requires Completes(e0, c0, e, c, fees, convertible, out) && AreTops(e, c, fees, evm, cosmos)
    requires Resolve(evm, cosmos, convertible).current == Some(p)
    ensures var r := Resolve(evm, cosmos, convertible);
            Completes(e0, c0, Step(e, evm, r.evmAction), Step(c, cosmos, r.cosmosAction), fees, convertible, out + [p])
  {
    hide IsRun;
    var r := Resolve(evm, cosmos, convertible);
    forall rest: seq<Picked>, left: EvmQueues
      | IsRun(Step(e, evm, r.evmAction), Step(c, cosmos, r.cosmosAction), fees, convertible, rest, left)
      ensures IsRun(e0, c0, fees, convertible, (out + [p]) + rest, left)
    {
      PickedIsStep(e, c, fees, convertible, evm, cosmos, p, rest, left);
      assert (out + [p]) + rest == out + ([p] + rest);
    }
  }

  lemma EndedIsRun(e: EvmQueues, c: CosmosQueues, fees: Fees, convertible: Evm.EvmTx -> bool,
                   evm: Option<EvmHead>, cosmos: Option<CosmosHead>)
    requires AreTops(e, c, fees, evm, cosmos) && Resolve(evm, cosmos, convertible).current.None?
    ensures IsRun(e, c, fees, convertible, [], e)
  {
  }

  /** Iterating to the end is a run over what both pools hold. */
  method Drain(it: EVMMempoolIterator) returns (out: seq<Picked>, ghost left: EvmQueues)
    requires it.Valid()
    modifies it, it.evmIterator, it.cosmosIterator
    ensures IsRun(old(it.EvmQ()), old(it.CosmosQ()), old(it.AllFees()), it.convertible, out, left)
  {
    hide HeadHeap.Represents;
    hide IsRun, Best;
    ghost var e0, c0, fees := it.EvmQ(), it.CosmosQ(), it.AllFees();
    out := [];
    assert forall rest: seq<Picked> :: out + rest == rest;
    while it.currentTx.Some?
      invariant it.Valid() && it.AllFees() == fees
      invariant it.evmIterator == old(it.evmIterator)
      invariant it.cosmosIterator == old(it.cosmosIterator) || it.cosmosIterator == null
      invariant Completes(e0, c0, it.EvmQ(), it.CosmosQ(), fees, it.convertible, out)
      decreases Left(it.EvmQ(), it.CosmosQ())
    {
      it.TopsAreHeads();
      TopsInQueues(it.EvmQ(), it.CosmosQ(), fees, it.EvmTop(), it.CosmosTop());
      StepShrinks(it.EvmQ(), it.CosmosQ(), it.EvmTop(), it.CosmosTop(), it.convertible);
      CompletesStep(e0, c0, it.EvmQ(), it.CosmosQ(), fees, it.convertible, out, it.EvmTop(), it.CosmosTop(),
                    it.currentTx.value);
      out := out + [it.currentTx.value];
      var more := it.Next();
    }
    it.TopsAreHeads();
    left := it.EvmQ();
    EndedIsRun(it.EvmQ(), it.CosmosQ(), fees, it.convertible, it.EvmTop(), it.CosmosTop());
    assert out + [] == out;
  }

  lemma TopsInQueues(e: EvmQueues, c: CosmosQueues, fees: Fees, evm: Option<EvmHead>, cosmos: Option<CosmosHead>)
    requires AreTops(e, c, fees, evm, cosmos)
    ensures evm.Some? ==> evm.value.key in e && e[evm.value.key] != []
    ensures cosmos.Some? ==> cosmos.value.key in c && c[cosmos.value.key] != []
  {
  }
}
