/**
 * The fee of a Cosmos transaction under EIP-1559 rules. Decimals are integers scaled by 10^18, as the decimal type
 * stores them.
 */
module FeeChecker {
  import opened Basics

  const ONE: nat := 1_000_000_000_000_000_000
  const MAX_INT64: nat := INT64 - 1

  /** A minimum gas price; the amount is a scaled decimal. */
  datatype DecCoin = DecCoin(denom: Bytes, amount: nat)

  /** An extension option; a dynamic-fee one may carry no price. */
  datatype ExtOption = DynamicFee(maxPriorityPrice: Option<int>) | Other

  datatype FeeTx = FeeTx(gas: nat, fee: seq<Coin>, options: seq<ExtOption>)

  datatype Params = Params(baseFee: Option<nat>, baseFeeEnabled: bool)

  datatype Error = NegativeTip | ZeroGas | FeeTooLow | InsufficientFee | DivisionByZero

  datatype Charge = Charge(fee: seq<Coin>, priority: nat)

  // ---- decimals -----------------------------------------------------------------------------------------

  /** `Ceil().RoundInt()` of a scaled decimal that is not negative. */
  function Ceil(x: nat): (r: nat) { x / ONE + (if x % ONE == 0 then 0 else 1) }

  /** The least whole number not below the decimal. */
  lemma CeilIff(x: nat, n: nat)
    ensures Ceil(x) <= n <==> x <= n * ONE
  {
  }

  lemma CeilMonotone(x: nat, y: nat)
    requires x <= y
    ensures Ceil(x) <= Ceil(y)
  {
    CeilIff(y, Ceil(y));
    CeilIff(x, Ceil(y));
  }

  // ---- the effective fee ----------------------------------------------------------------------------------

  function AmountOf(coins: seq<Coin>, denom: Bytes): (r: nat)
  {
    if coins == [] then 0 else if coins[0].denom == denom then coins[0].amount else AmountOf(coins[1..], denom)
  }

  function BaseFee(p: Params): (r: nat) { if p.baseFee.None? || !p.baseFeeEnabled then 0 else p.baseFee.value }

  /** The price of the first dynamic-fee option, zero if it has none, and the largest 64-bit price without an option. */
  function TipCap(options: seq<ExtOption>): (r: int)
  {
    if options == [] then MAX_INT64 * ONE
    else
      match options[0]
      case DynamicFee(Some(price)) => price
      case DynamicFee(None) => 0
      case Other => TipCap(options[1..])
  }

  /** The first coin of a denomination counts. */
  lemma {:induction false} AmountOfFirst(coins: seq<Coin>, denom: Bytes, k: nat)
    requires k <= |coins| && forall i :: 0 <= i < k ==> coins[i].denom != denom
    ensures k < |coins| && coins[k].denom == denom ==> AmountOf(coins, denom) == coins[k].amount
    ensures k == |coins| ==> AmountOf(coins, denom) == 0
  {
    if k > 0 { AmountOfFirst(coins[1..], denom, k - 1); }
  }

  /** A base fee that is not set or not enabled counts as zero. */
  lemma BaseFeeIs(p: Params)
    ensures p.baseFeeEnabled && p.baseFee.Some? ==> BaseFee(p) == p.baseFee.value
    ensures !p.baseFeeEnabled || p.baseFee.None? ==> BaseFee(p) == 0
  {
  }

  /** The first dynamic-fee option decides the tip cap; one without a price counts as zero. */
  lemma {:induction false} TipCapIs(options: seq<ExtOption>, k: nat)
    requires k <= |options| && forall i :: 0 <= i < k ==> options[i].Other?
    ensures k < |options| && options[k].DynamicFee? ==>
              TipCap(options) == if options[k].maxPriorityPrice.Some? then options[k].maxPriorityPrice.value else 0
    ensures k == |options| ==> TipCap(options) == MAX_INT64 * ONE
  {
    if k > 0 { TipCapIs(options[1..], k - 1); }
  }

  /** What the transaction offers per unit of gas. */
  function FeeCap(tx: FeeTx, denom: Bytes): (r: nat)
    requires tx.gas > 0
  {
    AmountOf(tx.fee, denom) * ONE / tx.gas
  }

  function EffectiveGasPrice(baseFee: nat, feeCap: nat, tipCap: nat): (r: nat)
    ensures r <= feeCap && r <= baseFee + tipCap && (r == feeCap || r == baseFee + tipCap)
  {
    if tipCap + baseFee <= feeCap then tipCap + baseFee else feeCap
  }

  method FindTipCap(options: seq<ExtOption>) returns (r: int)
    ensures r == TipCap(options)
  {
    r := MAX_INT64 * ONE;
    var i := 0;
    while i < |options|
      invariant 0 <= i <= |options| && TipCap(options) == TipCap(options[i..]) && r == MAX_INT64 * ONE
    {
      match options[i] {
        case DynamicFee(price) => return if price.None? then 0 else price.value;
        case Other =>
      }
      i := i + 1;
    }
  }

  /** The fee and priority, or why the transaction is turned away. `reduction` is the unit of priority. */
  method CheckDynamicFee(params: Params, denom: Bytes, reduction: nat, tx: FeeTx) returns (r: Result<Charge, Error>)
    requires reduction > 0
    ensures r.Err? && r.error == NegativeTip <==> TipCap(tx.options) < 0
    ensures r.Err? && r.error == ZeroGas <==> TipCap(tx.options) >= 0 && tx.gas == 0
    ensures r.Err? && r.error == FeeTooLow <==>
      TipCap(tx.options) >= 0 && tx.gas > 0 && AmountOf(tx.fee, denom) * ONE < BaseFee(params) * tx.gas
    ensures r.Err? ==> r.error in {NegativeTip, ZeroGas, FeeTooLow}
    ensures r.Ok? ==> Accepted(params, denom, reduction, tx, r.value)
  {
    hide Accepted, Ceil, TipCap, AmountOf;
    var baseFee := BaseFee(params);
    var maxPriorityPrice := FindTipCap(tx.options);
    if maxPriorityPrice < 0 {
      return Err(NegativeTip);
    }
    if tx.gas == 0 {
      return Err(ZeroGas);
    }
    var feeCap := FeeCap(tx, denom);
    QuotientIff(AmountOf(tx.fee, denom) * ONE, tx.gas, baseFee);
    if feeCap < baseFee {
      return Err(FeeTooLow);
    }
    var price := EffectiveGasPrice(baseFee, feeCap, maxPriorityPrice);
    var amount := Ceil(price * tx.gas);
    var priorityInt := (price - baseFee) / reduction / ONE;
    var priority := MAX_INT64;
    if priorityInt <= MAX_INT64 {
      priority := priorityInt;
    }
    AcceptedHolds(params, denom, reduction, tx, price, priorityInt);
    return Ok(Charge([Coin(denom, amount)], priority));
  }

  /** Whole units in `x`, but no more than the largest signed 64-bit number. */
  ghost predicate IsPriority(x: nat, unit: nat, priority: nat)
  {
    priority <= MAX_INT64 && priority * unit <= x && (priority < MAX_INT64 ==> x < (priority + 1) * unit)
  }

  /**
   * An accepted transaction pays one coin: no more than it offered, no less than the base fee asks, and no more than
   * base fee and tip together ask. It pays all of the latter when the offer covers it. The priority counts whole units of
   * the price paid above the base fee.
   */
  ghost predicate Accepted(params: Params, denom: Bytes, reduction: nat, tx: FeeTx, c: Charge)
  {
    tx.gas > 0 && TipCap(tx.options) >= 0 && |c.fee| == 1 && c.fee[0].denom == denom &&
    AmountFits(BaseFee(params), TipCap(tx.options), AmountOf(tx.fee, denom), tx.gas, c.fee[0].amount) &&
    BaseFee(params) <= FeeCap(tx, denom) &&
    IsPriority(EffectiveGasPrice(BaseFee(params), FeeCap(tx, denom), TipCap(tx.options)) - BaseFee(params),
               reduction * ONE, c.priority)
  }

  ghost predicate AmountFits(base: nat, tip: nat, offered: nat, gas: nat, amount: nat)
  {
    amount <= offered && Ceil(base * gas) <= amount <= Ceil((base + tip) * gas) &&
    ((base + tip) * gas <= offered * ONE ==> amount == Ceil((base + tip) * gas))
  }

  lemma AcceptedHolds(params: Params, denom: Bytes, reduction: nat, tx: FeeTx, price: nat, priorityInt: nat)
    requires reduction > 0 && tx.gas > 0 && TipCap(tx.options) >= 0 && FeeCap(tx, denom) >= BaseFee(params)
    requires price == EffectiveGasPrice(BaseFee(params), FeeCap(tx, denom), TipCap(tx.options))
    requires priorityInt == (price - BaseFee(params)) / reduction / ONE
    ensures Accepted(params, denom, reduction, tx,
              Charge([Coin(denom, Ceil(price * tx.gas))], if priorityInt <= MAX_INT64 then priorityInt else MAX_INT64))
  {
    hide AmountFits, IsPriority, Ceil, TipCap, AmountOf;
    AmountHolds(BaseFee(params), TipCap(tx.options), AmountOf(tx.fee, denom), tx.gas, price);
    PriorityHolds(price - BaseFee(params), reduction, priorityInt);
  }

  lemma AmountHolds(base: nat, tip: nat, offered: nat, gas: nat, price: nat)
    requires gas > 0 && base <= offered * ONE / gas
    requires price == EffectiveGasPrice(base, offered * ONE / gas, tip)
    ensures AmountFits(base, tip, offered, gas, Ceil(price * gas))
  {
    hide Ceil;
    var cap := offered * ONE / gas;
    DivTimes(offered * ONE, gas);
    TimesMonotone(price, cap, gas);
    CeilIff(price * gas, offered);
    TimesMonotone(base, price, gas);
    CeilMonotone(base * gas, price * gas);
    TimesMonotone(price, base + tip, gas);
    CeilMonotone(price * gas, (base + tip) * gas);
    QuotientIff(offered * ONE, gas, base + tip);
  }

  lemma PriorityHolds(x: nat, reduction: nat, units: nat)
    requires reduction > 0 && units == x / reduction / ONE
    ensures IsPriority(x, reduction * ONE, if units <= MAX_INT64 then units else MAX_INT64)
  {
    UnitsFit(x, reduction, units);
    TimesMonotone(if units <= MAX_INT64 then units else MAX_INT64, units, reduction * ONE);
  }

  lemma UnitsFit(x: nat, reduction: nat, units: nat)
    requires reduction > 0 && units == x / reduction / ONE
    ensures units * (reduction * ONE) <= x < (units + 1) * (reduction * ONE)
  {
    var q := x / reduction;
    DivTimes(x, reduction);
    TimesMonotone(units * ONE, q, reduction);
    TimesMonotone(q + 1, (units + 1) * ONE, reduction);
    assert units * (reduction * ONE) == units * ONE * reduction;
    assert (units + 1) * (reduction * ONE) == (units + 1) * ONE * reduction;
    assert (q + 1) * reduction == q * reduction + reduction;
  }

  // ---- the priority that the header comment gives ---------------------------------------------------------

  /** Whole units of the whole effective price, up to the largest 64-bit number. */
  function HeaderPriority(price: nat, reduction: nat): (r: nat)
    requires reduction > 0
  {
    var units := price / (reduction * ONE);
    if units <= MAX_INT64 then units else MAX_INT64
  }

  /**
   * The priority is the one the header gives exactly when the base fee does not reach into a whole unit of the price,
   * or what is paid above it already fills the 64-bit range.
   */
  lemma PriorityIsHeadersIff(params: Params, denom: Bytes, reduction: nat, tx: FeeTx, c: Charge)
    requires reduction > 0 && Accepted(params, denom, reduction, tx, c)
    ensures var base, unit := BaseFee(params), reduction * ONE;
            var price := EffectiveGasPrice(base, FeeCap(tx, denom), TipCap(tx.options));
            c.priority == HeaderPriority(price, reduction) <==>
              base <= price % unit || MAX_INT64 * unit <= price - base
  {
    hide TipCap, AmountOf, AmountFits;
    var base := BaseFee(params);
    var price := EffectiveGasPrice(base, FeeCap(tx, denom), TipCap(tx.options));
    UnitsAgreeIff(price, base, reduction * ONE, c.priority);
  }

  lemma UnitsAgreeIff(price: nat, base: nat, unit: nat, priority: nat)
    requires unit > 0 && base <= price && IsPriority(price - base, unit, priority)
    ensures priority == (if price / unit <= MAX_INT64 then price / unit else MAX_INT64) <==>
              base <= price % unit || MAX_INT64 * unit <= price - base
  {
    var q, rem := price / unit, price % unit;
    DivTimes(price, unit);
    assert (priority + 1) * unit == priority * unit + unit && (q + 1) * unit == q * unit + unit;
    if priority < q {
      TimesMonotone(priority + 1, q, unit);
    } else if q < priority {
      TimesMonotone(q + 1, priority, unit);
    }
    if priority < MAX_INT64 {
      TimesMonotone(priority + 1, MAX_INT64, unit);
    } else {
      TimesMonotone(MAX_INT64, priority, unit);
    }
  }

  /** Whatever the unit of priority: at a base fee of one unit and a tip of one unit, an offer of two units for one unit of
      gas has priority one, where the header gives two. */
  lemma HeaderPriorityFails(denom: Bytes, reduction: nat)
    requires reduction > 0
    ensures var unit := reduction * ONE;
            var params, tx := Params(Some(unit), true), FeeTx(1, [Coin(denom, 2 * reduction)], [DynamicFee(Some(unit))]);
            && Accepted(params, denom, reduction, tx, Charge([Coin(denom, 2 * reduction)], 1))
            && (forall c :: Accepted(params, denom, reduction, tx, c) ==> c.priority == 1)
            && HeaderPriority(EffectiveGasPrice(unit, FeeCap(tx, denom), TipCap(tx.options)), reduction) == 2
  {
    var unit := reduction * ONE;
    var params, tx := Params(Some(unit), true), FeeTx(1, [Coin(denom, 2 * reduction)], [DynamicFee(Some(unit))]);
    assert AmountOf(tx.fee, denom) == 2 * reduction && TipCap(tx.options) == unit && FeeCap(tx, denom) == 2 * unit;
    WholeUnits(2, unit);
    assert Ceil((unit + unit) * 1) == 2 * reduction && Ceil(unit * 1) == reduction;
    forall c | Accepted(params, denom, reduction, tx, c) ensures c.priority == 1 { OneUnit(unit, c.priority); }
    OneUnit(unit, 1);
  }

  lemma WholeUnits(n: nat, unit: nat)
    requires unit > 0
    ensures n * unit / unit == n
  {
    var q := n * unit / unit;
    DivTimes(n * unit, unit);
    assert (q + 1) * unit == q * unit + unit && (n + 1) * unit == n * unit + unit;
    if q < n {
      TimesMonotone(q + 1, n, unit);
    } else if n < q {
      TimesMonotone(n + 1, q, unit);
    }
  }

  lemma OneUnit(unit: nat, priority: nat)
    requires unit > 0
    ensures IsPriority(unit, unit, priority) <==> priority == 1
  {
    if priority >= 2 { TimesMonotone(2, priority, unit); }
  }

  /**
   * When the offer is what limits the price, the whole offer is charged exactly when the division by gas loses less
   * than one coin.
   */
  lemma LimitedByOfferIff(offered: nat, gas: nat)
    requires gas > 0
    ensures Ceil(offered * ONE / gas * gas) == offered <==> offered * ONE % gas < ONE
    ensures gas <= ONE ==> Ceil(offered * ONE / gas * gas) == offered
  {
    var lost := offered * ONE % gas;
    DivTimes(offered * ONE, gas);
    if offered > 0 {
      CeilIff(offered * ONE / gas * gas, offered - 1);
      CeilIff(offered * ONE / gas * gas, offered);
    }
  }

  // ---- before London: validator minimum prices ------------------------------------------------------------------

  /** A fee per unit of gas, in units of priority, up to the largest 64-bit number. */
  function CoinPriority(amount: nat, gas: nat, reduction: nat): (p: nat)
    requires gas > 0 && reduction > 0
    ensures p <= MAX_INT64
  {
    if amount / gas / reduction <= MAX_INT64 then amount / gas / reduction else MAX_INT64
  }

  function Priorities(fees: seq<Coin>, gas: nat, reduction: nat): (r: seq<nat>)
    requires gas > 0 && reduction > 0
  {
    seq(|fees|, i requires 0 <= i < |fees| => CoinPriority(fees[i].amount, gas, reduction))
  }

  /** A coin's priority counts the whole units it pays for each unit of gas, capped at the largest 64-bit number. */
  lemma CoinPriorityCounts(amount: nat, gas: nat, reduction: nat)
    requires gas > 0 && reduction > 0
    ensures gas * reduction > 0 && IsPriority(amount, gas * reduction, CoinPriority(amount, gas, reduction))
  {
    var p := CoinPriority(amount, gas, reduction);
    TimesMonotone(1, gas, reduction);
    UnitsPaid(amount, gas, reduction, p);
    UnitsPaid(amount, gas, reduction, p + 1);
  }

  lemma UnitsPaid(amount: nat, gas: nat, reduction: nat, n: nat)
    requires gas > 0 && reduction > 0
    ensures amount / gas / reduction >= n <==> amount >= n * (gas * reduction)
  {
    QuotientIff(amount / gas, reduction, n);
    QuotientIff(amount, gas, n * reduction);
    assert n * reduction * gas == n * (gas * reduction);
  }

  method GetTxPriority(fees: seq<Coin>, gas: nat, reduction: nat) returns (r: Option<nat>)
    requires reduction > 0
    ensures r.None? <==> gas == 0 && fees != []
    ensures r.Some? && fees != [] ==>
      r.value == RunningMin(Priorities(fees, gas, reduction), |fees|) && r.value <= MAX_INT64
    ensures fees == [] ==> r == Some(0)
  {
    var priority: nat := 0;
    if fees != [] && gas == 0 {
      return None;
    }
    for i := 0 to |fees|
      invariant priority <= MAX_INT64 && (i == 0 ==> priority == 0)
      invariant fees != [] ==> priority == RunningMin(Priorities(fees, gas, reduction), i)
    {
      var p := CoinPriority(fees[i].amount, gas, reduction);
      if priority == 0 || p < priority {
        priority := p;
      }
    }
    return Some(priority);
  }

  /** The result is the smallest coin's priority exactly when no coin's priority is zero, or the last one's is. */
  lemma PriorityIsMinIff(fees: seq<Coin>, gas: nat, reduction: nat)
    requires fees != [] && gas > 0 && reduction > 0
    ensures var ps := Priorities(fees, gas, reduction);
            IsMin(ps, |ps|, RunningMin(ps, |ps|)) <==>
              NoZero(ps, |ps|) || CoinPriority(fees[|fees| - 1].amount, gas, reduction) == 0
  {
    RunningMinIff(Priorities(fees, gas, reduction), |fees|);
  }

  /** Whatever the unit of priority, if it is more than one coin: a coin too small to count, followed by one that does, is
      forgotten. */
  lemma ZeroIsForgotten(a: Bytes, b: Bytes, reduction: nat)
    requires reduction > 1
    ensures var ps := Priorities([Coin(a, 1), Coin(b, 5 * reduction)], 1, reduction);
            ps == [0, 5] && RunningMin(ps, 2) == 5
  {
    var ps := Priorities([Coin(a, 1), Coin(b, 5 * reduction)], 1, reduction);
    WholeUnits(5, reduction);
    assert 1 / 1 / reduction == 0;
    assert ps[0] == 0 && ps[1] == 5;
    assert RunningMin(ps, 1) == 0;
  }

  /** What a validator asks in one denomination. */
  function RequiredFees(prices: seq<DecCoin>, gas: nat): (r: seq<Coin>)
  {
    seq(|prices|, i requires 0 <= i < |prices| => Coin(prices[i].denom, Ceil(prices[i].amount * gas)))
  }

  predicate AllZero(prices: seq<DecCoin>) { forall i :: 0 <= i < |prices| ==> prices[i].amount == 0 }

  /** `IsAnyGTE`: some coin reaches an amount that is asked for in its denomination. */
  predicate AnyReaches(fees: seq<Coin>, required: seq<Coin>)
  {
    exists i :: 0 <= i < |fees| && AmountOf(required, fees[i].denom) > 0 && fees[i].amount >= AmountOf(required, fees[i].denom)
  }

  method IsAnyGTE(fees: seq<Coin>, required: seq<Coin>) returns (r: bool)
    ensures r == AnyReaches(fees, required)
  {
    if |required| == 0 {
      return false;
    }
    for i := 0 to |fees|
      invariant !AnyReaches(fees[..i], required)
    {
      var amt := AmountOf(required, fees[i].denom);
      if fees[i].amount >= amt && amt != 0 {
        return true;
      }
      NotReached(fees, required, i);
    }
    assert fees[..|fees|] == fees;
    return false;
  }

  lemma NotReached(fees: seq<Coin>, required: seq<Coin>, i: nat)
    requires i < |fees| && !AnyReaches(fees[..i], required)
    requires AmountOf(required, fees[i].denom) == 0 || fees[i].amount < AmountOf(required, fees[i].denom)
    ensures !AnyReaches(fees[..i + 1], required)
  {
    forall k | 0 <= k < i + 1
      ensures !(AmountOf(required, fees[k].denom) > 0 && fees[k].amount >= AmountOf(required, fees[k].denom))
    {
      assert k < i ==> fees[..i][k] == fees[k];
    }
  }

  /** The price a validator sets for a denomination, zero if none. */
  function PriceOf(prices: seq<DecCoin>, denom: Bytes): (r: nat)
  {
    if prices == [] then 0 else if prices[0].denom == denom then prices[0].amount else PriceOf(prices[1..], denom)
  }

  lemma {:induction false} PriceOfFirst(prices: seq<DecCoin>, denom: Bytes, k: nat)
    requires k <= |prices| && forall i :: 0 <= i < k ==> prices[i].denom != denom
    ensures k < |prices| && prices[k].denom == denom ==> PriceOf(prices, denom) == prices[k].amount
    ensures k == |prices| ==> PriceOf(prices, denom) == 0
  {
    if k > 0 { PriceOfFirst(prices[1..], denom, k - 1); }
  }

  lemma {:induction false} RequiredAmount(prices: seq<DecCoin>, gas: nat, denom: Bytes)
    ensures AmountOf(RequiredFees(prices, gas), denom) == Ceil(PriceOf(prices, denom) * gas)
  {
    if prices == [] {
      assert 0 * gas == 0;
    } else {
      RequiredAmount(prices[1..], gas, denom);
      assert RequiredFees(prices, gas)[1..] == RequiredFees(prices[1..], gas);
    }
  }

  /** Some coin pays, per unit of gas, the positive price a validator set for its denomination. */
  ghost predicate PaysSomePrice(fees: seq<Coin>, prices: seq<DecCoin>, gas: nat)
  {
    exists i :: 0 <= i < |fees| && PriceOf(prices, fees[i].denom) * gas > 0 &&
      fees[i].amount * ONE >= PriceOf(prices, fees[i].denom) * gas
  }

  lemma ReachesIffPays(fees: seq<Coin>, prices: seq<DecCoin>, gas: nat)
    ensures AnyReaches(fees, RequiredFees(prices, gas)) <==> PaysSomePrice(fees, prices, gas)
  {
    var required := RequiredFees(prices, gas);
    forall i | 0 <= i < |fees|
      ensures AmountOf(required, fees[i].denom) > 0 && fees[i].amount >= AmountOf(required, fees[i].denom) <==>
        PriceOf(prices, fees[i].denom) * gas > 0 && fees[i].amount * ONE >= PriceOf(prices, fees[i].denom) * gas
    {
      RequiredAmount(prices, gas, fees[i].denom);
      CeilIff(PriceOf(prices, fees[i].denom) * gas, fees[i].amount);
      CeilIff(PriceOf(prices, fees[i].denom) * gas, 0);
    }
  }

  /** The fee is charged as offered; when the mempool checks prices, one of them must be paid. */
  method CheckMinGasPrices(isCheckTx: bool, prices: seq<DecCoin>, reduction: nat, tx: FeeTx) returns (r: Result<Charge, Error>)
    requires reduction > 0 && tx.gas <= MAX_INT64
    ensures r == Err(InsufficientFee) <==>
      isCheckTx && (exists i :: 0 <= i < |prices| && prices[i].amount > 0) && !PaysSomePrice(tx.fee, prices, tx.gas)
    ensures r == Err(DivisionByZero) <==> r != Err(InsufficientFee) && tx.gas == 0 && tx.fee != []
    ensures r.Err? ==> r.error in {InsufficientFee, DivisionByZero}
    ensures r.Ok? ==> r.value.fee == tx.fee && r.value.priority <= MAX_INT64
    ensures r.Ok? && tx.fee != [] ==>
      tx.gas > 0 && r.value.priority == RunningMin(Priorities(tx.fee, tx.gas, reduction), |tx.fee|)
  {
    hide PaysSomePrice, AnyReaches, RequiredFees, Ceil;
    if isCheckTx && !AllZero(prices) {
      var required := BuildRequired(prices, tx.gas);
      var enough := IsAnyGTE(tx.fee, required);
      ReachesIffPays(tx.fee, prices, tx.gas);
      if !enough {
        return Err(InsufficientFee);
      }
    }
    var priority := GetTxPriority(tx.fee, tx.gas, reduction);
    if priority.None? {
      return Err(DivisionByZero);
    }
    return Ok(Charge(tx.fee, priority.value));
  }

  method BuildRequired(prices: seq<DecCoin>, gas: nat) returns (required: seq<Coin>)
    ensures required == RequiredFees(prices, gas)
  {
    required := [];
    for i := 0 to |prices|
      invariant required == RequiredFees(prices, gas)[..i]
    {
      required := required + [Coin(prices[i].denom, Ceil(prices[i].amount * gas))];
    }
  }

  /** Genesis transactions and heights before London fall back to the validators' prices. */
  method CheckFee(height: nat, london: bool, params: Params, denom: Bytes, isCheckTx: bool, prices: seq<DecCoin>,
                  reduction: nat, tx: FeeTx)
    returns (r: Result<Charge, Error>)
    requires reduction > 0 && (height == 0 || !london ==> tx.gas <= MAX_INT64)
    ensures height > 0 && london ==>
      (r.Ok? <==> && TipCap(tx.options) >= 0 && tx.gas > 0
                  && (params.baseFeeEnabled && params.baseFee.Some? ==>
                        AmountOf(tx.fee, denom) * ONE >= params.baseFee.value * tx.gas))
    ensures r.Ok? && height > 0 && london ==> Accepted(params, denom, reduction, tx, r.value)
    ensures height == 0 || !london ==>
      (r.Ok? <==> && (isCheckTx && (exists i :: 0 <= i < |prices| && prices[i].amount > 0) ==>
                        PaysSomePrice(tx.fee, prices, tx.gas))
                  && (tx.gas > 0 || tx.fee == []))
    ensures r.Ok? && (height == 0 || !london) ==> r.value.fee == tx.fee
    ensures r.Ok? ==> r.value.priority <= MAX_INT64
  {
    hide PaysSomePrice;
    if height == 0 || !london {
      r := CheckMinGasPrices(isCheckTx, prices, reduction, tx);
    } else {
      r := CheckDynamicFee(params, denom, reduction, tx);
    }
  }
}
