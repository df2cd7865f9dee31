/** The exact 0/1 knapsack that backs the injected-commit trim: a one-dimensional dynamic program over
    byte costs scaled to a bounded number of buckets, with a table for reconstruction. */
module Knapsack {

  /** One extending vote considered for the trim: its position, its voting power, its byte cost. */
  datatype Cand = Cand(idx: nat, vp: int, cost: int)

  const BUCKETS := 8192

  // ---- weighted sums over a selection -----------------------------------------------------------

  /** The total weight of the selected positions below `n`. */
  function Sum(w: seq<int>, sel: seq<bool>, n: nat): (r: int)
    requires n <= |w| && n <= |sel|
  {
    if n == 0 then 0 else Sum(w, sel, n - 1) + (if sel[n - 1] then w[n - 1] else 0)
  }

  /** The number of selected positions below `n`. */
  function Count(sel: seq<bool>, n: nat): (r: nat)
    requires n <= |sel|
  {
    if n == 0 then 0 else Count(sel, n - 1) + (if sel[n - 1] then 1 else 0)
  }

  /** Selecting one more position adds exactly its weight. */
  lemma {:induction false} SumSelect(w: seq<int>, sel: seq<bool>, i: nat, n: nat)
    requires n <= |w| && n <= |sel| && i < |sel|
    requires !sel[i]
    ensures Sum(w, sel[i := true], n) == Sum(w, sel, n) + (if i < n then w[i] else 0)
  {
    if n > 0 { SumSelect(w, sel, i, n - 1); }
  }

  lemma {:induction false} SumNone(w: seq<int>, sel: seq<bool>, n: nat)
    requires n <= |w| && n <= |sel|
    requires forall i :: 0 <= i < n ==> !sel[i]
    ensures Sum(w, sel, n) == 0
  {
    if n > 0 { SumNone(w, sel, n - 1); }
  }

  /** A sum depends only on the selection below its bound. */
  lemma {:induction false} SumPrefix(w: seq<int>, s: seq<bool>, t: seq<bool>, n: nat)
    requires n <= |w| && n <= |s| && n <= |t|
    requires forall i :: 0 <= i < n ==> s[i] == t[i]
    ensures Sum(w, s, n) == Sum(w, t, n)
  {
    if n > 0 { SumPrefix(w, s, t, n - 1); }
  }

  /** A sum depends only on the weights below its bound. */
  lemma {:induction false} SumWeightsPrefix(w: seq<int>, v: seq<int>, s: seq<bool>, n: nat)
    requires n <= |w| && n <= |v| && n <= |s|
    requires forall i :: 0 <= i < n ==> w[i] == v[i]
    ensures Sum(w, s, n) == Sum(v, s, n)
  {
    if n > 0 { SumWeightsPrefix(w, v, s, n - 1); }
  }

  // ---- scaling ------------------------------------------------------------------------------------

  function Powers(cands: seq<Cand>): (r: seq<int>) { seq(|cands|, i requires 0 <= i < |cands| => cands[i].vp) }

  function Costs(cands: seq<Cand>): (r: seq<int>) { seq(|cands|, i requires 0 <= i < |cands| => cands[i].cost) }

  /** Bytes per bucket. */
  function Gran(budget: int): (g: int)
    requires budget > 0
    ensures 1 <= g
    ensures g == 1 <==> budget < BUCKETS
  {
    budget / BUCKETS + 1
  }

  /** A cost rounded up to whole buckets, never below one bucket. */
  function Scale(cost: int, gran: int): (s: int)
    requires gran >= 1
    ensures s >= 1
  {
    var s := (cost + gran - 1) / gran;
    if s <= 0 then 1 else s
  }

  /** Rounding up covers the cost, and wastes less than one bucket on a positive one. */
  lemma ScaleBounds(cost: int, gran: int)
    requires gran >= 1
    ensures cost <= Scale(cost, gran) * gran
    ensures cost >= 1 ==> Scale(cost, gran) * gran <= cost + gran - 1
  {
    var t := cost + gran - 1;
    var q := t / gran;
    assert t == q * gran + t % gran;
    if q <= 0 {
      assert q * gran <= 0;
    }
  }

  lemma Distribute(a: int, b: int, g: int)
    ensures (a + b) * g == a * g + b * g
  {}

  function Scaled(cands: seq<Cand>, gran: int): (r: seq<int>)
    requires gran >= 1
    ensures |r| == |cands| && forall i :: 0 <= i < |r| ==> r[i] >= 1
  {
    seq(|cands|, i requires 0 <= i < |cands| => Scale(cands[i].cost, gran))
  }

  /** Scaling is conservative, and loses less than one bucket per selected candidate. */
  lemma {:induction false} ScaledSum(cands: seq<Cand>, gran: int, sel: seq<bool>, n: nat)
    requires gran >= 1 && n <= |cands| && n <= |sel|
    ensures Sum(Costs(cands), sel, n) <= Sum(Scaled(cands, gran), sel, n) * gran
    ensures (forall i :: 0 <= i < n ==> cands[i].cost >= 1) ==>
              Sum(Scaled(cands, gran), sel, n) * gran <= Sum(Costs(cands), sel, n) + Count(sel, n) * (gran - 1)
  {
    if n > 0 {
      ScaledSum(cands, gran, sel, n - 1);
      if sel[n - 1] {
        ScaleBounds(cands[n - 1].cost, gran);
        Distribute(Sum(Scaled(cands, gran), sel, n - 1), Scale(cands[n - 1].cost, gran), gran);
        Distribute(Count(sel, n - 1), 1, gran - 1);
      }
    }
  }

  // ---- the recurrence and its reconstruction -------------------------------------------------------

  /** The best power of a selection of the first `n` items whose weight is at most `b`. */
  function Opt(w: seq<int>, v: seq<int>, n: nat, b: nat): (r: int)
    requires n <= |w| && n <= |v| && (forall i :: 0 <= i < |w| ==> w[i] >= 1)
    decreases n, 0
  {
    if n == 0 then 0
    else if Takes(w, v, n, b) then Opt(w, v, n - 1, b - w[n - 1]) + v[n - 1]
    else Opt(w, v, n - 1, b)
  }

  /** Whether the optimum over the first `n` items at budget `b` takes item `n - 1`. */
  predicate Takes(w: seq<int>, v: seq<int>, n: nat, b: nat)
    requires 0 < n <= |w| && n <= |v| && (forall i :: 0 <= i < |w| ==> w[i] >= 1)
    decreases n - 1, 1
  {
    w[n - 1] <= b && Opt(w, v, n - 1, b - w[n - 1]) + v[n - 1] > Opt(w, v, n - 1, b)
  }

  /** The selection that walking back from the last item reconstructs. */
  function Back(w: seq<int>, v: seq<int>, n: nat, b: nat): (sel: seq<bool>)
    requires n <= |w| && n <= |v| && (forall i :: 0 <= i < |w| ==> w[i] >= 1)
    ensures |sel| == n
  {
    if n == 0 then []
    else if Takes(w, v, n, b) then Back(w, v, n - 1, b - w[n - 1]) + [true]
    else Back(w, v, n - 1, b) + [false]
  }

  /** No selection within the budget beats the recurrence. */
  lemma {:induction false} OptIsUpperBound(w: seq<int>, v: seq<int>, n: nat, b: nat, sel: seq<bool>)
    requires n <= |w| && n <= |v| && n <= |sel| && (forall i :: 0 <= i < |w| ==> w[i] >= 1)
    requires Sum(w, sel, n) <= b
    ensures Sum(v, sel, n) <= Opt(w, v, n, b)
  {
    if n > 0 {
      SumNonNegative(w, sel, n - 1);
      if sel[n - 1] {
        OptIsUpperBound(w, v, n - 1, b - w[n - 1], sel);
      } else {
        OptIsUpperBound(w, v, n - 1, b, sel);
      }
    }
  }

  lemma {:induction false} SumNonNegative(w: seq<int>, sel: seq<bool>, n: nat)
    requires n <= |w| && n <= |sel|
    requires forall i :: 0 <= i < n ==> w[i] >= 0
    ensures Sum(w, sel, n) >= 0
  {
    if n > 0 { SumNonNegative(w, sel, n - 1); }
  }

  /** The reconstructed selection fits the budget and attains the recurrence. */
  lemma {:induction false} BackIsWitness(w: seq<int>, v: seq<int>, n: nat, b: nat)
    requires n <= |w| && n <= |v| && (forall i :: 0 <= i < |w| ==> w[i] >= 1)
    ensures Sum(w, Back(w, v, n, b), n) <= b
    ensures Sum(v, Back(w, v, n, b), n) == Opt(w, v, n, b)
  {
    if n > 0 {
      var b' := if Takes(w, v, n, b) then b - w[n - 1] else b;
      BackIsWitness(w, v, n - 1, b');
      SumPrefix(w, Back(w, v, n, b), Back(w, v, n - 1, b'), n - 1);
      SumPrefix(v, Back(w, v, n, b), Back(w, v, n - 1, b'), n - 1);
    }
  }

  /** `s` is `m`, or takes the last item on which the two differ. */
  ghost predicate SameOrLater(m: seq<bool>, s: seq<bool>, n: nat)
    requires n <= |m| && n <= |s|
  {
    m[..n] == s[..n] || exists k: nat :: TakesLater(m, s, n, k)
  }

  predicate TakesLater(m: seq<bool>, s: seq<bool>, n: nat, k: nat)
    requires n <= |m| && n <= |s|
  {
    k < n && s[k] && !m[k] && forall l :: k < l < n ==> s[l] == m[l]
  }

  /** Of all best selections, the reconstructed one is the one that leaves the later items out: an item is taken only for
      a gain. */
  lemma {:induction false} BackPrefersEarlier(w: seq<int>, v: seq<int>, n: nat, b: nat, s: seq<bool>)
    requires n <= |w| && n <= |v| && n <= |s| && (forall i :: 0 <= i < |w| ==> w[i] >= 1)
    requires Sum(w, s, n) <= b && Sum(v, s, n) == Opt(w, v, n, b)
    ensures SameOrLater(Back(w, v, n, b), s, n)
  {
    if n > 0 {
      SumNonNegative(w, s, n - 1);
      var m := Back(w, v, n, b);
      if !s[n - 1] { OptIsUpperBound(w, v, n - 1, b, s); }
      if s[n - 1] && !m[n - 1] {
        assert TakesLater(m, s, n, n - 1);
      } else {
        var b' := if m[n - 1] then b - w[n - 1] else b;
        BackPrefersEarlier(w, v, n - 1, b', s);
        LaterStill(Back(w, v, n - 1, b'), m, s, n);
      }
    }
  }

  lemma LaterStill(q: seq<bool>, m: seq<bool>, s: seq<bool>, n: nat)
    requires 0 < n == |m| && n <= |s| && m == q + [s[n - 1]] && SameOrLater(q, s, n - 1)
    ensures SameOrLater(m, s, n)
  {
    if q[..n - 1] == s[..n - 1] {
      assert s[..n] == s[..n - 1] + [s[n - 1]] && q[..n - 1] == q && m[..n] == m;
    } else {
      var k: nat :| TakesLater(q, s, n - 1, k);
      assert TakesLater(m, s, n, k);
    }
  }

  // ---- the table-filling program -------------------------------------------------------------------

  predicate DistinctIndices(cands: seq<Cand>, votesLen: nat)
  {
    (forall i :: 0 <= i < |cands| ==> cands[i].idx < votesLen) &&
    (forall i, j :: 0 <= i < j < |cands| ==> cands[i].idx != cands[j].idx)
  }

  /** Which candidates a position-indexed `keep` retains. */
  function MaskOf(cands: seq<Cand>, keep: seq<bool>): (m: seq<bool>)
    requires forall i :: 0 <= i < |cands| ==> cands[i].idx < |keep|
    ensures |m| == |cands|
  {
    seq(|cands|, i requires 0 <= i < |cands| => keep[cands[i].idx])
  }

  predicate KeepsOnly(cands: seq<Cand>, keep: seq<bool>)
  {
    forall j :: 0 <= j < |keep| && keep[j] ==> exists i :: 0 <= i < |cands| && cands[i].idx == j
  }

  /** The bucket count of a budget. */
  function Buckets(budget: int): (b: nat)
    requires budget > 0
  {
    budget / Gran(budget)
  }

  lemma BucketBounds(budget: int)
    requires budget > 0
    ensures Buckets(budget) * Gran(budget) <= budget <= Buckets(budget) * Gran(budget) + Gran(budget) - 1
  {
    assert budget == (budget / Gran(budget)) * Gran(budget) + budget % Gran(budget);
  }

  lemma MulMono(a: int, b: int, g: int)
    requires g >= 1
    ensures a <= b <==> a * g <= b * g
  {}

  /** The selection the program reconstructs; empty when there is nothing to choose from or no room. */
  function Chosen(cands: seq<Cand>, budget: int): (m: seq<bool>)
    ensures |m| == |cands|
  {
    if budget <= 0 then seq(|cands|, _ => false)
    else Back(Scaled(cands, Gran(budget)), Powers(cands), |cands|, Buckets(budget))
  }

  /** The chosen selection fits the real budget, and nothing that fits the scaled budget has more power. */
  lemma ChosenIsOptimal(cands: seq<Cand>, budget: int)
    requires budget > 0
    ensures Sum(Costs(cands), Chosen(cands, budget), |cands|) <= budget
    ensures Sum(Scaled(cands, Gran(budget)), Chosen(cands, budget), |cands|) <= Buckets(budget)
    ensures forall s: seq<bool> ::
              |s| == |cands| && Sum(Scaled(cands, Gran(budget)), s, |cands|) <= Buckets(budget) ==>
                Sum(Powers(cands), s, |cands|) <= Sum(Powers(cands), Chosen(cands, budget), |cands|)
  {
    var g, b, n := Gran(budget), Buckets(budget), |cands|;
    var w, v := Scaled(cands, g), Powers(cands);
    BackIsWitness(w, v, n, b);
    ScaledSum(cands, g, Chosen(cands, budget), n);
    BucketBounds(budget);
    MulMono(Sum(w, Chosen(cands, budget), n), b, g);
    forall s: seq<bool> | |s| == n && Sum(w, s, n) <= b
      ensures Sum(v, s, n) <= Sum(v, Chosen(cands, budget), n)
    {
      OptIsUpperBound(w, v, n, b, s);
    }
  }

  /** Of all selections that are as good, the chosen one leaves the later candidates out; without room it is empty. */
  lemma ChosenPrefersEarlier(cands: seq<Cand>, budget: int, s: seq<bool>)
    requires |s| == |cands|
    ensures budget <= 0 ==> forall i :: 0 <= i < |cands| ==> !Chosen(cands, budget)[i]
    ensures budget > 0 && Sum(Scaled(cands, Gran(budget)), s, |cands|) <= Buckets(budget) &&
            Sum(Powers(cands), s, |cands|) == Sum(Powers(cands), Chosen(cands, budget), |cands|) ==>
              SameOrLater(Chosen(cands, budget), s, |cands|)
  {
    if budget > 0 && Sum(Scaled(cands, Gran(budget)), s, |cands|) <= Buckets(budget) &&
       Sum(Powers(cands), s, |cands|) == Sum(Powers(cands), Chosen(cands, budget), |cands|)
    {
      BackIsWitness(Scaled(cands, Gran(budget)), Powers(cands), |cands|, Buckets(budget));
      BackPrefersEarlier(Scaled(cands, Gran(budget)), Powers(cands), |cands|, Buckets(budget), s);
    }
  }

  /** One selection that costs at most `budget` less one bucket per item, and one more, is never beaten. */
  lemma SlackBound(cands: seq<Cand>, budget: int, s: seq<bool>)
    requires budget > 0 && |s| == |cands|
    requires forall i :: 0 <= i < |cands| ==> cands[i].cost >= 1
    requires Sum(Costs(cands), s, |cands|) + (Count(s, |cands|) + 1) * (Gran(budget) - 1) <= budget
    ensures Sum(Powers(cands), s, |cands|) <= Sum(Powers(cands), Chosen(cands, budget), |cands|)
  {
    var g, b, n := Gran(budget), Buckets(budget), |cands|;
    ScaledSum(cands, g, s, n);
    ChosenIsOptimal(cands, budget);
    BucketBounds(budget);
    Distribute(Count(s, n), 1, g - 1);
    Distribute(b, 1, g);
    MulMono(b + 1, Sum(Scaled(cands, g), s, n), g);
  }

  method KnapsackKeepMaxPower(cands: seq<Cand>, votesLen: nat, budget: int) returns (keep: seq<bool>, keptVP: int)
    requires DistinctIndices(cands, votesLen)
    ensures |keep| == votesLen && KeepsOnly(cands, keep)
    ensures MaskOf(cands, keep) == Chosen(cands, budget)
    ensures keptVP == Sum(Powers(cands), MaskOf(cands, keep), |cands|)
    ensures budget > 0 ==> Sum(Costs(cands), MaskOf(cands, keep), |cands|) <= budget
    ensures budget > 0 ==>
              forall s: seq<bool> ::
                |s| == |cands| && Sum(Scaled(cands, Gran(budget)), s, |cands|) <= Buckets(budget) ==>
                  Sum(Powers(cands), s, |cands|) <= keptVP
  {
    keep := seq(votesLen, _ => false);
    if |cands| == 0 || budget <= 0 {
      SumNone(Powers(cands), MaskOf(cands, keep), |cands|);
      return keep, 0;
    }
    var gran := budget / BUCKETS + 1;
    var B := budget / gran;
    var sc := Scaled(cands, gran);
    var taken := FillTable(cands, sc, B);
    keep, keptVP := Backtrack(cands, votesLen, sc, B, taken);
    ChosenIsOptimal(cands, budget);
  }

  /** `keep` retains, of the candidates, exactly those from `i` on that `full` selects. */
  predicate KeptFrom(cands: seq<Cand>, keep: seq<bool>, full: seq<bool>, i: nat)
  {
    |full| == |cands| && DistinctIndices(cands, |keep|) && KeepsOnly(cands, keep) &&
    forall k :: 0 <= k < |cands| ==> keep[cands[k].idx] == (i <= k && full[k])
  }

  /** Marking the next candidate's position when it is selected extends the agreement by one. */
  lemma KeepStep(cands: seq<Cand>, keep: seq<bool>, full: seq<bool>, i: nat, next: seq<bool>)
    requires i < |cands| && KeptFrom(cands, keep, full, i + 1)
    requires next == if full[i] then keep[cands[i].idx := true] else keep
    ensures KeptFrom(cands, next, full, i)
  {
    assert !keep[cands[i].idx];
    forall k | 0 <= k < |cands| ensures next[cands[k].idx] == (i <= k && full[k]) {}
    forall j | 0 <= j < |next| && next[j] ensures exists k :: 0 <= k < |cands| && cands[k].idx == j {
      assert j == cands[i].idx || keep[j];
    }
  }

  /** The positions marked once the walk back has reached candidate `i`. */
  function Marked(cands: seq<Cand>, full: seq<bool>, i: nat, votesLen: nat): (keep: seq<bool>)
    requires i <= |cands| == |full| && DistinctIndices(cands, votesLen)
    ensures |keep| == votesLen
    decreases |cands| - i
  {
    if i == |cands| then seq(votesLen, _ => false)
    else
      var later := Marked(cands, full, i + 1, votesLen);
      if full[i] then later[cands[i].idx := true] else later
  }

  lemma {:induction false} MarkedIsKept(cands: seq<Cand>, full: seq<bool>, i: nat, votesLen: nat)
    requires i <= |cands| == |full| && DistinctIndices(cands, votesLen)
    ensures KeptFrom(cands, Marked(cands, full, i, votesLen), full, i)
    decreases |cands| - i
  {
    if i < |cands| {
      MarkedIsKept(cands, full, i + 1, votesLen);
      KeepStep(cands, Marked(cands, full, i + 1, votesLen), full, i, Marked(cands, full, i, votesLen));
    }
  }

  /** One step of the walk back through the table. */
  lemma BackStep(w: seq<int>, v: seq<int>, full: seq<bool>, i: nat, b: nat)
    requires |w| == |v| == |full| && i < |w| && (forall k :: 0 <= k < |w| ==> w[k] >= 1)
    requires full[..i + 1] == Back(w, v, i + 1, b)
    ensures full[i] == Takes(w, v, i + 1, b)
    ensures full[i] ==> w[i] <= b
    ensures full[..i] == Back(w, v, i, if full[i] then b - w[i] else b)
  {
    assert full[..i] == full[..i + 1][..i] && full[i] == full[..i + 1][i];
  }

  /** Reads the inclusions back from the last candidate to the first. */
  method Backtrack(cands: seq<Cand>, votesLen: nat, sc: seq<int>, B: nat, taken: seq<seq<bool>>)
    returns (keep: seq<bool>, keptVP: int)
    requires DistinctIndices(cands, votesLen)
    requires |sc| == |cands| && forall i :: 0 <= i < |sc| ==> sc[i] >= 1
    requires |taken| == |cands| && forall i :: 0 <= i < |cands| ==> |taken[i]| == B + 1
    requires forall i, b :: 0 <= i < |cands| && 0 <= b <= B ==> taken[i][b] == Takes(sc, Powers(cands), i + 1, b)
    ensures |keep| == votesLen && KeepsOnly(cands, keep)
    ensures MaskOf(cands, keep) == Back(sc, Powers(cands), |cands|, B)
    ensures keptVP == Sum(Powers(cands), MaskOf(cands, keep), |cands|)
  {
    ghost var v := Powers(cands);
    ghost var full := Back(sc, v, |cands|, B);
    keep := seq(votesLen, _ => false);
    keptVP := 0;
    var b := B;
    var i := |cands| - 1;
    while i >= 0
      invariant -1 <= i < |cands| && 0 <= b <= B
      invariant keep == Marked(cands, full, i + 1, votesLen)
      invariant full[..i + 1] == Back(sc, v, i + 1, b)
      invariant keptVP + Sum(v, full, i + 1) == Sum(v, full, |cands|)
    {
      BackStep(sc, v, full, i, b);
      if taken[i][b] {
        keep := keep[cands[i].idx := true];
        keptVP := keptVP + cands[i].vp;
        b := b - sc[i];
      }
      i := i - 1;
    }
    MarkedIsKept(cands, full, 0, votesLen);
    assert MaskOf(cands, keep) == full;
  }

  /** Fills `dp` in place, one item at a time from the largest budget down, and records every inclusion. */
  method FillTable(cands: seq<Cand>, sc: seq<int>, B: nat) returns (taken: seq<seq<bool>>)
    requires |sc| == |cands| && forall i :: 0 <= i < |sc| ==> sc[i] >= 1
    ensures |taken| == |cands|
    ensures forall i :: 0 <= i < |cands| ==> |taken[i]| == B + 1
    ensures forall i, b :: 0 <= i < |cands| && 0 <= b <= B ==> taken[i][b] == Takes(sc, Powers(cands), i + 1, b)
  {
    ghost var v := Powers(cands);
    var dp := new int[B + 1](_ => 0);
    taken := [];
    for i := 0 to |cands|
      invariant |taken| == i
      invariant forall k :: 0 <= k < i ==> |taken[k]| == B + 1
      invariant forall k, b :: 0 <= k < i && 0 <= b <= B ==> taken[k][b] == Takes(sc, v, k + 1, b)
      invariant forall b :: 0 <= b <= B ==> dp[b] == Opt(sc, v, i, b)
    {
      var row := FillRow(dp, cands[i].vp, sc, v, i, B);
      taken := taken + [row];
    }
  }

  /** One item's pass over `dp`. */
  method FillRow(dp: array<int>, vp: int, sc: seq<int>, ghost v: seq<int>, i: nat, B: nat) returns (row: seq<bool>)
    requires |sc| == |v| && i < |sc| && dp.Length == B + 1 && v[i] == vp
    requires forall k :: 0 <= k < |sc| ==> sc[k] >= 1
    requires forall b :: 0 <= b <= B ==> dp[b] == Opt(sc, v, i, b)
    modifies dp
    ensures |row| == B + 1
    ensures forall b :: 0 <= b <= B ==> row[b] == Takes(sc, v, i + 1, b)
    ensures forall b :: 0 <= b <= B ==> dp[b] == Opt(sc, v, i + 1, b)
  {
    row := seq(B + 1, _ => false);
    var w := sc[i];
    if w > B {
      return;
    }
    var b := B;
    while b >= w
      invariant w - 1 <= b <= B && |row| == B + 1
      invariant forall k :: 0 <= k <= b ==> !row[k] && dp[k] == Opt(sc, v, i, k)
      invariant forall k :: b < k <= B ==> row[k] == Takes(sc, v, i + 1, k) && dp[k] == Opt(sc, v, i + 1, k)
    {
      if dp[b - w] + vp > dp[b] {
        dp[b] := dp[b - w] + vp;
        row := row[b := true];
      }
      b := b - 1;
    }
  }
}
