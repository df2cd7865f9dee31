/** Where the trim stops being exact: for every block with at least 8192 bytes of room beside the marker there is a
    commit whose votes could be trimmed to more than two thirds of the power, but are not. */
module TrimLimits {
  import opened Basics
  import opened Knapsack
  import opened Trim
  import opened InjectedCommit
  import TxKeys

  // ---- the family --------------------------------------------------------------------------------------------

  /**
   * One blocker of power 3, `m` honest votes of power 2 and `m - 4` bloated votes of power 1. Every vote takes one byte
   * more than a number of buckets of `g` bytes: `k + 1` for the blocker and the bloated votes, `k` for the first `r`
   * honest votes, and `k - 1` for the others. Together the honest votes leave `d` bytes of the room.
   */
  datatype Shape = Shape(room: int, g: int, m: int, k: int, r: int, d: int)

  function ShapeFor(room: int, m: int): (z: Shape)
    requires room > 0 && m > 0
  {
    var g := Gran(room);
    var s := (room - m) / g;
    Shape(room, g, m, s / m + 1, s % m, (room - m) % g)
  }

  predicate ShapeOk(z: Shape)
  {
    && z.room >= BUCKETS && z.g == Gran(z.room) >= 2 && z.m >= 5
    && z.k >= z.m + 2 && 0 <= z.r < z.m && 0 <= z.d < z.g
    && z.room == z.g * HonestBuckets(z) + z.m + z.d
  }

  function HonestBuckets(z: Shape): (s: int) { z.m * (z.k - 1) + z.r }

  /** Enough buckets for the number of honest votes make a good shape. */
  lemma ShapeIsOk(room: int, m: int)
    requires room >= BUCKETS && Gran(room) >= 2 && m >= 5 && Gran(room) * (m * (m + 1)) <= room - m
    ensures ShapeOk(ShapeFor(room, m))
  {
    var z := ShapeFor(room, m);
    var s := (room - m) / z.g;
    DivMod(room - m, z.g);
    AtLeast(z.g, m * (m + 1), s, z.d);
    DivMod(s, m);
    AtLeast(m, m + 1, s / m, s % m);
    assert HonestBuckets(z) == s;
  }

  lemma DivMod(n: int, divisor: int)
    requires divisor > 0
    ensures n == divisor * (n / divisor) + n % divisor && 0 <= n % divisor < divisor
  {
  }

  /** A quotient is at least what fits the dividend. */
  lemma AtLeast(divisor: int, n: int, q: int, rem: int)
    requires divisor > 0 && 0 <= rem < divisor && divisor * n <= divisor * q + rem
    ensures n <= q
  {
    if q < n {
      MulMono(q + 1, n, divisor);
      Distribute(q, 1, divisor);
    }
  }

  function Size(z: Shape): (n: int) { 2 * z.m - 3 }

  function BucketsOf(z: Shape, i: nat): (k: int)
  {
    if i == 0 || i > z.m then z.k + 1 else if i <= z.r then z.k else z.k - 1
  }

  function PowerOf(z: Shape, i: nat): (p: int) { if i == 0 then 3 else if i <= z.m then 2 else 1 }

  function CostOf(z: Shape, i: nat): (c: int) { z.g * BucketsOf(z, i) + 1 }

  /** The votes have the sizes and powers of the family, whatever their contents. */
  predicate Stalls(z: Shape, votes: seq<Vote>)
  {
    ShapeOk(z) && |votes| == Size(z) &&
    forall i :: 0 <= i < |votes| ==>
      VoteCost(votes[i]) == CostOf(z, i) && votes[i].power == PowerOf(z, i) && Usable(votes[i])
  }

  lemma CostBounds(z: Shape, i: nat)
    requires ShapeOk(z)
    ensures z.g * (z.k - 1) + 1 <= CostOf(z, i) <= CostOf(z, 0)
  {
    MulMono(z.k - 1, BucketsOf(z, i), z.g);
    MulMono(BucketsOf(z, i), z.k + 1, z.g);
  }

  // ---- sums over the family ------------------------------------------------------------------------------------

  function Ks(z: Shape): (r: seq<int>)
    requires ShapeOk(z)
    ensures |r| == Size(z)
  {
    seq(Size(z), i requires 0 <= i < Size(z) => BucketsOf(z, i))
  }

  function Ps(z: Shape): (r: seq<int>)
    requires ShapeOk(z)
    ensures |r| == Size(z)
  {
    seq(Size(z), i requires 0 <= i < Size(z) => PowerOf(z, i))
  }

  /** A sum of `g` times something and one is `g` times the sum and the count. */
  lemma {:induction false} AffineSum(w: seq<int>, v: seq<int>, g: int, keep: seq<bool>, n: nat)
    requires n <= |w| && n <= |v| && n <= |keep| && forall i :: 0 <= i < n ==> w[i] == g * v[i] + 1
    ensures Sum(w, keep, n) == g * Sum(v, keep, n) + Count(keep, n)
  {
    if n > 0 {
      AffineSum(w, v, g, keep, n - 1);
      if keep[n - 1] { assert g * (Sum(v, keep, n - 1) + v[n - 1]) == g * Sum(v, keep, n - 1) + g * v[n - 1]; }
    }
  }

  /** By how much each vote departs from `k` buckets. */
  function Es(z: Shape): (r: seq<int>)
    requires ShapeOk(z)
    ensures |r| == Size(z)
  {
    seq(Size(z), i requires 0 <= i < Size(z) => BucketsOf(z, i) - z.k)
  }

  lemma {:induction false} ShiftedSum(z: Shape, keep: seq<bool>, n: nat)
    requires ShapeOk(z) && n <= Size(z) == |keep|
    ensures Sum(Ks(z), keep, n) == z.k * Count(keep, n) + Sum(Es(z), keep, n)
  {
    hide ShapeOk, BucketsOf;
    if n > 0 {
      ShiftedSum(z, keep, n - 1);
      assert Ks(z)[n - 1] == z.k + Es(z)[n - 1];
      if keep[n - 1] { Distribute(Count(keep, n - 1), 1, z.k); }
    }
  }

  /** The cost and the power of a selection, in buckets and votes. */
  lemma StallSums(z: Shape, votes: seq<Vote>, keep: seq<bool>)
    requires Stalls(z, votes) && |keep| == Size(z)
    ensures Cost(votes, keep) == z.g * Sum(Ks(z), keep, Size(z)) + Count(keep, Size(z))
    ensures Power(votes, keep) == Sum(Ps(z), keep, Size(z))
  {
    assert forall i :: 0 <= i < Size(z) ==> VoteCosts(votes)[i] == z.g * Ks(z)[i] + 1;
    AffineSum(VoteCosts(votes), Ks(z), z.g, keep, Size(z));
    assert VotePowers(votes) == Ps(z);
  }

  lemma {:induction false} AllAreCandidates(z: Shape, votes: seq<Vote>, n: nat)
    requires Stalls(z, votes) && n <= Size(z)
    ensures |Candidates(votes, n)| == n
    ensures forall i :: 0 <= i < n ==> Candidates(votes, n)[i] == CandAt(votes, i)
  {
    if n > 0 { AllAreCandidates(z, votes, n - 1); }
  }

  lemma CandSums(z: Shape, votes: seq<Vote>, m: seq<bool>)
    requires Stalls(z, votes) && |m| == Size(z)
    ensures |Candidates(votes, |votes|)| == Size(z)
    ensures Sum(Scaled(Candidates(votes, |votes|), z.g), m, Size(z)) == Sum(Ks(z), m, Size(z)) + Count(m, Size(z))
    ensures Sum(Powers(Candidates(votes, |votes|)), m, Size(z)) == Sum(Ps(z), m, Size(z))
    ensures Sum(Costs(Candidates(votes, |votes|)), m, Size(z)) == z.g * Sum(Ks(z), m, Size(z)) + Count(m, Size(z))
  {
    var cands := Candidates(votes, |votes|);
    AllAreCandidates(z, votes, Size(z));
    forall i | 0 <= i < Size(z) ensures Scaled(cands, z.g)[i] == 1 * Ks(z)[i] + 1 { OneOver(BucketsOf(z, i), z.g); }
    AffineSum(Scaled(cands, z.g), Ks(z), 1, m, Size(z));
    assert Powers(cands) == Ps(z);
    assert forall i :: 0 <= i < Size(z) ==> Costs(cands)[i] == z.g * Ks(z)[i] + 1;
    AffineSum(Costs(cands), Ks(z), z.g, m, Size(z));
  }

  /** One byte over a number of buckets takes one bucket more. */
  lemma OneOver(k: int, g: int)
    requires g >= 2 && k >= 1
    ensures Scale(g * k + 1, g) == k + 1
  {
    var s := Scale(g * k + 1, g);
    MulMono(1, k, g);
    ScaleBounds(g * k + 1, g);
    Distribute(k, 1, g);
    Distribute(k, 2, g);
    if s <= k { MulMono(s, k, g); }
    if s >= k + 2 { MulMono(k + 2, s, g); }
  }

  // ---- what fits -------------------------------------------------------------------------------------------------

  /** The honest votes of `k - 1` buckets among the first `n`. */
  function Small(z: Shape, n: nat): (s: int)
  {
    if n <= z.r + 1 then 0 else if n <= z.m + 1 then n - 1 - z.r else z.m - z.r
  }

  function Blocker(keep: seq<bool>, n: nat): (b: int)
    requires n <= |keep|
  {
    if n > 0 && keep[0] then 1 else 0
  }

  lemma {:induction false} ExcessBound(z: Shape, keep: seq<bool>, n: nat)
    requires ShapeOk(z) && n <= Size(z) == |keep|
    ensures Sum(Es(z), keep, n) >= Blocker(keep, n) - Small(z, n)
  {
    if n > 0 { ExcessBound(z, keep, n - 1); }
  }

  /** The buckets of the honest votes, as `k` for each of them less one for the small ones. */
  lemma HonestAsProduct(z: Shape)
    ensures HonestBuckets(z) == z.k * z.m - z.m + z.r
  {
    assert z.m * (z.k - 1) == z.k * z.m - z.m;
  }

  lemma {:induction false} PowerBound(z: Shape, keep: seq<bool>, n: nat)
    requires ShapeOk(z) && n <= Size(z) == |keep|
    ensures Sum(Ps(z), keep, n) <= 2 * Count(keep, n) + Blocker(keep, n)
  {
    if n > 0 { PowerBound(z, keep, n - 1); }
  }

  /** No more votes fit than there are honest ones, and fewer if the blocker is kept. */
  lemma FewFit(z: Shape, keep: seq<bool>)
    requires ShapeOk(z) && |keep| == Size(z)
    requires z.g * Sum(Ks(z), keep, Size(z)) + Count(keep, Size(z)) <= z.room
    ensures Count(keep, Size(z)) + Blocker(keep, Size(z)) <= z.m
    ensures Count(keep, Size(z)) == z.m ==> Sum(Ks(z), keep, Size(z)) >= HonestBuckets(z)
  {
    ShiftedSum(z, keep, Size(z));
    ExcessBound(z, keep, Size(z));
    HonestAsProduct(z);
    hide HonestBuckets;
    FewFitArith(z.g, HonestBuckets(z), z.m, z.k, z.d,
                Sum(Ks(z), keep, Size(z)), Count(keep, Size(z)), Blocker(keep, Size(z)));
  }

  lemma FewFitArith(g: int, s: int, m: int, k: int, d: int, sum: int, n: int, b: int)
    requires 0 <= b <= 1 <= k && 0 < g && d < g && g * sum + n <= g * s + m + d
    requires sum >= k * n - k * m + s + b
    ensures n + b <= m && (n == m ==> sum >= s)
  {
    if n + b > m {
      MulMono(m, n, k);
      if n > m { MulMono(m + 1, n, k); Distribute(m, 1, k); }
      assert sum >= s + 1;
      MulMono(s + 1, sum, g);
      Distribute(s, 1, g);
    }
  }

  /** Whatever fits with the blocker falls short of the honest votes by one unit of power. */
  lemma BlockedIsShort(z: Shape, votes: seq<Vote>, keep: seq<bool>)
    requires Stalls(z, votes) && |keep| == Size(z) && keep[0] && Cost(votes, keep) <= z.room
    ensures Power(votes, keep) < 2 * z.m
  {
    StallSums(z, votes, keep);
    FewFit(z, keep);
    PowerBound(z, keep, Size(z));
  }

  // ---- the two selections that matter ------------------------------------------------------------------------------

  function Range(lo: nat, hi: nat, n: nat): (r: seq<bool>)
    ensures |r| == n
  {
    seq(n, i => lo <= i < hi)
  }

  lemma {:induction false} RangeCount(lo: nat, hi: nat, size: nat, n: nat)
    requires n <= size && lo <= hi
    ensures Count(Range(lo, hi, size), n) == if n < lo then 0 else if n < hi then n - lo else hi - lo
  {
    if n > 0 { RangeCount(lo, hi, size, n - 1); }
  }

  /** The votes of a range that starts at the blocker, or at the first honest vote, and ends within the honest ones. */
  lemma {:induction false} RangeSums(z: Shape, lo: nat, hi: nat, n: nat)
    requires ShapeOk(z) && n <= Size(z) && lo <= 1 <= hi <= z.m + 1 && lo < hi
    ensures var keep, top := Range(lo, hi, Size(z)), if n < hi then n else hi;
            if top <= lo then Sum(Es(z), keep, n) == 0 && Sum(Ps(z), keep, n) == 0
            else Sum(Es(z), keep, n) == 1 - lo - Small(z, top) && Sum(Ps(z), keep, n) == 2 * (top - lo) + 1 - lo
  {
    hide HonestBuckets;
    if n > 0 { RangeSums(z, lo, hi, n - 1); }
  }

  /** The honest votes fit, and have two units of power each. */
  lemma StallIsAchievable(z: Shape, votes: seq<Vote>)
    requires Stalls(z, votes)
    ensures Achievable(votes, 2 * z.m, |MARKER| + z.room)
  {
    hide Sum, Count, Range;
    var honest := Range(1, z.m + 1, Size(z));
    HonestSums(z);
    StallSums(z, votes, honest);
    assert Selects(votes, honest);
  }

  lemma HonestSums(z: Shape)
    requires ShapeOk(z)
    ensures var honest := Range(1, z.m + 1, Size(z));
            && Sum(Ks(z), honest, Size(z)) == HonestBuckets(z) && Count(honest, Size(z)) == z.m
            && Sum(Ps(z), honest, Size(z)) == 2 * z.m
  {
    RangeSums(z, 1, z.m + 1, Size(z));
    RangeCount(1, z.m + 1, Size(z), Size(z));
    ShiftedSum(z, Range(1, z.m + 1, Size(z)), Size(z));
    HonestAsProduct(z);
    hide HonestBuckets, Sum, Count, Range;
  }

  /** In whole buckets the blocker and all but two of the honest votes fit. */
  lemma BlockerFitsScaled(z: Shape)
    requires ShapeOk(z)
    ensures var s := Range(0, z.m - 1, Size(z));
            && Sum(Ks(z), s, Size(z)) + Count(s, Size(z)) <= Buckets(z.room)
            && Sum(Ps(z), s, Size(z)) == 2 * z.m - 1
  {
    RangeSums(z, 0, z.m - 1, Size(z));
    RangeCount(0, z.m - 1, Size(z), Size(z));
    ShiftedSum(z, Range(0, z.m - 1, Size(z)), Size(z));
    HonestAsProduct(z);
    EnoughBuckets(z);
    hide HonestBuckets, Sum, Count, Range, Buckets;
    assert z.k * (z.m - 1) == z.k * z.m - z.k;
  }

  lemma EnoughBuckets(z: Shape)
    requires ShapeOk(z)
    ensures HonestBuckets(z) <= Buckets(z.room)
  {
    hide HonestBuckets, Buckets;
    BucketBounds(z.room);
    AtLeast(z.g, HonestBuckets(z), Buckets(z.room), z.room - Buckets(z.room) * z.g);
  }

  /** In whole buckets the honest votes do not fit. */
  lemma HonestTooManyBuckets(z: Shape)
    requires ShapeOk(z)
    ensures HonestBuckets(z) + z.m > Buckets(z.room)
  {
    hide HonestBuckets, Buckets, Gran;
    BucketBounds(z.room);
    TooManyArith(z.g, HonestBuckets(z), z.m, z.d, Buckets(z.room));
  }

  lemma TooManyArith(g: int, s: int, m: int, d: int, buckets: int)
    requires g >= 2 && m >= 5 && d < g && buckets * g <= g * s + m + d
    ensures s + m > buckets
  {
    if s + m <= buckets {
      MulMono(s + m, buckets, g);
      Distribute(s, m, g);
      MulMono(5, m, g);
      MulMono(2, g, m);
    }
  }

  // ---- every pass keeps the blocker ------------------------------------------------------------------------------

  /** The first candidate of an order is kept when it fits on its own. */
  lemma {:induction false} FirstIsKept(order: seq<Cand>, n: nat, start: Fill, budget: int)
    requires 1 <= n <= |order| && forall k :: 0 <= k < |order| ==> order[k].idx < |start.keep|
    requires start.used + order[0].cost <= budget
    ensures FillIn(order, n, start, budget).keep[order[0].idx]
  {
    if n > 1 {
      FirstIsKept(order, n - 1, start, budget);
    } else {
      assert FillIn(order, 0, start, budget) == start;
    }
  }

  lemma BlockerFits(z: Shape)
    requires ShapeOk(z)
    ensures CostOf(z, 0) <= z.room && 2 * CostOf(z, 0) < 3 * (z.g * (z.k - 1) + 1)
  {
    MulMono(5, z.m, z.k - 1);
    MulMono(z.k + 1, HonestBuckets(z), z.g);
    assert z.g * (z.k + 1) == z.g * (z.k - 1) + 2 * z.g;
    MulMono(6, z.k - 1, z.g);
  }

  /** A candidate that no other comes before is kept when it fits on its own. */
  lemma LeaderIsKept(votes: seq<Vote>, before: (Cand, Cand) -> bool, budget: int)
    requires |Candidates(votes, |votes|)| > 0
    requires forall e :: e in Candidates(votes, |votes|)[1..] ==> !before(e, Candidates(votes, |votes|)[0])
    requires |MARKER| + Candidates(votes, |votes|)[0].cost <= budget
    ensures Candidates(votes, |votes|)[0].idx < |votes|
    ensures Greedy(votes, before, budget).keep[Candidates(votes, |votes|)[0].idx]
  {
    hide Candidates, StableSort, FillIn;
    var cands := Candidates(votes, |votes|);
    CandidatesAreOrdered(votes, |votes|);
    SortedOrder(votes, cands, before);
    SortKeepsLeader(cands, before);
    FirstIsKept(StableSort(cands, before), |cands|, Nothing(votes), budget);
  }

  lemma GreedyKeepsBlocker(z: Shape, votes: seq<Vote>, before: (Cand, Cand) -> bool)
    requires Stalls(z, votes)
    requires forall i :: 1 <= i < Size(z) ==> !before(CandAt(votes, i), CandAt(votes, 0))
    ensures Greedy(votes, before, |MARKER| + z.room).keep[0]
  {
    hide Candidates, Greedy;
    var cands := Candidates(votes, |votes|);
    RoomFacts(z);
    AllAreCandidates(z, votes, Size(z));
    forall e | e in cands[1..] ensures !before(e, cands[0]) {
      var i :| 0 <= i < |cands[1..]| && cands[1..][i] == e;
      assert e == CandAt(votes, i + 1);
    }
    BlockerFits(z);
    LeaderIsKept(votes, before, |MARKER| + z.room);
  }

  lemma BlockerComesFirst(z: Shape, votes: seq<Vote>, i: nat)
    requires Stalls(z, votes) && 1 <= i < Size(z)
    ensures !Denser(votes, CandAt(votes, i), CandAt(votes, 0))
    ensures !Stronger(votes, CandAt(votes, i), CandAt(votes, 0))
  {
    BlockerFits(z);
    CostBounds(z, i);
  }

  lemma BackstopKeepsBlocker(z: Shape, votes: seq<Vote>)
    requires Stalls(z, votes)
    ensures Backstop(votes, |MARKER| + z.room).keep[0]
  {
    var cands := Candidates(votes, |votes|);
    AllAreCandidates(z, votes, Size(z));
    CandidatesAreOrdered(votes, Size(z));
    var m := Chosen(cands, z.room);
    MarkedIsKept(cands, m, 0, Size(z));
    assert Backstop(votes, |MARKER| + z.room).keep[cands[0].idx] == m[0];
    ChosenKeepsBlocker(z, votes, m);
  }

  /** The best selection in whole buckets keeps the blocker: without it, only fewer votes than honest ones fit. */
  lemma ChosenKeepsBlocker(z: Shape, votes: seq<Vote>, m: seq<bool>)
    requires Stalls(z, votes) && |Candidates(votes, |votes|)| == Size(z)
    requires m == Chosen(Candidates(votes, |votes|), z.room)
    ensures m[0]
  {
    hide Chosen, Candidates, ShapeOk;
    assert ShapeOk(z) && z.g == Gran(z.room) && z.room > 0 by { RoomFacts(z); }
    var s := Range(0, z.m - 1, Size(z));
    ChosenIsOptimal(Candidates(votes, |votes|), z.room);
    CandSums(z, votes, m);
    CandSums(z, votes, s);
    BlockerFitsScaled(z);
    HonestTooManyBuckets(z);
    FewFit(z, m);
    PowerBound(z, m, Size(z));
  }

  lemma RoomFacts(z: Shape)
    requires ShapeOk(z)
    ensures z.g == Gran(z.room) && z.room > 0 && Size(z) >= 7
  {
  }

  /** Every pass keeps the blocker, and whatever fits beside it falls short. */
  lemma StallFallsShort(z: Shape, votes: seq<Vote>)
    requires Stalls(z, votes)
    ensures Selection(votes, 2 * z.m, |MARKER| + z.room).vp < 2 * z.m
  {
    var budget := |MARKER| + z.room;
    RoomFacts(z);
    forall i | 1 <= i < Size(z)
      ensures !Denser(votes, CandAt(votes, i), CandAt(votes, 0)) && !Stronger(votes, CandAt(votes, i), CandAt(votes, 0))
    {
      BlockerComesFirst(z, votes, i);
    }
    GreedyKeepsBlocker(z, votes, DenserFirst(votes));
    GreedyKeepsBlocker(z, votes, StrongerFirst(votes));
    BackstopKeepsBlocker(z, votes);
    FirstPassIsSound(votes, 2 * z.m, budget);
    TopUpIsSoundAndMaximal(votes, FirstPass(votes, 2 * z.m, budget), budget);
    var f := Selection(votes, 2 * z.m, budget);
    assert f.keep[0];
    BlockedIsShort(z, votes, f.keep);
  }

  lemma {:induction false} StallTotal(z: Shape, votes: seq<Vote>, n: nat)
    requires Stalls(z, votes) && n <= Size(z)
    ensures TotalPower(votes, n) ==
              if n == 0 then 0 else if n <= z.m + 1 then 2 * n + 1 else z.m + 2 + n
  {
    if n > 0 { StallTotal(z, votes, n - 1); }
  }

  /** The honest votes carry exactly the required power. */
  lemma StallRequires(z: Shape, votes: seq<Vote>)
    requires Stalls(z, votes)
    ensures TotalPower(votes, Size(z)) == 3 * z.m - 1 && Required(3 * z.m - 1) == 2 * z.m
    ensures NonNegativePowers(votes)
  {
    StallTotal(z, votes, Size(z));
    assert Required(3 * z.m - 1) >= 2 * z.m && 2 * z.m >= Required(3 * z.m - 1);
  }

  // ---- the limit -------------------------------------------------------------------------------------------------

  predicate DistinctAddresses(votes: seq<Vote>)
  {
    forall i, j :: 0 <= i < j < |votes| ==> votes[i].address != votes[j].address
  }

  /** The hard bound on a single vote extension: peers reject anything larger. */
  const VOTE_EXT_MAX_BYTES: nat := 1048576

  /** The votes of a commit that peers let through: one for each validator, none with an oversized extension. */
  predicate Receivable(votes: seq<Vote>)
  {
    DistinctAddresses(votes) && forall i :: 0 <= i < |votes| ==> |votes[i].ext| <= VOTE_EXT_MAX_BYTES
  }

  /** CometBFT's largest block. */
  const MAX_BLOCK_BYTES: nat := 104857600

  function Room(maxTxBytes: int): (r: int) { Budget(maxTxBytes) - |MARKER| }

  /** Enough honest votes to keep each of them small, and few enough to tell whole buckets from bytes. */
  function Honest(room: int): (m: int) { if room <= 40_000_000 then 45 else 90 }

  function StallShape(room: int): (z: Shape)
    requires room >= BUCKETS
  {
    ShapeFor(room, Honest(room))
  }

  lemma StallShapeIsOk(room: int)
    requires room >= BUCKETS
    ensures ShapeOk(StallShape(room)) && StallShape(room).room == room
  {
    ShapeIsOk(room, Honest(room));
  }

  /** The sizes of the votes, against the room. */
  lemma StallSizes(room: int)
    requires room >= BUCKETS
    ensures var z := StallShape(room); var least := z.g * (z.k - 1);
            && z.m * least + z.g * z.m + z.m + z.g > room >= z.m * least + z.m
            && CostOf(z, 0) == least + 2 * z.g + 1
  {
    StallShapeIsOk(room);
    var z := StallShape(room);
    SizesArith(z.g, z.m, z.k - 1, z.r);
  }

  lemma SizesArith(g: int, m: int, k: int, r: int)
    requires g > 0 && 0 <= r < m
    ensures m * (g * k) <= g * (m * k + r) <= m * (g * k) + g * m - g && g * (k + 2) == g * k + 2 * g
  {
    SizesExpanded(g, m, k, r);
    MulMono(0, r, g);
    MulMono(r + 1, m, g);
    Distribute(r, 1, g);
  }

  lemma SizesExpanded(g: int, m: int, k: int, r: int)
    ensures g * (m * k + r) == m * (g * k) + g * r && g * (k + 2) == g * k + 2 * g
  {
  }

  const SIGNATURE: nat := 64

  /** A vote of the given cost, with an address of 20 bytes and a signature of 64. */
  function VoteOf(i: nat, power: int, cost: int): (v: Vote)
    requires cost > SIGNATURE + VOTE_OVERHEAD
    ensures VoteCost(v) == cost && v.power == power && Usable(v) && v.address == TxKeys.Digits(i, 20)
    ensures |v.ext| == cost - SIGNATURE - VOTE_OVERHEAD
  {
    Vote(TxKeys.Digits(i, 20), power, seq(cost - SIGNATURE - VOTE_OVERHEAD, _ => 0), seq(SIGNATURE, _ => 0), Commit)
  }

  lemma LargeEnough(room: int, i: nat)
    requires room >= BUCKETS
    ensures CostOf(StallShape(room), i) > SIGNATURE + VOTE_OVERHEAD
  {
    StallShapeIsOk(room);
    var z := StallShape(room);
    CostBounds(z, i);
    MulMono(46, z.k - 1, z.g);
  }

  function StallVotes(room: int): (votes: seq<Vote>)
    requires room >= BUCKETS
  {
    StallShapeIsOk(room);
    var z := StallShape(room);
    seq(Size(z), i requires 0 <= i < Size(z) => LargeEnough(room, i); VoteOf(i, PowerOf(z, i), CostOf(z, i)))
  }

  lemma StallVoteAt(room: int, i: nat)
    requires room >= BUCKETS && i < |StallVotes(room)|
    ensures var v, z := StallVotes(room)[i], StallShape(room);
            && VoteCost(v) == CostOf(z, i) && v.power == PowerOf(z, i) && Usable(v)
            && |v.ext| <= CostOf(z, 0) - SIGNATURE - VOTE_OVERHEAD && v.address == TxKeys.Digits(i, 20)
  {
    hide VoteOf, Usable, VoteCost, CostOf;
    StallShapeIsOk(room);
    LargeEnough(room, i);
    CostBounds(StallShape(room), i);
  }

  lemma AddressesDiffer(i: nat, j: nat)
    requires i < j < UINT64
    ensures TxKeys.Digits(i, 20) != TxKeys.Digits(j, 20)
  {
    TxKeys.TwentyDigitsHoldUint64();
    if TxKeys.Digits(i, 20) == TxKeys.Digits(j, 20) { TxKeys.DigitsInjective(i, j, 20); }
  }

  lemma BlockerIsReceivable(room: int)
    requires BUCKETS <= room <= Room(MAX_BLOCK_BYTES)
    ensures CostOf(StallShape(room), 0) - SIGNATURE - VOTE_OVERHEAD <= VOTE_EXT_MAX_BYTES
  {
    StallSizes(room);
  }

  /** For every room of 8192 bytes or more there is such a commit; up to CometBFT's largest block, a receivable one. */
  lemma StallIsReceivable(room: int)
    requires room >= BUCKETS
    ensures Stalls(StallShape(room), StallVotes(room)) && DistinctAddresses(StallVotes(room))
    ensures room <= Room(MAX_BLOCK_BYTES) ==> Receivable(StallVotes(room))
  {
    var z, votes := StallShape(room), StallVotes(room);
    StallShapeIsOk(room);
    assert |votes| == Size(z) < UINT64;
    hide StallVotes, StallShape, Usable, VoteCost, CostOf, PowerOf;
    forall i | 0 <= i < |votes|
      ensures VoteCost(votes[i]) == CostOf(z, i) && votes[i].power == PowerOf(z, i) && Usable(votes[i])
      ensures |votes[i].ext| <= CostOf(z, 0) - SIGNATURE - VOTE_OVERHEAD && votes[i].address == TxKeys.Digits(i, 20)
    {
      StallVoteAt(room, i);
    }
    forall i, j | 0 <= i < j < |votes| ensures votes[i].address != votes[j].address { AddressesDiffer(i, j); }
    if room <= Room(MAX_BLOCK_BYTES) { BlockerIsReceivable(room); }
  }

  /** No trim of a commit of the family is exact. */
  lemma StallIsInexact(z: Shape, votes: seq<Vote>)
    requires Stalls(z, votes)
    ensures NonNegativePowers(votes) && TotalPower(votes, |votes|) > 0
    ensures !Exact(votes, Required(TotalPower(votes, |votes|)), |MARKER| + z.room)
  {
    hide Selection, Achievable, NonNegativePowers, TotalPower;
    StallRequires(z, votes);
    StallFallsShort(z, votes);
    StallIsAchievable(z, votes);
  }

  /** The trim is exact on every commit with one vote for each validator precisely when the room beyond the marker is
      below 8192 bytes; within CometBFT's largest block, the same of every receivable commit. */
  lemma ExactIffFine(budget: int)
    requires |MARKER| < budget
    ensures (forall votes: seq<Vote> ::
               NonNegativePowers(votes) && TotalPower(votes, |votes|) > 0 && DistinctAddresses(votes) ==>
                 Exact(votes, Required(TotalPower(votes, |votes|)), budget))
       <==> budget - |MARKER| < BUCKETS
    ensures budget <= Budget(MAX_BLOCK_BYTES) ==>
              ((forall votes: seq<Vote> ::
                  NonNegativePowers(votes) && TotalPower(votes, |votes|) > 0 && Receivable(votes) ==>
                    Exact(votes, Required(TotalPower(votes, |votes|)), budget))
               <==> budget - |MARKER| < BUCKETS)
  {
    hide Exact, NonNegativePowers, TotalPower, StallVotes, StallShape;
    if budget - |MARKER| < BUCKETS {
      forall votes: seq<Vote> | NonNegativePowers(votes) && TotalPower(votes, |votes|) > 0
        ensures Exact(votes, Required(TotalPower(votes, |votes|)), budget)
      {
        ExactWhenFine(votes, Required(TotalPower(votes, |votes|)), budget);
      }
    } else {
      var room := budget - |MARKER|;
      StallIsReceivable(room);
      StallShapeIsOk(room);
      StallIsInexact(StallShape(room), StallVotes(room));
    }
  }

  // ---- seen from the proposer -----------------------------------------------------------------------------

  /** An encoding is at least as long as what it carries. */
  ghost predicate CarriesPayload(codec: Codec)
  {
    forall ec: ExtendedCommit :: codec.marshal(ec).Some? ==> |codec.marshal(ec).value| >= Payload(ec.votes, |ec.votes|)
  }

  lemma {:induction false} PayloadBound(z: Shape, votes: seq<Vote>, n: nat)
    requires Stalls(z, votes) && n <= Size(z)
    ensures Payload(votes, n) >= n * (z.g * (z.k - 1) + 1 - VOTE_OVERHEAD)
  {
    if n > 0 {
      PayloadBound(z, votes, n - 1);
      CostBounds(z, n - 1);
      var least := z.g * (z.k - 1) + 1 - VOTE_OVERHEAD;
      assert (n - 1) * least + least == n * least;
    }
  }

  /** The votes take almost twice the room, and the block only eight sevenths. */
  lemma StallDoesNotFit(codec: Codec, ec: ExtendedCommit, maxTxBytes: int)
    requires CarriesPayload(codec) && Room(maxTxBytes) >= BUCKETS && Stalls(StallShape(Room(maxTxBytes)), ec.votes)
    ensures !Fits(MarshalInjected(codec, ec), maxTxBytes)
  {
    var room := Room(maxTxBytes);
    var z := StallShape(room);
    var least := z.g * (z.k - 1);
    PayloadBound(z, ec.votes, Size(z));
    StallSizes(room);
    FillsBlock(room, maxTxBytes, least);
  }

  lemma FillsBlock(room: int, maxTxBytes: int, least: int)
    requires room == Room(maxTxBytes) >= BUCKETS
    requires var m, g := Honest(room), Gran(room); m * least + g * m + m + g > room
    ensures |MARKER| + (2 * Honest(room) - 3) * (least + 1 - VOTE_OVERHEAD) >= maxTxBytes
  {
  }

  lemma StallIsShort(ec: ExtendedCommit, maxTxBytes: int)
    requires Room(maxTxBytes) >= BUCKETS && Stalls(StallShape(Room(maxTxBytes)), ec.votes)
    ensures TotalOf(ec) == 3 * Honest(Room(maxTxBytes)) - 1
    ensures Kept(ec, maxTxBytes).vp < Required(TotalOf(ec)) == 2 * Honest(Room(maxTxBytes))
  {
    hide Selection, TotalPower, Budget;
    var z := StallShape(Room(maxTxBytes));
    StallShapeIsOk(Room(maxTxBytes));
    StallRequires(z, ec.votes);
    StallFallsShort(z, ec.votes);
  }

  /**
   * Whatever the codec and the contents of the votes, and for every block that leaves 8192 bytes or more beside the
   * marker: a proposer with this commit injects nothing, though votes with more than two thirds of the power fit.
   */
  lemma StallIsDeclined(codec: Codec, ec: ExtendedCommit, maxTxBytes: int)
    requires CarriesPayload(codec) && Room(maxTxBytes) >= BUCKETS && Stalls(StallShape(Room(maxTxBytes)), ec.votes)
    ensures Injected(codec, ec, maxTxBytes).None?
    ensures TotalOf(ec) > 0 && Achievable(ec.votes, Required(TotalOf(ec)), Budget(maxTxBytes))
  {
    hide Stalls, Selection, Achievable, CarriesPayload, Injected, Fits, Kept, TotalOf, Budget;
    StallShapeIsOk(Room(maxTxBytes));
    StallDoesNotFit(codec, ec, maxTxBytes);
    StallIsShort(ec, maxTxBytes);
    StallIsAchievable(StallShape(Room(maxTxBytes)), ec.votes);
    ShortIsDeclined(codec, ec, maxTxBytes);
  }

  lemma ShortIsDeclined(codec: Codec, ec: ExtendedCommit, maxTxBytes: int)
    requires !Fits(MarshalInjected(codec, ec), maxTxBytes) && TotalOf(ec) > 0
    requires Kept(ec, maxTxBytes).vp < Required(TotalOf(ec))
    ensures Injected(codec, ec, maxTxBytes).None?
  {
    hide Selection, TotalPower;
  }
}
