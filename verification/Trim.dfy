/** Which vote extensions a proposer keeps when the extended commit does not fit: two greedy fills, the
    knapsack as a backstop, and a top-up against the real byte costs. */
module Trim {
  import opened Basics
  import opened Knapsack

  datatype Flag = Unknown | Absent | Commit | Nil

  datatype Vote = Vote(address: Bytes, power: int, ext: Bytes, sig: Bytes, flag: Flag)

  /** The bytes "\0LIMO-DKG-VE\0" that mark the injected pseudo-transaction. */
  const MARKER: Bytes := [0, 76, 73, 77, 79, 45, 68, 75, 71, 45, 86, 69, 0]

  const VOTE_OVERHEAD := 24

  /** Only a Commit vote with an extension and a signature can be kept. */
  predicate Usable(v: Vote) { v.flag.Commit? && v.ext != [] && v.sig != [] }

  function VoteCost(v: Vote): (c: int)
    ensures c >= 24
  {
    |v.ext| + |v.sig| + VOTE_OVERHEAD
  }

  function VotePowers(votes: seq<Vote>): (r: seq<int>) { seq(|votes|, i requires 0 <= i < |votes| => votes[i].power) }

  function VoteCosts(votes: seq<Vote>): (r: seq<int>) { seq(|votes|, i requires 0 <= i < |votes| => VoteCost(votes[i])) }

  /** The voting power of the kept votes. */
  function Power(votes: seq<Vote>, keep: seq<bool>): (p: int)
    requires |keep| == |votes|
  {
    Sum(VotePowers(votes), keep, |votes|)
  }

  /** The estimated bytes of the kept votes. */
  function Cost(votes: seq<Vote>, keep: seq<bool>): (c: int)
    requires |keep| == |votes|
  {
    Sum(VoteCosts(votes), keep, |votes|)
  }

  predicate Selects(votes: seq<Vote>, keep: seq<bool>)
  {
    |keep| == |votes| && forall i :: 0 <= i < |votes| && keep[i] ==> Usable(votes[i])
  }

  predicate NonNegativePowers(votes: seq<Vote>)
  {
    forall i :: 0 <= i < |votes| ==> votes[i].power >= 0
  }

  function TotalPower(votes: seq<Vote>, n: nat): (p: int)
    requires n <= |votes|
  {
    if n == 0 then 0 else TotalPower(votes, n - 1) + votes[n - 1].power
  }

  /** The least power that is strictly more than two thirds of a positive total. */
  function Required(total: int): (r: int)
    requires total > 0
    ensures forall p: int :: p >= r <==> 3 * p > 2 * total
  {
    (total * 2) / 3 + 1
  }

  // ---- candidates ----------------------------------------------------------------------------------

  function CandAt(votes: seq<Vote>, i: nat): (c: Cand)
    requires i < |votes|
  {
    Cand(i, votes[i].power, VoteCost(votes[i]))
  }

  /** The usable votes among the first `n`, in commit order. */
  function Candidates(votes: seq<Vote>, n: nat): (r: seq<Cand>)
    requires n <= |votes|
  {
    if n == 0 then []
    else if Usable(votes[n - 1]) then Candidates(votes, n - 1) + [CandAt(votes, n - 1)]
    else Candidates(votes, n - 1)
  }

  /** `order` lists usable votes, each at most once. */
  predicate IsOrder(votes: seq<Vote>, order: seq<Cand>)
  {
    (forall k :: 0 <= k < |order| ==> CandOf(votes, order[k])) &&
    (forall j, k :: 0 <= j < k < |order| ==> order[j].idx != order[k].idx)
  }

  predicate CandOf(votes: seq<Vote>, c: Cand)
  {
    c.idx < |votes| && c == CandAt(votes, c.idx) && Usable(votes[c.idx])
  }

  lemma {:induction false} CandidatesAreOrdered(votes: seq<Vote>, n: nat)
    requires n <= |votes|
    ensures IsOrder(votes, Candidates(votes, n))
    ensures forall k :: 0 <= k < |Candidates(votes, n)| ==> Candidates(votes, n)[k].idx < n
    ensures forall j, k :: 0 <= j < k < |Candidates(votes, n)| ==> Candidates(votes, n)[j].idx < Candidates(votes, n)[k].idx
    ensures forall i :: 0 <= i < n && Usable(votes[i]) ==> CandAt(votes, i) in Candidates(votes, n)
  {
    if n > 0 {
      CandidatesAreOrdered(votes, n - 1);
      if Usable(votes[n - 1]) {
        var r := Candidates(votes, n);
        assert r[|r| - 1] == CandAt(votes, n - 1);
      }
    }
  }

  /** Sums over the candidates agree with sums over the votes. */
  lemma {:induction false} CandidateSums(votes: seq<Vote>, keep: seq<bool>, n: nat)
    requires n <= |votes| && Selects(votes, keep)
    requires forall k :: 0 <= k < |Candidates(votes, n)| ==> Candidates(votes, n)[k].idx < n
    ensures var cs := Candidates(votes, n); var m := MaskOf(cs, keep);
            && Sum(Powers(cs), m, |cs|) == Sum(VotePowers(votes), keep, n)
            && Sum(Costs(cs), m, |cs|) == Sum(VoteCosts(votes), keep, n)
            && Count(m, |cs|) == Count(keep, n)
  {
    if n > 0 {
      CandidatesAreOrdered(votes, n - 1);
      CandidateSums(votes, keep, n - 1);
      if Usable(votes[n - 1]) {
        SumsWithOneMore(Candidates(votes, n - 1), CandAt(votes, n - 1), keep);
      }
    }
  }

  lemma SumsWithOneMore(ds: seq<Cand>, c: Cand, keep: seq<bool>)
    requires c.idx < |keep| && forall k :: 0 <= k < |ds| ==> ds[k].idx < |keep|
    ensures var cs := ds + [c]; var m, l := MaskOf(cs, keep), MaskOf(ds, keep);
            && Sum(Powers(cs), m, |cs|) == Sum(Powers(ds), l, |ds|) + (if keep[c.idx] then c.vp else 0)
            && Sum(Costs(cs), m, |cs|) == Sum(Costs(ds), l, |ds|) + (if keep[c.idx] then c.cost else 0)
            && Count(m, |cs|) == Count(l, |ds|) + (if keep[c.idx] then 1 else 0)
  {
    var cs := ds + [c];
    SumExtend(Powers(ds), Powers(cs), MaskOf(ds, keep), MaskOf(cs, keep), |ds|);
    SumExtend(Costs(ds), Costs(cs), MaskOf(ds, keep), MaskOf(cs, keep), |ds|);
    CountPrefix(MaskOf(ds, keep), MaskOf(cs, keep), |ds|);
  }

  lemma SumExtend(v: seq<int>, w: seq<int>, s: seq<bool>, t: seq<bool>, n: nat)
    requires n <= |v| && n <= |w| && n <= |s| && n <= |t|
    requires forall i :: 0 <= i < n ==> v[i] == w[i] && s[i] == t[i]
    ensures Sum(v, s, n) == Sum(w, t, n)
  {
    SumWeightsPrefix(v, w, s, n);
    SumPrefix(w, s, t, n);
  }

  lemma {:induction false} CountPrefix(s: seq<bool>, t: seq<bool>, n: nat)
    requires n <= |s| && n <= |t|
    requires forall i :: 0 <= i < n ==> s[i] == t[i]
    ensures Count(s, n) == Count(t, n)
  {
    if n > 0 { CountPrefix(s, t, n - 1); }
  }

  // ---- filling the budget in a given order -----------------------------------------------------------

  datatype Fill = Fill(keep: seq<bool>, vp: int, used: int)

  /** The state after offering the first `n` candidates of `order`: each is kept if it still fits. */
  function FillIn(order: seq<Cand>, n: nat, start: Fill, budget: int): (r: Fill)
    requires n <= |order| && forall k :: 0 <= k < |order| ==> order[k].idx < |start.keep|
    ensures |r.keep| == |start.keep|
  {
    if n == 0 then start
    else
      var f := FillIn(order, n - 1, start, budget);
      var c := order[n - 1];
      if f.used + c.cost > budget then f
      else Fill(f.keep[c.idx := true], f.vp + c.vp, f.used + c.cost)
  }

  /** The counters describe the kept set, and the kept set fits. */
  predicate Sound(votes: seq<Vote>, f: Fill, budget: int)
  {
    Selects(votes, f.keep) && f.vp == Power(votes, f.keep) && f.used == |MARKER| + Cost(votes, f.keep) <= budget
  }

  lemma {:induction false} FillIsSound(votes: seq<Vote>, order: seq<Cand>, n: nat, start: Fill, budget: int)
    requires IsOrder(votes, order) && n <= |order| && Sound(votes, start, budget)
    requires forall k :: 0 <= k < |order| ==> !start.keep[order[k].idx]
    ensures var f := FillIn(order, n, start, budget);
            && Sound(votes, f, budget)
            && (forall i :: 0 <= i < |votes| && start.keep[i] ==> f.keep[i])
            && (forall k :: n <= k < |order| ==> !f.keep[order[k].idx])
            && (NonNegativePowers(votes) ==> start.vp <= f.vp)
  {
    if n > 0 {
      FillIsSound(votes, order, n - 1, start, budget);
      var f, c := FillIn(order, n - 1, start, budget), order[n - 1];
      assert CandOf(votes, c);
      SumSelect(VotePowers(votes), f.keep, c.idx, |votes|);
      SumSelect(VoteCosts(votes), f.keep, c.idx, |votes|);
    }
  }

  /** A fill is maximal: an offered candidate that was not kept does not fit in the end either. */
  lemma {:induction false} FillIsMaximal(votes: seq<Vote>, order: seq<Cand>, n: nat, start: Fill, budget: int)
    requires IsOrder(votes, order) && n <= |order| && |start.keep| == |votes|
    ensures var f := FillIn(order, n, start, budget);
            forall k :: 0 <= k < n ==> f.keep[order[k].idx] || f.used + order[k].cost > budget
  {
    if n > 0 {
      FillIsMaximal(votes, order, n - 1, start, budget);
    }
  }

  // ---- the orders -------------------------------------------------------------------------------------

  function Addr(votes: seq<Vote>, c: Cand): (a: Bytes) { if c.idx < |votes| then votes[c.idx].address else [] }

  /** More power per byte, by cross-multiplication; then the lower address. */
  predicate Denser(votes: seq<Vote>, l: Cand, r: Cand)
  {
    if l.vp * r.cost != r.vp * l.cost then l.vp * r.cost > r.vp * l.cost
    else LexLess(Addr(votes, l), Addr(votes, r))
  }

  /** More power; then the lower address. */
  predicate Stronger(votes: seq<Vote>, l: Cand, r: Cand)
  {
    if l.vp != r.vp then l.vp > r.vp else LexLess(Addr(votes, l), Addr(votes, r))
  }

  function DenserFirst(votes: seq<Vote>): (f: (Cand, Cand) -> bool) { (l, r) => Denser(votes, l, r) }

  function StrongerFirst(votes: seq<Vote>): (f: (Cand, Cand) -> bool) { (l, r) => Stronger(votes, l, r) }

  lemma SortedOrder(votes: seq<Vote>, cands: seq<Cand>, before: (Cand, Cand) -> bool)
    requires IsOrder(votes, cands)
    ensures IsOrder(votes, StableSort(cands, before))
    ensures |StableSort(cands, before)| == |cands|
    ensures forall c :: c in StableSort(cands, before) <==> c in cands
  {
    SortMembers(cands, before);
  }

  // ---- the selection ------------------------------------------------------------------------------------

  function Nothing(votes: seq<Vote>): (f: Fill) { Fill(seq(|votes|, _ => false), 0, |MARKER|) }

  function Greedy(votes: seq<Vote>, before: (Cand, Cand) -> bool, budget: int): (f: Fill)
  {
    var cands := Candidates(votes, |votes|);
    CandidatesAreOrdered(votes, |votes|);
    SortedOrder(votes, cands, before);
    FillIn(StableSort(cands, before), |cands|, Nothing(votes), budget)
  }

  function Backstop(votes: seq<Vote>, budget: int): (f: Fill)
  {
    var cands := Candidates(votes, |votes|);
    CandidatesAreOrdered(votes, |votes|);
    var m := Chosen(cands, budget - |MARKER|);
    Fill(Marked(cands, m, 0, |votes|), Sum(Powers(cands), m, |cands|), |MARKER| + Sum(Costs(cands), m, |cands|))
  }

  /** The candidates among the first `n` that are not kept. */
  function Dropped(cands: seq<Cand>, keep: seq<bool>, n: nat): (r: seq<Cand>)
    requires n <= |cands| && forall k :: 0 <= k < |cands| ==> cands[k].idx < |keep|
  {
    if n == 0 then []
    else if keep[cands[n - 1].idx] then Dropped(cands, keep, n - 1)
    else Dropped(cands, keep, n - 1) + [cands[n - 1]]
  }

  lemma {:induction false} DroppedMembers(votes: seq<Vote>, cands: seq<Cand>, keep: seq<bool>, n: nat)
    requires n <= |cands| && IsOrder(votes, cands) && |keep| == |votes|
    ensures IsOrder(votes, Dropped(cands, keep, n))
    ensures forall k :: 0 <= k < |Dropped(cands, keep, n)| ==>
              Dropped(cands, keep, n)[k] in cands[..n] && !keep[Dropped(cands, keep, n)[k].idx]
    ensures forall k :: 0 <= k < n && !keep[cands[k].idx] ==> cands[k] in Dropped(cands, keep, n)
  {
    if n > 0 {
      DroppedMembers(votes, cands, keep, n - 1);
      assert cands[..n] == cands[..n - 1] + [cands[n - 1]];
      var d := Dropped(cands, keep, n);
      if !keep[cands[n - 1].idx] {
        assert d[|d| - 1] == cands[n - 1];
        forall j | 0 <= j < |d| - 1 ensures d[j].idx != cands[n - 1].idx {
          assert d[j] in cands[..n - 1];
        }
      }
    }
  }

  /** The dropped candidates, strongest first, are offered what is left of the real budget. */
  function TopUp(votes: seq<Vote>, f: Fill, budget: int): (r: Fill)
    requires |f.keep| == |votes|
  {
    var cands := Candidates(votes, |votes|);
    CandidatesAreOrdered(votes, |votes|);
    var dropped := Dropped(cands, f.keep, |cands|);
    DroppedMembers(votes, cands, f.keep, |cands|);
    SortedOrder(votes, dropped, StrongerFirst(votes));
    FillIn(StableSort(dropped, StrongerFirst(votes)), |dropped|, f, budget)
  }

  /** What the first pass that reaches `required` keeps, or else the backstop. */
  function FirstPass(votes: seq<Vote>, required: int, budget: int): (f: Fill)
    ensures |f.keep| == |votes|
  {
    var d := Greedy(votes, DenserFirst(votes), budget);
    if d.vp >= required then d
    else
      var p := Greedy(votes, StrongerFirst(votes), budget);
      if p.vp >= required then p else Backstop(votes, budget)
  }

  function Selection(votes: seq<Vote>, required: int, budget: int): (f: Fill)
  {
    TopUp(votes, FirstPass(votes, required, budget), budget)
  }

  // ---- soundness ------------------------------------------------------------------------------------------

  lemma GreedyIsSound(votes: seq<Vote>, before: (Cand, Cand) -> bool, budget: int)
    requires |MARKER| <= budget
    ensures Sound(votes, Greedy(votes, before, budget), budget)
  {
    var cands := Candidates(votes, |votes|);
    CandidatesAreOrdered(votes, |votes|);
    SortedOrder(votes, cands, before);
    var none := Nothing(votes);
    SumNone(VotePowers(votes), none.keep, |votes|);
    SumNone(VoteCosts(votes), none.keep, |votes|);
    FillIsSound(votes, StableSort(cands, before), |cands|, none, budget);
  }

  lemma BackstopIsSound(votes: seq<Vote>, budget: int)
    requires |MARKER| < budget
    ensures Sound(votes, Backstop(votes, budget), budget)
  {
    var cands := Candidates(votes, |votes|);
    CandidatesAreOrdered(votes, |votes|);
    var m := Chosen(cands, budget - |MARKER|);
    var keep := Marked(cands, m, 0, |votes|);
    MarkedIsKept(cands, m, 0, |votes|);
    assert MaskOf(cands, keep) == m;
    KeptAreUsable(votes, cands, keep);
    CandidateSums(votes, keep, |votes|);
    hide Candidates, Chosen, Marked;
    ChosenIsOptimal(cands, budget - |MARKER|);
  }

  lemma KeptAreUsable(votes: seq<Vote>, cands: seq<Cand>, keep: seq<bool>)
    requires IsOrder(votes, cands) && |keep| == |votes| && KeepsOnly(cands, keep)
    ensures Selects(votes, keep)
  {
    forall j | 0 <= j < |votes| && keep[j] ensures Usable(votes[j]) {
      var i :| 0 <= i < |cands| && cands[i].idx == j;
      assert CandOf(votes, cands[i]);
    }
  }

  lemma FirstPassIsSound(votes: seq<Vote>, required: int, budget: int)
    requires |MARKER| < budget
    ensures Sound(votes, FirstPass(votes, required, budget), budget)
  {
    GreedyIsSound(votes, DenserFirst(votes), budget);
    GreedyIsSound(votes, StrongerFirst(votes), budget);
    BackstopIsSound(votes, budget);
  }

  /** A dropped usable vote does not fit what is left. */
  predicate Maximal(votes: seq<Vote>, f: Fill, budget: int)
    requires |f.keep| == |votes|
  {
    forall i :: 0 <= i < |votes| && Usable(votes[i]) && !f.keep[i] ==> f.used + VoteCost(votes[i]) > budget
  }

  lemma TopUpIsSoundAndMaximal(votes: seq<Vote>, f: Fill, budget: int)
    requires Sound(votes, f, budget)
    ensures Sound(votes, TopUp(votes, f, budget), budget) && Maximal(votes, TopUp(votes, f, budget), budget)
    ensures forall i :: 0 <= i < |votes| && f.keep[i] ==> TopUp(votes, f, budget).keep[i]
    ensures NonNegativePowers(votes) ==> f.vp <= TopUp(votes, f, budget).vp
  {
    var cands := Candidates(votes, |votes|);
    CandidatesAreOrdered(votes, |votes|);
    var dropped := Dropped(cands, f.keep, |cands|);
    DroppedMembers(votes, cands, f.keep, |cands|);
    var order := StableSort(dropped, StrongerFirst(votes));
    SortedOrder(votes, dropped, StrongerFirst(votes));
    forall k | 0 <= k < |order| ensures !f.keep[order[k].idx] {
      assert order[k] in dropped;
    }
    FillIsSound(votes, order, |dropped|, f, budget);
    FillIsMaximal(votes, order, |dropped|, f, budget);
    var r := TopUp(votes, f, budget);
    forall i | 0 <= i < |votes| && Usable(votes[i]) && !r.keep[i] ensures r.used + VoteCost(votes[i]) > budget {
      var c := CandAt(votes, i);
      assert c in cands;
      var k :| 0 <= k < |cands| && cands[k] == c;
      assert c in dropped;
      assert c in order;
      var j :| 0 <= j < |order| && order[j] == c;
      assert r.keep[order[j].idx] || r.used + order[j].cost > budget;
    }
  }

  /** Whatever the path taken: the counters are right, the kept set fits, and nothing more would. */
  lemma SelectionIsSound(votes: seq<Vote>, required: int, budget: int)
    requires |MARKER| < budget
    ensures Sound(votes, Selection(votes, required, budget), budget)
    ensures Maximal(votes, Selection(votes, required, budget), budget)
  {
    FirstPassIsSound(votes, required, budget);
    TopUpIsSoundAndMaximal(votes, FirstPass(votes, required, budget), budget);
  }

  // ---- completeness -----------------------------------------------------------------------------------------

  /** A set of votes that fits with one bucket to spare per vote, and one more. */
  predicate FitsWithSlack(votes: seq<Vote>, s: seq<bool>, room: int)
    requires |s| == |votes| && room > 0
  {
    Cost(votes, s) + (Count(s, |votes|) + 1) * (Gran(room) - 1) <= room
  }

  lemma BackstopIsBest(votes: seq<Vote>, budget: int, s: seq<bool>)
    requires |MARKER| < budget && Selects(votes, s) && FitsWithSlack(votes, s, budget - |MARKER|)
    ensures Power(votes, s) <= Backstop(votes, budget).vp
  {
    var cands := Candidates(votes, |votes|);
    CandidatesAreOrdered(votes, |votes|);
    CandidateSums(votes, s, |votes|);
    forall i | 0 <= i < |cands| ensures cands[i].cost >= 1 { assert CandOf(votes, cands[i]); }
    SlackBound(cands, budget - |MARKER|, MaskOf(cands, s));
  }

  /** Falling short of the required power means that no set that fits with slack reaches it. */
  lemma SelectionIsComplete(votes: seq<Vote>, required: int, budget: int, s: seq<bool>)
    requires |MARKER| < budget && NonNegativePowers(votes)
    requires Selects(votes, s) && FitsWithSlack(votes, s, budget - |MARKER|)
    requires Power(votes, s) >= required
    ensures Selection(votes, required, budget).vp >= required
  {
    BackstopIsBest(votes, budget, s);
    FirstPassIsSound(votes, required, budget);
    TopUpIsSoundAndMaximal(votes, FirstPass(votes, required, budget), budget);
  }

  /** Some usable votes fit the budget and carry the required power. */
  ghost predicate Achievable(votes: seq<Vote>, required: int, budget: int)
  {
    exists s: seq<bool> :: Selects(votes, s) && |MARKER| + Cost(votes, s) <= budget && Power(votes, s) >= required
  }

  /** The trim keeps enough power exactly when that is possible at all. */
  ghost predicate Exact(votes: seq<Vote>, required: int, budget: int)
  {
    Selection(votes, required, budget).vp >= required <==> Achievable(votes, required, budget)
  }

  /** With one byte per bucket the trim is exact. */
  lemma ExactWhenFine(votes: seq<Vote>, required: int, budget: int)
    requires |MARKER| < budget < |MARKER| + BUCKETS && NonNegativePowers(votes)
    ensures Exact(votes, required, budget)
  {
    SelectionIsSound(votes, required, budget);
    if Achievable(votes, required, budget) {
      var s: seq<bool> :| Selects(votes, s) && |MARKER| + Cost(votes, s) <= budget && Power(votes, s) >= required;
      SelectionIsComplete(votes, required, budget, s);
    }
  }
}
