/** Which votes the trim prefers, in powers, bytes and addresses alone. */
module TrimOrders {
  import opened Basics
  import opened Knapsack
  import opened Trim

  type Ahead = (nat, nat) -> bool

  /** At equal standing the lower address goes first; votes under one address go in commit order. */
  predicate AddressAhead(votes: seq<Vote>, i: nat, j: nat)
    requires i < |votes| && j < |votes|
  {
    LexLess(votes[i].address, votes[j].address) || (votes[i].address == votes[j].address && i < j)
  }

  /** Vote `i` has more power for each byte than vote `j`, or as much and the lower address. */
  predicate DensityAhead(votes: seq<Vote>, i: nat, j: nat)
    requires i < |votes| && j < |votes|
  {
    var l, r := votes[i].power * VoteCost(votes[j]), votes[j].power * VoteCost(votes[i]);
    l > r || (l == r && AddressAhead(votes, i, j))
  }

  /** Vote `i` has more power than vote `j`, or as much and the lower address. */
  predicate PowerAhead(votes: seq<Vote>, i: nat, j: nat)
    requires i < |votes| && j < |votes|
  {
    votes[i].power > votes[j].power || (votes[i].power == votes[j].power && AddressAhead(votes, i, j))
  }

  function ByDensity(votes: seq<Vote>): (f: Ahead)
  {
    (i: nat, j: nat) => i < |votes| && j < |votes| && DensityAhead(votes, i, j)
  }

  function ByPower(votes: seq<Vote>): (f: Ahead)
  {
    (i: nat, j: nat) => i < |votes| && j < |votes| && PowerAhead(votes, i, j)
  }

  /** The kept votes that were there from the start, or are ahead of vote `j`. */
  function KeptAhead(keep: seq<bool>, start: seq<bool>, ahead: Ahead, j: nat): (m: seq<bool>)
    requires |start| == |keep|
    ensures |m| == |keep|
  {
    seq(|keep|, i requires 0 <= i < |keep| => keep[i] && (start[i] || ahead(i, j)))
  }

  /** Vote `j` fits beside the kept votes that were there from the start or are ahead of it. */
  predicate FitsInTurn(votes: seq<Vote>, keep: seq<bool>, start: seq<bool>, ahead: Ahead, budget: int, j: nat)
    requires |keep| == |start| == |votes| && j < |votes|
  {
    |MARKER| + Cost(votes, KeptAhead(keep, start, ahead, j)) + VoteCost(votes[j]) <= budget
  }

  // ---- a fill, position by position ----------------------------------------------------------------------------

  lemma {:induction false} FillGrows(order: seq<Cand>, p: nat, n: nat, start: Fill, budget: int, i: nat)
    requires p <= n <= |order| && i < |start.keep| && forall k :: 0 <= k < |order| ==> order[k].idx < |start.keep|
    ensures FillIn(order, p, start, budget).keep[i] ==> FillIn(order, n, start, budget).keep[i]
    ensures (forall q :: p <= q < n ==> order[q].idx != i) ==>
              FillIn(order, n, start, budget).keep[i] == FillIn(order, p, start, budget).keep[i]
  {
    if p < n { FillGrows(order, p, n - 1, start, budget, i); }
  }

  /** A candidate is kept exactly when it fits what is in use when its turn comes. */
  lemma FillDecides(votes: seq<Vote>, order: seq<Cand>, p: nat, start: Fill, budget: int)
    requires IsOrder(votes, order) && p < |order| && |start.keep| == |votes|
    requires forall k :: 0 <= k < |order| ==> !start.keep[order[k].idx]
    ensures FillIn(order, |order|, start, budget).keep[order[p].idx] <==>
              FillIn(order, p, start, budget).used + order[p].cost <= budget
  {
    var i := order[p].idx;
    FillGrows(order, p + 1, |order|, start, budget, i);
    FillGrows(order, 0, p, start, budget, i);
    assert FillIn(order, 0, start, budget) == start;
  }

  /** What is kept when the turn of position `p` comes: what is kept in the end, from the start or from an earlier turn. */
  lemma KeptBefore(votes: seq<Vote>, order: seq<Cand>, p: nat, start: Fill, budget: int, i: nat)
    requires IsOrder(votes, order) && p <= |order| && i < |votes| == |start.keep|
    ensures FillIn(order, p, start, budget).keep[i] <==>
              && FillIn(order, |order|, start, budget).keep[i]
              && (start.keep[i] || exists q :: 0 <= q < p && order[q].idx == i)
  {
    FillGrows(order, p, |order|, start, budget, i);
    FillGrows(order, 0, p, start, budget, i);
    assert FillIn(order, 0, start, budget) == start;
  }

  // ---- a fill in a sorted order ----------------------------------------------------------------------------------

  function ByIndex(): (f: (Cand, Cand) -> bool) { (x: Cand, y: Cand) => x.idx < y.idx }

  /** `ahead` is what the comparison makes of the candidates, ties going by index. */
  ghost predicate Describes(cands: seq<Cand>, before: (Cand, Cand) -> bool, ahead: Ahead)
  {
    && WeakOrderOn(cands, before)
    && (forall x, y :: x in cands && y in cands ==> (ThenBy(before, ByIndex(), x, y) <==> ahead(x.idx, y.idx)))
  }

  predicate Ascending(cands: seq<Cand>) { forall i, j :: 0 <= i < j < |cands| ==> cands[i].idx < cands[j].idx }

  /** In the sorted order, exactly the votes ahead come earlier. */
  lemma EarlierIffAhead(votes: seq<Vote>, cands: seq<Cand>, before: (Cand, Cand) -> bool, ahead: Ahead, p: nat, q: nat)
    requires IsOrder(votes, cands) && Ascending(cands) && Describes(cands, before, ahead)
    requires p < |StableSort(cands, before)| && q < |StableSort(cands, before)|
    ensures q < p <==> ahead(StableSort(cands, before)[q].idx, StableSort(cands, before)[p].idx)
  {
    hide StableSort;
    var order := StableSort(cands, before);
    SortMembers(cands, before);
    SortIsStable(cands, before, ByIndex());
    assert order[p] in cands && order[q] in cands;
    if q < p { assert ThenBy(before, ByIndex(), order[q], order[p]); }
    if p < q { assert ThenBy(before, ByIndex(), order[p], order[q]); }
  }

  lemma KeptAheadIsKeptBefore(votes: seq<Vote>, cands: seq<Cand>, before: (Cand, Cand) -> bool, ahead: Ahead,
                              start: Fill, budget: int, p: nat, i: nat)
    requires IsOrder(votes, cands) && Ascending(cands) && Describes(cands, before, ahead)
    requires IsOrder(votes, StableSort(cands, before)) && |StableSort(cands, before)| == |cands|
    requires p < |cands| && i < |votes| == |start.keep|
    ensures var order := StableSort(cands, before);
            FillIn(order, p, start, budget).keep[i] <==>
              && FillIn(order, |order|, start, budget).keep[i]
              && (start.keep[i] || ahead(i, order[p].idx))
  {
    var order := StableSort(cands, before);
    KeptBefore(votes, order, p, start, budget, i);
    if q :| 0 <= q < |order| && order[q].idx == i {
      EarlierIffAhead(votes, cands, before, ahead, p, q);
    } else {
      FillGrows(order, 0, |order|, start, budget, i);
      assert FillIn(order, 0, start, budget) == start;
    }
  }

  /** An offered vote is kept exactly when it fits beside the votes kept from the start and the kept votes ahead of it. */
  lemma OfferedIff(votes: seq<Vote>, cands: seq<Cand>, before: (Cand, Cand) -> bool, ahead: Ahead, start: Fill,
                   budget: int, j: nat)
    requires IsOrder(votes, cands) && Ascending(cands) && Describes(cands, before, ahead)
    requires IsOrder(votes, StableSort(cands, before)) && |StableSort(cands, before)| == |cands|
    requires Sound(votes, start, budget) && forall k :: 0 <= k < |cands| ==> !start.keep[cands[k].idx]
    requires j < |votes| && CandAt(votes, j) in cands
    ensures var f := FillIn(StableSort(cands, before), |cands|, start, budget);
            f.keep[j] <==> FitsInTurn(votes, f.keep, start.keep, ahead, budget, j)
  {
    hide StableSort, FillIn, Describes;
    var order := StableSort(cands, before);
    SortMembers(cands, before);
    var p :| 0 <= p < |order| && order[p] == CandAt(votes, j);
    forall k | 0 <= k < |order| ensures !start.keep[order[k].idx] { assert order[k] in cands; }
    FillDecides(votes, order, p, start, budget);
    FillIsSound(votes, order, p, start, budget);
    var f, g := FillIn(order, |cands|, start, budget), FillIn(order, p, start, budget);
    forall i | 0 <= i < |votes| ensures g.keep[i] == KeptAhead(f.keep, start.keep, ahead, j)[i] {
      KeptAheadIsKeptBefore(votes, cands, before, ahead, start, budget, p, i);
    }
    assert g.keep == KeptAhead(f.keep, start.keep, ahead, j);
  }

  // ---- the two comparisons -----------------------------------------------------------------------------------------

  /** Cross-multiplied quotients of positive costs compare like the quotients. */
  lemma QuotientsTransitive(a: int, b: int, c: int, ca: int, cb: int, cc: int)
    requires ca > 0 && cb > 0 && cc > 0 && a * cb <= b * ca && b * cc <= c * cb
    ensures a * cc <= c * ca && (a * cc == c * ca ==> a * cb == b * ca && b * cc == c * cb)
  {
    MulMono(a * cb, b * ca, cc);
    MulMono(b * cc, c * cb, ca);
    Reassociated(a, b, c, ca, cb, cc);
    MulMono(a * cc, c * ca, cb);
    MulMono(b * ca, a * cb, cc);
    MulMono(c * cb, b * cc, ca);
  }

  lemma Reassociated(a: int, b: int, c: int, ca: int, cb: int, cc: int)
    ensures a * cb * cc == a * cc * cb && b * ca * cc == b * cc * ca && c * cb * ca == c * ca * cb
  {
  }

  lemma NotLexTransitive(a: Bytes, b: Bytes, c: Bytes)
    requires !LexLess(a, b) && !LexLess(b, c)
    ensures !LexLess(a, c)
  {
    LexTotal(a, b);
    LexTotal(b, c);
    if LexLess(a, c) && LexLess(b, a) { LexTransitive(b, a, c); }
  }

  lemma LexAsymmetric(a: Bytes, b: Bytes)
    ensures !(LexLess(a, b) && LexLess(b, a))
  {
    if LexLess(a, b) && LexLess(b, a) {
      LexTransitive(a, b, a);
      LexIrreflexive(a);
    }
  }

  lemma DenserDescribes(votes: seq<Vote>, cands: seq<Cand>)
    requires IsOrder(votes, cands)
    ensures Describes(cands, DenserFirst(votes), ByDensity(votes))
  {
    var before := DenserFirst(votes);
    forall x, y | x in cands && y in cands
      ensures before(x, y) ==> !before(y, x)
      ensures ThenBy(before, ByIndex(), x, y) <==> ByDensity(votes)(x.idx, y.idx)
    {
      InVotes(votes, cands, x);
      InVotes(votes, cands, y);
      LexAsymmetric(Addr(votes, x), Addr(votes, y));
      LexTotal(Addr(votes, x), Addr(votes, y));
    }
    forall x, y, z | x in cands && y in cands && z in cands && !before(x, y) && !before(y, z)
      ensures !before(x, z)
    {
      InVotes(votes, cands, x);
      InVotes(votes, cands, y);
      InVotes(votes, cands, z);
      DenserTransitive(votes, x, y, z);
    }
  }

  lemma DenserTransitive(votes: seq<Vote>, x: Cand, y: Cand, z: Cand)
    requires x.cost > 0 && y.cost > 0 && z.cost > 0 && !Denser(votes, x, y) && !Denser(votes, y, z)
    ensures !Denser(votes, x, z)
  {
    hide LexLess;
    QuotientsTransitive(x.vp, y.vp, z.vp, x.cost, y.cost, z.cost);
    if x.vp * z.cost == z.vp * x.cost {
      NotLexTransitive(Addr(votes, x), Addr(votes, y), Addr(votes, z));
    }
  }

  lemma InVotes(votes: seq<Vote>, cands: seq<Cand>, x: Cand)
    requires IsOrder(votes, cands) && x in cands
    ensures x.idx < |votes| && x == CandAt(votes, x.idx)
  {
    var k :| 0 <= k < |cands| && cands[k] == x;
    assert CandOf(votes, cands[k]);
  }

  lemma StrongerDescribes(votes: seq<Vote>, cands: seq<Cand>)
    requires IsOrder(votes, cands)
    ensures Describes(cands, StrongerFirst(votes), ByPower(votes))
  {
    var before := StrongerFirst(votes);
    forall x, y | x in cands && y in cands
      ensures before(x, y) ==> !before(y, x)
      ensures ThenBy(before, ByIndex(), x, y) <==> ByPower(votes)(x.idx, y.idx)
    {
      InVotes(votes, cands, x);
      InVotes(votes, cands, y);
      LexAsymmetric(Addr(votes, x), Addr(votes, y));
      LexTotal(Addr(votes, x), Addr(votes, y));
    }
    forall x, y, z | x in cands && y in cands && z in cands && !before(x, y) && !before(y, z)
      ensures !before(x, z)
    {
      if x.vp == y.vp == z.vp { NotLexTransitive(Addr(votes, x), Addr(votes, y), Addr(votes, z)); }
    }
  }

  // ---- the passes ------------------------------------------------------------------------------------------------

  lemma GreedyIff(votes: seq<Vote>, before: (Cand, Cand) -> bool, ahead: Ahead, budget: int, j: nat)
    requires |MARKER| <= budget && j < |votes| && Describes(Candidates(votes, |votes|), before, ahead)
    ensures var keep := Greedy(votes, before, budget).keep;
            |keep| == |votes| && (keep[j] <==> Usable(votes[j]) && FitsInTurn(votes, keep, Nothing(votes).keep, ahead, budget, j))
  {
    hide StableSort, FillIn, Describes, Candidates, FitsInTurn;
    var cands, none := Candidates(votes, |votes|), Nothing(votes);
    CandidatesAreOrdered(votes, |votes|);
    SortedOrder(votes, cands, before);
    GreedyIsSound(votes, before, budget);
    NothingIsSound(votes, budget);
    if Usable(votes[j]) { OfferedIff(votes, cands, before, ahead, none, budget, j); }
  }

  lemma NothingIsSound(votes: seq<Vote>, budget: int)
    requires |MARKER| <= budget
    ensures Sound(votes, Nothing(votes), budget)
  {
    SumNone(VotePowers(votes), Nothing(votes).keep, |votes|);
    SumNone(VoteCosts(votes), Nothing(votes).keep, |votes|);
  }

  /** The density pass keeps a usable vote exactly when it fits beside the kept votes that are denser, or as dense with a
      lower address. */
  lemma DensityPassIff(votes: seq<Vote>, budget: int, j: nat)
    requires |MARKER| <= budget && j < |votes|
    ensures var keep := Greedy(votes, DenserFirst(votes), budget).keep;
            |keep| == |votes| &&
            (keep[j] <==> Usable(votes[j]) && FitsInTurn(votes, keep, Nothing(votes).keep, ByDensity(votes), budget, j))
  {
    CandidatesAreOrdered(votes, |votes|);
    DenserDescribes(votes, Candidates(votes, |votes|));
    GreedyIff(votes, DenserFirst(votes), ByDensity(votes), budget, j);
  }

  /** The power pass keeps a usable vote exactly when it fits beside the kept votes that are stronger, or as strong with a
      lower address. */
  lemma PowerPassIff(votes: seq<Vote>, budget: int, j: nat)
    requires |MARKER| <= budget && j < |votes|
    ensures var keep := Greedy(votes, StrongerFirst(votes), budget).keep;
            |keep| == |votes| &&
            (keep[j] <==> Usable(votes[j]) && FitsInTurn(votes, keep, Nothing(votes).keep, ByPower(votes), budget, j))
  {
    CandidatesAreOrdered(votes, |votes|);
    StrongerDescribes(votes, Candidates(votes, |votes|));
    GreedyIff(votes, StrongerFirst(votes), ByPower(votes), budget, j);
  }

  lemma {:induction false} DroppedAscending(cands: seq<Cand>, keep: seq<bool>, n: nat)
    requires n <= |cands| && Ascending(cands) && forall k :: 0 <= k < |cands| ==> cands[k].idx < |keep|
    ensures Ascending(Dropped(cands, keep, n))
    ensures forall k :: 0 <= k < |Dropped(cands, keep, n)| ==> Dropped(cands, keep, n)[k] in cands[..n]
  {
    if n > 0 {
      DroppedAscending(cands, keep, n - 1);
      assert cands[..n] == cands[..n - 1] + [cands[n - 1]];
    }
  }

  /** The top-up keeps everything kept so far, and another usable vote exactly when it fits beside that and the kept votes
      that are stronger, or as strong with a lower address. */
  lemma TopUpIff(votes: seq<Vote>, f: Fill, budget: int, j: nat)
    requires Sound(votes, f, budget) && j < |votes|
    ensures var keep := TopUp(votes, f, budget).keep;
            |keep| == |votes| &&
            (keep[j] <==> f.keep[j] || (Usable(votes[j]) && FitsInTurn(votes, keep, f.keep, ByPower(votes), budget, j)))
  {
    hide StableSort, FillIn, Describes, Candidates, FitsInTurn;
    var cands := Candidates(votes, |votes|);
    CandidatesAreOrdered(votes, |votes|);
    var dropped := Dropped(cands, f.keep, |cands|);
    DroppedMembers(votes, cands, f.keep, |cands|);
    DroppedAscending(cands, f.keep, |cands|);
    SortedOrder(votes, dropped, StrongerFirst(votes));
    StrongerDescribes(votes, dropped);
    TopUpIsSoundAndMaximal(votes, f, budget);
    if Usable(votes[j]) && !f.keep[j] {
      var k :| 0 <= k < |cands| && cands[k] == CandAt(votes, j);
      OfferedIff(votes, dropped, StrongerFirst(votes), ByPower(votes), f, budget, j);
    }
  }

  /** The selection is the density pass if that reaches the required power, else the power pass if that does, else the
      backstop; and then every usable vote that fits in turn, strongest first. */
  lemma SelectionIff(votes: seq<Vote>, required: int, budget: int, j: nat)
    requires |MARKER| < budget && j < |votes|
    ensures var keep := Selection(votes, required, budget).keep;
            var density, power := Greedy(votes, DenserFirst(votes), budget), Greedy(votes, StrongerFirst(votes), budget);
            var base := if density.vp >= required then density.keep
                        else if power.vp >= required then power.keep
                        else Backstop(votes, budget).keep;
            |keep| == |base| == |votes| &&
            (keep[j] <==> base[j] || (Usable(votes[j]) && FitsInTurn(votes, keep, base, ByPower(votes), budget, j)))
  {
    FirstPassIsSound(votes, required, budget);
    TopUpIff(votes, FirstPass(votes, required, budget), budget, j);
  }
}
