/** The injected extended commit: the whole commit when it fits, otherwise a trimmed one, otherwise none. */
module InjectedCommit {
  import opened Basics
  import opened Knapsack
  import opened Trim

  datatype ExtendedCommit = ExtendedCommit(round: int, votes: seq<Vote>)

  /** The protobuf codec of an extended commit, as far as the handlers rely on it. */
  datatype Codec = Codec(marshal: ExtendedCommit -> Option<Bytes>, unmarshal: Bytes -> Option<ExtendedCommit>)

  ghost predicate RoundTrips(codec: Codec)
  {
    forall ec: ExtendedCommit :: codec.marshal(ec).Some? ==> codec.unmarshal(codec.marshal(ec).value) == Some(ec)
  }

  function MarshalInjected(codec: Codec, ec: ExtendedCommit): (blob: Option<Bytes>)
  {
    match codec.marshal(ec)
    case None => None
    case Some(bz) => Some(MARKER + bz)
  }

  predicate Fits(blob: Option<Bytes>, maxTxBytes: int) { blob.Some? && |blob.value| < maxTxBytes }

  /** Dropping a vote leaves its validator in place and marks it Absent. */
  function DropVote(v: Vote): (r: Vote) { v.(flag := Absent, ext := [], sig := []) }

  function Trimmed(ec: ExtendedCommit, keep: seq<bool>): (t: ExtendedCommit)
    requires |keep| == |ec.votes|
  {
    ec.(votes := seq(|keep|, i requires 0 <= i < |keep| => if keep[i] then ec.votes[i] else DropVote(ec.votes[i])))
  }

  /** Seven eighths of the block, the rest being reserved for normal transactions. */
  function Budget(maxTxBytes: int): (b: int)
    ensures maxTxBytes >= 0 ==> 7 * maxTxBytes <= 8 * b <= 7 * maxTxBytes + 7
  {
    maxTxBytes - (if maxTxBytes >= 0 then maxTxBytes / 8 else -((-maxTxBytes) / 8))
  }

  function TotalOf(ec: ExtendedCommit): (p: int) { TotalPower(ec.votes, |ec.votes|) }

  /** What the trim keeps of a commit with positive total power. */
  function Kept(ec: ExtendedCommit, maxTxBytes: int): (f: Fill)
    requires TotalOf(ec) > 0
  {
    Selection(ec.votes, Required(TotalOf(ec)), Budget(maxTxBytes))
  }

  /** The commit the proposer injects, if any. */
  function Injected(codec: Codec, ec: ExtendedCommit, maxTxBytes: int): (r: Option<ExtendedCommit>)
  {
    if Fits(MarshalInjected(codec, ec), maxTxBytes) then Some(ec)
    else if Budget(maxTxBytes) <= |MARKER| || TotalOf(ec) <= 0 then None
    else if Kept(ec, maxTxBytes).vp < Required(TotalOf(ec)) then None
    else
      SelectionIsSound(ec.votes, Required(TotalOf(ec)), Budget(maxTxBytes));
      var t := Trimmed(ec, Kept(ec, maxTxBytes).keep);
      if Fits(MarshalInjected(codec, t), maxTxBytes) then Some(t) else None
  }

  // ---- what an injected commit is ---------------------------------------------------------------------

  predicate IsCommit(v: Vote) { v.flag.Commit? }

  function CommitMask(votes: seq<Vote>): (m: seq<bool>)
    ensures |m| == |votes|
  {
    seq(|votes|, i requires 0 <= i < |votes| => IsCommit(votes[i]))
  }

  /** The power of the votes still flagged Commit. */
  function CommitPower(ec: ExtendedCommit): (p: int) { Power(ec.votes, CommitMask(ec.votes)) }

  /** Same validators with the same powers in the same places; every vote is either untouched and usable, or
      Absent with neither extension nor signature. */
  predicate TrimOf(ec: ExtendedCommit, t: ExtendedCommit)
  {
    t.round == ec.round && |t.votes| == |ec.votes| &&
    forall i :: 0 <= i < |ec.votes| ==>
      && t.votes[i].address == ec.votes[i].address && t.votes[i].power == ec.votes[i].power
      && ((t.votes[i] == ec.votes[i] && Usable(t.votes[i])) ||
          (t.votes[i].flag.Absent? && t.votes[i].ext == [] && t.votes[i].sig == []))
  }

  lemma {:induction false} SameTotal(a: seq<Vote>, b: seq<Vote>, n: nat)
    requires |a| == |b| && n <= |a| && forall i :: 0 <= i < |a| ==> a[i].power == b[i].power
    ensures TotalPower(a, n) == TotalPower(b, n)
  {
    if n > 0 { SameTotal(a, b, n - 1); }
  }

  lemma TrimmedIsTrim(ec: ExtendedCommit, keep: seq<bool>)
    requires Selects(ec.votes, keep)
    ensures TrimOf(ec, Trimmed(ec, keep))
    ensures TotalOf(Trimmed(ec, keep)) == TotalOf(ec)
    ensures CommitPower(Trimmed(ec, keep)) == Power(ec.votes, keep)
  {
    var t := Trimmed(ec, keep);
    SameTotal(t.votes, ec.votes, |keep|);
    assert VotePowers(t.votes) == VotePowers(ec.votes);
    assert CommitMask(t.votes) == keep;
  }

  /** Whatever is injected fits the block. It is either the whole commit, or a trim of it that still carries
      strictly more than two thirds of the total power. */
  lemma InjectedIsWholeOrTrim(codec: Codec, ec: ExtendedCommit, maxTxBytes: int)
    requires Injected(codec, ec, maxTxBytes).Some?
    ensures var t := Injected(codec, ec, maxTxBytes).value;
            && Fits(MarshalInjected(codec, t), maxTxBytes)
            && (t == ec || (TrimOf(ec, t) && TotalOf(t) == TotalOf(ec) > 0 && 3 * CommitPower(t) > 2 * TotalOf(t)))
  {
    if !Fits(MarshalInjected(codec, ec), maxTxBytes) {
      var required, budget := Required(TotalOf(ec)), Budget(maxTxBytes);
      SelectionIsSound(ec.votes, required, budget);
      TrimmedIsTrim(ec, Kept(ec, maxTxBytes).keep);
    }
  }

  /** Declining means that the block leaves no room beyond the marker, that there is no power to carry, that no trim
      with slack to spare reaches two thirds, or that the byte estimate of the chosen trim was too low. */
  lemma DeclinedOnlyWhenShort(codec: Codec, ec: ExtendedCommit, maxTxBytes: int, s: seq<bool>)
    requires NonNegativePowers(ec.votes) && Injected(codec, ec, maxTxBytes).None? && Selects(ec.votes, s)
    ensures Budget(maxTxBytes) <= |MARKER| || TotalOf(ec) <= 0 ||
            !FitsWithSlack(ec.votes, s, Budget(maxTxBytes) - |MARKER|) || 3 * Power(ec.votes, s) <= 2 * TotalOf(ec) ||
            EstimateTooLow(codec, ec, maxTxBytes)
  {
    if Budget(maxTxBytes) > |MARKER| && TotalOf(ec) > 0 &&
       FitsWithSlack(ec.votes, s, Budget(maxTxBytes) - |MARKER|) && 3 * Power(ec.votes, s) > 2 * TotalOf(ec)
    {
      SelectionIsComplete(ec.votes, Required(TotalOf(ec)), Budget(maxTxBytes), s);
      SelectionIsSound(ec.votes, Required(TotalOf(ec)), Budget(maxTxBytes));
    }
  }

  /** The chosen trim turns out not to fit the block. */
  predicate EstimateTooLow(codec: Codec, ec: ExtendedCommit, maxTxBytes: int)
    requires TotalOf(ec) > 0
  {
    |Kept(ec, maxTxBytes).keep| == |ec.votes| &&
    !Fits(MarshalInjected(codec, Trimmed(ec, Kept(ec, maxTxBytes).keep)), maxTxBytes)
  }

  /** With less than 8192 bytes beyond the marker, a commit that does not fit whole is declined exactly when no usable
      votes that fit carry two thirds, or when the estimate was too low. */
  lemma DeclinedIffImpossible(codec: Codec, ec: ExtendedCommit, maxTxBytes: int)
    requires |MARKER| < Budget(maxTxBytes) < |MARKER| + BUCKETS && NonNegativePowers(ec.votes) && TotalOf(ec) > 0
    requires !Fits(MarshalInjected(codec, ec), maxTxBytes)
    ensures Injected(codec, ec, maxTxBytes).None? <==>
              !Achievable(ec.votes, Required(TotalOf(ec)), Budget(maxTxBytes)) || EstimateTooLow(codec, ec, maxTxBytes)
  {
    ExactWhenFine(ec.votes, Required(TotalOf(ec)), Budget(maxTxBytes));
    SelectionIsSound(ec.votes, Required(TotalOf(ec)), Budget(maxTxBytes));
  }

  // ---- how good the byte estimate is ------------------------------------------------------------------------

  /** The bytes of the extensions and signatures of the first `n` votes. */
  function Payload(votes: seq<Vote>, n: nat): (r: nat)
    requires n <= |votes|
  {
    if n == 0 then 0 else Payload(votes, n - 1) + |votes[n - 1].ext| + |votes[n - 1].sig|
  }

  /** The codec encodes every commit, and adds to what it carries at most `perVote` bytes a vote and `fixed` bytes. */
  ghost predicate AddsAtMost(codec: Codec, perVote: nat, fixed: nat)
  {
    forall ec: ExtendedCommit ::
      && codec.marshal(ec).Some?
      && |codec.marshal(ec).value| <= Payload(ec.votes, |ec.votes|) + perVote * |ec.votes| + fixed
  }

  /** A trim carries no more than the estimate counts. */
  lemma {:induction false} TrimmedPayload(ec: ExtendedCommit, keep: seq<bool>, n: nat)
    requires |keep| == |ec.votes| && n <= |keep|
    ensures Payload(Trimmed(ec, keep).votes, n) <= Sum(VoteCosts(ec.votes), keep, n)
  {
    if n > 0 { TrimmedPayload(ec, keep, n - 1); }
  }

  /** The estimate is never too low while what the codec adds stays below the reserved eighth of the block. */
  lemma EstimateHolds(codec: Codec, ec: ExtendedCommit, maxTxBytes: nat, perVote: nat, fixed: nat)
    requires AddsAtMost(codec, perVote, fixed) && perVote * |ec.votes| + fixed < maxTxBytes / 8
    requires |MARKER| < Budget(maxTxBytes) && TotalOf(ec) > 0
    ensures !EstimateTooLow(codec, ec, maxTxBytes)
  {
    hide Selection, TotalPower;
    SelectionIsSound(ec.votes, Required(TotalOf(ec)), Budget(maxTxBytes));
    TrimmedPayload(ec, Kept(ec, maxTxBytes).keep, |ec.votes|);
  }

  /** Then, with less than 8192 bytes beyond the marker, declining means exactly that no usable votes that fit carry two
      thirds. */
  lemma DeclinedIffUnachievable(codec: Codec, ec: ExtendedCommit, maxTxBytes: nat, perVote: nat, fixed: nat)
    requires AddsAtMost(codec, perVote, fixed) && perVote * |ec.votes| + fixed < maxTxBytes / 8
    requires |MARKER| < Budget(maxTxBytes) < |MARKER| + BUCKETS && NonNegativePowers(ec.votes) && TotalOf(ec) > 0
    requires !Fits(MarshalInjected(codec, ec), maxTxBytes)
    ensures Injected(codec, ec, maxTxBytes).None? <==>
              !Achievable(ec.votes, Required(TotalOf(ec)), Budget(maxTxBytes))
  {
    hide Injected, EstimateTooLow, Achievable;
    DeclinedIffImpossible(codec, ec, maxTxBytes);
    EstimateHolds(codec, ec, maxTxBytes, perVote, fixed);
  }

  // ---- certification -----------------------------------------------------------------------------------

  /** The check peers make on an injected commit: every Commit vote is signed, the signature verifies, and
      the Commit votes carry more than two thirds of the total power. */
  predicate Certifies(verifies: Vote -> bool, ec: ExtendedCommit)
  {
    TotalOf(ec) > 0 && CommitPower(ec) >= Required(TotalOf(ec)) &&
    forall i :: 0 <= i < |ec.votes| && IsCommit(ec.votes[i]) ==> ec.votes[i].sig != [] && verifies(ec.votes[i])
  }

  /** A trim certifies as soon as the signatures of the usable votes of the original verify. */
  lemma TrimCertifies(codec: Codec, ec: ExtendedCommit, maxTxBytes: int, verifies: Vote -> bool)
    requires !Fits(MarshalInjected(codec, ec), maxTxBytes)
    requires Injected(codec, ec, maxTxBytes).Some?
    requires forall i :: 0 <= i < |ec.votes| && Usable(ec.votes[i]) ==> verifies(ec.votes[i])
    ensures Certifies(verifies, Injected(codec, ec, maxTxBytes).value)
  {
    InjectedIsWholeOrTrim(codec, ec, maxTxBytes);
  }

  // ---- the program ---------------------------------------------------------------------------------------

  method CollectCandidates(votes: seq<Vote>) returns (cands: seq<Cand>)
    ensures cands == Candidates(votes, |votes|)
  {
    cands := [];
    for i := 0 to |votes|
      invariant cands == Candidates(votes, i)
    {
      var v := votes[i];
      if !v.flag.Commit? || |v.ext| == 0 || |v.sig| == 0 {
        continue;
      }
      cands := cands + [Cand(i, v.power, |v.ext| + |v.sig| + VOTE_OVERHEAD)];
    }
  }

  method GreedyFill(order: seq<Cand>, votesLen: nat, budget: int) returns (keep: seq<bool>, keptVP: int)
    requires forall k :: 0 <= k < |order| ==> order[k].idx < votesLen
    ensures var f := FillIn(order, |order|, Fill(seq(votesLen, _ => false), 0, |MARKER|), budget);
            keep == f.keep && keptVP == f.vp
  {
    ghost var start := Fill(seq(votesLen, _ => false), 0, |MARKER|);
    keep := seq(votesLen, _ => false);
    var used := |MARKER|;
    keptVP := 0;
    assert keep == start.keep;
    for k := 0 to |order|
      invariant Fill(keep, keptVP, used) == FillIn(order, k, start, budget)
    {
      var c := order[k];
      if used + c.cost > budget {
        continue;
      }
      used := used + c.cost;
      keep := keep[c.idx := true];
      keptVP := keptVP + c.vp;
    }
  }

  /** Splits the candidates into what is used and what was dropped. */
  method SplitKept(cands: seq<Cand>, keep: seq<bool>) returns (usedReal: int, dropped: seq<Cand>)
    requires forall k :: 0 <= k < |cands| ==> cands[k].idx < |keep|
    ensures usedReal == |MARKER| + Sum(Costs(cands), MaskOf(cands, keep), |cands|)
    ensures dropped == Dropped(cands, keep, |cands|)
  {
    usedReal := |MARKER|;
    dropped := [];
    for k := 0 to |cands|
      invariant usedReal == |MARKER| + Sum(Costs(cands), MaskOf(cands, keep), k)
      invariant dropped == Dropped(cands, keep, k)
    {
      var c := cands[k];
      if keep[c.idx] {
        usedReal := usedReal + c.cost;
      } else {
        dropped := dropped + [c];
      }
    }
  }

  method OfferDropped(order: seq<Cand>, keep0: seq<bool>, keptVP0: int, usedReal0: int, budget: int)
    returns (keep: seq<bool>, keptVP: int)
    requires forall k :: 0 <= k < |order| ==> order[k].idx < |keep0|
    ensures var f := FillIn(order, |order|, Fill(keep0, keptVP0, usedReal0), budget);
            keep == f.keep && keptVP == f.vp
  {
    keep, keptVP := keep0, keptVP0;
    var usedReal := usedReal0;
    for k := 0 to |order|
      invariant Fill(keep, keptVP, usedReal) == FillIn(order, k, Fill(keep0, keptVP0, usedReal0), budget)
    {
      var c := order[k];
      if usedReal + c.cost <= budget {
        keep := keep[c.idx := true];
        keptVP := keptVP + c.vp;
        usedReal := usedReal + c.cost;
      }
    }
  }

  /** A retained set is determined by which candidates it retains. */
  lemma KeepIsDetermined(cands: seq<Cand>, keep: seq<bool>, m: seq<bool>, votesLen: nat)
    requires DistinctIndices(cands, votesLen) && |keep| == votesLen && |m| == |cands|
    requires KeepsOnly(cands, keep) && MaskOf(cands, keep) == m
    ensures keep == Marked(cands, m, 0, votesLen)
  {
    var other := Marked(cands, m, 0, votesLen);
    MarkedIsKept(cands, m, 0, votesLen);
    forall j | 0 <= j < votesLen ensures keep[j] == other[j] {
      if i :| 0 <= i < |cands| && cands[i].idx == j {
        assert keep[j] == MaskOf(cands, keep)[i];
      }
    }
  }

  method GreedyPass(votes: seq<Vote>, cands: seq<Cand>, before: (Cand, Cand) -> bool, budget: int)
    returns (keep: seq<bool>, keptVP: int)
    requires cands == Candidates(votes, |votes|)
    ensures keep == Greedy(votes, before, budget).keep && keptVP == Greedy(votes, before, budget).vp
  {
    CandidatesAreOrdered(votes, |votes|);
    SortedOrder(votes, cands, before);
    var order := StableSort(cands, before);
    keep, keptVP := GreedyFill(order, |votes|, budget);
    assert Nothing(votes) == Fill(seq(|votes|, _ => false), 0, |MARKER|);
  }

  method BackstopPass(votes: seq<Vote>, cands: seq<Cand>, budget: int) returns (keep: seq<bool>, keptVP: int)
    requires cands == Candidates(votes, |votes|)
    ensures keep == Backstop(votes, budget).keep && keptVP == Backstop(votes, budget).vp
  {
    CandidatesAreOrdered(votes, |votes|);
    keep, keptVP := KnapsackKeepMaxPower(cands, |votes|, budget - |MARKER|);
    KeepIsDetermined(cands, keep, Chosen(cands, budget - |MARKER|), |votes|);
  }

  method FirstPassFill(votes: seq<Vote>, cands: seq<Cand>, requiredVP: int, budget: int)
    returns (keep: seq<bool>, keptVP: int)
    requires cands == Candidates(votes, |votes|)
    ensures keep == FirstPass(votes, requiredVP, budget).keep && keptVP == FirstPass(votes, requiredVP, budget).vp
  {
    keep, keptVP := GreedyPass(votes, cands, DenserFirst(votes), budget);
    if keptVP < requiredVP {
      keep, keptVP := GreedyPass(votes, cands, StrongerFirst(votes), budget);
    }
    if keptVP < requiredVP {
      keep, keptVP := BackstopPass(votes, cands, budget);
    }
  }

  /** The bytes in use, recounted over the candidates. */
  lemma UsedByKept(votes: seq<Vote>, f: Fill, budget: int)
    requires Sound(votes, f, budget)
    ensures forall k :: 0 <= k < |Candidates(votes, |votes|)| ==> Candidates(votes, |votes|)[k].idx < |votes|
    ensures var cs := Candidates(votes, |votes|); |MARKER| + Sum(Costs(cs), MaskOf(cs, f.keep), |cs|) == f.used
  {
    CandidatesAreOrdered(votes, |votes|);
    CandidateSums(votes, f.keep, |votes|);
  }

  method TopUpPass(votes: seq<Vote>, cands: seq<Cand>, keep0: seq<bool>, keptVP0: int, ghost f: Fill, budget: int)
    returns (keep: seq<bool>, keptVP: int)
    requires cands == Candidates(votes, |votes|)
    requires Sound(votes, f, budget) && f.keep == keep0 && f.vp == keptVP0
    ensures keep == TopUp(votes, f, budget).keep && keptVP == TopUp(votes, f, budget).vp
  {
    UsedByKept(votes, f, budget);
    var usedReal, dropped := SplitKept(cands, keep0);
    var order := StableSort(dropped, StrongerFirst(votes));
    OfferedOrder(votes, f.keep);
    keep, keptVP := OfferDropped(order, keep0, keptVP0, usedReal, budget);
  }

  lemma OfferedOrder(votes: seq<Vote>, keep: seq<bool>)
    requires |keep| == |votes|
    ensures forall k :: 0 <= k < |Candidates(votes, |votes|)| ==> Candidates(votes, |votes|)[k].idx < |votes|
    ensures var cs := Candidates(votes, |votes|);
            var order := StableSort(Dropped(cs, keep, |cs|), StrongerFirst(votes));
            && |order| == |Dropped(cs, keep, |cs|)|
            && forall k :: 0 <= k < |order| ==> order[k].idx < |votes|
  {
    var cs := Candidates(votes, |votes|);
    CandidatesAreOrdered(votes, |votes|);
    DroppedMembers(votes, cs, keep, |cs|);
    SortedOrder(votes, Dropped(cs, keep, |cs|), StrongerFirst(votes));
  }

  method SumPower(votes: seq<Vote>) returns (totalVP: int)
    ensures totalVP == TotalPower(votes, |votes|)
  {
    totalVP := 0;
    for i := 0 to |votes|
      invariant totalVP == TotalPower(votes, i)
    {
      totalVP := totalVP + votes[i].power;
    }
  }

  method BoundedInjectedCommit(codec: Codec, ec: ExtendedCommit, maxTxBytes: int) returns (r: Option<Bytes>)
    ensures r.Some? <==> Injected(codec, ec, maxTxBytes).Some?
    ensures r.Some? ==> r == MarshalInjected(codec, Injected(codec, ec, maxTxBytes).value) && |r.value| < maxTxBytes
  {
    var blob := MarshalInjected(codec, ec);
    if blob.Some? && |blob.value| < maxTxBytes {
      return blob;
    }
    var budget := Budget(maxTxBytes);
    if budget <= |MARKER| {
      return None;
    }
    var votes := ec.votes;
    var totalVP := SumPower(votes);
    if totalVP <= 0 {
      return None;
    }
    var requiredVP := (totalVP * 2) / 3 + 1;
    var cands := CollectCandidates(votes);
    var keep, keptVP := FirstPassFill(votes, cands, requiredVP, budget);
    FirstPassIsSound(votes, requiredVP, budget);
    keep, keptVP := TopUpPass(votes, cands, keep, keptVP, FirstPass(votes, requiredVP, budget), budget);
    assert keep == Kept(ec, maxTxBytes).keep && keptVP == Kept(ec, maxTxBytes).vp;
    if keptVP < requiredVP {
      return None;
    }
    var trimmed := MarkDropped(ec, keep);
    blob := MarshalInjected(codec, trimmed);
    if blob.None? || |blob.value| >= maxTxBytes {
      return None;
    }
    return blob;
  }

  method MarkDropped(ec: ExtendedCommit, keep: seq<bool>) returns (trimmed: ExtendedCommit)
    requires |keep| == |ec.votes|
    ensures trimmed == Trimmed(ec, keep)
  {
    var votes: seq<Vote> := [];
    for i := 0 to |ec.votes|
      invariant votes == Trimmed(ec, keep).votes[..i]
    {
      var v := ec.votes[i];
      if !keep[i] {
        v := v.(flag := Absent);
        v := v.(ext := []);
        v := v.(sig := []);
      }
      votes := votes + [v];
    }
    trimmed := ec.(votes := votes);
  }
}
