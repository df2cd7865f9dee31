/** The three steps that carry vote extensions into a block: PrepareProposal injects the extended commit,
    ProcessProposal certifies and strips it, PreBlock consumes it. */
module Proposal {
  import opened Basics
  import opened Knapsack
  import opened Trim
  import opened InjectedCommit

  type Tx = Bytes

  /** The committed parameters and the height that switch the handlers. */
  datatype Context = Context(
    height: nat,
    dkgEnabled: bool,
    dkgTransparent: bool,
    veEnableHeight: Option<int>,
    dkgStartHeight: nat,
    blockMaxBytes: Option<int>,
    commitUpperBound: int,
    currentEpoch: nat,
    roundOpen: bool,
    encCount: nat)

  /** Both switches: the module parameters, and vote extensions enabled at this height. */
  predicate VeActive(ctx: Context)
  {
    ctx.dkgEnabled && ctx.dkgTransparent && ctx.veEnableHeight.Some? &&
    ctx.veEnableHeight.value != 0 && ctx.height > ctx.veEnableHeight.value
  }

  predicate CommitFitsBlock(ctx: Context, maxBytes: int)
  {
    maxBytes > 0 && Budget(maxBytes) > 0 && ctx.commitUpperBound < Budget(maxBytes)
  }

  /** Whether a proposal at this height must carry an injected commit. */
  predicate InjectionRequired(ctx: Context)
  {
    && VeActive(ctx)
    && ctx.height >= ctx.dkgStartHeight
    && ctx.height > ctx.veEnableHeight.value + 1
    && !(ctx.blockMaxBytes.Some? && ctx.blockMaxBytes.value > 0 && !CommitFitsBlock(ctx, ctx.blockMaxBytes.value))
    && ((ctx.currentEpoch > 0 && ctx.roundOpen) || ctx.encCount > 0)
  }

  datatype PrepareRequest = PrepareRequest(maxTxBytes: int, lastCommit: ExtendedCommit, txs: seq<Tx>)

  datatype Decision = Accept | Reject

  type PrepareHandler = PrepareRequest -> Result<seq<Tx>, string>

  type ProcessHandler = seq<Tx> -> Decision

  // ---- PrepareProposal -------------------------------------------------------------------------------

  predicate Injects(ctx: Context, codec: Codec, req: PrepareRequest)
  {
    VeActive(ctx) && req.lastCommit.votes != [] && Injected(codec, req.lastCommit, req.maxTxBytes).Some?
  }

  function Blob(codec: Codec, req: PrepareRequest): (b: Bytes)
    requires Injected(codec, req.lastCommit, req.maxTxBytes).Some?
    ensures MARKER <= b && |b| < req.maxTxBytes
  {
    InjectedIsWholeOrTrim(codec, req.lastCommit, req.maxTxBytes);
    MarshalInjected(codec, Injected(codec, req.lastCommit, req.maxTxBytes).value).value
  }

  method PrepareProposal(ctx: Context, codec: Codec, inner: PrepareHandler, req: PrepareRequest)
    returns (r: Result<seq<Tx>, string>)
    ensures !Injects(ctx, codec, req) ==> r == inner(req)
    ensures Injects(ctx, codec, req) ==>
              var blob := Blob(codec, req);
              var reduced := inner(req.(maxTxBytes := req.maxTxBytes - |blob|));
              r == if reduced.Ok? then Ok([blob] + reduced.value) else reduced
  {
    if !VeActive(ctx) || |req.lastCommit.votes| == 0 {
      return inner(req);
    }
    var blob := BoundedInjectedCommit(codec, req.lastCommit, req.maxTxBytes);
    if blob.None? {
      return inner(req);
    }
    var sub := req.(maxTxBytes := req.maxTxBytes - |blob.value|);
    var resp := inner(sub);
    if resp.Err? {
      return resp;
    }
    return Ok([blob.value] + resp.value);
  }

  // ---- ProcessProposal ---------------------------------------------------------------------------------

  /** The commit a proposal carries, when its first transaction is a decodable injected one. */
  function Carried(codec: Codec, txs: seq<Tx>): (r: Option<ExtendedCommit>)
  {
    if txs != [] && HasPrefix(txs[0], MARKER) then codec.unmarshal(txs[0][|MARKER|..]) else None
  }

  function ProcessProposal(ctx: Context, codec: Codec, certified: ExtendedCommit -> bool, inner: ProcessHandler,
                           txs: seq<Tx>): (d: Decision)
    ensures d.Accept? && InjectionRequired(ctx) ==> Carried(codec, txs).Some? && certified(Carried(codec, txs).value)
    ensures d.Accept? && txs != [] && HasPrefix(txs[0], MARKER) ==> VeActive(ctx) && inner(txs[1..]).Accept?
  {
    if |txs| == 0 || !HasPrefix(txs[0], MARKER) then
      if InjectionRequired(ctx) then Reject else inner(txs)
    else if !VeActive(ctx) then Reject
    else
      match codec.unmarshal(txs[0][|MARKER|..])
      case None => Reject
      case Some(ext) => if certified(ext) then inner(txs[1..]) else Reject
  }

  /** A proposal without a marker is up to the inner handler, unless an injection is required. */
  lemma UnmarkedIsInner(ctx: Context, codec: Codec, certified: ExtendedCommit -> bool, inner: ProcessHandler, txs: seq<Tx>)
    requires txs == [] || !HasPrefix(txs[0], MARKER)
    ensures ProcessProposal(ctx, codec, certified, inner, txs) == if InjectionRequired(ctx) then Reject else inner(txs)
  {
  }

  /** A marked proposal is up to the inner handler, on what follows the marked transaction, once the handlers are active
      and the commit decodes and certifies. */
  lemma MarkedIff(ctx: Context, codec: Codec, certified: ExtendedCommit -> bool, inner: ProcessHandler, txs: seq<Tx>)
    requires txs != [] && HasPrefix(txs[0], MARKER)
    ensures ProcessProposal(ctx, codec, certified, inner, txs).Accept? <==>
              && VeActive(ctx) && inner(txs[1..]).Accept?
              && exists ec :: codec.unmarshal(txs[0][|MARKER|..]) == Some(ec) && certified(ec)
  {
  }

  /** The handlers are active from the height after the one that enables vote extensions. */
  lemma ActiveIff(ctx: Context)
    ensures VeActive(ctx) <==>
              && ctx.dkgEnabled && ctx.dkgTransparent
              && exists enabled :: ctx.veEnableHeight == Some(enabled) && enabled != 0 && ctx.height - enabled >= 1
  {
  }

  /** An injection is required from one height on, while a round is open or ciphertexts are pending, unless the block is
      limited and seven eighths of it do not exceed the bound on the commit. */
  lemma InjectionRequiredIff(ctx: Context)
    ensures InjectionRequired(ctx) <==>
              && ctx.dkgEnabled && ctx.dkgTransparent
              && (exists enabled :: ctx.veEnableHeight == Some(enabled) && enabled != 0 && ctx.height - enabled >= 2)
              && ctx.height >= ctx.dkgStartHeight
              && (forall limit :: ctx.blockMaxBytes == Some(limit) && limit > 0 ==>
                    8 * ctx.commitUpperBound < 7 * limit + limit % 8)
              && (ctx.encCount > 0 || (ctx.currentEpoch > 0 && ctx.roundOpen))
  {
    if ctx.blockMaxBytes.Some? && ctx.blockMaxBytes.value > 0 {
      var limit := ctx.blockMaxBytes.value;
      assert 8 * Budget(limit) == 7 * limit + limit % 8;
    }
  }

  /**
   * A requirement can be met. The block holds `limit` bytes, of which `limit - req.maxTxBytes` are not for transactions.
   * If votes with more than two thirds of the power cost no more than the bound on the commit less those bytes, counting
   * the marker and one bucket of slack a vote and one more, and what the codec adds stays below the reserved eighth, the
   * proposer injects.
   */
  lemma RequiredIsMet(ctx: Context, codec: Codec, req: PrepareRequest, s: seq<bool>, limit: int, perVote: nat, fixed: nat)
    requires InjectionRequired(ctx) && ctx.blockMaxBytes == Some(limit) && 0 < req.maxTxBytes <= limit
    requires AddsAtMost(codec, perVote, fixed) && perVote * |req.lastCommit.votes| + fixed < req.maxTxBytes / 8
    requires NonNegativePowers(req.lastCommit.votes) && TotalOf(req.lastCommit) > 0
    requires Selects(req.lastCommit.votes, s) && 3 * Power(req.lastCommit.votes, s) > 2 * TotalOf(req.lastCommit)
    requires CostWithSlack(req, s) <= ctx.commitUpperBound - (limit - req.maxTxBytes)
    ensures Injects(ctx, codec, req)
  {
    var ec, max := req.lastCommit, req.maxTxBytes;
    assert ctx.commitUpperBound < Budget(limit) <= Budget(max) + (limit - max);
    SumNonNegative(ec.votes, s, |ec.votes|);
    hide Injected, EstimateTooLow, TotalPower;
    if Injected(codec, ec, max).None? {
      EstimateHolds(codec, ec, max, perVote, fixed);
      DeclinedOnlyWhenShort(codec, ec, max, s);
    }
    PowerNeedsVotes(ec);
  }

  lemma PowerNeedsVotes(ec: ExtendedCommit)
    ensures TotalOf(ec) > 0 ==> ec.votes != []
  {
  }

  /** The bytes of the marker and of the chosen votes, with one bucket of slack a vote and one more. */
  function CostWithSlack(req: PrepareRequest, s: seq<bool>): (c: int)
    requires |s| == |req.lastCommit.votes|
  {
    var slack := if Budget(req.maxTxBytes) > |MARKER| then Gran(Budget(req.maxTxBytes) - |MARKER|) - 1 else 0;
    |MARKER| + Cost(req.lastCommit.votes, s) + (Count(s, |s|) + 1) * slack
  }

  lemma {:induction false} SumNonNegative(votes: seq<Vote>, s: seq<bool>, n: nat)
    requires n <= |s| == |votes|
    ensures Sum(VoteCosts(votes), s, n) >= 0 && Count(s, n) >= 0
  {
    if n > 0 { SumNonNegative(votes, s, n - 1); }
  }

  // ---- PreBlock ------------------------------------------------------------------------------------------

  /** Decoding of extensions, the committed operator of a validator, and the committed share cap. */
  datatype Consumer<!VE> = Consumer(decode: Bytes -> Option<VE>, operatorOf: Bytes -> Option<string>, shareCap: nat)

  datatype Entry<VE> = Entry(operator: string, ve: VE)

  const VOTE_EXT_MAX_BYTES := 1048576

  const OBJECT_OPEN: byte := 123

  function CountOpens(s: Bytes, n: nat): (c: nat)
    requires n <= |s|
  {
    if n == 0 then 0 else CountOpens(s, n - 1) + (if s[n - 1] == OBJECT_OPEN then 1 else 0)
  }

  predicate InBounds<VE>(env: Consumer<VE>, ext: Bytes)
  {
    |ext| <= VOTE_EXT_MAX_BYTES && CountOpens(ext, |ext|) <= 8 + 4 * env.shareCap
  }

  /** The entry a vote contributes: committed, extended, in bounds, decodable, and of a known validator. */
  function EntryOf<VE>(env: Consumer<VE>, v: Vote): (e: Option<Entry<VE>>)
  {
    if !v.flag.Commit? || v.ext == [] || !InBounds(env, v.ext) then None
    else if env.decode(v.ext).None? || env.operatorOf(v.address).None? then None
    else Some(Entry(env.operatorOf(v.address).value, env.decode(v.ext).value))
  }

  /** The places of the bytes that open an object. */
  function Opens(s: Bytes, n: nat): (r: set<nat>)
    requires n <= |s|
  {
    set i: nat | i < n && s[i] == OBJECT_OPEN
  }

  lemma {:induction false} CountIsSize(s: Bytes, n: nat)
    requires n <= |s|
    ensures CountOpens(s, n) == |Opens(s, n)|
  {
    if n > 0 {
      CountIsSize(s, n - 1);
      if s[n - 1] == OBJECT_OPEN {
        assert Opens(s, n) == Opens(s, n - 1) + {n - 1};
      } else {
        assert Opens(s, n) == Opens(s, n - 1);
      }
    }
  }

  /** A vote counts exactly if it is a Commit vote of a known validator with an extension that is not empty, at most 1 MiB
      long, opens no more objects than the share cap allows, and decodes. */
  lemma EntryIff<VE>(env: Consumer<VE>, v: Vote, op: string, ve: VE)
    ensures EntryOf(env, v) == Some(Entry(op, ve)) <==>
              && v.flag == Commit && 0 < |v.ext| <= 1048576 && |Opens(v.ext, |v.ext|)| <= 8 + 4 * env.shareCap
              && env.decode(v.ext) == Some(ve) && env.operatorOf(v.address) == Some(op)
  {
    CountIsSize(v.ext, |v.ext|);
  }

  /** The entries of the votes among the first `n` that `keep` retains, in commit order. */
  function KeptEntries<VE>(env: Consumer<VE>, votes: seq<Vote>, keep: seq<bool>, n: nat): (r: seq<Entry<VE>>)
    requires n <= |votes| && |keep| == |votes|
  {
    if n == 0 then []
    else if keep[n - 1] && EntryOf(env, votes[n - 1]).Some? then
      KeptEntries(env, votes, keep, n - 1) + [EntryOf(env, votes[n - 1]).value]
    else KeptEntries(env, votes, keep, n - 1)
  }

  function All(votes: seq<Vote>): (keep: seq<bool>) { seq(|votes|, _ => true) }

  function Entries<VE>(env: Consumer<VE>, ec: ExtendedCommit): (r: seq<Entry<VE>>)
  {
    KeptEntries(env, ec.votes, All(ec.votes), |ec.votes|)
  }

  method ConsumeVoteExtensions<VE>(ctx: Context, codec: Codec, env: Consumer<VE>, txs: seq<Tx>)
    returns (r: Option<seq<Entry<VE>>>)
    ensures r.Some? <==> VeActive(ctx) && Carried(codec, txs).Some?
    ensures r.Some? ==> r.value == Entries(env, Carried(codec, txs).value)
  {
    if |txs| == 0 || !HasPrefix(txs[0], MARKER) || !VeActive(ctx) {
      return None;
    }
    var ext := codec.unmarshal(txs[0][|MARKER|..]);
    if ext.None? {
      return None;
    }
    var votes := ext.value.votes;
    var objCap := 8 + 4 * env.shareCap;
    var entries: seq<Entry<VE>> := [];
    for i := 0 to |votes|
      invariant entries == KeptEntries(env, votes, All(votes), i)
    {
      var v := votes[i];
      if !v.flag.Commit? || |v.ext| == 0 {
        continue;
      }
      var opens := CountOpens(v.ext, |v.ext|);
      if |v.ext| > VOTE_EXT_MAX_BYTES || opens > objCap {
        continue;
      }
      var ve := env.decode(v.ext);
      if ve.None? {
        continue;
      }
      var op := env.operatorOf(v.address);
      if op.None? {
        continue;
      }
      entries := entries + [Entry(op.value, ve.value)];
    }
    return Some(entries);
  }

  /** Every entry consumed comes from a kept vote, and votes keep their order. */
  lemma {:induction false} EntriesFrom<VE>(env: Consumer<VE>, votes: seq<Vote>, keep: seq<bool>, n: nat, k: nat)
    returns (i: nat)
    requires n <= |votes| && |keep| == |votes| && k < |KeptEntries(env, votes, keep, n)|
    ensures i < n && keep[i] && EntryOf(env, votes[i]) == Some(KeptEntries(env, votes, keep, n)[k])
    ensures k == |KeptEntries(env, votes, keep, i)|
  {
    var before := KeptEntries(env, votes, keep, n - 1);
    if k < |before| {
      i := EntriesFrom(env, votes, keep, n - 1, k);
    } else {
      i := n - 1;
    }
  }

  /** Every kept vote that counts is consumed, in its place. */
  lemma {:induction false} EntriesOf<VE>(env: Consumer<VE>, votes: seq<Vote>, keep: seq<bool>, n: nat, i: nat)
    requires i < n <= |votes| && |keep| == |votes| && keep[i] && EntryOf(env, votes[i]).Some?
    ensures var k := |KeptEntries(env, votes, keep, i)|;
            k < |KeptEntries(env, votes, keep, n)| && KeptEntries(env, votes, keep, n)[k] == EntryOf(env, votes[i]).value
  {
    if i < n - 1 { EntriesOf(env, votes, keep, n - 1, i); }
  }

  // ---- agreement -----------------------------------------------------------------------------------------

  function TotalBytes(txs: seq<Tx>): (n: nat) { if txs == [] then 0 else |txs[0]| + TotalBytes(txs[1..]) }

  /** The proposal an injecting proposer makes: it fits whenever the inner handler respects its reduced limit,
      and it carries exactly the commit that was injected, ahead of exactly the inner transactions. */
  lemma InjectedProposal(ctx: Context, codec: Codec, req: PrepareRequest, txs: seq<Tx>)
    requires RoundTrips(codec) && Injects(ctx, codec, req)
    ensures var blob := Blob(codec, req);
            && Carried(codec, [blob] + txs) == Injected(codec, req.lastCommit, req.maxTxBytes)
            && (TotalBytes(txs) <= req.maxTxBytes - |blob| ==> TotalBytes([blob] + txs) <= req.maxTxBytes)
  {
    var blob := Blob(codec, req);
    InjectedIsWholeOrTrim(codec, req.lastCommit, req.maxTxBytes);
    assert blob[|MARKER|..] == codec.marshal(Injected(codec, req.lastCommit, req.maxTxBytes).value).value;
    assert ([blob] + txs)[1..] == txs;
  }

  /** Peers hand the inner handler exactly what the proposer's inner handler prepared, once the commit certifies. */
  lemma ProcessStripsInjection(ctx: Context, codec: Codec, req: PrepareRequest, txs: seq<Tx>,
                               certified: ExtendedCommit -> bool, inner: ProcessHandler)
    requires RoundTrips(codec) && Injects(ctx, codec, req)
    ensures ProcessProposal(ctx, codec, certified, inner, [Blob(codec, req)] + txs)
         == if certified(Injected(codec, req.lastCommit, req.maxTxBytes).value) then inner(txs) else Reject
  {
    InjectedProposal(ctx, codec, req, txs);
    assert ([Blob(codec, req)] + txs)[1..] == txs;
  }

  /** A trimmed proposal whose signatures verify is accepted exactly when the inner handler accepts. */
  lemma HonestTrimIsProcessed(ctx: Context, codec: Codec, req: PrepareRequest, txs: seq<Tx>,
                              verifies: Vote -> bool, inner: ProcessHandler)
    requires RoundTrips(codec) && Injects(ctx, codec, req)
    requires !Fits(MarshalInjected(codec, req.lastCommit), req.maxTxBytes)
    requires forall i :: 0 <= i < |req.lastCommit.votes| && Usable(req.lastCommit.votes[i]) ==>
               verifies(req.lastCommit.votes[i])
    ensures ProcessProposal(ctx, codec, ec => Certifies(verifies, ec), inner, [Blob(codec, req)] + txs) == inner(txs)
  {
    TrimCertifies(codec, req.lastCommit, req.maxTxBytes, verifies);
    ProcessStripsInjection(ctx, codec, req, txs, ec => Certifies(verifies, ec), inner);
  }

  /** Consuming a trim is consuming the kept votes of the original, unaltered and in order. */
  lemma {:induction false} TrimmedEntries<VE>(env: Consumer<VE>, ec: ExtendedCommit, keep: seq<bool>, n: nat)
    requires |keep| == |ec.votes| && n <= |keep|
    ensures var t := Trimmed(ec, keep);
            KeptEntries(env, t.votes, All(t.votes), n) == KeptEntries(env, ec.votes, keep, n)
  {
    if n > 0 { TrimmedEntries(env, ec, keep, n - 1); }
  }

  /** What PreBlock consumes of an injected proposal: every eligible vote of a commit injected whole, and
      exactly the eligible kept votes of a trimmed one. */
  lemma ConsumedIsKept<VE>(ctx: Context, codec: Codec, env: Consumer<VE>, req: PrepareRequest, txs: seq<Tx>)
    requires RoundTrips(codec) && Injects(ctx, codec, req)
    ensures Carried(codec, [Blob(codec, req)] + txs).Some?
    ensures var ec := req.lastCommit;
            var consumed := Entries(env, Carried(codec, [Blob(codec, req)] + txs).value);
            if Fits(MarshalInjected(codec, ec), req.maxTxBytes) then
              consumed == KeptEntries(env, ec.votes, All(ec.votes), |ec.votes|)
            else
              && TotalOf(ec) > 0 && |Kept(ec, req.maxTxBytes).keep| == |ec.votes|
              && consumed == KeptEntries(env, ec.votes, Kept(ec, req.maxTxBytes).keep, |ec.votes|)
  {
    InjectedProposal(ctx, codec, req, txs);
    var ec := req.lastCommit;
    if !Fits(MarshalInjected(codec, ec), req.maxTxBytes) {
      SelectionIsSound(ec.votes, Required(TotalOf(ec)), Budget(req.maxTxBytes));
      TrimmedEntries(env, ec, Kept(ec, req.maxTxBytes).keep, |ec.votes|);
    }
  }

  /** Whoever proposes: an accepted proposal with an injected commit is never skipped by PreBlock, and what is
      consumed was certified. */
  lemma AcceptedIsConsumed(ctx: Context, codec: Codec, certified: ExtendedCommit -> bool, inner: ProcessHandler,
                           txs: seq<Tx>)
    requires ProcessProposal(ctx, codec, certified, inner, txs).Accept?
    ensures VeActive(ctx) && Carried(codec, txs).Some? <==> txs != [] && HasPrefix(txs[0], MARKER)
    ensures Carried(codec, txs).Some? ==> certified(Carried(codec, txs).value)
    ensures InjectionRequired(ctx) ==> VeActive(ctx) && Carried(codec, txs).Some?
  {}
}
