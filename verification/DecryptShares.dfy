/** The decryption shares a node serves with its vote: matured ciphertexts only, oldest first, marginal supply. */
module DecryptShares {
  import opened Basics

  datatype EncTx = EncTx(height: nat, seqNo: nat, epoch: nat, a: Bytes)

  datatype OwnedShare = OwnedShare(index: nat, xi: Bytes)

  datatype ServedShare = ServedShare(epoch: nat, height: nat, seqNo: nat, index: nat, d: Bytes, proof: Bytes)

  /** Committed reads and the proof of a share, as functions of their arguments. */
  datatype Node = Node(
    sharesOf: nat -> Option<seq<OwnedShare>>,
    storedAt: (nat, nat) -> seq<nat>,
    thresholdOf: nat -> Option<nat>,
    prove: (OwnedShare, Bytes) -> Option<(Bytes, Bytes)>)

  /** The in-flight store iterates in (decrypt height, sequence) order. */
  predicate Ascending(entries: seq<EncTx>)
  {
    forall i, j :: 0 <= i < j < |entries| ==> Before(entries[i], entries[j])
  }

  predicate Before(a: EncTx, b: EncTx) { a.height < b.height || (a.height == b.height && a.seqNo < b.seqNo) }

  function From(entries: seq<EncTx>, minHeight: nat): (r: seq<EncTx>)
    ensures forall i :: 0 <= i < |r| ==> r[i] in entries && r[i].height >= minHeight
  {
    if entries == [] then []
    else if entries[0].height >= minHeight then [entries[0]] + From(entries[1..], minHeight)
    else From(entries[1..], minHeight)
  }

  function Take<T>(s: seq<T>, n: nat): (r: seq<T>) { if n < |s| then s[..n] else s }

  /** The start of the deferral window. */
  function WindowStart(h: nat, grace: nat): (from: nat) { if h > grace then h - grace else 0 }

  predicate ThresholdComplete(node: Node, e: EncTx)
  {
    var t := node.thresholdOf(e.epoch);
    t.Some? && t.value > 0 && |node.storedAt(e.height, e.seqNo)| >= t.value
  }

  function Served(node: Node, e: EncTx, sh: OwnedShare): (r: Option<ServedShare>)
  {
    if sh.index in node.storedAt(e.height, e.seqNo) then None
    else
      match node.prove(sh, e.a)
      case None => None
      case Some((d, proof)) => Some(ServedShare(e.epoch, e.height, e.seqNo, sh.index, d, proof))
  }

  /** The provable, not yet stored ones among the first `n` owned shares. */
  function ServedOf(node: Node, e: EncTx, shares: seq<OwnedShare>, n: nat): (r: seq<ServedShare>)
    requires n <= |shares|
  {
    if n == 0 then []
    else
      var s := Served(node, e, shares[n - 1]);
      ServedOf(node, e, shares, n - 1) + (if s.Some? then [s.value] else [])
  }

  /** Everything the node could contribute to a ciphertext at height `h`. */
  function Contribution(node: Node, e: EncTx, h: nat): (r: seq<ServedShare>)
  {
    if e.height > h || e.epoch == 0 then []
    else
      match node.sharesOf(e.epoch)
      case None => []
      case Some(shares) => if ThresholdComplete(node, e) then [] else ServedOf(node, e, shares, |shares|)
  }

  function Contributions(node: Node, entries: seq<EncTx>, h: nat, n: nat): (r: seq<ServedShare>)
    requires n <= |entries|
  {
    if n == 0 then [] else Contributions(node, entries, h, n - 1) + Contribution(node, entries[n - 1], h)
  }

  // ---- truncation -----------------------------------------------------------------------------------------

  lemma {:induction false} ContributionsGrow(node: Node, entries: seq<EncTx>, h: nat, m: nat, n: nat)
    requires m <= n <= |entries|
    ensures Contributions(node, entries, h, m) <= Contributions(node, entries, h, n)
  {
    if m < n { ContributionsGrow(node, entries, h, m, n - 1); }
  }

  /** After the first entry that has not matured, nothing contributes. */
  lemma {:induction false} NothingAfterImmature(node: Node, entries: seq<EncTx>, h: nat, m: nat, n: nat)
    requires Ascending(entries) && m < n <= |entries| && entries[m].height > h
    ensures Contributions(node, entries, h, n) == Contributions(node, entries, h, m)
  {
    if n == m + 1 {
      assert Contributions(node, entries, h, m) + [] == Contributions(node, entries, h, m);
    } else {
      NothingAfterImmature(node, entries, h, m, n - 1);
      assert entries[n - 1].height > h;
    }
  }

  lemma {:induction false} ServedGrow(node: Node, e: EncTx, shares: seq<OwnedShare>, m: nat, n: nat)
    requires m <= n <= |shares|
    ensures ServedOf(node, e, shares, m) <= ServedOf(node, e, shares, n)
  {
    if m < n { ServedGrow(node, e, shares, m, n - 1); }
  }

  // ---- what is served --------------------------------------------------------------------------------------

  /** `s` is a proved, owned, not yet stored share of a matured ciphertext that is still short of its threshold. */
  predicate Justified(node: Node, entries: seq<EncTx>, h: nat, s: ServedShare)
  {
    exists k :: 0 <= k < |entries| && JustifiedBy(node, entries[k], h, s)
  }

  predicate JustifiedBy(node: Node, e: EncTx, h: nat, s: ServedShare)
  {
    && e.height <= h && e.epoch != 0
    && (node.thresholdOf(e.epoch).Some? && node.thresholdOf(e.epoch).value > 0 ==>
          |node.storedAt(e.height, e.seqNo)| < node.thresholdOf(e.epoch).value)
    && s.epoch == e.epoch && s.height == e.height && s.seqNo == e.seqNo
    && s.index !in node.storedAt(e.height, e.seqNo)
    && node.sharesOf(e.epoch).Some?
    && exists sh :: sh in node.sharesOf(e.epoch).value && sh.index == s.index && node.prove(sh, e.a) == Some((s.d, s.proof))
  }

  lemma {:induction false} ServedIsJustified(node: Node, e: EncTx, h: nat, n: nat, k: nat)
    requires e.height <= h && e.epoch != 0 && !ThresholdComplete(node, e) && node.sharesOf(e.epoch).Some?
    requires n <= |node.sharesOf(e.epoch).value| && k < |ServedOf(node, e, node.sharesOf(e.epoch).value, n)|
    ensures JustifiedBy(node, e, h, ServedOf(node, e, node.sharesOf(e.epoch).value, n)[k])
  {
    var shares := node.sharesOf(e.epoch).value;
    var before := ServedOf(node, e, shares, n - 1);
    if k < |before| {
      ServedIsJustified(node, e, h, n - 1, k);
    } else {
      assert shares[n - 1] in shares;
    }
  }

  /** No share precedes the maturity of its ciphertext, and none is served twice, unproved or without need. */
  lemma {:induction false} ContributionsAreJustified(node: Node, entries: seq<EncTx>, h: nat, n: nat, k: nat)
    requires n <= |entries| && k < |Contributions(node, entries, h, n)|
    ensures Justified(node, entries, h, Contributions(node, entries, h, n)[k])
  {
    var before := Contributions(node, entries, h, n - 1);
    if k < |before| {
      ContributionsAreJustified(node, entries, h, n - 1, k);
    } else {
      var e := entries[n - 1];
      var shares := node.sharesOf(e.epoch).value;
      ServedIsJustified(node, e, h, |shares|, k - |before|);
    }
  }

  lemma {:induction false} ProvableIsServed(node: Node, e: EncTx, shares: seq<OwnedShare>, n: nat, i: nat)
    requires i < n <= |shares| && Served(node, e, shares[i]).Some?
    ensures Served(node, e, shares[i]).value in ServedOf(node, e, shares, n)
  {
    if i < n - 1 { ProvableIsServed(node, e, shares, n - 1, i); }
  }

  lemma JustifiedIsOwn(node: Node, e: EncTx, h: nat, s: ServedShare)
    requires JustifiedBy(node, e, h, s)
    ensures s in Contribution(node, e, h)
  {
    var shares := node.sharesOf(e.epoch).value;
    var sh :| sh in shares && sh.index == s.index && node.prove(sh, e.a) == Some((s.d, s.proof));
    var i :| 0 <= i < |shares| && shares[i] == sh;
    ProvableIsServed(node, e, shares, |shares|, i);
  }

  /** Every share that there is reason to serve is served. */
  lemma {:induction false} JustifiedIsContributed(node: Node, entries: seq<EncTx>, h: nat, n: nat, k: nat, s: ServedShare)
    requires k < n <= |entries| && JustifiedBy(node, entries[k], h, s)
    ensures s in Contributions(node, entries, h, n)
  {
    hide JustifiedBy, Contribution;
    if k < n - 1 {
      JustifiedIsContributed(node, entries, h, n - 1, k, s);
    } else {
      JustifiedIsOwn(node, entries[k], h, s);
    }
  }

  /** One ciphertext's share is not served after a later ciphertext's. */
  predicate NotAfter(a: ServedShare, b: ServedShare)
  {
    a.height < b.height || (a.height == b.height && a.seqNo <= b.seqNo)
  }

  lemma {:induction false} ServedIsOf(node: Node, e: EncTx, shares: seq<OwnedShare>, n: nat, k: nat)
    requires n <= |shares| && k < |ServedOf(node, e, shares, n)|
    ensures ServedOf(node, e, shares, n)[k].height == e.height && ServedOf(node, e, shares, n)[k].seqNo == e.seqNo
  {
    if k < |ServedOf(node, e, shares, n - 1)| { ServedIsOf(node, e, shares, n - 1, k); }
  }

  lemma {:induction false} ContributionFrom(node: Node, entries: seq<EncTx>, h: nat, n: nat, k: nat) returns (i: nat)
    requires n <= |entries| && k < |Contributions(node, entries, h, n)|
    ensures i < n && Contributions(node, entries, h, n)[k].height == entries[i].height
    ensures Contributions(node, entries, h, n)[k].seqNo == entries[i].seqNo
    ensures n > 0 && (k >= |Contributions(node, entries, h, n - 1)| ==> i == n - 1)
  {
    var before := Contributions(node, entries, h, n - 1);
    if k < |before| {
      i := ContributionFrom(node, entries, h, n - 1, k);
    } else {
      i := n - 1;
      var shares := node.sharesOf(entries[i].epoch).value;
      ServedIsOf(node, entries[i], shares, |shares|, k - |before|);
    }
  }

  /** Shares come oldest ciphertext first. */
  lemma {:induction false} OldestFirst(node: Node, entries: seq<EncTx>, h: nat, n: nat, j: nat, k: nat)
    requires Ascending(entries) && n <= |entries| && j < k < |Contributions(node, entries, h, n)|
    ensures NotAfter(Contributions(node, entries, h, n)[j], Contributions(node, entries, h, n)[k])
  {
    var before := Contributions(node, entries, h, n - 1);
    if k < |before| {
      OldestFirst(node, entries, h, n - 1, j, k);
    } else {
      var a := ContributionFrom(node, entries, h, n, j);
      var b := ContributionFrom(node, entries, h, n, k);
    }
  }

  predicate DistinctPoints(shares: seq<OwnedShare>)
  {
    forall i, j :: 0 <= i < j < |shares| ==> shares[i].index != shares[j].index
  }

  lemma {:induction false} ServedAt(node: Node, e: EncTx, shares: seq<OwnedShare>, n: nat, k: nat) returns (i: nat)
    requires n <= |shares| && k < |ServedOf(node, e, shares, n)|
    ensures i < n && ServedOf(node, e, shares, n)[k].index == shares[i].index
  {
    if k < |ServedOf(node, e, shares, n - 1)| {
      i := ServedAt(node, e, shares, n - 1, k);
    } else {
      i := n - 1;
    }
  }

  lemma {:induction false} ServedApart(node: Node, e: EncTx, shares: seq<OwnedShare>, n: nat, j: nat, k: nat)
    requires DistinctPoints(shares) && n <= |shares| && j < k < |ServedOf(node, e, shares, n)|
    ensures ServedOf(node, e, shares, n)[j] != ServedOf(node, e, shares, n)[k]
  {
    if k < |ServedOf(node, e, shares, n - 1)| {
      ServedApart(node, e, shares, n - 1, j, k);
    } else {
      var i := ServedAt(node, e, shares, n - 1, j);
    }
  }

  /** No share is served twice. */
  lemma {:induction false} NoneTwice(node: Node, entries: seq<EncTx>, h: nat, n: nat, j: nat, k: nat)
    requires Ascending(entries) && n <= |entries| && j < k < |Contributions(node, entries, h, n)|
    requires forall ep :: node.sharesOf(ep).Some? ==> DistinctPoints(node.sharesOf(ep).value)
    ensures Contributions(node, entries, h, n)[j] != Contributions(node, entries, h, n)[k]
  {
    hide Contribution, DistinctPoints;
    var before := Contributions(node, entries, h, n - 1);
    if k < |before| {
      NoneTwice(node, entries, h, n - 1, j, k);
    } else if j < |before| {
      var a := ContributionFrom(node, entries, h, n - 1, j);
      var b := ContributionFrom(node, entries, h, n, k);
      assert Before(entries[a], entries[b]);
    } else {
      OwnApart(node, entries[n - 1], h, j - |before|, k - |before|);
    }
  }

  lemma OwnApart(node: Node, e: EncTx, h: nat, j: nat, k: nat)
    requires j < k < |Contribution(node, e, h)|
    requires node.sharesOf(e.epoch).Some? ==> DistinctPoints(node.sharesOf(e.epoch).value)
    ensures Contribution(node, e, h)[j] != Contribution(node, e, h)[k]
  {
    var shares := node.sharesOf(e.epoch).value;
    ServedApart(node, e, shares, |shares|, j, k);
  }

  // ---- the program -----------------------------------------------------------------------------------------

  /** Adds one ciphertext's shares until the cap is reached. */
  method ServeEntry(node: Node, e: EncTx, shares: seq<OwnedShare>, shareCap: nat, out0: seq<ServedShare>)
    returns (out: seq<ServedShare>)
    requires |out0| <= shareCap
    ensures out == Take(out0 + ServedOf(node, e, shares, |shares|), shareCap)
  {
    var stored := node.storedAt(e.height, e.seqNo);
    out := out0;
    for i := 0 to |shares|
      invariant |out| <= shareCap
      invariant out == out0 + ServedOf(node, e, shares, i)
    {
      ServedGrow(node, e, shares, i, |shares|);
      if |out| >= shareCap {
        return;
      }
      var sh := shares[i];
      if sh.index in stored {
        continue;
      }
      var p := node.prove(sh, e.a);
      if p.None? {
        continue;
      }
      out := out + [ServedShare(e.epoch, e.height, e.seqNo, sh.index, p.value.0, p.value.1)];
    }
  }

  /** One ciphertext's turn, with the per-epoch shares looked up once. */
  method Visit(node: Node, e: EncTx, h: nat, shareCap: nat, cache0: map<nat, Option<seq<OwnedShare>>>,
               out0: seq<ServedShare>)
    returns (cache: map<nat, Option<seq<OwnedShare>>>, out: seq<ServedShare>)
    requires |out0| <= shareCap && e.height <= h
    requires forall ep :: ep in cache0 ==> cache0[ep] == node.sharesOf(ep)
    ensures forall ep :: ep in cache ==> cache[ep] == node.sharesOf(ep)
    ensures out == Take(out0 + Contribution(node, e, h), shareCap)
  {
    cache, out := cache0, out0;
    assert out0 + [] == out0;
    if e.epoch == 0 {
      return;
    }
    if e.epoch !in cache {
      cache := cache[e.epoch := node.sharesOf(e.epoch)];
    }
    var sc := cache[e.epoch];
    if sc.None? {
      return;
    }
    var t := node.thresholdOf(e.epoch);
    if t.Some? && t.value > 0 && |node.storedAt(e.height, e.seqNo)| >= t.value {
      return;
    }
    out := ServeEntry(node, e, sc.value, shareCap, out);
  }

  lemma TakeAgain<T>(a: seq<T>, b: seq<T>, n: nat)
    requires |a| < n
    ensures Take(Take(a, n) + b, n) == Take(a + b, n)
  {}

  lemma CapReached(node: Node, entries: seq<EncTx>, h: nat, m: nat, n: nat)
    requires m <= |entries| && |Take(Contributions(node, entries, h, m), n)| >= n
    ensures Take(Contributions(node, entries, h, |entries|), n) == Take(Contributions(node, entries, h, m), n)
  {
    ContributionsGrow(node, entries, h, m, |entries|);
  }

  /** The callback over the visited entries: it stops at the cap and at the first immature entry. */
  method ServeVisited(node: Node, visited: seq<EncTx>, h: nat, shareCap: nat) returns (out: seq<ServedShare>)
    requires Ascending(visited)
    ensures out == Take(Contributions(node, visited, h, |visited|), shareCap)
  {
    hide Contribution;
    out := [];
    var cache: map<nat, Option<seq<OwnedShare>>> := map[];
    for i := 0 to |visited|
      invariant |out| <= shareCap
      invariant out == Take(Contributions(node, visited, h, i), shareCap)
      invariant forall ep :: ep in cache ==> cache[ep] == node.sharesOf(ep)
    {
      if |out| >= shareCap {
        CapReached(node, visited, h, i, shareCap);
        return;
      }
      if visited[i].height > h {
        NothingAfterImmature(node, visited, h, i, |visited|);
        return;
      }
      cache, out := Visit(node, visited[i], h, shareCap, cache, out);
      TakeAgain(Contributions(node, visited, h, i), Contribution(node, visited[i], h), shareCap);
    }
  }

  /** The entries from `k` on are exactly those at most `grace` blocks back, or still to mature. */
  predicate Visits(entries: seq<EncTx>, h: nat, grace: nat, k: nat)
  {
    k <= |entries| && forall i :: 0 <= i < |entries| ==> (i >= k <==> entries[i].height + grace >= h)
  }

  /** The window is what lies at most `grace` blocks back, and all of it: a suffix of the store. */
  lemma {:induction false} WindowIs(entries: seq<EncTx>, h: nat, grace: nat) returns (k: nat)
    requires Ascending(entries)
    ensures k <= |entries| && From(entries, WindowStart(h, grace)) == entries[k..]
    ensures forall i :: 0 <= i < |entries| ==> (i >= k <==> entries[i].height + grace >= h)
  {
    if entries == [] {
      k := 0;
    } else if entries[0].height + grace >= h {
      k := 0;
      forall i | 0 <= i < |entries| ensures entries[i].height + grace >= h {
        assert i > 0 ==> Before(entries[0], entries[i]);
      }
      FromWhole(entries, WindowStart(h, grace));
    } else {
      var j := WindowIs(entries[1..], h, grace);
      k := j + 1;
      assert entries[1..][j..] == entries[k..];
      forall i | 0 <= i < |entries| ensures i >= k <==> entries[i].height + grace >= h {
        assert i > 0 ==> entries[1..][i - 1] == entries[i];
      }
    }
  }

  lemma {:induction false} FromWhole(entries: seq<EncTx>, minHeight: nat)
    requires forall i :: 0 <= i < |entries| ==> entries[i].height >= minHeight
    ensures From(entries, minHeight) == entries
  {
    if entries != [] {
      FromWhole(entries[1..], minHeight);
      assert entries == [entries[0]] + entries[1..];
    }
  }

  lemma VisitedAre(entries: seq<EncTx>, h: nat, grace: nat, limit: nat) returns (k: nat)
    requires Ascending(entries)
    ensures Visits(entries, h, grace, k)
    ensures Take(From(entries, WindowStart(h, grace)), limit) ==
              entries[k..if |entries| - k > limit then k + limit else |entries|]
  {
    k := WindowIs(entries, h, grace);
  }

  lemma TakeIsPrefix<T>(s: seq<T>, n: nat)
    ensures |Take(s, n)| <= n && Take(s, n) <= s && (|Take(s, n)| < n ==> Take(s, n) == s)
  {
  }

  method BuildDecryptShares(node: Node, entries: seq<EncTx>, h: nat, grace: nat, shareCap: nat)
    returns (out: seq<ServedShare>)
    requires Ascending(entries)
    ensures var visited := Take(From(entries, WindowStart(h, grace)), shareCap);
            && out == Take(Contributions(node, visited, h, |visited|), shareCap)
            && forall k :: 0 <= k < |out| ==> Justified(node, visited, h, out[k])
    ensures |out| <= shareCap
    ensures exists k: nat :: Visits(entries, h, grace, k) &&
              var visited := entries[k..if |entries| - k > shareCap then k + shareCap else |entries|];
              && out <= Contributions(node, visited, h, |visited|)
              && (|out| < shareCap ==> out == Contributions(node, visited, h, |visited|))
  {
    var visited := Take(From(entries, WindowStart(h, grace)), shareCap);
    hide Contributions, Justified, From, WindowStart;
    FromAscending(entries, WindowStart(h, grace));
    ghost var k := VisitedAre(entries, h, grace, shareCap);
    out := ServeVisited(node, visited, h, shareCap);
    TakeIsPrefix(Contributions(node, visited, h, |visited|), shareCap);
    forall k | 0 <= k < |out| ensures Justified(node, visited, h, out[k]) {
      ContributionsAreJustified(node, visited, h, |visited|, k);
    }
  }

  lemma {:induction false} FromAscending(entries: seq<EncTx>, minHeight: nat)
    requires Ascending(entries)
    ensures Ascending(From(entries, minHeight))
  {
    if entries != [] {
      FromAscending(entries[1..], minHeight);
      var rest := From(entries[1..], minHeight);
      forall j | 0 <= j < |rest| ensures Before(entries[0], rest[j]) {
        var k :| 0 <= k < |entries[1..]| && entries[1..][k] == rest[j];
        assert Before(entries[0], entries[k + 1]);
      }
    }
  }
}
