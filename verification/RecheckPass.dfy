/** One recheck pass over the pool: transactions are rechecked in order against a working state; a failure
    evicts the later transactions of its signers without rechecking them. */
module RecheckPass {
  import opened Basics
  import opened TxKeys

  datatype AnteError = WrongSequence | OtherError

  /** The ante handler: the state after a valid transaction, or why it is refused. */
  type Ante<!S> = (S, Tx) -> Result<S, AnteError>

  datatype Outcome =
    | Unreadable                     // the signers cannot be extracted: left alone
    | Marked                         // rechecked and kept
    | Refused(tooOld: bool)          // rechecked and removed; too old means a wrong sequence
    | Cascaded                       // removed without being rechecked

  predicate IsRemoved(o: Outcome) { o.Refused? || o.Cascaded? }

  /** A removal that condemns the later transactions of its signers. */
  predicate Condemns(o: Outcome) { o.Cascaded? || (o.Refused? && !o.tooOld) }

  /** One of the first `n` signers is `k`, at a sequence below `q`. */
  predicate SignsBelow(signers: seq<Signer>, k: Bytes, q: nat, n: nat)
    requires n <= |signers|
  {
    n > 0 && ((signers[n - 1].address == k && signers[n - 1].sequence < q) || SignsBelow(signers, k, q, n - 1))
  }

  predicate TxSignsBelow(tx: Tx, k: Bytes, q: nat)
  {
    tx.signers.Some? && SignsBelow(tx.signers.value, k, q, |tx.signers.value|)
  }

  /** Some condemning transaction among the first `n` is signed by `k` at a sequence below `q`. */
  predicate Condemned(txs: seq<Tx>, outs: seq<Outcome>, n: nat, k: Bytes, q: nat)
    requires n <= |txs| && n <= |outs|
  {
    n > 0 && ((Condemns(outs[n - 1]) && TxSignsBelow(txs[n - 1], k, q)) || Condemned(txs, outs, n - 1, k, q))
  }

  /** One of the first `m` signers of a transaction is condemned by the first `n` outcomes. */
  predicate Hit(txs: seq<Tx>, outs: seq<Outcome>, n: nat, signers: seq<Signer>, m: nat)
    requires n <= |txs| && n <= |outs| && m <= |signers|
  {
    m > 0 && (Condemned(txs, outs, n, signers[m - 1].address, signers[m - 1].sequence) || Hit(txs, outs, n, signers, m - 1))
  }

  /** The state that the marked transactions among the first `n` lead to, each applied in turn. */
  function Working<S>(latest: S, txs: seq<Tx>, outs: seq<Outcome>, ante: Ante<S>, n: nat): (s: S)
    requires n <= |txs| && n <= |outs|
  {
    if n == 0 then latest
    else
      var s := Working(latest, txs, outs, ante, n - 1);
      if outs[n - 1].Marked? && ante(s, txs[n - 1]).Ok? then ante(s, txs[n - 1]).value else s
  }

  /** What becomes of transaction `i`, given what became of the earlier ones. */
  function Judge<S>(latest: S, txs: seq<Tx>, outs: seq<Outcome>, ante: Ante<S>, i: nat): (o: Outcome)
    requires i < |txs| && i <= |outs|
  {
    if txs[i].signers.None? then Unreadable
    else if Hit(txs, outs, i, txs[i].signers.value, |txs[i].signers.value|) then Cascaded
    else
      match ante(Working(latest, txs, outs, ante, i), txs[i])
      case Ok(_) => Marked
      case Err(e) => Refused(e.WrongSequence?)
  }

  /** The outcomes of the first `n` transactions, each judged by the earlier ones. */
  ghost predicate IsPass<S(!new)>(latest: S, txs: seq<Tx>, outs: seq<Outcome>, ante: Ante<S>)
  {
    |outs| <= |txs| && forall i :: 0 <= i < |outs| ==> outs[i] == Judge(latest, txs, outs, ante, i)
  }

  function Select(txs: seq<Tx>, outs: seq<Outcome>, which: Outcome -> bool, n: nat): (r: seq<Tx>)
    requires n <= |txs| && n <= |outs|
  {
    if n == 0 then []
    else if which(outs[n - 1]) then Select(txs, outs, which, n - 1) + [txs[n - 1]]
    else Select(txs, outs, which, n - 1)
  }

  function MarkedTxs(txs: seq<Tx>, outs: seq<Outcome>, n: nat): (r: seq<Tx>)
    requires n <= |txs| && n <= |outs|
  {
    Select(txs, outs, (o: Outcome) => o.Marked?, n)
  }

  function RemovedTxs(txs: seq<Tx>, outs: seq<Outcome>, n: nat): (r: seq<Tx>)
    requires n <= |txs| && n <= |outs|
  {
    Select(txs, outs, (o: Outcome) => IsRemoved(o), n)
  }

  // ---- meaning --------------------------------------------------------------------------------------------

  /** Transaction `j` was removed unchecked, or the ante handler refused it for another reason than a wrong sequence. */
  ghost predicate Fails<S(!new)>(latest: S, txs: seq<Tx>, outs: seq<Outcome>, ante: Ante<S>, j: nat)
    requires j < |outs| <= |txs|
  {
    outs[j].Cascaded? || (!outs[j].Unreadable? && ante(Working(latest, txs, outs, ante, j), txs[j]) == Err(OtherError))
  }

  /** An earlier failure shares a signer with transaction `i`, at a strictly lower sequence. */
  ghost predicate SharesLowerSigner<S(!new)>(latest: S, txs: seq<Tx>, outs: seq<Outcome>, ante: Ante<S>, i: nat)
    requires i < |outs| <= |txs|
  {
    txs[i].signers.Some? &&
    exists j, p, r ::
      && 0 <= j < i && Fails(latest, txs, outs, ante, j) && txs[j].signers.Some?
      && 0 <= p < |txs[j].signers.value| && 0 <= r < |txs[i].signers.value|
      && txs[j].signers.value[p].address == txs[i].signers.value[r].address
      && txs[j].signers.value[p].sequence < txs[i].signers.value[r].sequence
  }

  /** A transaction that is rechecked is kept if the ante handler takes it, and otherwise refused; it counts as too old
      exactly when the error is a wrong sequence. */
  lemma RecheckedIff<S(!new)>(latest: S, txs: seq<Tx>, outs: seq<Outcome>, ante: Ante<S>, i: nat)
    requires IsPass(latest, txs, outs, ante) && i < |outs| && !outs[i].Unreadable? && !outs[i].Cascaded?
    ensures outs[i].Marked? <==> ante(Working(latest, txs, outs, ante, i), txs[i]).Ok?
    ensures outs[i] == Refused(true) <==> ante(Working(latest, txs, outs, ante, i), txs[i]) == Err(WrongSequence)
    ensures outs[i] == Refused(false) <==> ante(Working(latest, txs, outs, ante, i), txs[i]) == Err(OtherError)
  {
    assert outs[i] == Judge(latest, txs, outs, ante, i);
  }

  /** The removals that condemn are the failures. */
  lemma CondemnsIffFails<S(!new)>(latest: S, txs: seq<Tx>, outs: seq<Outcome>, ante: Ante<S>, j: nat)
    requires IsPass(latest, txs, outs, ante) && j < |outs|
    ensures Condemns(outs[j]) <==> Fails(latest, txs, outs, ante, j)
  {
    if !outs[j].Unreadable? && !outs[j].Cascaded? { RecheckedIff(latest, txs, outs, ante, j); }
  }

  lemma {:induction false} SignsBelowHas(signers: seq<Signer>, k: Bytes, q: nat, n: nat) returns (p: nat)
    requires n <= |signers| && SignsBelow(signers, k, q, n)
    ensures p < n && signers[p].address == k && signers[p].sequence < q
  {
    if signers[n - 1].address == k && signers[n - 1].sequence < q {
      p := n - 1;
    } else {
      p := SignsBelowHas(signers, k, q, n - 1);
    }
  }

  lemma {:induction false} SignsBelowFrom(signers: seq<Signer>, k: Bytes, q: nat, n: nat, p: nat)
    requires p < n <= |signers| && signers[p].address == k && signers[p].sequence < q
    ensures SignsBelow(signers, k, q, n)
  {
    if p < n - 1 { SignsBelowFrom(signers, k, q, n - 1, p); }
  }

  lemma {:induction false} CondemnedHas(txs: seq<Tx>, outs: seq<Outcome>, n: nat, k: Bytes, q: nat) returns (j: nat)
    requires n <= |txs| && n <= |outs| && Condemned(txs, outs, n, k, q)
    ensures j < n && Condemns(outs[j]) && TxSignsBelow(txs[j], k, q)
  {
    if Condemns(outs[n - 1]) && TxSignsBelow(txs[n - 1], k, q) {
      j := n - 1;
    } else {
      j := CondemnedHas(txs, outs, n - 1, k, q);
    }
  }

  lemma {:induction false} CondemnedFrom(txs: seq<Tx>, outs: seq<Outcome>, n: nat, k: Bytes, q: nat, j: nat)
    requires n <= |txs| && n <= |outs| && j < n && Condemns(outs[j]) && TxSignsBelow(txs[j], k, q)
    ensures Condemned(txs, outs, n, k, q)
  {
    if j < n - 1 { CondemnedFrom(txs, outs, n - 1, k, q, j); }
  }

  lemma {:induction false} HitHas(txs: seq<Tx>, outs: seq<Outcome>, n: nat, signers: seq<Signer>, m: nat) returns (r: nat)
    requires n <= |txs| && n <= |outs| && m <= |signers| && Hit(txs, outs, n, signers, m)
    ensures r < m && Condemned(txs, outs, n, signers[r].address, signers[r].sequence)
  {
    if Condemned(txs, outs, n, signers[m - 1].address, signers[m - 1].sequence) {
      r := m - 1;
    } else {
      r := HitHas(txs, outs, n, signers, m - 1);
    }
  }

  lemma {:induction false} HitFrom(txs: seq<Tx>, outs: seq<Outcome>, n: nat, signers: seq<Signer>, m: nat, r: nat)
    requires n <= |txs| && n <= |outs| && r < m <= |signers|
    requires Condemned(txs, outs, n, signers[r].address, signers[r].sequence)
    ensures Hit(txs, outs, n, signers, m)
  {
    if r < m - 1 { HitFrom(txs, outs, n, signers, m - 1, r); }
  }

  /** In a pass, a transaction is removed without being rechecked exactly when it shares a signer with an earlier failure
      at a strictly lower sequence. */
  lemma CascadeIff<S(!new)>(latest: S, txs: seq<Tx>, outs: seq<Outcome>, ante: Ante<S>, i: nat)
    requires IsPass(latest, txs, outs, ante) && i < |outs|
    ensures outs[i].Cascaded? <==> SharesLowerSigner(latest, txs, outs, ante, i)
  {
    assert outs[i] == Judge(latest, txs, outs, ante, i);
    if outs[i].Cascaded? {
      var signers := txs[i].signers.value;
      var r := HitHas(txs, outs, i, signers, |signers|);
      var j := CondemnedHas(txs, outs, i, signers[r].address, signers[r].sequence);
      var p := SignsBelowHas(txs[j].signers.value, signers[r].address, signers[r].sequence, |txs[j].signers.value|);
      CondemnsIffFails(latest, txs, outs, ante, j);
    }
    if SharesLowerSigner(latest, txs, outs, ante, i) {
      var signers := txs[i].signers.value;
      var j, p, r :|
        && 0 <= j < i && Fails(latest, txs, outs, ante, j) && txs[j].signers.Some?
        && 0 <= p < |txs[j].signers.value| && 0 <= r < |signers|
        && txs[j].signers.value[p].address == signers[r].address
        && txs[j].signers.value[p].sequence < signers[r].sequence;
      CondemnsIffFails(latest, txs, outs, ante, j);
      SignsBelowFrom(txs[j].signers.value, signers[r].address, signers[r].sequence, |txs[j].signers.value|, p);
      CondemnedFrom(txs, outs, i, signers[r].address, signers[r].sequence, j);
      HitFrom(txs, outs, i, signers, |signers|, r);
    }
  }

  /** Every transaction with readable signers is either marked or removed, never both; a marked one passes the
      ante handler on the state that the earlier marked ones lead to. */
  lemma MarkedOrRemoved<S(!new)>(latest: S, txs: seq<Tx>, outs: seq<Outcome>, ante: Ante<S>, i: nat)
    requires IsPass(latest, txs, outs, ante) && i < |outs|
    ensures txs[i].signers.Some? <==> (outs[i].Marked? || IsRemoved(outs[i]))
    ensures !(outs[i].Marked? && IsRemoved(outs[i]))
    ensures outs[i].Marked? ==>
              ante(Working(latest, txs, outs, ante, i), txs[i]) == Ok(Working(latest, txs, outs, ante, i + 1))
    ensures !outs[i].Marked? ==> Working(latest, txs, outs, ante, i + 1) == Working(latest, txs, outs, ante, i)
  {
    assert outs[i] == Judge(latest, txs, outs, ante, i);
  }

  // ---- the program -------------------------------------------------------------------------------------------

  predicate FailsBelow(failed: map<Bytes, nat>, k: Bytes, q: nat) { k in failed && failed[k] < q }

  /** The map records, per signer, the lowest sequence at which a condemning removal happened. */
  ghost predicate Records(failed: map<Bytes, nat>, txs: seq<Tx>, outs: seq<Outcome>, n: nat)
    requires n <= |txs| && n <= |outs|
  {
    forall k, q: nat :: FailsBelow(failed, k, q) <==> Condemned(txs, outs, n, k, q)
  }

  method IsInvalid(failed: map<Bytes, nat>, signers: seq<Signer>, ghost txs: seq<Tx>, ghost outs: seq<Outcome>, ghost n: nat)
    returns (invalid: bool)
    requires n <= |txs| && n <= |outs| && Records(failed, txs, outs, n)
    ensures invalid <==> Hit(txs, outs, n, signers, |signers|)
  {
    for i := 0 to |signers|
      invariant !Hit(txs, outs, n, signers, i)
    {
      var s := signers[i];
      assert FailsBelow(failed, s.address, s.sequence) <==> Condemned(txs, outs, n, s.address, s.sequence);
      if s.address in failed && failed[s.address] < s.sequence {
        HitFrom(txs, outs, n, signers, |signers|, i);
        return true;
      }
    }
    return false;
  }

  /** Lowers the record of each of the signers to its sequence. */
  method Condemn(failed0: map<Bytes, nat>, signers: seq<Signer>) returns (failed: map<Bytes, nat>)
    ensures forall k, q: nat ::
              FailsBelow(failed, k, q) <==> FailsBelow(failed0, k, q) || SignsBelow(signers, k, q, |signers|)
  {
    failed := failed0;
    for i := 0 to |signers|
      invariant forall k, q: nat ::
                  FailsBelow(failed, k, q) <==> FailsBelow(failed0, k, q) || SignsBelow(signers, k, q, i)
    {
      var s := signers[i];
      if s.address !in failed || failed[s.address] > s.sequence {
        failed := failed[s.address := s.sequence];
      }
    }
  }

  /** One transaction's turn. */
  method CheckOne<S(!new)>(ghost latest: S, txs: seq<Tx>, i: nat, ante: Ante<S>, ghost outs: seq<Outcome>,
                           working0: S, marked0: seq<Tx>, removeTxs0: seq<Tx>, failed0: map<Bytes, nat>)
    returns (working: S, marked: seq<Tx>, removeTxs: seq<Tx>, failed: map<Bytes, nat>, ghost o: Outcome)
    requires i == |outs| < |txs| && Records(failed0, txs, outs, i) && working0 == Working(latest, txs, outs, ante, i)
    ensures o == Judge(latest, txs, outs, ante, i)
    ensures working == if o.Marked? && ante(working0, txs[i]).Ok? then ante(working0, txs[i]).value else working0
    ensures marked == marked0 + (if o.Marked? then [txs[i]] else [])
    ensures removeTxs == removeTxs0 + (if IsRemoved(o) then [txs[i]] else [])
    ensures Records(failed, txs, outs + [o], i + 1)
  {
    working, marked, removeTxs, failed := working0, marked0, removeTxs0, failed0;
    o := Judge(latest, txs, outs, ante, i);
    if txs[i].signers.Some? {
      var signers := txs[i].signers.value;
      var invalid := IsInvalid(failed, signers, txs, outs, i);
      var keepFutures := false;
      if !invalid {
        var checked := ante(working, txs[i]);
        if checked.Ok? {
          working := checked.value;
          marked := marked + [txs[i]];
          RecordsExtend(failed0, failed, txs, outs, o);
          return;
        }
        keepFutures := checked.error.WrongSequence?;
      }
      removeTxs := removeTxs + [txs[i]];
      if !keepFutures {
        failed := Condemn(failed, signers);
      }
    }
    RecordsExtend(failed0, failed, txs, outs, o);
  }

  lemma PassStart<S(!new)>(latest: S, txs: seq<Tx>, ante: Ante<S>)
    ensures IsPass(latest, txs, [], ante) && Working(latest, txs, [], ante, 0) == latest
    ensures MarkedTxs(txs, [], 0) == [] && RemovedTxs(txs, [], 0) == [] && Records(map[], txs, [], 0)
  {}

  /** The pass itself. `cancelledAt` is the number of polls after which the cancel channel is found closed. */
  method RunPass<S(!new)>(latest: S, txs: seq<Tx>, ante: Ante<S>, cancelledAt: nat)
    returns (ghost outs: seq<Outcome>, working: S, marked: seq<Tx>, removeTxs: seq<Tx>, cancelled: bool)
    ensures IsPass(latest, txs, outs, ante)
    ensures cancelled <==> cancelledAt <= |txs|
    ensures |outs| == if cancelled then cancelledAt else |txs|
    ensures working == Working(latest, txs, outs, ante, |outs|)
    ensures marked == MarkedTxs(txs, outs, |outs|)
    ensures removeTxs == if cancelled then [] else RemovedTxs(txs, outs, |outs|)
  {
    hide IsPass, Records, Working, MarkedTxs, RemovedTxs, Judge;
    outs := [];
    working, marked, removeTxs := latest, [], [];
    var failed: map<Bytes, nat> := map[];
    PassStart(latest, txs, ante);
    for i := 0 to |txs|
      invariant |outs| == i <= cancelledAt && IsPass(latest, txs, outs, ante)
      invariant working == Working(latest, txs, outs, ante, i)
      invariant marked == MarkedTxs(txs, outs, i)
      invariant removeTxs == RemovedTxs(txs, outs, i)
      invariant Records(failed, txs, outs, i)
    {
      if i == cancelledAt {
        return outs, working, marked, [], true;
      }
      ghost var o;
      working, marked, removeTxs, failed, o := CheckOne(latest, txs, i, ante, outs, working, marked, removeTxs, failed);
      PassExtends(latest, txs, outs, ante, o);
      BooksExtend(latest, txs, outs, ante, o);
      outs := outs + [o];
    }
    cancelled := cancelledAt == |txs|;
    if cancelled {
      removeTxs := [];
    }
  }

  /** Appending an outcome changes nothing about the earlier ones. */
  lemma {:induction false} CondemnedPrefix(txs: seq<Tx>, outs: seq<Outcome>, more: seq<Outcome>, n: nat, k: Bytes, q: nat)
    requires outs <= more && n <= |outs| && n <= |txs|
    ensures Condemned(txs, more, n, k, q) == Condemned(txs, outs, n, k, q)
  {
    if n > 0 { CondemnedPrefix(txs, outs, more, n - 1, k, q); }
  }

  lemma {:induction false} HitPrefix(txs: seq<Tx>, outs: seq<Outcome>, more: seq<Outcome>, n: nat, signers: seq<Signer>, m: nat)
    requires outs <= more && n <= |outs| && n <= |txs| && m <= |signers|
    ensures Hit(txs, more, n, signers, m) == Hit(txs, outs, n, signers, m)
  {
    if m > 0 {
      CondemnedPrefix(txs, outs, more, n, signers[m - 1].address, signers[m - 1].sequence);
      HitPrefix(txs, outs, more, n, signers, m - 1);
    }
  }

  lemma {:induction false} WorkingPrefix<S>(latest: S, txs: seq<Tx>, outs: seq<Outcome>, more: seq<Outcome>, ante: Ante<S>, n: nat)
    requires outs <= more && n <= |outs| && n <= |txs|
    ensures Working(latest, txs, more, ante, n) == Working(latest, txs, outs, ante, n)
  {
    if n > 0 { WorkingPrefix(latest, txs, outs, more, ante, n - 1); }
  }

  lemma {:induction false} SelectPrefix(txs: seq<Tx>, outs: seq<Outcome>, more: seq<Outcome>, which: Outcome -> bool, n: nat)
    requires outs <= more && n <= |outs| && n <= |txs|
    ensures Select(txs, more, which, n) == Select(txs, outs, which, n)
  {
    if n > 0 { SelectPrefix(txs, outs, more, which, n - 1); }
  }

  lemma JudgePrefix<S(!new)>(latest: S, txs: seq<Tx>, outs: seq<Outcome>, more: seq<Outcome>, ante: Ante<S>, i: nat)
    requires outs <= more && i <= |outs| && i < |txs|
    ensures Judge(latest, txs, more, ante, i) == Judge(latest, txs, outs, ante, i)
  {
    if txs[i].signers.Some? {
      HitPrefix(txs, outs, more, i, txs[i].signers.value, |txs[i].signers.value|);
      WorkingPrefix(latest, txs, outs, more, ante, i);
    }
  }

  lemma PassExtends<S(!new)>(latest: S, txs: seq<Tx>, outs: seq<Outcome>, ante: Ante<S>, o: Outcome)
    requires |outs| < |txs| && IsPass(latest, txs, outs, ante) && o == Judge(latest, txs, outs, ante, |outs|)
    ensures IsPass(latest, txs, outs + [o], ante)
  {
    var more := outs + [o];
    forall i | 0 <= i < |more| ensures more[i] == Judge(latest, txs, more, ante, i) {
      JudgePrefix(latest, txs, outs, more, ante, i);
    }
  }

  /** The outcomes of a pass are determined by the state, the transactions and the ante handler. */
  lemma {:induction false} PassIsDetermined<S(!new)>(latest: S, txs: seq<Tx>, a: seq<Outcome>, b: seq<Outcome>, ante: Ante<S>, n: nat)
    requires IsPass(latest, txs, a, ante) && IsPass(latest, txs, b, ante) && n <= |a| && n <= |b|
    ensures a[..n] == b[..n]
  {
    if n > 0 {
      PassIsDetermined(latest, txs, a, b, ante, n - 1);
      JudgePrefix(latest, txs, a[..n - 1], a, ante, n - 1);
      JudgePrefix(latest, txs, b[..n - 1], b, ante, n - 1);
      assert a[..n] == a[..n - 1] + [a[n - 1]] && b[..n] == b[..n - 1] + [b[n - 1]];
    }
  }

  /** How the bookkeeping of the loop moves on with one outcome. */
  lemma BooksExtend<S(!new)>(latest: S, txs: seq<Tx>, outs: seq<Outcome>, ante: Ante<S>, o: Outcome)
    requires |outs| < |txs|
    ensures var i, more := |outs|, outs + [o];
            && MarkedTxs(txs, more, i + 1) == MarkedTxs(txs, outs, i) + (if o.Marked? then [txs[i]] else [])
            && RemovedTxs(txs, more, i + 1) == RemovedTxs(txs, outs, i) + (if IsRemoved(o) then [txs[i]] else [])
            && var w := Working(latest, txs, outs, ante, i);
               Working(latest, txs, more, ante, i + 1) == if o.Marked? && ante(w, txs[i]).Ok? then ante(w, txs[i]).value else w
  {
    var i, more := |outs|, outs + [o];
    SelectPrefix(txs, outs, more, (o: Outcome) => o.Marked?, i);
    SelectPrefix(txs, outs, more, (o: Outcome) => IsRemoved(o), i);
    WorkingPrefix(latest, txs, outs, more, ante, i);
  }

  lemma RecordsExtend(failed: map<Bytes, nat>, next: map<Bytes, nat>, txs: seq<Tx>, outs: seq<Outcome>, o: Outcome)
    requires |outs| < |txs| && Records(failed, txs, outs, |outs|)
    requires if Condemns(o) && txs[|outs|].signers.Some? then
               var signers := txs[|outs|].signers.value;
               forall k, q: nat ::
                 FailsBelow(next, k, q) <==> FailsBelow(failed, k, q) || SignsBelow(signers, k, q, |signers|)
             else next == failed
    ensures Records(next, txs, outs + [o], |outs| + 1)
  {
    var n, more := |outs|, outs + [o];
    forall k, q: nat ensures FailsBelow(next, k, q) <==> Condemned(txs, more, n + 1, k, q) {
      CondemnedPrefix(txs, outs, more, n, k, q);
      assert FailsBelow(failed, k, q) <==> Condemned(txs, outs, n, k, q);
    }
  }
}
