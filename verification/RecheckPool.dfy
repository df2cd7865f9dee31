/** The Cosmos pool: inserting a transaction, and removing what a recheck pass rejects. */
module RecheckPool {
  import opened Basics
  import opened TxKeys
  import opened TxStore
  import opened Reserver
  import opened PoolReservations
  import opened RecheckPass

  /** The transactions in the order the pool iterates over them: each pooled transaction once. */
  ghost predicate Lists(order: seq<Tx>, pool: map<Key, Tx>)
  {
    && (forall i :: 0 <= i < |order| ==>
          order[i].signers.Some? && KeyOf(order[i]).Some? && KeyOf(order[i]).value in pool &&
          pool[KeyOf(order[i]).value] == order[i])
    && (forall i, j :: 0 <= i < j < |order| ==> order[i] != order[j])
  }

  /** The pool without the given transactions. */
  ghost function Without(pool: map<Key, Tx>, txs: seq<Tx>): (r: map<Key, Tx>)
  {
    map k | k in pool && pool[k] !in txs :: pool[k]
  }

  lemma {:induction false} SelectLists(order: seq<Tx>, outs: seq<Outcome>, which: Outcome -> bool, n: nat, pool: map<Key, Tx>)
    requires n <= |order| && n <= |outs| && Lists(order, pool)
    ensures Lists(RecheckPass.Select(order, outs, which, n), pool)
    ensures forall tx :: tx in RecheckPass.Select(order, outs, which, n) ==> tx in order[..n]
  {
    if n > 0 {
      SelectLists(order, outs, which, n - 1, pool);
      assert order[..n] == order[..n - 1] + [order[n - 1]];
      var r, q := RecheckPass.Select(order, outs, which, n), RecheckPass.Select(order, outs, which, n - 1);
      forall i | 0 <= i < |q| ensures q[i] != order[n - 1] {
        assert q[i] in q;
        var j :| 0 <= j < n - 1 && order[..n - 1][j] == q[i];
      }
    }
  }

  class RecheckMempool<S(!new)> {
    const reserver: ReservationHandle
    var store: CosmosTxStore
    const maxTx: nat
    var pool: map<Key, Tx>
    var ctx: S
    ghost var inflight: map<nat, Tx>

    constructor (reserver: ReservationHandle, store: CosmosTxStore, maxTx: nat, ctx: S)
      requires reserver.id == COSMOS && reserver.enableRefCount && reserver.refsCounter == map[] && store.Valid()
      requires forall a :: a in reserver.tracker.accounts ==> reserver.tracker.accounts[a] != COSMOS
      ensures Valid() && pool == map[] && inflight == map[] && this.ctx == ctx
      ensures this.reserver == reserver && this.store == store && this.maxTx == maxTx
    {
      this.reserver := reserver;
      this.store := store;
      this.maxTx := maxTx;
      this.ctx := ctx;
      pool := map[];
      inflight := map[];
    }

    /** The reservations as the other in-flight inserts see them between two critical sections. */
    ghost function Reservations(): (s: State)
      reads this, reserver, reserver.tracker
    {
      State(reserver.State(), pool, inflight, Idle)
    }

    ghost predicate Valid()
      reads this, reserver, reserver.tracker, store
    {
      reserver.id == COSMOS && reserver.enableRefCount && Conserved(Reservations()) && store.Valid() && AllRegular(pool)
    }

    /** Reserves the signers, rechecks the transaction on the working state, pools it and updates the snapshot.
        A failed insert leaves the reservations, the pool, the working state and the snapshot as they were. */
    method Insert(tx: Tx, ante: Ante<S>, mayReplace: (Tx, Tx) -> bool) returns (ok: bool)
      requires Valid() && RegularTx(tx)
      modifies this`pool, this`ctx, reserver, reserver.tracker, store
      ensures Valid() && inflight == old(inflight)
      ensures ok <==>
                && tx.signers.Some? && CanHoldAll(old(reserver.State()), COSMOS, AddressesOf(tx))
                && ante(old(ctx), tx).Ok? && KeyOf(tx).Some? && (maxTx == 0 || |old(pool)| < maxTx)
                && (KeyOf(tx).value in old(pool) ==> mayReplace(old(pool)[KeyOf(tx).value], tx))
      ensures !ok ==> Reservations() == old(Reservations()) && ctx == old(ctx) && store.txs == old(store.txs)
      ensures ok ==> pool == old(pool)[KeyOf(tx).value := tx] && ante(old(ctx), tx) == Ok(ctx)
      ensures ok ==> store.txs == AfterInsert(old(store.txs), tx, old(store.nextUnkeyed))
      ensures ok && KeyOf(tx).value in old(pool) ==>
                ReplacedLeaves(old(store.txs), old(pool)[KeyOf(tx).value], tx, store.txs)
    {
      hide StoreOk, SerialsBelow, AfterInsert, ReplacedLeaves, NoncesOf, RegularTx;
      hide Conserved, Consistent;
      if tx.signers.None? {
        return false;
      }
      ghost var books := reserver.State();
      ghost var id := Fresh(inflight);
      var held := ReserveTx(tx, id);
      if !held {
        return false;
      }
      var next := ante(ctx, tx);
      var key := KeyOf(tx);
      if next.Err? || (maxTx > 0 && |pool| >= maxTx) || key.None? || (key.value in pool && !mayReplace(pool[key.value], tx)) {
        ReleaseTx(tx, id, books);
        return false;
      }
      ghost var before, serial := store.txs, store.nextUnkeyed;
      if key.value in pool {
        PooledUnderKey(InFlight(id, tx), key.value);
        ReplacedLeavesIff(before, pool[key.value], tx, serial);
      }
      AddToPool(tx, key.value, id);
      ctx := next.value;
      MarkInserted(tx);
      return true;
    }

    /** The reservations while the insert `id` of `tx` is in flight. */
    ghost function InFlight(id: nat, tx: Tx): (s: State)
      reads this, reserver, reserver.tracker
    {
      State(reserver.State(), pool, inflight[id := tx], Idle)
    }

    method ReserveTx(tx: Tx, ghost id: nat) returns (ok: bool)
      requires reserver.id == COSMOS && reserver.enableRefCount && Conserved(Reservations())
      requires tx.signers.Some? && id !in inflight
      modifies reserver, reserver.tracker
      ensures ok <==> CanHoldAll(old(reserver.State()), COSMOS, AddressesOf(tx))
      ensures !ok ==> reserver.State() == old(reserver.State())
      ensures Consistent(old(reserver.State()), COSMOS) && (ok ==> Conserved(InFlight(id, tx)))
      ensures ok ==> reserver.State() == HoldFirst(old(reserver.State()), COSMOS, true, AddressesOf(tx), |AddressesOf(tx)|)
    {
      ghost var s := Reservations();
      var addrs := ExtractAddresses(tx);
      ok := reserver.Hold(addrs);
      if ok {
        BeginConserves(s, id, tx);
        assert Take(s, Begin(id, tx)) == InFlight(id, tx);
      }
    }

    method ReleaseTx(tx: Tx, ghost id: nat, ghost books: Books)
      requires reserver.id == COSMOS && reserver.enableRefCount && tx.signers.Some? && Conserved(InFlight(id, tx))
      requires Consistent(books, COSMOS) && CanHoldAll(books, COSMOS, AddressesOf(tx))
      requires reserver.State() == HoldFirst(books, COSMOS, true, AddressesOf(tx), |AddressesOf(tx)|)
      modifies reserver, reserver.tracker
      ensures reserver.State() == books
    {
      FailConserves(InFlight(id, tx), id);
      HoldThenRelease(books, COSMOS, AddressesOf(tx));
      var addrs := ExtractAddresses(tx);
      var released := reserver.Release(addrs);
    }

    /** The pool's own insert: a transaction under the same key is replaced, after its release. */
    method AddToPool(tx: Tx, key: Key, ghost id: nat)
      requires reserver.id == COSMOS && reserver.enableRefCount && Conserved(InFlight(id, tx))
      requires id !in inflight && tx.signers.Some? && KeyOf(tx) == Some(key)
      modifies this`pool, reserver, reserver.tracker
      ensures Conserved(Reservations()) && pool == old(pool)[key := tx]
    {
      ghost var s := InFlight(id, tx);
      assert inflight[id := tx] - {id} == inflight;
      if key in pool {
        EvictConserves(s, id);
        var addrs := ExtractAddresses(pool[key]);
        ghost var s' := Take(s, Evict(id));
        SwapConserves(s');
        var released := reserver.Release(addrs);
        assert s'.books == reserver.State();
      } else {
        DoneConserves(s, id);
      }
      pool := pool[key := tx];
    }

    /** If the same signers are stored at the same nonces, takes their dependents out of the snapshot and leaves the
        transaction to the next pass; otherwise adds it. */
    method MarkInserted(tx: Tx)
      requires store.Valid() && RegularTx(tx)
      modifies store
      ensures store.Valid() && store.txs == AfterInsert(old(store.txs), tx, old(store.nextUnkeyed))
    {
      ghost var m := NoncesOf(tx);
      if m.Some? { StoredIsRemoved(store.txs, m.value); }
      var removed := store.InvalidateFrom(tx);
      if removed > 0 {
        return;
      }
      store.AddTx(tx);
    }

    /** A recheck: the pass, the snapshot of what it marked, and unless it was cancelled the removal of what it
        rejected. */
    method RunRecheck(latest: S, order: seq<Tx>, ante: Ante<S>, cancelledAt: nat)
      returns (ghost outs: seq<Outcome>, cancelled: bool)
      requires Valid() && Lists(order, pool)
      modifies this, reserver, reserver.tracker
      ensures Valid() && inflight == old(inflight)
      ensures IsPass(latest, order, outs, ante) && (cancelled <==> cancelledAt <= |order|)
      ensures |outs| == if cancelled then cancelledAt else |order|
      ensures ctx == Working(latest, order, outs, ante, |outs|)
      ensures fresh(store) && RegularTxs(MarkedTxs(order, outs, |outs|))
      ensures (store.txs, store.nextUnkeyed) == Rebuilt(MarkedTxs(order, outs, |outs|), |MarkedTxs(order, outs, |outs|)|)
      ensures pool == if cancelled then old(pool) else Without(old(pool), RemovedTxs(order, outs, |order|))
      ensures cancelled ==> reserver.State() == old(reserver.State())
    {
      hide StoreOk, SerialsBelow, RegularTx, Conserved, Rebuilt;
      var marked, removeTxs;
      outs, ctx, marked, removeTxs, cancelled := RunPass(latest, order, ante, cancelledAt);
      SelectLists(order, outs, (o: Outcome) => o.Marked?, |outs|, pool);
      ListedAreRegular(marked, pool);
      store := new CosmosTxStore();
      FillSnapshot(store, marked);
      if cancelled {
        return;
      }
      SelectLists(order, outs, (o: Outcome) => IsRemoved(o), |order|, pool);
      RemoveAll(removeTxs);
    }

    method RemoveAll(removeTxs: seq<Tx>)
      requires Valid() && Lists(removeTxs, pool)
      modifies this`pool, reserver, reserver.tracker
      ensures Valid() && pool == Without(old(pool), removeTxs)
    {
      ghost var pool0 := pool;
      for i := 0 to |removeTxs|
        invariant Valid() && pool == Without(pool0, removeTxs[..i])
      {
        var txn := removeTxs[i];
        RemoveStep(pool0, removeTxs, i);
        var key := KeyOf(txn).value;
        ghost var s := Reservations();
        DropConserves(s, key);
        ghost var s' := Take(s, Drop(key));
        UnreserveConserves(s');
        pool := pool - {key};
        var addrs := ExtractAddresses(txn);
        var released := reserver.Release(addrs);
      }
      assert removeTxs[..|removeTxs|] == removeTxs;
    }
  }

  lemma ListedAreRegular(txs: seq<Tx>, pool: map<Key, Tx>)
    requires Lists(txs, pool) && AllRegular(pool)
    ensures RegularTxs(txs)
  {
  }

  method FillSnapshot(store: CosmosTxStore, txs: seq<Tx>)
    requires store.Valid() && store.txs == map[] && store.nextUnkeyed == 0 && RegularTxs(txs)
    modifies store
    ensures store.Valid() && (store.txs, store.nextUnkeyed) == Rebuilt(txs, |txs|)
  {
    hide StoreOk, SerialsBelow, AddEntry, EntryFor, RegularTx;
    for i := 0 to |txs|
      invariant store.Valid() && (store.txs, store.nextUnkeyed) == Rebuilt(txs, i)
    {
      store.AddTx(txs[i]);
    }
  }

  /** The rebuilt snapshot holds nothing but the transactions it was built from ... */
  lemma {:induction false} RebuiltFrom(txs: seq<Tx>, n: nat, x: Stored) returns (i: nat)
    requires n <= |txs| && RegularTxs(txs) && x in Contents(Rebuilt(txs, n).0)
    ensures i < n && x.tx == txs[i]
  {
    hide AddEntry, RegularTx;
    var (bs, serial) := Rebuilt(txs, n - 1);
    AddIsExact(bs, EntryFor(txs[n - 1], serial), x);
    if x in Contents(bs) {
      i := RebuiltFrom(txs, n - 1, x);
    } else {
      i := n - 1;
    }
  }

  lemma {:induction false} RebuiltOk(txs: seq<Tx>, n: nat)
    requires n <= |txs| && RegularTxs(txs)
    ensures StoreOk(Rebuilt(txs, n).0)
  {
    if n > 0 {
      RebuiltOk(txs, n - 1);
      var (bs, serial) := Rebuilt(txs, n - 1);
      EntryIsWellFormed(txs[n - 1], serial);
      AddKeepsOk(bs, EntryFor(txs[n - 1], serial));
    }
  }

  /** ... and the signers and nonces of each of them. */
  lemma {:induction false} RebuiltHolds(txs: seq<Tx>, n: nat, i: nat) returns (x: Stored)
    requires i < n <= |txs| && RegularTxs(txs)
    ensures x in Contents(Rebuilt(txs, n).0) && x.nonceMap == NoncesIn(txs[i])
    ensures NoncesOf(txs[i]).None? ==> x.tx == txs[i]
  {
    hide AddEntry, StoreOk;
    var (bs, serial) := Rebuilt(txs, n - 1);
    var e := EntryFor(txs[n - 1], serial);
    if i < n - 1 {
      x := RebuiltHolds(txs, n - 1, i);
      AddIsExact(bs, e, x);
    } else {
      AddIsExact(bs, e, e);
      x := e;
      if HasKey(bs, e.signerKey, e.txKey) {
        RebuiltOk(txs, n - 1);
        RebuiltSerials(txs, n - 1);
        if NoncesOf(txs[i]).None? {
          UnkeyedIsFresh(bs, serial);
        } else {
          DuplicateMeansSameNonces(bs, NoncesOf(txs[i]).value);
          x :| x in Contents(bs) && x.nonceMap == NoncesOf(txs[i]).value;
          AddIsExact(bs, e, x);
        }
      }
    }
  }

  lemma {:induction false} RebuiltSerials(txs: seq<Tx>, n: nat)
    requires n <= |txs| && RegularTxs(txs)
    ensures SerialsBelow(Rebuilt(txs, n).0, Rebuilt(txs, n).1)
  {
    if n > 0 {
      RebuiltSerials(txs, n - 1);
      var (bs, serial) := Rebuilt(txs, n - 1);
      SerialsAfterAdd(bs, txs[n - 1], serial);
    }
  }

  lemma PooledUnderKey(s: State, key: Key)
    requires Conserved(s) && key in s.pool
    ensures s.pool[key].signers.Some? && KeyOf(s.pool[key]) == Some(key)
  {
  }

  predicate AllRegular(pool: map<Key, Tx>) { forall k :: k in pool ==> RegularTx(pool[k]) }

  method ExtractAddresses(tx: Tx) returns (addrs: seq<Address>)
    requires tx.signers.Some?
    ensures addrs == AddressesOf(tx)
  {
    var s := tx.signers.value;
    addrs := [];
    for i := 0 to |s|
      invariant addrs == AddressesOf(tx)[..i]
    {
      addrs := addrs + [ToAddress(s[i].address)];
    }
  }

  /** An identifier that no in-flight insert uses. */
  ghost function Fresh(m: map<nat, Tx>): (id: nat)
    ensures id !in m
  {
    FreshExists(m.Keys);
    var id: nat :| id !in m;
    id
  }

  lemma FreshExists(s: set<nat>)
    ensures exists id: nat :: id !in s
  {
    var n := Bound(s);
    assert n !in s;
  }

  lemma Bound(s: set<nat>) returns (n: nat)
    ensures forall x :: x in s ==> x < n
    decreases |s|
  {
    if s == {} {
      n := 0;
    } else {
      var x :| x in s;
      var m := Bound(s - {x});
      n := if x < m then m else x + 1;
      forall y | y in s ensures y < n {
        if y != x { assert y in s - {x}; }
      }
    }
  }

  lemma RemoveStep(pool: map<Key, Tx>, txs: seq<Tx>, i: nat)
    requires Lists(txs, pool) && i < |txs|
    requires forall k :: k in pool ==> pool[k].signers.Some? && KeyOf(pool[k]) == Some(k)
    ensures var k := KeyOf(txs[i]).value;
            && k in Without(pool, txs[..i]) && Without(pool, txs[..i])[k] == txs[i]
            && Without(pool, txs[..i + 1]) == Without(pool, txs[..i]) - {k}
  {
    var k := KeyOf(txs[i]).value;
    assert txs[..i + 1] == txs[..i] + [txs[i]];
    assert txs[i] !in txs[..i];
  }

  /** When the same signers are stored at the same nonces, at least their entry is invalidated. */
  lemma StoredIsRemoved(bs: Buckets, m: NonceMap)
    requires StoreOk(bs)
    ensures Regular(m) && HasKey(bs, SignerSetKey(m), TxKey(m)) ==> |Removed(bs, m, bs.Keys)| > 0
  {
    if Regular(m) && HasKey(bs, SignerSetKey(m), TxKey(m)) {
      DuplicateMeansSameNonces(bs, m);
      var x :| x in Contents(bs) && x.nonceMap == m;
      var s :| s in m;
      assert Invalidated(x, m);
      assert x in Removed(bs, m, bs.Keys);
    }
  }

  // ---- what a replacement does to the snapshot --------------------------------------------------------------

  /** No signer is listed twice. */
  predicate SignersOnce(tx: Tx)
    requires tx.signers.Some?
  {
    forall i, j :: 0 <= i < j < |tx.signers.value| ==> tx.signers.value[i].address != tx.signers.value[j].address
  }

  /** An entry of the replaced transaction leaves the snapshot exactly when the new one's own signers and nonces are
      stored and invalidate it; for transactions that list each signer once, exactly when they are stored. */
  ghost predicate ReplacedLeaves(before: Buckets, replaced: Tx, tx: Tx, after: Buckets)
  {
    forall x :: x in Contents(before) && x.tx == replaced ==> Leaves(before, x, tx, after)
  }

  ghost predicate Leaves(before: Buckets, x: Stored, tx: Tx, after: Buckets)
  {
    && (x !in Contents(after) <==> SameStored(before, tx) && Invalidated(x, NoncesOf(tx).value))
    && (x.tx.signers.Some? && tx.signers.Some? && SignersOnce(x.tx) && SignersOnce(tx) && NoncesOf(x.tx).Some? ==>
          (x !in Contents(after) <==> SameStored(before, tx)))
  }

  lemma {:induction false} FirstNonce(tx: Tx, n: nat)
    requires tx.signers.Some? && KeyOf(tx).Some? && SignersOnce(tx)
    requires 0 < n <= |tx.signers.value| && NoncesUpTo(tx, tx.signers.value, n).Some?
    ensures var m, k := NoncesUpTo(tx, tx.signers.value, n).value, KeyOf(tx).value; k.signer in m && m[k.signer] == k.nonce
  {
    if n > 1 {
      FirstNonce(tx, n - 1);
    } else {
      assert NoncesUpTo(tx, tx.signers.value, 0) == Some(map[]);
    }
  }

  lemma ReplacedLeavesIff(before: Buckets, replaced: Tx, tx: Tx, serial: nat)
    requires StoreOk(before) && RegularTx(tx) && replaced.signers.Some? && tx.signers.Some?
    requires KeyOf(tx).Some? && KeyOf(replaced) == KeyOf(tx)
    ensures ReplacedLeaves(before, replaced, tx, AfterInsert(before, tx, serial))
  {
    hide HasKey, AddEntry, InvalidateAll, StoreOk, WellFormed, RegularTx;
    var after := AfterInsert(before, tx, serial);
    forall x | x in Contents(before) && x.tx == replaced ensures Leaves(before, x, tx, after) {
      if SameStored(before, tx) {
        InvalidateIsNaiveScan(before, NoncesOf(tx).value, x);
        if SignersOnce(replaced) && SignersOnce(tx) && NoncesOf(replaced).Some? {
          ContentsAreWellFormed(before, x);
          FirstNonce(replaced, |replaced.signers.value|);
          FirstNonce(tx, |tx.signers.value|);
          assert Invalidated(x, NoncesOf(tx).value);
        }
      } else {
        AddIsExact(before, EntryFor(tx, serial), x);
      }
    }
  }

  lemma ContentsAreWellFormed(bs: Buckets, x: Stored)
    requires StoreOk(bs) && x in Contents(bs)
    ensures WellFormed(x) && x.nonceMap == NoncesIn(x.tx)
  {
    var k, i :| k in bs && 0 <= i < |bs[k].txs| && bs[k].txs[i] == x;
    assert BucketOk(k, bs[k]);
  }

  function TxBy(id: nat, signers: seq<Bytes>): (tx: Tx)
  {
    Tx(id, Some(seq(|signers|, i requires 0 <= i < |signers| => Signer(signers[i], 0))), None, None)
  }

  /** A transaction signed by two, replaced in the pool by one that the first of them signs alone at the same nonce,
      stays in the snapshot beside it. */
  lemma ReplacedCanStay(a: Bytes, b: Bytes)
    requires |a| == |b| == SIGNER_LEN && a != b
    ensures var replaced, tx := TxBy(0, [a, b]), TxBy(1, [a]);
            && KeyOf(tx).Some? && KeyOf(replaced) == KeyOf(tx) && RegularTx(replaced) && RegularTx(tx)
            && var before := AfterInsert(map[], replaced, 0);
               var after := AfterInsert(before, tx, 0);
               EntryFor(replaced, 0) in Contents(before) && EntryFor(replaced, 0) in Contents(after) &&
               EntryFor(tx, 0) in Contents(after)
  {
    var replaced, tx := TxBy(0, [a, b]), TxBy(1, [a]);
    TwoNonces(a, b);
    assert a in map[a := 0, b := 0].Keys && a in map[a := 0].Keys;
    assert Regular(map[a := 0, b := 0]) && Regular(map[a := 0]);
    var x, y := EntryFor(replaced, 0), EntryFor(tx, 0);
    var before := AddEntry(map[], x);
    assert !SameStored(map[], replaced);
    AddIsExact(map[], x, x);
    assert b in x.nonceMap.Keys && b !in y.nonceMap.Keys;
    if x.signerKey == y.signerKey { SignerSetKeyInjective(x.nonceMap, y.nonceMap, SIGNER_LEN); }
    assert before.Keys == {x.signerKey};
    assert !SameStored(before, tx);
    AddIsExact(before, y, x);
    AddIsExact(before, y, y);
  }

  lemma TwoNonces(a: Bytes, b: Bytes)
    requires a != b
    ensures NoncesOf(TxBy(0, [a, b])) == Some(map[a := 0, b := 0]) && NoncesOf(TxBy(1, [a])) == Some(map[a := 0])
  {
    var s, t := TxBy(0, [a, b]).signers.value, TxBy(1, [a]).signers.value;
    assert NoncesUpTo(TxBy(1, [a]), t, 0) == Some(map[]);
    assert NoncesUpTo(TxBy(0, [a, b]), s, 0) == Some(map[]);
    assert NoncesUpTo(TxBy(0, [a, b]), s, 1) == Some(map[a := 0]);
  }
}
