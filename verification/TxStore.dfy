/** The height snapshot of Cosmos transactions: one bucket per signer set, kept sorted, invalidated in place. */
module TxStore {
  import opened Basics
  import opened TxKeys

  datatype Stored = Stored(tx: Tx, nonceMap: NonceMap, nonceSum: nat, signerKey: Bytes, txKey: Bytes)

  datatype Bucket = Bucket(txs: seq<Stored>, signers: set<Bytes>)

  type Buckets = map<Bytes, Bucket>

  /** What clearing leaves behind. */
  const ZERO := Stored(Tx(0, None, None, None), map[], 0, [], [])

  /** "unkeyed", the bucket of transactions without usable signers. */
  const UNKEYED: Bytes := [117, 110, 107, 101, 121, 101, 100]

  // ---- nonce sums ---------------------------------------------------------------------------------------

  ghost function SumOver(keys: set<Bytes>, m: NonceMap): (r: nat)
    requires keys <= m.Keys
  {
    if keys == {} then 0
    else
      var k :| k in keys;
      m[k] + SumOver(keys - {k}, m)
  }

  /** The sum does not depend on the order in which the map is ranged over. */
  lemma {:induction false} SumOverRemove(keys: set<Bytes>, m: NonceMap, k: Bytes)
    requires keys <= m.Keys && k in keys
    ensures SumOver(keys, m) == m[k] + SumOver(keys - {k}, m)
    decreases |keys|
  {
    var j :| j in keys && SumOver(keys, m) == m[j] + SumOver(keys - {j}, m);
    if j != k {
      SumOverRemove(keys - {j}, m, k);
      SumOverRemove(keys - {k}, m, j);
      assert keys - {j} - {k} == keys - {k} - {j};
    }
  }

  /** Unsigned 64-bit addition wraps. */
  ghost function NonceSum(m: NonceMap): (r: nat) { SumOver(m.Keys, m) % UINT64 }

  method ComputeNonceSum(m: NonceMap) returns (total: nat)
    ensures total == NonceSum(m)
  {
    total := 0;
    var todo := m.Keys;
    while todo != {}
      invariant todo <= m.Keys && SumOver({}, m) == 0
      invariant (total + SumOver(todo, m)) % UINT64 == NonceSum(m)
      invariant total < UINT64
      decreases todo
    {
      var k :| k in todo;
      SumOverRemove(todo, m, k);
      WrapAdd(total + m[k], SumOver(todo - {k}, m));
      total := (total + m[k]) % UINT64;
      todo := todo - {k};
    }
  }

  // ---- stored transactions ---------------------------------------------------------------------------------

  /** The bucket order: by nonce sum, then by transaction key. */
  predicate Precedes(a: Stored, b: Stored)
  {
    if a.nonceSum != b.nonceSum then a.nonceSum < b.nonceSum else LexLess(a.txKey, b.txKey)
  }

  function PrecedesOrder(): (f: (Stored, Stored) -> bool) { (a: Stored, b: Stored) => Precedes(a, b) }

  lemma PrecedesIsOrder()
    ensures StrictWeakOrder(PrecedesOrder())
  {
    forall a: Stored, b: Stored | Precedes(a, b) ensures !Precedes(b, a) {
      if LexLess(a.txKey, b.txKey) && LexLess(b.txKey, a.txKey) {
        LexTransitive(a.txKey, b.txKey, a.txKey);
        LexIrreflexive(a.txKey);
      }
    }
    forall a: Stored, b: Stored, c: Stored | !Precedes(a, b) && !Precedes(b, c) ensures !Precedes(a, c) {
      if a.nonceSum == b.nonceSum == c.nonceSum && LexLess(a.txKey, c.txKey) {
        LexTotal(b.txKey, a.txKey);
        LexTotal(c.txKey, b.txKey);
        if LexLess(b.txKey, a.txKey) { LexTransitive(b.txKey, a.txKey, c.txKey); }
        if LexLess(c.txKey, b.txKey) { LexTransitive(a.txKey, c.txKey, b.txKey); }
        LexIrreflexive(a.txKey);
      }
    }
  }

  /** What the order of a bucket goes by: the lower nonce sum, and at equal sums the smaller key, byte by byte. */
  lemma PrecedesIff(a: Stored, b: Stored)
    ensures Precedes(a, b) <==>
              a.nonceSum < b.nonceSum || (a.nonceSum == b.nonceSum && exists i: nat :: FirstDifference(a.txKey, b.txKey, i))
  {
    LexLessIff(a.txKey, b.txKey);
  }

  /** The nonces that a transaction is stored with: none when they cannot be read. */
  function NoncesIn(tx: Tx): (m: NonceMap) { if NoncesOf(tx).Some? then NoncesOf(tx).value else map[] }

  /** The metadata is what the key builders make of the nonces; without nonces it is a fresh unkeyed entry. */
  ghost predicate WellFormed(s: Stored)
  {
    s.nonceMap == NoncesIn(s.tx) &&
    if s.nonceMap == map[] then s.nonceSum == 0 && s.signerKey == UNKEYED
    else
      && Regular(s.nonceMap) && s.nonceSum == NonceSum(s.nonceMap)
      && s.signerKey == SignerSetKey(s.nonceMap) && s.txKey == TxKey(s.nonceMap)
  }

  predicate UniqueKeys(txs: seq<Stored>) { forall i, j :: 0 <= i < j < |txs| ==> txs[i].txKey != txs[j].txKey }

  predicate SortedBucket(txs: seq<Stored>) { forall i, j :: 0 <= i < j < |txs| ==> Precedes(txs[i], txs[j]) }

  /** Non-empty, strictly sorted, key-unique, all of one signer set, which is the recorded one. */
  ghost predicate BucketOk(key: Bytes, b: Bucket)
  {
    && b.txs != [] && SortedBucket(b.txs) && UniqueKeys(b.txs)
    && forall i :: 0 <= i < |b.txs| ==> BelongsTo(b.txs[i], key, b.signers)
  }

  ghost predicate BelongsTo(s: Stored, key: Bytes, signers: set<Bytes>)
  {
    WellFormed(s) && s.signerKey == key && s.nonceMap.Keys == signers
  }

  ghost predicate StoreOk(bs: Buckets) { forall k :: k in bs ==> BucketOk(k, bs[k]) }

  /** Everything stored. */
  ghost function Contents(bs: Buckets): (r: set<Stored>)
  {
    set k, i | k in bs && 0 <= i < |bs[k].txs| :: bs[k].txs[i]
  }

  /** A transaction whose nonces are all at most another's, some less, comes first in their common bucket. */
  lemma DominatedComesFirst(a: Stored, b: Stored)
    requires a.nonceSum == NonceSum(a.nonceMap) && b.nonceSum == NonceSum(b.nonceMap)
    requires a.nonceMap.Keys == b.nonceMap.Keys && a.nonceMap != b.nonceMap
    requires forall k :: k in a.nonceMap ==> a.nonceMap[k] <= b.nonceMap[k]
    requires SumOver(b.nonceMap.Keys, b.nonceMap) < UINT64
    ensures Precedes(a, b)
  {
    var d :| d in a.nonceMap && a.nonceMap[d] != b.nonceMap[d];
    SumOverLess(a.nonceMap.Keys, a.nonceMap, b.nonceMap, d);
  }

  lemma {:induction false} SumOverLess(keys: set<Bytes>, a: NonceMap, b: NonceMap, d: Bytes)
    requires keys <= a.Keys && keys <= b.Keys && forall k :: k in keys ==> a[k] <= b[k]
    ensures SumOver(keys, a) <= SumOver(keys, b)
    ensures d in keys && a[d] < b[d] ==> SumOver(keys, a) < SumOver(keys, b)
    decreases |keys|
  {
    if keys != {} {
      var k :| k in keys;
      SumOverRemove(keys, a, k);
      SumOverRemove(keys, b, k);
      SumOverLess(keys - {k}, a, b, d);
    }
  }

  // ---- invalidation ------------------------------------------------------------------------------------------

  /** Some signer of `thresholds` signs `s` at its threshold or above. */
  predicate Invalidated(s: Stored, thresholds: NonceMap)
  {
    exists k :: k in thresholds && k in s.nonceMap && s.nonceMap[k] >= thresholds[k]
  }

  function InvalidatedBy(thresholds: NonceMap): (f: Stored -> bool) { (s: Stored) => Invalidated(s, thresholds) }

  function Surviving(txs: seq<Stored>, thresholds: NonceMap): (r: seq<Stored>)
  {
    Filter(txs, InvalidatedBy(thresholds), |txs|)
  }

  function SurvivingBucket(b: Bucket, thresholds: NonceMap): (r: Bucket)
  {
    b.(txs := Surviving(b.txs, thresholds))
  }

  /** The store after invalidation: every bucket keeps its survivors, and a bucket without survivors goes. */
  function InvalidateAll(bs: Buckets, thresholds: NonceMap): (r: Buckets)
  {
    map k | k in bs && Surviving(bs[k].txs, thresholds) != [] :: SurvivingBucket(bs[k], thresholds)
  }

  function Distinctly(): (f: (Stored, Stored) -> bool) { (a: Stored, b: Stored) => a.txKey != b.txKey }

  lemma SurvivingBucketOk(key: Bytes, b: Bucket, thresholds: NonceMap)
    requires BucketOk(key, b) && Surviving(b.txs, thresholds) != []
    ensures BucketOk(key, SurvivingBucket(b, thresholds))
  {
    var drop, n, r := InvalidatedBy(thresholds), |b.txs|, Surviving(b.txs, thresholds);
    FilterPairwise(b.txs, drop, n, PrecedesOrder());
    FilterPairwise(b.txs, drop, n, Distinctly());
    forall i, j | 0 <= i < j < |r| ensures Precedes(r[i], r[j]) && r[i].txKey != r[j].txKey {
      assert PrecedesOrder()(r[i], r[j]) && Distinctly()(r[i], r[j]);
    }
    forall i | 0 <= i < |r| ensures BelongsTo(r[i], key, b.signers) {
      var j := FilterSound(b.txs, drop, n, i);
    }
  }

  /** Invalidation keeps the store well-formed. */
  lemma InvalidateKeepsOk(bs: Buckets, thresholds: NonceMap)
    requires StoreOk(bs)
    ensures StoreOk(InvalidateAll(bs, thresholds))
  {
    forall k | k in InvalidateAll(bs, thresholds) ensures BucketOk(k, InvalidateAll(bs, thresholds)[k]) {
      SurvivingBucketOk(k, bs[k], thresholds);
    }
  }

  /** Invalidation is the naive scan: exactly the transactions remain whose every signer is below its threshold, if it has
      one. */
  lemma InvalidateIsNaiveScan(bs: Buckets, thresholds: NonceMap, s: Stored)
    ensures s in Contents(InvalidateAll(bs, thresholds)) <==> s in Contents(bs) && !Invalidated(s, thresholds)
    ensures !Invalidated(s, thresholds) <==>
              forall k :: k in thresholds && k in s.nonceMap ==> s.nonceMap[k] < thresholds[k]
  {
    var r, drop := InvalidateAll(bs, thresholds), InvalidatedBy(thresholds);
    assert drop(s) == Invalidated(s, thresholds);
    if s in Contents(r) {
      var k, i :| k in r && 0 <= i < |r[k].txs| && r[k].txs[i] == s;
      var j := FilterSound(bs[k].txs, drop, |bs[k].txs|, i);
    }
    if s in Contents(bs) && !Invalidated(s, thresholds) {
      var k, i :| k in bs && 0 <= i < |bs[k].txs| && bs[k].txs[i] == s;
      var j := FilterComplete(bs[k].txs, drop, |bs[k].txs|, i);
      assert k in r && r[k].txs[j] == s;
    }
  }

  /** The signer prefilter skips only buckets that invalidation would leave alone. */
  lemma PrefilterIsExact(key: Bytes, b: Bucket, thresholds: NonceMap)
    requires BucketOk(key, b) && b.signers !! thresholds.Keys
    ensures SurvivingBucket(b, thresholds) == b
  {
    forall i | 0 <= i < |b.txs| ensures !InvalidatedBy(thresholds)(b.txs[i]) {
      assert b.txs[i].nonceMap.Keys == b.signers;
    }
    FilterNone(b.txs, InvalidatedBy(thresholds), |b.txs|);
    assert b.txs[..|b.txs|] == b.txs;
  }

  // ---- counting what is removed -------------------------------------------------------------------------

  /** The invalidated transactions of the given buckets. */
  ghost function Removed(bs: Buckets, thresholds: NonceMap, keys: set<Bytes>): (r: set<Stored>)
  {
    set k, i | k in keys && k in bs && 0 <= i < |bs[k].txs| && Invalidated(bs[k].txs[i], thresholds) :: bs[k].txs[i]
  }

  ghost function RemovedOf(txs: seq<Stored>, thresholds: NonceMap, n: nat): (r: set<Stored>)
    requires n <= |txs|
  {
    set i | 0 <= i < n && Invalidated(txs[i], thresholds) :: txs[i]
  }

  lemma {:induction false} RemovedCount(txs: seq<Stored>, thresholds: NonceMap, n: nat)
    requires n <= |txs| && UniqueKeys(txs)
    ensures |RemovedOf(txs, thresholds, n)| == n - |Filter(txs, InvalidatedBy(thresholds), n)|
  {
    if n > 0 {
      RemovedCount(txs, thresholds, n - 1);
      var x, before := txs[n - 1], RemovedOf(txs, thresholds, n - 1);
      if Invalidated(x, thresholds) {
        assert x !in before;
        assert RemovedOf(txs, thresholds, n) == before + {x};
      } else {
        assert RemovedOf(txs, thresholds, n) == before;
      }
    }
  }

  lemma RemovedAddBucket(bs: Buckets, thresholds: NonceMap, keys: set<Bytes>, k: Bytes)
    requires StoreOk(bs) && k in bs && k !in keys
    ensures |Removed(bs, thresholds, keys + {k})|
         == |Removed(bs, thresholds, keys)| + |bs[k].txs| - |Surviving(bs[k].txs, thresholds)|
  {
    hide StoreOk, Removed, RemovedOf;
    OneSignerKey(bs, k);
    RemovedCount(bs[k].txs, thresholds, |bs[k].txs|);
    RemovedSplits(bs, thresholds, keys, k);
    RemovedApart(bs, thresholds, keys, k);
  }

  lemma RemovedSplits(bs: Buckets, thresholds: NonceMap, keys: set<Bytes>, k: Bytes)
    requires k in bs
    ensures Removed(bs, thresholds, keys + {k})
         == Removed(bs, thresholds, keys) + RemovedOf(bs[k].txs, thresholds, |bs[k].txs|)
  {
    hide Invalidated;
  }

  lemma RemovedApart(bs: Buckets, thresholds: NonceMap, keys: set<Bytes>, k: Bytes)
    requires StoreOk(bs) && k in bs && k !in keys
    ensures Removed(bs, thresholds, keys) !! RemovedOf(bs[k].txs, thresholds, |bs[k].txs|)
  {
    hide StoreOk, Invalidated;
    OneSignerKey(bs, k);
    forall x | x in Removed(bs, thresholds, keys) ensures x.signerKey != k {
      var j, i :| j in keys && j in bs && 0 <= i < |bs[j].txs| && bs[j].txs[i] == x;
      OneSignerKey(bs, j);
    }
  }

  lemma OneSignerKey(bs: Buckets, k: Bytes)
    requires StoreOk(bs) && k in bs
    ensures UniqueKeys(bs[k].txs) && forall i :: 0 <= i < |bs[k].txs| ==> bs[k].txs[i].signerKey == k
  {
    assert BucketOk(k, bs[k]);
  }

  // ---- the store -------------------------------------------------------------------------------------------

  /** "unkeyed/" and the serial number. */
  function UnkeyedKey(n: nat): (r: Bytes) { UNKEYED + [SLASH] + Decimal(n) }

  predicate RegularTx(tx: Tx) { NoncesOf(tx).Some? ==> Regular(NoncesOf(tx).value) }

  /** The entry made of a transaction: by its nonces, or under the next serial number. */
  ghost function EntryFor(tx: Tx, serial: nat): (s: Stored)
    requires RegularTx(tx)
  {
    match NoncesOf(tx)
    case None => Stored(tx, map[], 0, UNKEYED, UnkeyedKey(serial))
    case Some(m) => Stored(tx, m, NonceSum(m), SignerSetKey(m), TxKey(m))
  }

  predicate HasKey(bs: Buckets, signerKey: Bytes, txKey: Bytes)
  {
    signerKey in bs && exists i :: 0 <= i < |bs[signerKey].txs| && bs[signerKey].txs[i].txKey == txKey
  }

  /** A real signer-set key is never the name of the unkeyed bucket. */
  lemma KeyedIsNotUnkeyed(m: NonceMap)
    requires Regular(m)
    ensures SignerSetKey(m) != UNKEYED
  {
    var s := SortedKeys(m.Keys);
    JoinLength(s, SIGNER_LEN);
    if |s| > 1 {
      assert Join(s)[SIGNER_LEN] == BAR;
    }
  }

  /** Entries of one bucket have one signer set. */
  lemma SameBucketSameSigners(a: Stored, b: Stored)
    requires WellFormed(a) && WellFormed(b) && a.signerKey == b.signerKey
    ensures a.nonceMap.Keys == b.nonceMap.Keys
  {
    if a.nonceMap != map[] { KeyedIsNotUnkeyed(a.nonceMap); }
    if b.nonceMap != map[] { KeyedIsNotUnkeyed(b.nonceMap); }
    if a.nonceMap != map[] && b.nonceMap != map[] {
      SignerSetKeyInjective(a.nonceMap, b.nonceMap, SIGNER_LEN);
    }
  }

  lemma KeysTellApart(all: seq<Stored>, x: Stored, y: Stored)
    requires UniqueKeys(all) && x in all && y in all && x != y
    ensures x.txKey != y.txKey
  {
    var i :| 0 <= i < |all| && all[i] == x;
    var j :| 0 <= j < |all| && all[j] == y;
  }

  /** Sorting entries with different keys sorts them strictly. */
  lemma SortIsStrict(all: seq<Stored>)
    requires UniqueKeys(all)
    ensures SortedBucket(StableSort(all, PrecedesOrder())) && UniqueKeys(StableSort(all, PrecedesOrder()))
  {
    var r := StableSort(all, PrecedesOrder());
    PrecedesIsOrder();
    SortOrdered(all, PrecedesOrder());
    SortMembers(all, PrecedesOrder());
    forall i, j | 0 <= i < j < |r| ensures r[i].txKey != r[j].txKey && Precedes(r[i], r[j]) {
      KeysTellApart(all, r[i], r[j]);
      assert !PrecedesOrder()(r[j], r[i]);
      LexTotal(r[i].txKey, r[j].txKey);
    }
  }

  /** An entry with a new key belongs in the bucket that its signer key names. */
  lemma NewEntryBelongs(key: Bytes, b: Bucket, s: Stored)
    requires BucketOk(key, b) && WellFormed(s) && s.signerKey == key
    requires forall i :: 0 <= i < |b.txs| ==> b.txs[i].txKey != s.txKey
    ensures UniqueKeys(b.txs + [s])
    ensures forall i :: 0 <= i < |b.txs| + 1 ==> BelongsTo((b.txs + [s])[i], key, b.signers)
  {
    assert BelongsTo(b.txs[0], key, b.signers);
    SameBucketSameSigners(b.txs[0], s);
  }

  /** Sorting entries that belong together makes a well-formed bucket of them. */
  lemma SortedBucketOk(key: Bytes, all: seq<Stored>, signers: set<Bytes>)
    requires all != [] && UniqueKeys(all)
    requires forall i :: 0 <= i < |all| ==> BelongsTo(all[i], key, signers)
    ensures BucketOk(key, Bucket(StableSort(all, PrecedesOrder()), signers))
  {
    hide BelongsTo, StableSort;
    SortIsStrict(all);
    SortKeepsAll(all, PrecedesOrder(), x => BelongsTo(x, key, signers));
  }

  lemma SortKeepsAll(all: seq<Stored>, before: (Stored, Stored) -> bool, p: Stored -> bool)
    requires forall i :: 0 <= i < |all| ==> p(all[i])
    ensures var r := StableSort(all, before); |r| == |all| && forall i :: 0 <= i < |r| ==> p(r[i])
  {
    SortMembers(all, before);
    var r := StableSort(all, before);
    forall i | 0 <= i < |r| ensures p(r[i]) {
      assert r[i] in all;
    }
  }

  /** The store with one more entry, unless its key is already there. */
  ghost function AddEntry(bs: Buckets, s: Stored): (r: Buckets)
  {
    if HasKey(bs, s.signerKey, s.txKey) then bs
    else if s.signerKey in bs then
      var b := bs[s.signerKey];
      bs[s.signerKey := b.(txs := StableSort(b.txs + [s], PrecedesOrder()))]
    else bs[s.signerKey := Bucket([s], s.nonceMap.Keys)]
  }

  lemma AddKeepsOk(bs: Buckets, s: Stored)
    requires StoreOk(bs) && WellFormed(s)
    ensures StoreOk(AddEntry(bs, s))
  {
    var k := s.signerKey;
    if !HasKey(bs, k, s.txKey) && k in bs {
      assert BucketOk(k, bs[k]);
      NewEntryBelongs(k, bs[k], s);
      SortedBucketOk(k, bs[k].txs + [s], bs[k].signers);
    }
  }

  /** Adding adds exactly the new entry. */
  lemma AddIsExact(bs: Buckets, s: Stored, x: Stored)
    ensures x in Contents(AddEntry(bs, s)) <==> x in Contents(bs) || (x == s && !HasKey(bs, s.signerKey, s.txKey))
  {
    var k, r := s.signerKey, AddEntry(bs, s);
    if !HasKey(bs, k, s.txKey) {
      var before := if k in bs then bs[k].txs else [];
      if k in bs { SortMembers(before + [s], PrecedesOrder()); }
      if x in Contents(r) {
        var j, i :| j in r && 0 <= i < |r[j].txs| && r[j].txs[i] == x;
        if j == k { assert x in before + [s]; }
      }
      if x in Contents(bs) {
        var j, i :| j in bs && 0 <= i < |bs[j].txs| && bs[j].txs[i] == x;
        if j == k {
          assert x == (before + [s])[i];
          assert x in r[k].txs;
        } else {
          assert r[j].txs[i] == x;
        }
      }
      if x == s {
        assert x == (before + [s])[|before|];
        assert x in r[k].txs;
      }
    }
  }

  /** A key that is already there belongs to a transaction with the same signers at the same nonces. */
  lemma DuplicateMeansSameNonces(bs: Buckets, m: NonceMap)
    requires StoreOk(bs)
    ensures Regular(m) && HasKey(bs, SignerSetKey(m), TxKey(m)) ==> exists x :: x in Contents(bs) && x.nonceMap == m
  {
    if Regular(m) && HasKey(bs, SignerSetKey(m), TxKey(m)) {
      var k := SignerSetKey(m);
      var i :| 0 <= i < |bs[k].txs| && bs[k].txs[i].txKey == TxKey(m);
      var x := bs[k].txs[i];
      assert BucketOk(k, bs[k]) && BelongsTo(x, k, bs[k].signers);
      KeyedIsNotUnkeyed(m);
      TxKeyInjective(x.nonceMap, m, SIGNER_LEN);
      assert x in Contents(bs);
    }
  }

  /** The snapshot after an insert: if these very signers and nonces are stored, what depends on them goes, and the
      transaction itself waits for the next pass; otherwise it is added. */
  ghost function AfterInsert(bs: Buckets, tx: Tx, serial: nat): (r: Buckets)
    requires RegularTx(tx)
  {
    if SameStored(bs, tx) then InvalidateAll(bs, NoncesOf(tx).value) else AddEntry(bs, EntryFor(tx, serial))
  }

  /** An inserted transaction is in the snapshot, unless its very signers and nonces were; a replacement leaves nothing
      there that reaches its nonces, itself included. */
  lemma InsertedIsStored(bs: Buckets, tx: Tx, serial: nat)
    requires RegularTx(tx) && StoreOk(bs) && SerialsBelow(bs, serial)
    ensures !SameStored(bs, tx) ==> EntryFor(tx, serial) in Contents(AfterInsert(bs, tx, serial))
    ensures !SameStored(bs, tx) ==> Contents(bs) <= Contents(AfterInsert(bs, tx, serial))
    ensures SameStored(bs, tx) ==> forall x :: x in Contents(AfterInsert(bs, tx, serial)) <==>
              x in Contents(bs) && !Invalidated(x, NoncesOf(tx).value)
  {
    hide StoreOk, SerialsBelow, AddEntry, InvalidateAll, HasKey, Contents;
    var e, r := EntryFor(tx, serial), AfterInsert(bs, tx, serial);
    if SameStored(bs, tx) {
      forall x ensures x in Contents(r) <==> x in Contents(bs) && !Invalidated(x, NoncesOf(tx).value) {
        InvalidateIsNaiveScan(bs, NoncesOf(tx).value, x);
      }
    } else {
      AddIsExact(bs, e, e);
      forall x | x in Contents(bs) ensures x in Contents(r) { AddIsExact(bs, e, x); }
      if NoncesOf(tx).None? { UnkeyedIsFresh(bs, serial); }
    }
  }

  ghost predicate SameStored(bs: Buckets, tx: Tx)
  {
    NoncesOf(tx).Some? && HasKey(bs, SignerSetKey(NoncesOf(tx).value), TxKey(NoncesOf(tx).value))
  }

  predicate RegularTxs(txs: seq<Tx>) { forall i :: 0 <= i < |txs| ==> RegularTx(txs[i]) }

  /** The snapshot, and the next serial number, after the first `n` transactions are added to an empty one. */
  ghost function Rebuilt(txs: seq<Tx>, n: nat): (r: (Buckets, nat))
    requires n <= |txs| && RegularTxs(txs)
  {
    if n == 0 then (map[], 0)
    else
      var (bs, serial) := Rebuilt(txs, n - 1);
      (AddEntry(bs, EntryFor(txs[n - 1], serial)), serial + (if NoncesOf(txs[n - 1]).None? then 1 else 0))
  }

  /** The store when the buckets in `done` have been invalidated. */
  ghost predicate Partly(bs: Buckets, thresholds: NonceMap, done: set<Bytes>, cur: Buckets)
  {
    forall k :: if k in bs && (k !in done || Surviving(bs[k].txs, thresholds) != [])
                then k in cur && cur[k] == (if k in done then SurvivingBucket(bs[k], thresholds) else bs[k])
                else k !in cur
  }

  class CosmosTxStore {
    var txs: Buckets
    var nextUnkeyed: nat

    ghost predicate Valid()
      reads this
    {
      StoreOk(txs) && SerialsBelow(txs, nextUnkeyed)
    }

    constructor ()
      ensures Valid() && txs == map[] && nextUnkeyed == 0
    {
      txs := map[];
      nextUnkeyed := 0;
    }

    method NewMetadata(tx: Tx) returns (s: Stored)
      requires RegularTx(tx)
      ensures s == match NoncesOf(tx)
                   case None => Stored(tx, map[], 0, [], [])
                   case Some(m) => EntryFor(tx, 0)
    {
      var m := NonceMapOf(tx);
      if m.None? {
        return Stored(tx, map[], 0, [], []);
      }
      var sum := ComputeNonceSum(m.value);
      var signerKey := BuildSignerSetKey(m.value);
      var txKey := BuildTxKey(m.value);
      return Stored(tx, m.value, sum, signerKey, txKey);
    }

    /** Adds the transaction under its keys; one that is already there is left alone. */
    method AddTx(tx: Tx)
      requires Valid() && RegularTx(tx)
      modifies this
      ensures Valid()
      ensures txs == AddEntry(old(txs), EntryFor(tx, old(nextUnkeyed)))
      ensures nextUnkeyed == old(nextUnkeyed) + (if NoncesOf(tx).None? then 1 else 0)
    {
      SerialsAfterAdd(txs, tx, nextUnkeyed);
      EntryIsWellFormed(tx, nextUnkeyed);
      AddKeepsOk(txs, EntryFor(tx, nextUnkeyed));
      var s, next := NewEntry(tx);
      var bs := InsertSorted(txs, s);
      nextUnkeyed := next;
      txs := bs;
    }

    method NewEntry(tx: Tx) returns (s: Stored, next: nat)
      requires RegularTx(tx)
      ensures s == EntryFor(tx, nextUnkeyed)
      ensures next == nextUnkeyed + (if NoncesOf(tx).None? then 1 else 0)
    {
      KeysAreNonEmpty(tx);
      s := NewMetadata(tx);
      next := nextUnkeyed;
      if s.signerKey == [] {
        s := s.(signerKey := UNKEYED);
      }
      if s.txKey == [] {
        s := s.(txKey := UnkeyedKey(nextUnkeyed));
        next := next + 1;
      }
    }

    /** Removes what a replacement at these nonces invalidates; does nothing unless these very nonces are stored. */
    method InvalidateFrom(tx: Tx) returns (removed: nat)
      requires Valid() && RegularTx(tx)
      modifies this
      ensures Valid() && nextUnkeyed == old(nextUnkeyed)
      ensures var m := NoncesOf(tx);
              if SameStored(old(txs), tx) then
                && txs == InvalidateAll(old(txs), m.value)
                && removed == |Removed(old(txs), m.value, old(txs).Keys)|
              else
                txs == old(txs) && removed == 0
    {
      KeysAreNonEmpty(tx);
      var s := NewMetadata(tx);
      if |s.nonceMap| == 0 || |s.signerKey| == 0 || |s.txKey| == 0 {
        return 0;
      }
      if s.signerKey !in txs {
        return 0;
      }
      var found := ContainsTx(txs[s.signerKey].txs, s.txKey);
      if !found {
        return 0;
      }
      InvalidateKeepsOk(txs, s.nonceMap);
      SerialsAfterInvalidate(txs, s.nonceMap, nextUnkeyed);
      var bs;
      bs, removed := RemoveInvalidated(txs, s.nonceMap);
      txs := bs;
    }
  }

  /** Ranges over the buckets in any order. */
  method RemoveInvalidated(bs: Buckets, thresholds: NonceMap) returns (cur: Buckets, removed: nat)
    requires StoreOk(bs)
    ensures cur == InvalidateAll(bs, thresholds)
    ensures removed == |Removed(bs, thresholds, bs.Keys)|
  {
    ghost var done: set<Bytes> := {};
    cur, removed := bs, 0;
    var todo := bs.Keys;
    while todo != {}
      invariant done !! todo && done + todo == bs.Keys
      invariant Partly(bs, thresholds, done, cur)
      invariant removed == |Removed(bs, thresholds, done)|
      decreases todo
    {
      var k :| k in todo;
      RemovedAddBucket(bs, thresholds, done, k);
      ghost var before := cur;
      var n;
      cur, n := InvalidateBucket(cur, k, thresholds);
      removed := removed + n;
      PartlyStep(bs, thresholds, done, before, k, cur);
      MoveOver(done, todo, k);
      todo := todo - {k};
      done := done + {k};
    }
    assert done == bs.Keys;
    PartlyDone(bs, thresholds, cur);
  }

  lemma MoveOver(done: set<Bytes>, todo: set<Bytes>, k: Bytes)
    requires done !! todo && k in todo
    ensures done + {k} !! todo - {k} && (done + {k}) + (todo - {k}) == done + todo
  {}

  /** Skips a bucket without a shared signer, compacts any other, and drops it if nothing is left. */
  method InvalidateBucket(cur: Buckets, k: Bytes, thresholds: NonceMap) returns (next: Buckets, n: nat)
    requires k in cur && BucketOk(k, cur[k])
    ensures next == if Surviving(cur[k].txs, thresholds) == [] then cur - {k}
                    else cur[k := SurvivingBucket(cur[k], thresholds)]
    ensures n == |cur[k].txs| - |Surviving(cur[k].txs, thresholds)|
  {
    var b := cur[k];
    if b.signers !! thresholds.Keys {
      PrefilterIsExact(k, b, thresholds);
      return cur, 0;
    }
    var survivors := CompactBucket(b.txs, thresholds);
    n := |b.txs| - |survivors|;
    if |survivors| == 0 {
      next := cur - {k};
    } else {
      next := cur[k := b.(txs := survivors)];
    }
  }

  /** One bucket's turn. */
  lemma PartlyStep(bs: Buckets, thresholds: NonceMap, done: set<Bytes>, cur: Buckets, k: Bytes, next: Buckets)
    requires Partly(bs, thresholds, done, cur) && k in bs && k !in done
    requires next == if Surviving(bs[k].txs, thresholds) == [] then cur - {k}
                     else cur[k := SurvivingBucket(bs[k], thresholds)]
    ensures Partly(bs, thresholds, done + {k}, next)
  {}

  lemma EntryIsWellFormed(tx: Tx, n: nat)
    requires RegularTx(tx)
    ensures WellFormed(EntryFor(tx, n))
  {}

  /** Appends to the bucket and sorts it again, unless the key is already there. */
  method InsertSorted(bs: Buckets, s: Stored) returns (r: Buckets)
    ensures r == AddEntry(bs, s)
  {
    var bucket := if s.signerKey in bs then bs[s.signerKey] else Bucket([], s.nonceMap.Keys);
    var found := ContainsTx(bucket.txs, s.txKey);
    if found {
      return bs;
    }
    var sorted := StableSort(bucket.txs + [s], PrecedesOrder());
    assert [s][1..] == [] && StableSort([s], PrecedesOrder()) == [s];
    assert s.signerKey !in bs ==> bucket.txs + [s] == [s];
    r := bs[s.signerKey := bucket.(txs := sorted)];
  }

  method ContainsTx(txs: seq<Stored>, txKey: Bytes) returns (r: bool)
    ensures r <==> exists i :: 0 <= i < |txs| && txs[i].txKey == txKey
  {
    for i := 0 to |txs|
      invariant forall j :: 0 <= j < i ==> txs[j].txKey != txKey
    {
      if txs[i].txKey == txKey {
        return true;
      }
    }
    return false;
  }

  /** Moves the survivors to the front of their own backing array, clears the rest; returns how many there are. */
  method CompactInPlace(a: array<Stored>, thresholds: NonceMap) returns (n: nat)
    modifies a
    ensures n <= a.Length && a[..n] == Surviving(old(a[..]), thresholds)
    ensures forall k :: n <= k < a.Length ==> a[k] == ZERO
  {
    ghost var s := a[..];
    n := 0;
    for i := 0 to a.Length
      invariant n <= i
      invariant a[..n] == Filter(s, InvalidatedBy(thresholds), i)
      invariant forall j :: i <= j < a.Length ==> a[j] == s[j]
    {
      if Invalidated(a[i], thresholds) {
        continue;
      }
      a[n] := a[i];
      n := n + 1;
    }
    ghost var kept := a[..n];
    for i := n to a.Length
      invariant a[..n] == kept && forall k :: n <= k < i ==> a[k] == ZERO
    {
      a[i] := ZERO;
    }
  }

  method CompactBucket(txs: seq<Stored>, thresholds: NonceMap) returns (next: seq<Stored>)
    ensures next == Surviving(txs, thresholds)
  {
    if |txs| == 0 {
      return [];
    }
    var a := new Stored[|txs|](i requires 0 <= i < |txs| => txs[i]);
    assert a[..] == txs;
    var n := CompactInPlace(a, thresholds);
    next := a[..n];
  }

  lemma PartlyDone(bs: Buckets, thresholds: NonceMap, cur: Buckets)
    requires Partly(bs, thresholds, bs.Keys, cur)
    ensures cur == InvalidateAll(bs, thresholds)
  {}

  lemma KeysAreNonEmpty(tx: Tx)
    requires RegularTx(tx)
    ensures NoncesOf(tx).Some? ==> var m := NoncesOf(tx).value; m != map[] && SignerSetKey(m) != [] && TxKey(m) != []
  {
    if NoncesOf(tx).Some? {
      var m := NoncesOf(tx).value;
      var s := SortedKeys(m.Keys);
      JoinLength(s, SIGNER_LEN);
      JoinLength(TxParts(s, m), SIGNER_LEN + 21);
    }
  }

  /** Every unkeyed entry carries a serial number that has been handed out. */
  ghost predicate SerialsBelow(bs: Buckets, n: nat)
  {
    forall s :: s in Contents(bs) && s.nonceMap == map[] ==> SerialBelow(s, n)
  }

  ghost predicate SerialBelow(s: Stored, n: nat) { exists i: nat :: i < n && s.txKey == UnkeyedKey(i) }

  lemma SerialsAfterAdd(bs: Buckets, tx: Tx, n: nat)
    requires RegularTx(tx) && SerialsBelow(bs, n)
    ensures SerialsBelow(AddEntry(bs, EntryFor(tx, n)), n + (if NoncesOf(tx).None? then 1 else 0))
  {
    var e := EntryFor(tx, n);
    var r, next := AddEntry(bs, e), n + (if NoncesOf(tx).None? then 1 else 0);
    forall s | s in Contents(r) && s.nonceMap == map[] ensures SerialBelow(s, next) {
      AddIsExact(bs, e, s);
      if s in Contents(bs) {
        assert SerialBelow(s, n);
      } else {
        assert n < next && s.txKey == UnkeyedKey(n);
      }
    }
  }

  lemma SerialsAfterInvalidate(bs: Buckets, thresholds: NonceMap, n: nat)
    requires SerialsBelow(bs, n)
    ensures SerialsBelow(InvalidateAll(bs, thresholds), n)
  {
    forall s | s in Contents(InvalidateAll(bs, thresholds)) && s.nonceMap == map[] ensures SerialBelow(s, n) {
      InvalidateIsNaiveScan(bs, thresholds, s);
    }
  }

  /** A transaction without usable signers is never mistaken for one that is already stored. */
  lemma UnkeyedIsFresh(bs: Buckets, n: nat)
    requires StoreOk(bs) && SerialsBelow(bs, n)
    ensures !HasKey(bs, UNKEYED, UnkeyedKey(n))
  {
    if HasKey(bs, UNKEYED, UnkeyedKey(n)) {
      var i :| 0 <= i < |bs[UNKEYED].txs| && bs[UNKEYED].txs[i].txKey == UnkeyedKey(n);
      var x := bs[UNKEYED].txs[i];
      assert BucketOk(UNKEYED, bs[UNKEYED]) && BelongsTo(x, UNKEYED, bs[UNKEYED].signers);
      if x.nonceMap != map[] { KeyedIsNotUnkeyed(x.nonceMap); }
      assert x in Contents(bs) && SerialBelow(x, n);
      var j: nat :| j < n && x.txKey == UnkeyedKey(j);
      assert Decimal(j) == UnkeyedKey(j)[|UNKEYED| + 1..] && Decimal(n) == UnkeyedKey(n)[|UNKEYED| + 1..];
      DecimalInjective(j, n);
    }
  }
}
