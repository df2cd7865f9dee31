/** The index of Ethereum transactions: hash to record, and (height, index) to hash, in one ordered key-value store. */
module KvIndexer {
  import opened Basics

  const INT32: nat := 0x8000_0000
  const HASH_PREFIX: byte := 1
  const INDEX_PREFIX: byte := 2
  const INDEX_KEY_LENGTH := 17

  type Hash = h: Bytes | |h| == 32 witness seq(32, _ => 0)

  datatype TxResult = TxResult(height: int, txIndex: nat, msgIndex: nat, ethTxIndex: int,
                               failed: bool, gasUsed: nat, cumulativeGasUsed: nat)

  /** The record encoding. */
  datatype Codec = Codec(marshal: TxResult -> Bytes, unmarshal: Bytes -> Option<TxResult>)

  /** Records come back as they went in, and only a record of zeros encodes to nothing. */
  ghost predicate Faithful(c: Codec)
  {
    forall r :: c.unmarshal(c.marshal(r)) == Some(r) && (r.height != 0 ==> c.marshal(r) != [])
  }

  type Db = map<Bytes, Bytes>

  datatype Error = NotFound | BadRecord | BadKey

  // ---- keys ---------------------------------------------------------------------------------------------

  function BigEndian(n: nat, len: nat): (r: Bytes)
    ensures |r| == len
  {
    if len == 0 then [] else BigEndian(n / 256, len - 1) + [n % 256]
  }

  function FromBigEndian(b: Bytes): (r: nat)
  {
    if b == [] then 0 else FromBigEndian(b[..|b| - 1]) * 256 + b[|b| - 1]
  }

  function Pow256(n: nat): (r: nat) ensures r > 0 { if n == 0 then 1 else 256 * Pow256(n - 1) }

  /** An unsigned 64-bit integer read as a signed one. */
  function ToInt64(x: nat): (r: int) { if x < INT64 then x else x - UINT64 }

  function TxHashKey(hash: Hash): (r: Bytes) { [HASH_PREFIX] + hash }

  function TxIndexKey(height: int, index: int): (r: Bytes)
  {
    [INDEX_PREFIX] + BigEndian(Wrap64(height), 8) + BigEndian(Wrap64(index), 8)
  }

  function ParseBlockNumber(key: Bytes): (r: Result<int, Error>)
  {
    if |key| != INDEX_KEY_LENGTH then Err(BadKey) else Ok(ToInt64(FromBigEndian(key[1..9])))
  }

  lemma {:induction false} BigEndianBack(n: nat, len: nat)
    requires n < Pow256(len)
    ensures FromBigEndian(BigEndian(n, len)) == n
  {
    if len > 0 {
      BigEndianBack(n / 256, len - 1);
      var b := BigEndian(n, len);
      assert b[..len - 1] == BigEndian(n / 256, len - 1);
    }
  }

  /** Comparing big-endian numbers byte by byte compares the numbers; on a tie, what follows decides. */
  lemma {:induction false} BigEndianOrder(m: nat, n: nat, len: nat, s: Bytes, t: Bytes)
    requires m < Pow256(len) && n < Pow256(len)
    ensures LexLess(BigEndian(m, len) + s, BigEndian(n, len) + t) <==> m < n || (m == n && LexLess(s, t))
  {
    if len == 0 {
      assert BigEndian(m, len) + s == s && BigEndian(n, len) + t == t;
    } else {
      var s', t' := [m % 256] + s, [n % 256] + t;
      BigEndianOrder(m / 256, n / 256, len - 1, s', t');
      assert BigEndian(m, len) + s == BigEndian(m / 256, len - 1) + s';
      assert BigEndian(n, len) + t == BigEndian(n / 256, len - 1) + t';
      assert s'[1..] == s && t'[1..] == t;
    }
  }

  lemma Pow256Of8()
    ensures Pow256(8) == UINT64
  {
    assert Pow256(4) == 256 * Pow256(3) == 256 * 256 * Pow256(2) == 256 * 256 * 256 * Pow256(1);
    assert Pow256(8) == 256 * Pow256(7) == 256 * 256 * Pow256(6) == 256 * 256 * 256 * Pow256(5);
  }

  lemma SameFirstByte(b: byte, s: Bytes, t: Bytes)
    ensures LexLess([b] + s, [b] + t) <==> LexLess(s, t)
  {
    assert ([b] + s)[1..] == s && ([b] + t)[1..] == t;
  }

  lemma PairOrder(h: nat, i: nat, k: nat, j: nat)
    requires h < UINT64 && i < UINT64 && k < UINT64 && j < UINT64
    ensures LexLess(BigEndian(h, 8) + BigEndian(i, 8), BigEndian(k, 8) + BigEndian(j, 8)) <==> h < k || (h == k && i < j)
  {
    hide BigEndian, Pow256;
    Pow256Of8();
    BigEndianOrder(i, j, 8, [], []);
    assert BigEndian(i, 8) + [] == BigEndian(i, 8) && BigEndian(j, 8) + [] == BigEndian(j, 8);
    BigEndianOrder(h, k, 8, BigEndian(i, 8), BigEndian(j, 8));
  }

  lemma KeyOrder(h: int, i: int, k: int, j: int)
    requires 0 <= h < INT64 && 0 <= k < INT64 && 0 <= i < INT32 && 0 <= j < INT32
    ensures LexLess(TxIndexKey(h, i), TxIndexKey(k, j)) <==> h < k || (h == k && i < j)
  {
    hide BigEndian, LexLess;
    PairOrder(h, i, k, j);
    var s, t := BigEndian(h, 8) + BigEndian(i, 8), BigEndian(k, 8) + BigEndian(j, 8);
    assert TxIndexKey(h, i) == [INDEX_PREFIX] + s && TxIndexKey(k, j) == [INDEX_PREFIX] + t;
    SameFirstByte(INDEX_PREFIX, s, t);
  }

  /** The store's byte order on index keys is the order of (height, index), and no two of those share a key. */
  lemma KeyOrderIsBlockOrder(h: int, i: int, k: int, j: int)
    requires 0 <= h < INT64 && 0 <= k < INT64 && 0 <= i < INT32 && 0 <= j < INT32
    ensures LexLess(TxIndexKey(h, i), TxIndexKey(k, j)) <==> h < k || (h == k && i < j)
    ensures TxIndexKey(h, i) == TxIndexKey(k, j) <==> h == k && i == j
  {
    hide TxIndexKey, LexLess;
    KeyOrder(h, i, k, j);
    KeyOrder(k, j, h, i);
    LexIrreflexive(TxIndexKey(h, i));
  }

  /** Parsing a key gives back the height it was built from, negative ones included. */
  lemma ParseInvertsBuild(h: int, i: int)
    requires 0 - INT64 <= h < INT64
    ensures ParseBlockNumber(TxIndexKey(h, i)) == Ok(h)
  {
    Pow256Of8();
    BigEndianBack(Wrap64(h), 8);
    assert TxIndexKey(h, i)[1..9] == BigEndian(Wrap64(h), 8);
  }

  // ---- what has been saved ----------------------------------------------------------------------------------

  datatype Save = Save(hash: Hash, rec: TxResult)

  predicate At(s: Save, h: int, i: int) { s.rec.height == h && s.rec.ethTxIndex == i }

  predicate InRange(s: Save) { 0 < s.rec.height < INT64 && 0 <= s.rec.ethTxIndex < INT32 }

  ghost predicate AllInRange(saves: seq<Save>) { forall k :: 0 <= k < |saves| ==> InRange(saves[k]) }

  function Apply(c: Codec, db: Db, s: Save): (r: Db)
  {
    db[TxHashKey(s.hash) := c.marshal(s.rec)][TxIndexKey(s.rec.height, s.rec.ethTxIndex) := s.hash]
  }

  /** The store after the saves, oldest first. */
  function Replay(c: Codec, saves: seq<Save>): (r: Db)
  {
    if saves == [] then map[] else Apply(c, Replay(c, saves[..|saves| - 1]), saves[|saves| - 1])
  }

  /** One past the last save at (h, i), or zero. */
  function LastAt(saves: seq<Save>, h: int, i: int): (k: nat)
    ensures k <= |saves| && (k > 0 ==> At(saves[k - 1], h, i))
    ensures forall j :: k <= j < |saves| ==> !At(saves[j], h, i)
  {
    if saves == [] then 0
    else if At(saves[|saves| - 1], h, i) then |saves|
    else LastAt(saves[..|saves| - 1], h, i)
  }

  /** One past the last save of the hash, or zero. */
  function LastOf(saves: seq<Save>, hash: Hash): (k: nat)
    ensures k <= |saves| && (k > 0 ==> saves[k - 1].hash == hash)
    ensures forall j :: k <= j < |saves| ==> saves[j].hash != hash
  {
    if saves == [] then 0
    else if saves[|saves| - 1].hash == hash then |saves|
    else LastOf(saves[..|saves| - 1], hash)
  }

  lemma {:induction false} IndexEntry(c: Codec, saves: seq<Save>, h: int, i: int)
    requires AllInRange(saves) && 0 <= h < INT64 && 0 <= i < INT32
    ensures TxIndexKey(h, i) in Replay(c, saves) <==> LastAt(saves, h, i) > 0
    ensures LastAt(saves, h, i) > 0 ==> Replay(c, saves)[TxIndexKey(h, i)] == saves[LastAt(saves, h, i) - 1].hash
  {
    if saves != [] {
      var s := saves[|saves| - 1];
      IndexEntry(c, saves[..|saves| - 1], h, i);
      assert TxIndexKey(h, i)[0] == INDEX_PREFIX && TxHashKey(s.hash)[0] == HASH_PREFIX;
      KeyOrderIsBlockOrder(h, i, s.rec.height, s.rec.ethTxIndex);
    }
  }

  lemma {:induction false} HashEntry(c: Codec, saves: seq<Save>, hash: Hash)
    ensures TxHashKey(hash) in Replay(c, saves) <==> LastOf(saves, hash) > 0
    ensures LastOf(saves, hash) > 0 ==> Replay(c, saves)[TxHashKey(hash)] == c.marshal(saves[LastOf(saves, hash) - 1].rec)
  {
    if saves != [] {
      var s := saves[|saves| - 1];
      HashEntry(c, saves[..|saves| - 1], hash);
      assert TxIndexKey(s.rec.height, s.rec.ethTxIndex)[0] == INDEX_PREFIX && TxHashKey(hash)[0] == HASH_PREFIX;
      assert TxHashKey(hash)[1..] == hash && TxHashKey(s.hash)[1..] == s.hash;
    }
  }

  /** Every key in the index range was built from some save's height and index. */
  lemma {:induction false} IndexKeysAreSaved(c: Codec, saves: seq<Save>, key: Bytes) returns (k: nat)
    requires key in Replay(c, saves) && key != [] && key[0] == INDEX_PREFIX
    ensures k < |saves| && key == TxIndexKey(saves[k].rec.height, saves[k].rec.ethTxIndex)
  {
    var s := saves[|saves| - 1];
    if key == TxIndexKey(s.rec.height, s.rec.ethTxIndex) {
      k := |saves| - 1;
    } else {
      assert TxHashKey(s.hash)[0] == HASH_PREFIX;
      k := IndexKeysAreSaved(c, saves[..|saves| - 1], key);
    }
  }

  lemma {:induction false} SavedKeysAreIndexed(c: Codec, saves: seq<Save>, k: nat)
    requires k < |saves|
    ensures TxIndexKey(saves[k].rec.height, saves[k].rec.ethTxIndex) in Replay(c, saves)
  {
    if k < |saves| - 1 { SavedKeysAreIndexed(c, saves[..|saves| - 1], k); }
  }

  // ---- lookups ----------------------------------------------------------------------------------------------

  function GetByTxHash(c: Codec, db: Db, hash: Hash): (r: Result<TxResult, Error>)
  {
    if TxHashKey(hash) !in db || db[TxHashKey(hash)] == [] then Err(NotFound)
    else
      match c.unmarshal(db[TxHashKey(hash)])
      case Some(rec) => Ok(rec)
      case None => Err(BadRecord)
  }

  /** The last 32 bytes, with zeros in front if there are fewer. */
  function BytesToHash(b: Bytes): (h: Hash)
  {
    if |b| >= 32 then b[|b| - 32..] else seq(32 - |b|, _ => 0) + b
  }

  function GetByBlockAndIndex(c: Codec, db: Db, h: int, i: int): (r: Result<TxResult, Error>)
  {
    if TxIndexKey(h, i) !in db || db[TxIndexKey(h, i)] == [] then Err(NotFound)
    else GetByTxHash(c, db, BytesToHash(db[TxIndexKey(h, i)]))
  }

  /** A lookup by hash finds the last record saved under it. */
  lemma HashLookup(c: Codec, saves: seq<Save>, hash: Hash)
    requires Faithful(c) && AllInRange(saves)
    ensures GetByTxHash(c, Replay(c, saves), hash) ==
      if LastOf(saves, hash) == 0 then Err(NotFound) else Ok(saves[LastOf(saves, hash) - 1].rec)
  {
    HashEntry(c, saves, hash);
    if LastOf(saves, hash) > 0 { assert InRange(saves[LastOf(saves, hash) - 1]); }
  }

  /** A lookup by position finds the last record saved under the hash last saved there. */
  lemma PositionLookup(c: Codec, saves: seq<Save>, h: int, i: int)
    requires Faithful(c) && AllInRange(saves) && 0 <= h < INT64 && 0 <= i < INT32
    ensures GetByBlockAndIndex(c, Replay(c, saves), h, i) ==
      if LastAt(saves, h, i) == 0 then Err(NotFound)
      else
        var hash := saves[LastAt(saves, h, i) - 1].hash;
        if LastOf(saves, hash) == 0 then Err(NotFound) else Ok(saves[LastOf(saves, hash) - 1].rec)
  {
    hide TxIndexKey, Replay, LastAt, LastOf, GetByTxHash, Faithful, InRange;
    IndexEntry(c, saves, h, i);
    var k := LastAt(saves, h, i);
    if k > 0 {
      HashLookup(c, saves, saves[k - 1].hash);
    }
  }

  /**
   * A lookup by position finds nothing exactly when nothing was saved there. Otherwise it finds the record of that
   * position exactly when the hash found there has not been saved again since, under another position.
   */
  lemma LookupAgreesIff(c: Codec, saves: seq<Save>, h: int, i: int)
    requires Faithful(c) && AllInRange(saves) && 0 <= h < INT64 && 0 <= i < INT32
    ensures LastAt(saves, h, i) == 0 <==> GetByBlockAndIndex(c, Replay(c, saves), h, i) == Err(NotFound)
    ensures LastAt(saves, h, i) > 0 ==>
      var k, r := LastAt(saves, h, i) - 1, GetByBlockAndIndex(c, Replay(c, saves), h, i);
      r.Ok? &&
      (r.value.height == h && r.value.ethTxIndex == i <==> forall j :: k < j < |saves| ==> saves[j].hash != saves[k].hash) &&
      (r.value.height == h && r.value.ethTxIndex == i ==> r.value == saves[k].rec)
  {
    hide Faithful, InRange, LastAt, LastOf, GetByBlockAndIndex, Replay;
    PositionLookup(c, saves, h, i);
  }

  /** Two saves of one hash: the older position answers with the newer position's record. */
  lemma RepeatedHashDisagrees(c: Codec, hash: Hash)
    requires Faithful(c)
    ensures var a := TxResult(1, 0, 0, 0, true, 21000, 21000);
            var b := TxResult(2, 0, 0, 0, false, 21000, 21000);
            GetByBlockAndIndex(c, Replay(c, [Save(hash, a), Save(hash, b)]), 1, 0) == Ok(b)
  {
    var a := TxResult(1, 0, 0, 0, true, 21000, 21000);
    var b := TxResult(2, 0, 0, 0, false, 21000, 21000);
    var saves := [Save(hash, a), Save(hash, b)];
    assert LastAt(saves, 1, 0) == 1 by {
      assert saves[..1] == [Save(hash, a)];
    }
    IndexEntry(c, saves, 1, 0);
    HashLookup(c, saves, hash);
  }

  // ---- the first and the last block ----------------------------------------------------------------------------

  /** The keys an iterator over `[start, end)` visits. */
  predicate Visits(start: Bytes, end: Bytes, key: Bytes) { !LexLess(key, start) && LexLess(key, end) }

  /** The first key an iterator stands on, forwards or backwards. */
  method IteratorKey(db: Db, start: Bytes, end: Bytes, reverse: bool) returns (r: Option<Bytes>)
    ensures r.None? <==> forall key :: key in db ==> !Visits(start, end, key)
    ensures r.Some? ==> r.value in db && Visits(start, end, r.value)
    ensures r.Some? ==> forall key :: key in db && Visits(start, end, key) ==>
      key == r.value || (if reverse then LexLess(key, r.value) else LexLess(r.value, key))
  {
    hide LexLess;
    r := None;
    var todo := db.Keys;
    while todo != {}
      invariant todo <= db.Keys
      invariant r.None? <==> forall key :: key in db && key !in todo ==> !Visits(start, end, key)
      invariant r.Some? ==> r.value in db && r.value !in todo && Visits(start, end, r.value)
      invariant r.Some? ==> forall key :: key in db && key !in todo && Visits(start, end, key) ==>
        key == r.value || (if reverse then LexLess(key, r.value) else LexLess(r.value, key))
      decreases todo
    {
      var key :| key in todo;
      todo := todo - {key};
      if Visits(start, end, key) {
        if r.None? {
          r := Some(key);
        } else if (if reverse then LexLess(r.value, key) else LexLess(key, r.value)) {
          NewExtreme(db, start, end, reverse, todo + {key}, r.value, key);
          r := Some(key);
        } else {
          LexTotal(key, r.value);
        }
      }
    }
  }

  /** A key beyond the extreme one is the new extreme. */
  lemma NewExtreme(db: Db, start: Bytes, end: Bytes, reverse: bool, todo: set<Bytes>, was: Bytes, now: Bytes)
    requires if reverse then LexLess(was, now) else LexLess(now, was)
    requires forall key :: key in db && key !in todo && Visits(start, end, key) ==>
        key == was || (if reverse then LexLess(key, was) else LexLess(was, key))
    ensures forall key :: key in db && key !in todo && Visits(start, end, key) ==>
        if reverse then LexLess(key, now) else LexLess(now, key)
  {
    hide LexLess;
    forall key | key in db && key !in todo && Visits(start, end, key)
      ensures if reverse then LexLess(key, now) else LexLess(now, key)
    {
      if key != was {
        if reverse { LexTransitive(key, was, now); } else { LexTransitive(now, was, key); }
      }
    }
  }

  lemma VisitsIndexKeys(key: Bytes)
    ensures Visits([INDEX_PREFIX], [INDEX_PREFIX + 1], key) <==> key != [] && key[0] == INDEX_PREFIX
  {
    var start, end: Bytes := [INDEX_PREFIX], [INDEX_PREFIX + 1];
    assert start[1..] == [] && end[1..] == [];
    if key != [] {
      assert LexLess(key, start) <==> key[0] < INDEX_PREFIX;
      assert LexLess(key, end) <==> key[0] <= INDEX_PREFIX;
    }
  }

  /** The extreme index key belongs to the extreme height. */
  lemma ExtremeHeight(c: Codec, saves: seq<Save>, reverse: bool, key: Bytes) returns (k: nat)
    requires AllInRange(saves)
    requires key in Replay(c, saves) && Visits([INDEX_PREFIX], [INDEX_PREFIX + 1], key)
    requires forall other :: other in Replay(c, saves) && Visits([INDEX_PREFIX], [INDEX_PREFIX + 1], other) ==>
      other == key || (if reverse then LexLess(other, key) else LexLess(key, other))
    ensures k < |saves| && ParseBlockNumber(key) == Ok(saves[k].rec.height)
    ensures forall j :: 0 <= j < |saves| ==>
      if reverse then saves[j].rec.height <= saves[k].rec.height else saves[k].rec.height <= saves[j].rec.height
  {
    hide LexLess, Visits, TxIndexKey, ParseBlockNumber;
    VisitsIndexKeys(key);
    k := IndexKeysAreSaved(c, saves, key);
    assert InRange(saves[k]);
    ParseInvertsBuild(saves[k].rec.height, saves[k].rec.ethTxIndex);
    forall j | 0 <= j < |saves|
      ensures if reverse then saves[j].rec.height <= saves[k].rec.height else saves[k].rec.height <= saves[j].rec.height
    {
      assert InRange(saves[j]);
      SavedIsVisited(c, saves, j);
      KeyOrderIsBlockOrder(saves[k].rec.height, saves[k].rec.ethTxIndex, saves[j].rec.height, saves[j].rec.ethTxIndex);
      KeyOrderIsBlockOrder(saves[j].rec.height, saves[j].rec.ethTxIndex, saves[k].rec.height, saves[k].rec.ethTxIndex);
    }
  }

  lemma SavedIsVisited(c: Codec, saves: seq<Save>, j: nat)
    requires j < |saves|
    ensures var key := TxIndexKey(saves[j].rec.height, saves[j].rec.ethTxIndex);
            key in Replay(c, saves) && Visits([INDEX_PREFIX], [INDEX_PREFIX + 1], key)
  {
    SavedKeysAreIndexed(c, saves, j);
    VisitsIndexKeys(TxIndexKey(saves[j].rec.height, saves[j].rec.ethTxIndex));
  }

  lemma NothingVisited(c: Codec, saves: seq<Save>)
    requires forall key :: key in Replay(c, saves) ==> !Visits([INDEX_PREFIX], [INDEX_PREFIX + 1], key)
    ensures saves == []
  {
    if saves != [] { SavedIsVisited(c, saves, 0); }
  }

  // ---- indexing a block -----------------------------------------------------------------------------------------

  datatype Msg = Msg(hash: Hash, gasLimit: nat)

  /** What the events say of one message. */
  datatype Parsed = Parsed(ethTxIndex: int, gasUsed: nat, failed: bool)

  /** A decoded transaction, and its events by message index when they could be parsed. */
  datatype DecodedTx = DecodedTx(isEth: bool, msgs: seq<Msg>, events: Option<map<nat, Parsed>>)

  /** `expected`: the transaction succeeded or failed by exceeding the block gas limit. */
  datatype BlockTx = BlockTx(code: nat, expected: bool, decoded: Option<DecodedTx>)

  predicate Indexable(t: BlockTx)
  {
    t.expected && t.decoded.Some? && t.decoded.value.isEth && t.decoded.value.events.Some?
  }

  /** Gas used and failure of a message, if it is to be indexed. */
  function MsgOutcome(t: BlockTx, m: nat): (r: Option<(nat, bool)>)
    requires Indexable(t) && m < |t.decoded.value.msgs|
  {
    if t.code != 0 then Some((t.decoded.value.msgs[m].gasLimit, true))
    else if m in t.decoded.value.events.value then
      var p := t.decoded.value.events.value[m];
      Some((p.gasUsed, p.failed))
    else None
  }

  /** The record to make of message `m`: after a non-zero code the gas limit and failure, whatever the events say;
      otherwise what the events say of it, if anything. */
  ghost predicate Records(t: BlockTx, m: nat, gas: nat, failed: bool)
  {
    exists d: DecodedTx, events: map<nat, Parsed> ::
      && t.expected && t.decoded == Some(d) && d.isEth && d.events == Some(events) && m < |d.msgs|
      && if t.code != 0 then gas == d.msgs[m].gasLimit && failed
         else m in events && gas == events[m].gasUsed && failed == events[m].failed
  }

  lemma OutcomeIff(t: BlockTx, m: nat, gas: nat, failed: bool)
    ensures Records(t, m, gas, failed) <==>
              Indexable(t) && m < |t.decoded.value.msgs| && MsgOutcome(t, m) == Some((gas, failed))
  {
  }

  /** Gas of the indexed messages among the first `n`, as the 64-bit counter sees it. */
  function CumulativeGas(t: BlockTx, n: nat): (r: nat)
    requires Indexable(t) && n <= |t.decoded.value.msgs|
    ensures r < UINT64
  {
    if n == 0 then 0
    else
      match MsgOutcome(t, n - 1)
      case None => CumulativeGas(t, n - 1)
      case Some(o) => (CumulativeGas(t, n - 1) + o.0) % UINT64
  }

  /** The saves for the first `n` messages of a transaction, numbered from `start`. */
  function TxSaves(height: int, txIndex: nat, t: BlockTx, n: nat, start: nat): (r: seq<Save>)
    requires Indexable(t) && n <= |t.decoded.value.msgs|
    ensures |r| <= n
  {
    if n == 0 then []
    else
      var before := TxSaves(height, txIndex, t, n - 1, start);
      match MsgOutcome(t, n - 1)
      case None => before
      case Some(o) =>
        before + [Save(t.decoded.value.msgs[n - 1].hash,
                       TxResult(height, txIndex, n - 1, start + |before|, o.1, o.0, CumulativeGas(t, n)))]
  }

  /** The saves for the first `n` transactions of a block. */
  function BlockSaves(height: int, txs: seq<BlockTx>, n: nat): (r: seq<Save>)
    requires n <= |txs|
    ensures |r| <= MsgCount(txs, n)
  {
    if n == 0 then []
    else
      var before := BlockSaves(height, txs, n - 1);
      if !Indexable(txs[n - 1]) then before
      else before + TxSaves(height, n - 1, txs[n - 1], |txs[n - 1].decoded.value.msgs|, |before|)
  }

  function MsgCount(txs: seq<BlockTx>, n: nat): (r: nat)
    requires n <= |txs|
  {
    if n == 0 then 0
    else MsgCount(txs, n - 1) + (if txs[n - 1].decoded.Some? then |txs[n - 1].decoded.value.msgs| else 0)
  }

  lemma {:induction false} TxSaveAt(height: int, txIndex: nat, t: BlockTx, n: nat, start: nat, k: nat)
    requires Indexable(t) && n <= |t.decoded.value.msgs| && k < |TxSaves(height, txIndex, t, n, start)|
    ensures var s := TxSaves(height, txIndex, t, n, start)[k];
            s.rec.height == height && s.rec.ethTxIndex == start + k && s.rec.txIndex == txIndex && s.rec.msgIndex < n &&
            s.hash == t.decoded.value.msgs[s.rec.msgIndex].hash &&
            MsgOutcome(t, s.rec.msgIndex) == Some((s.rec.gasUsed, s.rec.failed)) &&
            s.rec.cumulativeGasUsed == CumulativeGas(t, s.rec.msgIndex + 1)
  {
    if k < |TxSaves(height, txIndex, t, n - 1, start)| { TxSaveAt(height, txIndex, t, n - 1, start, k); }
  }

  /** The block's records are numbered 0, 1, 2, ... without a gap, and each is right about its message. */
  lemma {:induction false} BlockSaveAt(height: int, txs: seq<BlockTx>, n: nat, k: nat)
    requires n <= |txs| && k < |BlockSaves(height, txs, n)|
    ensures var s := BlockSaves(height, txs, n)[k];
            s.rec.height == height && s.rec.ethTxIndex == k && s.rec.txIndex < n && Indexable(txs[s.rec.txIndex]) &&
            var t := txs[s.rec.txIndex];
            s.rec.msgIndex < |t.decoded.value.msgs| && s.hash == t.decoded.value.msgs[s.rec.msgIndex].hash &&
            Records(t, s.rec.msgIndex, s.rec.gasUsed, s.rec.failed) &&
            s.rec.cumulativeGasUsed == CumulativeGas(t, s.rec.msgIndex + 1)
  {
    var before := BlockSaves(height, txs, n - 1);
    if k < |before| {
      BlockSaveAt(height, txs, n - 1, k);
    } else {
      TxSaveAt(height, n - 1, txs[n - 1], |txs[n - 1].decoded.value.msgs|, |before|, k - |before|);
      var s := BlockSaves(height, txs, n)[k];
      OutcomeIff(txs[n - 1], s.rec.msgIndex, s.rec.gasUsed, s.rec.failed);
    }
  }

  lemma {:induction false} TxSaveOf(height: int, txIndex: nat, t: BlockTx, n: nat, start: nat, m: nat) returns (k: nat)
    requires Indexable(t) && m < n <= |t.decoded.value.msgs| && MsgOutcome(t, m).Some?
    ensures k < |TxSaves(height, txIndex, t, n, start)| && TxSaves(height, txIndex, t, n, start)[k].rec.msgIndex == m
  {
    if m < n - 1 {
      k := TxSaveOf(height, txIndex, t, n - 1, start, m);
    } else {
      k := |TxSaves(height, txIndex, t, n, start)| - 1;
    }
  }

  /** Every message that is to be indexed has its record. */
  lemma {:induction false} BlockSaveOf(height: int, txs: seq<BlockTx>, n: nat, x: nat, m: nat, gas: nat, failed: bool)
    returns (k: nat)
    requires x < n <= |txs| && Records(txs[x], m, gas, failed)
    ensures k < |BlockSaves(height, txs, n)|
    ensures BlockSaves(height, txs, n)[k].rec.txIndex == x && BlockSaves(height, txs, n)[k].rec.msgIndex == m
  {
    var before := BlockSaves(height, txs, n - 1);
    if x < n - 1 {
      k := BlockSaveOf(height, txs, n - 1, x, m, gas, failed);
    } else {
      OutcomeIff(txs[x], m, gas, failed);
      var len := |txs[x].decoded.value.msgs|;
      var j := TxSaveOf(height, x, txs[x], len, |before|, m);
      TxSaveAt(height, x, txs[x], len, |before|, j);
      k := |before| + j;
    }
  }

  predicate InBlockOrder(a: Save, b: Save)
  {
    a.rec.txIndex < b.rec.txIndex || (a.rec.txIndex == b.rec.txIndex && a.rec.msgIndex < b.rec.msgIndex)
  }

  lemma {:induction false} TxSavesInOrder(height: int, txIndex: nat, t: BlockTx, n: nat, start: nat, j: nat, k: nat)
    requires Indexable(t) && n <= |t.decoded.value.msgs| && j < k < |TxSaves(height, txIndex, t, n, start)|
    ensures InBlockOrder(TxSaves(height, txIndex, t, n, start)[j], TxSaves(height, txIndex, t, n, start)[k])
  {
    if k < |TxSaves(height, txIndex, t, n - 1, start)| {
      TxSavesInOrder(height, txIndex, t, n - 1, start, j, k);
    } else {
      TxSaveAt(height, txIndex, t, n - 1, start, j);
    }
  }

  /** Records follow the order of transactions and messages, so no message has two. */
  lemma {:induction false} BlockSavesInOrder(height: int, txs: seq<BlockTx>, n: nat, j: nat, k: nat)
    requires n <= |txs| && j < k < |BlockSaves(height, txs, n)|
    ensures InBlockOrder(BlockSaves(height, txs, n)[j], BlockSaves(height, txs, n)[k])
  {
    var before := BlockSaves(height, txs, n - 1);
    if k < |before| {
      BlockSavesInOrder(height, txs, n - 1, j, k);
    } else {
      var len := |txs[n - 1].decoded.value.msgs|;
      TxSaveAt(height, n - 1, txs[n - 1], len, |before|, k - |before|);
      if j < |before| {
        BlockSaveAt(height, txs, n - 1, j);
      } else {
        TxSavesInOrder(height, n - 1, txs[n - 1], len, |before|, j - |before|, k - |before|);
      }
    }
  }

  /** Gas over the records of one transaction up to the `k`th, which is what the running total shows. */
  function GasThrough(saves: seq<Save>, txIndex: nat, k: nat): (r: nat)
    requires k <= |saves|
  {
    if k == 0 then 0
    else GasThrough(saves, txIndex, k - 1) + (if saves[k - 1].rec.txIndex == txIndex then saves[k - 1].rec.gasUsed else 0)
  }

  lemma {:induction false} GasOfPrefix(a: seq<Save>, b: seq<Save>, txIndex: nat, k: nat)
    requires k <= |a|
    ensures GasThrough(a + b, txIndex, k) == GasThrough(a, txIndex, k)
  {
    if k > 0 { GasOfPrefix(a, b, txIndex, k - 1); }
  }

  lemma {:induction false} GasOfConcat(a: seq<Save>, b: seq<Save>, txIndex: nat, k: nat)
    requires k <= |b|
    ensures GasThrough(a + b, txIndex, |a| + k) == GasThrough(a, txIndex, |a|) + GasThrough(b, txIndex, k)
  {
    if k == 0 {
      GasOfPrefix(a, b, txIndex, |a|);
    } else {
      GasOfConcat(a, b, txIndex, k - 1);
    }
  }

  lemma {:induction false} NoGasElsewhere(saves: seq<Save>, txIndex: nat, k: nat)
    requires k <= |saves| && forall j :: 0 <= j < k ==> saves[j].rec.txIndex != txIndex
    ensures GasThrough(saves, txIndex, k) == 0
  {
    if k > 0 { NoGasElsewhere(saves, txIndex, k - 1); }
  }

  lemma {:induction false} TxGas(height: int, txIndex: nat, t: BlockTx, n: nat, start: nat)
    requires Indexable(t) && n <= |t.decoded.value.msgs|
    ensures var saves := TxSaves(height, txIndex, t, n, start);
            CumulativeGas(t, n) == GasThrough(saves, txIndex, |saves|) % UINT64
  {
    if n > 0 {
      TxGas(height, txIndex, t, n - 1, start);
      var before := TxSaves(height, txIndex, t, n - 1, start);
      var saves := TxSaves(height, txIndex, t, n, start);
      if MsgOutcome(t, n - 1).Some? {
        GasOfPrefix(before, saves[|before|..], txIndex, |before|);
        assert saves == before + saves[|before|..];
        WrapAdd(GasThrough(before, txIndex, |before|), MsgOutcome(t, n - 1).value.0);
      }
    }
  }

  lemma {:induction false} TxRunningGas(height: int, txIndex: nat, t: BlockTx, n: nat, start: nat, k: nat)
    requires Indexable(t) && n <= |t.decoded.value.msgs| && k < |TxSaves(height, txIndex, t, n, start)|
    ensures var saves := TxSaves(height, txIndex, t, n, start);
            saves[k].rec.cumulativeGasUsed == GasThrough(saves, txIndex, k + 1) % UINT64
  {
    var before := TxSaves(height, txIndex, t, n - 1, start);
    var saves := TxSaves(height, txIndex, t, n, start);
    if k < |before| {
      TxRunningGas(height, txIndex, t, n - 1, start, k);
      assert saves == before + saves[|before|..];
      GasOfPrefix(before, saves[|before|..], txIndex, k + 1);
    } else {
      TxGas(height, txIndex, t, n, start);
    }
  }

  /** A record's running total is the gas of its transaction's records so far. */
  lemma {:induction false} BlockRunningGas(height: int, txs: seq<BlockTx>, n: nat, k: nat)
    requires n <= |txs| && k < |BlockSaves(height, txs, n)|
    ensures var saves := BlockSaves(height, txs, n);
            saves[k].rec.cumulativeGasUsed == GasThrough(saves, saves[k].rec.txIndex, k + 1) % UINT64
  {
    var before := BlockSaves(height, txs, n - 1);
    if k < |before| {
      BlockRunningGas(height, txs, n - 1, k);
      GasOfPrefix(before, BlockSaves(height, txs, n)[|before|..], before[k].rec.txIndex, k + 1);
      assert BlockSaves(height, txs, n) == before + BlockSaves(height, txs, n)[|before|..];
    } else {
      LastTxRunningGas(height, txs, n, k);
    }
  }

  lemma LastTxRunningGas(height: int, txs: seq<BlockTx>, n: nat, k: nat)
    requires 0 < n <= |txs| && |BlockSaves(height, txs, n - 1)| <= k < |BlockSaves(height, txs, n)|
    ensures var saves := BlockSaves(height, txs, n);
            saves[k].rec.cumulativeGasUsed == GasThrough(saves, saves[k].rec.txIndex, k + 1) % UINT64
  {
    hide *;
    LastTxAdds(height, txs, n);
    var before := BlockSaves(height, txs, n - 1);
    var len := |txs[n - 1].decoded.value.msgs|;
    var mine := TxSaves(height, n - 1, txs[n - 1], len, |before|);
    forall j | 0 <= j < |before| ensures before[j].rec.txIndex != n - 1 { BlockSaveAt(height, txs, n - 1, j); }
    TxRunningGas(height, n - 1, txs[n - 1], len, |before|, k - |before|);
    TxSaveAt(height, n - 1, txs[n - 1], len, |before|, k - |before|);
    GasAfterOthers(before, mine, n - 1, k - |before|);
  }

  /** A transaction that adds records is indexable, and adds those of all its messages. */
  lemma LastTxAdds(height: int, txs: seq<BlockTx>, n: nat)
    requires 0 < n <= |txs| && |BlockSaves(height, txs, n - 1)| < |BlockSaves(height, txs, n)|
    ensures txs[n - 1].decoded.Some? && Indexable(txs[n - 1])
    ensures BlockSaves(height, txs, n) == BlockSaves(height, txs, n - 1) +
              TxSaves(height, n - 1, txs[n - 1], |txs[n - 1].decoded.value.msgs|, |BlockSaves(height, txs, n - 1)|)
  {
    hide TxSaves, MsgOutcome, CumulativeGas;
  }

  lemma GasAfterOthers(before: seq<Save>, mine: seq<Save>, txIndex: nat, k: nat)
    requires k < |mine| && forall j :: 0 <= j < |before| ==> before[j].rec.txIndex != txIndex
    ensures GasThrough(before + mine, txIndex, |before| + k + 1) == GasThrough(mine, txIndex, k + 1)
  {
    NoGasElsewhere(before, txIndex, |before|);
    GasOfConcat(before, mine, txIndex, k + 1);
  }

  // ---- the indexer ------------------------------------------------------------------------------------------------

  /** Pending writes, applied together. */
  datatype Write = Write(key: Bytes, value: Bytes)

  function Commit(db: Db, batch: seq<Write>): (r: Db)
  {
    if batch == [] then db
    else Commit(db, batch[..|batch| - 1])[batch[|batch| - 1].key := batch[|batch| - 1].value]
  }

  function Writes(c: Codec, s: Save): (r: seq<Write>)
  {
    [Write(TxHashKey(s.hash), c.marshal(s.rec)), Write(TxIndexKey(s.rec.height, s.rec.ethTxIndex), s.hash)]
  }

  /** The batch holds exactly the writes of the saves: committing it replays them. */
  ghost predicate Pending(c: Codec, batch: seq<Write>, saves: seq<Save>)
    decreases |saves|
  {
    if saves == [] then batch == []
    else
      |batch| >= 2 && batch[|batch| - 2..] == Writes(c, saves[|saves| - 1]) &&
      Pending(c, batch[..|batch| - 2], saves[..|saves| - 1])
  }

  lemma NothingPending(c: Codec)
    ensures Pending(c, [], [])
  {
  }

  lemma PendingNext(c: Codec, batch: seq<Write>, saves: seq<Save>, s: Save)
    requires Pending(c, batch, saves)
    ensures Pending(c, batch + Writes(c, s), saves + [s])
  {
    var b := batch + Writes(c, s);
    assert b[|b| - 2..] == Writes(c, s) && b[..|b| - 2] == batch;
    assert (saves + [s])[..|saves|] == saves;
  }

  lemma {:induction false} CommitReplays(c: Codec, history: seq<Save>, batch: seq<Write>, saves: seq<Save>)
    requires Pending(c, batch, saves)
    ensures Commit(Replay(c, history), batch) == Replay(c, history + saves)
    decreases |saves|
  {
    if saves == [] {
      assert history + saves == history;
    } else {
      var s, rest, b := saves[|saves| - 1], saves[..|saves| - 1], batch[..|batch| - 2];
      CommitReplays(c, history, b, rest);
      assert (history + saves)[..|history + saves| - 1] == history + rest;
      var b1 := batch[..|batch| - 1];
      assert b1[..|b1| - 1] == b;
      assert batch[|batch| - 2] == batch[|batch| - 2..][0] && batch[|batch| - 1] == batch[|batch| - 2..][1];
    }
  }

  class KVIndexer {
    const codec: Codec
    var db: Db
    ghost var saves: seq<Save>

    ghost predicate Valid()
      reads this
    {
      db == Replay(codec, saves) && AllInRange(saves)
    }

    constructor (codec: Codec)
      ensures Valid() && saves == [] && this.codec == codec
    {
      this.codec := codec;
      db := map[];
      saves := [];
    }

    /** Writes the records of a block, all at once. */
    method IndexBlock(height: int, txs: seq<BlockTx>)
      requires Valid() && 0 < height < INT64 && MsgCount(txs, |txs|) < INT32
      modifies this`db, this`saves
      ensures Valid() && saves == old(saves) + BlockSaves(height, txs, |txs|)
    {
      hide Pending, Commit, Replay, BlockSaves, InRange;
      var batch := BuildBatch(height, txs);
      ghost var added := BlockSaves(height, txs, |txs|);
      CommitReplays(codec, saves, batch, added);
      BlockInRange(height, txs);
      db := Commit(db, batch);
      saves := saves + added;
    }

    /** The writes for a block's records. */
    method BuildBatch(height: int, txs: seq<BlockTx>) returns (batch: seq<Write>)
      ensures Pending(codec, batch, BlockSaves(height, txs, |txs|))
    {
      hide Pending, TxSaves;
      batch := [];
      NothingPending(codec);
      var ethTxIndex := 0;
      for txIndex := 0 to |txs|
        invariant Pending(codec, batch, BlockSaves(height, txs, txIndex))
        invariant ethTxIndex == |BlockSaves(height, txs, txIndex)|
      {
        if Indexable(txs[txIndex]) {
          batch, ethTxIndex := IndexTx(height, txIndex, txs[txIndex], batch, ethTxIndex, BlockSaves(height, txs, txIndex));
        }
      }
    }

    /** Adds the records of one transaction to the batch. */
    method IndexTx(height: int, txIndex: nat, t: BlockTx, batch0: seq<Write>, start: nat, ghost before: seq<Save>)
      returns (batch: seq<Write>, ethTxIndex: nat)
      requires Indexable(t) && Pending(codec, batch0, before)
      ensures ethTxIndex == start + |TxSaves(height, txIndex, t, |t.decoded.value.msgs|, start)|
      ensures Pending(codec, batch, before + TxSaves(height, txIndex, t, |t.decoded.value.msgs|, start))
    {
      hide Pending;
      var tx := t.decoded.value;
      batch, ethTxIndex := batch0, start;
      var cumulativeGasUsed := 0;
      assert before + [] == before;
      for m := 0 to |tx.msgs|
        invariant cumulativeGasUsed == CumulativeGas(t, m)
        invariant ethTxIndex == start + |TxSaves(height, txIndex, t, m, start)|
        invariant Pending(codec, batch, before + TxSaves(height, txIndex, t, m, start))
      {
        var gasUsed, failed := tx.msgs[m].gasLimit, true;
        if t.code == 0 {
          if m !in tx.events.value {
            continue;
          }
          gasUsed, failed := tx.events.value[m].gasUsed, tx.events.value[m].failed;
        }
        cumulativeGasUsed := (cumulativeGasUsed + gasUsed) % UINT64;
        var s := Save(tx.msgs[m].hash, TxResult(height, txIndex, m, ethTxIndex, failed, gasUsed, cumulativeGasUsed));
        ghost var mine := TxSaves(height, txIndex, t, m, start);
        PendingNext(codec, batch, before + mine, s);
        assert before + mine + [s] == before + (mine + [s]);
        ethTxIndex := ethTxIndex + 1;
        batch := batch + Writes(codec, s);
      }
    }

    /** The least indexed height, or -1. */
    method LoadFirstBlock() returns (r: Result<int, Error>)
      requires Valid()
      ensures r.Ok?
      ensures r.value == -1 <==> saves == []
      ensures saves != [] ==> exists k :: 0 <= k < |saves| && saves[k].rec.height == r.value
      ensures saves != [] ==> forall k :: 0 <= k < |saves| ==> r.value <= saves[k].rec.height
    {
      hide Replay, Visits, ParseBlockNumber;
      var key := IteratorKey(db, [INDEX_PREFIX], [INDEX_PREFIX + 1], false);
      if key.None? {
        NothingVisited(codec, saves);
        return Ok(-1);
      }
      ghost var k := ExtremeHeight(codec, saves, false, key.value);
      assert InRange(saves[k]);
      r := ParseBlockNumber(key.value);
    }

    /** The greatest indexed height, or -1. */
    method LoadLastBlock() returns (r: Result<int, Error>)
      requires Valid()
      ensures r.Ok?
      ensures r.value == -1 <==> saves == []
      ensures saves != [] ==> exists k :: 0 <= k < |saves| && saves[k].rec.height == r.value
      ensures saves != [] ==> forall k :: 0 <= k < |saves| ==> saves[k].rec.height <= r.value
    {
      hide Replay, Visits, ParseBlockNumber;
      var key := IteratorKey(db, [INDEX_PREFIX], [INDEX_PREFIX + 1], true);
      if key.None? {
        NothingVisited(codec, saves);
        return Ok(-1);
      }
      ghost var k := ExtremeHeight(codec, saves, true, key.value);
      assert InRange(saves[k]);
      r := ParseBlockNumber(key.value);
    }
  }

  lemma BlockInRange(height: int, txs: seq<BlockTx>)
    requires 0 < height < INT64 && MsgCount(txs, |txs|) < INT32
    ensures AllInRange(BlockSaves(height, txs, |txs|))
  {
    var saves := BlockSaves(height, txs, |txs|);
    forall k | 0 <= k < |saves| ensures InRange(saves[k]) { BlockSaveAt(height, txs, |txs|, k); }
  }

  ghost predicate DistinctHashes(saves: seq<Save>)
  {
    forall j, k :: 0 <= j < k < |saves| ==> saves[j].hash != saves[k].hash
  }

  /** Once a block whose hashes are distinct is indexed, on top of anything, each of its positions finds its own record. */
  lemma IndexedBlockIsFound(c: Codec, history: seq<Save>, height: int, txs: seq<BlockTx>, k: nat)
    requires Faithful(c) && AllInRange(history) && 0 < height < INT64 && MsgCount(txs, |txs|) < INT32
    requires DistinctHashes(BlockSaves(height, txs, |txs|)) && k < |BlockSaves(height, txs, |txs|)|
    ensures GetByBlockAndIndex(c, Replay(c, history + BlockSaves(height, txs, |txs|)), height, k) ==
      Ok(BlockSaves(height, txs, |txs|)[k].rec)
  {
    var added := BlockSaves(height, txs, |txs|);
    BlockInRange(height, txs);
    forall j | 0 <= j < |added| ensures At(added[j], height, k) <==> j == k { BlockSaveAt(height, txs, |txs|, j); }
    LastInBlock(history, added, height, k);
    hide BlockSaves, InRange, LastAt, GetByBlockAndIndex;
    LookupAgreesIff(c, history + added, height, k);
    NotSavedAgain(history, added, k);
  }

  lemma LastInBlock(history: seq<Save>, added: seq<Save>, height: int, k: nat)
    requires k < |added| && forall j :: 0 <= j < |added| ==> (At(added[j], height, k) <==> j == k)
    ensures LastAt(history + added, height, k) == |history| + k + 1
    ensures (history + added)[|history| + k] == added[k]
  {
    var saves := history + added;
    assert forall j :: 0 <= j < |added| ==> saves[|history| + j] == added[j];
    forall j | |history| + k < j < |saves| ensures !At(saves[j], height, k) {
      assert saves[j] == added[j - |history|];
    }
    assert At(saves[|history| + k], height, k);
  }

  lemma NotSavedAgain(history: seq<Save>, added: seq<Save>, k: nat)
    requires k < |added| && DistinctHashes(added)
    ensures forall j :: |history| + k < j < |history + added| ==> (history + added)[j].hash != added[k].hash
  {
    forall j | |history| + k < j < |history + added| ensures (history + added)[j].hash != added[k].hash {
      assert (history + added)[j] == added[j - |history|];
    }
  }
}
