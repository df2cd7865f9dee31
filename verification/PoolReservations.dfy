/** Reservations of the Cosmos pool over every interleaving of inserts, replacements, failures and removals. */
module PoolReservations {
  import opened Basics
  import opened TxKeys
  import opened Reserver

  const COSMOS := 1

  /** The last twenty bytes, padded with zeros on the left. */
  function ToAddress(b: Bytes): (a: Address)
    ensures |a| == 20
  {
    if |b| > 20 then b[|b| - 20..] else seq(20 - |b|, _ => 0) + b
  }

  /** The addresses a transaction reserves: one per signer, in order. */
  function AddressesOf(tx: Tx): (r: seq<Address>)
    requires tx.signers.Some?
  {
    var s := tx.signers.value;
    seq(|s|, i requires 0 <= i < |s| => ToAddress(s[i].address))
  }

  /** The pool identifies a transaction by its first signer and nonce. */
  datatype Key = Key(signer: Bytes, nonce: nat)

  function KeyOf(tx: Tx): (k: Option<Key>)
    requires tx.signers.Some?
  {
    if tx.signers.value == [] then None
    else
      match ChooseNonce(tx.signers.value[0].sequence, tx)
      case None => None
      case Some(n) => Some(Key(tx.signers.value[0].address, n))
  }

  /** An address holds the last bytes of the signer, right-aligned, and zeros where the signer is too short. */
  lemma AddressIsRightAligned(b: Bytes, i: nat)
    requires i < 20
    ensures ToAddress(b)[19 - i] == if i < |b| then b[|b| - 1 - i] else 0
  {
  }

  /** Two transactions have one place in the pool exactly when their first signers are the same and use the same nonce,
      which is the timeout of an unordered transaction. */
  lemma SameKeyIff(x: Tx, y: Tx)
    requires x.signers.Some? && y.signers.Some? && x.signers.value != [] && y.signers.value != []
    requires (x.unorderedAt.Some? ==> x.signers.value[0].sequence == 0) && (y.unorderedAt.Some? ==> y.signers.value[0].sequence == 0)
    ensures KeyOf(x).Some? && KeyOf(y).Some?
    ensures var f, g := x.signers.value[0], y.signers.value[0];
            KeyOf(x) == KeyOf(y) <==>
              f.address == g.address &&
              (if x.unorderedAt.Some? then x.unorderedAt.value else f.sequence) ==
              (if y.unorderedAt.Some? then y.unorderedAt.value else g.sequence)
  {
  }

  /** What the holder of the pool lock is in the middle of: nothing; a replacement whose old transaction has been
      released but is still listed; a removal that is no longer listed but not yet released. */
  datatype Critical = Idle | Replacing(id: nat, key: Key) | Removing(tx: Tx)

  datatype State = State(books: Books, pool: map<Key, Tx>, inflight: map<nat, Tx>, critical: Critical)

  // ---- counting holders -------------------------------------------------------------------------------------

  ghost function CountOver<K>(m: map<K, Tx>, keys: set<K>, a: Address): (c: nat)
    requires keys <= m.Keys && forall k :: k in m ==> m[k].signers.Some?
  {
    if keys == {} then 0
    else
      var k :| k in keys;
      OccursIn(AddressesOf(m[k]), a) + CountOver(m, keys - {k}, a)
  }

  lemma {:induction false} CountRemove<K>(m: map<K, Tx>, keys: set<K>, a: Address, k: K)
    requires keys <= m.Keys && (forall k :: k in m ==> m[k].signers.Some?) && k in keys
    ensures CountOver(m, keys, a) == OccursIn(AddressesOf(m[k]), a) + CountOver(m, keys - {k}, a)
    decreases |keys|
  {
    var j :| j in keys && CountOver(m, keys, a) == OccursIn(AddressesOf(m[j]), a) + CountOver(m, keys - {j}, a);
    if j != k {
      CountRemove(m, keys - {j}, a, k);
      CountRemove(m, keys - {k}, a, j);
      assert keys - {j} - {k} == keys - {k} - {j};
    }
  }

  lemma {:induction false} CountSame<K>(m: map<K, Tx>, n: map<K, Tx>, keys: set<K>, a: Address)
    requires keys <= m.Keys && keys <= n.Keys
    requires (forall k :: k in m ==> m[k].signers.Some?) && (forall k :: k in n ==> n[k].signers.Some?)
    requires forall k :: k in keys ==> m[k] == n[k]
    ensures CountOver(m, keys, a) == CountOver(n, keys, a)
    decreases |keys|
  {
    if keys != {} {
      var k :| k in keys;
      CountRemove(m, keys, a, k);
      CountRemove(n, keys, a, k);
      CountSame(m, n, keys - {k}, a);
    }
  }

  /** How many times an address is held by the transactions of a map. */
  ghost function CountIn<K>(m: map<K, Tx>, a: Address): (c: nat)
    requires forall k :: k in m ==> m[k].signers.Some?
  {
    CountOver(m, m.Keys, a)
  }

  lemma CountInAdd<K>(m: map<K, Tx>, k: K, tx: Tx, a: Address)
    requires (forall k :: k in m ==> m[k].signers.Some?) && k !in m && tx.signers.Some?
    ensures CountIn(m[k := tx], a) == CountIn(m, a) + OccursIn(AddressesOf(tx), a)
  {
    var n := m[k := tx];
    CountRemove(n, n.Keys, a, k);
    assert n.Keys - {k} == m.Keys;
    CountSame(n, m, m.Keys, a);
  }

  lemma CountInDrop<K>(m: map<K, Tx>, k: K, a: Address)
    requires (forall k :: k in m ==> m[k].signers.Some?) && k in m
    ensures CountIn(m - {k}, a) == CountIn(m, a) - OccursIn(AddressesOf(m[k]), a)
  {
    CountRemove(m, m.Keys, a, k);
    assert (m - {k}).Keys == m.Keys - {k};
    CountSame(m, m - {k}, m.Keys - {k}, a);
  }

  ghost predicate Extractable(s: State)
  {
    && (forall k :: k in s.pool ==> s.pool[k].signers.Some? && KeyOf(s.pool[k]) == Some(k))
    && (forall i :: i in s.inflight ==> s.inflight[i].signers.Some?)
    && (s.critical.Removing? ==> s.critical.tx.signers.Some?)
    && (s.critical.Replacing? ==>
          s.critical.key in s.pool && s.critical.id in s.inflight && KeyOf(s.inflight[s.critical.id]) == Some(s.critical.key))
  }

  /** The pooled transactions that still hold their reservations. */
  ghost function Holding(s: State): (m: map<Key, Tx>)
  {
    if s.critical.Replacing? then s.pool - {s.critical.key} else s.pool
  }

  ghost function Holders(s: State, a: Address): (c: nat)
    requires Extractable(s)
  {
    CountIn(Holding(s), a) + CountIn(s.inflight, a) +
    (if s.critical.Removing? then OccursIn(AddressesOf(s.critical.tx), a) else 0)
  }

  /** Conservation: the books are consistent, and every count is the number of holders. */
  ghost predicate Conserved(s: State)
  {
    Extractable(s) && Consistent(s.books, COSMOS) && forall a :: Refs(s.books, a) == Holders(s, a)
  }

  // ---- the steps ----------------------------------------------------------------------------------------------

  datatype Step =
    | Begin(id: nat, tx: Tx)        // Insert reserves the signers
    | Fail(id: nat)                 // Insert gives up and releases them
    | Done(id: nat)                 // Insert adds a transaction under a new key
    | Evict(id: nat)                // the replacement callback releases the old transaction
    | Swap                          // the pool puts the new transaction in its place
    | Drop(key: Key)                // recheck removes a transaction from the pool
    | Unreserve                     // ... and releases it
    | OtherHold(other: int, addrs: seq<Address>)
    | OtherRelease(other: int, addrs: seq<Address>)

  function HoldAll(b: Books, tx: Tx): (r: Books)
    requires tx.signers.Some?
  {
    var addrs := AddressesOf(tx);
    if CanHoldAll(b, COSMOS, addrs) then HoldFirst(b, COSMOS, true, addrs, |addrs|) else b
  }

  function ReleaseAll(b: Books, tx: Tx): (r: Books)
    requires tx.signers.Some?
  {
    var addrs := AddressesOf(tx);
    if CanReleaseAll(b, COSMOS, addrs) then ReleaseFirst(b, true, addrs, |addrs|) else b
  }

  /** When a step can be taken. */
  ghost predicate Enabled(s: State, t: Step)
    requires Extractable(s)
  {
    match t
    case Begin(id, tx) => id !in s.inflight && tx.signers.Some? && CanHoldAll(s.books, COSMOS, AddressesOf(tx))
    case Fail(id) => id in s.inflight && !(s.critical.Replacing? && s.critical.id == id)
    case Done(id) =>
      s.critical.Idle? && id in s.inflight && KeyOf(s.inflight[id]).Some? && KeyOf(s.inflight[id]).value !in s.pool
    case Evict(id) =>
      s.critical.Idle? && id in s.inflight && KeyOf(s.inflight[id]).Some? && KeyOf(s.inflight[id]).value in s.pool
    case Swap => s.critical.Replacing?
    case Drop(key) => s.critical.Idle? && key in s.pool
    case Unreserve => s.critical.Removing?
    case OtherHold(other, addrs) => other != COSMOS && CanHoldAll(s.books, other, addrs)
    case OtherRelease(other, addrs) => other != COSMOS && CanReleaseAll(s.books, other, addrs)
  }

  ghost function Take(s: State, t: Step): (r: State)
    requires Extractable(s) && Enabled(s, t)
  {
    match t
    case Begin(id, tx) => s.(books := HoldAll(s.books, tx), inflight := s.inflight[id := tx])
    case Fail(id) => s.(books := ReleaseAll(s.books, s.inflight[id]), inflight := s.inflight - {id})
    case Done(id) =>
      s.(pool := s.pool[KeyOf(s.inflight[id]).value := s.inflight[id]], inflight := s.inflight - {id})
    case Evict(id) =>
      var key := KeyOf(s.inflight[id]).value;
      s.(books := ReleaseAll(s.books, s.pool[key]), critical := Replacing(id, key))
    case Swap =>
      var tx := s.inflight[s.critical.id];
      s.(pool := s.pool[s.critical.key := tx], inflight := s.inflight - {s.critical.id}, critical := Idle)
    case Drop(key) => s.(pool := s.pool - {key}, critical := Removing(s.pool[key]))
    case Unreserve => s.(books := ReleaseAll(s.books, s.critical.tx), critical := Idle)
    case OtherHold(other, addrs) =>
      s.(books := s.books.(accounts := HoldFirst(s.books, other, false, addrs, |addrs|).accounts))
    case OtherRelease(other, addrs) =>
      s.(books := s.books.(accounts := ReleaseFirst(s.books, false, addrs, |addrs|).accounts))
  }

  // ---- every step conserves -------------------------------------------------------------------------------------

  lemma {:induction false} OccursWhenListed(addrs: seq<Address>, i: nat, n: nat)
    requires i < n <= |addrs|
    ensures Occurs(addrs, addrs[i], n) >= 1
  {
    if i < n - 1 { OccursWhenListed(addrs, i, n - 1); }
  }

  /** A transaction that is counted can always be released, and its release is exact. */
  lemma ReleaseHolder(b: Books, tx: Tx)
    requires Consistent(b, COSMOS) && tx.signers.Some?
    requires forall a :: OccursIn(AddressesOf(tx), a) <= Refs(b, a)
    ensures CanReleaseAll(b, COSMOS, AddressesOf(tx))
    ensures Consistent(ReleaseAll(b, tx), COSMOS) && OthersKept(b, ReleaseAll(b, tx), COSMOS)
    ensures forall a :: Refs(ReleaseAll(b, tx), a) == Refs(b, a) - OccursIn(AddressesOf(tx), a)
  {
    var addrs := AddressesOf(tx);
    forall i | 0 <= i < |addrs| ensures CanRelease(b, COSMOS, addrs[i]) {
      OccursWhenListed(addrs, i, |addrs|);
      assert OccursIn(addrs, addrs[i]) <= Refs(b, addrs[i]);
    }
    ReleaseCounts(b, COSMOS, addrs, |addrs|);
  }

  lemma BeginConserves(s: State, id: nat, tx: Tx)
    requires Conserved(s) && Enabled(s, Begin(id, tx))
    ensures Conserved(Take(s, Begin(id, tx)))
  {
    var r, addrs := Take(s, Begin(id, tx)), AddressesOf(tx);
    HoldCounts(s.books, COSMOS, addrs, |addrs|);
    forall a ensures Refs(r.books, a) == Holders(r, a) {
      CountInAdd(s.inflight, id, tx, a);
      assert Refs(s.books, a) == Holders(s, a);
    }
  }

  lemma FailConserves(s: State, id: nat)
    requires Conserved(s) && Enabled(s, Fail(id))
    ensures Conserved(Take(s, Fail(id)))
    ensures CanReleaseAll(s.books, COSMOS, AddressesOf(s.inflight[id]))
  {
    var r, tx := Take(s, Fail(id)), s.inflight[id];
    forall a ensures OccursIn(AddressesOf(tx), a) <= Refs(s.books, a) {
      CountRemove(s.inflight, s.inflight.Keys, a, id);
      assert Refs(s.books, a) == Holders(s, a);
    }
    ReleaseHolder(s.books, tx);
    forall a ensures Refs(r.books, a) == Holders(r, a) {
      CountInDrop(s.inflight, id, a);
      assert Refs(s.books, a) == Holders(s, a);
    }
  }

  lemma DoneConserves(s: State, id: nat)
    requires Conserved(s) && Enabled(s, Done(id))
    ensures Conserved(Take(s, Done(id)))
  {
    var r, tx := Take(s, Done(id)), s.inflight[id];
    forall a ensures Refs(r.books, a) == Holders(r, a) {
      CountInDrop(s.inflight, id, a);
      CountInAdd(s.pool, KeyOf(tx).value, tx, a);
      assert Refs(s.books, a) == Holders(s, a);
    }
  }

  lemma EvictConserves(s: State, id: nat)
    requires Conserved(s) && Enabled(s, Evict(id))
    ensures Conserved(Take(s, Evict(id)))
    ensures CanReleaseAll(s.books, COSMOS, AddressesOf(s.pool[KeyOf(s.inflight[id]).value]))
  {
    var r, key := Take(s, Evict(id)), KeyOf(s.inflight[id]).value;
    forall a ensures OccursIn(AddressesOf(s.pool[key]), a) <= Refs(s.books, a) {
      CountRemove(s.pool, s.pool.Keys, a, key);
      assert Refs(s.books, a) == Holders(s, a);
    }
    ReleaseHolder(s.books, s.pool[key]);
    forall a ensures Refs(r.books, a) == Holders(r, a) {
      CountInDrop(s.pool, key, a);
      assert Refs(s.books, a) == Holders(s, a);
    }
  }

  lemma SwapConserves(s: State)
    requires Conserved(s) && Enabled(s, Swap)
    ensures Conserved(Take(s, Swap))
  {
    var r, id, key := Take(s, Swap), s.critical.id, s.critical.key;
    assert (s.pool - {key})[key := s.inflight[id]] == s.pool[key := s.inflight[id]];
    forall a ensures Refs(r.books, a) == Holders(r, a) {
      CountInDrop(s.inflight, id, a);
      CountInAdd(s.pool - {key}, key, s.inflight[id], a);
      assert Refs(s.books, a) == Holders(s, a);
    }
  }

  lemma DropConserves(s: State, key: Key)
    requires Conserved(s) && Enabled(s, Drop(key))
    ensures Conserved(Take(s, Drop(key)))
  {
    var r := Take(s, Drop(key));
    forall a ensures Refs(r.books, a) == Holders(r, a) {
      CountInDrop(s.pool, key, a);
      assert Refs(s.books, a) == Holders(s, a);
    }
  }

  lemma UnreserveConserves(s: State)
    requires Conserved(s) && Enabled(s, Unreserve)
    ensures Conserved(Take(s, Unreserve))
    ensures CanReleaseAll(s.books, COSMOS, AddressesOf(s.critical.tx))
  {
    var r := Take(s, Unreserve);
    forall a ensures OccursIn(AddressesOf(s.critical.tx), a) <= Refs(s.books, a) {
      assert Refs(s.books, a) == Holders(s, a);
    }
    ReleaseHolder(s.books, s.critical.tx);
    forall a ensures Refs(r.books, a) == Holders(r, a) {
      assert Refs(s.books, a) == Holders(s, a);
    }
  }

  /** Another handle neither takes nor frees an address that the Cosmos pool owns. */
  lemma {:induction false} OtherHoldKeeps(b: Books, other: int, addrs: seq<Address>, n: nat)
    requires other != COSMOS && n <= |addrs| && CanHoldAll(b, other, addrs)
    ensures var r := HoldFirst(b, other, false, addrs, n);
            && r.refs == b.refs
            && forall a :: (a in r.accounts && r.accounts[a] == COSMOS) <==> (a in b.accounts && b.accounts[a] == COSMOS)
  {
    if n > 0 { OtherHoldKeeps(b, other, addrs, n - 1); }
  }

  lemma {:induction false} OtherReleaseKeeps(b: Books, other: int, addrs: seq<Address>, n: nat)
    requires other != COSMOS && n <= |addrs| && CanReleaseAll(b, other, addrs)
    ensures var r := ReleaseFirst(b, false, addrs, n);
            && r.refs == b.refs
            && forall a :: (a in r.accounts && r.accounts[a] == COSMOS) <==> (a in b.accounts && b.accounts[a] == COSMOS)
  {
    if n > 0 {
      OtherReleaseKeeps(b, other, addrs, n - 1);
      assert CanRelease(b, other, addrs[n - 1]);
    }
  }

  lemma OtherConserves(s: State, t: Step)
    requires (t.OtherHold? || t.OtherRelease?) && Conserved(s) && Enabled(s, t)
    ensures Conserved(Take(s, t))
  {
    if t.OtherHold? {
      OtherHoldKeeps(s.books, t.other, t.addrs, |t.addrs|);
    } else {
      OtherReleaseKeeps(s.books, t.other, t.addrs, |t.addrs|);
    }
    var r := Take(s, t);
    forall a ensures Refs(r.books, a) == Holders(r, a) {
      assert Refs(s.books, a) == Holders(s, a);
    }
  }

  lemma StepConserves(s: State, t: Step)
    requires Conserved(s) && Enabled(s, t)
    ensures Conserved(Take(s, t))
  {
    match t
    case Begin(id, tx) => BeginConserves(s, id, tx);
    case Fail(id) => FailConserves(s, id);
    case Done(id) => DoneConserves(s, id);
    case Evict(id) => EvictConserves(s, id);
    case Swap => SwapConserves(s);
    case Drop(key) => DropConserves(s, key);
    case Unreserve => UnreserveConserves(s);
    case OtherHold(_, _) => OtherConserves(s, t);
    case OtherRelease(_, _) => OtherConserves(s, t);
  }

  // ---- runs --------------------------------------------------------------------------------------------------------

  /** `r` is reached from `s` by taking enabled steps. */
  ghost predicate Reaches(s: State, steps: seq<Step>, r: State)
    decreases |steps|
  {
    if steps == [] then s == r
    else Extractable(s) && Enabled(s, steps[0]) && Reaches(Take(s, steps[0]), steps[1..], r)
  }

  /** Before anything is inserted; other pools may already hold addresses. */
  ghost predicate Initial(s: State)
  {
    s.pool == map[] && s.inflight == map[] && s.critical == Idle && s.books.refs == map[] &&
    forall a :: a in s.books.accounts ==> s.books.accounts[a] != COSMOS
  }

  lemma {:induction false} RunConserves(s: State, steps: seq<Step>, r: State)
    requires Conserved(s) && Reaches(s, steps, r)
    ensures Conserved(r)
    decreases |steps|
  {
    if steps != [] {
      StepConserves(s, steps[0]);
      RunConserves(Take(s, steps[0]), steps[1..], r);
    }
  }

  /** Over every interleaving: each count is the number of pooled and in-flight transactions that the address
      signs, the Cosmos pool owns the address exactly when that number is positive, no other handle can hold it
      meanwhile, and everything counted can be released. */
  lemma ReservationsAreConserved(s: State, steps: seq<Step>, r: State, a: Address, other: int)
    requires Initial(s) && Reaches(s, steps, r) && other != COSMOS
    ensures Extractable(r) && Refs(r.books, a) == Holders(r, a)
    ensures r.critical.Idle? ==> Holders(r, a) == CountIn(r.pool, a) + CountIn(r.inflight, a)
    ensures (a in r.books.accounts && r.books.accounts[a] == COSMOS) <==> Holders(r, a) > 0
    ensures Holders(r, a) > 0 ==> !CanHold(r.books, other, a) && !CanRelease(r.books, other, a)
    ensures forall id :: id in r.inflight ==> CanReleaseAll(r.books, COSMOS, AddressesOf(r.inflight[id]))
  {
    assert Conserved(s);
    RunConserves(s, steps, r);
    forall id | id in r.inflight ensures CanReleaseAll(r.books, COSMOS, AddressesOf(r.inflight[id])) {
      forall b ensures OccursIn(AddressesOf(r.inflight[id]), b) <= Refs(r.books, b) {
        CountRemove(r.inflight, r.inflight.Keys, b, id);
        assert Refs(r.books, b) == Holders(r, b);
      }
      ReleaseHolder(r.books, r.inflight[id]);
    }
  }
}
