/** Address reservations shared between the pools, with reference counts for the pool that needs them. */
module Reserver {
  import opened Basics

  type Address = Bytes

  /** The shared table of owners, and one handle's reference counts. */
  datatype Books = Books(accounts: map<Address, int>, refs: map<Address, int>)

  function Refs(b: Books, a: Address): (n: int) { if a in b.refs then b.refs[a] else 0 }

  /** An address is free, or already owned by this handle. */
  predicate CanHold(b: Books, id: int, a: Address) { a in b.accounts ==> b.accounts[a] == id }

  predicate CanRelease(b: Books, id: int, a: Address) { a in b.accounts && b.accounts[a] == id }

  predicate CanHoldAll(b: Books, id: int, addrs: seq<Address>)
  {
    forall i :: 0 <= i < |addrs| ==> CanHold(b, id, addrs[i])
  }

  predicate CanReleaseAll(b: Books, id: int, addrs: seq<Address>)
  {
    forall i :: 0 <= i < |addrs| ==> CanRelease(b, id, addrs[i])
  }

  function HoldOne(b: Books, id: int, counted: bool, a: Address): (r: Books)
  {
    Books(if a in b.accounts then b.accounts else b.accounts[a := id],
          if counted then b.refs[a := Refs(b, a) + 1] else b.refs)
  }

  function HoldFirst(b: Books, id: int, counted: bool, addrs: seq<Address>, n: nat): (r: Books)
    requires n <= |addrs|
  {
    if n == 0 then b else HoldOne(HoldFirst(b, id, counted, addrs, n - 1), id, counted, addrs[n - 1])
  }

  function ReleaseOne(b: Books, counted: bool, a: Address): (r: Books)
  {
    if !counted then Books(b.accounts - {a}, b.refs)
    else if a !in b.refs || b.refs[a] <= 1 then Books(b.accounts - {a}, b.refs - {a})
    else Books(b.accounts, b.refs[a := b.refs[a] - 1])
  }

  function ReleaseFirst(b: Books, counted: bool, addrs: seq<Address>, n: nat): (r: Books)
    requires n <= |addrs|
  {
    if n == 0 then b else ReleaseOne(ReleaseFirst(b, counted, addrs, n - 1), counted, addrs[n - 1])
  }

  // ---- the handle ---------------------------------------------------------------------------------------

  class ReservationTracker {
    var accounts: map<Address, int>

    constructor ()
      ensures accounts == map[]
    {
      accounts := map[];
    }
  }

  class ReservationHandle {
    const tracker: ReservationTracker
    const id: int
    const enableRefCount: bool
    var refsCounter: map<Address, int>

    constructor (tracker: ReservationTracker, id: int, enableRefCount: bool)
      ensures this.tracker == tracker && this.id == id && this.enableRefCount == enableRefCount && refsCounter == map[]
    {
      this.tracker := tracker;
      this.id := id;
      this.enableRefCount := enableRefCount;
      refsCounter := map[];
    }

    ghost function State(): (b: Books)
      reads this, tracker
    {
      Books(tracker.accounts, refsCounter)
    }

    /** Reserves all of the addresses or none. */
    method Hold(addrs: seq<Address>) returns (ok: bool)
      modifies this, tracker
      ensures ok <==> CanHoldAll(old(State()), id, addrs)
      ensures State() == if ok then HoldFirst(old(State()), id, enableRefCount, addrs, |addrs|) else old(State())
    {
      for i := 0 to |addrs|
        invariant State() == old(State())
        invariant forall j :: 0 <= j < i ==> CanHold(State(), id, addrs[j])
      {
        var addr := addrs[i];
        if addr in tracker.accounts && tracker.accounts[addr] != id {
          return false;
        }
      }
      for i := 0 to |addrs|
        invariant State() == HoldFirst(old(State()), id, enableRefCount, addrs, i)
      {
        var addr := addrs[i];
        if addr !in tracker.accounts {
          tracker.accounts := tracker.accounts[addr := id];
        }
        if enableRefCount {
          refsCounter := refsCounter[addr := (if addr in refsCounter then refsCounter[addr] else 0) + 1];
        }
      }
      return true;
    }

    /** Releases all of the addresses or none; with reference counts, only the last release frees an address. */
    method Release(addrs: seq<Address>) returns (ok: bool)
      modifies this, tracker
      ensures ok <==> CanReleaseAll(old(State()), id, addrs)
      ensures State() == if ok then ReleaseFirst(old(State()), enableRefCount, addrs, |addrs|) else old(State())
    {
      for i := 0 to |addrs|
        invariant State() == old(State())
        invariant forall j :: 0 <= j < i ==> CanRelease(State(), id, addrs[j])
      {
        var addr := addrs[i];
        if addr !in tracker.accounts {
          return false;
        }
        if tracker.accounts[addr] != id {
          return false;
        }
      }
      for i := 0 to |addrs|
        invariant State() == ReleaseFirst(old(State()), enableRefCount, addrs, i)
      {
        var addr := addrs[i];
        if !enableRefCount {
          tracker.accounts := tracker.accounts - {addr};
          continue;
        }
        if addr !in refsCounter || refsCounter[addr] <= 1 {
          tracker.accounts := tracker.accounts - {addr};
          refsCounter := refsCounter - {addr};
        } else {
          refsCounter := refsCounter[addr := refsCounter[addr] - 1];
        }
      }
      return true;
    }

    /** Whether another pool owns the address. */
    method Has(address: Address) returns (r: bool)
      ensures r <==> !CanHold(State(), id, address)
    {
      r := address in tracker.accounts && tracker.accounts[address] != id;
    }
  }

  // ---- what the books say ---------------------------------------------------------------------------------

  /** How often an address occurs among the first `n`. */
  function Occurs(addrs: seq<Address>, a: Address, n: nat): (c: nat)
    requires n <= |addrs|
  {
    if n == 0 then 0 else Occurs(addrs, a, n - 1) + (if addrs[n - 1] == a then 1 else 0)
  }

  function OccursIn(addrs: seq<Address>, a: Address): (c: nat) { Occurs(addrs, a, |addrs|) }

  /** A counting handle owns exactly the addresses it counts, each at least once. */
  ghost predicate Consistent(b: Books, id: int)
  {
    (forall a :: a in b.refs ==> b.refs[a] > 0) &&
    (forall a :: a in b.refs <==> a in b.accounts && b.accounts[a] == id)
  }

  /** The owners other than this handle are untouched. */
  ghost predicate OthersKept(b: Books, r: Books, id: int)
  {
    forall a :: if a in b.accounts && b.accounts[a] != id then a in r.accounts && r.accounts[a] == b.accounts[a]
                else a in r.accounts ==> r.accounts[a] == id
  }

  /** Holding counts every occurrence, duplicates included. */
  lemma {:induction false} HoldCounts(b: Books, id: int, addrs: seq<Address>, n: nat)
    requires n <= |addrs| && Consistent(b, id) && CanHoldAll(b, id, addrs)
    ensures var r := HoldFirst(b, id, true, addrs, n);
            && Consistent(r, id) && OthersKept(b, r, id)
            && forall a :: Refs(r, a) == Refs(b, a) + Occurs(addrs, a, n)
  {
    if n > 0 {
      HoldCounts(b, id, addrs, n - 1);
      assert CanHold(b, id, addrs[n - 1]);
    }
  }

  /** Releasing what is held undoes the count, and frees an address exactly when its count reaches zero. */
  lemma {:induction false} ReleaseCounts(b: Books, id: int, addrs: seq<Address>, n: nat)
    requires n <= |addrs| && Consistent(b, id)
    requires forall a :: Occurs(addrs, a, n) <= Refs(b, a)
    ensures var r := ReleaseFirst(b, true, addrs, n);
            && Consistent(r, id) && OthersKept(b, r, id)
            && forall a :: Refs(r, a) == Refs(b, a) - Occurs(addrs, a, n)
  {
    if n > 0 {
      forall a ensures Occurs(addrs, a, n - 1) <= Refs(b, a) {
        assert Occurs(addrs, a, n) <= Refs(b, a);
      }
      ReleaseCounts(b, id, addrs, n - 1);
      assert Occurs(addrs, addrs[n - 1], n) <= Refs(b, addrs[n - 1]);
    }
  }

  /** Release undoes Hold: the counts and the owners are back where they were. */
  lemma HoldThenRelease(b: Books, id: int, addrs: seq<Address>)
    requires Consistent(b, id) && CanHoldAll(b, id, addrs)
    ensures ReleaseFirst(HoldFirst(b, id, true, addrs, |addrs|), true, addrs, |addrs|) == b
  {
    var h := HoldFirst(b, id, true, addrs, |addrs|);
    HoldCounts(b, id, addrs, |addrs|);
    ReleaseCounts(h, id, addrs, |addrs|);
    var r := ReleaseFirst(h, true, addrs, |addrs|);
    forall a ensures (a in r.refs <==> a in b.refs) && (a in b.refs ==> r.refs[a] == b.refs[a]) {
      assert Refs(r, a) == Refs(b, a);
    }
    assert r.refs == b.refs;
    assert r.accounts == b.accounts;
  }

  // ---- between handles --------------------------------------------------------------------------------------

  /** Whether or not a handle counts: after holding, it owns exactly what it owned and the addresses it asked for, and no
      other handle, whatever it counts, can hold or release any of these. */
  lemma {:induction false} HoldIsExclusive(b: Books, id: int, counted: bool, addrs: seq<Address>, n: nat)
    requires n <= |addrs| && CanHoldAll(b, id, addrs)
    ensures var r := HoldFirst(b, id, counted, addrs, n).accounts;
            && (forall a :: a in addrs[..n] ==> a in r && r[a] == id)
            && (forall a :: a !in addrs[..n] ==> (a in r <==> a in b.accounts) && (a in r ==> r[a] == b.accounts[a]))
            && (forall a, other, refs :: a in addrs[..n] && other != id ==>
                  !CanHold(Books(r, refs), other, a) && !CanRelease(Books(r, refs), other, a))
  {
    if n > 0 {
      HoldIsExclusive(b, id, counted, addrs, n - 1);
      assert CanHold(b, id, addrs[n - 1]);
      assert addrs[..n] == addrs[..n - 1] + [addrs[n - 1]];
    }
  }

  /** A handle that does not count frees what it releases at once, and nothing else. */
  lemma {:induction false} ReleaseFrees(b: Books, addrs: seq<Address>, n: nat)
    requires n <= |addrs|
    ensures var r := ReleaseFirst(b, false, addrs, n);
            && r.refs == b.refs && (forall a :: a in addrs[..n] ==> a !in r.accounts)
            && (forall a :: a !in addrs[..n] ==>
                  (a in r.accounts <==> a in b.accounts) && (a in r.accounts ==> r.accounts[a] == b.accounts[a]))
  {
    if n > 0 {
      ReleaseFrees(b, addrs, n - 1);
      assert addrs[..n] == addrs[..n - 1] + [addrs[n - 1]];
    }
  }
}
