/** Values shared by the models: options, bytes, lexicographic order, sorting, sorted sets, filtering and word arithmetic. */
module Basics {

  datatype Option<+T> = None | Some(value: T)

  datatype Result<+T, +E> = Ok(value: T) | Err(error: E)

  type byte = x: int | 0 <= x < 256

  /** Go byte slices and strings, both of which compare byte by byte. */
  type Bytes = seq<byte>

  predicate HasPrefix(s: Bytes, prefix: Bytes) { prefix <= s }

  /** An amount of one denomination. */
  datatype Coin = Coin(denom: Bytes, amount: nat)

  // ---- machine words -------------------------------------------------------------------------------

  const UINT64: nat := 0x1_0000_0000_0000_0000

  const INT64: nat := 0x8000_0000_0000_0000

  /** Unsigned 64-bit conversion and arithmetic keep the low 64 bits. */
  function Wrap64(x: int): (r: nat) ensures r < UINT64 { x % UINT64 }

  /** Adding to a wrapped sum wraps to the same as adding first. */
  lemma WrapAdd(a: nat, b: nat)
    ensures (a % UINT64 + b) % UINT64 == (a + b) % UINT64
  {}

  // ---- division --------------------------------------------------------------------------------------

  lemma DivTimes(x: nat, d: nat)
    requires d > 0
    ensures x - d < x / d * d <= x && x / d * d == x - x % d
  {
  }

  lemma TimesMonotone(a: nat, b: nat, c: nat)
    requires a <= b
    ensures a * c <= b * c
  {
  }

  /** A quotient reaches a number exactly when the dividend reaches that many times the divisor. */
  lemma QuotientIff(x: nat, d: nat, n: nat)
    requires d > 0
    ensures x / d >= n <==> x >= n * d
  {
    DivTimes(x, d);
    var q := x / d;
    if q >= n {
      TimesMonotone(n, q, d);
    } else {
      TimesMonotone(q + 1, n, d);
      assert (q + 1) * d == q * d + d;
    }
  }

  // ---- decimal numerals ----------------------------------------------------------------------------

  function Decimal(n: nat): (r: Bytes)
    ensures r != [] && forall i :: 0 <= i < |r| ==> 48 <= r[i] < 58
  {
    if n < 10 then [48 + n] else Decimal(n / 10) + [48 + n % 10]
  }

  lemma {:induction false} DecimalInjective(m: nat, n: nat)
    requires Decimal(m) == Decimal(n)
    ensures m == n
    decreases m + n
  {
    var a, b := Decimal(m), Decimal(n);
    assert a[|a| - 1] == 48 + m % 10 && b[|b| - 1] == 48 + n % 10;
    if m >= 10 && n >= 10 {
      assert a[..|a| - 1] == Decimal(m / 10) && b[..|b| - 1] == Decimal(n / 10);
      DecimalInjective(m / 10, n / 10);
    }
  }

  /** The number that decimal digits spell. */
  function Numeral(s: Bytes): (n: int)
  {
    if s == [] then 0 else 10 * Numeral(s[..|s| - 1]) + (s[|s| - 1] as int - 48)
  }

  /** A numeral spells its number, and does not start with a zero unless it is zero. */
  lemma {:induction false} DecimalSpells(n: nat)
    ensures Numeral(Decimal(n)) == n && (n > 0 ==> Decimal(n)[0] != 48)
  {
    var d := Decimal(n);
    if n < 10 {
      assert Numeral([]) == 0 && d[..0] == [];
    } else {
      DecimalSpells(n / 10);
      assert d[..|d| - 1] == Decimal(n / 10);
    }
  }

  // ---- lexicographic order -------------------------------------------------------------------------

  /** `bytes.Compare(a, b) < 0` and, on character codes, `strings.Compare(a, b) < 0`. */
  predicate LexLess(a: seq<int>, b: seq<int>)
  {
    if b == [] then false
    else if a == [] then true
    else if a[0] != b[0] then a[0] < b[0]
    else LexLess(a[1..], b[1..])
  }

  lemma {:induction false} LexIrreflexive(a: seq<int>)
    ensures !LexLess(a, a)
  {
    if a != [] { LexIrreflexive(a[1..]); }
  }

  lemma {:induction false} LexTotal(a: seq<int>, b: seq<int>)
    ensures LexLess(a, b) || LexLess(b, a) || a == b
  {
    if a != [] && b != [] && a[0] == b[0] {
      LexTotal(a[1..], b[1..]);
      assert a == [a[0]] + a[1..] && b == [b[0]] + b[1..];
    }
  }

  lemma {:induction false} LexTransitive(a: seq<int>, b: seq<int>, c: seq<int>)
    requires LexLess(a, b) && LexLess(b, c)
    ensures LexLess(a, c)
  {
    if a != [] && a[0] == b[0] && b[0] == c[0] {
      LexTransitive(a[1..], b[1..], c[1..]);
    }
  }

  /** At the first place where the two differ, the smaller byte decides; a proper prefix comes first. */
  ghost predicate FirstDifference(a: seq<int>, b: seq<int>, i: nat)
  {
    i < |b| && i <= |a| && a[..i] == b[..i] && (i < |a| ==> a[i] < b[i])
  }

  lemma SameFirst(a: seq<int>, b: seq<int>, i: nat)
    requires FirstDifference(a, b, i) && i > 0
    ensures a != [] && b != [] && a[0] == b[0]
  {
    assert a[..i][0] == a[0] && b[..i][0] == b[0];
  }

  lemma {:induction false} LexLessIff(a: seq<int>, b: seq<int>)
    ensures LexLess(a, b) <==> exists i: nat :: FirstDifference(a, b, i)
  {
    if a == [] || b == [] || a[0] != b[0] {
      if b != [] && (a == [] || a[0] < b[0]) { assert FirstDifference(a, b, 0); }
      if i: nat :| FirstDifference(a, b, i) && i > 0 { SameFirst(a, b, i); }
    } else {
      LexLessIff(a[1..], b[1..]);
      if i: nat :| FirstDifference(a[1..], b[1..], i) {
        assert a[..i + 1] == [a[0]] + a[1..][..i] && b[..i + 1] == [b[0]] + b[1..][..i];
        assert FirstDifference(a, b, i + 1);
      }
      if i: nat :| FirstDifference(a, b, i) {
        assert i > 0;
        assert a[1..][..i - 1] == a[..i][1..] && b[1..][..i - 1] == b[..i][1..];
        assert FirstDifference(a[1..], b[1..], i - 1);
      }
    }
  }

  // ---- stable sort -------------------------------------------------------------------------------

  /** Puts `x`, which came before everything in `s`, after the elements that sort strictly before it. */
  function Insert<T>(x: T, s: seq<T>, before: (T, T) -> bool): (r: seq<T>)
  {
    if s == [] then [x]
    else if before(s[0], x) then [s[0]] + Insert(x, s[1..], before)
    else [x] + s
  }

  /** `sort.SliceStable` as a function of its input. */
  function StableSort<T>(s: seq<T>, before: (T, T) -> bool): (r: seq<T>)
  {
    if s == [] then [] else Insert(s[0], StableSort(s[1..], before), before)
  }

  predicate Distinct<T(==)>(s: seq<T>)
  {
    forall i, j :: 0 <= i < j < |s| ==> s[i] != s[j]
  }

  lemma ConsDistinct<T>(x: T, s: seq<T>)
    requires Distinct(s) && x !in s
    ensures Distinct([x] + s)
  {
    forall i, j | 0 <= i < j < |s| + 1 ensures ([x] + s)[i] != ([x] + s)[j] {
      assert ([x] + s)[j] == s[j - 1] && s[j - 1] in s;
    }
  }

  lemma {:induction false} InsertMembers<T>(x: T, s: seq<T>, before: (T, T) -> bool)
    ensures |Insert(x, s, before)| == |s| + 1
    ensures forall e :: e in Insert(x, s, before) <==> e == x || e in s
    ensures forall i :: 0 <= i <= |s| ==> Insert(x, s, before)[i] == x || Insert(x, s, before)[i] in s
    ensures Distinct(s) && x !in s ==> Distinct(Insert(x, s, before))
  {
    if s != [] {
      InsertMembers(x, s[1..], before);
      assert s == [s[0]] + s[1..];
      if Distinct(s) && x !in s {
        ConsDistinct(x, s);
        assert s[0] !in s[1..] && x !in s[1..];
        ConsDistinct(s[0], Insert(x, s[1..], before));
      }
    } else {
      assert Distinct([x]);
    }
  }

  /** Sorting loses nothing, adds nothing and duplicates nothing. */
  lemma {:induction false} SortMembers<T>(s: seq<T>, before: (T, T) -> bool)
    ensures |StableSort(s, before)| == |s|
    ensures forall e :: e in StableSort(s, before) <==> e in s
    ensures forall i :: 0 <= i < |s| ==> StableSort(s, before)[i] in s
    ensures Distinct(s) ==> Distinct(StableSort(s, before))
  {
    if s != [] {
      SortMembers(s[1..], before);
      InsertMembers(s[0], StableSort(s[1..], before), before);
      assert s == [s[0]] + s[1..];
    }
  }

  /** An element that nothing precedes stays in front. */
  lemma SortKeepsLeader<T>(s: seq<T>, before: (T, T) -> bool)
    requires s != []
    requires forall e :: e in s[1..] ==> !before(e, s[0])
    ensures StableSort(s, before)[0] == s[0]
  {
    SortMembers(s[1..], before);
  }

  /** The comparisons the program sorts by: asymmetric, with transitive incomparability. */
  ghost predicate StrictWeakOrder<T(!new)>(before: (T, T) -> bool)
  {
    (forall a, b :: before(a, b) ==> !before(b, a)) &&
    (forall a, b, c :: !before(a, b) && !before(b, c) ==> !before(a, c))
  }

  ghost predicate Ordered<T>(s: seq<T>, before: (T, T) -> bool)
  {
    forall i, j :: 0 <= i < j < |s| ==> !before(s[j], s[i])
  }

  lemma {:induction false} InsertOrdered<T(!new)>(x: T, s: seq<T>, before: (T, T) -> bool)
    requires StrictWeakOrder(before) && Ordered(s, before)
    ensures Ordered(Insert(x, s, before), before)
  {
    if s != [] {
      var t := s[1..];
      if before(s[0], x) {
        InsertOrdered(x, t, before);
        InsertMembers(x, t, before);
        forall e | e in Insert(x, t, before) ensures !before(e, s[0]) {}
        var r := Insert(x, t, before);
        forall j | 0 <= j < |r| ensures !before(r[j], s[0]) { assert r[j] in r; }
      } else {
        forall j | 0 <= j < |s| ensures !before(s[j], x) {
          if j > 0 { assert !before(s[j], s[0]) && !before(s[0], x); }
        }
      }
    }
  }

  /** The sort sorts. */
  lemma {:induction false} SortOrdered<T(!new)>(s: seq<T>, before: (T, T) -> bool)
    requires StrictWeakOrder(before)
    ensures Ordered(StableSort(s, before), before)
  {
    if s != [] {
      SortOrdered(s[1..], before);
      InsertOrdered(s[0], StableSort(s[1..], before), before);
    }
  }

  /** The comparison is a strict weak order as far as the elements of `s` go. */
  ghost predicate WeakOrderOn<T(!new)>(s: seq<T>, before: (T, T) -> bool)
  {
    (forall a, b :: a in s && b in s && before(a, b) ==> !before(b, a)) &&
    (forall a, b, c :: a in s && b in s && c in s && !before(a, b) && !before(b, c) ==> !before(a, c))
  }

  /** Sorted by one comparison, and by another where the first one ties. */
  predicate ThenBy<T>(before: (T, T) -> bool, rank: (T, T) -> bool, x: T, y: T)
  {
    before(x, y) || (!before(y, x) && rank(x, y))
  }

  ghost predicate StablySorted<T>(s: seq<T>, before: (T, T) -> bool, rank: (T, T) -> bool)
  {
    forall i, j :: 0 <= i < j < |s| ==> ThenBy(before, rank, s[i], s[j])
  }

  lemma StablyCons<T>(x: T, s: seq<T>, before: (T, T) -> bool, rank: (T, T) -> bool)
    requires StablySorted(s, before, rank) && forall j :: 0 <= j < |s| ==> ThenBy(before, rank, x, s[j])
    ensures StablySorted([x] + s, before, rank)
  {
  }

  lemma {:induction false} InsertIsStable<T(!new)>(x: T, s: seq<T>, before: (T, T) -> bool, rank: (T, T) -> bool)
    requires WeakOrderOn([x] + s, before) && StablySorted(s, before, rank) && forall e :: e in s ==> rank(x, e)
    ensures StablySorted(Insert(x, s, before), before, rank)
  {
    if s != [] {
      var t := s[1..];
      assert s[0] in [x] + s && x in [x] + s;
      if before(s[0], x) {
        assert forall e :: e in [x] + t ==> e in [x] + s;
        InsertIsStable(x, t, before, rank);
        InsertMembers(x, t, before);
        var r := Insert(x, t, before);
        forall j | 0 <= j < |r| ensures ThenBy(before, rank, s[0], r[j]) {
          if r[j] != x {
            var k :| 0 <= k < |t| && t[k] == r[j];
            assert ThenBy(before, rank, s[0], s[k + 1]);
          }
        }
        StablyCons(s[0], r, before, rank);
      } else {
        forall j | 0 <= j < |s| ensures ThenBy(before, rank, x, s[j]) {
          assert s[j] in [x] + s;
          if j > 0 { assert ThenBy(before, rank, s[0], s[j]); }
        }
        StablyCons(x, s, before, rank);
      }
    }
  }

  /** The sort sorts, and what ties stays in the order it came in. */
  lemma {:induction false} SortIsStable<T(!new)>(s: seq<T>, before: (T, T) -> bool, rank: (T, T) -> bool)
    requires WeakOrderOn(s, before) && forall i, j :: 0 <= i < j < |s| ==> rank(s[i], s[j])
    ensures StablySorted(StableSort(s, before), before, rank)
  {
    if s != [] {
      var t := s[1..];
      assert forall e :: e in t ==> e in s;
      SortIsStable(t, before, rank);
      SortMembers(t, before);
      var r := StableSort(t, before);
      assert forall e :: e in [s[0]] + r ==> e in s;
      forall e | e in r ensures rank(s[0], e) {
        var k :| 0 <= k < |t| && t[k] == e;
      }
      InsertIsStable(s[0], r, before, rank);
    }
  }

  // ---- sorted sets -----------------------------------------------------------------------------------

  lemma SubsetSize<T>(a: set<T>, b: set<T>)
    requires a <= b
    ensures |a| <= |b|
  {
    assert b == a + (b - a);
  }

  ghost predicate TotalOrder<T(!new)>(before: (T, T) -> bool)
  {
    StrictWeakOrder(before) && forall a, b :: before(a, b) || before(b, a) || a == b
  }

  ghost predicate Increasing<T>(s: seq<T>, before: (T, T) -> bool)
  {
    forall i, j :: 0 <= i < j < |s| ==> before(s[i], s[j])
  }

  function Elements<T(==)>(s: seq<T>): (r: set<T>) { set i | 0 <= i < |s| :: s[i] }

  lemma NonEmptyElements<T>(s: seq<T>)
    requires s != []
    ensures Elements(s) != {}
  {
    assert s[0] in Elements(s);
  }

  lemma SnocElements<T>(s: seq<T>, k: T)
    requires Distinct(s) && k !in Elements(s)
    ensures Distinct(s + [k]) && Elements(s + [k]) == Elements(s) + {k}
  {
    var t := s + [k];
    assert forall i :: 0 <= i < |s| ==> t[i] == s[i] && s[i] in Elements(s);
    assert t[|s|] == k;
    forall e | e in Elements(s) ensures e in Elements(t) {
      var i :| 0 <= i < |s| && s[i] == e;
      assert t[i] == e;
    }
  }

  lemma TailElements<T(!new)>(s: seq<T>, before: (T, T) -> bool)
    requires StrictWeakOrder(before) && s != [] && Increasing(s, before)
    ensures Increasing(s[1..], before) && Elements(s[1..]) == Elements(s) - {s[0]}
  {
    forall k | k in Elements(s) && k != s[0] ensures k in Elements(s[1..]) {
      var i :| 0 <= i < |s| && s[i] == k;
      assert s[1..][i - 1] == k;
    }
    forall i | 0 <= i < |s[1..]| ensures s[1..][i] in Elements(s) && s[1..][i] != s[0] {
      assert s[1..][i] == s[i + 1] && before(s[0], s[i + 1]);
    }
  }

  lemma SameHead<T(!new)>(s: seq<T>, t: seq<T>, before: (T, T) -> bool)
    requires StrictWeakOrder(before) && s != [] && t != []
    requires Increasing(s, before) && Increasing(t, before) && Elements(s) == Elements(t)
    ensures s[0] == t[0]
  {
    assert s[0] in Elements(t) && t[0] in Elements(s);
    var i :| 0 <= i < |t| && t[i] == s[0];
    var j :| 0 <= j < |s| && s[j] == t[0];
  }

  /** A strictly sorted sequence is determined by its elements. */
  lemma {:induction false} SortedIsUnique<T(!new)>(s: seq<T>, t: seq<T>, before: (T, T) -> bool)
    requires StrictWeakOrder(before) && Increasing(s, before) && Increasing(t, before) && Elements(s) == Elements(t)
    ensures s == t
  {
    if s == [] {
      if t != [] { NonEmptyElements(t); }
    } else {
      NonEmptyElements(s);
      SameHead(s, t, before);
      TailElements(s, before);
      TailElements(t, before);
      SortedIsUnique(s[1..], t[1..], before);
      assert s == [s[0]] + s[1..] && t == [t[0]] + t[1..];
    }
  }

  /** Sorting distinct elements, in whatever order they come, sorts them strictly. */
  lemma SortIsIncreasing<T(!new)>(s: seq<T>, before: (T, T) -> bool)
    requires TotalOrder(before) && Distinct(s)
    ensures Increasing(StableSort(s, before), before) && Elements(StableSort(s, before)) == Elements(s)
  {
    var t := StableSort(s, before);
    SortOrdered(s, before);
    SortMembers(s, before);
    forall i, j | 0 <= i < j < |t| ensures before(t[i], t[j]) { assert !before(t[j], t[i]) && t[i] != t[j]; }
    forall k | k in Elements(s) ensures k in Elements(t) { assert k in t; }
    forall k | k in Elements(t) ensures k in Elements(s) { assert k in s; }
  }

  lemma {:induction false} Enumerate<T>(keys: set<T>) returns (s: seq<T>)
    ensures Distinct(s) && Elements(s) == keys
    decreases |keys|
  {
    if keys == {} {
      s := [];
    } else {
      var k :| k in keys;
      var rest := Enumerate(keys - {k});
      SnocElements(rest, k);
      s := rest + [k];
    }
  }

  lemma SortedExists<T(!new)>(keys: set<T>, before: (T, T) -> bool)
    requires TotalOrder(before)
    ensures exists s :: Increasing(s, before) && Elements(s) == keys
  {
    var s := Enumerate(keys);
    SortIsIncreasing(s, before);
  }

  /** The elements in order; there is exactly one such sequence. */
  ghost function Sorted<T(!new)>(keys: set<T>, before: (T, T) -> bool): (s: seq<T>)
    requires TotalOrder(before)
    ensures Increasing(s, before) && Elements(s) == keys
  {
    SortedExists(keys, before);
    var s :| Increasing(s, before) && Elements(s) == keys;
    s
  }

  /** Ranges over the keys of a map in any order, as the runtime does, and sorts them. */
  method SortKeys<T(!new, ==)>(keys: set<T>, before: (T, T) -> bool) returns (s: seq<T>)
    requires TotalOrder(before)
    ensures s == Sorted(keys, before)
  {
    s := [];
    var todo := keys;
    while todo != {}
      invariant todo <= keys && Distinct(s) && Elements(s) == keys - todo
      decreases todo
    {
      var k :| k in todo;
      SnocElements(s, k);
      s := s + [k];
      todo := todo - {k};
    }
    SortIsIncreasing(s, before);
    s := StableSort(s, before);
    SortedIsUnique(s, Sorted(keys, before), before);
  }

  // ---- a minimum that restarts at zero -------------------------------------------------------------------

  /** What a loop holds that starts at zero and takes every value that is smaller, or finds zero held. */
  function RunningMin(ps: seq<nat>, n: nat): (r: nat)
    requires n <= |ps|
  {
    if n == 0 then 0
    else
      var before := RunningMin(ps, n - 1);
      if before == 0 || ps[n - 1] < before then ps[n - 1] else before
  }

  ghost predicate IsMin(ps: seq<nat>, n: nat, m: nat)
    requires 0 < n <= |ps|
  {
    (forall i :: 0 <= i < n ==> m <= ps[i]) && exists i :: 0 <= i < n && ps[i] == m
  }

  predicate NoZero(ps: seq<nat>, n: nat)
    requires n <= |ps|
  {
    forall i :: 0 <= i < n ==> ps[i] != 0
  }

  /** The loop ends at the minimum exactly when no value is zero, or the last one is. */
  lemma {:induction false} RunningMinIff(ps: seq<nat>, n: nat)
    requires 0 < n <= |ps|
    ensures IsMin(ps, n, RunningMin(ps, n)) <==> NoZero(ps, n) || ps[n - 1] == 0
  {
    if NoZero(ps, n) {
      MinWithoutZero(ps, n);
    } else if ps[n - 1] == 0 {
      assert RunningMin(ps, n) == 0;
    } else {
      NotZeroAfter(ps, n);
      var i :| 0 <= i < n && ps[i] == 0;
    }
  }

  lemma {:induction false} MinWithoutZero(ps: seq<nat>, n: nat)
    requires 0 < n <= |ps| && NoZero(ps, n)
    ensures IsMin(ps, n, RunningMin(ps, n))
  {
    if n == 1 {
      assert RunningMin(ps, 0) == 0;
      assert ps[0] == RunningMin(ps, 1);
    } else {
      MinWithoutZero(ps, n - 1);
      var i :| 0 <= i < n - 1 && ps[i] == RunningMin(ps, n - 1);
      assert ps[n - 1] == RunningMin(ps, n) || ps[i] == RunningMin(ps, n);
    }
  }

  /** A value that is not zero, read last, makes the result not zero. */
  lemma NotZeroAfter(ps: seq<nat>, n: nat)
    requires 0 < n <= |ps| && ps[n - 1] != 0
    ensures RunningMin(ps, n) != 0
  {
  }

  /** The loop always ends at one of the values. */
  lemma {:induction false} RunningMinOccurs(ps: seq<nat>, n: nat)
    requires 0 < n <= |ps|
    ensures RunningMin(ps, n) in ps[..n]
  {
    if n > 1 {
      RunningMinOccurs(ps, n - 1);
      assert ps[..n] == ps[..n - 1] + [ps[n - 1]];
    } else {
      assert RunningMin(ps, 0) == 0 && ps[..1] == [ps[0]];
    }
  }

  // ---- filtering -------------------------------------------------------------------------------------

  /** What is left of the first `n` elements after dropping. */
  function Filter<T>(s: seq<T>, drop: T -> bool, n: nat): (r: seq<T>)
    requires n <= |s|
    ensures |r| <= n
  {
    if n == 0 then []
    else if drop(s[n - 1]) then Filter(s, drop, n - 1)
    else Filter(s, drop, n - 1) + [s[n - 1]]
  }

  /** Every element that is left comes from the sequence, and is not one to drop. */
  lemma {:induction false} FilterSound<T>(s: seq<T>, drop: T -> bool, n: nat, i: nat) returns (j: nat)
    requires n <= |s| && i < |Filter(s, drop, n)|
    ensures j < n && s[j] == Filter(s, drop, n)[i] && !drop(s[j])
  {
    if i < |Filter(s, drop, n - 1)| {
      j := FilterSound(s, drop, n - 1, i);
    } else {
      j := n - 1;
    }
  }

  /** Every element that is not to be dropped is left. */
  lemma {:induction false} FilterComplete<T>(s: seq<T>, drop: T -> bool, n: nat, j: nat) returns (i: nat)
    requires j < n <= |s| && !drop(s[j])
    ensures i < |Filter(s, drop, n)| && Filter(s, drop, n)[i] == s[j]
  {
    if j == n - 1 {
      i := |Filter(s, drop, n)| - 1;
    } else {
      i := FilterComplete(s, drop, n - 1, j);
    }
  }

  ghost predicate Pairwise<T>(s: seq<T>, rel: (T, T) -> bool)
  {
    forall i, j :: 0 <= i < j < |s| ==> rel(s[i], s[j])
  }

  /** Filtering keeps the order. */
  lemma {:induction false} FilterPairwise<T>(s: seq<T>, drop: T -> bool, n: nat, rel: (T, T) -> bool)
    requires n <= |s| && Pairwise(s, rel)
    ensures Pairwise(Filter(s, drop, n), rel)
  {
    if n > 0 {
      FilterPairwise(s, drop, n - 1, rel);
      var q := Filter(s, drop, n - 1);
      forall i | 0 <= i < |q| ensures rel(q[i], s[n - 1]) {
        var j := FilterSound(s, drop, n - 1, i);
      }
    }
  }

  lemma {:induction false} FilterNone<T>(s: seq<T>, drop: T -> bool, n: nat)
    requires n <= |s| && forall i :: 0 <= i < n ==> !drop(s[i])
    ensures Filter(s, drop, n) == s[..n]
  {
    if n > 0 { FilterNone(s, drop, n - 1); }
  }
}
