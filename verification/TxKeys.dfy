/** Cosmos transactions and the keys the snapshot store builds from their signers and nonces. */
module TxKeys {
  import opened Basics

  datatype FeeData = FeeData(coins: seq<Coin>, gas: nat)

  datatype Signer = Signer(address: Bytes, sequence: nat)

  /** A transaction: `signers` is None when they cannot be extracted, `unorderedAt` is the timeout that an
      unordered transaction uses as its nonce, `fee` is None when the transaction carries no fee. */
  datatype Tx = Tx(id: nat, signers: Option<seq<Signer>>, unorderedAt: Option<nat>, fee: Option<FeeData>)

  type NonceMap = map<Bytes, nat>

  /** The length that all signers share: any but seven, at which a signer could be called "unkeyed". */
  type SignerLength = n: nat | n > 0 && n != 7 witness 20

  const SIGNER_LEN: SignerLength

  /** An unordered transaction must not carry a sequence; otherwise its timeout is its nonce. */
  function ChooseNonce(sequence: nat, tx: Tx): (n: Option<nat>)
  {
    match tx.unorderedAt
    case None => Some(sequence)
    case Some(t) => if sequence > 0 then None else Some(t)
  }

  /** The nonces of the first `n` signers; a signer that occurs twice keeps its last nonce. */
  function NoncesUpTo(tx: Tx, signers: seq<Signer>, n: nat): (m: Option<NonceMap>)
    requires n <= |signers|
  {
    if n == 0 then Some(map[])
    else
      match NoncesUpTo(tx, signers, n - 1)
      case None => None
      case Some(m) =>
        match ChooseNonce(signers[n - 1].sequence, tx)
        case None => None
        case Some(v) => Some(m[signers[n - 1].address := v])
  }

  function NoncesOf(tx: Tx): (m: Option<NonceMap>)
  {
    if tx.signers.None? || tx.signers.value == [] then None
    else NoncesUpTo(tx, tx.signers.value, |tx.signers.value|)
  }

  /** The last signer under an address. */
  predicate LastUnder(signers: seq<Signer>, n: nat, a: Bytes, i: nat)
    requires n <= |signers|
  {
    i < n && signers[i].address == a && forall j :: i < j < n ==> signers[j].address != a
  }

  /** Nonces can be read exactly when no signer of an unordered transaction carries a sequence. Then there is one for every
      signing address: the timeout of an unordered transaction, otherwise the sequence of its last signer. */
  lemma {:induction false} NoncesAre(tx: Tx, signers: seq<Signer>, n: nat)
    requires n <= |signers|
    ensures NoncesUpTo(tx, signers, n).Some? <==>
              forall i :: 0 <= i < n && tx.unorderedAt.Some? ==> signers[i].sequence == 0
    ensures NoncesUpTo(tx, signers, n).Some? ==>
              forall a, i: nat :: LastUnder(signers, n, a, i) ==>
                var m := NoncesUpTo(tx, signers, n).value;
                a in m && m[a] == if tx.unorderedAt.Some? then tx.unorderedAt.value else signers[i].sequence
    ensures NoncesUpTo(tx, signers, n).Some? ==>
              forall a :: a in NoncesUpTo(tx, signers, n).value ==> exists i :: 0 <= i < n && signers[i].address == a
  {
    if n > 0 {
      NoncesAre(tx, signers, n - 1);
      if NoncesUpTo(tx, signers, n).Some? {
        forall a, i: nat | LastUnder(signers, n, a, i)
          ensures var m := NoncesUpTo(tx, signers, n).value;
                  a in m && m[a] == if tx.unorderedAt.Some? then tx.unorderedAt.value else signers[i].sequence
        {
          if i < n - 1 { assert LastUnder(signers, n - 1, a, i) && signers[n - 1].address != a; }
        }
      }
    }
  }

  // ---- sorted signers ----------------------------------------------------------------------------------

  function LexOrder(): (f: (Bytes, Bytes) -> bool) { (a: Bytes, b: Bytes) => LexLess(a, b) }

  lemma LexIsOrder()
    ensures TotalOrder(LexOrder())
  {
    forall a: Bytes, b: Bytes | LexLess(a, b) ensures !LexLess(b, a) {
      if LexLess(b, a) {
        LexTransitive(a, b, a);
        LexIrreflexive(a);
      }
    }
    forall a: Bytes, b: Bytes, c: Bytes | !LexLess(a, b) && !LexLess(b, c) ensures !LexLess(a, c) {
      if LexLess(a, c) {
        LexTotal(a, b);
        LexTotal(b, c);
        if LexLess(b, a) { LexTransitive(b, a, c); }
      }
    }
    forall a: Bytes, b: Bytes ensures LexLess(a, b) || LexLess(b, a) || a == b { LexTotal(a, b); }
  }

  /** The signers in byte order. */
  ghost function SortedKeys(keys: set<Bytes>): (s: seq<Bytes>)
    ensures Increasing(s, LexOrder()) && Elements(s) == keys
    ensures forall i :: 0 <= i < |s| ==> s[i] in keys
  {
    LexIsOrder();
    var s := Sorted(keys, LexOrder());
    assert forall i :: 0 <= i < |s| ==> s[i] in Elements(s);
    s
  }

  // ---- keys --------------------------------------------------------------------------------------------

  const BAR: byte := 124

  const SLASH: byte := 47

  /** The pieces joined by '|'. */
  function Join(parts: seq<Bytes>): (r: Bytes)
  {
    if parts == [] then []
    else if |parts| == 1 then parts[0]
    else parts[0] + [BAR] + Join(parts[1..])
  }

  /** The last `width` decimal digits of `n`, zero-padded on the left. */
  function Digits(n: nat, width: nat): (r: Bytes)
    ensures |r| == width
  {
    if width == 0 then [] else Digits(n / 10, width - 1) + [48 + n % 10]
  }

  function Pow10(e: nat): (r: nat)
    ensures r > 0
  {
    if e == 0 then 1 else 10 * Pow10(e - 1)
  }

  /** The digits spell the number, or as much of it as they have room for. */
  lemma {:induction false} DigitsSpell(n: nat, width: nat)
    ensures Numeral(Digits(n, width)) == n % Pow10(width)
  {
    if width > 0 {
      var d := Digits(n, width);
      assert d[..width - 1] == Digits(n / 10, width - 1) && d[width - 1] == 48 + n % 10;
      DigitsSpell(n / 10, width - 1);
      ModTimesTen(n, Pow10(width - 1));
    }
  }

  lemma ModTimesTen(n: nat, p: nat)
    requires p > 0
    ensures n % (10 * p) == 10 * ((n / 10) % p) + n % 10
  {
    var m := n / 10;
    var q, r := m / p, m % p;
    assert n == 10 * m + n % 10 && m == p * q + r && r <= p - 1;
    var low := 10 * r + n % 10;
    assert n == (10 * p) * q + low && 0 <= low < 10 * p;
    RemainderIs(n, 10 * p, q, low);
  }

  lemma RemainderIs(n: nat, d: nat, q: nat, r: nat)
    requires d > 0 && n == d * q + r && r < d
    ensures n % d == r
  {
    DivTimes(n, d);
    var k := n / d;
    if k < q {
      TimesMonotone(k + 1, q, d);
    } else if k > q {
      TimesMonotone(q + 1, k, d);
    }
  }

  /** Within range the digits determine the number. */
  lemma {:induction false} DigitsInjective(m: nat, n: nat, width: nat)
    requires m < Pow10(width) && n < Pow10(width) && Digits(m, width) == Digits(n, width)
    ensures m == n
  {
    if width > 0 {
      var a, b := Digits(m, width), Digits(n, width);
      assert a[..width - 1] == Digits(m / 10, width - 1) && b[..width - 1] == Digits(n / 10, width - 1);
      assert a[width - 1] == 48 + m % 10 && b[width - 1] == 48 + n % 10;
      DigitsInjective(m / 10, n / 10, width - 1);
    }
  }

  lemma TwentyDigitsHoldUint64()
    ensures UINT64 <= Pow10(20)
  {
    assert Pow10(4) == 10000;
    assert Pow10(8) == 10000 * Pow10(4);
    assert Pow10(12) == 10000 * Pow10(8);
    assert Pow10(16) == 10000 * Pow10(12);
    assert Pow10(20) == 10000 * Pow10(16);
  }

  function TxPart(k: Bytes, nonce: nat): (r: Bytes) { k + [SLASH] + Digits(nonce, 20) }

  function TxParts(keys: seq<Bytes>, m: NonceMap): (r: seq<Bytes>)
    requires forall i :: 0 <= i < |keys| ==> keys[i] in m
    ensures |r| == |keys|
  {
    seq(|keys|, i requires 0 <= i < |keys| => TxPart(keys[i], m[keys[i]]))
  }

  ghost function SignerSetKey(m: NonceMap): (r: Bytes) { Join(SortedKeys(m.Keys)) }

  ghost function TxKey(m: NonceMap): (r: Bytes)
  {
    var keys := SortedKeys(m.Keys);
    Join(TxParts(keys, m))
  }

  /** There are signers, all of one length, and every nonce is a 64-bit number. */
  predicate OfLength(m: NonceMap, len: nat)
  {
    m.Keys != {} && forall k :: k in m ==> |k| == len && m[k] < UINT64
  }

  predicate Regular(m: NonceMap) { OfLength(m, SIGNER_LEN) }

  /** Pieces of one length can be read back from their join. */
  lemma {:induction false} JoinInjective(a: seq<Bytes>, b: seq<Bytes>, len: nat)
    requires len > 0
    requires (forall i :: 0 <= i < |a| ==> |a[i]| == len) && (forall i :: 0 <= i < |b| ==> |b[i]| == len)
    requires Join(a) == Join(b)
    ensures a == b
  {
    JoinLength(a, len);
    JoinLength(b, len);
    SameCount(|a|, |b|, len + 1);
    if a != [] {
      assert a[0] == Join(a)[..len] && b[0] == Join(b)[..len];
      if |a| > 1 {
        assert Join(a[1..]) == Join(a)[len + 1..];
        assert Join(b[1..]) == Join(b)[len + 1..];
        JoinInjective(a[1..], b[1..], len);
      }
      assert a == [a[0]] + a[1..] && b == [b[0]] + b[1..];
    }
  }

  lemma SameCount(m: nat, n: nat, len: nat)
    requires len > 1
    requires (if m == 0 then 0 else m * len - 1) == (if n == 0 then 0 else n * len - 1)
    ensures m == n
  {
    assert (m - n) * len == m * len - n * len;
    assert m > 0 ==> m * len >= len;
    assert n > 0 ==> n * len >= len;
  }

  lemma {:induction false} JoinLength(a: seq<Bytes>, len: nat)
    requires forall i :: 0 <= i < |a| ==> |a[i]| == len
    ensures |Join(a)| == if a == [] then 0 else |a| * (len + 1) - 1
  {
    if |a| > 1 { JoinLength(a[1..], len); }
  }

  /** Equal signer-set keys mean equal signer sets, for signers of any one length. */
  lemma SignerSetKeyInjective(a: NonceMap, b: NonceMap, len: nat)
    requires OfLength(a, len) && OfLength(b, len) && SignerSetKey(a) == SignerSetKey(b)
    ensures a.Keys == b.Keys
  {
    if len == 0 {
      var x, y :| x in a && y in b;
      assert a.Keys == {x} && b.Keys == {y};
    } else {
      JoinInjective(SortedKeys(a.Keys), SortedKeys(b.Keys), len);
    }
  }

  /** Equal transaction keys mean the same signers at the same nonces. */
  lemma TxKeyInjective(a: NonceMap, b: NonceMap, len: nat)
    requires OfLength(a, len) && OfLength(b, len) && TxKey(a) == TxKey(b)
    ensures a == b
  {
    hide Join, TxPart, Increasing, LexLess;
    var s, t := SortedKeys(a.Keys), SortedKeys(b.Keys);
    PartsHaveLength(s, a, len);
    PartsHaveLength(t, b, len);
    JoinInjective(TxParts(s, a), TxParts(t, b), len + 21);
    forall i | 0 <= i < |s| ensures s[i] == t[i] && a[s[i]] == b[s[i]] {
      assert TxParts(s, a)[i] == TxParts(t, b)[i];
      TxPartInjective(s[i], a[s[i]], t[i], b[t[i]]);
    }
    assert s == t;
    SameNonces(a, b, s);
  }

  lemma PartsHaveLength(keys: seq<Bytes>, m: NonceMap, len: nat)
    requires forall i :: 0 <= i < |keys| ==> keys[i] in m && |keys[i]| == len
    ensures forall i :: 0 <= i < |keys| ==> |TxParts(keys, m)[i]| == len + 21
  {
  }

  lemma SameNonces(a: NonceMap, b: NonceMap, s: seq<Bytes>)
    requires Elements(s) == a.Keys == b.Keys
    requires forall i :: 0 <= i < |s| ==> s[i] in a && s[i] in b && a[s[i]] == b[s[i]]
    ensures a == b
  {
    forall k | k in a ensures k in b && a[k] == b[k] {
      assert k in Elements(s);
    }
  }

  lemma TxPartInjective(j: Bytes, m: nat, k: Bytes, n: nat)
    requires |j| == |k| && m < UINT64 && n < UINT64 && TxPart(j, m) == TxPart(k, n)
    ensures j == k && m == n
  {
    var p := TxPart(j, m);
    assert j == p[..|j|] && k == p[..|j|];
    assert Digits(m, 20) == p[|j| + 1..] && Digits(n, 20) == p[|j| + 1..];
    TwentyDigitsHoldUint64();
    DigitsInjective(m, n, 20);
  }

  /** Without a fixed signer length the join is ambiguous: "x|y" alone reads like "x" and "y". */
  lemma JoinIsAmbiguous(x: Bytes, y: Bytes)
    ensures Join([x + [BAR] + y]) == Join([x, y])
  {
    assert [x, y][1..] == [y];
  }

  // ---- building the keys -------------------------------------------------------------------------------

  /** Ranging over the map in any order and sorting gives the signers in byte order. */
  method SortedSignerKeys(m: NonceMap) returns (keys: seq<Bytes>)
    ensures keys == SortedKeys(m.Keys)
  {
    LexIsOrder();
    keys := SortKeys(m.Keys, LexOrder());
  }

  lemma {:induction false} JoinSnoc(a: seq<Bytes>, p: Bytes)
    ensures Join(a + [p]) == if a == [] then p else Join(a) + [BAR] + p
  {
    if |a| > 0 {
      JoinSnoc(a[1..], p);
      assert (a + [p])[1..] == a[1..] + [p];
      if |a| == 1 { assert a[1..] == []; }
    }
  }

  /** Writes the parts one after the other, with a '|' before all but the first. */
  method WriteJoined(parts: seq<Bytes>) returns (b: Bytes)
    ensures b == Join(parts)
  {
    b := [];
    for i := 0 to |parts|
      invariant b == Join(parts[..i])
    {
      if i > 0 {
        b := b + [BAR];
      }
      b := b + parts[i];
      JoinSnoc(parts[..i], parts[i]);
      assert parts[..i + 1] == parts[..i] + [parts[i]];
    }
    assert parts[..|parts|] == parts;
  }

  method BuildSignerSetKey(m: NonceMap) returns (b: Bytes)
    ensures b == SignerSetKey(m)
  {
    var keys := SortedSignerKeys(m);
    b := WriteJoined(keys);
  }

  method BuildTxKey(m: NonceMap) returns (b: Bytes)
    ensures b == TxKey(m)
  {
    var keys := SortedSignerKeys(m);
    b := WriteJoined(TxParts(keys, m));
  }

  method NonceMapOf(tx: Tx) returns (r: Option<NonceMap>)
    ensures r == NoncesOf(tx)
  {
    if tx.signers.None? || |tx.signers.value| == 0 {
      return None;
    }
    var signers := tx.signers.value;
    var m: NonceMap := map[];
    for i := 0 to |signers|
      invariant NoncesUpTo(tx, signers, i) == Some(m)
    {
      var nonce := ChooseNonce(signers[i].sequence, tx);
      if nonce.None? {
        NoncesFail(tx, signers, i + 1, |signers|);
        return None;
      }
      m := m[signers[i].address := nonce.value];
    }
    return Some(m);
  }

  lemma {:induction false} NoncesFail(tx: Tx, signers: seq<Signer>, i: nat, n: nat)
    requires i <= n <= |signers| && NoncesUpTo(tx, signers, i).None?
    ensures NoncesUpTo(tx, signers, n).None?
  {
    if i < n { NoncesFail(tx, signers, i, n - 1); }
  }
}
