/** The generated protobuf codec of ExtensionOptionsWeb3Tx: an encoder that fills its buffer backwards, and a
    decoder that moves a cursor over arbitrary bytes. */
module Web3Codec {
  import opened Basics

  datatype Web3Tx = Web3Tx(typedDataChainID: nat, feePayer: Bytes, feePayerSig: Bytes)

  datatype Error = IntOverflow | InvalidLength | UnexpectedEOF | UnexpectedEndOfGroup | BadTag | BadWireType

  const TWO32 := 0x1_0000_0000

  /** No byte slice comes near this length. */
  const MAX_LEN := 0x4000_0000_0000_0000

  predicate Encodable(m: Web3Tx)
  {
    m.typedDataChainID < UINT64 && |m.feePayer| < MAX_LEN && |m.feePayerSig| < MAX_LEN
  }

  // ---- varints ------------------------------------------------------------------------------------------

  /** Base 128, least significant group first, every byte but the last with its top bit set. */
  function Varint(v: nat): (r: Bytes)
    ensures |r| > 0
  {
    if v < 128 then [v] else [v % 128 + 128] + Varint(v / 128)
  }

  function BitLen(x: nat): (n: nat) { if x == 0 then 0 else 1 + BitLen(x / 2) }

  /** x | 1 */
  function Or1(x: nat): (r: nat) { if x % 2 == 0 then x + 1 else x }

  /** The number of bytes of a varint, as computed from its bit length. */
  function Sov(x: nat): (n: nat) { (BitLen(Or1(x)) + 6) / 7 }

  lemma BitLenOr1(x: nat)
    requires x > 0
    ensures BitLen(Or1(x)) == BitLen(x)
  {
    assert Or1(x) / 2 == x / 2;
  }

  lemma BitLenDiv128(x: nat)
    requires x >= 128
    ensures BitLen(x) == BitLen(x / 128) + 7
  {
    assert BitLen(x) == 2 + BitLen(x / 2 / 2);
    assert x / 2 / 2 == x / 4;
    assert BitLen(x / 4) == 2 + BitLen(x / 4 / 2 / 2);
    assert x / 4 / 2 / 2 == x / 16;
    assert BitLen(x / 16) == 2 + BitLen(x / 16 / 2 / 2);
    assert x / 16 / 2 / 2 == x / 64;
    assert x / 64 / 2 == x / 128;
  }

  lemma BitLenSmall(x: nat)
    requires 0 < x < 128
    ensures 1 <= BitLen(x) <= 7
  {
    assert BitLen(x / 2 / 2 / 2 / 2 / 2 / 2 / 2) == 0;
    assert BitLen(x / 2 / 2 / 2 / 2 / 2) <= 2;
    assert BitLen(x / 2 / 2 / 2) <= 4;
    assert BitLen(x / 2) <= 6;
  }

  /** The size computed from the bit length is the size of the encoding. */
  lemma {:induction false} SovIsLength(v: nat)
    ensures Sov(v) == |Varint(v)|
  {
    if v < 128 {
      BitLenSmall(Or1(v));
    } else {
      SovIsLength(v / 128);
      BitLenOr1(v);
      BitLenOr1(v / 128);
      BitLenDiv128(v);
    }
  }

  function Pow2(n: nat): (r: nat)
    ensures r >= 1
  {
    if n == 0 then 1 else 2 * Pow2(n - 1)
  }

  lemma WrapSmall(n: nat)
    requires n < UINT64
    ensures Wrap64(n) == n
  {}

  /** Reading a varint at `i`: the groups are shifted into a 64-bit word, what does not fit is lost, and more than
      ten bytes are refused. */
  function ReadVarint(data: Bytes, i: nat, shift: nat, acc: nat): (r: Result<(nat, nat), Error>)
    requires i <= |data|
    ensures r.Ok? ==> i < r.value.1 <= |data|
    ensures r.Ok? && acc < UINT64 ==> r.value.0 < UINT64
    decreases |data| - i
  {
    if shift >= 64 then Err(IntOverflow)
    else if i >= |data| then Err(UnexpectedEOF)
    else
      var b := data[i];
      var word := Wrap64(acc + (b % 128) * Pow2(shift));
      if b < 128 then Ok((word, i + 1)) else ReadVarint(data, i + 1, shift + 7, word)
  }

  /** Reading back a varint gives the number and stops right behind it. */
  lemma {:induction false} ReadVarintBack(data: Bytes, i: nat, shift: nat, acc: nat, v: nat)
    requires i <= |data| && Varint(v) <= data[i..] && shift < 64
    requires acc + v * Pow2(shift) < UINT64
    ensures ReadVarint(data, i, shift, acc) == Ok((acc + v * Pow2(shift), i + |Varint(v)|))
    decreases v
  {
    hide Pow2, ReadVarint;
    var e := Varint(v);
    assert data[i] == data[i..][0] == e[0];
    if v >= 128 {
      var hi, lo, p := v / 128, v % 128, Pow2(shift);
      Pow2Plus7(shift);
      SplitProduct(v, p);
      ShiftStays(hi, shift);
      assert e[1..] == Varint(hi) && data[i + 1..] == data[i..][1..];
      ReadStep(data, i, shift, acc, lo, p);
      ReadVarintBack(data, i + 1, shift + 7, acc + lo * p, hi);
    } else {
      ReadLast(data, i, shift, acc, v, Pow2(shift));
    }
  }

  lemma ReadStep(data: Bytes, i: nat, shift: nat, acc: nat, lo: nat, p: nat)
    requires i < |data| && shift < 64 && p == Pow2(shift) && lo < 128 && data[i] == lo + 128 && acc + lo * p < UINT64
    ensures ReadVarint(data, i, shift, acc) == ReadVarint(data, i + 1, shift + 7, acc + lo * p)
  {
    hide Wrap64, Pow2;
    assert data[i] % 128 == lo;
    WrapSmall(acc + lo * p);
  }

  lemma ReadLast(data: Bytes, i: nat, shift: nat, acc: nat, v: nat, p: nat)
    requires i < |data| && shift < 64 && p == Pow2(shift) && v < 128 && data[i] == v && acc + v * p < UINT64
    ensures ReadVarint(data, i, shift, acc) == Ok((acc + v * p, i + 1))
  {
    hide Wrap64, Pow2;
    assert data[i] % 128 == v;
    WrapSmall(acc + v * p);
  }

  lemma SplitProduct(v: nat, p: nat)
    ensures v * p == (v % 128) * p + (v / 128) * (128 * p)
    ensures 0 <= (v % 128) * p <= v * p
  {
    var hi, lo := v / 128, v % 128;
    assert v == 128 * hi + lo;
    assert (128 * hi + lo) * p == (128 * hi) * p + lo * p;
    assert (128 * hi) * p == hi * (128 * p);
    assert 0 <= hi * (128 * p);
  }

  /** As long as groups follow, the shift stays below the word size. */
  lemma ShiftStays(hi: nat, shift: nat)
    requires hi >= 1 && hi * Pow2(shift + 7) < UINT64
    ensures shift + 7 < 64
  {
    MulAtLeast(hi, Pow2(shift + 7));
    Pow64();
    if shift + 7 >= 64 { Pow2Grows(64, shift + 7); }
  }

  lemma MulAtLeast(a: nat, b: nat)
    requires a >= 1
    ensures a * b >= b
  {}

  lemma Pow2Plus7(n: nat)
    ensures Pow2(n + 7) == 128 * Pow2(n)
  {
    assert Pow2(n + 2) == 4 * Pow2(n);
    assert Pow2(n + 4) == 4 * Pow2(n + 2);
    assert Pow2(n + 6) == 4 * Pow2(n + 4);
  }

  lemma {:induction false} Pow2Grows(m: nat, n: nat)
    requires m <= n
    ensures Pow2(m) <= Pow2(n)
  {
    if m < n { Pow2Grows(m, n - 1); }
  }

  lemma Pow64()
    ensures Pow2(64) == UINT64
  {
    assert Pow2(1) == 2;
    hide Pow2;
    Pow2Plus7(1); Pow2Plus7(8); Pow2Plus7(15);
    assert Pow2(22) == 0x40_0000;
    Pow2Plus7(22); Pow2Plus7(29); Pow2Plus7(36);
    assert Pow2(43) == 0x800_0000_0000;
    Pow2Plus7(43); Pow2Plus7(50); Pow2Plus7(57);
  }

  // ---- encoding -----------------------------------------------------------------------------------------

  /** A length-delimited field; proto3 leaves an empty one out. */
  function Chunk(tag: byte, b: Bytes): (r: Bytes) { if b == [] then [] else [tag] + Varint(|b|) + b }

  function ChainField(v: nat): (r: Bytes) { if v == 0 then [] else [8] + Varint(v) }

  /** The wire form, read forwards. */
  function Encode(m: Web3Tx): (r: Bytes)
  {
    ChainField(m.typedDataChainID) + Chunk(0x12, m.feePayer) + Chunk(0x1a, m.feePayerSig)
  }

  function Size(m: Web3Tx): (n: nat)
  {
    (if m.typedDataChainID != 0 then 1 + Sov(m.typedDataChainID) else 0) +
    (if |m.feePayer| > 0 then 1 + |m.feePayer| + Sov(|m.feePayer|) else 0) +
    (if |m.feePayerSig| > 0 then 1 + |m.feePayerSig| + Sov(|m.feePayerSig|) else 0)
  }

  /** The announced size is the size of the wire form. */
  lemma SizeIsLength(m: Web3Tx)
    ensures Size(m) == |Encode(m)|
  {
    SovIsLength(m.typedDataChainID);
    SovIsLength(|m.feePayer|);
    SovIsLength(|m.feePayerSig|);
  }

  /** The buffer holds `s` from `i` on. */
  predicate At(buf: Bytes, i: nat, s: Bytes)
  {
    i + |s| <= |buf| && forall k :: 0 <= k < |s| ==> buf[i + k] == s[k]
  }

  /** Two contents of a buffer agree outside of a range. */
  predicate SameOutside(a: Bytes, b: Bytes, lo: nat, hi: nat)
  {
    |a| == |b| && forall k :: 0 <= k < |a| && (k < lo || hi <= k) ==> a[k] == b[k]
  }

  lemma AtConcat(buf: Bytes, i: nat, s: Bytes, t: Bytes)
    requires At(buf, i, s) && At(buf, i + |s|, t)
    ensures At(buf, i, s + t)
  {
    forall k | 0 <= k < |s + t| ensures buf[i + k] == (s + t)[k] {
      if k >= |s| { assert buf[i + |s| + (k - |s|)] == t[k - |s|]; }
    }
  }

  /** What lies behind a written range stays. */
  lemma AtKept(a: Bytes, b: Bytes, lo: nat, hi: nat, s: Bytes)
    requires SameOutside(a, b, lo, hi) && At(a, hi, s)
    ensures At(b, hi, s)
  {
    forall k | 0 <= k < |s| ensures b[hi + k] == s[k] { assert a[hi + k] == b[hi + k]; }
  }

  /** A byte, and something behind it, written in front of what is there: the three are now in sequence. */
  lemma PrependTagged(a: Bytes, b: Bytes, c: Bytes, lo: nat, hi: nat, tag: byte, s: Bytes, t: Bytes)
    requires lo >= 1 && At(a, hi, t) && SameOutside(a, b, lo, hi) && At(b, lo, s) && lo + |s| == hi
    requires lo <= |b| && c == b[lo - 1 := tag]
    ensures At(c, lo - 1, [tag] + s + t) && SameOutside(a, c, lo - 1, hi)
  {
    AtKept(a, b, lo, hi, t);
    AtConcat(b, lo, s, t);
    assert At(c, lo - 1, [tag]);
    forall k | 0 <= k < |s + t| ensures c[lo + k] == (s + t)[k] { assert b[lo + k] == (s + t)[k]; }
    AtConcat(c, lo - 1, [tag], s + t);
    assert [tag] + (s + t) == [tag] + s + t;
  }

  lemma OutsideCompose(a: Bytes, b: Bytes, c: Bytes, lo: nat, mid: nat, hi: nat)
    requires SameOutside(a, b, mid, hi) && SameOutside(b, c, lo, mid) && lo <= mid <= hi
    ensures SameOutside(a, c, lo, hi)
  {}

  /** Writes the varint so that it ends just before `offset`, and returns where it begins. */
  method EncodeVarint(dAtA: array<byte>, offset: nat, v: nat) returns (base: nat)
    requires Sov(v) <= offset <= dAtA.Length
    modifies dAtA
    ensures base == offset - Sov(v) && At(dAtA[..], base, Varint(v)) && |Varint(v)| == Sov(v)
    ensures SameOutside(old(dAtA[..]), dAtA[..], base, offset)
  {
    hide Sov;
    SovIsLength(v);
    var o := offset - Sov(v);
    base := o;
    var rest := v;
    ghost var done: Bytes := [];
    while rest >= 128
      invariant o == base + |done| && done + Varint(rest) == Varint(v)
      invariant At(dAtA[..], base, done)
      invariant SameOutside(old(dAtA[..]), dAtA[..], base, offset)
    {
      dAtA[o] := rest % 128 + 128;
      done := done + [rest % 128 + 128];
      assert done + Varint(rest / 128) == Varint(v);
      rest := rest / 128;
      o := o + 1;
    }
    dAtA[o] := rest;
    assert done + [rest] == Varint(v);
  }

  /** Copies `src` into the buffer so that it ends just before `end`. */
  method CopyBefore(dAtA: array<byte>, end: nat, src: Bytes) returns (i: nat)
    requires |src| <= end <= dAtA.Length
    modifies dAtA
    ensures i == end - |src| && At(dAtA[..], i, src) && SameOutside(old(dAtA[..]), dAtA[..], i, end)
  {
    i := end - |src|;
    for k := 0 to |src|
      invariant At(dAtA[..], i, src[..k]) && SameOutside(old(dAtA[..]), dAtA[..], i, end)
    {
      dAtA[i + k] := src[k];
    }
    assert src[..|src|] == src;
  }

  method WriteByte(dAtA: array<byte>, i: nat, b: byte)
    requires i < dAtA.Length
    modifies dAtA
    ensures dAtA[..] == old(dAtA[..])[i := b]
  {
    dAtA[i] := b;
  }

  /** Writes one length-delimited field before `end`. */
  method ChunkBefore(dAtA: array<byte>, end: nat, tag: byte, src: Bytes) returns (i: nat)
    requires |Chunk(tag, src)| <= end <= dAtA.Length
    modifies dAtA
    ensures i == end - |Chunk(tag, src)| && At(dAtA[..], i, Chunk(tag, src))
    ensures SameOutside(old(dAtA[..]), dAtA[..], i, end)
  {
    if |src| == 0 {
      return end;
    }
    hide Sov, Varint, At, SameOutside;
    SovIsLength(|src|);
    ghost var a := dAtA[..];
    i := CopyBefore(dAtA, end, src);
    ghost var b, j := dAtA[..], i;
    i := EncodeVarint(dAtA, i, |src|);
    ghost var c := dAtA[..];
    WriteByte(dAtA, i - 1, tag);
    PrependTagged(b, c, dAtA[..], i, j, tag, Varint(|src|), src);
    i := i - 1;
    OutsideCompose(a, b, dAtA[..], i, j, end);
  }

  /** Fills the end of the buffer from the last field to the first. */
  method MarshalToSizedBuffer(m: Web3Tx, dAtA: array<byte>) returns (n: nat)
    requires Size(m) <= dAtA.Length
    modifies dAtA
    ensures n == Size(m) && At(dAtA[..], dAtA.Length - n, Encode(m))
    ensures SameOutside(old(dAtA[..]), dAtA[..], dAtA.Length - n, dAtA.Length)
  {
    EncodeSplits(m);
    hide Sov, Varint, Chunk, Size, At, SameOutside, Encode;
    ghost var a, end, sig, payer := dAtA[..], dAtA.Length, Chunk(0x1a, m.feePayerSig), Chunk(0x12, m.feePayer);
    var i := ChunkBefore(dAtA, dAtA.Length, 0x1a, m.feePayerSig);
    ghost var b, j := dAtA[..], i;
    i := ChunkBefore(dAtA, i, 0x12, m.feePayer);
    ghost var c, k := dAtA[..], i;
    AtKept(b, c, k, j, sig);
    AtConcat(c, k, payer, sig);
    OutsideCompose(a, b, c, k, j, end);
    if m.typedDataChainID != 0 {
      SovIsLength(m.typedDataChainID);
      i := EncodeVarint(dAtA, i, m.typedDataChainID);
      ghost var d := dAtA[..];
      WriteByte(dAtA, i - 1, 8);
      PrependTagged(c, d, dAtA[..], i, k, 8, Varint(m.typedDataChainID), payer + sig);
      i := i - 1;
      OutsideCompose(a, c, dAtA[..], i, k, end);
    }
    n := dAtA.Length - i;
  }

  lemma EncodeSplits(m: Web3Tx)
    ensures var rest := Chunk(0x12, m.feePayer) + Chunk(0x1a, m.feePayerSig);
            && Size(m) == |Encode(m)|
            && Encode(m) == if m.typedDataChainID == 0 then rest else [8] + Varint(m.typedDataChainID) + rest
  {
    hide Chunk, Varint, Sov, Size;
    SizeIsLength(m);
    ConcatAssociates(ChainField(m.typedDataChainID), Chunk(0x12, m.feePayer), Chunk(0x1a, m.feePayerSig));
  }

  lemma ConcatAssociates(a: Bytes, b: Bytes, c: Bytes)
    ensures a + b + c == a + (b + c)
    ensures a == [] ==> a + b + c == b + c
  {}

  method Marshal(m: Web3Tx) returns (r: Bytes)
    ensures r == Encode(m) && |r| == Size(m)
  {
    var size := Size(m);
    SizeIsLength(m);
    var dAtA := new byte[size](_ => 0);
    var n := MarshalToSizedBuffer(m, dAtA);
    r := dAtA[..n];
    assert forall k :: 0 <= k < n ==> dAtA[..][0 + k] == Encode(m)[k];
  }

  // ---- decoding -------------------------------------------------------------------------------------------

  /** uint64 to int */
  function ToInt(u: nat): (r: int)
    requires u < UINT64
    ensures 0 - INT64 <= r < INT64
  {
    if u >= INT64 then u - UINT64 else u
  }

  /** Signed 64-bit addition of two non-negative numbers. */
  function AddInt(a: int, b: int): (r: int)
    requires 0 <= a < INT64 && 0 <= b < INT64
    ensures 0 - INT64 <= r < INT64
    ensures r >= 0 ==> r == a + b
  {
    if a + b >= INT64 then a + b - UINT64 else a + b
  }

  /** int32(wire >> 3) */
  function FieldNum(wire: nat): (r: int)
  {
    var w := (wire / 8) % TWO32;
    if w >= TWO32 / 2 then w - TWO32 else w
  }

  /** Skips one unknown field, groups included; the end may lie beyond the data, which the caller checks. */
  function SkipFrom(data: Bytes, i: nat, depth: nat): (r: Result<nat, Error>)
    requires |data| < MAX_LEN
    ensures r.Ok? ==> r.value > i
    decreases if i < |data| then |data| - i else 0
  {
    if i >= |data| then Err(UnexpectedEOF)
    else
      match ReadVarint(data, i, 0, 0)
      case Err(e) => Err(e)
      case Ok((wire, j)) =>
        match wire % 8
        case 0 =>
          (match ReadVarint(data, j, 0, 0)
           case Err(e) => Err(e)
           case Ok((_, k)) => if depth == 0 then Ok(k) else SkipFrom(data, k, depth))
        case 1 => if depth == 0 then Ok(j + 8) else SkipFrom(data, j + 8, depth)
        case 2 =>
          (match ReadVarint(data, j, 0, 0)
           case Err(e) => Err(e)
           case Ok((len, k)) =>
             if ToInt(len) < 0 then Err(InvalidLength)
             else if AddInt(k, ToInt(len)) < 0 then Err(InvalidLength)
             else if depth == 0 then Ok(AddInt(k, ToInt(len)))
             else SkipFrom(data, AddInt(k, ToInt(len)), depth))
        case 3 => SkipFrom(data, j, depth + 1)
        case 4 =>
          if depth == 0 then Err(UnexpectedEndOfGroup)
          else if depth == 1 then Ok(j)
          else SkipFrom(data, j, depth - 1)
        case 5 => if depth == 0 then Ok(j + 4) else SkipFrom(data, j + 4, depth)
        case _ => Err(BadWireType)
  }

  /** The bytes of a length-delimited field at `j`, and where they end. */
  function ReadChunk(data: Bytes, j: nat): (r: Result<(Bytes, nat), Error>)
    requires j <= |data| < MAX_LEN
    ensures r.Ok? ==> j < r.value.1 <= |data|
  {
    match ReadVarint(data, j, 0, 0)
    case Err(e) => Err(e)
    case Ok((len, k)) =>
      if ToInt(len) < 0 then Err(InvalidLength)
      else
        var post := AddInt(k, ToInt(len));
        if post < 0 then Err(InvalidLength)
        else if post > |data| then Err(UnexpectedEOF)
        else Ok((data[k..post], post))
  }

  /** One field at `i`: the message with the field set, and the cursor behind it. */
  function DecodeField(data: Bytes, i: nat, m: Web3Tx): (r: Result<(Web3Tx, nat), Error>)
    requires i < |data| < MAX_LEN
    ensures r.Ok? ==> i < r.value.1 <= |data|
  {
    match ReadVarint(data, i, 0, 0)
    case Err(e) => Err(e)
    case Ok((wire, j)) =>
      if wire % 8 == 4 then Err(BadTag)
      else if FieldNum(wire) <= 0 then Err(BadTag)
      else if FieldNum(wire) == 1 then
        if wire % 8 != 0 then Err(BadWireType)
        else
          (match ReadVarint(data, j, 0, 0)
           case Err(e) => Err(e)
           case Ok((v, k)) => Ok((m.(typedDataChainID := v), k)))
      else if FieldNum(wire) == 2 || FieldNum(wire) == 3 then
        if wire % 8 != 2 then Err(BadWireType)
        else
          (match ReadChunk(data, j)
           case Err(e) => Err(e)
           case Ok((b, k)) =>
             Ok((if FieldNum(wire) == 2 then m.(feePayer := b) else m.(feePayerSig := b), k)))
      else
        match SkipFrom(data[i..], 0, 0)
        case Err(e) => Err(e)
        case Ok(n) =>
          if i + n >= INT64 then Err(InvalidLength)
          else if i + n > |data| then Err(UnexpectedEOF)
          else Ok((m, i + n))
  }

  /** Decoding from `i` on: later fields override earlier ones, unknown ones are skipped. */
  function DecodeFrom(data: Bytes, i: nat, m: Web3Tx): (r: Result<Web3Tx, Error>)
    requires i <= |data| < MAX_LEN
    decreases |data| - i
  {
    if i == |data| then Ok(m)
    else
      match DecodeField(data, i, m)
      case Err(e) => Err(e)
      case Ok((n, k)) => DecodeFrom(data, k, n)
  }

  const EMPTY := Web3Tx(0, [], [])

  // ---- round trip -------------------------------------------------------------------------------------------

  /** A varint of a 64-bit number is read back where it stands. */
  lemma VarintAt(data: Bytes, i: nat, v: nat)
    requires i <= |data| && Varint(v) <= data[i..] && v < UINT64
    ensures ReadVarint(data, i, 0, 0) == Ok((v, i + |Varint(v)|))
  {
    ReadVarintBack(data, i, 0, 0, v);
  }

  lemma TagAt(data: Bytes, i: nat, tag: byte)
    requires i < |data| && data[i] == tag < 128
    ensures ReadVarint(data, i, 0, 0) == Ok((tag as nat, i + 1))
  {
    assert Varint(tag) == [tag];
    assert data[i..][0] == tag;
    VarintAt(data, i, tag);
  }

  lemma DecodeChain(data: Bytes, i: nat, m: Web3Tx, v: nat)
    requires i <= |data| < MAX_LEN && v < UINT64 && [8] + Varint(v) <= data[i..]
    ensures DecodeFrom(data, i, m) == DecodeFrom(data, i + 1 + |Varint(v)|, m.(typedDataChainID := v))
  {
    hide Varint, ReadVarint;
    assert data[i] == data[i..][0] == 8;
    TagAt(data, i, 8);
    assert data[i + 1..] == data[i..][1..];
    assert Varint(v) == ([8] + Varint(v))[1..];
    VarintAt(data, i + 1, v);
  }

  lemma DecodeChunk(data: Bytes, i: nat, m: Web3Tx, tag: byte, b: Bytes)
    requires i <= |data| < MAX_LEN && |b| < MAX_LEN && b != [] && (tag == 0x12 || tag == 0x1a)
    requires Chunk(tag, b) <= data[i..]
    ensures DecodeFrom(data, i, m)
         == DecodeFrom(data, i + |Chunk(tag, b)|, if tag == 0x12 then m.(feePayer := b) else m.(feePayerSig := b))
  {
    hide Varint, ReadVarint, ReadChunk;
    var c := Chunk(tag, b);
    assert data[i] == data[i..][0] == c[0] == tag;
    TagAt(data, i, tag);
    assert data[i + 1..] == data[i..][1..];
    assert c[1..] == Varint(|b|) + b;
    ReadChunkAt(data, i + 1, b);
  }

  lemma ReadChunkAt(data: Bytes, j: nat, b: Bytes)
    requires j <= |data| < MAX_LEN && |b| < MAX_LEN && Varint(|b|) + b <= data[j..]
    ensures ReadChunk(data, j) == Ok((b, j + |Varint(|b|)| + |b|))
  {
    hide Varint, ReadVarint;
    var s := Varint(|b|);
    assert s <= s + b <= data[j..];
    VarintAt(data, j, |b|);
    var k := j + |s|;
    assert data[j..][..|s| + |b|] == s + b;
    assert data[k..k + |b|] == data[j..][..|s| + |b|][|s|..];
    assert (s + b)[|s|..] == b;
  }

  /** The same for a field that may have been left out. */
  lemma FieldChain(data: Bytes, i: nat, v: nat)
    requires i <= |data| < MAX_LEN && v < UINT64 && ChainField(v) <= data[i..]
    ensures DecodeFrom(data, i, EMPTY) == DecodeFrom(data, i + |ChainField(v)|, EMPTY.(typedDataChainID := v))
  {
    hide Varint, DecodeFrom;
    if v != 0 { DecodeChain(data, i, EMPTY, v); }
  }

  lemma FieldChunk(data: Bytes, i: nat, m: Web3Tx, tag: byte, b: Bytes)
    requires i <= |data| < MAX_LEN && |b| < MAX_LEN && (tag == 0x12 || tag == 0x1a) && Chunk(tag, b) <= data[i..]
    requires if tag == 0x12 then m.feePayer == [] else m.feePayerSig == []
    ensures DecodeFrom(data, i, m)
         == DecodeFrom(data, i + |Chunk(tag, b)|, if tag == 0x12 then m.(feePayer := b) else m.(feePayerSig := b))
  {
    hide Varint, DecodeFrom;
    if b != [] { DecodeChunk(data, i, m, tag, b); }
  }

  lemma ThreeParts(a: Bytes, b: Bytes, c: Bytes)
    ensures var d := a + b + c; a <= d[0..] && b <= d[|a|..] && c <= d[|a| + |b|..]
  {
    var d := a + b + c;
    assert d[0..] == a + (b + c);
    assert d[|a|..] == b + c;
    assert d[|a| + |b|..] == c;
  }

  /** Decoding an encoding gives the message back. */
  lemma RoundTrip(m: Web3Tx)
    requires Encodable(m) && |Encode(m)| < MAX_LEN
    ensures DecodeFrom(Encode(m), 0, EMPTY) == Ok(m)
  {
    hide Varint, DecodeFrom, Chunk, ChainField;
    var f1, f2, f3 := ChainField(m.typedDataChainID), Chunk(0x12, m.feePayer), Chunk(0x1a, m.feePayerSig);
    ThreeParts(f1, f2, f3);
    FieldChain(Encode(m), 0, m.typedDataChainID);
    FieldChunk(Encode(m), |f1|, EMPTY.(typedDataChainID := m.typedDataChainID), 0x12, m.feePayer);
    FieldChunk(Encode(m), |f1| + |f2|, m.(feePayerSig := []), 0x1a, m.feePayerSig);
    DecodeEnd(Encode(m), m);
  }

  lemma DecodeEnd(data: Bytes, m: Web3Tx)
    requires |data| < MAX_LEN
    ensures DecodeFrom(data, |data|, m) == Ok(m)
  {}

  // ---- any well-formed input ----------------------------------------------------------------------------------

  /** A field of any type; a group holds fields of its own. */
  datatype Unknown =
    | AsVarint(num: nat, v: nat)
    | AsFixed64(num: nat, raw: Bytes)
    | AsBytes(num: nat, raw: Bytes)
    | AsGroup(num: nat, fields: seq<Unknown>)
    | AsFixed32(num: nat, raw: Bytes)

  const MAX_FIELD := 0x2000_0000

  predicate WellFormed(u: Unknown)
  {
    u.num < MAX_FIELD &&
    match u
    case AsVarint(_, v) => v < UINT64
    case AsFixed64(_, raw) => |raw| == 8
    case AsBytes(_, raw) => |raw| < MAX_LEN
    case AsGroup(_, fields) => forall i :: 0 <= i < |fields| ==> WellFormed(fields[i])
    case AsFixed32(_, raw) => |raw| == 4
  }

  function Tag(num: nat, wireType: nat): (r: Bytes) { Varint(num * 8 + wireType) }

  function EncodeUnknown(u: Unknown): (r: Bytes)
    ensures |r| > 0
    decreases u, 0
  {
    match u
    case AsVarint(num, v) => Tag(num, 0) + Varint(v)
    case AsFixed64(num, raw) => Tag(num, 1) + raw
    case AsBytes(num, raw) => Tag(num, 2) + (Varint(|raw|) + raw)
    case AsGroup(num, fields) => Tag(num, 3) + (EncodeUnknowns(fields, |fields|) + Tag(num, 4))
    case AsFixed32(num, raw) => Tag(num, 5) + raw
  }

  function EncodeUnknowns(fields: seq<Unknown>, n: nat): (r: Bytes)
    requires n <= |fields|
    decreases fields, n
  {
    if n == 0 then [] else EncodeUnknowns(fields, n - 1) + EncodeUnknown(fields[n - 1])
  }

  lemma Prefixes(data: Bytes, i: nat, a: Bytes, b: Bytes)
    requires i <= |data| && a + b <= data[i..]
    ensures a <= data[i..] && i + |a| <= |data| && b <= data[i + |a|..] && i + |a| + |b| <= |data|
  {
    assert (a + b)[..|a|] == a;
    assert data[i + |a|..] == data[i..][|a|..];
    assert (a + b)[|a|..] == b;
  }

  lemma TagReads(data: Bytes, i: nat, num: nat, wireType: nat)
    requires i <= |data| && num < MAX_FIELD && wireType < 8 && Tag(num, wireType) <= data[i..]
    ensures ReadVarint(data, i, 0, 0) == Ok((num * 8 + wireType, i + |Tag(num, wireType)|))
    ensures (num * 8 + wireType) % 8 == wireType && FieldNum(num * 8 + wireType) == num
  {
    hide Varint, ReadVarint;
    VarintAt(data, i, num * 8 + wireType);
  }

  /** Outside of a group, skipping stops behind the field; inside, it goes on there. */
  ghost predicate Skips(data: Bytes, i: nat, depth: nat, to: nat)
    requires |data| < MAX_LEN
  {
    SkipFrom(data, i, depth) == if depth == 0 then Ok(to) else SkipFrom(data, to, depth)
  }

  lemma {:induction false} SkipsField(data: Bytes, i: nat, depth: nat, u: Unknown)
    requires i <= |data| < MAX_LEN && WellFormed(u) && EncodeUnknown(u) <= data[i..]
    ensures Skips(data, i, depth, i + |EncodeUnknown(u)|)
    decreases u, 1
  {
    if u.AsGroup? {
      SkipsGroup(data, i, depth, u);
    } else {
      SkipsScalar(data, i, depth, u);
    }
  }

  lemma SkipsScalar(data: Bytes, i: nat, depth: nat, u: Unknown)
    requires i <= |data| < MAX_LEN && WellFormed(u) && !u.AsGroup? && EncodeUnknown(u) <= data[i..]
    ensures Skips(data, i, depth, i + |EncodeUnknown(u)|)
  {
    hide Varint, ReadVarint;
    match u
    case AsVarint(num, v) =>
      Prefixes(data, i, Tag(num, 0), Varint(v));
      TagReads(data, i, num, 0);
      VarintAt(data, i + |Tag(num, 0)|, v);
    case AsFixed64(num, raw) =>
      Prefixes(data, i, Tag(num, 1), raw);
      TagReads(data, i, num, 1);
    case AsBytes(num, raw) =>
      Prefixes(data, i, Tag(num, 2), Varint(|raw|) + raw);
      Prefixes(data, i + |Tag(num, 2)|, Varint(|raw|), raw);
      TagReads(data, i, num, 2);
      VarintAt(data, i + |Tag(num, 2)|, |raw|);
    case AsFixed32(num, raw) =>
      Prefixes(data, i, Tag(num, 5), raw);
      TagReads(data, i, num, 5);
  }

  lemma {:induction false} SkipsGroup(data: Bytes, i: nat, depth: nat, u: Unknown)
    requires i <= |data| < MAX_LEN && WellFormed(u) && u.AsGroup? && EncodeUnknown(u) <= data[i..]
    ensures Skips(data, i, depth, i + |EncodeUnknown(u)|)
    decreases u, 0
  {
    hide Varint, ReadVarint, EncodeUnknowns, WellFormed;
    var num, fields := u.num, u.fields;
    var open, inner, close := Tag(num, 3), EncodeUnknowns(fields, |fields|), Tag(num, 4);
    assert num < MAX_FIELD by { InGroup(u); }
    Prefixes(data, i, open, inner + close);
    Prefixes(data, i + |open|, inner, close);
    TagReads(data, i, num, 3);
    InGroup(u);
    SkipsFields(data, i + |open|, depth + 1, fields, |fields|);
    TagReads(data, i + |open| + |inner|, num, 4);
    assert SkipFrom(data, i, depth) == SkipFrom(data, i + |open|, depth + 1);
  }

  lemma InGroup(u: Unknown)
    requires WellFormed(u) && u.AsGroup?
    ensures u.num < MAX_FIELD && forall k :: 0 <= k < |u.fields| ==> WellFormed(u.fields[k])
  {
  }

  lemma {:induction false} SkipsFields(data: Bytes, i: nat, depth: nat, fields: seq<Unknown>, n: nat)
    requires i <= |data| < MAX_LEN && depth > 0 && n <= |fields| && EncodeUnknowns(fields, n) <= data[i..]
    requires forall k :: 0 <= k < |fields| ==> WellFormed(fields[k])
    ensures SkipFrom(data, i, depth) == SkipFrom(data, i + |EncodeUnknowns(fields, n)|, depth)
    decreases fields, n
  {
    hide EncodeUnknown, SkipFrom, WellFormed;
    if n > 0 {
      var most := EncodeUnknowns(fields, n - 1);
      Prefixes(data, i, most, EncodeUnknown(fields[n - 1]));
      SkipsFields(data, i, depth, fields, n - 1);
      SkipsField(data, i + |most|, depth, fields[n - 1]);
    }
  }

  /** What a well-formed input is made of: the three known fields and others, in any order and number. */
  datatype Item = ChainID(v: nat) | Payer(raw: Bytes) | Sig(raw: Bytes) | Other(u: Unknown)

  predicate WellFormedItem(it: Item)
  {
    match it
    case ChainID(v) => v < UINT64
    case Payer(raw) => |raw| < MAX_LEN
    case Sig(raw) => |raw| < MAX_LEN
    case Other(u) => WellFormed(u) && u.num > 3
  }

  function EncodeItem(it: Item): (r: Bytes)
    ensures |r| > 0
  {
    match it
    case ChainID(v) => Tag(1, 0) + Varint(v)
    case Payer(raw) => Tag(2, 2) + (Varint(|raw|) + raw)
    case Sig(raw) => Tag(3, 2) + (Varint(|raw|) + raw)
    case Other(u) => EncodeUnknown(u)
  }

  function EncodeItems(items: seq<Item>): (r: Bytes)
  {
    if items == [] then [] else EncodeItem(items[0]) + EncodeItems(items[1..])
  }

  function Apply(m: Web3Tx, it: Item): (r: Web3Tx)
  {
    match it
    case ChainID(v) => m.(typedDataChainID := v)
    case Payer(raw) => m.(feePayer := raw)
    case Sig(raw) => m.(feePayerSig := raw)
    case Other(_) => m
  }

  function ApplyAll(m: Web3Tx, items: seq<Item>): (r: Web3Tx)
    decreases |items|
  {
    if items == [] then m else ApplyAll(Apply(m, items[0]), items[1..])
  }

  /** The fields of a message that are not left out. */
  function ItemsOf(m: Web3Tx): (r: seq<Item>)
  {
    (if m.typedDataChainID == 0 then [] else [ChainID(m.typedDataChainID)]) +
    (if m.feePayer == [] then [] else [Payer(m.feePayer)]) +
    (if m.feePayerSig == [] then [] else [Sig(m.feePayerSig)])
  }

  lemma {:induction false} EncodeItemsConcat(a: seq<Item>, b: seq<Item>)
    ensures EncodeItems(a + b) == EncodeItems(a) + EncodeItems(b)
  {
    hide EncodeItem;
    if a == [] {
      assert a + b == b;
    } else {
      EncodeItemsConcat(a[1..], b);
      assert (a + b)[1..] == a[1..] + b;
    }
  }

  /** An encoding is that of the fields that are not left out: the chain ID as field 1, the fee payer as field 2 and its
      signature as field 3. */
  lemma EncodeIsItems(m: Web3Tx)
    ensures Encode(m) == EncodeItems(ItemsOf(m))
  {
    hide EncodeItems, ChainField, Chunk;
    var a := if m.typedDataChainID == 0 then [] else [ChainID(m.typedDataChainID)];
    var b := if m.feePayer == [] then [] else [Payer(m.feePayer)];
    var c := if m.feePayerSig == [] then [] else [Sig(m.feePayerSig)];
    EncodeItemsConcat(a + b, c);
    EncodeItemsConcat(a, b);
    KnownItems(m.typedDataChainID, m.feePayer);
    KnownItems(m.typedDataChainID, m.feePayerSig);
  }

  lemma KnownItems(v: nat, raw: Bytes)
    ensures ChainField(v) == if v == 0 then EncodeItems([]) else EncodeItems([ChainID(v)])
    ensures Chunk(0x12, raw) == if raw == [] then EncodeItems([]) else EncodeItems([Payer(raw)])
    ensures Chunk(0x1a, raw) == if raw == [] then EncodeItems([]) else EncodeItems([Sig(raw)])
  {
    assert Tag(1, 0) == [8] && Tag(2, 2) == [0x12] && Tag(3, 2) == [0x1a];
    hide Varint, Tag;
    OneItem(ChainID(v));
    OneItem(Payer(raw));
    OneItem(Sig(raw));
    assert [0x12] + Varint(|raw|) + raw == [0x12] + (Varint(|raw|) + raw);
    assert [0x1a] + Varint(|raw|) + raw == [0x1a] + (Varint(|raw|) + raw);
  }

  lemma OneItem(it: Item)
    ensures EncodeItems([it]) == EncodeItem(it) && EncodeItems([]) == []
  {
    hide EncodeItem;
    assert [it][1..] == [];
  }

  lemma DecodesItem(data: Bytes, i: nat, m: Web3Tx, it: Item)
    requires i <= |data| < MAX_LEN && WellFormedItem(it) && EncodeItem(it) <= data[i..]
    ensures DecodeFrom(data, i, m) == DecodeFrom(data, i + |EncodeItem(it)|, Apply(m, it))
  {
    hide Varint, ReadVarint, ReadChunk, SkipFrom, WellFormed;
    match it
    case ChainID(v) =>
      Prefixes(data, i, Tag(1, 0), Varint(v));
      TagReads(data, i, 1, 0);
      VarintAt(data, i + |Tag(1, 0)|, v);
    case Payer(raw) =>
      Prefixes(data, i, Tag(2, 2), Varint(|raw|) + raw);
      TagReads(data, i, 2, 2);
      ReadChunkAt(data, i + |Tag(2, 2)|, raw);
    case Sig(raw) =>
      Prefixes(data, i, Tag(3, 2), Varint(|raw|) + raw);
      TagReads(data, i, 3, 2);
      ReadChunkAt(data, i + |Tag(3, 2)|, raw);
    case Other(u) => DecodesUnknown(data, i, m, u);
  }

  function WireType(u: Unknown): (t: nat)
    ensures t < 8 && t != 4
  {
    match u
    case AsVarint(_, _) => 0
    case AsFixed64(_, _) => 1
    case AsBytes(_, _) => 2
    case AsGroup(_, _) => 3
    case AsFixed32(_, _) => 5
  }

  lemma DecodesUnknown(data: Bytes, i: nat, m: Web3Tx, u: Unknown)
    requires i <= |data| < MAX_LEN && WellFormed(u) && u.num > 3 && EncodeUnknown(u) <= data[i..]
    ensures DecodeFrom(data, i, m) == DecodeFrom(data, i + |EncodeUnknown(u)|, m)
  {
    hide Varint, ReadVarint, SkipFrom;
    StartsWithTag(u);
    assert Tag(u.num, WireType(u)) <= data[i..];
    TagReads(data, i, u.num, WireType(u));
    var rest := data[i..];
    assert rest[0..] == rest;
    SkipsField(rest, 0, 0, u);
  }

  lemma StartsWithTag(u: Unknown)
    ensures Tag(u.num, WireType(u)) <= EncodeUnknown(u)
  {
  }

  /** Decoding any well-formed input applies its fields one after the other: the last of each known field counts, and
      other fields, groups included, are skipped. */
  lemma {:induction false} DecodeIsFold(data: Bytes, i: nat, m: Web3Tx, items: seq<Item>)
    requires i <= |data| < MAX_LEN && data[i..] == EncodeItems(items)
    requires forall k :: 0 <= k < |items| ==> WellFormedItem(items[k])
    ensures DecodeFrom(data, i, m) == Ok(ApplyAll(m, items))
    decreases |items|
  {
    hide EncodeItem, WellFormedItem, DecodeFrom, Apply;
    if items == [] {
      DecodeEnd(data, m);
    } else {
      var first, rest := EncodeItem(items[0]), EncodeItems(items[1..]);
      Prefixes(data, i, first, rest);
      assert data[i + |first|..] == (first + rest)[|first|..];
      DecodesItem(data, i, m, items[0]);
      DecodeIsFold(data, i + |first|, Apply(m, items[0]), items[1..]);
    }
  }

  // ---- the decoder -------------------------------------------------------------------------------------------

  method DecodeVarint(data: Bytes, start: nat) returns (r: Result<(nat, nat), Error>)
    requires start <= |data|
    ensures r == ReadVarint(data, start, 0, 0)
  {
    var word: nat, shift: nat, i: nat := 0, 0, start;
    while true
      invariant start <= i <= |data| && ReadVarint(data, start, 0, 0) == ReadVarint(data, i, shift, word)
      decreases |data| - i
    {
      if shift >= 64 {
        return Err(IntOverflow);
      }
      if i >= |data| {
        return Err(UnexpectedEOF);
      }
      var b := data[i];
      i := i + 1;
      word := Wrap64(word + (b % 128) * Pow2(shift));
      if b < 128 {
        return Ok((word, i));
      }
      shift := shift + 7;
    }
  }

  /** Where an unknown field that starts the data ends. */
  method SkipWeb3(data: Bytes) returns (r: Result<nat, Error>)
    requires |data| < MAX_LEN
    ensures r == SkipFrom(data, 0, 0)
  {
    hide ReadVarint;
    var i: nat, depth: nat := 0, 0;
    while i < |data|
      invariant SkipFrom(data, 0, 0) == SkipFrom(data, i, depth)
      decreases if i < |data| then |data| - i else 0
    {
      var tag := DecodeVarint(data, i);
      if tag.Err? {
        return Err(tag.error);
      }
      var wire, j := tag.value.0, tag.value.1;
      if wire % 8 == 0 {
        var v := DecodeVarint(data, j);
        if v.Err? {
          return Err(v.error);
        }
        i := v.value.1;
      } else if wire % 8 == 1 {
        i := j + 8;
      } else if wire % 8 == 2 {
        var v := DecodeVarint(data, j);
        if v.Err? {
          return Err(v.error);
        }
        var length := ToInt(v.value.0);
        if length < 0 {
          return Err(InvalidLength);
        }
        var end := AddInt(v.value.1, length);
        if end < 0 {
          return Err(InvalidLength);
        }
        i := end;
      } else if wire % 8 == 3 {
        i, depth := j, depth + 1;
      } else if wire % 8 == 4 {
        if depth == 0 {
          return Err(UnexpectedEndOfGroup);
        }
        i, depth := j, depth - 1;
      } else if wire % 8 == 5 {
        i := j + 4;
      } else {
        return Err(BadWireType);
      }
      if depth == 0 {
        return Ok(i);
      }
    }
    return Err(UnexpectedEOF);
  }

  method DecodeBytes(data: Bytes, j: nat) returns (r: Result<(Bytes, nat), Error>)
    requires j <= |data| < MAX_LEN
    ensures r == ReadChunk(data, j)
  {
    var v := DecodeVarint(data, j);
    if v.Err? {
      return Err(v.error);
    }
    var length := ToInt(v.value.0);
    if length < 0 {
      return Err(InvalidLength);
    }
    var post := AddInt(v.value.1, length);
    if post < 0 {
      return Err(InvalidLength);
    }
    if post > |data| {
      return Err(UnexpectedEOF);
    }
    return Ok((data[v.value.1..post], post));
  }

  /** Decodes any bytes: it stays in bounds, moves its cursor with every field, and ends. */
  method Unmarshal(data: Bytes) returns (r: Result<Web3Tx, Error>)
    requires |data| < MAX_LEN
    ensures r == DecodeFrom(data, 0, EMPTY)
  {
    hide ReadVarint, ReadChunk, SkipFrom;
    var m, i := EMPTY, 0;
    while i < |data|
      invariant 0 <= i <= |data| && DecodeFrom(data, 0, EMPTY) == DecodeFrom(data, i, m)
    {
      var tag := DecodeVarint(data, i);
      if tag.Err? {
        return Err(tag.error);
      }
      var wire, j := tag.value.0, tag.value.1;
      var fieldNum := FieldNum(wire);
      if wire % 8 == 4 || fieldNum <= 0 {
        return Err(BadTag);
      }
      if fieldNum == 1 {
        if wire % 8 != 0 {
          return Err(BadWireType);
        }
        var v := DecodeVarint(data, j);
        if v.Err? {
          return Err(v.error);
        }
        m, i := m.(typedDataChainID := v.value.0), v.value.1;
      } else if fieldNum == 2 || fieldNum == 3 {
        if wire % 8 != 2 {
          return Err(BadWireType);
        }
        var b := DecodeBytes(data, j);
        if b.Err? {
          return Err(b.error);
        }
        m := if fieldNum == 2 then m.(feePayer := b.value.0) else m.(feePayerSig := b.value.0);
        i := b.value.1;
      } else {
        var skippy := SkipWeb3(data[i..]);
        if skippy.Err? {
          return Err(skippy.error);
        }
        if i + skippy.value >= INT64 {
          return Err(InvalidLength);
        }
        if i + skippy.value > |data| {
          return Err(UnexpectedEOF);
        }
        i := i + skippy.value;
      }
    }
    return Ok(m);
  }

  /** Marshal and Unmarshal are inverse. */
  method MarshalThenUnmarshal(m: Web3Tx) returns (bz: Bytes, back: Result<Web3Tx, Error>)
    requires Encodable(m) && |Encode(m)| < MAX_LEN
    ensures |bz| == Size(m) && back == Ok(m)
  {
    bz := Marshal(m);
    back := Unmarshal(bz);
    RoundTrip(m);
  }
}
