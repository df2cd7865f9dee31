/**
 * The EIP-712 schema of a message payload: a map from struct names to field lists, grown while the payload is walked.
 */
module Eip712Types {
  import opened Basics

  /** A parsed payload. */
  datatype Json =
    | Null
    | Bool(b: bool)
    | Number(text: string)
    | Str(s: string)
    | Arr(items: seq<Json>)
    | Obj(fields: map<string, Json>)

  datatype Field = Field(name: string, typ: string)

  type Types = map<string, seq<Field>>

  datatype Error = NotAnObject | NoTypeString | TooManyDuplicates

  const ROOT_PREFIX := "_"
  const TYPE_PREFIX := "Type"
  const TX := "Tx"
  const MAX_DUPLICATES := 1000

  function BaseTypes(): Types
  {
    map[
      "EIP712Domain" := [Field("name", "string"), Field("version", "string"), Field("chainId", "uint256"),
                         Field("verifyingContract", "string"), Field("salt", "string")],
      "Tx" := [Field("account_number", "string"), Field("chain_id", "string"), Field("fee", "Fee"),
               Field("memo", "string"), Field("sequence", "string")],
      "Fee" := [Field("amount", "Coin[]"), Field("gas", "string")],
      "Coin" := [Field("denom", "string"), Field("amount", "string")]
    ]
  }

  // ---- names ------------------------------------------------------------------------------------------

  predicate IsDigit(c: char) { '0' <= c <= '9' }

  predicate IsLower(c: char) { 'a' <= c <= 'z' }

  predicate IsLetter(c: char) { IsLower(c) || 'A' <= c <= 'Z' }

  predicate AlphaNum(s: string) { forall i :: 0 <= i < |s| ==> IsLetter(s[i]) || IsDigit(s[i]) }

  /** The characters of identifiers, and the dots between them. */
  predicate PathChars(s: string)
  {
    forall i :: 0 <= i < |s| ==> IsLetter(s[i]) || IsDigit(s[i]) || s[i] == '_' || s[i] == '.'
  }

  predicate Identifier(s: string) { PathChars(s) && '.' !in s }

  /** Bytes of ASCII as text. */
  function Text(b: Bytes): (s: string)
    ensures |s| == |b|
  {
    seq(|b|, i requires 0 <= i < |b| => b[i] as char)
  }

  /** Text as character codes, which compare as the bytes of its UTF-8 form do. */
  function Codes(s: string): (r: seq<int>)
    ensures |r| == |s|
  {
    seq(|s|, i requires 0 <= i < |s| => s[i] as int)
  }

  /** `strings.Split` at one character. */
  function Split(s: string, sep: char): (r: seq<string>)
    ensures r != []
  {
    if s == [] then [[]]
    else
      var rest := Split(s[1..], sep);
      if s[0] == sep then [[]] + rest else [[s[0]] + rest[0]] + rest[1..]
  }

  function Upper(c: char): (r: char)
  {
    if IsLower(c) then (c as int - 'a' as int + 'A' as int) as char else c
  }

  /** Upper case shifts the letters of the lower case, and nothing else. */
  lemma UpperShifts(c: char)
    ensures 97 <= c as int <= 122 ==> Upper(c) as int == c as int - 32
    ensures !(97 <= c as int <= 122) ==> Upper(c) == c
  {
  }

  /** Title case of one word of letters and digits: its first letter goes to upper case. */
  function Title(s: string): (r: string)
  {
    if s == [] then [] else if IsLetter(s[0]) then [Upper(s[0])] + s[1..] else [s[0]] + Title(s[1..])
  }

  function TitleAll(words: seq<string>): (r: string)
  {
    if words == [] then [] else TitleAll(words[..|words| - 1]) + Title(words[|words| - 1])
  }

  function PartName(part: string): (r: string)
  {
    if part == ROOT_PREFIX then TYPE_PREFIX else TitleAll(Split(part, '_'))
  }

  function PartNames(parts: seq<string>): (r: string)
  {
    if parts == [] then [] else PartNames(parts[..|parts| - 1]) + PartName(parts[|parts| - 1])
  }

  /** A dotted path as a struct name. */
  function Sanitized(path: string): (r: string) { PartNames(Split(path, '.')) }

  lemma {:induction false} SplitPieces(s: string, sep: char, k: nat)
    requires k < |Split(s, sep)|
    ensures sep !in Split(s, sep)[k]
    ensures forall i :: 0 <= i < |Split(s, sep)[k]| ==> Split(s, sep)[k][i] in s
  {
    if s != [] {
      var rest := Split(s[1..], sep);
      if s[0] == sep {
        if k > 0 { SplitPieces(s[1..], sep, k - 1); }
      } else if k == 0 {
        SplitPieces(s[1..], sep, 0);
      } else {
        SplitPieces(s[1..], sep, k);
      }
    }
  }

  lemma {:induction false} SplitNone(s: string, sep: char)
    requires sep !in s
    ensures Split(s, sep) == [s]
  {
    if s != [] {
      SplitNone(s[1..], sep);
      assert [s[0]] + s[1..] == s;
    }
  }

  /** `p` is what follows the last separator of `s`, or all of it. */
  predicate IsLastPiece(s: string, sep: char, p: string)
  {
    |p| <= |s| && s[|s| - |p|..] == p && sep !in p && (|p| < |s| ==> s[|s| - |p| - 1] == sep)
  }

  lemma {:induction false} LastPiece(s: string, sep: char)
    ensures IsLastPiece(s, sep, Split(s, sep)[|Split(s, sep)| - 1])
  {
    hide IsLastPiece;
    if s == [] {
      WholeIsLast(s, sep);
    } else {
      var rest := Split(s[1..], sep);
      var p := rest[|rest| - 1];
      LastPiece(s[1..], sep);
      if s[0] != sep && |rest| == 1 {
        SplitOne(s[1..], sep);
        SplitPieces(s[1..], sep, 0);
        WholeIsLast(s, sep);
        assert [s[0]] + p == s;
      } else {
        if s[0] != sep && |p| >= |s| - 1 {
          ShorterThanWhole(s[1..], sep, p);
          SplitNone(s[1..], sep);
        }
        assert Split(s, sep)[|Split(s, sep)| - 1] == p;
        LongerStillLast(s, sep, p);
      }
    }
  }

  lemma WholeIsLast(s: string, sep: char)
    requires sep !in s
    ensures IsLastPiece(s, sep, s)
  {
  }

  lemma ShorterThanWhole(s: string, sep: char, p: string)
    requires IsLastPiece(s, sep, p) && |p| >= |s|
    ensures sep !in s
  {
    assert s[0..] == s;
  }

  lemma LongerStillLast(s: string, sep: char, p: string)
    requires s != [] && IsLastPiece(s[1..], sep, p) && (s[0] == sep || |p| < |s| - 1)
    ensures IsLastPiece(s, sep, p)
  {
    assert s[|s| - |p|..] == s[1..][|s| - 1 - |p|..];
  }

  lemma {:induction false} SplitOne(s: string, sep: char)
    requires |Split(s, sep)| == 1
    ensures Split(s, sep)[0] == s
  {
    if s != [] {
      SplitOne(s[1..], sep);
      assert [s[0]] + s[1..] == s;
    }
  }

  lemma {:induction false} TitleAlphaNum(s: string)
    requires AlphaNum(s)
    ensures AlphaNum(Title(s))
  {
    if s != [] && !IsLetter(s[0]) { TitleAlphaNum(s[1..]); }
  }

  lemma {:induction false} TitleAllAlphaNum(words: seq<string>)
    requires forall k :: 0 <= k < |words| ==> AlphaNum(words[k])
    ensures AlphaNum(TitleAll(words))
  {
    if words != [] {
      TitleAllAlphaNum(words[..|words| - 1]);
      TitleAlphaNum(words[|words| - 1]);
    }
  }

  lemma PartAlphaNum(part: string)
    requires Identifier(part)
    ensures AlphaNum(PartName(part))
  {
    if part != ROOT_PREFIX {
      var words := Split(part, '_');
      forall k | 0 <= k < |words| ensures AlphaNum(words[k]) { SplitPieces(part, '_', k); }
      TitleAllAlphaNum(words);
    }
  }

  lemma {:induction false} PartsAlphaNum(parts: seq<string>)
    requires forall k :: 0 <= k < |parts| ==> Identifier(parts[k])
    ensures AlphaNum(PartNames(parts))
    ensures parts != [] && parts[0] == ROOT_PREFIX ==> TYPE_PREFIX <= PartNames(parts)
  {
    if parts != [] {
      PartsAlphaNum(parts[..|parts| - 1]);
      PartAlphaNum(parts[|parts| - 1]);
    }
  }

  /** The path of a nested object: the root, then the field names that lead to it. */
  predicate NestedPath(p: string) { |p| >= 2 && p[0] == '_' && p[1] == '.' && PathChars(p) }

  /** Struct names that survive being sanitized again. */
  predicate Clean(s: string) { AlphaNum(s) && s != [] && IsLetter(s[0]) && !IsLower(s[0]) }

  /** A nested object's path becomes a clean name. */
  lemma NestedPathIsClean(p: string)
    requires NestedPath(p)
    ensures Clean(Sanitized(p)) && TYPE_PREFIX <= Sanitized(p)
  {
    var parts := Split(p, '.');
    forall k | 0 <= k < |parts| ensures Identifier(parts[k]) { SplitPieces(p, '.', k); }
    assert Split(p[1..], '.')[0] == [];
    PartsAlphaNum(parts);
  }

  /** Sanitizing a clean name changes nothing, so a recorded field type is still the key of its definition. */
  lemma CleanIsFixed(s: string)
    requires Clean(s)
    ensures Sanitized(s) == s
  {
    SplitNone(s, '.');
    SplitNone(s, '_');
    assert PartNames([s]) == PartNames([]) + PartName(s);
    assert TitleAll([s]) == TitleAll([]) + Title(s);
    assert Title(s) == s;
  }

  // ---- names, character by character -------------------------------------------------------------------

  /** Dots and underscores go, and the first letter after one of them, or at the start if `up`, is in upper case. */
  function Camel(s: string, up: bool): (r: string)
  {
    if s == [] then []
    else if s[0] == '.' || s[0] == '_' then Camel(s[1..], true)
    else [if up then Upper(s[0]) else s[0]] + Camel(s[1..], up && !IsLetter(s[0]))
  }

  lemma {:induction false} TitleAllCons(w: string, ws: seq<string>)
    ensures TitleAll([w] + ws) == Title(w) + TitleAll(ws)
  {
    var all := [w] + ws;
    if ws == [] {
      assert all[..0] == [] && TitleAll([]) == [];
    } else {
      TitleAllCons(w, ws[..|ws| - 1]);
      assert all[..|all| - 1] == [w] + ws[..|ws| - 1];
    }
  }

  lemma {:induction false} PartNamesCons(w: string, ws: seq<string>)
    ensures PartNames([w] + ws) == PartName(w) + PartNames(ws)
  {
    hide PartName;
    var all := [w] + ws;
    if ws == [] {
      assert all[..0] == [] && PartNames([]) == [];
    } else {
      PartNamesCons(w, ws[..|ws| - 1]);
      assert all[..|all| - 1] == [w] + ws[..|ws| - 1];
    }
  }

  lemma {:induction false} WordsAreCamel(s: string, up: bool)
    requires '.' !in s
    ensures var words := Split(s, '_');
            (if up then Title(words[0]) else words[0]) + TitleAll(words[1..]) == Camel(s, up)
  {
    if s != [] {
      var rest := Split(s[1..], '_');
      assert rest == [rest[0]] + rest[1..];
      if s[0] == '_' {
        WordsAreCamel(s[1..], true);
        TitleAllCons(rest[0], rest[1..]);
        assert Split(s, '_')[1..] == rest;
      } else {
        var up' := up && !IsLetter(s[0]);
        WordsAreCamel(s[1..], up');
        var words := Split(s, '_');
        assert words[0] == [s[0]] + rest[0] && words[1..] == rest[1..] && words[0][1..] == rest[0];
        assert !IsLetter(s[0]) ==> Upper(s[0]) == s[0];
      }
    }
  }

  lemma PartIsCamel(part: string)
    requires '.' !in part && part != ROOT_PREFIX
    ensures PartName(part) == Camel(part, true)
  {
    var words := Split(part, '_');
    WordsAreCamel(part, true);
    TitleAllCons(words[0], words[1..]);
    assert words == [words[0]] + words[1..];
  }

  /** No part but the first, which `from` skips, is the root prefix. */
  predicate NoRoot(s: string, from: nat)
  {
    forall k :: from <= k < |Split(s, '.')| ==> Split(s, '.')[k] != ROOT_PREFIX
  }

  function ReadParts(parts: seq<string>, up: bool): (r: string)
    requires parts != []
  {
    Camel(parts[0], up) + PartNames(parts[1..])
  }

  lemma ReadAfterDot(parts: seq<string>)
    requires parts != [] && '.' !in parts[0] && parts[0] != ROOT_PREFIX
    ensures PartNames(parts) == ReadParts(parts, true)
  {
    hide PartName, PartNames, Camel;
    PartIsCamel(parts[0]);
    PartNamesCons(parts[0], parts[1..]);
    assert parts == [parts[0]] + parts[1..];
  }

  lemma {:induction false} PartsAreCamel(s: string, up: bool)
    requires NoRoot(s, 1)
    ensures ReadParts(Split(s, '.'), up) == Camel(s, up)
  {
    if s == [] {
      assert [""][1..] == [] && PartNames([]) == [];
    } else {
      hide PartName, PartNames, ReadParts;
      var parts, rest := Split(s, '.'), Split(s[1..], '.');
      if s[0] == '.' {
        assert parts[1..] == rest;
        forall k | 0 <= k < |rest| ensures rest[k] != ROOT_PREFIX { assert parts[k + 1] == rest[k]; }
        PartsAreCamel(s[1..], true);
        SplitPieces(s[1..], '.', 0);
        ReadAfterDot(rest);
        ReadDot(parts, up);
      } else {
        forall k | 1 <= k < |rest| ensures rest[k] != ROOT_PREFIX { assert parts[k] == rest[k]; }
        PartsAreCamel(s[1..], if s[0] == '_' then true else up && !IsLetter(s[0]));
        ReadInside(s[0], rest, up);
      }
    }
  }

  lemma ReadDot(parts: seq<string>, up: bool)
    requires parts != [] && parts[0] == []
    ensures ReadParts(parts, up) == PartNames(parts[1..])
  {
  }

  lemma ReadInside(c: char, rest: seq<string>, up: bool)
    requires c != '.' && rest != []
    ensures var after := ReadParts(rest, if c == '_' then true else up && !IsLetter(c));
            ReadParts([[c] + rest[0]] + rest[1..], up) ==
              if c == '_' then after else [if up then Upper(c) else c] + after
  {
    var parts := [[c] + rest[0]] + rest[1..];
    assert parts[1..] == rest[1..] && parts[0][1..] == rest[0];
  }

  lemma RootIsType()
    ensures PartName(ROOT_PREFIX) == TYPE_PREFIX
  {
  }

  /** The name of a nested object: `Type`, then the letters and digits of its path, each word with its first letter in
      upper case. A field called "_" reads `Type` again, and is left out here. */
  lemma NestedName(path: string)
    requires NoRoot(path, 0)
    ensures Sanitized(ROOT_PREFIX + "." + path) == TYPE_PREFIX + Camel(path, true)
  {
    hide PartName, PartNames, Camel;
    var whole, parts := ROOT_PREFIX + "." + path, Split(path, '.');
    var rest := Split(whole[1..], '.');
    assert whole[1..] == "." + path && whole[1..][1..] == path && whole[0] == '_';
    assert rest == [[]] + parts;
    assert [whole[0]] + rest[0] == ROOT_PREFIX && rest[1..] == parts;
    assert Split(whole, '.') == [[whole[0]] + rest[0]] + rest[1..];
    RootIsType();
    PartNamesCons(ROOT_PREFIX, parts);
    SplitPieces(path, '.', 0);
    ReadAfterDot(parts);
    PartsAreCamel(path, true);
  }

  // ---- keys -------------------------------------------------------------------------------------------

  /** `typeDefWithIndex` */
  function Key(typeDef: string, n: nat): (r: string) { typeDef + Text(Decimal(n)) }

  /** Keys made for payload objects end in a digit, which no base type does. */
  predicate IsKey(s: string) { s != [] && IsDigit(s[|s| - 1]) }

  lemma KeysMissBaseTypes(typeDef: string, n: nat)
    ensures IsKey(Key(typeDef, n)) && Key(typeDef, n) !in BaseTypes()
    ensures Clean(typeDef) ==> Clean(Key(typeDef, n))
  {
    var k := Key(typeDef, n);
    assert k[|k| - 1] == Decimal(n)[|Decimal(n)| - 1] as char;
  }

  /** One of the thousand keys of a type definition. */
  ghost predicate Keyed(key: string, typeDef: string) { exists n: nat :: n < MAX_DUPLICATES && key == Key(typeDef, n) }

  /** The type definition of the object at a path: the message's own at the root, otherwise the path as a name. */
  function TypeDef(rootType: string, path: string): (r: string)
  {
    if path == ROOT_PREFIX then rootType else Sanitized(path)
  }

  /** The key is in use for another field list. */
  ghost predicate Taken(types: Types, typeDef: string, list: seq<Field>, n: nat)
  {
    Key(typeDef, n) in types && types[Key(typeDef, n)] != list
  }

  /** The first key that is free or already holds this very list, among the first thousand. */
  ghost predicate Added(before: Types, typeDef: string, list: seq<Field>, r: Result<string, Error>, after: Types)
  {
    match r
    case Ok(key) =>
      after == before[key := list] && (key in before ==> before[key] == list) &&
      exists n: nat :: n < MAX_DUPLICATES && key == Key(typeDef, n) && forall j: nat :: j < n ==> Taken(before, typeDef, list, j)
    case Err(e) =>
      after == before && e == TooManyDuplicates &&
      forall j: nat :: j < MAX_DUPLICATES ==> Taken(before, typeDef, list, j)
  }

  /** Nothing that was defined is lost, and only `Tx` may change. */
  ghost predicate Extends(a: Types, b: Types)
  {
    forall k :: k in a ==> k in b && (k != TX ==> b[k] == a[k])
  }

  // ---- the order of names ---------------------------------------------------------------------------------

  function DescendingOrder(): (r: (string, string) -> bool) { (a, b) => LexLess(Codes(b), Codes(a)) }

  lemma CodesInjective(a: string, b: string)
    requires Codes(a) == Codes(b)
    ensures a == b
  {
    forall i | 0 <= i < |a| ensures a[i] == b[i] { assert Codes(a)[i] == Codes(b)[i]; }
  }

  lemma DescendingIsTotal()
    ensures TotalOrder(DescendingOrder())
  {
    hide Codes;
    forall a: string, b: string | LexLess(Codes(b), Codes(a)) ensures !LexLess(Codes(a), Codes(b)) {
      if LexLess(Codes(a), Codes(b)) {
        LexTransitive(Codes(a), Codes(b), Codes(a));
        LexIrreflexive(Codes(a));
      }
    }
    forall a: string, b: string, c: string | !LexLess(Codes(b), Codes(a)) && !LexLess(Codes(c), Codes(b))
      ensures !LexLess(Codes(c), Codes(a))
    {
      LexTotal(Codes(a), Codes(b));
      if LexLess(Codes(c), Codes(a)) && LexLess(Codes(a), Codes(b)) { LexTransitive(Codes(c), Codes(a), Codes(b)); }
    }
    forall a: string, b: string ensures LexLess(Codes(b), Codes(a)) || LexLess(Codes(a), Codes(b)) || a == b {
      LexTotal(Codes(a), Codes(b));
      if Codes(a) == Codes(b) { CodesInjective(a, b); }
    }
  }

  /** The names in descending order, the same whatever order the map gives them in. */
  ghost function SortedNames(keys: set<string>): (s: seq<string>)
    ensures Increasing(s, DescendingOrder()) && Elements(s) == keys
    ensures forall i :: 0 <= i < |s| ==> s[i] in keys
  {
    DescendingIsTotal();
    var s := Sorted(keys, DescendingOrder());
    assert forall i :: 0 <= i < |s| ==> s[i] in Elements(s);
    s
  }

  // ---- what a schema says ---------------------------------------------------------------------------------

  /** Values that have an EIP-712 type: no nulls, and no arrays of arrays or of nulls. */
  predicate Typable(v: Json)
  {
    match v
    case Null => false
    case Arr(items) => items == [] || (!items[0].Arr? && !items[0].Null?)
    case _ => true
  }

  /** `t` is a type for the value `v` at `path`, looking struct names up in `types`. */
  ghost predicate Fits(types: Types, path: string, t: string, v: Json)
    decreases v, 3
  {
    match v
    case Null => false
    case Bool(_) => t == "bool"
    case Number(_) => t == "int64"
    case Str(_) => t == "string"
    case Arr(items) =>
      if items == [] then t == "string[]"
      else !items[0].Arr? && |t| >= 2 && t[|t| - 2..] == "[]" && Fits(types, path, t[..|t| - 2], items[0])
    case Obj(_) => Describes(types, Sanitized(path), path, t, v)
  }

  /** The list gives, in order, each typable field among `names` with a type for its value, and nothing else. */
  ghost predicate Lists(types: Types, path: string, v: Json, names: seq<string>, list: seq<Field>)
    requires v.Obj?
    decreases v, 1, |names|
  {
    if names == [] then list == []
    else
      var n, rest := names[|names| - 1], names[..|names| - 1];
      n in v.fields &&
      if Typable(v.fields[n]) then
        list != [] && list[|list| - 1].name == n && Fits(types, path + "." + n, list[|list| - 1].typ, v.fields[n]) &&
        Lists(types, path, v, rest, list[..|list| - 1])
      else
        Lists(types, path, v, rest, list)
  }

  /** The definition at `key`, one of those of `typeDef`, is the field list of the object `v` at `path`, names in
      descending order. */
  ghost predicate Describes(types: Types, typeDef: string, path: string, key: string, v: Json)
    decreases v, 2
  {
    v.Obj? && Keyed(key, typeDef) && key in types && Lists(types, path, v, SortedNames(v.fields.Keys), types[key])
  }

  /** Every struct a field refers to is defined. */
  predicate Known(types: Types, t: string) { t in types || t in ["string", "uint256", "bool", "int64"] }

  predicate Resolves(types: Types, t: string)
  {
    Known(types, t) || (|t| >= 2 && t[|t| - 2..] == "[]" && Known(types, t[..|t| - 2]))
  }

  ghost predicate AllResolve(types: Types, list: seq<Field>)
  {
    forall i :: 0 <= i < |list| ==> Resolves(types, list[i].typ)
  }

  ghost predicate Closed(types: Types)
  {
    forall k :: k in types ==> AllResolve(types, types[k])
  }

  predicate Identifiers(v: Json)
  {
    match v
    case Obj(fields) => forall k :: k in fields ==> Identifier(k) && Identifiers(fields[k])
    case Arr(items) => items == [] || Identifiers(items[0])
    case _ => true
  }

  // ---- growing a schema keeps what it says ------------------------------------------------------------------

  lemma {:induction false} FitsStill(a: Types, b: Types, path: string, t: string, v: Json)
    requires Extends(a, b) && Fits(a, path, t, v)
    ensures Fits(b, path, t, v)
    decreases v, 3
  {
    match v
    case Arr(items) => if items != [] { FitsStill(a, b, path, t[..|t| - 2], items[0]); }
    case Obj(_) => DescribesStill(a, b, Sanitized(path), path, t, v);
    case _ =>
  }

  lemma {:induction false} ListsStill(a: Types, b: Types, path: string, v: Json, names: seq<string>, list: seq<Field>)
    requires v.Obj? && Extends(a, b) && Lists(a, path, v, names, list)
    ensures Lists(b, path, v, names, list)
    decreases v, 1, |names|
  {
    if names != [] {
      var n, rest := names[|names| - 1], names[..|names| - 1];
      if Typable(v.fields[n]) {
        FitsStill(a, b, path + "." + n, list[|list| - 1].typ, v.fields[n]);
        ListsStill(a, b, path, v, rest, list[..|list| - 1]);
      } else {
        ListsStill(a, b, path, v, rest, list);
      }
    }
  }

  /** A definition goes on describing its object whatever is added later. */
  lemma {:induction false} DescribesStill(a: Types, b: Types, typeDef: string, path: string, key: string, v: Json)
    requires Extends(a, b) && Describes(a, typeDef, path, key, v)
    ensures Describes(b, typeDef, path, key, v)
    decreases v, 2
  {
    KeyedIsKey(key, typeDef);
    ListsStill(a, b, path, v, SortedNames(v.fields.Keys), a[key]);
  }

  lemma KeyedIsKey(key: string, typeDef: string)
    requires Keyed(key, typeDef)
    ensures IsKey(key) && key != TX
  {
    var n: nat :| n < MAX_DUPLICATES && key == Key(typeDef, n);
    KeysMissBaseTypes(typeDef, n);
    assert TX in BaseTypes();
  }

  lemma FitsResolves(types: Types, path: string, t: string, v: Json)
    requires Fits(types, path, t, v)
    ensures Resolves(types, t)
  {
    if v.Arr? {
      if v.items == [] {
        assert t[|t| - 2..] == "[]" && t[..|t| - 2] == "string";
      } else {
        FitsKnown(types, path, t[..|t| - 2], v.items[0]);
      }
    } else {
      FitsKnown(types, path, t, v);
    }
  }

  lemma FitsKnown(types: Types, path: string, t: string, v: Json)
    requires Fits(types, path, t, v) && !v.Arr?
    ensures Known(types, t)
  {
  }

  lemma {:induction false} ListsResolve(types: Types, path: string, v: Json, names: seq<string>, list: seq<Field>)
    requires v.Obj? && Lists(types, path, v, names, list)
    ensures AllResolve(types, list)
    decreases |names|
  {
    if names != [] {
      var n, rest := names[|names| - 1], names[..|names| - 1];
      if Typable(v.fields[n]) {
        FitsResolves(types, path + "." + n, list[|list| - 1].typ, v.fields[n]);
        ListsResolve(types, path, v, rest, list[..|list| - 1]);
        assert forall i :: 0 <= i < |list| - 1 ==> list[i] == list[..|list| - 1][i];
      } else {
        ListsResolve(types, path, v, rest, list);
      }
    }
  }

  /** Adding a list whose references are defined leaves no reference undefined. */
  lemma ClosedStill(a: Types, b: Types, key: string, list: seq<Field>)
    requires Closed(a) && b == a[key := list] && AllResolve(a, list)
    ensures Closed(b)
  {
    forall k, i | k in b && 0 <= i < |b[k]| ensures Resolves(b, b[k][i].typ) {
      assert k == key || AllResolve(a, a[k]);
      assert Resolves(a, b[k][i].typ);
    }
  }

  lemma BaseIsClosed()
    ensures Closed(BaseTypes())
  {
    var b := BaseTypes();
    assert "Coin[]"[4..] == "[]" && "Coin[]"[..4] == "Coin";
    assert Resolves(b, "Coin[]");
    assert AllResolve(b, b["Fee"]) && AllResolve(b, b["Tx"]) && AllResolve(b, b["Coin"]);
    assert AllResolve(b, b["EIP712Domain"]);
  }

  lemma AddedExtends(before: Types, typeDef: string, list: seq<Field>, r: Result<string, Error>, after: Types)
    requires Added(before, typeDef, list, r, after)
    ensures Extends(before, after) && (TX in before ==> after[TX] == before[TX])
    ensures r.Ok? ==> Keyed(r.value, typeDef) && r.value in after && after[r.value] == list
    ensures r.Ok? && Clean(typeDef) ==> Clean(r.value)
  {
    if r.Ok? {
      var n: nat :| n < MAX_DUPLICATES && r.value == Key(typeDef, n);
      KeysMissBaseTypes(typeDef, n);
      assert TX in BaseTypes();
    }
  }

  // ---- how many definitions there can be --------------------------------------------------------------------

  /** The objects the walk defines: the object itself, those in its fields, and those that come first in its arrays. */
  ghost function Objects(v: Json): (n: nat)
    requires v.Obj?
    decreases v, 1
  {
    1 + ObjectsAmong(v, SortedNames(v.fields.Keys))
  }

  ghost function ObjectsAmong(v: Json, names: seq<string>): (n: nat)
    requires v.Obj? && forall i :: 0 <= i < |names| ==> names[i] in v.fields
    decreases v, 0, |names|
  {
    if names == [] then 0
    else ObjectsAmong(v, names[..|names| - 1]) + ObjectsIn(v.fields[names[|names| - 1]])
  }

  ghost function ObjectsIn(v: Json): (n: nat)
    decreases v, 2
  {
    match v
    case Obj(_) => Objects(v)
    case Arr(items) => if items != [] && items[0].Obj? then Objects(items[0]) else 0
    case _ => 0
  }

  ghost predicate AllInUse(types: Types, typeDef: string)
  {
    forall n: nat :: n < MAX_DUPLICATES ==> Key(typeDef, n) in types
  }

  /** All thousand keys of some type definition are in use. */
  ghost predicate Overfull(types: Types) { exists typeDef: string :: AllInUse(types, typeDef) }

  ghost function KeySet(typeDef: string, n: nat): (r: set<string>) { set j: nat | j < n :: Key(typeDef, j) }

  lemma KeyInjective(typeDef: string, m: nat, n: nat)
    requires Key(typeDef, m) == Key(typeDef, n)
    ensures m == n
  {
    var a, b := Decimal(m), Decimal(n);
    assert Text(a) == Key(typeDef, m)[|typeDef|..] && Text(b) == Key(typeDef, n)[|typeDef|..];
    forall i | 0 <= i < |a| ensures a[i] == b[i] { assert Text(a)[i] == Text(b)[i]; }
    DecimalInjective(m, n);
  }

  lemma {:induction false} KeySetSize(typeDef: string, n: nat)
    ensures |KeySet(typeDef, n)| == n
  {
    hide Key;
    if n > 0 {
      KeySetSize(typeDef, n - 1);
      if Key(typeDef, n - 1) in KeySet(typeDef, n - 1) {
        var j: nat :| j < n - 1 && Key(typeDef, j) == Key(typeDef, n - 1);
        KeyInjective(typeDef, j, n - 1);
      }
      assert KeySet(typeDef, n) == KeySet(typeDef, n - 1) + {Key(typeDef, n - 1)};
    }
  }

  /** A map with all keys of a type definition holds a thousand definitions beside the base types. */
  lemma OverfullIsLarge(types: Types)
    requires Overfull(types) && BaseTypes().Keys <= types.Keys
    ensures |types| >= MAX_DUPLICATES + |BaseTypes()|
  {
    var typeDef: string :| AllInUse(types, typeDef);
    var keys, base := KeySet(typeDef, MAX_DUPLICATES), BaseTypes().Keys;
    KeySetSize(typeDef, MAX_DUPLICATES);
    forall k | k in keys ensures k in types && k !in base {
      var j: nat :| j < MAX_DUPLICATES && k == Key(typeDef, j);
      KeysMissBaseTypes(typeDef, j);
    }
    hide BaseTypes, KeySet;
    SubsetSize(keys + base, types.Keys);
    assert |keys + base| == |keys| + |base|;
    assert |types.Keys| == |types| && |base| == |BaseTypes()|;
  }

  lemma AddedSize(before: Types, typeDef: string, list: seq<Field>, r: Result<string, Error>, after: Types)
    requires Added(before, typeDef, list, r, after)
    ensures |after| <= |before| + 1
    ensures r.Err? ==> after == before && Overfull(after)
  {
    if r.Ok? {
      assert after.Keys == before.Keys + {r.value};
      assert |after.Keys| == |after| && |before.Keys| == |before|;
    } else {
      forall n: nat | n < MAX_DUPLICATES ensures Key(typeDef, n) in after { assert Taken(before, typeDef, list, n); }
      assert AllInUse(after, typeDef);
    }
  }

  // ---- the walk ------------------------------------------------------------------------------------------

  method SanitizePart(part: string) returns (r: string)
    ensures r == TitleAll(Split(part, '_'))
  {
    var subparts := Split(part, '_');
    r := [];
    for i := 0 to |subparts|
      invariant r == TitleAll(subparts[..i])
    {
      r := r + Title(subparts[i]);
      assert subparts[..i + 1][..i] == subparts[..i];
    }
    assert subparts[..|subparts|] == subparts;
  }

  method SanitizeTypedef(path: string) returns (r: string)
    ensures r == Sanitized(path)
  {
    var parts := Split(path, '.');
    r := [];
    for i := 0 to |parts|
      invariant r == PartNames(parts[..i])
    {
      var name := TYPE_PREFIX;
      if parts[i] != ROOT_PREFIX {
        name := SanitizePart(parts[i]);
      }
      r := r + name;
      assert parts[..i + 1][..i] == parts[..i];
    }
    assert parts[..|parts|] == parts;
  }

  method TypesAreEqual(a: seq<Field>, b: seq<Field>) returns (r: bool)
    ensures r <==> a == b
  {
    if |a| != |b| {
      return false;
    }
    for i := 0 to |a|
      invariant a[..i] == b[..i]
    {
      if a[i].name != b[i].name || a[i].typ != b[i].typ {
        return false;
      }
    }
    return true;
  }

  /** The names of an object, read off its map in any order and sorted. */
  method SortedJsonKeys(fields: map<string, Json>) returns (names: seq<string>)
    ensures names == SortedNames(fields.Keys)
  {
    DescendingIsTotal();
    names := SortKeys(fields.Keys, DescendingOrder());
  }

  /** The EIP-712 type of a JSON scalar, or the empty string. */
  function EthType(v: Json): (t: string)
    ensures t != "" ==> Fits(map[], "", t, v)
    ensures t == "" <==> v.Null? || v.Arr? || v.Obj?
  {
    match v
    case Bool(_) => "bool"
    case Number(_) => "int64"
    case Str(_) => "string"
    case _ => ""
  }

  /** `Type` and the last part of the message's own type string. */
  function MsgRootType(msg: Json): (r: Result<string, Error>)
    requires msg.Obj?
    ensures r.Err? <==> "type" !in msg.fields || !msg.fields["type"].Str? || msg.fields["type"].s == ""
    ensures r.Err? ==> r.error == NoTypeString
    ensures r.Ok? ==> TYPE_PREFIX <= r.value && IsLastPiece(msg.fields["type"].s, '/', r.value[|TYPE_PREFIX|..])
  {
    if "type" !in msg.fields || !msg.fields["type"].Str? || msg.fields["type"].s == "" then Err(NoTypeString)
    else
      var tokens := Split(msg.fields["type"].s, '/');
      LastPiece(msg.fields["type"].s, '/');
      Ok(TYPE_PREFIX + tokens[|tokens| - 1])
  }

  class TypeMap {
    var types: Types

    constructor ()
      ensures types == BaseTypes()
    {
      types := BaseTypes();
    }

    /** Puts the list at the first key that is free or already holds it. */
    method AddTypesToRoot(typeDef: string, list: seq<Field>) returns (r: Result<string, Error>)
      modifies this
      ensures Added(old(types), typeDef, list, r, types)
    {
      hide Key;
      var n: nat := 0;
      var key := Key(typeDef, n);
      while key in types
        invariant n < MAX_DUPLICATES && key == Key(typeDef, n) && types == old(types)
        invariant forall j: nat :: j < n ==> Taken(types, typeDef, list, j)
        decreases MAX_DUPLICATES - n
      {
        var same := TypesAreEqual(list, types[key]);
        if same {
          assert types == types[key := list];
          return Ok(key);
        }
        n := n + 1;
        if n == MAX_DUPLICATES {
          return Err(TooManyDuplicates);
        }
        key := Key(typeDef, n);
      }
      types := types[key := list];
      return Ok(key);
    }

    /** Defines the object `payload`, found at `prefix`, and everything nested in it. */
    method AddTypes(rootType: string, prefix: string, payload: Json) returns (r: Result<string, Error>)
      modifies this
      ensures Extends(old(types), types) && (TX in old(types) ==> types[TX] == old(types)[TX])
      ensures r.Err? ==> r.error == (if payload.Obj? then TooManyDuplicates else NotAnObject)
      ensures payload.Obj? ==> |types| <= |old(types)| + Objects(payload)
      ensures r == Err(TooManyDuplicates) ==> Overfull(types) && |types| < |old(types)| + Objects(payload)
      ensures r.Ok? && NestedPath(prefix) ==> Clean(r.value)
      ensures r.Ok? && (prefix == ROOT_PREFIX || NestedPath(prefix)) && Identifiers(payload) ==>
        Describes(types, TypeDef(rootType, prefix), prefix, r.value, payload) && (Closed(old(types)) ==> Closed(types))
      decreases payload
    {
      if !payload.Obj? {
        return Err(NotAnObject);
      }
      ghost var good := (prefix == ROOT_PREFIX || NestedPath(prefix)) && Identifiers(payload);
      var names := SortedJsonKeys(payload.fields);
      var typeDef := rootType;
      if prefix != ROOT_PREFIX {
        typeDef := SanitizeTypedef(prefix);
        if NestedPath(prefix) { NestedPathIsClean(prefix); }
      }
      var list: seq<Field> := [];
      for i := 0 to |names|
        invariant Extends(old(types), types) && (TX in old(types) ==> types[TX] == old(types)[TX])
        invariant |types| <= |old(types)| + ObjectsAmong(payload, names[..i])
        invariant good ==> Lists(types, prefix, payload, names[..i], list) && (Closed(old(types)) ==> Closed(types))
      {
        ghost var was := types;
        AmongGrows(payload, names, i);
        var t := AddField(rootType, prefix, names[i], payload);
        if t.Err? {
          return Err(t.error);
        }
        if good { NextField(was, types, prefix, payload, names, i, list, t.value); }
        match t.value {
          case None =>
          case Some(typ) => list := list + [Field(names[i], typ)];
        }
      }
      assert names[..|names|] == names;
      ghost var before := types;
      r := AddTypesToRoot(typeDef, list);
      AddedExtends(before, typeDef, list, r, types);
      AddedSize(before, typeDef, list, r, types);
      if good && r.Ok? { DefinedHere(before, types, typeDef, prefix, payload, list, r.value); }
    }

    /** The type of one field, after defining the object in it. */
    method AddField(rootType: string, prefix: string, name: string, payload: Json) returns (r: Result<Option<string>, Error>)
      requires payload.Obj? && name in payload.fields
      modifies this
      ensures Extends(old(types), types) && (TX in old(types) ==> types[TX] == old(types)[TX])
      ensures |types| <= |old(types)| + ObjectsIn(payload.fields[name])
      ensures r.Err? ==> r.error == TooManyDuplicates && Overfull(types)
      ensures r.Err? ==> |types| < |old(types)| + ObjectsIn(payload.fields[name])
      ensures r.Ok? && (prefix == ROOT_PREFIX || NestedPath(prefix)) && Identifiers(payload) ==>
        (r.value.Some? <==> Typable(payload.fields[name])) &&
        (r.value.Some? ==> Fits(types, prefix + "." + name, r.value.value, payload.fields[name])) &&
        (Closed(old(types)) ==> Closed(types))
      decreases payload, 0
    {
      hide Fits, Lists, Describes, Sanitized, Closed, Identifiers, Clean;
      var field := payload.fields[name];
      var suffix := "";
      if field.Arr? {
        if field.items == [] {
          EmptyArray(types, prefix + "." + name, field);
          return Ok(Some("string[]"));
        }
        field := field.items[0];
        suffix := "[]";
      }
      var ethType := EthType(field);
      if ethType != "" {
        Suffixed(types, prefix + "." + name, ethType, suffix, payload.fields[name], field);
        return Ok(Some(ethType + suffix));
      }
      if !field.Obj? {
        return Ok(None);
      }
      var sub := AddTypes(rootType, prefix + "." + name, field);
      if sub.Err? {
        return Err(sub.error);
      }
      var typ := SanitizeTypedef(sub.value);
      if (prefix == ROOT_PREFIX || NestedPath(prefix)) && Identifiers(payload) {
        Inside(prefix, name, payload, field);
        FitsObject(types, prefix + "." + name, sub.value, field);
        CleanIsFixed(sub.value);
        Suffixed(types, prefix + "." + name, typ, suffix, payload.fields[name], field);
      }
      return Ok(Some(typ + suffix));
    }
  }

  lemma {:induction false} AmongGrows(v: Json, names: seq<string>, i: nat)
    requires v.Obj? && i < |names| && forall k :: 0 <= k < |names| ==> names[k] in v.fields
    ensures ObjectsAmong(v, names[..i + 1]) == ObjectsAmong(v, names[..i]) + ObjectsIn(v.fields[names[i]])
    ensures ObjectsAmong(v, names[..i + 1]) <= ObjectsAmong(v, names)
    decreases |names| - i
  {
    assert names[..i + 1][..i] == names[..i];
    if i + 1 < |names| {
      AmongGrows(v, names, i + 1);
    } else {
      assert names[..i + 1] == names;
    }
  }

  /** The type of an array of something is the type of its first element with brackets. */
  lemma Suffixed(types: Types, path: string, t: string, suffix: string, whole: Json, field: Json)
    requires Fits(types, path, t, field) || Fits(map[], "", t, field)
    requires !field.Arr? && !field.Null? && (field.Obj? ==> Fits(types, path, t, field))
    requires (whole == field && suffix == "") || (whole.Arr? && whole.items != [] && whole.items[0] == field && suffix == "[]")
    ensures Typable(whole) && Fits(types, path, t + suffix, whole)
  {
    assert t + "" == t;
    assert (t + "[]")[|t|..] == "[]" && (t + "[]")[..|t|] == t;
  }

  lemma EmptyArray(types: Types, path: string, v: Json)
    requires v.Arr? && v.items == []
    ensures Typable(v) && Fits(types, path, "string[]", v)
  {
  }

  lemma FitsObject(types: Types, path: string, key: string, v: Json)
    requires Describes(types, Sanitized(path), path, key, v)
    ensures Fits(types, path, key, v)
  {
  }

  /** Going into a field keeps the path a path and the names identifiers. */
  lemma Inside(prefix: string, name: string, payload: Json, field: Json)
    requires payload.Obj? && name in payload.fields && Identifiers(payload)
    requires prefix == ROOT_PREFIX || NestedPath(prefix)
    requires field == payload.fields[name] ||
      (payload.fields[name].Arr? && payload.fields[name].items != [] && payload.fields[name].items[0] == field)
    ensures NestedPath(prefix + "." + name) && Identifiers(field)
  {
    assert Identifiers(payload.fields[name]) && Identifier(name);
  }

  lemma NextField(a: Types, b: Types, path: string, v: Json, names: seq<string>, i: nat, list: seq<Field>,
                  t: Option<string>)
    requires v.Obj? && i < |names| && names[i] in v.fields
    requires Extends(a, b) && Lists(a, path, v, names[..i], list)
    requires t.Some? <==> Typable(v.fields[names[i]])
    requires t.Some? ==> Fits(b, path + "." + names[i], t.value, v.fields[names[i]])
    ensures Lists(b, path, v, names[..i + 1], if t.Some? then list + [Field(names[i], t.value)] else list)
  {
    ListsStill(a, b, path, v, names[..i], list);
    assert names[..i + 1][..i] == names[..i];
    if t.Some? {
      var l := list + [Field(names[i], t.value)];
      assert l[..|l| - 1] == list;
    }
  }

  lemma DefinedHere(a: Types, b: Types, typeDef: string, path: string, v: Json, list: seq<Field>, key: string)
    requires v.Obj? && Lists(a, path, v, SortedNames(v.fields.Keys), list)
    requires b == a[key := list] && Extends(a, b) && Keyed(key, typeDef)
    ensures Describes(b, typeDef, path, key, v) && (Closed(a) ==> Closed(b))
  {
    ListsStill(a, b, path, v, SortedNames(v.fields.Keys), list);
    if Closed(a) {
      ListsResolve(a, path, v, SortedNames(v.fields.Keys), list);
      ClosedStill(a, b, key, list);
    }
  }

  // ---- a whole payload --------------------------------------------------------------------------------------

  function MsgField(i: nat): (r: string) { "msg" + Text(Decimal(i)) }

  /** After `n` messages: the base types untouched but for `Tx`, which lists each message at its own definition. */
  ghost predicate Schema(types: Types, payload: map<string, Json>, n: nat)
  {
    Extends(BaseTypes(), types) && TX in types && Closed(types) &&
    |types[TX]| == |BaseTypes()[TX]| + n && BaseTypes()[TX] <= types[TX] &&
    forall i: nat :: i < n ==> MsgListed(types, payload, i)
  }

  /** The definition at `key` is the message's, under its own type string. */
  ghost predicate DescribesMsg(types: Types, key: string, msg: Json)
  {
    msg.Obj? && MsgRootType(msg).Ok? && Describes(types, MsgRootType(msg).value, ROOT_PREFIX, key, msg)
  }

  ghost predicate MsgListed(types: Types, payload: map<string, Json>, i: nat)
    requires TX in types && |types[TX]| > |BaseTypes()[TX]| + i
  {
    var f := types[TX][|BaseTypes()[TX]| + i];
    f.name == MsgField(i) && f.name in payload && DescribesMsg(types, f.typ, payload[f.name])
  }

  ghost predicate AllIdentifiers(payload: map<string, Json>)
  {
    forall k :: k in payload ==> Identifiers(payload[k])
  }

  lemma BaseSchema(payload: map<string, Json>)
    ensures Schema(BaseTypes(), payload, 0)
  {
    BaseIsClosed();
  }

  /** Defining one more message's object keeps the messages listed so far. */
  lemma SchemaStill(a: Types, b: Types, payload: map<string, Json>, n: nat)
    requires Schema(a, payload, n) && Extends(a, b) && b[TX] == a[TX] && Closed(b)
    ensures Schema(b, payload, n)
  {
    hide Describes, Closed, MsgRootType;
    forall i: nat | i < n ensures MsgListed(b, payload, i) {
      assert MsgListed(a, payload, i);
      var f := a[TX][|BaseTypes()[TX]| + i];
      DescribesStill(a, b, MsgRootType(payload[f.name]).value, ROOT_PREFIX, f.typ, payload[f.name]);
    }
  }

  /** Listing the message in `Tx` completes the step. */
  lemma SchemaNext(a: Types, b: Types, payload: map<string, Json>, n: nat, key: string)
    requires Schema(a, payload, n) && MsgField(n) in payload && DescribesMsg(a, key, payload[MsgField(n)])
    requires b == a[TX := a[TX] + [Field(MsgField(n), key)]]
    ensures Schema(b, payload, n + 1)
  {
    hide Describes, Closed, MsgRootType;
    NextIsClosed(a, b, payload[MsgField(n)], n, key);
    forall i: nat | i < n + 1 ensures MsgListed(b, payload, i) {
      var f := b[TX][|BaseTypes()[TX]| + i];
      assert i < n ==> MsgListed(a, payload, i) && f == a[TX][|BaseTypes()[TX]| + i];
      DescribesStill(a, b, MsgRootType(payload[f.name]).value, ROOT_PREFIX, f.typ, payload[f.name]);
    }
  }

  lemma NextIsClosed(a: Types, b: Types, msg: Json, n: nat, key: string)
    requires Closed(a) && TX in a && DescribesMsg(a, key, msg)
    requires b == a[TX := a[TX] + [Field(MsgField(n), key)]]
    ensures Closed(b)
  {
    assert AllResolve(a, a[TX]) && Resolves(a, key);
    ClosedStill(a, b, TX, b[TX]);
  }

  /** `was` grows to `mid`, which describes the message at `key`; then the message is listed in `Tx`. */
  ghost predicate MsgAdded(was: Types, mid: Types, now: Types, field: string, msg: Json, key: string)
    requires TX in was
  {
    Extends(was, mid) && TX in mid && mid[TX] == was[TX] &&
    DescribesMsg(mid, key, msg) && (Closed(was) ==> Closed(mid)) &&
    now == mid[TX := mid[TX] + [Field(field, key)]]
  }

  lemma SameSize(types: Types, key: string, list: seq<Field>)
    requires key in types
    ensures |types[key := list]| == |types|
  {
    var after := types[key := list];
    assert after.Keys == types.Keys && |after.Keys| == |after| && |types.Keys| == |types|;
  }

  /** Adds one message: its definitions, then its line in `Tx`. */
  method AddMsgTypesToRoot(m: TypeMap, field: string, msg: Option<Json>) returns (r: Result<string, Error>)
    modifies m
    ensures Extends(old(m.types), m.types)
    ensures r.Err? && r.error == NotAnObject <==> msg.None? || !msg.value.Obj?
    ensures r.Ok? && TX in old(m.types) ==> |m.types| <= |old(m.types)| + Objects(msg.value)
    ensures r == Err(TooManyDuplicates) ==>
      msg.Some? && msg.value.Obj? && Overfull(m.types) && |m.types| < |old(m.types)| + Objects(msg.value)
    ensures r.Err? && r.error == NoTypeString <==> msg.Some? && msg.value.Obj? && MsgRootType(msg.value).Err?
    ensures r.Ok? && TX in old(m.types) && Identifiers(msg.value) ==>
      exists mid :: MsgAdded(old(m.types), mid, m.types, field, msg.value, r.value)
  {
    if msg.None? || !msg.value.Obj? {
      return Err(NotAnObject);
    }
    var root := MsgRootType(msg.value);
    if root.Err? {
      return Err(root.error);
    }
    hide Describes, Objects, Overfull, Closed, Identifiers, MsgRootType, Extends, MsgAdded;
    r := m.AddTypes(root.value, ROOT_PREFIX, msg.value);
    if r.Err? {
      return r;
    }
    var txTypes := if TX in m.types then m.types[TX] else [];
    ghost var was, mid := old(m.types), m.types;
    m.types := m.types[TX := txTypes + [Field(field, r.value)]];
    LineExtends(was, mid, txTypes + [Field(field, r.value)]);
    if TX in was && Identifiers(msg.value) { LineAdded(was, mid, field, msg.value, r.value); }
  }

  lemma LineExtends(was: Types, mid: Types, line: seq<Field>)
    requires Extends(was, mid)
    ensures Extends(was, mid[TX := line])
    ensures TX in was ==> TX in mid && |mid[TX := line]| == |mid|
  {
    if TX in was { SameSize(mid, TX, line); }
  }

  lemma LineAdded(was: Types, mid: Types, field: string, msg: Json, key: string)
    requires Extends(was, mid) && TX in was && TX in mid && mid[TX] == was[TX]
    requires DescribesMsg(mid, key, msg) && (Closed(was) ==> Closed(mid))
    ensures MsgAdded(was, mid, mid[TX := mid[TX] + [Field(field, key)]], field, msg, key)
  {
  }

  /** The objects in the first `n` messages. */
  ghost function PayloadObjects(payload: map<string, Json>, n: nat): (r: nat)
  {
    if n == 0 then 0
    else PayloadObjects(payload, n - 1) + (if MsgField(n - 1) in payload then ObjectsIn(payload[MsgField(n - 1)]) else 0)
  }

  lemma {:induction false} PayloadGrows(payload: map<string, Json>, m: nat, n: nat)
    requires m <= n
    ensures PayloadObjects(payload, m) <= PayloadObjects(payload, n)
  {
    if m < n { PayloadGrows(payload, m, n - 1); }
  }

  /** After `n` messages there are the base types and no more definitions than objects. */
  ghost predicate Counted(types: Types, payload: map<string, Json>, n: nat)
  {
    Extends(BaseTypes(), types) && TX in types && |types| <= |BaseTypes()| + PayloadObjects(payload, n)
  }

  lemma CountStart(payload: map<string, Json>)
    ensures Counted(BaseTypes(), payload, 0)
  {
  }

  lemma CountStep(was: Types, now: Types, payload: map<string, Json>, i: nat)
    requires Counted(was, payload, i) && Extends(was, now)
    requires MsgField(i) in payload && payload[MsgField(i)].Obj? && |now| <= |was| + Objects(payload[MsgField(i)])
    ensures Counted(now, payload, i + 1)
  {
    hide BaseTypes, Objects;
  }

  lemma TooManyMeansThousand(was: Types, types: Types, payload: map<string, Json>, i: nat, n: nat)
    requires i < n && Counted(was, payload, i) && Overfull(types) && Extends(was, types)
    requires MsgField(i) in payload && payload[MsgField(i)].Obj? && |types| < |was| + Objects(payload[MsgField(i)])
    ensures PayloadObjects(payload, n) > MAX_DUPLICATES
  {
    hide BaseTypes, Overfull, Objects;
    OverfullIsLarge(types);
    PayloadGrows(payload, i + 1, n);
  }

  method CreateEip712Types(payload: map<string, Json>, numPayloadMsgs: nat) returns (r: Result<Types, Error>)
    ensures r.Ok? && AllIdentifiers(payload) ==> Schema(r.value, payload, numPayloadMsgs)
    ensures r.Ok? ==> forall i: nat :: i < numPayloadMsgs ==> WellTyped(payload, i)
    ensures r == Err(TooManyDuplicates) ==> PayloadObjects(payload, numPayloadMsgs) > MAX_DUPLICATES
    ensures r.Err? && r.error != TooManyDuplicates ==> exists i: nat :: i < numPayloadMsgs && !WellTyped(payload, i)
  {
    hide Schema, Describes, Closed, Extends, MsgAdded, MsgField, MsgRootType, BaseTypes, Identifiers;
    hide Objects, Overfull, PayloadObjects;
    var m := new TypeMap();
    BaseSchema(payload);
    CountStart(payload);
    var i: nat := 0;
    while i < numPayloadMsgs
      invariant i <= numPayloadMsgs
      invariant Counted(m.types, payload, i)
      invariant AllIdentifiers(payload) ==> Schema(m.types, payload, i)
      invariant forall j: nat :: j < i ==> WellTyped(payload, j)
    {
      var field := MsgField(i);
      var msg := if field in payload then Some(payload[field]) else None;
      ghost var was := m.types;
      var added := AddMsgTypesToRoot(m, field, msg);
      if added.Err? {
        if added.error == TooManyDuplicates { TooManyMeansThousand(was, m.types, payload, i, numPayloadMsgs); }
        assert added.error != TooManyDuplicates ==> !WellTyped(payload, i);
        return Err(added.error);
      }
      CountStep(was, m.types, payload, i);
      if AllIdentifiers(payload) { SchemaStep(was, m.types, payload, i, added.value); }
      i := i + 1;
    }
    return Ok(m.types);
  }

  /** The message is there, is an object, and names its type. */
  predicate WellTyped(payload: map<string, Json>, i: nat)
  {
    MsgField(i) in payload && payload[MsgField(i)].Obj? && MsgRootType(payload[MsgField(i)]).Ok?
  }

  lemma SchemaStep(was: Types, now: Types, payload: map<string, Json>, i: nat, key: string)
    requires Schema(was, payload, i) && MsgField(i) in payload
    requires TX in was ==> exists mid :: MsgAdded(was, mid, now, MsgField(i), payload[MsgField(i)], key)
    ensures Schema(now, payload, i + 1)
  {
    hide Describes, Closed, Extends;
    var mid :| MsgAdded(was, mid, now, MsgField(i), payload[MsgField(i)], key);
    SchemaStill(was, mid, payload, i);
    SchemaNext(mid, now, payload, i, key);
  }
}
