/** JSON values as the service receives them from Express's body parser and as
    `JSON.stringify` writes them. Objects keep their own properties in insertion
    order, because `JSON.stringify` and object spread both depend on that order.
    JavaScript lists keys that are array indices ("0", "5", ...) first, in numeric
    order; this model does not, and such keys never pass the service's schemas.
    Numbers are integers only; fractional numbers are not represented. */
module Json {
  import opened Wrappers

  datatype Value =
    | Null
    | Bool(b: bool)
    | Num(n: int)
    | Str(s: string)
    | Arr(items: seq<Value>)
    | Obj(fields: seq<Field>)

  /** One own enumerable property of an object. */
  datatype Field = Field(key: string, value: Value)

  // ---------------------------------------------------------------------------
  // Property access and truthiness
  // ---------------------------------------------------------------------------

  /** No two properties of the object share a key (true of everything `JSON.parse` builds). */
  predicate UniqueKeys(fs: seq<Field>)
  {
    forall i, j :: 0 <= i < j < |fs| ==> fs[i].key != fs[j].key
  }

  /** `o[k]` on an object: the value of the property named `k`, or `undefined`. */
  function Lookup(fs: seq<Field>, k: string): Option<Value>
  {
    if fs == [] then None
    else if fs[0].key == k then Some(fs[0].value)
    else Lookup(fs[1..], k)
  }

  /** A read finds a property exactly when the object has one with that key, and returns its value. */
  lemma {:induction false} LookupSpec(fs: seq<Field>, k: string)
    ensures Lookup(fs, k).None? <==> forall i :: 0 <= i < |fs| ==> fs[i].key != k
    ensures Lookup(fs, k).Some? ==> exists i :: 0 <= i < |fs| && fs[i] == Field(k, Lookup(fs, k).value)
  {
    if fs != [] && fs[0].key != k {
      LookupSpec(fs[1..], k);
      if Lookup(fs, k).Some? {
        var i :| 0 <= i < |fs| - 1 && fs[1..][i] == Field(k, Lookup(fs, k).value);
        assert fs[i + 1] == fs[1..][i];
      }
    }
  }

  /** `v.k` for any value: only objects have the properties this service reads. */
  function Member(v: Value, k: string): Option<Value>
  {
    if v.Obj? then Lookup(v.fields, k) else None
  }

  /** JavaScript truthiness of a defined value. */
  predicate Truthy(v: Value)
  {
    match v
    case Null => false
    case Bool(b) => b
    case Num(n) => n != 0
    case Str(s) => s != ""
    case Arr(_) => true
    case Obj(_) => true
  }

  /** Truthiness of a possibly undefined value: `if (o.k)`. */
  predicate IsSet(v: Option<Value>)
  {
    v.Some? && Truthy(v.value)
  }

  /** `Object.keys(v).length`: strings and arrays have index keys, other primitives none. */
  function KeyCount(v: Value): nat
  {
    match v
    case Obj(fs) => |fs|
    case Arr(items) => |items|
    case Str(s) => |s|
    case _ => 0
  }

  /** Two objects that hold the same properties, possibly listed in different orders. */
  predicate SameProperties(fs: seq<Field>, gs: seq<Field>)
  {
    UniqueKeys(fs) && multiset(fs) == multiset(gs)
  }

  /** Reordering the properties of an object keeps its keys unique. */
  lemma PermutationUnique(fs: seq<Field>, gs: seq<Field>)
    requires SameProperties(fs, gs)
    ensures UniqueKeys(gs)
  {
    forall i, j | 0 <= i < j < |gs| ensures gs[i].key != gs[j].key {
      assert gs[i] in multiset(fs) && gs[j] in multiset(fs);
      var i' :| 0 <= i' < |fs| && fs[i'] == gs[i];
      var j' :| 0 <= j' < |fs| && fs[j'] == gs[j];
      if i' == j' {
        TwoCopies(gs, i, j);
        UniqueCount(fs, i');
      }
    }
  }

  /** Reordering the properties of an object changes no property read. */
  lemma LookupPermutation(fs: seq<Field>, gs: seq<Field>, k: string)
    requires SameProperties(fs, gs)
    ensures Lookup(fs, k) == Lookup(gs, k)
  {
    PermutationUnique(fs, gs);
    LookupSpec(fs, k);
    LookupSpec(gs, k);
    match Lookup(fs, k)
    case None =>
      forall i | 0 <= i < |gs| ensures gs[i].key != k {
        assert gs[i] in multiset(fs);
      }
    case Some(v) =>
      assert Field(k, v) in multiset(gs);
      var w := Lookup(gs, k).value;
      var j :| 0 <= j < |gs| && gs[j] == Field(k, w);
      assert Field(k, w) in multiset(fs);
  }

  /** Two equal elements at different positions make a multiplicity of at least two. */
  lemma TwoCopies<T>(s: seq<T>, i: nat, j: nat)
    requires i < j < |s| && s[i] == s[j]
    ensures multiset(s)[s[i]] >= 2
  {
    assert s == s[..j] + s[j..];
    assert s[i] in s[..j];
    assert s[j] in s[j..];
  }

  /** In an object with unique keys each field occurs exactly once. */
  lemma {:induction false} UniqueCount(fs: seq<Field>, i: nat)
    requires UniqueKeys(fs) && i < |fs|
    ensures multiset(fs)[fs[i]] == 1
  {
    if i == 0 {
      assert fs[0] !in fs[1..];
      assert fs == [fs[0]] + fs[1..];
    } else {
      assert UniqueKeys(fs[1..]);
      UniqueCount(fs[1..], i - 1);
      assert fs == [fs[0]] + fs[1..];
    }
  }

  // ---------------------------------------------------------------------------
  // Object spread: `{ ...base, ...patch }`
  // ---------------------------------------------------------------------------

  /** The keys of an object in order (`Object.keys`). */
  function Keys(fs: seq<Field>): (ks: seq<string>)
    ensures |ks| == |fs| && forall i :: 0 <= i < |fs| ==> ks[i] == fs[i].key
  {
    if fs == [] then [] else [fs[0].key] + Keys(fs[1..])
  }

  /** `o[f.key] = f.value`: an existing property keeps its place, a new one goes last. */
  function Assign(fs: seq<Field>, f: Field): (r: seq<Field>)
    ensures Lookup(r, f.key) == Some(f.value)
    ensures forall k :: k != f.key ==> Lookup(r, k) == Lookup(fs, k)
    ensures |r| == if Lookup(fs, f.key).Some? then |fs| else |fs| + 1
  {
    if fs == [] then [f]
    else if fs[0].key == f.key then [f] + fs[1..]
    else [fs[0]] + Assign(fs[1..], f)
  }

  /** Assigning keeps the existing keys in place and appends a new key last. */
  lemma {:induction false} AssignKeys(fs: seq<Field>, f: Field)
    ensures Keys(Assign(fs, f)) == if Lookup(fs, f.key).Some? then Keys(fs) else Keys(fs) + [f.key]
  {
    if fs != [] && fs[0].key != f.key {
      AssignKeys(fs[1..], f);
      assert Assign(fs, f) == [fs[0]] + Assign(fs[1..], f);
    }
  }

  /** Assigning to an object with unique keys leaves its keys unique. */
  lemma {:induction false} AssignUnique(fs: seq<Field>, f: Field)
    requires UniqueKeys(fs)
    ensures UniqueKeys(Assign(fs, f))
  {
    if fs != [] && fs[0].key != f.key {
      assert UniqueKeys(fs[1..]);
      AssignUnique(fs[1..], f);
      var r := Assign(fs, f);
      assert r == [fs[0]] + Assign(fs[1..], f);
      LookupSpec(fs[1..], fs[0].key);
      assert Lookup(fs[1..], fs[0].key).None?;
      LookupSpec(Assign(fs[1..], f), fs[0].key);
      assert Lookup(Assign(fs[1..], f), fs[0].key).None?;
    }
  }

  /** `{ ...base, ...patch }` for an object patch: the properties of `patch` assigned in order onto a copy of `base`. */
  function Spread(base: seq<Field>, patch: seq<Field>): seq<Field>
    decreases |patch|
  {
    if patch == [] then base else Spread(Assign(base, patch[0]), patch[1..])
  }

  /** Shallow-merge semantics: a key the patch provides takes the patch's value,
      every other key keeps the base's value, and no key is lost or invented. */
  lemma {:induction false} SpreadLookup(base: seq<Field>, patch: seq<Field>, k: string)
    requires UniqueKeys(patch)
    ensures Lookup(Spread(base, patch), k) ==
              if Lookup(patch, k).Some? then Lookup(patch, k) else Lookup(base, k)
    decreases |patch|
  {
    if patch != [] {
      assert UniqueKeys(patch[1..]);
      SpreadLookup(Assign(base, patch[0]), patch[1..], k);
      if k == patch[0].key {
        LookupSpec(patch[1..], k);
        assert Lookup(patch[1..], k).None?;
      }
    }
  }

  /** The merged object keeps every key of the base in its place and appends the new keys of the patch. */
  lemma {:induction false} SpreadKeys(base: seq<Field>, patch: seq<Field>)
    requires UniqueKeys(base)
    ensures UniqueKeys(Spread(base, patch))
    ensures |Spread(base, patch)| >= |base|
    ensures Keys(Spread(base, patch))[..|base|] == Keys(base)
    decreases |patch|
  {
    if patch != [] {
      var b' := Assign(base, patch[0]);
      AssignKeys(base, patch[0]);
      AssignUnique(base, patch[0]);
      SpreadKeys(b', patch[1..]);
      assert Keys(b')[..|base|] == Keys(base);
    }
  }

  /** The index-keyed properties that spreading a string or an array contributes. */
  function IndexFields(vs: seq<Value>, from: nat): (fs: seq<Field>)
    ensures |fs| == |vs|
    decreases |vs|
  {
    if vs == [] then [] else [Field(NatToString(from), vs[0])] + IndexFields(vs[1..], from + 1)
  }

  /** The characters of a string as one-character string values. */
  function Chars(s: string): (vs: seq<Value>)
    ensures |vs| == |s|
  {
    if s == [] then [] else [Str([s[0]])] + Chars(s[1..])
  }

  /** `{ ...base, ...v }` for any `v`: `undefined`, `null`, booleans and numbers add nothing,
      strings and arrays add their index properties, objects their own properties. */
  function SpreadValue(base: seq<Field>, v: Option<Value>): seq<Field>
  {
    match v
    case None => base
    case Some(Obj(fs)) => Spread(base, fs)
    case Some(Str(s)) => Spread(base, IndexFields(Chars(s), 0))
    case Some(Arr(items)) => Spread(base, IndexFields(items, 0))
    case Some(_) => base
  }

  // ---------------------------------------------------------------------------
  // JSON.stringify
  // ---------------------------------------------------------------------------

  function Digit(d: nat): char
    requires d < 10
  {
    "0123456789"[d]
  }

  /** Decimal digits of a natural number, without leading zeros. */
  function NatToString(n: nat): (s: string)
    ensures |s| >= 1
    ensures forall i :: 0 <= i < |s| ==> '0' <= s[i] <= '9'
  {
    if n < 10 then [Digit(n)] else NatToString(n / 10) + [Digit(n % 10)]
  }

  function IntToString(n: int): string
  {
    if n < 0 then "-" + NatToString(-n) else NatToString(n)
  }

  function HexDigit(d: nat): char
    requires d < 16
  {
    "0123456789abcdef"[d]
  }

  /** How `JSON.stringify` writes one character inside a string literal. */
  function EscapeChar(c: char): (e: string)
    ensures |e| >= 1
  {
    if c == '"' then "\\\""
    else if c == '\\' then "\\\\"
    else if c == '\n' then "\\n"
    else if c == '\r' then "\\r"
    else if c == '\t' then "\\t"
    else if c as int == 8 then "\\b"
    else if c as int == 12 then "\\f"
    else if c as int < 32 then "\\u00" + [HexDigit(c as int / 16), HexDigit(c as int % 16)]
    else [c]
  }

  function Escape(s: string): string
  {
    if s == [] then "" else EscapeChar(s[0]) + Escape(s[1..])
  }

  /** `JSON.stringify` of a string. */
  function Quote(s: string): (q: string)
    ensures |q| >= 2 && q[0] == '"' && q[|q| - 1] == '"'
  {
    "\"" + Escape(s) + "\""
  }

  /** `JSON.stringify(v)` with no replacer and no indentation. */
  function Stringify(v: Value): string
  {
    match v
    case Null => "null"
    case Bool(b) => if b then "true" else "false"
    case Num(n) => IntToString(n)
    case Str(s) => Quote(s)
    case Arr(items) => "[" + StringifyItems(items) + "]"
    case Obj(fs) => "{" + StringifyFields(fs) + "}"
  }

  function StringifyItems(items: seq<Value>): string
  {
    if items == [] then ""
    else if |items| == 1 then Stringify(items[0])
    else Stringify(items[0]) + "," + StringifyItems(items[1..])
  }

  function StringifyFields(fs: seq<Field>): string
  {
    if fs == [] then ""
    else if |fs| == 1 then Quote(fs[0].key) + ":" + Stringify(fs[0].value)
    else Quote(fs[0].key) + ":" + Stringify(fs[0].value) + "," + StringifyFields(fs[1..])
  }

  // ---------------------------------------------------------------------------
  // JSON.parse of a string literal
  // ---------------------------------------------------------------------------

  function HexValue(c: char): Option<nat>
  {
    if '0' <= c <= '9' then Some(c as int - '0' as int)
    else if 'a' <= c <= 'f' then Some(c as int - 'a' as int + 10)
    else if 'A' <= c <= 'F' then Some(c as int - 'A' as int + 10)
    else None
  }

  /** The code unit named by the four hex digits of a `\uXXXX` escape. */
  function Hex4(h: string): Option<nat>
    requires |h| == 4
  {
    match (HexValue(h[0]), HexValue(h[1]), HexValue(h[2]), HexValue(h[3]))
    case (Some(a), Some(b), Some(c), Some(d)) => Some(4096 * a + 256 * b + 16 * c + d)
    case _ => None
  }

  function Cons(c: char, rest: Option<string>): Option<string>
  {
    if rest.Some? then Some([c] + rest.value) else None
  }

  /** The character a two-character escape `\\x` stands for. */
  function ShortEscape(x: char): Option<char>
  {
    if x == '"' then Some('"')
    else if x == '\\' then Some('\\')
    else if x == '/' then Some('/')
    else if x == 'b' then Some(8 as char)
    else if x == 'f' then Some(12 as char)
    else if x == 'n' then Some('\n')
    else if x == 'r' then Some('\r')
    else if x == 't' then Some('\t')
    else None
  }

  /** The characters denoted by the body of a JSON string literal, or `None` if
      `JSON.parse` would reject it (a raw quote or control character, a bad escape).
      Escapes of UTF-16 surrogate halves are not decoded: no Dafny character stands for one. */
  function Unescape(t: string): Option<string>
  {
    if t == [] then Some("")
    else if t[0] == '\\' then
      if |t| < 2 then None
      else if ShortEscape(t[1]).Some? then Cons(ShortEscape(t[1]).value, Unescape(t[2..]))
      else if t[1] == 'u' && |t| >= 6 then
        (match Hex4(t[2..6])
         case Some(u) =>
           if u < 0xD800 || 0xE000 <= u then Cons(u as char, Unescape(t[6..])) else None
         case None => None)
      else None
    else if t[0] == '"' || (t[0] as int) < 32 then None
    else Cons(t[0], Unescape(t[1..]))
  }

  /** `JSON.parse` of a text that denotes a string; `None` for every other text. */
  function ParseString(t: string): Option<string>
  {
    if |t| >= 2 && t[0] == '"' && t[|t| - 1] == '"' then Unescape(t[1..|t| - 1]) else None
  }

  lemma HexRoundTrip(d: nat)
    requires d < 16
    ensures HexValue(HexDigit(d)) == Some(d)
  {
  }

  /** Decoding one escaped character consumes exactly its escape. */
  lemma UnescapeChar(c: char, rest: string)
    ensures Unescape(EscapeChar(c) + rest) == Cons(c, Unescape(rest))
  {
    if c == '"' || c == '\\' || c == '\n' || c == '\r' || c == '\t' || c as int == 8 || c as int == 12 {
      UnescapeShort(c, rest);
    } else if c as int < 32 {
      UnescapeControl(c, rest);
    } else {
      var t := EscapeChar(c) + rest;
      assert t[1..] == rest;
    }
  }

  /** The two-character escapes. */
  lemma UnescapeShort(c: char, rest: string)
    requires c == '"' || c == '\\' || c == '\n' || c == '\r' || c == '\t' || c as int == 8 || c as int == 12
    ensures Unescape(EscapeChar(c) + rest) == Cons(c, Unescape(rest))
  {
    var t := EscapeChar(c) + rest;
    assert |EscapeChar(c)| == 2;
    assert t[2..] == rest;
  }

  /** The `\u00XX` escapes of the other control characters. */
  lemma UnescapeControl(c: char, rest: string)
    requires c as int < 32 && !(c == '"' || c == '\\' || c == '\n' || c == '\r' || c == '\t' || c as int == 8 || c as int == 12)
    ensures Unescape(EscapeChar(c) + rest) == Cons(c, Unescape(rest))
  {
    var t := EscapeChar(c) + rest;
    var hi, lo := c as int / 16, c as int % 16;
    HexRoundTrip(hi);
    HexRoundTrip(lo);
    var h := t[2..6];
    assert h == ['0', '0', HexDigit(hi), HexDigit(lo)];
    assert HexValue(h[0]) == Some(0) && HexValue(h[1]) == Some(0);
    assert Hex4(h) == Some(16 * hi + lo);
    assert 16 * hi + lo == c as int;
    assert t[0] == '\\' && t[1] == 'u' && ShortEscape(t[1]).None?;
    assert t[6..] == rest;
  }

  /** `JSON.parse(JSON.stringify(s)) === s` for every string. */
  lemma {:induction false} ParseQuote(s: string)
    ensures ParseString(Quote(s)) == Some(s)
  {
    var q := Quote(s);
    assert q[1..|q| - 1] == Escape(s);
    UnescapeEscape(s);
  }

  lemma {:induction false} UnescapeEscape(s: string)
    ensures Unescape(Escape(s)) == Some(s)
  {
    if s != [] {
      UnescapeChar(s[0], Escape(s[1..]));
      UnescapeEscape(s[1..]);
      assert [s[0]] + s[1..] == s;
    }
  }
}
