/** The JavaScript string operations the service relies on: `indexOf`,
    `includes`, `replace` with a string pattern, `split` on one character and `join`. */
module Strings {
  import opened Wrappers

  /** `p` occurs in `s` starting at position `i`. */
  predicate OccursAt(s: string, p: string, i: nat)
  {
    i + |p| <= |s| && s[i..i + |p|] == p
  }

  /** `s.indexOf(p, i)`: the first position at or after `i` where `p` occurs. */
  function IndexFrom(s: string, p: string, i: nat): (r: Option<nat>)
    requires i <= |s|
    ensures r.Some? ==> i <= r.value && OccursAt(s, p, r.value)
    ensures r.Some? ==> forall j :: i <= j < r.value ==> !OccursAt(s, p, j)
    ensures r.None? ==> forall j :: i <= j ==> !OccursAt(s, p, j)
    decreases |s| - i
  {
    if OccursAt(s, p, i) then Some(i)
    else if i == |s| then None
    else IndexFrom(s, p, i + 1)
  }

  /** `s.indexOf(p)`, with `None` for -1. */
  function IndexOf(s: string, p: string): Option<nat>
  {
    IndexFrom(s, p, 0)
  }

  /** `s.includes(p)`, the same test as an unanchored regular expression made of `p` alone. */
  predicate Contains(s: string, p: string)
  {
    IndexOf(s, p).Some?
  }

  /** `Contains` is exactly "occurs somewhere". */
  lemma ContainsOccurs(s: string, p: string)
    ensures Contains(s, p) <==> exists i :: OccursAt(s, p, i)
  {
  }

  /** `s.replace(p, r)` with a string pattern: only the first occurrence is replaced. */
  function ReplaceFirst(s: string, p: string, r: string): string
  {
    match IndexOf(s, p)
    case None => s
    case Some(i) => s[..i] + r + s[i + |p|..]
  }

  /** `parts.join(sep)`. */
  function Join(parts: seq<string>, sep: string): string
  {
    if parts == [] then ""
    else if |parts| == 1 then parts[0]
    else parts[0] + sep + Join(parts[1..], sep)
  }

  /** `s.split(c)` for a one-character separator. */
  function Split(s: string, c: char): (parts: seq<string>)
    ensures |parts| >= 1
    ensures forall i :: 0 <= i < |parts| ==> c !in parts[i]
    ensures Join(parts, [c]) == s
  {
    if s == [] then [""]
    else
      var rest := Split(s[1..], c);
      if s[0] == c then
        assert s == [c] + s[1..];
        [""] + rest
      else
        var parts := [[s[0]] + rest[0]] + rest[1..];
        assert parts[1..] == rest[1..];
        assert s == [s[0]] + s[1..];
        parts
  }

  /** Splitting a join of separator-free pieces gives the pieces back. */
  lemma {:induction false} SplitJoin(parts: seq<string>, c: char)
    requires |parts| >= 1
    requires forall i :: 0 <= i < |parts| ==> c !in parts[i]
    ensures Split(Join(parts, [c]), c) == parts
    decreases |parts|, |parts[0]|
  {
    if |parts| == 1 {
      SplitFree(parts[0], c);
    } else if parts[0] == "" {
      var tail := parts[1..];
      SplitJoin(tail, c);
      JoinEmptyHead(parts, c);
    } else {
      var shorter := [parts[0][1..]] + parts[1..];
      SplitJoin(shorter, c);
      JoinLongHead(parts, c);
      assert [parts[0][0]] + parts[0][1..] == parts[0];
    }
  }

  /** A join that starts with an empty piece starts with the separator. */
  lemma JoinEmptyHead(parts: seq<string>, c: char)
    requires |parts| >= 2 && parts[0] == ""
    ensures Join(parts, [c]) == [c] + Join(parts[1..], [c])
  {
  }

  /** A join whose first piece is non-empty starts with that piece's first character,
      followed by the join with that character dropped. */
  lemma JoinLongHead(parts: seq<string>, c: char)
    requires |parts| >= 2 && parts[0] != ""
    ensures Join(parts, [c]) != [] && Join(parts, [c])[0] == parts[0][0]
    ensures Join(parts, [c])[1..] == Join([parts[0][1..]] + parts[1..], [c])
  {
    var shorter := [parts[0][1..]] + parts[1..];
    var h, rest, j := parts[0][0], parts[0][1..], Join(parts[1..], [c]);
    assert shorter[0] == rest && shorter[1..] == parts[1..];
    assert Join(shorter, [c]) == rest + [c] + j;
    assert parts[0] == [h] + rest;
    var s := Join(parts, [c]);
    assert s == parts[0] + [c] + j;
    assert s == [h] + (rest + [c] + j);
  }

  /** A string without the separator splits into itself. */
  lemma {:induction false} SplitFree(s: string, c: char)
    requires c !in s
    ensures Split(s, c) == [s]
  {
    if s != [] {
      SplitFree(s[1..], c);
      assert [s[0]] + s[1..] == s;
    }
  }
}
