/** The JavaScript string operations that the modelled code uses. */
module Text {

  /** White space as String.prototype.trim removes it. */
  predicate IsSpace(c: char) {
    var u := c as int;
    0x09 <= u <= 0x0D || u == 0x20 || u == 0xA0 || u == 0x1680 || 0x2000 <= u <= 0x200A
    || u == 0x2028 || u == 0x2029 || u == 0x202F || u == 0x205F || u == 0x3000 || u == 0xFEFF
  }

  /** `!s.trim()`. */
  predicate IsBlank(s: string) {
    forall c :: c in s ==> IsSpace(c)
  }

  function TrimStart(s: string): (r: string)
    ensures r == "" || !IsSpace(r[0])
    ensures r == [] <==> IsBlank(s)
    ensures |r| <= |s| && r == s[|s| - |r|..]
  {
    if s == "" || !IsSpace(s[0]) then s else TrimStart(s[1..])
  }

  function TrimEnd(s: string): (r: string)
    ensures r == "" || !IsSpace(r[|r| - 1])
    ensures |r| <= |s| && r == s[..|r|]
    ensures r == [] <==> IsBlank(s)
  {
    if s == "" || !IsSpace(s[|s| - 1]) then s else TrimEnd(s[..|s| - 1])
  }

  function Trim(s: string): (r: string)
    ensures r == "" || (!IsSpace(r[0]) && !IsSpace(r[|r| - 1]))
    ensures r == [] <==> IsBlank(s)
  {
    TrimEnd(TrimStart(s))
  }

  /** A string without white space at either end is its own trim. */
  lemma TrimFixed(s: string)
    requires s == "" || (!IsSpace(s[0]) && !IsSpace(s[|s| - 1]))
    ensures Trim(s) == s
  {
  }

  /** Position of the first occurrence of c, or |s|. */
  function IndexOf(s: string, c: char): (i: nat)
    ensures i <= |s| && c !in s[..i] && (i < |s| ==> s[i] == c)
  {
    if s == "" || s[0] == c then 0 else
      var i := 1 + IndexOf(s[1..], c);
      assert s[..i] == [s[0]] + s[1..][..i - 1];
      i
  }

  function Split(s: string, sep: char): (parts: seq<string>)
    ensures parts != []
    decreases |s|
  {
    var i := IndexOf(s, sep);
    if i == |s| then [s] else [s[..i]] + Split(s[i + 1..], sep)
  }

  predicate IsDigit(c: char) {
    '0' <= c <= '9'
  }

  predicate IsLowerHex(c: char) {
    IsDigit(c) || 'a' <= c <= 'f'
  }

  predicate IsHex(c: char) {
    IsLowerHex(c) || 'A' <= c <= 'F'
  }

  predicate StartsWith(s: string, prefix: string) {
    prefix <= s
  }

  /** s.replace(/c/g, t) for one character c. */
  function ReplaceAll(s: string, c: char, t: string): string {
    if s == "" then "" else (if s[0] == c then t else [s[0]]) + ReplaceAll(s[1..], c, t)
  }

  lemma {:induction false} IndexOfFirst(a: string, c: char, rest: string)
    requires c !in a
    ensures IndexOf(a + [c] + rest, c) == |a|
  {
    if a == "" {
      assert ("" + [c] + rest)[0] == c;
    } else {
      IndexOfFirst(a[1..], c, rest);
      assert (a + [c] + rest)[1..] == a[1..] + [c] + rest;
      assert (a + [c] + rest)[0] == a[0];
      assert forall d :: d in a[1..] ==> d in a;
    }
  }

  lemma {:induction false} IndexOfNone(a: string, c: char)
    requires c !in a
    ensures IndexOf(a, c) == |a|
  {
    if a != "" {
      IndexOfNone(a[1..], c);
    }
  }

  lemma FirstPart(s: string, c: char) returns (first: string, rest: string)
    requires |Split(s, c)| > 1
    ensures s == first + [c] + rest && c !in first && Split(s, c) == [first] + Split(rest, c)
  {
    var i := IndexOf(s, c);
    first, rest := s[..i], s[i + 1..];
  }

  lemma OnlyPart(s: string, c: char)
    requires |Split(s, c)| == 1
    ensures c !in s && Split(s, c) == [s]
  {
    var i := IndexOf(s, c);
    assert s[..|s|] == s;
    assert i < |s| ==> Split(s[i + 1..], c) != [];
  }

  /** A string that splits into three is made of three parts without the separator. */
  lemma ThreeParts(s: string, c: char) returns (a: string, b: string, d: string)
    requires |Split(s, c)| == 3
    ensures s == a + [c] + (b + [c] + d) && c !in a && c !in b && c !in d
    ensures Split(s, c) == [a, b, d]
  {
    var tail;
    a, tail := FirstPart(s, c);
    b, d := FirstPart(tail, c);
    OnlyPart(d, c);
  }

  /** Splitting parts that do not hold the separator gives the parts back. */
  lemma SplitThree(a: string, b: string, d: string, c: char)
    requires c !in a && c !in b && c !in d
    ensures Split(a + [c] + (b + [c] + d), c) == [a, b, d]
  {
    var tail := b + [c] + d;
    var s := a + [c] + tail;
    IndexOfFirst(a, c, tail);
    IndexOfFirst(b, c, d);
    IndexOfNone(d, c);
    assert s[..|a|] == a && s[|a| + 1..] == tail;
    assert tail[..|b|] == b && tail[|b| + 1..] == d;
    assert Split(d, c) == [d];
    assert Split(tail, c) == [b] + Split(d, c);
    assert Split(s, c) == [a] + Split(tail, c);
  }
}
