/** Base64 and Base64url (RFC 4648 sections 3.5, 4 and 5) as Node and browsers read and write them. */
module Base64 {

  type Byte = b: int | 0 <= b < 256

  type Sextet = v: int | 0 <= v < 64

  predicate InAlphabet(c: char) {
    'A' <= c <= 'Z' || 'a' <= c <= 'z' || '0' <= c <= '9' || c == '+' || c == '/'
  }

  function ToChar(v: Sextet): (c: char)
    ensures InAlphabet(c) && FromChar(c) == v
  {
    if v < 26 then (v + 65) as char
    else if v < 52 then (v + 71) as char
    else if v < 62 then (v - 4) as char
    else if v == 62 then '+'
    else '/'
  }

  function FromChar(c: char): Sextet
    requires InAlphabet(c)
  {
    if 'A' <= c <= 'Z' then c as int - 65
    else if 'a' <= c <= 'z' then c as int - 71
    else if '0' <= c <= '9' then c as int + 4
    else if c == '+' then 62
    else 63
  }

  lemma CharOfSextet(c: char)
    requires InAlphabet(c)
    ensures ToChar(FromChar(c)) == c
  {
  }

  predicate AllInAlphabet(s: string) {
    forall i :: 0 <= i < |s| ==> InAlphabet(s[i])
  }

  // ---- Bytes and groups of six bits ---------------------------------------------------------

  function Six0(b0: Byte): Sextet { b0 / 4 }
  function Six1(b0: Byte, b1: Byte): Sextet { b0 % 4 * 16 + b1 / 16 }
  function Six2(b1: Byte, b2: Byte): Sextet { b1 % 16 * 4 + b2 / 64 }
  function Six3(b2: Byte): Sextet { b2 % 64 }

  function Byte0(v0: Sextet, v1: Sextet): Byte { v0 * 4 + v1 / 16 }
  function Byte1(v1: Sextet, v2: Sextet): Byte { v1 % 16 * 16 + v2 / 4 }
  function Byte2(v2: Sextet, v3: Sextet): Byte { v2 % 4 * 64 + v3 }

  function Sextets(b: seq<Byte>): seq<Sextet> {
    if b == [] then []
    else if |b| == 1 then [Six0(b[0]), Six1(b[0], 0)]
    else if |b| == 2 then [Six0(b[0]), Six1(b[0], b[1]), Six2(b[1], 0)]
    else [Six0(b[0]), Six1(b[0], b[1]), Six2(b[1], b[2]), Six3(b[2])] + Sextets(b[3..])
  }

  /** Whole bytes only; bits left over at the end are dropped. */
  function BytesOf(v: seq<Sextet>): seq<Byte> {
    if |v| < 2 then []
    else if |v| == 2 then [Byte0(v[0], v[1])]
    else if |v| == 3 then [Byte0(v[0], v[1]), Byte1(v[1], v[2])]
    else [Byte0(v[0], v[1]), Byte1(v[1], v[2]), Byte2(v[2], v[3])] + BytesOf(v[4..])
  }

  /** The bits that the last group holds beyond the last byte (RFC 4648 section 3.5). */
  predicate SpareBitsZero(v: seq<Sextet>) {
    && (|v| % 4 == 2 ==> v[|v| - 1] % 16 == 0)
    && (|v| % 4 == 3 ==> v[|v| - 1] % 4 == 0)
  }

  lemma ByFour(a: int, b: int)
    requires 0 <= b < 4
    ensures (a * 4 + b) / 4 == a && (a * 4 + b) % 4 == b
  {
  }

  lemma BySixteen(a: int, b: int)
    requires 0 <= b < 16
    ensures (a * 16 + b) / 16 == a && (a * 16 + b) % 16 == b
  {
  }

  lemma BySixtyFour(a: int, b: int)
    requires 0 <= b < 64
    ensures (a * 64 + b) / 64 == a && (a * 64 + b) % 64 == b
  {
  }

  lemma BytesBack(b0: Byte, b1: Byte, b2: Byte)
    ensures Byte0(Six0(b0), Six1(b0, b1)) == b0
    ensures Byte1(Six1(b0, b1), Six2(b1, b2)) == b1
    ensures Byte2(Six2(b1, b2), Six3(b2)) == b2
  {
    BySixteen(b0 % 4, b1 / 16);
    ByFour(b1 % 16, b2 / 64);
  }

  lemma SixBack(v0: Sextet, v1: Sextet, v2: Sextet, v3: Sextet)
    ensures var x, y, z := Byte0(v0, v1), Byte1(v1, v2), Byte2(v2, v3);
            Six0(x) == v0 && Six1(x, y) == v1 && Six2(y, z) == v2 && Six3(z) == v3
  {
    ByFour(v0, v1 / 16);
    BySixteen(v1 % 16, v2 / 4);
    BySixtyFour(v2 % 4, v3);
  }

  lemma SpareBack(v0: Sextet, v1: Sextet, v2: Sextet)
    ensures Six1(Byte0(v0, v1), 0) == v1 <==> v1 % 16 == 0
    ensures Six2(Byte1(v1, v2), 0) == v2 <==> v2 % 4 == 0
  {
    ByFour(v0, v1 / 16);
    BySixteen(v1 % 16, v2 / 4);
    assert Six1(Byte0(v0, v1), 0) == v1 / 16 * 16;
    assert Six2(Byte1(v1, v2), 0) == v2 / 4 * 4;
  }

  lemma TripleOfThree(b0: Byte, b1: Byte, b2: Byte, rest: seq<Byte>)
    ensures BytesOf(Sextets([b0, b1, b2] + rest)) == [b0, b1, b2] + BytesOf(Sextets(rest))
  {
    var b := [b0, b1, b2] + rest;
    var v0, v1, v2, v3 := Six0(b0), Six1(b0, b1), Six2(b1, b2), Six3(b2);
    assert b[3..] == rest;
    assert Sextets(b) == [v0, v1, v2, v3] + Sextets(rest);
    FourThenRest(v0, v1, v2, v3, Sextets(rest));
    BytesBack(b0, b1, b2);
  }

  lemma FourThenRest(v0: Sextet, v1: Sextet, v2: Sextet, v3: Sextet, rest: seq<Sextet>)
    ensures BytesOf([v0, v1, v2, v3] + rest) == [Byte0(v0, v1), Byte1(v1, v2), Byte2(v2, v3)] + BytesOf(rest)
  {
    assert ([v0, v1, v2, v3] + rest)[4..] == rest;
  }

  lemma PairBack(b0: Byte, b1: Byte)
    ensures BytesOf(Sextets([b0, b1])) == [b0, b1]
  {
    BytesBack(b0, b1, 0);
    assert BytesOf([Six0(b0), Six1(b0, b1), Six2(b1, 0)])
           == [Byte0(Six0(b0), Six1(b0, b1)), Byte1(Six1(b0, b1), Six2(b1, 0))];
  }

  lemma FirstBack(b0: Byte, b1: Byte)
    ensures Byte0(Six0(b0), Six1(b0, b1)) == b0
  {
  }

  lemma SingleBack(b: seq<Byte>)
    requires |b| == 1
    ensures BytesOf(Sextets(b)) == b
  {
    var v := Sextets(b);
    FirstBack(b[0], 0);
    assert BytesOf(v) == [Byte0(v[0], v[1])];
  }

  lemma {:induction false} BytesOfSextets(b: seq<Byte>)
    ensures BytesOf(Sextets(b)) == b
  {
    if |b| == 1 {
      SingleBack(b);
    } else if |b| == 2 {
      PairBack(b[0], b[1]);
      assert b == [b[0], b[1]];
    } else if |b| >= 3 {
      var rest := b[3..];
      BytesOfSextets(rest);
      TripleOfThree(b[0], b[1], b[2], rest);
      assert b == [b[0], b[1], b[2]] + rest;
    }
  }

  lemma {:induction false} SextetsLength(b: seq<Byte>)
    ensures |Sextets(b)| == (|b| * 4 + 2) / 3
  {
    if |b| > 2 {
      SextetsLength(b[3..]);
    }
  }

  lemma QuadBack(v: seq<Sextet>)
    requires |v| >= 4
    ensures Sextets(BytesOf(v)) == v[..4] + Sextets(BytesOf(v[4..]))
  {
    SixBack(v[0], v[1], v[2], v[3]);
    assert BytesOf(v)[3..] == BytesOf(v[4..]);
    assert v[..4] == [v[0], v[1], v[2], v[3]];
  }

  lemma ThreeGroups(v0: Sextet, v1: Sextet, v2: Sextet)
    ensures Sextets(BytesOf([v0, v1, v2])) == [v0, v1, v2] <==> v2 % 4 == 0
  {
    var x, y := Byte0(v0, v1), Byte1(v1, v2);
    SixBack(v0, v1, v2, 0);
    SpareBack(v0, v1, v2);
    assert BytesOf([v0, v1, v2]) == [x, y];
    assert Sextets([x, y]) == [v0, v1, Six2(y, 0)];
    assert [v0, v1, Six2(y, 0)] == [v0, v1, v2] <==> Six2(y, 0) == v2;
  }

  lemma TwoGroups(v0: Sextet, v1: Sextet)
    ensures Sextets(BytesOf([v0, v1])) == [v0, v1] <==> v1 % 16 == 0
  {
    var x := Byte0(v0, v1);
    SixBack(v0, v1, 0, 0);
    SpareBack(v0, v1, 0);
    assert BytesOf([v0, v1]) == [x];
    assert Sextets([x]) == [v0, Six1(x, 0)];
    assert [v0, Six1(x, 0)] == [v0, v1] <==> Six1(x, 0) == v1;
  }

  lemma TailOfThree(v: seq<Sextet>)
    requires |v| == 3
    ensures Sextets(BytesOf(v)) == v <==> SpareBitsZero(v)
  {
    ThreeGroups(v[0], v[1], v[2]);
    assert v == [v[0], v[1], v[2]];
  }

  lemma TailOfTwo(v: seq<Sextet>)
    requires |v| == 2
    ensures Sextets(BytesOf(v)) == v <==> SpareBitsZero(v)
  {
    TwoGroups(v[0], v[1]);
    assert v == [v[0], v[1]];
  }

  lemma TailOfNone(v: seq<Sextet>)
    requires v == []
    ensures Sextets(BytesOf(v)) == v && SpareBitsZero(v)
  {
  }

  lemma TailGroupsBack(v: seq<Sextet>)
    requires |v| < 4 && |v| != 1
    ensures Sextets(BytesOf(v)) == v <==> SpareBitsZero(v)
  {
    if |v| == 3 {
      TailOfThree(v);
    } else if |v| == 2 {
      TailOfTwo(v);
    } else {
      TailOfNone(v);
    }
  }

  lemma SpareBitsOfRest(v: seq<Sextet>)
    requires |v| >= 4
    ensures SpareBitsZero(v) <==> SpareBitsZero(v[4..])
  {
    var rest := v[4..];
    assert |rest| % 4 == |v| % 4;
    assert rest != [] ==> rest[|rest| - 1] == v[|v| - 1];
  }

  lemma SamePrefix(v: seq<Sextet>, a: seq<Sextet>, w: seq<Sextet>)
    requires |v| >= 4 && w == v[..4] + a
    ensures w == v <==> a == v[4..]
  {
    assert w[4..] == a && v == v[..4] + v[4..];
  }

  /** Encoding what was decoded gives the groups back exactly when the spare bits are zero. */
  lemma {:induction false} SextetsOfBytes(v: seq<Sextet>)
    requires |v| % 4 != 1
    ensures Sextets(BytesOf(v)) == v <==> SpareBitsZero(v)
  {
    if |v| < 4 {
      TailGroupsBack(v);
    } else {
      var rest := v[4..];
      SextetsOfBytes(rest);
      QuadBack(v);
      SpareBitsOfRest(v);
      SamePrefix(v, Sextets(BytesOf(rest)), Sextets(BytesOf(v)));
    }
  }

  lemma {:induction false} BytesLength(v: seq<Sextet>)
    ensures |v| % 4 != 1 ==> |BytesOf(v)| == |v| * 3 / 4
  {
    if |v| >= 4 {
      var n, rest := |v|, v[4..];
      BytesLength(rest);
      assert |BytesOf(v)| == 3 + |BytesOf(rest)| && |rest| == n - 4;
      FourMore(n);
    }
  }

  lemma FourMore(n: nat)
    requires n >= 4
    ensures n * 3 / 4 == 3 + (n - 4) * 3 / 4 && (n - 4) % 4 == n % 4
  {
  }

  // ---- Text ---------------------------------------------------------------------------------

  function TextOf(v: seq<Sextet>): (s: string)
    ensures |s| == |v| && AllInAlphabet(s)
  {
    seq(|v|, (i: int) requires 0 <= i < |v| => ToChar(v[i]))
  }

  function ValuesOf(s: string): (v: seq<Sextet>)
    requires AllInAlphabet(s)
    ensures |v| == |s|
  {
    seq(|s|, (i: int) requires 0 <= i < |s| => FromChar(s[i]))
  }

  lemma TextBack(s: string, v: seq<Sextet>)
    ensures ValuesOf(TextOf(v)) == v
    ensures AllInAlphabet(s) ==> TextOf(ValuesOf(s)) == s
  {
    if AllInAlphabet(s) {
      forall i | 0 <= i < |s| ensures TextOf(ValuesOf(s))[i] == s[i] {
        CharOfSextet(s[i]);
      }
    }
  }

  /** The encoding without padding, and its inverse. */
  function Chars(b: seq<Byte>): (s: string)
    ensures AllInAlphabet(s)
  {
    TextOf(Sextets(b))
  }

  function Bytes(s: string): seq<Byte>
    requires AllInAlphabet(s)
  {
    BytesOf(ValuesOf(s))
  }

  lemma BytesOfChars(b: seq<Byte>)
    ensures Bytes(Chars(b)) == b && |Chars(b)| == (|b| * 4 + 2) / 3
  {
    BytesOfSextets(b);
    SextetsLength(b);
    TextBack("", Sextets(b));
  }

  lemma CharsOfBytes(s: string)
    requires AllInAlphabet(s) && |s| % 4 != 1
    ensures Chars(Bytes(s)) == s <==> SpareBitsZero(ValuesOf(s))
    ensures |Bytes(s)| == |s| * 3 / 4
  {
    var v := ValuesOf(s);
    SextetsOfBytes(v);
    BytesLength(v);
    TextBack(s, v);
    TextBack(s, Sextets(BytesOf(v)));
  }

  // ---- Padding ------------------------------------------------------------------------------

  function Repeat(c: char, n: nat): (s: string)
    ensures |s| == n && forall i :: 0 <= i < n ==> s[i] == c
  {
    if n == 0 then "" else [c] + Repeat(c, n - 1)
  }

  /** '='.repeat((4 - (length % 4)) % 4) */
  function Padding(length: nat): string {
    Repeat('=', (4 - length % 4) % 4)
  }

  /** Buffer.toString('base64') */
  function Encode(b: seq<Byte>): string {
    Chars(b) + Padding(|Chars(b)|)
  }

  function WithoutPadding(s: string): string {
    if s == "" || s[|s| - 1] != '=' then s
    else if |s| >= 2 && s[|s| - 2] == '=' then s[..|s| - 2]
    else s[..|s| - 1]
  }

  /** /^(?:[A-Za-z0-9+/]{4})*(?:[A-Za-z0-9+/]{2}==|[A-Za-z0-9+/]{3}=)?$/ */
  predicate MatchesBase64(s: string) {
    if s == "" then true
    else if |s| < 4 || !InAlphabet(s[0]) || !InAlphabet(s[1]) then false
    else if InAlphabet(s[2]) && InAlphabet(s[3]) then MatchesBase64(s[4..])
    else |s| == 4 && s[3] == '=' && (s[2] == '=' || InAlphabet(s[2]))
  }

  lemma StripPadding(s: string)
    requires AllInAlphabet(s) && |s| % 4 != 1
    ensures WithoutPadding(s + Padding(|s|)) == s
  {
    if |s| % 4 == 2 {
      StripTwo(s, s + Padding(|s|));
    } else if |s| % 4 == 3 {
      StripOne(s, s + Padding(|s|));
    } else {
      assert s + Padding(|s|) == s;
      assert s != "" ==> InAlphabet(s[|s| - 1]);
    }
  }

  lemma StripOne(s: string, t: string)
    requires AllInAlphabet(s) && s != "" && t == s + "="
    ensures WithoutPadding(t) == s
  {
    assert t[..|t| - 1] == s && t[|t| - 2] == s[|s| - 1] && InAlphabet(s[|s| - 1]);
  }

  lemma StripTwo(s: string, t: string)
    requires t == s + "=="
    ensures WithoutPadding(t) == s
  {
    assert t[..|t| - 2] == s && t[|t| - 1] == t[|t| - 2] == '=';
  }

  lemma MatchesQuad(s: string)
    requires |s| >= 4 && AllInAlphabet(s[..4])
    ensures MatchesBase64(s) == MatchesBase64(s[4..])
  {
    assert InAlphabet(s[..4][0]) && InAlphabet(s[..4][1]) && InAlphabet(s[..4][2]) && InAlphabet(s[..4][3]);
  }

  lemma PaddingIs(n: nat)
    ensures |Padding(n)| == (4 - n % 4) % 4
    ensures n % 4 == 0 ==> Padding(n) == ""
    ensures n % 4 == 1 ==> Padding(n) == ['=', '=', '=']
    ensures n % 4 == 2 ==> Padding(n) == ['=', '=']
    ensures n % 4 == 3 ==> Padding(n) == ['=']
  {
  }

  lemma TailMatches(d: string, p: string)
    requires AllInAlphabet(d) && |d| + |p| == if d == "" then 0 else 4
    requires p == "" || p == ['='] || p == ['=', '=']
    ensures MatchesBase64(d + p)
  {
    if d == "" {
      assert d + p == "";
    } else {
      var s := d + p;
      assert p != "" ==> s[3] == '=';
      assert |p| == 2 ==> s[2] == '=';
      assert s[0] == d[0] && s[1] == d[1] && (|p| < 2 ==> s[2] == d[2]);
      assert |p| == 0 ==> s[3] == d[3] && s[4..] == "";
    }
  }

  lemma PaddedQuad(d: string, p: string)
    requires AllInAlphabet(d) && |d| >= 4 && MatchesBase64(d[4..] + p)
    ensures MatchesBase64(d + p)
  {
    var s := d + p;
    assert s[4..] == d[4..] + p;
    assert s[..4] == d[..4];
    MatchesQuad(s);
  }

  lemma SamePadding(n: nat, m: nat)
    requires n % 4 == m % 4
    ensures Padding(n) == Padding(m)
  {
  }

  /** A text of the alphabet, of a possible length, followed by its padding is accepted. */
  lemma {:induction false} PaddedMatches(d: string)
    requires AllInAlphabet(d) && |d| % 4 != 1
    ensures MatchesBase64(d + Padding(|d|))
  {
    if |d| >= 4 {
      PaddedMatches(d[4..]);
      SamePadding(|d|, |d[4..]|);
      PaddedQuad(d, Padding(|d|));
    } else {
      var n := |d|;
      var p := Padding(n);
      PaddingIs(n);
      TailMatches(d, p);
    }
  }

  /** What the pattern accepts is a text of the alphabet, of a possible length, followed by its padding. */
  lemma {:induction false} MatchIsPadded(s: string) returns (d: string)
    requires MatchesBase64(s)
    ensures AllInAlphabet(d) && |d| % 4 != 1 && s == d + Padding(|d|)
  {
    if s == "" {
      d := "";
    } else if InAlphabet(s[2]) && InAlphabet(s[3]) {
      var e := MatchIsPadded(s[4..]);
      d := QuadInFront(s, e);
    } else if s[2] == '=' {
      d := s[..2];
      assert s == d + Padding(2);
    } else {
      d := s[..3];
      assert s == d + Padding(3);
    }
  }

  lemma QuadInFront(s: string, e: string) returns (d: string)
    requires |s| >= 4 && AllInAlphabet(s[..4]) && AllInAlphabet(e) && |e| % 4 != 1 && s[4..] == e + Padding(|e|)
    ensures AllInAlphabet(d) && |d| % 4 != 1 && s == d + Padding(|d|)
  {
    d := s[..4] + e;
    assert s == s[..4] + s[4..];
    assert |d| % 4 == |e| % 4;
  }

  lemma MatchedParts(s: string)
    requires MatchesBase64(s)
    ensures var d := WithoutPadding(s); AllInAlphabet(d) && |d| % 4 != 1 && s == d + Padding(|d|)
  {
    var d := MatchIsPadded(s);
    StripPadding(d);
  }

  /** Buffer.from(s, 'base64') on a text that matches the pattern. */
  function Decode(s: string): seq<Byte>
    requires MatchesBase64(s)
  {
    MatchedParts(s);
    Bytes(WithoutPadding(s))
  }

  /** Whatever is encoded matches the pattern and decodes to itself. */
  lemma DecodeOfEncode(b: seq<Byte>)
    ensures MatchesBase64(Encode(b)) && Decode(Encode(b)) == b
  {
    BytesOfChars(b);
    PossibleLength(|b|);
    DecodeOfPadded(Chars(b));
  }

  lemma DecodeOfPadded(d: string)
    requires AllInAlphabet(d) && |d| % 4 != 1
    ensures MatchesBase64(d + Padding(|d|)) && Decode(d + Padding(|d|)) == Bytes(d)
  {
    PaddedMatches(d);
    StripPadding(d);
  }

  lemma PossibleLength(n: nat)
    ensures (n * 4 + 2) / 3 % 4 != 1 && (n > 0 ==> (n * 4 + 2) / 3 > 0)
  {
    var q, r := n / 3, n % 3;
    assert n == 3 * q + r;
    assert (n * 4 + 2) / 3 == 4 * q + (r * 4 + 2) / 3;
  }

  /** A matching text re-encodes to itself exactly when its spare bits are zero (RFC 4648 section 3.5). */
  lemma EncodeOfDecode(s: string)
    requires MatchesBase64(s)
    ensures AllInAlphabet(WithoutPadding(s))
    ensures Encode(Decode(s)) == s <==> SpareBitsZero(ValuesOf(WithoutPadding(s)))
  {
    MatchedParts(s);
    var d := WithoutPadding(s);
    CharsOfBytes(d);
    var e := Chars(Bytes(d));
    StripPadding(d);
    BytesOfChars(Bytes(d));
    if e + Padding(|e|) == s {
      StripPadding(e);
    }
  }
}
