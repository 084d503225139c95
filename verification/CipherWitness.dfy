/** The laws asked of the cipher can be met: a text in hexadecimal behind an IV that depends on the key obeys them. */
module CipherWitness {
  import opened Options
  import opened Text
  import opened FieldCipher

  type Nibble = d: int | 0 <= d < 16

  function HexDigit(d: Nibble): (c: char)
    ensures IsLowerHex(c) && HexValue(c) == d
  {
    if d < 10 then (d + 48) as char else (d + 87) as char
  }

  function HexValue(c: char): Nibble {
    if '0' <= c <= '9' then c as int - 48 else if 'a' <= c <= 'f' then c as int - 87 else 0
  }

  function Pow16(n: nat): nat {
    if n == 0 then 1 else 16 * Pow16(n - 1)
  }

  function Nibbles(u: nat, n: nat): (d: seq<Nibble>)
    ensures |d| == n
  {
    if n == 0 then [] else Nibbles(u / 16, n - 1) + [LowNibble(u)]
  }

  function LowNibble(u: nat): Nibble {
    u % 16
  }

  function Joined(d: seq<Nibble>): nat {
    if d == [] then 0 else Joined(d[..|d| - 1]) * 16 + d[|d| - 1]
  }

  lemma {:induction false} NibblesBack(u: nat, n: nat)
    requires u < Pow16(n)
    ensures Joined(Nibbles(u, n)) == u
  {
    if n > 0 {
      NibblesBack(u / 16, n - 1);
      assert Nibbles(u, n)[..n - 1] == Nibbles(u / 16, n - 1);
    }
  }

  function HexOf(d: seq<Nibble>): (s: string)
    ensures |s| == |d| && forall i :: 0 <= i < |s| ==> IsLowerHex(s[i]) && HexValue(s[i]) == d[i]
  {
    seq(|d|, (i: int) requires 0 <= i < |d| => HexDigit(d[i]))
  }

  function ValuesOf(s: string): (d: seq<Nibble>)
    ensures |d| == |s| && forall i :: 0 <= i < |s| ==> d[i] == HexValue(s[i])
  {
    seq(|s|, (i: int) requires 0 <= i < |s| => HexValue(s[i]))
  }

  function Body(p: string): (s: string)
    ensures |s| == 6 * |p| && forall i :: 0 <= i < |s| ==> IsLowerHex(s[i])
  {
    if p == "" then "" else HexOf(Nibbles(p[0] as int, 6)) + Body(p[1..])
  }

  function CharOf(u: int): char {
    if 0 <= u < 0xD800 || 0xE000 <= u < 0x110000 then u as char else '?'
  }

  function Unbody(s: string): string {
    if |s| < 6 then "" else [CharOf(Joined(ValuesOf(s[..6])))] + Unbody(s[6..])
  }

  lemma {:induction false} BodyBack(p: string)
    ensures Unbody(Body(p)) == p
  {
    if p != "" {
      var c, rest := p[0], p[1..];
      var front := HexOf(Nibbles(c as int, 6));
      BodyBack(rest);
      assert Body(p)[..6] == front && Body(p)[6..] == Body(rest);
      assert ValuesOf(front) == Nibbles(c as int, 6);
      assert Pow16(6) == 0x1000000;
      NibblesBack(c as int, 6);
      assert CharOf(c as int) == c;
      assert p == [c] + rest;
    }
  }

  function Repeated(c: char, n: nat): (s: string)
    ensures |s| == n && forall i :: 0 <= i < n ==> s[i] == c
  {
    seq(n, i => c)
  }

  /** The first field tells the empty key from all others. */
  function Iv(k: Key): (s: string)
    ensures |s| == 24 && forall i :: 0 <= i < 24 ==> IsLowerHex(s[i])
  {
    Repeated(if k == [] then '0' else '1', 24)
  }

  lemma IvTellsKeys(k: Key)
    requires k != []
    ensures Iv(k) != Iv([])
  {
    assert Iv(k)[0] == '1' && Iv([])[0] == '0';
  }

  function Seal(k: Key, n: Nonce, p: string): string {
    Iv(k) + [':'] + (Repeated('0', 32) + [':'] + Body(p))
  }

  function Open(k: Key, value: string): Option<string> {
    var parts := Split(value, ':');
    if |parts| == 3 && parts[0] == Iv(k) then Some(Unbody(parts[2])) else None
  }

  lemma SealParts(k: Key, n: Nonce, p: string)
    ensures Split(Seal(k, n, p), ':') == [Iv(k), Repeated('0', 32), Body(p)]
  {
    SplitThree(Iv(k), Repeated('0', 32), Body(p), ':');
  }

  lemma SealShape(k: Key, n: Nonce, p: string)
    ensures LooksLikeEncrypted(Seal(k, n, p))
    ensures IsContractCiphertext(Seal(k, n, p)) <==> p != ""
  {
    SealParts(k, n, p);
    FieldsAreHex(k);
    BodyIsHex(p);
    FieldsShape(Seal(k, n, p), Iv(k), Repeated('0', 32), Body(p));
  }

  lemma FieldsAreHex(k: Key)
    ensures |Iv(k)| == 24 && AllLowerHex(Iv(k))
    ensures |Repeated('0', 32)| == 32 && AllLowerHex(Repeated('0', 32))
  {
  }

  lemma BodyIsHex(p: string)
    ensures AllLowerHex(Body(p)) && |Body(p)| % 2 == 0 && (Body(p) == "" <==> p == "")
  {
    assert |Body(p)| == 2 * (3 * |p|);
  }

  /** Three fields in lower-case hexadecimal are a ciphertext; the stricter shape asks for a body. */
  lemma FieldsShape(value: string, iv: string, tag: string, body: string)
    requires Split(value, ':') == [iv, tag, body] && |iv| == 24 && |tag| == 32 && |body| % 2 == 0
    requires AllLowerHex(iv) && AllLowerHex(tag) && AllLowerHex(body)
    ensures LooksLikeEncrypted(value)
    ensures IsContractCiphertext(value) <==> body != ""
  {
    LowerHexSegment(iv);
    LowerHexSegment(tag);
    LowerHexSegment(body);
  }

  predicate AllLowerHex(s: string) {
    forall i :: 0 <= i < |s| ==> IsLowerHex(s[i])
  }

  lemma LowerHexSegment(s: string)
    requires AllLowerHex(s)
    ensures forall c :: c in s ==> IsLowerHex(c) && IsHex(c)
  {
  }

  /** Some cipher is lawful. */
  lemma LawfulIsPossible()
    ensures Lawful(Cipher(Open, Seal))
  {
    forall k, n, p
      ensures Open(k, Seal(k, n, p)) == Some(p) && LooksLikeEncrypted(Seal(k, n, p))
      ensures IsContractCiphertext(Seal(k, n, p)) <==> p != ""
    {
      SealParts(k, n, p);
      BodyBack(p);
      SealShape(k, n, p);
    }
  }

  /** A text sealed with another key does not open with the empty one. */
  lemma OtherKeyRefused(k: Key, n: Nonce, p: string)
    requires k != []
    ensures Open([], Seal(k, n, p)).None? && Open(k, Seal(k, n, p)) == Some(p)
  {
    SealParts(k, n, p);
    BodyBack(p);
    IvTellsKeys(k);
  }
}
