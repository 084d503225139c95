/**
 * Reading the payload of a token whose Base64url part carries no padding
 * (apps/portal/src/lib/api-client.ts:385-401).
 */
module Jwt {
  import opened Options
  import opened Text
  import opened Base64

  predicate InUrlAlphabet(c: char) {
    'A' <= c <= 'Z' || 'a' <= c <= 'z' || '0' <= c <= '9' || c == '-' || c == '_'
  }

  predicate AllInUrlAlphabet(s: string) {
    forall i :: 0 <= i < |s| ==> InUrlAlphabet(s[i])
  }

  function ToUrlChar(c: char): char {
    if c == '+' then '-' else if c == '/' then '_' else c
  }

  function FromUrlChar(c: char): char {
    if c == '-' then '+' else if c == '_' then '/' else c
  }

  /** Base64url without padding (RFC 4648 section 5). */
  function EncodeUrl(b: seq<Byte>): string {
    var s := Chars(b);
    seq(|s|, (i: int) requires 0 <= i < |s| => ToUrlChar(s[i]))
  }

  /** encoded.replace(/-/g, '+').replace(/_/g, '/') */
  function Swap(encoded: string): string {
    ReplaceAll(ReplaceAll(encoded, '-', "+"), '_', "/")
  }

  function WithoutAsciiSpace(s: string): string {
    if s == "" then ""
    else if s[0] in " \t\n\r" || s[0] as int == 12 then WithoutAsciiSpace(s[1..])
    else [s[0]] + WithoutAsciiSpace(s[1..])
  }

  /** atob: forgiving Base64 decode; None for the thrown error. */
  function Atob(s: string): Option<seq<Byte>> {
    var t := WithoutAsciiSpace(s);
    var d := if |t| % 4 == 0 then WithoutPadding(t) else t;
    if |d| % 4 == 1 || !AllInAlphabet(d) then None else Some(Bytes(d))
  }

  /** decodeJwtPayload with JSON.parse as a parameter. */
  function DecodeJwtPayload<T>(token: string, parse: seq<Byte> -> Option<T>): Option<T> {
    var parts := Split(token, '.');
    if |parts| != 3 || parts[1] == "" then None
    else
      var base64 := Swap(parts[1]);
      var bytes := Atob(base64 + Padding(|base64|));
      if bytes.None? then None else parse(bytes.value)
  }

  lemma {:induction false} ReplaceOne(s: string, c: char, t: char)
    ensures |ReplaceAll(s, c, [t])| == |s|
    ensures forall i :: 0 <= i < |s| ==> ReplaceAll(s, c, [t])[i] == if s[i] == c then t else s[i]
  {
    if s != "" {
      ReplaceOne(s[1..], c, t);
    }
  }

  /** The two global replacements act on each character alone. */
  lemma SwapIsPointwise(encoded: string)
    ensures |Swap(encoded)| == |encoded|
    ensures forall i :: 0 <= i < |encoded| ==> Swap(encoded)[i] == FromUrlChar(encoded[i])
  {
    assert ['+'] == "+" && ['/'] == "/";
    var once := ReplaceAll(encoded, '-', "+");
    ReplaceOne(encoded, '-', '+');
    ReplaceOne(once, '_', '/');
    forall i | 0 <= i < |encoded| ensures Swap(encoded)[i] == FromUrlChar(encoded[i]) {
      assert once[i] == if encoded[i] == '-' then '+' else encoded[i];
    }
  }

  lemma {:induction false} NoSpaceToRemove(s: string)
    requires forall i :: 0 <= i < |s| ==> !IsSpace(s[i])
    ensures WithoutAsciiSpace(s) == s
  {
    if s != "" {
      assert !IsSpace(s[0]);
      NoSpaceToRemove(s[1..]);
      assert s == [s[0]] + s[1..];
    }
  }

  lemma AlphabetNotSpace(c: char)
    requires InAlphabet(c) || c == '='
    ensures !IsSpace(c)
  {
  }

  /** With the computed padding atob decodes every text of the alphabet of a possible length, and no other length. */
  lemma AtobOfPadded(s: string)
    requires AllInAlphabet(s)
    ensures Atob(s + Padding(|s|)) == if |s| % 4 == 1 then None else Some(Bytes(s))
  {
    var t := s + Padding(|s|);
    forall i | 0 <= i < |t| ensures !IsSpace(t[i]) {
      AlphabetNotSpace(t[i]);
    }
    NoSpaceToRemove(t);
    assert |t| % 4 == 0;
    if |s| % 4 != 1 {
      StripPadding(s);
    } else {
      PaddingIs(|s|);
      ThreePads(s, t);
    }
  }

  /** Three padding characters: atob drops two, and the third is not in the alphabet. */
  lemma ThreePads(s: string, t: string)
    requires t == s + ['=', '=', '=']
    ensures WithoutPadding(t) == t[..|t| - 2] && !AllInAlphabet(WithoutPadding(t))
  {
    var n := |s|;
    assert |t| == n + 3 && t[n] == '=' && t[n + 1] == '=' && t[n + 2] == '=';
    var d := WithoutPadding(t);
    assert d == t[..n + 1];
    assert d[n] == '=' && !InAlphabet('=');
  }

  lemma UrlIsChars(b: seq<Byte>)
    ensures AllInUrlAlphabet(EncodeUrl(b)) && |EncodeUrl(b)| == |Chars(b)| && Swap(EncodeUrl(b)) == Chars(b)
  {
    var s, e := Chars(b), EncodeUrl(b);
    SwapIsPointwise(e);
    forall i | 0 <= i < |s| ensures InUrlAlphabet(e[i]) && Swap(e)[i] == s[i] {
      assert InAlphabet(s[i]);
    }
  }

  lemma UrlLength(b: seq<Byte>, e: string)
    requires e == EncodeUrl(b)
    ensures |e| == (|b| * 4 + 2) / 3
  {
    UrlIsChars(b);
    BytesOfChars(b);
  }

  /** Base64url text holds only its alphabet and swaps back to the encoding of its bytes. */
  lemma UrlRoundTrip(b: seq<Byte>, e: string)
    requires e == EncodeUrl(b)
    ensures AllInUrlAlphabet(e) && AllInAlphabet(Swap(e)) && Bytes(Swap(e)) == b
  {
    UrlIsChars(b);
    BytesOfChars(b);
  }

  lemma SwapInAlphabet(encoded: string)
    requires AllInUrlAlphabet(encoded)
    ensures AllInAlphabet(Swap(encoded)) && |Swap(encoded)| == |encoded|
  {
    SwapIsPointwise(encoded);
    forall i | 0 <= i < |encoded| ensures InAlphabet(Swap(encoded)[i]) {
      assert InUrlAlphabet(encoded[i]);
    }
  }

  /** A Base64url payload reaches JSON.parse exactly when its length is possible, and then with its bytes. */
  lemma PayloadReadIff<T>(header: string, encoded: string, signature: string, parse: seq<Byte> -> Option<T>)
    requires '.' !in header && '.' !in signature && encoded != "" && AllInUrlAlphabet(encoded)
    ensures AllInAlphabet(Swap(encoded))
    ensures DecodeJwtPayload(header + "." + (encoded + "." + signature), parse)
         == if |encoded| % 4 == 1 then None else parse(Bytes(Swap(encoded)))
  {
    assert '.' !in encoded;
    SplitThree(header, encoded, signature, '.');
    SwapInAlphabet(encoded);
    AtobOfPadded(Swap(encoded));
  }

  /** A payload is read only from a token of exactly three parts. */
  lemma ReadHasThreeParts<T>(token: string, parse: seq<Byte> -> Option<T>) returns (a: string, b: string, c: string)
    requires DecodeJwtPayload(token, parse).Some?
    ensures token == a + "." + (b + "." + c) && '.' !in a && '.' !in b && '.' !in c && b != ""
  {
    a, b, c := ThreeParts(token, '.');
  }

  /** Every unpadded payload decodes to its original bytes. */
  lemma PayloadRoundTrip<T>(header: string, b: seq<Byte>, signature: string, parse: seq<Byte> -> Option<T>)
    requires '.' !in header && '.' !in signature && b != []
    ensures DecodeJwtPayload(header + "." + (EncodeUrl(b) + "." + signature), parse) == parse(b)
  {
    var e := EncodeUrl(b);
    UrlRoundTrip(b, e);
    UrlLength(b, e);
    PossibleLength(|b|);
    PayloadReadIff(header, e, signature, parse);
  }
}
