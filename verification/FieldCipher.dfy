/**
 * Stored ciphertexts as the API writes and recognises them
 * (apps/api/src/common/crypto/aes-gcm.util.ts). AES-GCM itself is a pair of
 * arbitrary functions constrained by Lawful.
 */
module FieldCipher {
  import opened Options
  import opened Text

  type Key = seq<nat>

  type Nonce = nat

  predicate IsHexSegment(segment: string, expected: Option<nat>) {
    && segment != "" && (expected.Some? ==> |segment| == expected.value)
    && (forall c :: c in segment ==> IsHex(c)) && |segment| % 2 == 0
  }

  predicate LooksLikeEncrypted(value: string) {
    var parts := Split(value, ':');
    && |parts| == 3
    && IsHexSegment(parts[0], Some(24))
    && IsHexSegment(parts[1], Some(32))
    && (parts[2] == "" || IsHexSegment(parts[2], None))
  }

  predicate AllLowerHex(s: string) {
    forall c :: c in s ==> IsLowerHex(c)
  }

  /** The stricter shape of the party backfill: lower case, non-empty body (backfill-party-pii.ts:92-94). */
  predicate IsContractCiphertext(value: string) {
    var parts := Split(value, ':');
    && |parts| == 3
    && |parts[0]| == 24 && |parts[1]| == 32 && parts[2] != ""
    && AllLowerHex(parts[0]) && AllLowerHex(parts[1]) && AllLowerHex(parts[2])
  }

  /** decrypt with one key, None for a thrown error; encrypt with one key and a random IV. */
  datatype Cipher = Cipher(dec: (Key, string) -> Option<string>, enc: (Key, Nonce, string) -> string)

  /**
   * What the jobs rely on: a ciphertext opens under its own key, and it is three
   * lower-case hexadecimal fields of which the last one is empty exactly for the
   * empty plaintext (aes-gcm.util.ts:219-225).
   */
  ghost predicate Lawful(c: Cipher) {
    && (forall k, n, p :: c.dec(k, c.enc(k, n, p)) == Some(p))
    && (forall k, n, p :: LooksLikeEncrypted(c.enc(k, n, p)))
    && (forall k, n, p :: IsContractCiphertext(c.enc(k, n, p)) <==> p != "")
  }

  /** Decryption with several keys, first success wins. */
  function DecryptFirst(c: Cipher, keys: seq<Key>, value: string): Option<string> {
    if keys == [] then None
    else
      var p := c.dec(keys[0], value);
      if p.Some? then p else DecryptFirst(c, keys[1..], value)
  }

  predicate OpensUnder(cipher: Cipher, key: Key, value: string) {
    cipher.dec(key, value).Some?
  }

  /** Some of these keys opens the value. */
  predicate Opens(cipher: Cipher, keys: seq<Key>, value: string) {
    exists k :: k in keys && OpensUnder(cipher, k, value)
  }

  lemma OpensCons(cipher: Cipher, keys: seq<Key>, value: string)
    requires keys != []
    ensures Opens(cipher, keys, value) <==> OpensUnder(cipher, keys[0], value) || Opens(cipher, keys[1..], value)
  {
    assert keys == [keys[0]] + keys[1..];
    if Opens(cipher, keys, value) {
      var k :| k in keys && OpensUnder(cipher, k, value);
      assert k == keys[0] || k in keys[1..];
    }
    if Opens(cipher, keys[1..], value) {
      var k :| k in keys[1..] && OpensUnder(cipher, k, value);
      assert k in keys;
    }
  }

  /** A reader with several keys gets a plaintext exactly from a value that one of them opens. */
  lemma {:induction false} FirstOpens(cipher: Cipher, keys: seq<Key>, value: string)
    ensures DecryptFirst(cipher, keys, value).Some? <==> Opens(cipher, keys, value)
  {
    if keys != [] {
      FirstOpens(cipher, keys[1..], value);
      OpensCons(cipher, keys, value);
    }
  }

  predicate HexPairs(s: string) {
    |s| % 2 == 0 && forall c :: c in s ==> IsHex(c)
  }

  /** A ciphertext is 12 bytes, 16 bytes and any number of bytes in hex, apart from each other by a colon. */
  lemma CiphertextForm(a: string, b: string, d: string)
    requires ':' !in a && ':' !in b && ':' !in d
    ensures LooksLikeEncrypted(a + ":" + (b + ":" + d))
            <==> |a| == 24 && |b| == 32 && HexPairs(a) && HexPairs(b) && HexPairs(d)
  {
    SplitThree(a, b, d, ':');
  }

  /** And it has no other form. */
  lemma CiphertextParts(value: string) returns (a: string, b: string, d: string)
    requires LooksLikeEncrypted(value) || IsContractCiphertext(value)
    ensures value == a + ":" + (b + ":" + d) && ':' !in a && ':' !in b && ':' !in d
    ensures |a| == 24 && |b| == 32 && (IsContractCiphertext(value) <==> d != "" && AllLowerHex(a + b + d))
  {
    a, b, d := ThreeParts(value, ':');
    var parts := Split(value, ':');
    assert parts[0] == a && parts[1] == b && parts[2] == d;
  }

  lemma CiphertextNotBlank(value: string)
    requires LooksLikeEncrypted(value)
    ensures !IsBlank(value) && value != ""
    ensures exists c :: c in value && c != ' '
  {
    var first := Split(value, ':')[0];
    assert first == value[..IndexOf(value, ':')] && first[0] == value[0];
    assert IsHex(first[0]) by { assert first[0] in first; }
    assert value[0] in value;
  }
}
