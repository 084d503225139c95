/**
 * The fiscal document service under the backfill: what it stores, and what a
 * reader finds after an applied run
 * (apps/api/src/common/crypto/fiscal-document.util.ts:55-74, 127-133).
 */
module FiscalReading {
  import opened Options
  import opened FieldCipher
  import opened FiscalBackfill
  import P = PartyBackfill

  /** The keys, hash and case mapping of the party backfill, and the IV drawn for each row. */
  datatype Keys = Keys(env: P.Env, nonce: nat -> Nonce)

  /** encrypt: the document as it is under the active key, and the HMAC of its normal form; none for an empty form. */
  function Encrypting(keys: Keys): Crypto {
    (id: nat, document: string) =>
      var normalized := P.Normalize(keys.env, "OTHER", document);
      if normalized.None? || normalized.value == "" then Throws
      else Store(keys.env.cipher.enc(keys.env.active, keys.nonce(id), document), keys.env.hmac(normalized.value))
  }

  datatype Reading = Unreadable | Reads(document: Option<string>)

  /** resolveFiscalDocumentValue; Unreadable for the thrown error of decrypt. */
  function Read(keys: Keys, row: Row): Reading {
    if row.encrypted.Some? && row.encrypted.value != "" then
      var p := DecryptFirst(keys.env.cipher, [keys.env.active] + keys.env.previous, row.encrypted.value);
      if p.Some? then Reads(p) else Unreadable
    else Reads(row.fiscalDocument)
  }

  lemma EncryptedOpens(keys: Keys, id: nat, document: string)
    requires Lawful(keys.env.cipher)
    ensures var ct := keys.env.cipher.enc(keys.env.active, keys.nonce(id), document);
            && ct != ""
            && DecryptFirst(keys.env.cipher, [keys.env.active] + keys.env.previous, ct) == Some(document)
  {
    var ct := keys.env.cipher.enc(keys.env.active, keys.nonce(id), document);
    CiphertextNotBlank(ct);
    assert ([keys.env.active] + keys.env.previous)[0] == keys.env.active;
  }

  /** A document without a letter or digit of its normal form makes the service throw. */
  predicate HasNormalForm(keys: Keys, document: string) {
    exists c :: c in keys.env.upper(document) && ('0' <= c <= '9' || 'A' <= c <= 'Z')
  }

  lemma {:induction false} KeptSome(s: string, p: char -> bool)
    ensures P.Keep(s, p) != "" <==> exists c :: c in s && p(c)
  {
    if s != "" {
      KeptSome(s[1..], p);
      assert s == [s[0]] + s[1..];
    }
  }

  lemma OtherForm(env: P.Env, document: string)
    ensures P.Normalize(env, "OTHER", document) == Some(P.Keep(env.upper(document), P.IsDigitOrCapital))
  {
    assert ["PASAPORTE", "PEP", "PTP", "OTHER"][3] == "OTHER";
  }

  lemma StoresIff(keys: Keys, id: nat, document: string)
    ensures Encrypting(keys)(id, document).Store? <==> HasNormalForm(keys, document)
    ensures Encrypting(keys)(id, document).Throws? <==> !HasNormalForm(keys, document)
  {
    KeptSome(keys.env.upper(document), P.IsDigitOrCapital);
    OtherForm(keys.env, document);
  }

  /** Apply is refused exactly when the table holds a document without a normal form. */
  lemma RefusedIff(keys: Keys, rows: seq<Row>)
    ensures SomeThrows(Encrypting(keys), Plain(rows))
            <==> exists r :: r in rows && r.fiscalDocument.Some? && !HasNormalForm(keys, r.fiscalDocument.value)
  {
    PlainMembers(rows);
    forall r | r in rows && r.fiscalDocument.Some?
      ensures Encrypting(keys)(r.id, r.fiscalDocument.value).Throws? <==> !HasNormalForm(keys, r.fiscalDocument.value)
    {
      StoresIff(keys, r.id, r.fiscalDocument.value);
    }
  }

  /** A plaintext document is gone from its column, reads as it was, and is found under the HMAC of its normal form. */
  ghost predicate Recovered(keys: Keys, row: Row, after: Row) {
    && after.id == row.id
    && if row.fiscalDocument.None? then after == row
       else
         && after.fiscalDocument.None? && Read(keys, after) == Reads(row.fiscalDocument)
         && P.Normalize(keys.env, "OTHER", row.fiscalDocument.value).Some?
         && after.hmac == Some(keys.env.hmac(P.Normalize(keys.env, "OTHER", row.fiscalDocument.value).value))
  }

  lemma RewriteRecovers(keys: Keys, row: Row)
    requires Lawful(keys.env.cipher)
    requires row.fiscalDocument.Some? ==> HasNormalForm(keys, row.fiscalDocument.value)
    ensures Recovered(keys, row, Rewrite(Encrypting(keys), row))
  {
    if row.fiscalDocument.Some? {
      StoresIff(keys, row.id, row.fiscalDocument.value);
      EncryptedOpens(keys, row.id, row.fiscalDocument.value);
    }
  }

  lemma AllAccepted(keys: Keys, rows: seq<Row>)
    requires !SomeThrows(Encrypting(keys), Plain(rows))
    ensures forall r :: r in Plain(rows) ==> Accepts(Encrypting(keys), r)
  {
    PlainMembers(rows);
    forall r | r in Plain(rows) ensures Accepts(Encrypting(keys), r) {
      StoresIff(keys, r.id, r.fiscalDocument.value);
    }
  }

  lemma {:induction false} AllCounted(crypto: Crypto, rows: seq<Row>)
    requires forall r :: r in rows ==> Accepts(crypto, r)
    ensures Accepted(crypto, rows) == |rows|
  {
    if rows != [] {
      AllCounted(crypto, rows[..|rows| - 1]);
    }
  }

  /**
   * An applied run on a table encrypts every document it saw and leaves none in
   * plaintext; each reads as it was, and the other rows stay as they are.
   */
  lemma ApplyRecovers(keys: Keys, rows: seq<Row>, now: seq<Row>, c: Counts)
    requires Lawful(keys.env.cipher) && TableResult(Encrypting(keys), Apply, rows, now, Ok(c))
    ensures c.encrypted == c.seen && c.plaintextRemaining == 0
    ensures |now| == |rows| && forall k :: 0 <= k < |rows| ==> Recovered(keys, rows[k], now[k])
  {
    AllAccepted(keys, rows);
    AllCounted(Encrypting(keys), Plain(rows));
    SeenIsEncryptedPlusRemaining(Encrypting(keys), rows);
    RefusedIff(keys, rows);
    forall k | 0 <= k < |rows| ensures Recovered(keys, rows[k], now[k]) {
      assert rows[k] in rows;
      RewriteRecovers(keys, rows[k]);
    }
  }

  /** A reader sees another document exactly where a ciphertext of something else stood beside the plaintext. */
  lemma ReaderUnaffectedIff(keys: Keys, row: Row)
    requires Lawful(keys.env.cipher)
    requires row.fiscalDocument.Some? && HasNormalForm(keys, row.fiscalDocument.value)
    ensures Read(keys, Rewrite(Encrypting(keys), row)) == Read(keys, row)
            <==> row.encrypted in {None, Some("")} || Read(keys, row) == Reads(row.fiscalDocument)
  {
    RewriteRecovers(keys, row);
  }
}
