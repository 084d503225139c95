/**
 * Backfill of HMACs and ciphertexts for party documents, party contacts and
 * WhatsApp numbers: the decision on each row and the job over three tables
 * (apps/api/src/cli/backfill-party-pii.ts).
 */
module PartyBackfill {
  import opened Options
  import opened Text
  import opened FieldCipher

  datatype Mode = DryRun | Apply

  datatype Entity = Party | PartyContact | Subscriber

  datatype PartyRow = PartyRow(
    id: string, documentType: string, documentNumber: string, hmac: Option<string>, status: string, deleted: bool)

  /** A party contact or the WhatsApp columns of a subscriber; only a contact has a type. */
  datatype SecretRow = SecretRow(
    id: string, kind: string, value: Option<string>, encrypted: Option<string>, hmac: Option<string>)

  /** Keys, the HMAC under the hash key, case mapping, and the IV drawn for each row. */
  datatype Env = Env(
    cipher: Cipher,
    active: Key,
    previous: seq<Key>,
    hmac: string -> string,
    upper: string -> string,
    lower: string -> string,
    nonce: (Entity, string) -> Nonce)

  ghost predicate LawfulEnv(env: Env) {
    && Lawful(env.cipher)
    && env.upper("") == ""
    && (forall v :: env.hmac(v) != "")
  }

  /** JavaScript truthiness of a nullable string. */
  predicate Truthy(s: Option<string>) {
    s.Some? && s.value != ""
  }

  predicate IsNoData(value: string) {
    StartsWith(value, "NODATA-")
  }

  function Keep(s: string, p: char -> bool): string {
    if s == "" then "" else (if p(s[0]) then [s[0]] else []) + Keep(s[1..], p)
  }

  predicate IsDigitOrCapital(c: char) {
    IsDigit(c) || 'A' <= c <= 'Z'
  }

  /** packages/shared/src/utils/normalize-document-number.ts; None for a thrown error. */
  function Normalize(env: Env, documentType: string, raw: string): Option<string> {
    if documentType in ["CC", "CE", "NIT", "RUT", "TI"] then Some(Keep(raw, IsDigit))
    else if documentType in ["PASAPORTE", "PEP", "PTP", "OTHER"] then
      Some(Keep(env.upper(raw), IsDigitOrCapital))
    else None
  }

  lemma {:induction false} KeepDrops(a: string, c: char, b: string, p: char -> bool)
    requires !p(c)
    ensures Keep(a + [c] + b, p) == Keep(a + b, p)
  {
    if a == "" {
      assert a + [c] + b == [c] + b && a + b == b;
    } else {
      KeepDrops(a[1..], c, b, p);
      assert (a + [c] + b)[1..] == a[1..] + [c] + b && (a + b)[1..] == a[1..] + b;
    }
  }

  lemma {:induction false} KeepAll(s: string, p: char -> bool)
    requires forall c :: c in s ==> p(c)
    ensures Keep(s, p) == s
  {
    if s != "" {
      KeepAll(s[1..], p);
      assert forall c :: c in s[1..] ==> c in s;
    }
  }

  predicate NumericType(documentType: string) {
    documentType in {"CC", "CE", "NIT", "RUT", "TI"}
  }

  predicate LetterType(documentType: string) {
    documentType in {"PASAPORTE", "PEP", "PTP", "OTHER"}
  }

  /** Canonical documents stay as they are, and a type that is neither numeric nor with letters has no normal form. */
  lemma CanonicalIsKept(env: Env, documentType: string, s: string)
    ensures !NumericType(documentType) && !LetterType(documentType) ==> Normalize(env, documentType, s).None?
    ensures NumericType(documentType) && (forall c :: c in s ==> IsDigit(c)) ==>
              Normalize(env, documentType, s) == Some(s)
    ensures LetterType(documentType) && (forall c :: c in env.upper(s) ==> IsDigitOrCapital(c)) ==>
              Normalize(env, documentType, s) == Some(env.upper(s))
  {
    if forall c :: c in s ==> IsDigit(c) {
      KeepAll(s, IsDigit);
    }
    if forall c :: c in env.upper(s) ==> IsDigitOrCapital(c) {
      KeepAll(env.upper(s), IsDigitOrCapital);
    }
  }

  /** Any other character is a separator: one more of them does not change the normal form. */
  lemma SeparatorsAreIgnored(env: Env, documentType: string, a: string, c: char, b: string, with: string,
                             without: string)
    ensures NumericType(documentType) && !IsDigit(c) ==>
              Normalize(env, documentType, a + [c] + b) == Normalize(env, documentType, a + b)
    ensures LetterType(documentType) && !IsDigitOrCapital(c)
            && env.upper(with) == a + [c] + b && env.upper(without) == a + b ==>
              Normalize(env, documentType, with) == Normalize(env, documentType, without)
  {
    if !IsDigit(c) {
      KeepDrops(a, c, b, IsDigit);
    }
    if !IsDigitOrCapital(c) {
      KeepDrops(a, c, b, IsDigitOrCapital);
    }
  }

  datatype Resolved = Resolved(plaintext: string, encrypted: bool)

  /** resolvePlaintext; None when a ciphertext does not open. */
  function Resolve(env: Env, value: string): Option<Resolved> {
    if IsContractCiphertext(value) then
      var p := DecryptFirst(env.cipher, [env.active] + env.previous, value);
      if p.Some? then Some(Resolved(p.value, true)) else None
    else Some(Resolved(value, false))
  }

  /** A value is unreadable exactly when it looks like a ciphertext that neither the active nor an earlier key opens. */
  lemma UnreadableIff(env: Env, value: string)
    ensures Resolve(env, value).None?
            <==> IsContractCiphertext(value) && !OpensUnder(env.cipher, env.active, value)
                 && !Opens(env.cipher, env.previous, value)
  {
    var keys := [env.active] + env.previous;
    FirstOpens(env.cipher, keys, value);
    OpensCons(env.cipher, keys, value);
    assert keys[1..] == env.previous;
  }

  function Encrypt(env: Env, entity: Entity, id: string, plaintext: string): string {
    env.cipher.enc(env.active, env.nonce(entity, id), plaintext)
  }

  /** contactHmac, or the phone HMAC for WhatsApp; None for an unsupported contact type. */
  function SecretHmac(env: Env, entity: Entity, kind: string, plaintext: string): Option<string> {
    if entity.Subscriber? then Some(env.hmac(Trim(plaintext)))
    else if kind == "EMAIL" then Some(env.hmac(Trim(env.lower(plaintext))))
    else if kind == "PHONE" || kind == "ADDRESS" then Some(env.hmac(Trim(plaintext)))
    else None
  }

  // ---- One party -----------------------------------------------------------------------------

  datatype PartyOutcome =
    | HasHmac
    | PartyNoData
    | PartyFailure(code: string)
    | PartyPlan(hmac: string, plaintext: string, wasEncrypted: bool)

  function PartyDecision(env: Env, row: PartyRow): PartyOutcome {
    if Truthy(row.hmac) then HasHmac
    else if IsNoData(row.documentNumber) then PartyNoData
    else
      var resolved := Resolve(env, row.documentNumber);
      if resolved.None? then PartyFailure("unreadable-document")
      else
        var normalized := Normalize(env, row.documentType, resolved.value.plaintext);
        if normalized.None? then PartyFailure("unreadable-document")
        else if normalized.value == "" then PartyFailure("empty-normalized-document")
        else PartyPlan(env.hmac(normalized.value), resolved.value.plaintext, resolved.value.encrypted)
  }

  /** The HMAC under which a party takes part in the search for duplicates. */
  function GroupHmac(env: Env, row: PartyRow): Option<string> {
    match PartyDecision(env, row)
    case HasHmac => row.hmac
    case PartyPlan(h, _, _) => Some(h)
    case _ => None
  }

  predicate LiveParty(row: PartyRow) {
    !row.deleted && row.status != "MERGED"
  }

  /** UPDATE party ... WHERE id = $1 AND document_number_hmac IS NULL. */
  function WriteParty(env: Env, row: PartyRow, update: PartyOutcome): PartyRow
    requires update.PartyPlan?
  {
    if row.hmac.Some? then row
    else
      row.(hmac := Some(update.hmac),
           documentNumber := if update.wasEncrypted then row.documentNumber
                             else Encrypt(env, Party, row.id, update.plaintext))
  }

  function PartyAfter(env: Env, row: PartyRow): PartyRow {
    var d := PartyDecision(env, row);
    if d.PartyPlan? then WriteParty(env, row, d) else row
  }

  // ---- One contact or WhatsApp number ------------------------------------------------------------

  datatype SecretOutcome =
    | NotSelected
    | Complete
    | NullSource
    | SecretNoData
    | SecretFailure(code: string)
    | SecretPlan(hmac: string, source: string, resolved: Resolved, setsHmac: bool, rewrites: bool)

  function Source(row: SecretRow): Option<string> {
    if row.encrypted.Some? then row.encrypted else row.value
  }

  function UnreadableCode(entity: Entity): string {
    if entity.Subscriber? then "unreadable-whatsapp" else "unreadable-contact"
  }

  /** The branches of both loops, once the source is resolved and its HMAC computed where that is possible. */
  function Decide(entity: Entity, row: SecretRow, resolved: Option<Resolved>, computed: Option<string>): SecretOutcome {
    if entity.Subscriber? && Source(row).None? then NotSelected
    else if Truthy(row.hmac) && Truthy(row.encrypted) then Complete
    else if Source(row).None? then NullSource
    else if IsNoData(Source(row).value) then SecretNoData
    else if resolved.None? then SecretFailure(UnreadableCode(entity))
    else
      var hmac := if row.hmac.Some? then row.hmac else computed;
      if hmac.None? then SecretFailure("unsupported-contact-type")
      else
        SecretPlan(hmac.value, Source(row).value, resolved.value, !Truthy(row.hmac),
                   !Truthy(row.encrypted) || !resolved.value.encrypted)
  }

  function ResolvedSource(env: Env, row: SecretRow): Option<Resolved> {
    if Source(row).Some? then Resolve(env, Source(row).value) else None
  }

  function SourceHmac(env: Env, entity: Entity, row: SecretRow): Option<string> {
    var resolved := ResolvedSource(env, row);
    if resolved.Some? then SecretHmac(env, entity, row.kind, resolved.value.plaintext) else None
  }

  function SecretDecision(env: Env, entity: Entity, row: SecretRow): SecretOutcome {
    Decide(entity, row, ResolvedSource(env, row), SourceHmac(env, entity, row))
  }

  /** The prepared ciphertext; a rehearsal does not encrypt. */
  function PreparedValue(env: Env, mode: Mode, entity: Entity, id: string, plan: SecretOutcome): Option<string>
    requires plan.SecretPlan?
  {
    if !plan.rewrites || plan.resolved.encrypted then Some(plan.source)
    else if mode.Apply? then Some(Encrypt(env, entity, id, plan.resolved.plaintext))
    else None
  }

  function SecretAfter(env: Env, entity: Entity, row: SecretRow): SecretRow {
    var d := SecretDecision(env, entity, row);
    if d.SecretPlan? then row.(encrypted := PreparedValue(env, Apply, entity, row.id, d), hmac := Some(d.hmac)) else row
  }

  // ---- Facts about one row ------------------------------------------------------------------------

  lemma ResolveEncrypted(env: Env, entity: Entity, id: string, plaintext: string)
    requires LawfulEnv(env)
    ensures plaintext != "" ==> Resolve(env, Encrypt(env, entity, id, plaintext)) == Some(Resolved(plaintext, true))
    ensures plaintext == "" ==> Resolve(env, Encrypt(env, entity, id, plaintext))
                                == Some(Resolved(Encrypt(env, entity, id, plaintext), false))
    ensures Encrypt(env, entity, id, plaintext) != "" && !IsNoData(Encrypt(env, entity, id, plaintext))
  {
    var ct := Encrypt(env, entity, id, plaintext);
    CiphertextShape(ct);
    assert ([env.active] + env.previous)[0] == env.active;
  }

  /** No ciphertext starts like a NODATA value. */
  lemma CiphertextShape(ct: string)
    requires LooksLikeEncrypted(ct) || IsContractCiphertext(ct)
    ensures ct != "" && !IsNoData(ct)
  {
    var first := Split(ct, ':')[0];
    assert first == ct[..IndexOf(ct, ':')];
    assert first[0] == ct[0] && first[0] in first;
    assert IsHex(ct[0]);
    assert "NODATA-"[0] == 'N';
  }

  lemma KeepEmpty(env: Env, documentType: string)
    requires LawfulEnv(env)
    ensures Normalize(env, documentType, "") in {None, Some("")}
  {
  }

  /** A planned party gets the HMAC of its normalised plaintext, and its document still resolves to that plaintext. */
  lemma PartyWritten(env: Env, row: PartyRow)
    requires LawfulEnv(env) && PartyDecision(env, row).PartyPlan?
    ensures Resolve(env, row.documentNumber).Some?
    ensures var p := Resolve(env, row.documentNumber).value.plaintext;
            && Normalize(env, row.documentType, p).Some? && Normalize(env, row.documentType, p).value != ""
            && GroupHmac(env, row) == Some(env.hmac(Normalize(env, row.documentType, p).value))
            && (row.hmac.None? ==>
                  && PartyAfter(env, row).hmac == GroupHmac(env, row)
                  && Resolve(env, PartyAfter(env, row).documentNumber) == Some(Resolved(p, true)))
  {
    var p := Resolve(env, row.documentNumber).value.plaintext;
    KeepEmpty(env, row.documentType);
    ResolveEncrypted(env, Party, row.id, p);
  }

  /** What a reader of a contact or WhatsApp number sees, resolving what is stored. */
  function ReadSecret(env: Env, row: SecretRow): Option<string> {
    if Source(row).None? || Resolve(env, Source(row).value).None? then None
    else Some(Resolve(env, Source(row).value).value.plaintext)
  }

  /** The ciphertext that apply stores: the one already there, or a new one of the plaintext. */
  lemma SecretStored(env: Env, entity: Entity, row: SecretRow)
    requires LawfulEnv(env) && SecretDecision(env, entity, row).SecretPlan?
    ensures var d, after := SecretDecision(env, entity, row), SecretAfter(env, entity, row);
            && Truthy(after.encrypted) && !IsNoData(after.encrypted.value) && after.value == row.value
            && (if d.resolved.encrypted then after.encrypted == Source(row)
                else after.encrypted == Some(Encrypt(env, entity, row.id, d.source)) && Source(row) == Some(d.source))
  {
    var d := SecretDecision(env, entity, row);
    PlanFacts(env, entity, row);
    PreparedFacts(env, entity, row.id, d);
  }

  /** The prepared value of a plan whose source is what it resolved. */
  lemma PreparedFacts(env: Env, entity: Entity, id: string, d: SecretOutcome)
    requires LawfulEnv(env) && d.SecretPlan?
    requires d.resolved.encrypted <==> IsContractCiphertext(d.source)
    requires !d.resolved.encrypted ==> d.resolved.plaintext == d.source && d.rewrites
    ensures var stored := PreparedValue(env, Apply, entity, id, d);
            && stored == Some(if d.resolved.encrypted then d.source else Encrypt(env, entity, id, d.source))
            && Truthy(stored) && !IsNoData(stored.value)
  {
    if d.resolved.encrypted {
      CiphertextShape(d.source);
    } else {
      ResolveEncrypted(env, entity, id, d.source);
    }
  }

  /**
   * A written contact reads back as before, as this job's own recogniser of
   * ciphertexts reads it, exactly when what was stored is not empty: the
   * ciphertext of the empty string does not have the shape that the job
   * recognises, so the job takes it for plaintext. Readers that accept an empty
   * body are not concerned.
   */
  lemma SecretWritten(env: Env, entity: Entity, row: SecretRow)
    requires LawfulEnv(env) && SecretDecision(env, entity, row).SecretPlan?
    ensures ReadSecret(env, row).Some? && ReadSecret(env, SecretAfter(env, entity, row)).Some?
    ensures ReadSecret(env, SecretAfter(env, entity, row)) == ReadSecret(env, row) <==> Source(row) != Some("")
  {
    var d, after := SecretDecision(env, entity, row), SecretAfter(env, entity, row);
    PlanFacts(env, entity, row);
    SecretStored(env, entity, row);
    ReadsSource(env, row, d.source, d.resolved);
    if d.resolved.encrypted {
      ReadsSource(env, after, d.source, d.resolved);
    } else {
      ResolveEncrypted(env, entity, row.id, d.source);
      var ct := Encrypt(env, entity, row.id, d.source);
      ReadsSource(env, after, ct, if d.source == "" then Resolved(ct, false) else Resolved(d.source, true));
    }
  }

  lemma ReadsSource(env: Env, row: SecretRow, source: string, resolved: Resolved)
    requires Source(row) == Some(source) && Resolve(env, source) == Some(resolved)
    ensures ReadSecret(env, row) == Some(resolved.plaintext)
  {
  }

  /** A phone stored as the empty string: the job plans it, and then reads it as its own ciphertext. */
  lemma EmptySecretReadsOtherwise(env: Env)
    requires LawfulEnv(env)
    ensures var row := SecretRow("1", "PHONE", Some(""), None, None);
            && SecretDecision(env, PartyContact, row).SecretPlan?
            && ReadSecret(env, row) == Some("")
            && ReadSecret(env, SecretAfter(env, PartyContact, row)) != Some("")
  {
    var row := SecretRow("1", "PHONE", Some(""), None, None);
    SecretWritten(env, PartyContact, row);
  }

  /** The stored HMAC stays, or becomes that of the plaintext under its contact type. */
  lemma SecretHmacWritten(env: Env, entity: Entity, row: SecretRow)
    requires LawfulEnv(env) && SecretDecision(env, entity, row).SecretPlan?
    ensures ReadSecret(env, row).Some?
    ensures SecretAfter(env, entity, row).hmac
            == (if row.hmac.Some? then row.hmac else SecretHmac(env, entity, row.kind, ReadSecret(env, row).value))
    ensures row.hmac.None? ==> Truthy(SecretAfter(env, entity, row).hmac)
  {
    PlanFacts(env, entity, row);
  }

  lemma PlanFacts(env: Env, entity: Entity, row: SecretRow)
    requires SecretDecision(env, entity, row).SecretPlan?
    ensures var d := SecretDecision(env, entity, row);
            && Source(row) == Some(d.source) && Resolve(env, d.source) == Some(d.resolved)
            && (d.resolved.encrypted <==> IsContractCiphertext(d.source))
            && (!d.resolved.encrypted ==> d.resolved.plaintext == d.source)
            && (!d.rewrites ==> d.resolved.encrypted)
            && (row.hmac.None? ==> Some(d.hmac) == SecretHmac(env, entity, row.kind, d.resolved.plaintext))
            && (row.hmac.Some? ==> row.hmac == Some(d.hmac))
  {
  }
}
