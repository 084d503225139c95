/** What the report and an applied run of the party backfill guarantee. */
module PartyBackfillGuarantees {
  import opened Options
  import opened FieldCipher
  import opened Text
  import opened PartyBackfill
  import opened PartyBackfillJob
  import opened PartyBackfillReport

  // ---- After an applied run ---------------------------------------------------------------

  /** After an applied run no two live parties share document type and HMAC. */
  lemma NoDuplicatesAfterApply(env: Env, parties: seq<PartyRow>, contacts: seq<SecretRow>, subs: seq<SecretRow>, i: nat,
                               j: nat)
    requires LawfulEnv(env) && NoNul(parties) && ReportOf(env, Apply, parties, contacts, subs).applied
    requires i < j < |parties|
    ensures var a, b := PartiesAfter(env, parties)[i], PartiesAfter(env, parties)[j];
            a.documentType == b.documentType && Truthy(a.hmac) && a.hmac == b.hmac ==>
              a.deleted || a.status == "MERGED" || b.deleted || b.status == "MERGED"
  {
    AppliedIff(env, Apply, parties, contacts, subs);
    assert !Duplicate(env, parties, i, j);
    AfterIdentity(env, parties[i]);
    AfterIdentity(env, parties[j]);
  }

  lemma AfterIdentity(env: Env, row: PartyRow)
    requires LawfulEnv(env)
    ensures var after := PartyAfter(env, row);
            && after.documentType == row.documentType && after.deleted == row.deleted && after.status == row.status
            && (Truthy(after.hmac) ==> after.hmac == Identity(env, row))
  {
    IdentityIsGroupHmac(env, row);
  }

  /** No row of an applied run fails. */
  lemma PartyUsable(env: Env, parties: seq<PartyRow>, contacts: seq<SecretRow>, subs: seq<SecretRow>, i: nat)
    requires ReportOf(env, Apply, parties, contacts, subs).applied && i < |parties|
    ensures !PartyDecision(env, parties[i]).PartyFailure?
  {
    NoFailuresIffUsable(env, Apply, parties, contacts, subs);
    assert parties[i] in parties;
    if PartyDecision(env, parties[i]).PartyFailure? {
      PartyFailureIs(env, parties[i]);
    }
  }

  lemma PartyFailureIs(env: Env, row: PartyRow)
    requires PartyDecision(env, row).PartyFailure?
    ensures PartyFailsAs(env, row, PartyDecision(env, row).code)
  {
  }

  /**
   * After an applied run a party has an HMAC or a NODATA document, unless the
   * empty string was stored as its HMAC: then the guarded UPDATE skips it.
   */
  lemma WithoutHmacAfterApply(env: Env, parties: seq<PartyRow>, contacts: seq<SecretRow>, subs: seq<SecretRow>, i: nat)
    requires LawfulEnv(env) && ReportOf(env, Apply, parties, contacts, subs).applied && i < |parties|
    ensures !Truthy(PartiesAfter(env, parties)[i].hmac) && !IsNoData(parties[i].documentNumber)
            <==> parties[i].hmac == Some("") && !IsNoData(parties[i].documentNumber)
  {
    PartyUsable(env, parties, contacts, subs, i);
    if PartyDecision(env, parties[i]).PartyPlan? {
      PartyWritten(env, parties[i]);
    }
  }

  /**
   * After an applied run every readable document still resolves to its
   * plaintext; a party that had no HMAC and is not NODATA has that of the
   * normalised plaintext, and its document is a ciphertext. Nothing else changes.
   */
  lemma DocumentsKept(env: Env, parties: seq<PartyRow>, contacts: seq<SecretRow>, subs: seq<SecretRow>, i: nat)
    requires LawfulEnv(env) && ReportOf(env, Apply, parties, contacts, subs).applied && i < |parties|
    ensures var row, after := parties[i], PartiesAfter(env, parties)[i];
            && after == row.(documentNumber := after.documentNumber, hmac := after.hmac)
            && (row.hmac.Some? || IsNoData(row.documentNumber) ==> after == row)
            && (row.hmac.None? && !IsNoData(row.documentNumber) ==>
                  && Resolve(env, row.documentNumber).Some?
                  && var p := Resolve(env, row.documentNumber).value.plaintext;
                     var n := Normalize(env, row.documentType, p);
                     && n.Some? && n.value != "" && after.hmac == Some(env.hmac(n.value))
                     && Resolve(env, after.documentNumber) == Some(Resolved(p, true)))
  {
    PartyUsable(env, parties, contacts, subs, i);
    if PartyDecision(env, parties[i]).PartyPlan? {
      PartyWritten(env, parties[i]);
    }
  }

  /** The ciphertext is there and opens to what was read before; only the empty value is not recognised again. */
  ghost predicate CipherCovered(env: Env, row: SecretRow, after: SecretRow) {
    && ReadSecret(env, row).Some? && after.encrypted.Some? && after.encrypted.value != ""
    && (Source(row) != Some("") ==>
          IsContractCiphertext(after.encrypted.value) && ReadSecret(env, after) == ReadSecret(env, row))
  }

  /** A stored HMAC stays; a missing one is that of the trimmed value, of an e-mail in lower case. */
  ghost predicate HmacCovered(env: Env, entity: Entity, row: SecretRow, after: SecretRow) {
    if row.hmac.Some? then after.hmac == row.hmac
    else
      && ReadSecret(env, row).Some?
      && var p := ReadSecret(env, row).value;
         after.hmac
         == Some(env.hmac(if entity.PartyContact? && row.kind == "EMAIL" then Trim(env.lower(p)) else Trim(p)))
  }

  lemma PlannedCipher(env: Env, entity: Entity, row: SecretRow)
    requires LawfulEnv(env) && SecretDecision(env, entity, row).SecretPlan?
    ensures CipherCovered(env, row, SecretAfter(env, entity, row))
  {
    var after := SecretAfter(env, entity, row);
    SecretWritten(env, entity, row);
    SecretStored(env, entity, row);
    PlanFacts(env, entity, row);
    assert Source(row) != Some("") ==> IsContractCiphertext(after.encrypted.value);
  }

  lemma PlannedHmac(env: Env, entity: Entity, row: SecretRow)
    requires LawfulEnv(env) && SecretDecision(env, entity, row).SecretPlan?
    requires entity.PartyContact? || entity.Subscriber?
    ensures HmacCovered(env, entity, row, SecretAfter(env, entity, row))
  {
    SecretHmacWritten(env, entity, row);
  }

  lemma SecretUsable(env: Env, entity: Entity, row: SecretRow)
    requires Pending(row) && forall code :: !SecretFailsAs(env, entity, row, code)
    ensures SecretDecision(env, entity, row).SecretPlan?
  {
    DecisionMeans(env, entity, row);
    assert !SecretFailsAs(env, entity, row, UnreadableCode(entity));
    assert !SecretFailsAs(env, entity, row, "unsupported-contact-type");
  }

  /**
   * After an applied run every contact or WhatsApp number that lacked a
   * ciphertext or an HMAC, and had a value other than NODATA, has both; the
   * ciphertext opens to the old value unless that was empty. No other row changes.
   */
  lemma SecretsCovered(env: Env, parties: seq<PartyRow>, contacts: seq<SecretRow>, subs: seq<SecretRow>, entity: Entity,
                       row: SecretRow)
    requires LawfulEnv(env) && ReportOf(env, Apply, parties, contacts, subs).applied
    requires if entity.Subscriber? then row in subs else entity.PartyContact? && row in contacts
    ensures var after := SecretAfter(env, entity, row);
            && after == row.(encrypted := after.encrypted, hmac := after.hmac)
            && if Pending(row) then CipherCovered(env, row, after) && HmacCovered(env, entity, row, after)
               else after == row
  {
    NoFailuresIffUsable(env, Apply, parties, contacts, subs);
    DecisionMeans(env, entity, row);
    if Pending(row) {
      SecretUsable(env, entity, row);
      PlannedCipher(env, entity, row);
      PlannedHmac(env, entity, row);
    }
  }

  // ---- Rehearsal ---------------------------------------------------------------------------------

  /** A dry run reports what apply reports, except that it applies nothing. */
  lemma DryRunPredictsApply(env: Env, parties: seq<PartyRow>, contacts: seq<SecretRow>, subs: seq<SecretRow>)
    ensures var dry := ReportOf(env, DryRun, parties, contacts, subs);
            var applied := ReportOf(env, Apply, parties, contacts, subs);
            && dry == applied.(mode := DryRun, applied := false)
            && (applied.applied <==> dry.blockedReason.None?)
  {
    ModesScanAlike(env, PartyContact, contacts);
    ModesScanAlike(env, Subscriber, subs);
  }

  // ---- A second run -----------------------------------------------------------------------------

  /** A later run with the same keys draws other IVs. */
  ghost predicate SameKeys(env: Env, later: Env) {
    && later.cipher == env.cipher && later.active == env.active && later.previous == env.previous
    && later.hmac == env.hmac && later.upper == env.upper && later.lower == env.lower
  }

  /** The run updates the row, yet an empty stored HMAC keeps it unfinished. */
  predicate UnfinishedParty(env: Env, row: PartyRow) {
    row.hmac == Some("") && PartyDecision(env, row).PartyPlan?
  }

  predicate UnfinishedSecret(env: Env, entity: Entity, row: SecretRow) {
    row.hmac == Some("") && SecretDecision(env, entity, row).SecretPlan?
  }

  lemma PartySecondRun(env: Env, later: Env, row: PartyRow)
    requires LawfulEnv(env) && SameKeys(env, later)
    ensures PartyDecision(later, PartyAfter(env, row)).PartyPlan? <==> UnfinishedParty(env, row)
    ensures !UnfinishedParty(env, row) ==> PartyAfter(later, PartyAfter(env, row)) == PartyAfter(env, row)
  {
    if PartyDecision(env, row).PartyPlan? {
      PartyWritten(env, row);
    } else {
      assert PartyDecision(later, row) == PartyDecision(env, row);
    }
  }

  lemma SecretSecondRun(env: Env, later: Env, entity: Entity, row: SecretRow)
    requires LawfulEnv(env) && SameKeys(env, later)
    ensures SecretDecision(later, entity, SecretAfter(env, entity, row)).SecretPlan?
            <==> UnfinishedSecret(env, entity, row)
  {
    if SecretDecision(env, entity, row).SecretPlan? {
      StoredState(env, entity, row);
      StoredDecision(env, later, entity, SecretAfter(env, entity, row));
    } else {
      SameDecision(env, later, entity, row);
    }
  }

  /** The decision depends on the keys, not on the IVs of the run. */
  lemma SameDecision(env: Env, later: Env, entity: Entity, row: SecretRow)
    requires SameKeys(env, later)
    ensures SecretDecision(later, entity, row) == SecretDecision(env, entity, row)
  {
    SameSource(env, later, row);
    SameSourceHmac(env, later, entity, row);
  }

  lemma SameSource(env: Env, later: Env, row: SecretRow)
    requires SameKeys(env, later)
    ensures ResolvedSource(later, row) == ResolvedSource(env, row)
  {
    if Source(row).Some? {
      SameResolve(env, later, Source(row).value);
    }
  }

  lemma SameSourceHmac(env: Env, later: Env, entity: Entity, row: SecretRow)
    requires SameKeys(env, later)
    ensures SourceHmac(later, entity, row) == SourceHmac(env, entity, row)
  {
    SameSource(env, later, row);
  }

  /** What a written row holds: an HMAC, empty only if it was, and a ciphertext that opens. */
  lemma StoredState(env: Env, entity: Entity, row: SecretRow)
    requires LawfulEnv(env) && SecretDecision(env, entity, row).SecretPlan?
    ensures Stored(env, SecretAfter(env, entity, row))
    ensures SecretAfter(env, entity, row).hmac == Some("") <==> row.hmac == Some("")
  {
    SecretStored(env, entity, row);
    SecretWritten(env, entity, row);
    SecretHmacWritten(env, entity, row);
  }

  ghost predicate Stored(env: Env, after: SecretRow) {
    && Truthy(after.encrypted) && after.hmac.Some? && !IsNoData(after.encrypted.value)
    && Resolve(env, after.encrypted.value).Some?
  }

  /** A stored ciphertext that opens is complete with an HMAC, and planned again with the empty one. */
  lemma StoredDecision(env: Env, later: Env, entity: Entity, after: SecretRow)
    requires SameKeys(env, later) && Stored(env, after)
    ensures SecretDecision(later, entity, after).SecretPlan? <==> after.hmac == Some("")
  {
    SameResolve(env, later, after.encrypted.value);
    DecideStored(entity, after, ResolvedSource(later, after), SourceHmac(later, entity, after));
  }

  lemma SameResolve(env: Env, later: Env, value: string)
    requires SameKeys(env, later)
    ensures Resolve(later, value) == Resolve(env, value)
  {
  }

  lemma DecideStored(entity: Entity, row: SecretRow, resolved: Option<Resolved>, computed: Option<string>)
    requires Truthy(row.encrypted) && row.hmac.Some? && !IsNoData(row.encrypted.value) && resolved.Some?
    ensures Decide(entity, row, resolved, computed).SecretPlan? <==> row.hmac == Some("")
  {
  }

  // ---- Over all rows ----------------------------------------------------------------------------

  predicate AllHold<T>(p: T -> bool, rows: seq<T>) {
    rows == [] || (AllHold(p, rows[..|rows| - 1]) && p(rows[|rows| - 1]))
  }

  lemma {:induction false} AllHoldIff<T>(p: T -> bool, rows: seq<T>)
    ensures AllHold(p, rows) <==> forall row :: row in rows ==> p(row)
  {
    if rows != [] {
      var front, last := rows[..|rows| - 1], rows[|rows| - 1];
      AllHoldIff(p, front);
      assert rows == front + [last];
    }
  }

  function PartyFinished(env: Env): PartyRow -> bool {
    row => !UnfinishedParty(env, row)
  }

  function SecretFinished(env: Env, entity: Entity): SecretRow -> bool {
    row => !UnfinishedSecret(env, entity, row)
  }

  lemma PartiesAfterSnoc(env: Env, rows: seq<PartyRow>)
    requires rows != []
    ensures PartiesAfter(env, rows) == PartiesAfter(env, rows[..|rows| - 1]) + [PartyAfter(env, rows[|rows| - 1])]
  {
  }

  lemma SecretsAfterSnoc(env: Env, entity: Entity, rows: seq<SecretRow>)
    requires rows != []
    ensures SecretsAfter(env, entity, rows)
            == SecretsAfter(env, entity, rows[..|rows| - 1]) + [SecretAfter(env, entity, rows[|rows| - 1])]
  {
  }

  lemma PartyPlanned(env: Env, front: seq<PartyRow>, last: PartyRow)
    ensures var was, now := ScanParties(env, front), ScanParties(env, front + [last]);
            var more := if PartyDecision(env, last).PartyPlan? then 1 else 0;
            && |now.updates| == |was.updates| + more
            && now.section.wouldSetHmac == was.section.wouldSetHmac + more
  {
    assert (front + [last])[..|front|] == front;
  }

  lemma SecretPlanned(env: Env, entity: Entity, front: seq<SecretRow>, last: SecretRow)
    ensures |ScanSecrets(env, Apply, entity, front + [last]).updates|
            == |ScanSecrets(env, Apply, entity, front).updates|
               + if SecretDecision(env, entity, last).SecretPlan? then 1 else 0
  {
    assert (front + [last])[..|front|] == front;
  }

  lemma {:induction false} PartiesPlannedAgain(env: Env, later: Env, rows: seq<PartyRow>, after: seq<PartyRow>)
    requires LawfulEnv(env) && SameKeys(env, later) && after == PartiesAfter(env, rows)
    ensures |ScanParties(later, after).updates| == 0 <==> AllHold(PartyFinished(env), rows)
    ensures ScanParties(later, after).section.wouldSetHmac == |ScanParties(later, after).updates|
  {
    if rows != [] {
      var front, last := rows[..|rows| - 1], rows[|rows| - 1];
      PartiesAfterSnoc(env, rows);
      PartiesPlannedAgain(env, later, front, PartiesAfter(env, front));
      PartySecondRun(env, later, last);
      PartyPlanned(later, PartiesAfter(env, front), PartyAfter(env, last));
    }
  }

  lemma {:induction false} SecretsPlannedAgain(env: Env, later: Env, entity: Entity, rows: seq<SecretRow>,
                                               after: seq<SecretRow>)
    requires LawfulEnv(env) && SameKeys(env, later) && after == SecretsAfter(env, entity, rows)
    ensures |ScanSecrets(later, Apply, entity, after).updates| == 0 <==> AllHold(SecretFinished(env, entity), rows)
  {
    if rows != [] {
      var front, last := rows[..|rows| - 1], rows[|rows| - 1];
      SecretsAfterSnoc(env, entity, rows);
      SecretsPlannedAgain(env, later, entity, front, SecretsAfter(env, entity, front));
      SecretSecondRun(env, later, entity, last);
      SecretPlanned(later, entity, SecretsAfter(env, entity, front), SecretAfter(env, entity, last));
    }
  }

  /** A run after an applied run plans an update exactly when an updated row had the empty string as HMAC. */
  lemma PartiesSecondRun(env: Env, later: Env, rows: seq<PartyRow>)
    requires LawfulEnv(env) && SameKeys(env, later)
    ensures ScanParties(later, PartiesAfter(env, rows)).updates == []
            <==> forall row :: row in rows ==> !UnfinishedParty(env, row)
    ensures ScanParties(later, PartiesAfter(env, rows)).section.wouldSetHmac
            == |ScanParties(later, PartiesAfter(env, rows)).updates|
  {
    PartiesPlannedAgain(env, later, rows, PartiesAfter(env, rows));
    AllHoldIff(PartyFinished(env), rows);
  }

  /** The same for contacts and WhatsApp numbers. */
  lemma SecretsSecondRun(env: Env, later: Env, entity: Entity, rows: seq<SecretRow>)
    requires LawfulEnv(env) && SameKeys(env, later)
    ensures ScanSecrets(later, Apply, entity, SecretsAfter(env, entity, rows)).updates == []
            <==> forall row :: row in rows ==> !UnfinishedSecret(env, entity, row)
  {
    SecretsPlannedAgain(env, later, entity, rows, SecretsAfter(env, entity, rows));
    AllHoldIff(SecretFinished(env, entity), rows);
  }

  /** A party and a phone with the empty string as HMAC: each run plans them again. */
  lemma EmptyHmacIsPlannedAgain(env: Env, later: Env, party: PartyRow, phone: SecretRow)
    requires LawfulEnv(env) && SameKeys(env, later)
    requires party == PartyRow("1", "CC", "123", Some(""), "ACTIVE", false)
    requires phone == SecretRow("1", "PHONE", Some("5"), None, Some(""))
    ensures UnfinishedParty(env, party) && ScanParties(later, PartiesAfter(env, [party])).updates != []
    ensures UnfinishedSecret(env, PartyContact, phone)
    ensures ScanSecrets(later, Apply, PartyContact, SecretsAfter(env, PartyContact, [phone])).updates != []
  {
    DigitsAreKept();
    assert UnfinishedParty(env, party) && UnfinishedSecret(env, PartyContact, phone);
    assert party in [party] && phone in [phone];
    PartiesSecondRun(env, later, [party]);
    SecretsSecondRun(env, later, PartyContact, [phone]);
  }

  lemma DigitsAreKept()
    ensures Keep("123", IsDigit) != ""
  {
    assert "123"[0] == '1';
  }
}
