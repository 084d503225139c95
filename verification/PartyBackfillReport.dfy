/**
 * What the report of the party backfill means for the rows: its merge
 * candidates, failures and counters, and when the run is applied
 * (apps/api/src/cli/backfill-party-pii.ts:195-375, 409).
 */
module PartyBackfillReport {
  import opened Options
  import opened FieldCipher
  import opened PartyBackfill
  import opened PartyBackfillJob

  // ---- Merge candidates --------------------------------------------------------------------

  /** PostgreSQL text holds no NUL, so the separator of the group key is unambiguous. */
  ghost predicate NoNul(rows: seq<PartyRow>) {
    forall row :: row in rows ==> '\0' !in row.documentType
  }

  lemma GroupKeyInjective(d1: string, h1: string, d2: string, h2: string)
    requires '\0' !in d1 && '\0' !in d2 && GroupKey(d1, h1) == GroupKey(d2, h2)
    ensures d1 == d2 && h1 == h2
  {
    var k := GroupKey(d1, h1);
    assert forall n :: 0 <= n < |d1| ==> k[n] == d1[n] && d1[n] in d1;
    assert forall n :: 0 <= n < |d2| ==> k[n] == d2[n] && d2[n] in d2;
    assert k[|d1|] == k[|d2|] == '\0';
    assert |d1| == |d2|;
    assert d1 == k[..|d1|] && d2 == k[..|d2|];
    assert h1 == k[|d1| + 1..] && h2 == k[|d2| + 1..];
  }

  predicate NamedNoData(value: string) {
    "NODATA-" <= value
  }

  /** The normalised document of a party that has one: not NODATA, readable, of a known type, and not empty. */
  function Document(env: Env, row: PartyRow): Option<string> {
    var resolved := Resolve(env, row.documentNumber);
    if NamedNoData(row.documentNumber) || resolved.None? then None
    else
      var normalized := Normalize(env, row.documentType, resolved.value.plaintext);
      if normalized == Some("") then None else normalized
  }

  /** The HMAC that stands for a party's document: the stored one, or else that of the document. */
  function Identity(env: Env, row: PartyRow): Option<string> {
    if row.hmac.Some? && row.hmac.value != "" then row.hmac
    else if Document(env, row).Some? then Some(env.hmac(Document(env, row).value))
    else None
  }

  /** A party that is neither deleted nor merged, of this type and with this HMAC. */
  predicate Bears(env: Env, row: PartyRow, documentType: string, hmac: string) {
    !row.deleted && row.status != "MERGED" && row.documentType == documentType && Identity(env, row) == Some(hmac)
  }

  function Bearers(env: Env, rows: seq<PartyRow>, documentType: string, hmac: string): seq<string> {
    if rows == [] then []
    else
      var last := rows[|rows| - 1];
      Bearers(env, rows[..|rows| - 1], documentType, hmac)
      + (if Bears(env, last, documentType, hmac) then [last.id] else [])
  }

  lemma IdentityIsGroupHmac(env: Env, row: PartyRow)
    ensures GroupHmac(env, row) == Identity(env, row)
  {
  }

  lemma BearsIffInGroup(env: Env, row: PartyRow, documentType: string, hmac: string)
    requires '\0' !in documentType && '\0' !in row.documentType
    ensures Bears(env, row, documentType, hmac)
            <==> LiveParty(row) && GroupHmac(env, row).Some?
                 && GroupKey(row.documentType, GroupHmac(env, row).value) == GroupKey(documentType, hmac)
  {
    IdentityIsGroupHmac(env, row);
    var h := GroupHmac(env, row);
    if h.Some? && GroupKey(row.documentType, h.value) == GroupKey(documentType, hmac) {
      GroupKeyInjective(row.documentType, h.value, documentType, hmac);
    }
  }

  lemma {:induction false} BearersAreGroupIds(env: Env, rows: seq<PartyRow>, documentType: string, hmac: string)
    requires NoNul(rows) && '\0' !in documentType
    ensures Bearers(env, rows, documentType, hmac) == GroupIds(env, rows, GroupKey(documentType, hmac))
  {
    if rows != [] {
      BearersAreGroupIds(env, rows[..|rows| - 1], documentType, hmac);
      BearsIffInGroup(env, rows[|rows| - 1], documentType, hmac);
    }
  }

  /** A key of the map, read back as the type and the HMAC it was made of. */
  ghost predicate KeyOf(groups: map<string, Group>, key: string, hmac: string) {
    key in groups && '\0' !in groups[key].documentType && key == GroupKey(groups[key].documentType, hmac)
  }

  ghost predicate KeyedByType(groups: map<string, Group>) {
    forall key :: key in groups ==> exists h :: KeyOf(groups, key, h)
  }

  lemma StaysKeyed(groups: map<string, Group>, row: PartyRow, hmac: string)
    requires KeyedByType(groups) && '\0' !in row.documentType
    ensures KeyedByType(AddToGroup(groups, row, hmac))
  {
    var added, now := GroupKey(row.documentType, hmac), AddToGroup(groups, row, hmac);
    forall key | key in now ensures exists h :: KeyOf(now, key, h) {
      if key in groups {
        var h :| KeyOf(groups, key, h);
        assert KeyOf(now, key, h);
      } else {
        assert KeyOf(now, added, hmac);
      }
    }
  }

  lemma {:induction false} GroupsKeyed(env: Env, rows: seq<PartyRow>)
    requires NoNul(rows)
    ensures KeyedByType(ScanParties(env, rows).groups)
  {
    if rows != [] {
      var front, last := rows[..|rows| - 1], rows[|rows| - 1];
      GroupsKeyed(env, front);
      GroupsOfScan(env, ScanParties(env, front), last);
      if LiveParty(last) && GroupHmac(env, last).Some? {
        StaysKeyed(ScanParties(env, front).groups, last, GroupHmac(env, last).value);
      }
    }
  }

  /** The group of a type and an HMAC lists its bearers in table order; without bearers there is none. */
  lemma GroupOfBearers(env: Env, rows: seq<PartyRow>, documentType: string, hmac: string)
    requires NoNul(rows) && '\0' !in documentType
    ensures var groups, key := ScanParties(env, rows).groups, GroupKey(documentType, hmac);
            if Bearers(env, rows, documentType, hmac) == [] then key !in groups
            else key in groups && groups[key] == Group(documentType, Bearers(env, rows, documentType, hmac))
  {
    var groups, key := ScanParties(env, rows).groups, GroupKey(documentType, hmac);
    GroupsAreGroupIds(env, rows, key);
    BearersAreGroupIds(env, rows, documentType, hmac);
    if key in groups {
      GroupsKeyed(env, rows);
      var h :| KeyOf(groups, key, h);
      GroupKeyInjective(groups[key].documentType, h, documentType, hmac);
    }
  }

  /** The merge candidates are the groups of two or more live parties of one type and one HMAC, and no others. */
  lemma CandidatesAreBearers(env: Env, rows: seq<PartyRow>, g: Group)
    requires NoNul(rows)
    ensures g in Candidates(ScanParties(env, rows).groups)
            <==> |g.partyIds| > 1 && '\0' !in g.documentType
                 && exists h :: g.partyIds == Bearers(env, rows, g.documentType, h)
  {
    var groups := ScanParties(env, rows).groups;
    if g in Candidates(groups) {
      GroupsKeyed(env, rows);
      var key :| key in groups && |groups[key].partyIds| > 1 && groups[key] == g;
      var h :| KeyOf(groups, key, h);
      GroupOfBearers(env, rows, g.documentType, h);
    }
    if h :| |g.partyIds| > 1 && '\0' !in g.documentType && g.partyIds == Bearers(env, rows, g.documentType, h) {
      GroupOfBearers(env, rows, g.documentType, h);
    }
  }

  /** Two live parties that would carry the same document type and HMAC. */
  ghost predicate Duplicate(env: Env, rows: seq<PartyRow>, i: nat, j: nat) {
    && i < j < |rows| && Identity(env, rows[i]).Some?
    && Bears(env, rows[i], rows[i].documentType, Identity(env, rows[i]).value)
    && Bears(env, rows[j], rows[i].documentType, Identity(env, rows[i]).value)
  }

  lemma {:induction false} OneBearer(env: Env, rows: seq<PartyRow>, d: string, h: string)
    ensures Bearers(env, rows, d, h) != [] <==> exists i :: 0 <= i < |rows| && Bears(env, rows[i], d, h)
  {
    if rows != [] {
      var front := rows[..|rows| - 1];
      OneBearer(env, front, d, h);
      assert forall i :: 0 <= i < |front| ==> front[i] == rows[i];
    }
  }

  lemma {:induction false} TwoBearers(env: Env, rows: seq<PartyRow>, d: string, h: string)
    ensures |Bearers(env, rows, d, h)| > 1
            <==> exists i, j :: 0 <= i < j < |rows| && Bears(env, rows[i], d, h) && Bears(env, rows[j], d, h)
  {
    if rows != [] {
      var front := rows[..|rows| - 1];
      TwoBearers(env, front, d, h);
      OneBearer(env, front, d, h);
      assert forall i :: 0 <= i < |front| ==> front[i] == rows[i];
    }
  }

  /** The report lists merge candidates exactly when two live parties would share document type and HMAC. */
  lemma CandidatesIffDuplicates(env: Env, mode: Mode, parties: seq<PartyRow>, contacts: seq<SecretRow>,
                                subs: seq<SecretRow>)
    requires NoNul(parties)
    ensures ReportOf(env, mode, parties, contacts, subs).mergeCandidates != {}
            <==> exists i, j :: Duplicate(env, parties, i, j)
  {
    var candidates := Candidates(ScanParties(env, parties).groups);
    if g :| g in candidates {
      CandidatesAreBearers(env, parties, g);
      var h :| g.partyIds == Bearers(env, parties, g.documentType, h);
      TwoBearers(env, parties, g.documentType, h);
      var i: nat, j: nat :| i < j < |parties| && Bears(env, parties[i], g.documentType, h)
                            && Bears(env, parties[j], g.documentType, h);
      assert Duplicate(env, parties, i, j);
    }
    if i: nat, j: nat :| Duplicate(env, parties, i, j) {
      var d, h := parties[i].documentType, Identity(env, parties[i]).value;
      TwoBearers(env, parties, d, h);
      CandidatesAreBearers(env, parties, Group(d, Bearers(env, parties, d, h)));
    }
  }

  // ---- Failures ------------------------------------------------------------------------------

  /** A party without HMAC whose document does not open, is of no known type, or holds nothing to compare. */
  ghost predicate PartyFailsAs(env: Env, row: PartyRow, code: string) {
    && (row.hmac.None? || row.hmac.value == "") && !NamedNoData(row.documentNumber)
    && var resolved := Resolve(env, row.documentNumber);
       if resolved.None? || Normalize(env, row.documentType, resolved.value.plaintext).None? then
         code == "unreadable-document"
       else code == "empty-normalized-document"
            && Normalize(env, row.documentType, resolved.value.plaintext) == Some("")
  }

  /** A row that lacks a ciphertext or an HMAC and has something to make them of. */
  predicate Pending(row: SecretRow) {
    && !(Truthy(row.hmac) && Truthy(row.encrypted))
    && Source(row).Some? && !NamedNoData(Source(row).value)
  }

  /** Its value does not open, or its HMAC is missing and the contact is of no known type. */
  ghost predicate SecretFailsAs(env: Env, entity: Entity, row: SecretRow, code: string) {
    && Pending(row)
    && if Resolve(env, Source(row).value).None? then
         code == if entity.Subscriber? then "unreadable-whatsapp" else "unreadable-contact"
       else code == "unsupported-contact-type" && row.hmac.None? && !entity.Subscriber?
            && row.kind !in {"EMAIL", "PHONE", "ADDRESS"}
  }

  lemma {:induction false} PartyFailuresAre(env: Env, rows: seq<PartyRow>, f: Failure)
    ensures f in ScanParties(env, rows).failures
            <==> f.entity.Party? && exists row :: row in rows && row.id == f.id && PartyFailsAs(env, row, f.code)
  {
    if rows != [] {
      var front, last := rows[..|rows| - 1], rows[|rows| - 1];
      PartyFailuresAre(env, front, f);
      assert rows == front + [last];
      PartyScanFails(env, ScanParties(env, front), last, f);
    }
  }

  lemma PartyScanFails(env: Env, acc: PartyScan, row: PartyRow, f: Failure)
    ensures f in ScanParty(env, acc, row).failures
            <==> f in acc.failures || (f.entity.Party? && row.id == f.id && PartyFailsAs(env, row, f.code))
  {
  }

  lemma {:induction false} SecretFailuresAre(env: Env, mode: Mode, entity: Entity, rows: seq<SecretRow>, f: Failure)
    ensures f in ScanSecrets(env, mode, entity, rows).failures
            <==> f.entity == entity
                 && exists row :: row in rows && row.id == f.id && SecretFailsAs(env, entity, row, f.code)
  {
    if rows != [] {
      var front, last := rows[..|rows| - 1], rows[|rows| - 1];
      SecretFailuresAre(env, mode, entity, front, f);
      assert rows == front + [last];
      SecretScanFails(env, mode, entity, ScanSecrets(env, mode, entity, front), last, f);
    }
  }

  lemma FailureOfDecision(env: Env, entity: Entity, row: SecretRow, code: string)
    ensures SecretDecision(env, entity, row) == SecretFailure(code) <==> SecretFailsAs(env, entity, row, code)
  {
  }

  lemma SecretScanFails(env: Env, mode: Mode, entity: Entity, acc: SecretScan, row: SecretRow, f: Failure)
    ensures f in ScanSecret(env, mode, entity, acc, row).failures
            <==> f in acc.failures || (f.entity == entity && row.id == f.id && SecretFailsAs(env, entity, row, f.code))
  {
    FailureOfDecision(env, entity, row, f.code);
    OutcomeFails(env, mode, entity, acc, row.id, SecretDecision(env, entity, row), f);
  }

  lemma OutcomeFails(env: Env, mode: Mode, entity: Entity, acc: SecretScan, id: string, d: SecretOutcome, f: Failure)
    ensures f in ScanOutcome(env, mode, entity, acc, id, d).failures
            <==> f in acc.failures || (f.entity == entity && id == f.id && d == SecretFailure(f.code))
  {
  }

  /** The report lists exactly the rows that fail, each with its code. */
  lemma FailuresAre(env: Env, mode: Mode, parties: seq<PartyRow>, contacts: seq<SecretRow>, subs: seq<SecretRow>,
                    f: Failure)
    ensures f in ReportOf(env, mode, parties, contacts, subs).failures
            <==> match f.entity
                 case Party => exists row :: row in parties && row.id == f.id && PartyFailsAs(env, row, f.code)
                 case PartyContact =>
                   exists row :: row in contacts && row.id == f.id && SecretFailsAs(env, PartyContact, row, f.code)
                 case Subscriber =>
                   exists row :: row in subs && row.id == f.id && SecretFailsAs(env, Subscriber, row, f.code)
  {
    PartyFailuresAre(env, parties, f);
    SecretFailuresAre(env, mode, PartyContact, contacts, f);
    SecretFailuresAre(env, mode, Subscriber, subs, f);
  }

  // ---- When the run is applied -----------------------------------------------------------------

  ghost predicate AllUsable(env: Env, parties: seq<PartyRow>, contacts: seq<SecretRow>, subs: seq<SecretRow>) {
    && (forall row, code :: row in parties ==> !PartyFailsAs(env, row, code))
    && (forall row, code :: row in contacts ==> !SecretFailsAs(env, PartyContact, row, code))
    && (forall row, code :: row in subs ==> !SecretFailsAs(env, Subscriber, row, code))
  }

  lemma NoFailuresIffUsable(env: Env, mode: Mode, parties: seq<PartyRow>, contacts: seq<SecretRow>,
                            subs: seq<SecretRow>)
    ensures ReportOf(env, mode, parties, contacts, subs).failures == [] <==> AllUsable(env, parties, contacts, subs)
  {
    var failures := ReportOf(env, mode, parties, contacts, subs).failures;
    if failures == [] {
      forall row, code | row in parties ensures !PartyFailsAs(env, row, code) {
        FailuresAre(env, mode, parties, contacts, subs, Failure(Party, row.id, code));
      }
      forall row, code | row in contacts ensures !SecretFailsAs(env, PartyContact, row, code) {
        FailuresAre(env, mode, parties, contacts, subs, Failure(PartyContact, row.id, code));
      }
      forall row, code | row in subs ensures !SecretFailsAs(env, Subscriber, row, code) {
        FailuresAre(env, mode, parties, contacts, subs, Failure(Subscriber, row.id, code));
      }
    } else {
      FailuresAre(env, mode, parties, contacts, subs, failures[0]);
    }
  }

  /**
   * Apply writes exactly when no two live parties would share type and HMAC and
   * every row is usable; a duplicate is the reason given before an unusable row.
   */
  lemma AppliedIff(env: Env, mode: Mode, parties: seq<PartyRow>, contacts: seq<SecretRow>, subs: seq<SecretRow>)
    requires NoNul(parties)
    ensures var report := ReportOf(env, mode, parties, contacts, subs);
            var duplicates := exists i, j :: Duplicate(env, parties, i, j);
            && (report.applied <==> mode.Apply? && !duplicates && AllUsable(env, parties, contacts, subs))
            && (report.blockedReason == Some(MergeCandidates) <==> duplicates)
            && (report.blockedReason == Some(UnreadableValues)
                <==> !duplicates && !AllUsable(env, parties, contacts, subs))
  {
    CandidatesIffDuplicates(env, mode, parties, contacts, subs);
    NoFailuresIffUsable(env, mode, parties, contacts, subs);
  }

  // ---- Counters -----------------------------------------------------------------------------------

  function CountOf<T>(p: T -> bool, rows: seq<T>): nat {
    if rows == [] then 0 else CountOf(p, rows[..|rows| - 1]) + (if p(rows[|rows| - 1]) then 1 else 0)
  }

  function Lacking(): PartyRow -> bool {
    (row: PartyRow) => (row.hmac.None? || row.hmac.value == "") && NamedNoData(row.documentNumber)
  }

  function Settable(env: Env): PartyRow -> bool {
    (row: PartyRow) => (row.hmac.None? || row.hmac.value == "") && Document(env, row).Some?
  }

  function SettablePlain(env: Env): PartyRow -> bool {
    (row: PartyRow) => Settable(env)(row) && !IsContractCiphertext(row.documentNumber)
  }

  ghost predicate PartyCounted(env: Env, rows: seq<PartyRow>, s: Section) {
    && s.seen == |rows| && s.noData == CountOf(Lacking(), rows)
    && s.wouldSetHmac == CountOf(Settable(env), rows) && s.wouldEncrypt == CountOf(SettablePlain(env), rows)
  }

  lemma CountSnoc<T>(p: T -> bool, front: seq<T>, last: T)
    ensures CountOf(p, front + [last]) == CountOf(p, front) + if p(last) then 1 else 0
  {
    assert (front + [last])[..|front|] == front;
  }

  lemma PartyRowCounted(env: Env, acc: PartyScan, row: PartyRow)
    ensures var was, now := acc.section, ScanParty(env, acc, row).section;
            && now.seen == was.seen + 1
            && now.noData == was.noData + (if Lacking()(row) then 1 else 0)
            && now.wouldSetHmac == was.wouldSetHmac + (if Settable(env)(row) then 1 else 0)
            && now.wouldEncrypt == was.wouldEncrypt + (if SettablePlain(env)(row) then 1 else 0)
  {
  }

  /** The counters of the parties: all, those without data, those that get an HMAC, and those still in plaintext. */
  lemma {:induction false} PartyCounters(env: Env, rows: seq<PartyRow>)
    ensures PartyCounted(env, rows, ScanParties(env, rows).section)
  {
    if rows != [] {
      var front, last := rows[..|rows| - 1], rows[|rows| - 1];
      assert rows == front + [last];
      PartyCounters(env, front);
      PartyRowCounted(env, ScanParties(env, front), last);
      CountSnoc(Lacking(), front, last);
      CountSnoc(Settable(env), front, last);
      CountSnoc(SettablePlain(env), front, last);
    }
  }

  function Selected(entity: Entity): SecretRow -> bool {
    (row: SecretRow) => !entity.Subscriber? || row.value.Some? || row.encrypted.Some?
  }

  function WithoutData(): SecretRow -> bool {
    (row: SecretRow) =>
      !(Truthy(row.hmac) && Truthy(row.encrypted)) && Source(row).Some? && NamedNoData(Source(row).value)
  }

  /** A pending row that does not fail. */
  predicate Usable(env: Env, entity: Entity, row: SecretRow) {
    && Pending(row) && Resolve(env, Source(row).value).Some?
    && (row.hmac.Some? || entity.Subscriber? || row.kind in {"EMAIL", "PHONE", "ADDRESS"})
  }

  function SetsHmac(env: Env, entity: Entity): SecretRow -> bool {
    (row: SecretRow) => Usable(env, entity, row) && (row.hmac.None? || row.hmac.value == "")
  }

  function Encrypts(env: Env, entity: Entity): SecretRow -> bool {
    (row: SecretRow) => Usable(env, entity, row) && !IsContractCiphertext(Source(row).value)
  }

  ghost predicate SecretsCounted(env: Env, entity: Entity, rows: seq<SecretRow>, s: Section) {
    && s.seen == CountOf(Selected(entity), rows) && s.noData == CountOf(WithoutData(), rows)
    && s.wouldSetHmac == CountOf(SetsHmac(env, entity), rows) && s.wouldEncrypt == CountOf(Encrypts(env, entity), rows)
  }

  lemma DecideMeans(entity: Entity, row: SecretRow, resolved: Option<Resolved>, computed: Option<string>)
    ensures var d := Decide(entity, row, resolved, computed);
            && (d.NotSelected? <==> !Selected(entity)(row))
            && (d.SecretNoData? <==> WithoutData()(row))
            && (d.SecretPlan? <==> Pending(row) && resolved.Some? && (row.hmac.Some? || computed.Some?))
            && (d.SecretPlan? ==>
                  && d.setsHmac == (row.hmac.None? || row.hmac.value == "") && Some(d.resolved) == resolved
                  && (!d.resolved.encrypted ==> d.rewrites))
  {
  }

  lemma UsableIff(env: Env, entity: Entity, row: SecretRow)
    requires Pending(row)
    ensures var resolved := ResolvedSource(env, row);
            && (Usable(env, entity, row)
                <==> resolved.Some? && (row.hmac.Some? || SourceHmac(env, entity, row).Some?))
            && (resolved.Some? ==> resolved.value.encrypted == IsContractCiphertext(Source(row).value))
  {
  }

  /** What a decision on a row says about it. */
  ghost predicate Means(env: Env, entity: Entity, row: SecretRow, d: SecretOutcome) {
    && (d.NotSelected? <==> !Selected(entity)(row))
    && (d.SecretNoData? <==> WithoutData()(row))
    && (d.SecretPlan? <==> Usable(env, entity, row))
    && (d.SecretPlan? ==>
          && d.setsHmac == (row.hmac.None? || row.hmac.value == "")
          && d.resolved.encrypted == IsContractCiphertext(Source(row).value)
          && (!d.resolved.encrypted ==> d.rewrites))
  }

  lemma DecisionMeans(env: Env, entity: Entity, row: SecretRow)
    ensures Means(env, entity, row, SecretDecision(env, entity, row))
  {
    DecideMeans(entity, row, ResolvedSource(env, row), SourceHmac(env, entity, row));
    if Pending(row) {
      UsableIff(env, entity, row);
    }
  }

  ghost predicate CountedRow(env: Env, entity: Entity, row: SecretRow, was: Section, now: Section) {
    && now.seen == was.seen + (if Selected(entity)(row) then 1 else 0)
    && now.noData == was.noData + (if WithoutData()(row) then 1 else 0)
    && now.wouldSetHmac == was.wouldSetHmac + (if SetsHmac(env, entity)(row) then 1 else 0)
    && now.wouldEncrypt == was.wouldEncrypt + (if Encrypts(env, entity)(row) then 1 else 0)
  }

  /** How one decision moves the counters. */
  lemma RowCounted(env: Env, mode: Mode, entity: Entity, acc: SecretScan, row: SecretRow, d: SecretOutcome)
    requires Means(env, entity, row, d) && !d.NullSource?
    ensures CountedRow(env, entity, row, acc.section, ScanOutcome(env, mode, entity, acc, row.id, d).section)
  {
    var was, now := acc.section, ScanOutcome(env, mode, entity, acc, row.id, d).section;
    assert now.seen == was.seen + (if d.NotSelected? then 0 else 1);
    assert now.noData == was.noData + (if d.SecretNoData? then 1 else 0);
  }

  lemma CountedSnoc(env: Env, entity: Entity, front: seq<SecretRow>, last: SecretRow, was: Section, now: Section)
    requires SecretsCounted(env, entity, front, was) && CountedRow(env, entity, last, was, now)
    ensures SecretsCounted(env, entity, front + [last], now)
  {
    CountSnoc(Selected(entity), front, last);
    CountSnoc(WithoutData(), front, last);
    CountSnoc(SetsHmac(env, entity), front, last);
    CountSnoc(Encrypts(env, entity), front, last);
  }

  /** The last row of a scan: its decision, and how it moves the scan. */
  lemma ScanLast(env: Env, mode: Mode, entity: Entity, rows: seq<SecretRow>)
    returns (before: SecretScan, d: SecretOutcome)
    requires rows != [] && !Crashes(env, entity, rows)
    ensures before == ScanSecrets(env, mode, entity, rows[..|rows| - 1]) && !Crashes(env, entity, rows[..|rows| - 1])
    ensures Means(env, entity, rows[|rows| - 1], d) && !d.NullSource?
    ensures ScanSecrets(env, mode, entity, rows) == ScanOutcome(env, mode, entity, before, rows[|rows| - 1].id, d)
  {
    var front, last := rows[..|rows| - 1], rows[|rows| - 1];
    assert rows == front + [last];
    before, d := ScanSecrets(env, mode, entity, front), SecretDecision(env, entity, last);
    DecisionMeans(env, entity, last);
  }

  lemma CountedStep(env: Env, mode: Mode, entity: Entity, rows: seq<SecretRow>, before: SecretScan, d: SecretOutcome)
    requires rows != [] && SecretsCounted(env, entity, rows[..|rows| - 1], before.section)
    requires Means(env, entity, rows[|rows| - 1], d) && !d.NullSource?
    ensures SecretsCounted(env, entity, rows,
                           ScanOutcome(env, mode, entity, before, rows[|rows| - 1].id, d).section)
  {
    var front, last := rows[..|rows| - 1], rows[|rows| - 1];
    assert rows == front + [last];
    RowCounted(env, mode, entity, before, last, d);
    CountedSnoc(env, entity, front, last, before.section,
                ScanOutcome(env, mode, entity, before, last.id, d).section);
  }

  /** The same for contacts and WhatsApp numbers, unless a contact without value and ciphertext stops the run. */
  lemma {:induction false} SecretCounters(env: Env, mode: Mode, entity: Entity, rows: seq<SecretRow>)
    requires !Crashes(env, entity, rows)
    ensures SecretsCounted(env, entity, rows, ScanSecrets(env, mode, entity, rows).section)
  {
    if rows != [] {
      var before, d := ScanLast(env, mode, entity, rows);
      SecretCounters(env, mode, entity, rows[..|rows| - 1]);
      CountedStep(env, mode, entity, rows, before, d);
    }
  }

  /** The counters of the report, table by table, and the rows without data of all three. */
  lemma ReportCounters(env: Env, mode: Mode, parties: seq<PartyRow>, contacts: seq<SecretRow>, subs: seq<SecretRow>)
    requires !Crashes(env, PartyContact, contacts)
    ensures var report := ReportOf(env, mode, parties, contacts, subs);
            && report.mode == mode && PartyCounted(env, parties, report.parties)
            && SecretsCounted(env, PartyContact, contacts, report.contacts)
            && SecretsCounted(env, Subscriber, subs, report.whatsapp)
            && report.noDataValues == CountOf(Lacking(), parties) + CountOf(WithoutData(), contacts)
                                      + CountOf(WithoutData(), subs)
  {
    PartyCounters(env, parties);
    SecretCounters(env, mode, PartyContact, contacts);
    NoSubscriberCrashes(env, subs);
    SecretCounters(env, mode, Subscriber, subs);
  }
}
