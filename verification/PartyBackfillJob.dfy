/** The job over the three tables: three scans, the block decision, then the writes. */
module PartyBackfillJob {
  import opened Options
  import opened PartyBackfill

  datatype Section = Section(seen: nat, wouldSetHmac: nat, wouldEncrypt: nat, noData: nat)

  datatype Failure = Failure(entity: Entity, id: string, code: string)

  datatype Group = Group(documentType: string, partyIds: seq<string>)

  datatype PartyUpdate = PartyUpdate(id: string, plan: PartyOutcome)

  datatype PartyScan = PartyScan(
    section: Section, failures: seq<Failure>, updates: seq<PartyUpdate>, groups: map<string, Group>)

  datatype SecretUpdate = SecretUpdate(id: string, hmac: string, encryptedValue: Option<string>)

  datatype SecretScan = SecretScan(section: Section, failures: seq<Failure>, updates: seq<SecretUpdate>)

  datatype Reason = MergeCandidates | UnreadableValues

  datatype Report = Report(
    mode: Mode,
    parties: Section,
    contacts: Section,
    whatsapp: Section,
    noDataValues: nat,
    mergeCandidates: set<Group>,
    failures: seq<Failure>,
    applied: bool,
    blockedReason: Option<Reason>)

  /** NullSource: a contact with neither value nor ciphertext makes isNoData throw outside its try block. */
  datatype Error = MigrationMissing | NullContactSource | MissingCipher

  const NO_ROWS := Section(0, 0, 0, 0)

  // ---- Scanning parties ------------------------------------------------------------------------

  function GroupKey(documentType: string, hmac: string): string {
    documentType + ['\0'] + hmac
  }

  function AddToGroup(groups: map<string, Group>, row: PartyRow, hmac: string): map<string, Group> {
    var key := GroupKey(row.documentType, hmac);
    var group := if key in groups then groups[key] else Group(row.documentType, []);
    groups[key := group.(partyIds := group.partyIds + [row.id])]
  }

  function ScanParty(env: Env, acc: PartyScan, row: PartyRow): PartyScan {
    var s := acc.section.(seen := acc.section.seen + 1);
    var d := PartyDecision(env, row);
    var groups := if LiveParty(row) && GroupHmac(env, row).Some?
                  then AddToGroup(acc.groups, row, GroupHmac(env, row).value)
                  else acc.groups;
    match d
    case HasHmac => PartyScan(s, acc.failures, acc.updates, groups)
    case PartyNoData => PartyScan(s.(noData := s.noData + 1), acc.failures, acc.updates, groups)
    case PartyFailure(code) => PartyScan(s, acc.failures + [Failure(Party, row.id, code)], acc.updates, groups)
    case PartyPlan(_, _, wasEncrypted) =>
      PartyScan(s.(wouldSetHmac := s.wouldSetHmac + 1,
                   wouldEncrypt := s.wouldEncrypt + (if wasEncrypted then 0 else 1)),
                acc.failures, acc.updates + [PartyUpdate(row.id, d)], groups)
  }

  function ScanParties(env: Env, rows: seq<PartyRow>): PartyScan {
    if rows == [] then PartyScan(NO_ROWS, [], [], map[])
    else ScanParty(env, ScanParties(env, rows[..|rows| - 1]), rows[|rows| - 1])
  }

  /** The live parties of one group, in table order. */
  function GroupIds(env: Env, rows: seq<PartyRow>, key: string): seq<string> {
    if rows == [] then []
    else
      var last := rows[|rows| - 1];
      GroupIds(env, rows[..|rows| - 1], key)
      + (if LiveParty(last) && GroupHmac(env, last).Some?
         && GroupKey(last.documentType, GroupHmac(env, last).value) == key
         then [last.id] else [])
  }

  lemma GroupsOfScan(env: Env, acc: PartyScan, row: PartyRow)
    ensures ScanParty(env, acc, row).groups
            == if LiveParty(row) && GroupHmac(env, row).Some?
               then AddToGroup(acc.groups, row, GroupHmac(env, row).value)
               else acc.groups
  {
  }

  lemma GroupAdded(groups: map<string, Group>, row: PartyRow, hmac: string, key: string, ids: seq<string>)
    requires (key in groups <==> ids != []) && (key in groups ==> groups[key].partyIds == ids)
    ensures var more := if GroupKey(row.documentType, hmac) == key then ids + [row.id] else ids;
            var now := AddToGroup(groups, row, hmac);
            (key in now <==> more != []) && (key in now ==> now[key].partyIds == more)
  {
  }

  lemma {:induction false} GroupsAreGroupIds(env: Env, rows: seq<PartyRow>, key: string)
    ensures var groups := ScanParties(env, rows).groups;
            && (key in groups <==> GroupIds(env, rows, key) != [])
            && (key in groups ==> groups[key].partyIds == GroupIds(env, rows, key))
  {
    if rows != [] {
      var front, last := rows[..|rows| - 1], rows[|rows| - 1];
      GroupsAreGroupIds(env, front, key);
      GroupsOfScan(env, ScanParties(env, front), last);
      if LiveParty(last) && GroupHmac(env, last).Some? {
        GroupAdded(ScanParties(env, front).groups, last, GroupHmac(env, last).value, key, GroupIds(env, front, key));
      }
    }
  }

  function Candidates(groups: map<string, Group>): set<Group> {
    set k | k in groups && |groups[k].partyIds| > 1 :: groups[k]
  }

  // ---- Scanning contacts and WhatsApp numbers -----------------------------------------------------

  function ScanOutcome(env: Env, mode: Mode, entity: Entity, acc: SecretScan, id: string,
                       d: SecretOutcome): SecretScan {
    var s := acc.section.(seen := acc.section.seen + 1);
    match d
    case NotSelected => acc
    case Complete => acc.(section := s)
    case NullSource => acc
    case SecretNoData => acc.(section := s.(noData := s.noData + 1))
    case SecretFailure(code) => acc.(section := s, failures := acc.failures + [Failure(entity, id, code)])
    case SecretPlan(h, _, resolved, setsHmac, rewrites) =>
      SecretScan(
        s.(wouldSetHmac := s.wouldSetHmac + (if setsHmac then 1 else 0),
           wouldEncrypt := s.wouldEncrypt + (if rewrites && !resolved.encrypted then 1 else 0)),
        acc.failures,
        acc.updates + [SecretUpdate(id, h, PreparedValue(env, mode, entity, id, d))])
  }

  function ScanSecret(env: Env, mode: Mode, entity: Entity, acc: SecretScan, row: SecretRow): SecretScan {
    ScanOutcome(env, mode, entity, acc, row.id, SecretDecision(env, entity, row))
  }

  function ScanSecrets(env: Env, mode: Mode, entity: Entity, rows: seq<SecretRow>): SecretScan {
    if rows == [] then SecretScan(NO_ROWS, [], [])
    else ScanSecret(env, mode, entity, ScanSecrets(env, mode, entity, rows[..|rows| - 1]), rows[|rows| - 1])
  }

  predicate Crashes(env: Env, entity: Entity, rows: seq<SecretRow>) {
    exists row :: row in rows && SecretDecision(env, entity, row).NullSource?
  }

  ghost predicate Alike(dry: SecretScan, applied: SecretScan) {
    && dry.section == applied.section && dry.failures == applied.failures && |dry.updates| == |applied.updates|
    && forall i :: 0 <= i < |dry.updates| ==>
         dry.updates[i].id == applied.updates[i].id && dry.updates[i].hmac == applied.updates[i].hmac
  }

  lemma ModesScanRowAlike(env: Env, entity: Entity, dry: SecretScan, applied: SecretScan, id: string, d: SecretOutcome)
    requires Alike(dry, applied)
    ensures Alike(ScanOutcome(env, DryRun, entity, dry, id, d), ScanOutcome(env, Apply, entity, applied, id, d))
  {
  }

  /** Both modes count, fail and plan alike; only the prepared ciphertexts differ. */
  lemma {:induction false} ModesScanAlike(env: Env, entity: Entity, rows: seq<SecretRow>)
    ensures Alike(ScanSecrets(env, DryRun, entity, rows), ScanSecrets(env, Apply, entity, rows))
  {
    if rows != [] {
      var front := rows[..|rows| - 1];
      ModesScanAlike(env, entity, front);
      ModesScanRowAlike(env, entity, ScanSecrets(env, DryRun, entity, front), ScanSecrets(env, Apply, entity, front),
                        rows[|rows| - 1].id, SecretDecision(env, entity, rows[|rows| - 1]));
    }
  }

  // ---- Writing --------------------------------------------------------------------------------------

  function UpdatePartyById(env: Env, rows: seq<PartyRow>, u: PartyUpdate): seq<PartyRow>
    requires u.plan.PartyPlan?
  {
    seq(|rows|, i requires 0 <= i < |rows| => if rows[i].id == u.id then WriteParty(env, rows[i], u.plan) else rows[i])
  }

  function UpdateSecretById(rows: seq<SecretRow>, id: string, encrypted: string, hmac: string): seq<SecretRow> {
    seq(|rows|, i requires 0 <= i < |rows| =>
      if rows[i].id == id then rows[i].(encrypted := Some(encrypted), hmac := Some(hmac)) else rows[i])
  }

  ghost predicate UniqueParties(rows: seq<PartyRow>) {
    forall i, j :: 0 <= i < j < |rows| ==> rows[i].id != rows[j].id
  }

  ghost predicate UniqueSecrets(rows: seq<SecretRow>) {
    forall i, j :: 0 <= i < j < |rows| ==> rows[i].id != rows[j].id
  }

  function PartiesAfter(env: Env, rows: seq<PartyRow>): (r: seq<PartyRow>)
    ensures |r| == |rows|
  {
    seq(|rows|, i requires 0 <= i < |rows| => PartyAfter(env, rows[i]))
  }

  function SecretsAfter(env: Env, entity: Entity, rows: seq<SecretRow>): (r: seq<SecretRow>)
    ensures |r| == |rows|
  {
    seq(|rows|, i requires 0 <= i < |rows| => SecretAfter(env, entity, rows[i]))
  }

  /** The first n rows in their final state. */
  ghost function PartiesFirst(env: Env, rows: seq<PartyRow>, n: nat): seq<PartyRow> {
    seq(|rows|, i requires 0 <= i < |rows| => if i < n then PartyAfter(env, rows[i]) else rows[i])
  }

  ghost function SecretsFirst(rows: seq<SecretRow>, final: seq<SecretRow>, n: nat): seq<SecretRow>
    requires n <= |rows| == |final|
  {
    final[..n] + rows[n..]
  }

  ghost predicate WellPlanned(updates: seq<PartyUpdate>) {
    forall u :: u in updates ==> u.plan.PartyPlan?
  }

  ghost function AfterPartyUpdates(env: Env, rows: seq<PartyRow>, updates: seq<PartyUpdate>): seq<PartyRow>
    requires WellPlanned(updates)
  {
    if updates == [] then rows
    else UpdatePartyById(env, AfterPartyUpdates(env, rows, updates[..|updates| - 1]), updates[|updates| - 1])
  }

  lemma PartyUpdatesGrow(env: Env, rows: seq<PartyRow>, n: nat)
    requires 0 < n <= |rows|
    ensures var d := PartyDecision(env, rows[n - 1]);
            ScanParties(env, rows[..n]).updates
            == ScanParties(env, rows[..n - 1]).updates + (if d.PartyPlan? then [PartyUpdate(rows[n - 1].id, d)] else [])
  {
    assert rows[..n][..n - 1] == rows[..n - 1];
  }

  lemma PartyFinishStep(env: Env, rows: seq<PartyRow>, n: nat, before: seq<PartyUpdate>, updates: seq<PartyUpdate>)
    requires UniqueParties(rows) && 0 < n <= |rows|
    requires WellPlanned(before) && AfterPartyUpdates(env, rows, before) == PartiesFirst(env, rows, n - 1)
    requires var d := PartyDecision(env, rows[n - 1]);
             updates == before + (if d.PartyPlan? then [PartyUpdate(rows[n - 1].id, d)] else [])
    ensures WellPlanned(updates) && AfterPartyUpdates(env, rows, updates) == PartiesFirst(env, rows, n)
  {
    if PartyDecision(env, rows[n - 1]).PartyPlan? {
      assert updates[..|updates| - 1] == before;
      PartyOneMore(env, rows, n);
    } else {
      assert updates == before;
      assert PartiesFirst(env, rows, n) == PartiesFirst(env, rows, n - 1);
    }
  }

  lemma {:induction false} PartyUpdatesFinish(env: Env, rows: seq<PartyRow>, n: nat, updates: seq<PartyUpdate>)
    requires UniqueParties(rows) && n <= |rows| && updates == ScanParties(env, rows[..n]).updates
    ensures WellPlanned(updates) && AfterPartyUpdates(env, rows, updates) == PartiesFirst(env, rows, n)
    decreases n
  {
    if n == 0 {
      assert PartiesFirst(env, rows, 0) == rows;
    } else {
      var before := ScanParties(env, rows[..n - 1]).updates;
      PartyUpdatesFinish(env, rows, n - 1, before);
      PartyUpdatesGrow(env, rows, n);
      PartyFinishStep(env, rows, n, before, updates);
    }
  }

  lemma PartyOneMore(env: Env, rows: seq<PartyRow>, n: nat)
    requires UniqueParties(rows) && 0 < n <= |rows| && PartyDecision(env, rows[n - 1]).PartyPlan?
    ensures UpdatePartyById(env, PartiesFirst(env, rows, n - 1),
                            PartyUpdate(rows[n - 1].id, PartyDecision(env, rows[n - 1])))
            == PartiesFirst(env, rows, n)
  {
    assert forall r :: PartyAfter(env, r).id == r.id;
  }

  ghost predicate HasCiphers(updates: seq<SecretUpdate>) {
    forall u :: u in updates ==> Truthy(u.encryptedValue)
  }

  ghost function AfterSecretUpdates(rows: seq<SecretRow>, updates: seq<SecretUpdate>): seq<SecretRow>
    requires HasCiphers(updates)
  {
    if updates == [] then rows
    else
      var u := updates[|updates| - 1];
      UpdateSecretById(AfterSecretUpdates(rows, updates[..|updates| - 1]), u.id, u.encryptedValue.value, u.hmac)
  }

  lemma OutcomeUpdates(env: Env, entity: Entity, acc: SecretScan, id: string, d: SecretOutcome)
    ensures ScanOutcome(env, Apply, entity, acc, id, d).updates
            == acc.updates + if d.SecretPlan?
                             then [SecretUpdate(id, d.hmac, PreparedValue(env, Apply, entity, id, d))] else []
  {
  }

  lemma SecretUpdatesGrow(env: Env, entity: Entity, rows: seq<SecretRow>, n: nat)
    requires 0 < n <= |rows|
    ensures var row, d := rows[n - 1], SecretDecision(env, entity, rows[n - 1]);
            ScanSecrets(env, Apply, entity, rows[..n]).updates
            == ScanSecrets(env, Apply, entity, rows[..n - 1]).updates
               + (if d.SecretPlan? then [SecretUpdate(row.id, d.hmac, SecretAfter(env, entity, row).encrypted)] else [])
  {
    NextSecret(env, Apply, entity, rows, n - 1);
    OutcomeUpdates(env, entity, ScanSecrets(env, Apply, entity, rows[..n - 1]), rows[n - 1].id,
                   SecretDecision(env, entity, rows[n - 1]));
  }

  /** The change of one row, as an update of the plan or as nothing. */
  ghost predicate RowChange(row: SecretRow, after: SecretRow, before: seq<SecretUpdate>, updates: seq<SecretUpdate>) {
    || (after == row && updates == before)
    || (&& Truthy(after.encrypted) && after.hmac.Some?
        && after == row.(encrypted := after.encrypted, hmac := after.hmac)
        && updates == before + [SecretUpdate(row.id, after.hmac.value, after.encrypted)])
  }

  lemma SecretRowChange(env: Env, entity: Entity, rows: seq<SecretRow>, n: nat)
    requires LawfulEnv(env) && 0 < n <= |rows|
    ensures RowChange(rows[n - 1], SecretAfter(env, entity, rows[n - 1]),
                      ScanSecrets(env, Apply, entity, rows[..n - 1]).updates,
                      ScanSecrets(env, Apply, entity, rows[..n]).updates)
  {
    SecretUpdatesGrow(env, entity, rows, n);
    if SecretDecision(env, entity, rows[n - 1]).SecretPlan? {
      SecretStored(env, entity, rows[n - 1]);
    }
  }

  /** Updating the n-th row by its id is one more row in its final state. */
  lemma SecretOneMore(rows: seq<SecretRow>, final: seq<SecretRow>, n: nat, value: string, hmac: string)
    requires UniqueSecrets(rows) && 0 < n <= |rows| == |final|
    requires forall i :: 0 <= i < |rows| ==> final[i].id == rows[i].id
    requires final[n - 1] == rows[n - 1].(encrypted := Some(value), hmac := Some(hmac))
    ensures UpdateSecretById(SecretsFirst(rows, final, n - 1), rows[n - 1].id, value, hmac)
            == SecretsFirst(rows, final, n)
  {
  }

  lemma LastUpdateLast(rows: seq<SecretRow>, before: seq<SecretUpdate>, u: SecretUpdate)
    requires HasCiphers(before) && Truthy(u.encryptedValue)
    ensures HasCiphers(before + [u])
    ensures AfterSecretUpdates(rows, before + [u])
            == UpdateSecretById(AfterSecretUpdates(rows, before), u.id, u.encryptedValue.value, u.hmac)
  {
    assert (before + [u])[..|before|] == before;
  }

  lemma SecretFinishStep(rows: seq<SecretRow>, final: seq<SecretRow>, n: nat, before: seq<SecretUpdate>,
                         updates: seq<SecretUpdate>)
    requires UniqueSecrets(rows) && 0 < n <= |rows| == |final|
    requires forall i :: 0 <= i < |rows| ==> final[i].id == rows[i].id
    requires HasCiphers(before) && AfterSecretUpdates(rows, before) == SecretsFirst(rows, final, n - 1)
    requires RowChange(rows[n - 1], final[n - 1], before, updates)
    ensures HasCiphers(updates) && AfterSecretUpdates(rows, updates) == SecretsFirst(rows, final, n)
  {
    var last := final[n - 1];
    if updates == before {
      assert SecretsFirst(rows, final, n) == SecretsFirst(rows, final, n - 1);
    } else {
      LastUpdateLast(rows, before, SecretUpdate(rows[n - 1].id, last.hmac.value, last.encrypted));
      SecretOneMore(rows, final, n, last.encrypted.value, last.hmac.value);
    }
  }

  lemma SecretsAfterIds(env: Env, entity: Entity, rows: seq<SecretRow>)
    ensures forall i :: 0 <= i < |rows| ==> SecretsAfter(env, entity, rows)[i].id == rows[i].id
  {
  }

  lemma {:induction false} SecretUpdatesFinish(env: Env, entity: Entity, rows: seq<SecretRow>, final: seq<SecretRow>,
                                               n: nat, updates: seq<SecretUpdate>)
    requires LawfulEnv(env) && UniqueSecrets(rows) && n <= |rows| && final == SecretsAfter(env, entity, rows)
    requires updates == ScanSecrets(env, Apply, entity, rows[..n]).updates
    ensures HasCiphers(updates) && AfterSecretUpdates(rows, updates) == SecretsFirst(rows, final, n)
    decreases n
  {
    if n == 0 {
      assert SecretsFirst(rows, final, 0) == rows;
    } else {
      var before := ScanSecrets(env, Apply, entity, rows[..n - 1]).updates;
      SecretUpdatesFinish(env, entity, rows, final, n - 1, before);
      SecretRowChange(env, entity, rows, n);
      SecretsAfterIds(env, entity, rows);
      SecretFinishStep(rows, final, n, before, updates);
    }
  }

  class TenantTables {
    var parties: seq<PartyRow>
    var contacts: seq<SecretRow>
    var subscribers: seq<SecretRow>

    constructor (parties: seq<PartyRow>, contacts: seq<SecretRow>, subscribers: seq<SecretRow>)
      ensures this.parties == parties && this.contacts == contacts && this.subscribers == subscribers
    {
      this.parties, this.contacts, this.subscribers := parties, contacts, subscribers;
    }

    ghost predicate Valid()
      reads this
    {
      UniqueParties(parties) && UniqueSecrets(contacts) && UniqueSecrets(subscribers)
    }
  }

  /** One turn of the loop over parties. */
  method CollectParty(env: Env, before: PartyScan, row: PartyRow) returns (scan: PartyScan)
    ensures scan == ScanParty(env, before, row)
  {
    var section := before.section.(seen := before.section.seen + 1);
    var hmac := row.hmac;
    var updates := before.updates;
    if !Truthy(hmac) {
      if IsNoData(row.documentNumber) {
        return before.(section := section.(noData := section.noData + 1));
      }
      var resolved := Resolve(env, row.documentNumber);
      if resolved.None? {
        return before.(section := section,
                       failures := before.failures + [Failure(Party, row.id, "unreadable-document")]);
      }
      var normalized := Normalize(env, row.documentType, resolved.value.plaintext);
      if normalized.None? {
        return before.(section := section,
                       failures := before.failures + [Failure(Party, row.id, "unreadable-document")]);
      }
      if normalized.value == "" {
        return before.(section := section,
                       failures := before.failures + [Failure(Party, row.id, "empty-normalized-document")]);
      }
      hmac := Some(env.hmac(normalized.value));
      section := section.(wouldSetHmac := section.wouldSetHmac + 1);
      if !resolved.value.encrypted {
        section := section.(wouldEncrypt := section.wouldEncrypt + 1);
      }
      updates := updates + [
        PartyUpdate(row.id, PartyPlan(hmac.value, resolved.value.plaintext, resolved.value.encrypted))];
    }
    var groups := before.groups;
    if !row.deleted && row.status != "MERGED" {
      var key := GroupKey(row.documentType, hmac.value);
      var group := if key in groups then groups[key] else Group(row.documentType, []);
      groups := groups[key := Group(group.documentType, group.partyIds + [row.id])];
    }
    scan := PartyScan(section, before.failures, updates, groups);
  }

  method CollectParties(env: Env, rows: seq<PartyRow>) returns (scan: PartyScan)
    ensures scan == ScanParties(env, rows)
  {
    scan := PartyScan(NO_ROWS, [], [], map[]);
    for i := 0 to |rows|
      invariant scan == ScanParties(env, rows[..i])
    {
      assert rows[..i + 1][..i] == rows[..i];
      scan := CollectParty(env, scan, rows[i]);
    }
    assert rows[..|rows|] == rows;
  }

  /** What one turn of the loops over contacts and subscribers decides, in the order of its branches. */
  method DecideSecret(env: Env, entity: Entity, row: SecretRow) returns (d: SecretOutcome)
    ensures d == SecretDecision(env, entity, row)
  {
    if entity.Subscriber? && row.value.None? && row.encrypted.None? {
      return NotSelected;
    }
    if Truthy(row.hmac) && Truthy(row.encrypted) {
      return Complete;
    }
    var source := if row.encrypted.Some? then row.encrypted else row.value;
    if source.None? {
      return NullSource;
    }
    if IsNoData(source.value) {
      return SecretNoData;
    }
    var resolved := Resolve(env, source.value);
    if resolved.None? {
      return SecretFailure(UnreadableCode(entity));
    }
    var hmac := row.hmac;
    if hmac.None? {
      hmac := SecretHmac(env, entity, row.kind, resolved.value.plaintext);
      if hmac.None? {
        return SecretFailure("unsupported-contact-type");
      }
    }
    d := SecretPlan(hmac.value, source.value, resolved.value, !Truthy(row.hmac),
                    !Truthy(row.encrypted) || !resolved.value.encrypted);
  }

  /** One turn of the loops: the counters, failures and prepared updates move on. */
  method RecordOutcome(env: Env, mode: Mode, entity: Entity, before: SecretScan, id: string, d: SecretOutcome)
    returns (scan: SecretScan)
    ensures scan == ScanOutcome(env, mode, entity, before, id, d)
  {
    scan := before;
    if d.NotSelected? || d.NullSource? {
      return;
    }
    var section := before.section.(seen := before.section.seen + 1);
    match d {
      case SecretNoData =>
        section := section.(noData := section.noData + 1);
      case SecretFailure(code) =>
        scan := scan.(failures := scan.failures + [Failure(entity, id, code)]);
      case SecretPlan(hmac, source, resolved, setsHmac, rewrites) =>
        if setsHmac {
          section := section.(wouldSetHmac := section.wouldSetHmac + 1);
        }
        var encryptedValue := Some(source);
        if rewrites && !resolved.encrypted {
          section := section.(wouldEncrypt := section.wouldEncrypt + 1);
          encryptedValue := if mode.Apply? then Some(Encrypt(env, entity, id, resolved.plaintext)) else None;
        }
        scan := scan.(updates := scan.updates + [SecretUpdate(id, hmac, encryptedValue)]);
      case _ =>
    }
    scan := scan.(section := section);
  }

  method CollectSecrets(env: Env, mode: Mode, entity: Entity, rows: seq<SecretRow>)
    returns (r: Result<SecretScan, Error>)
    ensures r == if Crashes(env, entity, rows) then Err(NullContactSource) else Ok(ScanSecrets(env, mode, entity, rows))
  {
    var scan := SecretScan(NO_ROWS, [], []);
    for i := 0 to |rows|
      invariant scan == ScanSecrets(env, mode, entity, rows[..i])
      invariant !Crashes(env, entity, rows[..i])
    {
      NextSecret(env, mode, entity, rows, i);
      var d := DecideSecret(env, entity, rows[i]);
      if d.NullSource? {
        return Err(NullContactSource);
      }
      scan := RecordOutcome(env, mode, entity, scan, rows[i].id, d);
    }
    assert rows[..|rows|] == rows;
    r := Ok(scan);
  }

  lemma NextSecret(env: Env, mode: Mode, entity: Entity, rows: seq<SecretRow>, i: nat)
    requires i < |rows|
    ensures ScanSecrets(env, mode, entity, rows[..i + 1])
            == ScanOutcome(env, mode, entity, ScanSecrets(env, mode, entity, rows[..i]), rows[i].id,
                           SecretDecision(env, entity, rows[i]))
    ensures SecretDecision(env, entity, rows[i]).NullSource? ==> Crashes(env, entity, rows)
    ensures !SecretDecision(env, entity, rows[i]).NullSource? && !Crashes(env, entity, rows[..i]) ==>
              !Crashes(env, entity, rows[..i + 1])
  {
    assert rows[..i + 1][..i] == rows[..i] && rows[..i + 1] == rows[..i] + [rows[i]];
    assert rows[i] in rows;
  }

  method WriteParties(db: TenantTables, env: Env, updates: seq<PartyUpdate>)
    requires WellPlanned(updates)
    modifies db`parties
    ensures db.parties == AfterPartyUpdates(env, old(db.parties), updates)
  {
    for k := 0 to |updates|
      invariant db.parties == AfterPartyUpdates(env, old(db.parties), updates[..k])
    {
      assert updates[..k + 1][..k] == updates[..k];
      db.parties := UpdatePartyById(env, db.parties, updates[k]);
    }
    assert updates[..|updates|] == updates;
  }

  /** The two write loops share this check: a missing ciphertext throws. */
  method WriteSecrets(rows: seq<SecretRow>, updates: seq<SecretUpdate>) returns (r: Result<seq<SecretRow>, Error>)
    ensures HasCiphers(updates) ==> r == Ok(AfterSecretUpdates(rows, updates))
  {
    var now := rows;
    for k := 0 to |updates|
      invariant HasCiphers(updates) ==> now == AfterSecretUpdates(rows, updates[..k])
    {
      var u := updates[k];
      if !Truthy(u.encryptedValue) {
        return Err(MissingCipher);
      }
      assert updates[..k + 1][..k] == updates[..k];
      now := UpdateSecretById(now, u.id, u.encryptedValue.value, u.hmac);
    }
    assert updates[..|updates|] == updates;
    r := Ok(now);
  }

  function BlockedReason(candidates: set<Group>, failures: seq<Failure>): Option<Reason> {
    if candidates != {} then Some(MergeCandidates) else if failures != [] then Some(UnreadableValues) else None
  }

  function ReportFrom(mode: Mode, p: PartyScan, c: SecretScan, w: SecretScan): Report {
    var candidates, failures := Candidates(p.groups), p.failures + c.failures + w.failures;
    var reason := BlockedReason(candidates, failures);
    Report(mode, p.section, c.section, w.section, p.section.noData + c.section.noData + w.section.noData,
           candidates, failures, mode.Apply? && reason.None?, reason)
  }

  /** The report of a run over these tables. */
  function ReportOf(env: Env, mode: Mode, parties: seq<PartyRow>, contacts: seq<SecretRow>,
                    subs: seq<SecretRow>): Report {
    ReportFrom(mode, ScanParties(env, parties), ScanSecrets(env, mode, PartyContact, contacts),
               ScanSecrets(env, mode, Subscriber, subs))
  }

  /** backfillPartyPii. A column that the migration has not added yet reads as NULL in the rows. */
  method BackfillPartyPii(db: TenantTables, env: Env, mode: Mode, migrated: bool) returns (r: Result<Report, Error>)
    requires db.Valid() && LawfulEnv(env)
    modifies db
    ensures mode.Apply? && !migrated ==> r == Err(MigrationMissing)
    ensures !(mode.Apply? && !migrated) ==>
              r == if Crashes(env, PartyContact, old(db.contacts)) then Err(NullContactSource)
                   else Ok(ReportOf(env, mode, old(db.parties), old(db.contacts), old(db.subscribers)))
    ensures r.Ok? ==>
              var report := r.value;
              && (report.applied <==> mode.Apply? && report.mergeCandidates == {} && report.failures == [])
              && (report.blockedReason == Some(MergeCandidates) <==> report.mergeCandidates != {})
              && (report.blockedReason == Some(UnreadableValues)
                  <==> report.mergeCandidates == {} && report.failures != [])
    ensures r.Err? || !r.value.applied ==>
              db.parties == old(db.parties) && db.contacts == old(db.contacts) && db.subscribers == old(db.subscribers)
    ensures r.Ok? && r.value.applied ==>
              && db.parties == PartiesAfter(env, old(db.parties))
              && db.contacts == SecretsAfter(env, PartyContact, old(db.contacts))
              && db.subscribers == SecretsAfter(env, Subscriber, old(db.subscribers))
  {
    if mode.Apply? && !migrated {
      return Err(MigrationMissing);
    }
    var parties := CollectParties(env, db.parties);
    var contacts := CollectSecrets(env, mode, PartyContact, db.contacts);
    if contacts.Err? {
      return Err(contacts.error);
    }
    var whatsapp := CollectSecrets(env, mode, Subscriber, db.subscribers);
    NoSubscriberCrashes(env, db.subscribers);
    var report := ReportFrom(mode, parties, contacts.value, whatsapp.value);
    if mode.DryRun? || report.blockedReason.Some? {
      return Ok(report);
    }
    UpdatesFinish(env, db.parties, db.contacts, db.subscribers);
    var contacts' := WriteSecrets(db.contacts, contacts.value.updates);
    var subs' := WriteSecrets(db.subscribers, whatsapp.value.updates);
    WriteParties(db, env, parties.updates);
    db.contacts := contacts'.value;
    db.subscribers := subs'.value;
    r := Ok(report);
  }

  lemma NoSubscriberCrashes(env: Env, rows: seq<SecretRow>)
    ensures !Crashes(env, Subscriber, rows)
  {
  }

  lemma UpdatesFinish(env: Env, parties: seq<PartyRow>, contacts: seq<SecretRow>, subs: seq<SecretRow>)
    requires LawfulEnv(env) && UniqueParties(parties) && UniqueSecrets(contacts) && UniqueSecrets(subs)
    ensures var p := ScanParties(env, parties).updates;
            WellPlanned(p) && AfterPartyUpdates(env, parties, p) == PartiesAfter(env, parties)
    ensures var c := ScanSecrets(env, Apply, PartyContact, contacts).updates;
            HasCiphers(c) && AfterSecretUpdates(contacts, c) == SecretsAfter(env, PartyContact, contacts)
    ensures var w := ScanSecrets(env, Apply, Subscriber, subs).updates;
            HasCiphers(w) && AfterSecretUpdates(subs, w) == SecretsAfter(env, Subscriber, subs)
  {
    assert parties[..|parties|] == parties && contacts[..|contacts|] == contacts && subs[..|subs|] == subs;
    PartyUpdatesFinish(env, parties, |parties|, ScanParties(env, parties).updates);
    SecretUpdatesFinish(env, PartyContact, contacts, SecretsAfter(env, PartyContact, contacts), |contacts|,
                        ScanSecrets(env, Apply, PartyContact, contacts).updates);
    SecretUpdatesFinish(env, Subscriber, subs, SecretsAfter(env, Subscriber, subs), |subs|,
                        ScanSecrets(env, Apply, Subscriber, subs).updates);
    assert PartiesFirst(env, parties, |parties|) == PartiesAfter(env, parties);
  }
}
