/**
 * Removal of placeholder contacts: what the report forecasts before any write
 * and what apply leaves (apps/api/src/cli/backfill-placeholder-contacts.ts).
 */
module PlaceholderBackfill {
  import opened Options

  datatype Mode = DryRun | Apply

  datatype Subscriber = Subscriber(
    id: string,
    expedienteId: Option<string>,
    status: string,
    emailEncrypted: Option<string>,
    emailHmac: Option<string>,
    phoneEncrypted: Option<string>,
    phoneHmac: Option<string>)

  datatype Contact = Contact(id: string, value: Option<string>, valueHmac: Option<string>, deletedAt: Option<int>)

  /** Facts read from information_schema before anything else. */
  datatype Schema = Schema(hasRequiredColumns: bool, contactColumnsNullable: bool, hasSoftDelete: bool)

  datatype Error = MissingColumns | MigrationPending

  datatype Totals = Totals(
    subscribersSeen: nat,
    emailPlaceholders: nat,
    phonePlaceholders: nat,
    partyContactsPlaceholderByHmac: nat,
    emptyPartyContactValues: nat,
    activeWithoutContactAfterBackfill: nat)

  datatype Report = Report(mode: Mode, totals: Totals, applied: bool)

  /** hmacPii under the tenant's key. */
  type Hmac = string -> string

  const EMAIL_PLACEHOLDER_DOMAIN := "@placeholder.iwana.co"
  const PHONE_PLACEHOLDER := "0000000000"

  function ExpectedEmailHmac(hmac: Hmac, s: Subscriber): Option<string> {
    if s.expedienteId.Some? && s.expedienteId.value != "" then
      Some(hmac("expediente-" + s.expedienteId.value + EMAIL_PLACEHOLDER_DOMAIN))
    else None
  }

  predicate ClearEmail(hmac: Hmac, s: Subscriber) {
    ExpectedEmailHmac(hmac, s).Some? && s.emailHmac == ExpectedEmailHmac(hmac, s)
  }

  predicate ClearPhone(hmac: Hmac, s: Subscriber) {
    s.phoneHmac == Some(hmac(PHONE_PLACEHOLDER))
  }

  /** UPDATE subscribers with its two CASE flags. */
  function ClearFields(s: Subscriber, email: bool, phone: bool): Subscriber {
    var s := if email then s.(emailEncrypted := None, emailHmac := None) else s;
    if phone then s.(phoneEncrypted := None, phoneHmac := None) else s
  }

  function Cleared(hmac: Hmac, s: Subscriber): Subscriber {
    ClearFields(s, ClearEmail(hmac, s), ClearPhone(hmac, s))
  }

  function ClearAll(hmac: Hmac, subs: seq<Subscriber>): (r: seq<Subscriber>)
    ensures |r| == |subs|
  {
    seq(|subs|, i requires 0 <= i < |subs| => Cleared(hmac, subs[i]))
  }

  predicate WithoutContact(s: Subscriber) {
    s.status == "ACTIVE" && s.emailEncrypted.None? && s.phoneEncrypted.None?
  }

  function EmailPlaceholder(hmac: Hmac): Subscriber -> bool {
    s => ClearEmail(hmac, s)
  }

  function PhonePlaceholder(hmac: Hmac): Subscriber -> bool {
    s => ClearPhone(hmac, s)
  }

  function LeftWithoutContact(hmac: Hmac): Subscriber -> bool {
    s => WithoutContact(Cleared(hmac, s))
  }

  function CountSubs(p: Subscriber -> bool, subs: seq<Subscriber>): nat {
    if subs == [] then 0 else CountSubs(p, subs[..|subs| - 1]) + (if p(subs[|subs| - 1]) then 1 else 0)
  }

  function CountContacts(p: Contact -> bool, contacts: seq<Contact>): nat {
    if contacts == [] then 0
    else CountContacts(p, contacts[..|contacts| - 1]) + (if p(contacts[|contacts| - 1]) then 1 else 0)
  }

  /** The HMACs that mark a contact as placeholder. */
  function PlaceholderHmacs(hmac: Hmac, subs: seq<Subscriber>): set<string> {
    if subs == [] then {hmac(PHONE_PLACEHOLDER)}
    else
      var e := ExpectedEmailHmac(hmac, subs[|subs| - 1]);
      PlaceholderHmacs(hmac, subs[..|subs| - 1]) + (if e.Some? && e.value != "" then {e.value} else {})
  }

  predicate Live(c: Contact) {
    c.deletedAt.None?
  }

  predicate IsPlaceholder(hmacs: set<string>, c: Contact) {
    c.valueHmac.Some? && c.valueHmac.value in hmacs
  }

  predicate HasEmptyValue(c: Contact) {
    c.value == Some("")
  }

  function CountsAsPlaceholder(hmacs: set<string>, softDelete: bool): Contact -> bool {
    c => IsPlaceholder(hmacs, c) && (softDelete ==> Live(c))
  }

  function EmptyToNull(c: Contact): Contact {
    if HasEmptyValue(c) then c.(value := None) else c
  }

  function DropContacts(hmacs: set<string>, contacts: seq<Contact>): seq<Contact> {
    if contacts == [] then []
    else (if IsPlaceholder(hmacs, contacts[0]) then [] else [contacts[0]]) + DropContacts(hmacs, contacts[1..])
  }

  function SoftDelete(hmacs: set<string>, c: Contact, now: int): Contact {
    if IsPlaceholder(hmacs, c) && c.deletedAt.None? then c.(deletedAt := Some(now)) else c
  }

  function MapContacts(f: Contact -> Contact, contacts: seq<Contact>): (r: seq<Contact>)
    ensures |r| == |contacts|
  {
    seq(|contacts|, i requires 0 <= i < |contacts| => f(contacts[i]))
  }

  /** The contact table after apply. */
  function ContactsAfter(hmacs: set<string>, softDelete: bool, contacts: seq<Contact>, now: int): seq<Contact> {
    var cleaned := MapContacts(EmptyToNull, contacts);
    if softDelete then MapContacts(c => SoftDelete(hmacs, c, now), cleaned) else DropContacts(hmacs, cleaned)
  }

  /** The report, from the tables as they are before the run. */
  function Forecast(hmac: Hmac, softDelete: bool, subs: seq<Subscriber>, contacts: seq<Contact>): Totals {
    var hmacs := PlaceholderHmacs(hmac, subs);
    Totals(
      |subs|,
      CountSubs(EmailPlaceholder(hmac), subs),
      CountSubs(PhonePlaceholder(hmac), subs),
      CountContacts(CountsAsPlaceholder(hmacs, softDelete), contacts),
      CountContacts(HasEmptyValue, contacts),
      CountSubs(LeftWithoutContact(hmac), subs))
  }

  ghost predicate UniqueIds(subs: seq<Subscriber>) {
    forall i, j :: 0 <= i < j < |subs| ==> subs[i].id != subs[j].id
  }

  // ---- The job ------------------------------------------------------------------------------

  datatype Update = Update(row: Subscriber, clearEmail: bool, clearPhone: bool)

  /** The first n subscribers cleared. */
  ghost function ClearFirst(hmac: Hmac, subs: seq<Subscriber>, n: nat): seq<Subscriber> {
    seq(|subs|, i requires 0 <= i < |subs| => if i < n then Cleared(hmac, subs[i]) else subs[i])
  }

  /** The planned updates are exactly the subscribers among the first n that change, in order. */
  ghost predicate PlanOf(hmac: Hmac, subs: seq<Subscriber>, n: nat, plan: seq<Update>)
    requires n <= |subs|
  {
    if n == 0 then plan == []
    else
      var s := subs[n - 1];
      if ClearEmail(hmac, s) || ClearPhone(hmac, s) then
        && plan != []
        && plan[|plan| - 1] == Update(s, ClearEmail(hmac, s), ClearPhone(hmac, s))
        && PlanOf(hmac, subs, n - 1, plan[..|plan| - 1])
      else PlanOf(hmac, subs, n - 1, plan)
  }

  class TenantTables {
    var subscribers: seq<Subscriber>
    var contacts: seq<Contact>

    constructor (subscribers: seq<Subscriber>, contacts: seq<Contact>)
      ensures this.subscribers == subscribers && this.contacts == contacts
    {
      this.subscribers, this.contacts := subscribers, contacts;
    }

    method UpdateSubscriber(id: string, clearEmail: bool, clearPhone: bool)
      modifies this`subscribers
      ensures subscribers == UpdateById(old(subscribers), id, clearEmail, clearPhone)
    {
      subscribers := UpdateById(subscribers, id, clearEmail, clearPhone);
    }
  }

  function UpdateById(subs: seq<Subscriber>, id: string, email: bool, phone: bool): seq<Subscriber> {
    seq(|subs|, i requires 0 <= i < |subs| => if subs[i].id == id then ClearFields(subs[i], email, phone) else subs[i])
  }

  /** Applying the plan in order clears every subscriber. */
  lemma {:induction false} PlanStep(hmac: Hmac, subs: seq<Subscriber>, n: nat)
    requires UniqueIds(subs) && n < |subs|
    ensures ClearFirst(hmac, subs, n + 1)
            == UpdateById(ClearFirst(hmac, subs, n), subs[n].id, ClearEmail(hmac, subs[n]), ClearPhone(hmac, subs[n]))
    ensures !ClearEmail(hmac, subs[n]) && !ClearPhone(hmac, subs[n]) ==>
              ClearFirst(hmac, subs, n + 1) == ClearFirst(hmac, subs, n)
  {
    assert forall s :: Cleared(hmac, s).id == s.id;
  }

  /** The subscribers after the first k planned updates. */
  ghost function AfterUpdates(subs: seq<Subscriber>, plan: seq<Update>): seq<Subscriber> {
    if plan == [] then subs
    else
      var u := plan[|plan| - 1];
      UpdateById(AfterUpdates(subs, plan[..|plan| - 1]), u.row.id, u.clearEmail, u.clearPhone)
  }

  lemma {:induction false} PlanClears(hmac: Hmac, subs: seq<Subscriber>, n: nat, plan: seq<Update>)
    requires UniqueIds(subs) && n <= |subs| && PlanOf(hmac, subs, n, plan)
    ensures AfterUpdates(subs, plan) == ClearFirst(hmac, subs, n)
    decreases n
  {
    if n == 0 {
      assert ClearFirst(hmac, subs, 0) == subs;
    } else {
      PlanStep(hmac, subs, n - 1);
      if ClearEmail(hmac, subs[n - 1]) || ClearPhone(hmac, subs[n - 1]) {
        PlanClears(hmac, subs, n - 1, plan[..|plan| - 1]);
      } else {
        PlanClears(hmac, subs, n - 1, plan);
      }
    }
  }

  method RunPlan(db: TenantTables, plan: seq<Update>)
    modifies db`subscribers
    ensures db.subscribers == AfterUpdates(old(db.subscribers), plan)
  {
    for k := 0 to |plan|
      invariant db.subscribers == AfterUpdates(old(db.subscribers), plan[..k])
    {
      assert plan[..k + 1][..k] == plan[..k];
      db.UpdateSubscriber(plan[k].row.id, plan[k].clearEmail, plan[k].clearPhone);
    }
    assert plan[..|plan|] == plan;
  }

  /** What the loop has gathered over the first n subscribers. */
  ghost predicate Detected(hmac: Hmac, subs: seq<Subscriber>, n: nat, totals: Totals, hmacs: set<string>,
                           plan: seq<Update>) {
    && n <= |subs|
    && totals == Totals(n, CountSubs(EmailPlaceholder(hmac), subs[..n]), CountSubs(PhonePlaceholder(hmac), subs[..n]),
                        0, 0, CountSubs(LeftWithoutContact(hmac), subs[..n]))
    && hmacs == PlaceholderHmacs(hmac, subs[..n])
    && PlanOf(hmac, subs, n, plan)
  }

  lemma CountSnoc(p: Subscriber -> bool, subs: seq<Subscriber>, n: nat)
    requires n < |subs|
    ensures CountSubs(p, subs[..n + 1]) == CountSubs(p, subs[..n]) + (if p(subs[n]) then 1 else 0)
  {
    assert subs[..n + 1][..n] == subs[..n] && subs[..n + 1][n] == subs[n];
  }

  lemma HmacsSnoc(hmac: Hmac, subs: seq<Subscriber>, n: nat)
    requires n < |subs|
    ensures var e := ExpectedEmailHmac(hmac, subs[n]);
            PlaceholderHmacs(hmac, subs[..n + 1])
            == PlaceholderHmacs(hmac, subs[..n]) + (if e.Some? && e.value != "" then {e.value} else {})
  {
    assert subs[..n + 1][..n] == subs[..n] && subs[..n + 1][n] == subs[n];
  }

  lemma PlanSnoc(hmac: Hmac, subs: seq<Subscriber>, n: nat, plan: seq<Update>)
    requires n < |subs| && PlanOf(hmac, subs, n, plan)
    ensures var s := subs[n];
            PlanOf(hmac, subs, n + 1, if ClearEmail(hmac, s) || ClearPhone(hmac, s)
                                      then plan + [Update(s, ClearEmail(hmac, s), ClearPhone(hmac, s))] else plan)
  {
    var longer := plan + [Update(subs[n], ClearEmail(hmac, subs[n]), ClearPhone(hmac, subs[n]))];
    assert longer[..|longer| - 1] == plan;
  }

  lemma DetectStep(hmac: Hmac, subs: seq<Subscriber>, n: nat, totals: Totals, hmacs: set<string>, plan: seq<Update>,
                   totals': Totals, hmacs': set<string>, plan': seq<Update>)
    requires Detected(hmac, subs, n, totals, hmacs, plan) && n < |subs|
    requires var s := subs[n];
             var e := ExpectedEmailHmac(hmac, s);
             && totals' == Totals(n + 1, totals.emailPlaceholders + (if ClearEmail(hmac, s) then 1 else 0),
                                  totals.phonePlaceholders + (if ClearPhone(hmac, s) then 1 else 0), 0, 0,
                                  totals.activeWithoutContactAfterBackfill
                                    + (if WithoutContact(Cleared(hmac, s)) then 1 else 0))
             && hmacs' == hmacs + (if e.Some? && e.value != "" then {e.value} else {})
             && plan' == (if ClearEmail(hmac, s) || ClearPhone(hmac, s)
                          then plan + [Update(s, ClearEmail(hmac, s), ClearPhone(hmac, s))] else plan)
    ensures Detected(hmac, subs, n + 1, totals', hmacs', plan')
  {
    CountSnoc(EmailPlaceholder(hmac), subs, n);
    CountSnoc(PhonePlaceholder(hmac), subs, n);
    CountSnoc(LeftWithoutContact(hmac), subs, n);
    HmacsSnoc(hmac, subs, n);
    PlanSnoc(hmac, subs, n, plan);
  }

  /** The loop over subscribers: counters, placeholder HMACs and the plan. */
  method Detect(subs: seq<Subscriber>, hmac: Hmac) returns (totals: Totals, hmacs: set<string>, plan: seq<Update>)
    ensures Detected(hmac, subs, |subs|, totals, hmacs, plan)
  {
    totals := Totals(0, 0, 0, 0, 0, 0);
    hmacs := {hmac(PHONE_PLACEHOLDER)};
    plan := [];
    for i := 0 to |subs|
      invariant Detected(hmac, subs, i, totals, hmacs, plan)
    {
      ghost var totals0, hmacs0, plan0 := totals, hmacs, plan;
      var row := subs[i];
      var expected := ExpectedEmailHmac(hmac, row);
      if expected.Some? && expected.value != "" {
        hmacs := hmacs + {expected.value};
      }
      var clearEmail := expected.Some? && row.emailHmac == expected;
      var clearPhone := row.phoneHmac == Some(hmac(PHONE_PLACEHOLDER));
      var hasEmail := row.emailEncrypted.Some? && !clearEmail;
      var hasPhone := row.phoneEncrypted.Some? && !clearPhone;
      totals := totals.(
        subscribersSeen := totals.subscribersSeen + 1,
        emailPlaceholders := totals.emailPlaceholders + (if clearEmail then 1 else 0),
        phonePlaceholders := totals.phonePlaceholders + (if clearPhone then 1 else 0),
        activeWithoutContactAfterBackfill := totals.activeWithoutContactAfterBackfill
                                             + (if row.status == "ACTIVE" && !hasEmail && !hasPhone then 1 else 0));
      if clearEmail || clearPhone {
        plan := plan + [Update(row, clearEmail, clearPhone)];
      }
      DetectStep(hmac, subs, i, totals0, hmacs0, plan0, totals, hmacs, plan);
    }
  }

  /** backfillPlaceholderContacts. `now` is the database's CURRENT_TIMESTAMP. */
  method BackfillPlaceholderContacts(db: TenantTables, schema: Schema, hmac: Hmac, mode: Mode, now: int)
    returns (r: Result<Report, Error>)
    requires UniqueIds(db.subscribers)
    modifies db
    ensures r.Err? <==> !schema.hasRequiredColumns || (mode.Apply? && !schema.contactColumnsNullable)
    ensures r.Err? || mode.DryRun? ==> db.subscribers == old(db.subscribers) && db.contacts == old(db.contacts)
    ensures r.Ok? ==>
              r.value == Report(mode, Forecast(hmac, schema.hasSoftDelete, old(db.subscribers), old(db.contacts)),
                                mode.Apply?)
    ensures r.Ok? && mode.Apply? ==>
              && db.subscribers == ClearAll(hmac, old(db.subscribers))
              && db.contacts == ContactsAfter(PlaceholderHmacs(hmac, old(db.subscribers)), schema.hasSoftDelete,
                                              old(db.contacts), now)
  {
    if !schema.hasRequiredColumns {
      return Err(MissingColumns);
    }
    if mode.Apply? && !schema.contactColumnsNullable {
      return Err(MigrationPending);
    }
    var subs := db.subscribers;
    var totals, hmacs, plan := Detect(subs, hmac);
    assert subs[..|subs|] == subs;
    var soft := schema.hasSoftDelete;
    totals := totals.(
      partyContactsPlaceholderByHmac :=
        CountContacts(CountsAsPlaceholder(hmacs, soft), db.contacts),
      emptyPartyContactValues := CountContacts(HasEmptyValue, db.contacts));
    if mode.DryRun? {
      return Ok(Report(mode, totals, false));
    }
    RunPlan(db, plan);
    PlanClears(hmac, subs, |subs|, plan);
    assert ClearFirst(hmac, subs, |subs|) == ClearAll(hmac, subs);
    db.contacts := MapContacts(EmptyToNull, db.contacts);
    if soft {
      db.contacts := MapContacts(c => SoftDelete(hmacs, c, now), db.contacts);
    } else {
      db.contacts := DropContacts(hmacs, db.contacts);
    }
    r := Ok(Report(mode, totals, true));
  }

  // ---- Forecast and result ---------------------------------------------------------------------

  lemma {:induction false} CountMapped(p: Subscriber -> bool, q: Subscriber -> bool, hmac: Hmac, subs: seq<Subscriber>)
    requires forall s :: p(s) == q(Cleared(hmac, s))
    ensures CountSubs(p, subs) == CountSubs(q, ClearAll(hmac, subs))
  {
    if subs != [] {
      CountMapped(p, q, hmac, subs[..|subs| - 1]);
      assert ClearAll(hmac, subs)[..|subs| - 1] == ClearAll(hmac, subs[..|subs| - 1]);
    }
  }

  /** The number of active subscribers left without contact, counted before any write, is what apply produces. */
  lemma ForecastIsResult(hmac: Hmac, softDelete: bool, subs: seq<Subscriber>, contacts: seq<Contact>)
    ensures Forecast(hmac, softDelete, subs, contacts).activeWithoutContactAfterBackfill
            == CountSubs(WithoutContact, ClearAll(hmac, subs))
  {
    CountMapped(LeftWithoutContact(hmac), WithoutContact, hmac, subs);
  }

  lemma {:induction false} SameHmacs(hmac: Hmac, subs: seq<Subscriber>)
    ensures PlaceholderHmacs(hmac, ClearAll(hmac, subs)) == PlaceholderHmacs(hmac, subs)
  {
    if subs != [] {
      SameHmacs(hmac, subs[..|subs| - 1]);
      assert ClearAll(hmac, subs)[..|subs| - 1] == ClearAll(hmac, subs[..|subs| - 1]);
    }
  }

  lemma {:induction false} DropKeeps(hmacs: set<string>, contacts: seq<Contact>)
    ensures forall c :: c in DropContacts(hmacs, contacts) <==> c in contacts && !IsPlaceholder(hmacs, c)
  {
    if contacts != [] {
      DropKeeps(hmacs, contacts[1..]);
      assert contacts == [contacts[0]] + contacts[1..];
    }
  }

  /** After apply no live contact carries a placeholder HMAC and no contact value is the empty string. */
  lemma ContactsClean(hmacs: set<string>, softDelete: bool, contacts: seq<Contact>, now: int, c: Contact)
    requires c in ContactsAfter(hmacs, softDelete, contacts, now)
    ensures c.value != Some("")
    ensures IsPlaceholder(hmacs, c) ==> softDelete && !Live(c)
  {
    var cleaned := MapContacts(EmptyToNull, contacts);
    var after := ContactsAfter(hmacs, softDelete, contacts, now);
    if softDelete {
      var i :| 0 <= i < |after| && after[i] == c;
      assert c == SoftDelete(hmacs, cleaned[i], now) && cleaned[i] == EmptyToNull(contacts[i]);
    } else {
      DropKeeps(hmacs, cleaned);
      var i :| 0 <= i < |cleaned| && cleaned[i] == c;
      assert c == EmptyToNull(contacts[i]);
    }
  }

  lemma {:induction false} CountNone(p: Contact -> bool, contacts: seq<Contact>)
    requires forall c :: c in contacts ==> !p(c)
    ensures CountContacts(p, contacts) == 0
  {
    if contacts != [] {
      CountNone(p, contacts[..|contacts| - 1]);
    }
  }

  lemma {:induction false} CountNoSubs(p: Subscriber -> bool, subs: seq<Subscriber>)
    requires forall s :: s in subs ==> !p(s)
    ensures CountSubs(p, subs) == 0
  {
    if subs != [] {
      CountNoSubs(p, subs[..|subs| - 1]);
    }
  }

  lemma ClearedHasNone(hmac: Hmac, subs: seq<Subscriber>)
    ensures CountSubs(EmailPlaceholder(hmac), ClearAll(hmac, subs)) == 0
    ensures CountSubs(PhonePlaceholder(hmac), ClearAll(hmac, subs)) == 0
    ensures ClearAll(hmac, ClearAll(hmac, subs)) == ClearAll(hmac, subs)
  {
    CountNoSubs(EmailPlaceholder(hmac), ClearAll(hmac, subs));
    CountNoSubs(PhonePlaceholder(hmac), ClearAll(hmac, subs));
  }

  lemma ContactsHaveNone(hmacs: set<string>, softDelete: bool, contacts: seq<Contact>, now: int)
    ensures CountContacts(CountsAsPlaceholder(hmacs, softDelete), ContactsAfter(hmacs, softDelete, contacts, now)) == 0
    ensures CountContacts(HasEmptyValue, ContactsAfter(hmacs, softDelete, contacts, now)) == 0
  {
    var left := ContactsAfter(hmacs, softDelete, contacts, now);
    forall c | c in left ensures !HasEmptyValue(c) && !CountsAsPlaceholder(hmacs, softDelete)(c) {
      ContactsClean(hmacs, softDelete, contacts, now, c);
    }
    CountNone(CountsAsPlaceholder(hmacs, softDelete), left);
    CountNone(HasEmptyValue, left);
  }

  /** A second run finds no placeholder of any kind and forecasts the same subscribers without contact. */
  lemma SecondRunFindsNothing(hmac: Hmac, softDelete: bool, subs: seq<Subscriber>, contacts: seq<Contact>, now: int)
    ensures var left := ContactsAfter(PlaceholderHmacs(hmac, subs), softDelete, contacts, now);
            Forecast(hmac, softDelete, ClearAll(hmac, subs), left)
            == Totals(|subs|, 0, 0, 0, 0, Forecast(hmac, softDelete, subs, contacts).activeWithoutContactAfterBackfill)
  {
    var hmacs := PlaceholderHmacs(hmac, subs);
    SameHmacs(hmac, subs);
    ClearedHasNone(hmac, subs);
    ContactsHaveNone(hmacs, softDelete, contacts, now);
    LeftStays(hmac, subs);
    ForecastIs(hmac, softDelete, ClearAll(hmac, subs), ContactsAfter(hmacs, softDelete, contacts, now), hmacs, |subs|,
               CountSubs(LeftWithoutContact(hmac), subs));
  }

  lemma LeftStays(hmac: Hmac, subs: seq<Subscriber>)
    ensures CountSubs(LeftWithoutContact(hmac), ClearAll(hmac, subs)) == CountSubs(LeftWithoutContact(hmac), subs)
  {
    CountMapped(LeftWithoutContact(hmac), LeftWithoutContact(hmac), hmac, subs);
  }

  /** A forecast over tables without placeholders. */
  lemma ForecastIs(hmac: Hmac, softDelete: bool, subs: seq<Subscriber>, contacts: seq<Contact>, hmacs: set<string>,
                   n: nat, without: nat)
    requires hmacs == PlaceholderHmacs(hmac, subs) && n == |subs|
    requires without == CountSubs(LeftWithoutContact(hmac), subs)
    requires CountSubs(EmailPlaceholder(hmac), subs) == CountSubs(PhonePlaceholder(hmac), subs) == 0
    requires CountContacts(CountsAsPlaceholder(hmacs, softDelete), contacts) == 0
    requires CountContacts(HasEmptyValue, contacts) == 0
    ensures Forecast(hmac, softDelete, subs, contacts) == Totals(n, 0, 0, 0, 0, without)
  {
  }
}
