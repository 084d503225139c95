/**
 * What an applied removal of placeholders does to each row, told from the
 * tables before the run: genuine contacts keep everything, and as many rows
 * lose something as the report counts
 * (apps/api/src/cli/backfill-placeholder-contacts.ts:109-173).
 */
module PlaceholderOutcome {
  import opened Options
  import opened PlaceholderBackfill

  // ---- What a placeholder is -------------------------------------------------------------------

  predicate EmailPlaceholderOf(hmac: Hmac, s: Subscriber, h: string) {
    s.expedienteId.Some? && s.expedienteId.value != ""
    && h == hmac("expediente-" + s.expedienteId.value + "@placeholder.iwana.co")
  }

  /** The HMAC of the placeholder phone, or of the placeholder e-mail of some subscriber. */
  ghost predicate PlaceholderHash(hmac: Hmac, subs: seq<Subscriber>, h: string) {
    h == hmac("0000000000") || (h != "" && exists s :: s in subs && EmailPlaceholderOf(hmac, s, h))
  }

  ghost predicate Placeholder(hmac: Hmac, subs: seq<Subscriber>, c: Contact) {
    c.valueHmac.Some? && PlaceholderHash(hmac, subs, c.valueHmac.value)
  }

  lemma {:induction false} HashesAre(hmac: Hmac, subs: seq<Subscriber>, h: string)
    ensures h in PlaceholderHmacs(hmac, subs) <==> PlaceholderHash(hmac, subs, h)
  {
    if subs != [] {
      var front, last := subs[..|subs| - 1], subs[|subs| - 1];
      HashesAre(hmac, front, h);
      assert subs == front + [last];
      assert EmailPlaceholderOf(hmac, last, h) <==> ExpectedEmailHmac(hmac, last) == Some(h);
    }
  }

  lemma PlaceholderIff(hmac: Hmac, subs: seq<Subscriber>, c: Contact)
    ensures IsPlaceholder(PlaceholderHmacs(hmac, subs), c) <==> Placeholder(hmac, subs, c)
  {
    if c.valueHmac.Some? {
      HashesAre(hmac, subs, c.valueHmac.value);
    }
  }

  // ---- Counting ---------------------------------------------------------------------------------

  ghost function Positions<T>(p: T -> bool, rows: seq<T>): set<nat> {
    set k: nat | k < |rows| && p(rows[k])
  }

  lemma PositionsSnoc<T>(p: T -> bool, rows: seq<T>)
    requires rows != []
    ensures |Positions(p, rows)|
            == |Positions(p, rows[..|rows| - 1])| + if p(rows[|rows| - 1]) then 1 else 0
  {
    var last := |rows| - 1;
    assert Positions(p, rows) == Positions(p, rows[..last]) + (if p(rows[last]) then {last} else {});
  }

  lemma {:induction false} ContactsCounted(p: Contact -> bool, contacts: seq<Contact>)
    ensures CountContacts(p, contacts) == |Positions(p, contacts)|
  {
    if contacts != [] {
      ContactsCounted(p, contacts[..|contacts| - 1]);
      PositionsSnoc(p, contacts);
    }
  }

  lemma {:induction false} SubscribersCounted(p: Subscriber -> bool, subs: seq<Subscriber>)
    ensures CountSubs(p, subs) == |Positions(p, subs)|
  {
    if subs != [] {
      SubscribersCounted(p, subs[..|subs| - 1]);
      PositionsSnoc(p, subs);
    }
  }

  // ---- Contacts -----------------------------------------------------------------------------------

  /** Id and HMAC stay, and so does the value, with the empty one read as NULL. */
  ghost predicate ValueKept(c: Contact, after: Contact) {
    after.id == c.id && after.valueHmac == c.valueHmac && after.value == if c.value == Some("") then None else c.value
  }

  ghost predicate SoftDeleted(hmac: Hmac, subs: seq<Subscriber>, now: int, c: Contact, after: Contact) {
    && ValueKept(c, after)
    && after.deletedAt == if c.deletedAt.None? && Placeholder(hmac, subs, c) then Some(now) else c.deletedAt
  }

  lemma SoftDeletedRow(hmac: Hmac, subs: seq<Subscriber>, contacts: seq<Contact>, now: int, k: nat)
    requires k < |contacts|
    ensures SoftDeleted(hmac, subs, now, contacts[k],
                        ContactsAfter(PlaceholderHmacs(hmac, subs), true, contacts, now)[k])
  {
    var hmacs := PlaceholderHmacs(hmac, subs);
    PlaceholderIff(hmac, subs, contacts[k]);
    assert ContactsAfter(hmacs, true, contacts, now)[k] == SoftDelete(hmacs, EmptyToNull(contacts[k]), now);
  }

  ghost function NewlyDeleted(contacts: seq<Contact>, after: seq<Contact>): set<nat>
    requires |after| == |contacts|
  {
    set k: nat | k < |contacts| && contacts[k].deletedAt.None? && after[k].deletedAt.Some?
  }

  /** Soft delete dates exactly the live placeholders, as many as the report counts, and keeps every other date. */
  lemma SoftDeleteOutcome(hmac: Hmac, subs: seq<Subscriber>, contacts: seq<Contact>, now: int)
    ensures var after := ContactsAfter(PlaceholderHmacs(hmac, subs), true, contacts, now);
            && |after| == |contacts|
            && (forall k :: 0 <= k < |contacts| ==> SoftDeleted(hmac, subs, now, contacts[k], after[k]))
            && |NewlyDeleted(contacts, after)|
               == Forecast(hmac, true, subs, contacts).partyContactsPlaceholderByHmac
  {
    var hmacs := PlaceholderHmacs(hmac, subs);
    var after := ContactsAfter(hmacs, true, contacts, now);
    forall k | 0 <= k < |contacts| ensures SoftDeleted(hmac, subs, now, contacts[k], after[k]) {
      SoftDeletedRow(hmac, subs, contacts, now, k);
    }
    var counts := CountsAsPlaceholder(hmacs, true);
    ContactsCounted(counts, contacts);
    forall k: nat | k < |contacts|
      ensures contacts[k].deletedAt.None? && after[k].deletedAt.Some? <==> counts(contacts[k])
    {
      SoftDeletedRow(hmac, subs, contacts, now, k);
      PlaceholderIff(hmac, subs, contacts[k]);
    }
    assert NewlyDeleted(contacts, after) == Positions(counts, contacts);
  }

  /** Where the contacts that stay stood before: in the same order, and exactly those that are no placeholders. */
  ghost predicate KeptFrom(hmacs: set<string>, contacts: seq<Contact>, after: seq<Contact>, from: seq<nat>) {
    && |from| == |after|
    && (forall i, j :: 0 <= i < j < |from| ==> from[i] < from[j])
    && (forall i :: 0 <= i < |from| ==> from[i] < |contacts| && after[i] == contacts[from[i]])
    && (forall k :: 0 <= k < |contacts| ==> (k in from <==> !IsPlaceholder(hmacs, contacts[k])))
  }

  lemma {:induction false} DropSnoc(hmacs: set<string>, front: seq<Contact>, last: Contact)
    ensures DropContacts(hmacs, front + [last])
            == DropContacts(hmacs, front) + if IsPlaceholder(hmacs, last) then [] else [last]
  {
    if front != [] {
      DropSnoc(hmacs, front[1..], last);
      assert (front + [last])[1..] == front[1..] + [last];
    }
  }

  lemma KeptSnoc(hmacs: set<string>, front: seq<Contact>, last: Contact, after: seq<Contact>, from: seq<nat>)
    requires KeptFrom(hmacs, front, after, from)
    ensures if IsPlaceholder(hmacs, last) then KeptFrom(hmacs, front + [last], after, from)
            else KeptFrom(hmacs, front + [last], after + [last], from + [|front|])
  {
    if !IsPlaceholder(hmacs, last) {
      var longer := from + [|front|];
      forall k | 0 <= k < |front| + 1 ensures k in longer <==> !IsPlaceholder(hmacs, (front + [last])[k]) {
        assert k in longer <==> k in from || k == |front|;
      }
    }
  }

  lemma {:induction false} DropKeepsOrder(hmacs: set<string>, contacts: seq<Contact>) returns (from: seq<nat>)
    ensures KeptFrom(hmacs, contacts, DropContacts(hmacs, contacts), from)
  {
    if contacts == [] {
      from := [];
    } else {
      var front, last := contacts[..|contacts| - 1], contacts[|contacts| - 1];
      assert contacts == front + [last];
      from := DropKeepsOrder(hmacs, front);
      DropSnoc(hmacs, front, last);
      KeptSnoc(hmacs, front, last, DropContacts(hmacs, front), from);
      if !IsPlaceholder(hmacs, last) {
        from := from + [|front|];
      }
    }
  }

  /** The contacts that are not dropped and those that count as placeholders are all there were. */
  lemma {:induction false} DropCounts(hmacs: set<string>, contacts: seq<Contact>)
    ensures |DropContacts(hmacs, contacts)| + CountContacts(CountsAsPlaceholder(hmacs, false), contacts) == |contacts|
  {
    if contacts != [] {
      var front, last := contacts[..|contacts| - 1], contacts[|contacts| - 1];
      assert contacts == front + [last];
      DropSnoc(hmacs, front, last);
      DropCounts(hmacs, front);
    }
  }

  lemma CleanedCounts(hmacs: set<string>, contacts: seq<Contact>)
    ensures CountContacts(CountsAsPlaceholder(hmacs, false), MapContacts(EmptyToNull, contacts))
            == CountContacts(CountsAsPlaceholder(hmacs, false), contacts)
  {
    var counts, cleaned := CountsAsPlaceholder(hmacs, false), MapContacts(EmptyToNull, contacts);
    ContactsCounted(counts, contacts);
    ContactsCounted(counts, cleaned);
    assert forall k :: 0 <= k < |contacts| ==> cleaned[k] == EmptyToNull(contacts[k]);
    assert Positions(counts, cleaned) == Positions(counts, contacts);
  }

  /** The contacts that stay, by where they stood: in the old order, and exactly those that are no placeholders. */
  ghost predicate Survives(hmac: Hmac, subs: seq<Subscriber>, contacts: seq<Contact>, after: seq<Contact>,
                           from: seq<nat>) {
    && |from| == |after|
    && (forall i, j :: 0 <= i < j < |from| ==> from[i] < from[j])
    && (forall i :: 0 <= i < |from| ==>
          from[i] < |contacts| && ValueKept(contacts[from[i]], after[i])
          && after[i].deletedAt == contacts[from[i]].deletedAt)
    && (forall k :: 0 <= k < |contacts| ==> (k in from <==> !Placeholder(hmac, subs, contacts[k])))
  }

  /** Hard delete removes exactly the placeholders, as many as the report counts; the others stay as they are. */
  lemma HardDeleteOutcome(hmac: Hmac, subs: seq<Subscriber>, contacts: seq<Contact>, now: int) returns (from: seq<nat>)
    ensures var after := ContactsAfter(PlaceholderHmacs(hmac, subs), false, contacts, now);
            && Survives(hmac, subs, contacts, after, from)
            && |contacts| - |after| == Forecast(hmac, false, subs, contacts).partyContactsPlaceholderByHmac
  {
    var hmacs, cleaned := PlaceholderHmacs(hmac, subs), MapContacts(EmptyToNull, contacts);
    from := DropKeepsOrder(hmacs, cleaned);
    DropCounts(hmacs, cleaned);
    CleanedCounts(hmacs, contacts);
    assert forall k :: 0 <= k < |contacts| ==> cleaned[k] == EmptyToNull(contacts[k]);
    forall k: nat | k < |contacts| ensures k in from <==> !Placeholder(hmac, subs, contacts[k]) {
      PlaceholderIff(hmac, subs, contacts[k]);
    }
  }

  // ---- Subscribers ------------------------------------------------------------------------------------

  predicate HoldsEmailPlaceholder(hmac: Hmac, s: Subscriber) {
    s.emailHmac.Some? && EmailPlaceholderOf(hmac, s, s.emailHmac.value)
  }

  predicate HoldsPhonePlaceholder(hmac: Hmac, s: Subscriber) {
    s.phoneHmac == Some(hmac("0000000000"))
  }

  /** Exactly a placeholder goes, with its ciphertext; the other channel and the rest of the row stay. */
  ghost predicate PlaceholdersGone(hmac: Hmac, s: Subscriber, after: Subscriber) {
    && after.id == s.id && after.expedienteId == s.expedienteId && after.status == s.status
    && (if HoldsEmailPlaceholder(hmac, s) then after.emailEncrypted.None? && after.emailHmac.None?
        else after.emailEncrypted == s.emailEncrypted && after.emailHmac == s.emailHmac)
    && (if HoldsPhonePlaceholder(hmac, s) then after.phoneEncrypted.None? && after.phoneHmac.None?
        else after.phoneEncrypted == s.phoneEncrypted && after.phoneHmac == s.phoneHmac)
  }

  lemma SubscriberCleared(hmac: Hmac, s: Subscriber)
    ensures PlaceholdersGone(hmac, s, Cleared(hmac, s))
  {
  }

  ghost function LostEmail(subs: seq<Subscriber>, after: seq<Subscriber>): set<nat>
    requires |after| == |subs|
  {
    set k: nat | k < |subs| && subs[k].emailHmac.Some? && after[k].emailHmac.None?
  }

  ghost function LostPhone(subs: seq<Subscriber>, after: seq<Subscriber>): set<nat>
    requires |after| == |subs|
  {
    set k: nat | k < |subs| && subs[k].phoneHmac.Some? && after[k].phoneHmac.None?
  }

  ghost function Unreachable(after: seq<Subscriber>): set<nat> {
    set k: nat | k < |after| && after[k].status == "ACTIVE" && after[k].emailEncrypted.None?
                 && after[k].phoneEncrypted.None?
  }

  lemma UnreachableAreLeft(hmac: Hmac, subs: seq<Subscriber>)
    ensures Unreachable(ClearAll(hmac, subs)) == Positions(LeftWithoutContact(hmac), subs)
  {
  }

  lemma LostArePlaceholders(hmac: Hmac, subs: seq<Subscriber>)
    ensures LostEmail(subs, ClearAll(hmac, subs)) == Positions(EmailPlaceholder(hmac), subs)
    ensures LostPhone(subs, ClearAll(hmac, subs)) == Positions(PhonePlaceholder(hmac), subs)
  {
  }

  /**
   * Subscribers lose exactly their placeholders, as many e-mails and phones as
   * the report counts, and as many active ones have neither as it forecasts.
   */
  lemma SubscribersOutcome(hmac: Hmac, softDelete: bool, subs: seq<Subscriber>, contacts: seq<Contact>)
    ensures var after, totals := ClearAll(hmac, subs), Forecast(hmac, softDelete, subs, contacts);
            && totals.subscribersSeen == |subs|
            && (forall k :: 0 <= k < |subs| ==> PlaceholdersGone(hmac, subs[k], after[k]))
            && |LostEmail(subs, after)| == totals.emailPlaceholders
            && |LostPhone(subs, after)| == totals.phonePlaceholders
            && |Unreachable(after)| == totals.activeWithoutContactAfterBackfill
  {
    var after := ClearAll(hmac, subs);
    SubscribersCounted(LeftWithoutContact(hmac), subs);
    UnreachableAreLeft(hmac, subs);
    SubscribersCounted(EmailPlaceholder(hmac), subs);
    SubscribersCounted(PhonePlaceholder(hmac), subs);
    LostArePlaceholders(hmac, subs);
    forall k | 0 <= k < |subs| ensures PlaceholdersGone(hmac, subs[k], after[k]) {
      SubscriberCleared(hmac, subs[k]);
    }
  }
}
