/**
 * The grouping pass of the tenant verification: marked subscribers and
 * expedientes are gathered by party, by request, or alone, and each group is
 * checked once (apps/api/src/cli/anonymize-titular.ts:1325-1425).
 */
module VerificationGroups {
  import opened Options

  /** Columns that may be NULL; an empty text is falsy too. */
  type Id = Option<string>

  predicate Truthy(id: Id) {
    id.Some? && id.value != ""
  }

  datatype Subscriber = Subscriber(id: string, party: Id, user: Id, expediente: Id, request: Id)

  datatype Expediente = Expediente(id: string, party: Id, request: Id)

  datatype Group = Group(
    party: Id,
    subscriberIds: seq<string>,
    userIds: seq<string>,
    expedienteIds: seq<string>,
    titularIds: seq<string>)

  function KeyOf(party: Id, request: Id, own: string): string {
    if Truthy(party) then "party:" + party.value
    else if Truthy(request) then "request:" + request.value
    else own
  }

  function SubscriberKey(s: Subscriber): string {
    KeyOf(s.party, s.request, "subscriber:" + s.id)
  }

  function ExpedienteKey(e: Expediente): string {
    KeyOf(e.party, e.request, "expediente:" + e.id)
  }

  // ---- What each group must hold ------------------------------------------------------------

  function SubscribersOf(subs: seq<Subscriber>, key: string): seq<Subscriber> {
    if subs == [] then []
    else
      var last := subs[|subs| - 1];
      SubscribersOf(subs[..|subs| - 1], key) + (if SubscriberKey(last) == key then [last] else [])
  }

  function ExpedientesOf(exps: seq<Expediente>, key: string): seq<Expediente> {
    if exps == [] then []
    else
      var last := exps[|exps| - 1];
      ExpedientesOf(exps[..|exps| - 1], key) + (if ExpedienteKey(last) == key then [last] else [])
  }

  function SubscriberIds(subs: seq<Subscriber>): seq<string> {
    if subs == [] then [] else SubscriberIds(subs[..|subs| - 1]) + [subs[|subs| - 1].id]
  }

  function ExpedienteIds(exps: seq<Expediente>): seq<string> {
    if exps == [] then [] else ExpedienteIds(exps[..|exps| - 1]) + [exps[|exps| - 1].id]
  }

  function UserIds(subs: seq<Subscriber>): seq<string> {
    if subs == [] then []
    else
      var user := subs[|subs| - 1].user;
      UserIds(subs[..|subs| - 1]) + (if Truthy(user) then [user.value] else [])
  }

  /** The marked expedientes that subscribers of the group point to. */
  function LinkedIds(subs: seq<Subscriber>, marked: set<string>): seq<string> {
    if subs == [] then []
    else
      var link := subs[|subs| - 1].expediente;
      LinkedIds(subs[..|subs| - 1], marked) + (if Truthy(link) && link.value in marked then [link.value] else [])
  }

  function AddMissing(ids: seq<string>, exps: seq<Expediente>): seq<string> {
    if exps == [] then ids
    else
      var front, id := AddMissing(ids, exps[..|exps| - 1]), exps[|exps| - 1].id;
      if id in front then front else front + [id]
  }

  function MarkedIds(exps: seq<Expediente>): set<string> {
    set e | e in exps :: e.id
  }

  /** The group of one key, from its members alone. */
  function GroupFor(subs: seq<Subscriber>, exps: seq<Expediente>, marked: set<string>): Group
    requires subs != [] || exps != []
  {
    Group(if subs != [] then subs[0].party else exps[0].party,
          SubscriberIds(subs),
          UserIds(subs),
          AddMissing(LinkedIds(subs, marked), exps),
          SubscriberIds(subs) + ExpedienteIds(exps))
  }

  predicate HasKey(subs: seq<Subscriber>, exps: seq<Expediente>, key: string) {
    SubscribersOf(subs, key) != [] || ExpedientesOf(exps, key) != []
  }

  ghost predicate NoRepeats<T>(s: seq<T>) {
    forall i, j :: 0 <= i < j < |s| ==> s[i] != s[j]
  }

  /** What the map holds for one key, and that it holds something exactly when a record has the key. */
  ghost predicate Entry(groups: map<string, Group>, key: string, subs: seq<Subscriber>, exps: seq<Expediente>,
                        marked: set<string>) {
    && (key in groups <==> HasKey(subs, exps, key))
    && (key in groups ==> groups[key] == GroupFor(SubscribersOf(subs, key), ExpedientesOf(exps, key), marked))
  }

  ghost predicate Entries(groups: map<string, Group>, subs: seq<Subscriber>, exps: seq<Expediente>,
                          marked: set<string>) {
    forall k :: Entry(groups, k, subs, exps, marked)
  }

  /** The insertion order of the Map. */
  ghost predicate Ordered(order: seq<string>, groups: map<string, Group>) {
    NoRepeats(order) && forall k :: k in groups <==> k in order
  }

  ghost predicate Grouped(order: seq<string>, groups: map<string, Group>, subs: seq<Subscriber>, exps: seq<Expediente>,
                          marked: set<string>) {
    Ordered(order, groups) && Entries(groups, subs, exps, marked)
  }

  // ---- The two loops ----------------------------------------------------------------------------

  function NewGroup(party: Id): Group {
    Group(party, [], [], [], [])
  }

  function GroupAt(groups: map<string, Group>, key: string, party: Id): Group {
    if key in groups then groups[key] else NewGroup(party)
  }

  function WithSubscriber(group: Group, row: Subscriber, marked: set<string>): Group {
    Group(group.party,
          group.subscriberIds + [row.id],
          if Truthy(row.user) then group.userIds + [row.user.value] else group.userIds,
          if Truthy(row.expediente) && row.expediente.value in marked then group.expedienteIds + [row.expediente.value]
          else group.expedienteIds,
          group.titularIds + [row.id])
  }

  function WithExpediente(group: Group, row: Expediente): Group {
    Group(group.party, group.subscriberIds, group.userIds,
          if row.id in group.expedienteIds then group.expedienteIds else group.expedienteIds + [row.id],
          group.titularIds + [row.id])
  }

  lemma OrderedPut(order: seq<string>, groups: map<string, Group>, key: string, group: Group)
    requires Ordered(order, groups)
    ensures Ordered(if key in groups then order else order + [key], groups[key := group])
  {
  }

  lemma GroupGainsSubscriber(of: seq<Subscriber>, row: Subscriber, marked: set<string>)
    ensures GroupFor(of + [row], [], marked)
         == WithSubscriber(if of != [] then GroupFor(of, [], marked) else NewGroup(row.party), row, marked)
  {
    assert (of + [row])[..|of|] == of;
    assert SubscriberIds(of + [row]) == SubscriberIds(of) + [row.id];
    assert ExpedienteIds([]) == [] && SubscriberIds(of) + [] == SubscriberIds(of);
    assert forall s: seq<string> :: s + [] == s;
    var before, after := GroupFor(of + [row], [], marked),
                         WithSubscriber(if of != [] then GroupFor(of, [], marked) else NewGroup(row.party),
                                        row, marked);
    assert before.subscriberIds == after.subscriberIds && before.titularIds == after.titularIds;
    assert UserIds(of + [row]) == if Truthy(row.user) then UserIds(of) + [row.user.value] else UserIds(of);
    var linked := LinkedIds(of + [row], marked);
    assert linked == if Truthy(row.expediente) && row.expediente.value in marked
                     then LinkedIds(of, marked) + [row.expediente.value] else LinkedIds(of, marked);
    assert before.expedienteIds == linked;
  }

  lemma GroupGainsExpediente(subs: seq<Subscriber>, of: seq<Expediente>, row: Expediente, marked: set<string>)
    ensures GroupFor(subs, of + [row], marked)
         == WithExpediente(if subs != [] || of != [] then GroupFor(subs, of, marked) else NewGroup(row.party), row)
  {
    assert (of + [row])[..|of|] == of;
    var ids := AddMissing(LinkedIds(subs, marked), of);
    assert AddMissing(LinkedIds(subs, marked), of + [row]) == if row.id in ids then ids else ids + [row.id];
    assert ExpedienteIds(of + [row]) == ExpedienteIds(of) + [row.id];
    assert SubscriberIds(subs) + (ExpedienteIds(of) + [row.id]) == SubscriberIds(subs) + ExpedienteIds(of) + [row.id];
  }

  lemma EntryWithSubscriber(groups: map<string, Group>, row: Subscriber, subs: seq<Subscriber>, marked: set<string>)
    requires Entry(groups, SubscriberKey(row), subs, [], marked)
    ensures var key := SubscriberKey(row);
            Entry(groups[key := WithSubscriber(GroupAt(groups, key, row.party), row, marked)],
                  key, subs + [row], [], marked)
  {
    var key := SubscriberKey(row);
    assert (subs + [row])[..|subs|] == subs;
    assert SubscribersOf(subs + [row], key) == SubscribersOf(subs, key) + [row];
    GroupGainsSubscriber(SubscribersOf(subs, key), row, marked);
  }

  lemma EntryWithExpediente(groups: map<string, Group>, row: Expediente, subs: seq<Subscriber>, exps: seq<Expediente>,
                            marked: set<string>)
    requires Entry(groups, ExpedienteKey(row), subs, exps, marked)
    ensures var key := ExpedienteKey(row);
            Entry(groups[key := WithExpediente(GroupAt(groups, key, row.party), row)], key, subs, exps + [row], marked)
  {
    var key := ExpedienteKey(row);
    assert (exps + [row])[..|exps|] == exps;
    assert ExpedientesOf(exps + [row], key) == ExpedientesOf(exps, key) + [row];
    GroupGainsExpediente(SubscribersOf(subs, key), ExpedientesOf(exps, key), row, marked);
  }

  lemma EntriesWithSubscriber(groups: map<string, Group>, row: Subscriber, subs: seq<Subscriber>, marked: set<string>)
    requires Entries(groups, subs, [], marked)
    ensures var key := SubscriberKey(row);
            Entries(groups[key := WithSubscriber(GroupAt(groups, key, row.party), row, marked)],
                    subs + [row], [], marked)
  {
    var key := SubscriberKey(row);
    var groups' := groups[key := WithSubscriber(GroupAt(groups, key, row.party), row, marked)];
    forall k ensures Entry(groups', k, subs + [row], [], marked) {
      assert Entry(groups, k, subs, [], marked);
      if k == key {
        EntryWithSubscriber(groups, row, subs, marked);
      } else {
        assert (subs + [row])[..|subs|] == subs;
        assert SubscribersOf(subs + [row], k) == SubscribersOf(subs, k);
      }
    }
  }

  lemma EntriesWithExpediente(groups: map<string, Group>, row: Expediente, subs: seq<Subscriber>, exps: seq<Expediente>,
                              marked: set<string>)
    requires Entries(groups, subs, exps, marked)
    ensures var key := ExpedienteKey(row);
            Entries(groups[key := WithExpediente(GroupAt(groups, key, row.party), row)], subs, exps + [row], marked)
  {
    var key := ExpedienteKey(row);
    var groups' := groups[key := WithExpediente(GroupAt(groups, key, row.party), row)];
    forall k ensures Entry(groups', k, subs, exps + [row], marked) {
      assert Entry(groups, k, subs, exps, marked);
      if k == key {
        EntryWithExpediente(groups, row, subs, exps, marked);
      } else {
        assert (exps + [row])[..|exps|] == exps;
        assert ExpedientesOf(exps + [row], k) == ExpedientesOf(exps, k);
      }
    }
  }

  lemma GroupedWithSubscriber(order: seq<string>, groups: map<string, Group>, subs: seq<Subscriber>, i: nat,
                              marked: set<string>)
    requires i < |subs| && Grouped(order, groups, subs[..i], [], marked)
    ensures var row := subs[i];
            var key := SubscriberKey(row);
            Grouped(if key in groups then order else order + [key],
                    groups[key := WithSubscriber(GroupAt(groups, key, row.party), row, marked)],
                    subs[..i + 1], [], marked)
  {
    var row := subs[i];
    assert subs[..i + 1] == subs[..i] + [row];
    EntriesWithSubscriber(groups, row, subs[..i], marked);
    OrderedPut(order, groups, SubscriberKey(row),
               WithSubscriber(GroupAt(groups, SubscriberKey(row), row.party), row, marked));
  }

  lemma GroupedWithExpediente(order: seq<string>, groups: map<string, Group>, subs: seq<Subscriber>,
                              exps: seq<Expediente>, i: nat, marked: set<string>)
    requires i < |exps| && Grouped(order, groups, subs, exps[..i], marked)
    ensures var row := exps[i];
            var key := ExpedienteKey(row);
            Grouped(if key in groups then order else order + [key],
                    groups[key := WithExpediente(GroupAt(groups, key, row.party), row)],
                    subs, exps[..i + 1], marked)
  {
    var row := exps[i];
    assert exps[..i + 1] == exps[..i] + [row];
    EntriesWithExpediente(groups, row, subs, exps[..i], marked);
    OrderedPut(order, groups, ExpedienteKey(row), WithExpediente(GroupAt(groups, ExpedienteKey(row), row.party), row));
  }

  /** One row of the first loop. */
  method AddSubscriber(order: seq<string>, groups: map<string, Group>, row: Subscriber, marked: set<string>)
    returns (order': seq<string>, groups': map<string, Group>)
    ensures var key := SubscriberKey(row);
            && order' == (if key in groups then order else order + [key])
            && groups' == groups[key := WithSubscriber(GroupAt(groups, key, row.party), row, marked)]
  {
    var key := SubscriberKey(row);
    var group := if key in groups then groups[key] else NewGroup(row.party);
    group := group.(subscriberIds := group.subscriberIds + [row.id]);
    group := group.(titularIds := group.titularIds + [row.id]);
    if Truthy(row.user) {
      group := group.(userIds := group.userIds + [row.user.value]);
    }
    if Truthy(row.expediente) && row.expediente.value in marked {
      group := group.(expedienteIds := group.expedienteIds + [row.expediente.value]);
    }
    order' := if key in groups then order else order + [key];
    groups' := groups[key := group];
  }

  /** One row of the second loop. */
  method AddExpediente(order: seq<string>, groups: map<string, Group>, row: Expediente)
    returns (order': seq<string>, groups': map<string, Group>)
    ensures var key := ExpedienteKey(row);
            && order' == (if key in groups then order else order + [key])
            && groups' == groups[key := WithExpediente(GroupAt(groups, key, row.party), row)]
  {
    var key := ExpedienteKey(row);
    var group := if key in groups then groups[key] else NewGroup(row.party);
    if row.id !in group.expedienteIds {
      group := group.(expedienteIds := group.expedienteIds + [row.id]);
    }
    group := group.(titularIds := group.titularIds + [row.id]);
    order' := if key in groups then order else order + [key];
    groups' := groups[key := group];
  }

  method GroupSubscribers(subs: seq<Subscriber>, marked: set<string>)
    returns (order: seq<string>, groups: map<string, Group>)
    ensures Grouped(order, groups, subs, [], marked)
  {
    order, groups := [], map[];
    var i := 0;
    assert subs[..i] == [];
    while i < |subs|
      invariant i <= |subs| && Grouped(order, groups, subs[..i], [], marked)
    {
      GroupedWithSubscriber(order, groups, subs, i, marked);
      order, groups := AddSubscriber(order, groups, subs[i], marked);
      i := i + 1;
    }
    assert subs[..i] == subs;
  }

  /** Every key has one group, made of all the records with that key and of no other. */
  method GroupMarked(subs: seq<Subscriber>, exps: seq<Expediente>)
    returns (order: seq<string>, groups: map<string, Group>)
    ensures Grouped(order, groups, subs, exps, MarkedIds(exps))
  {
    var marked := MarkedIds(exps);
    order, groups := GroupSubscribers(subs, marked);
    var i := 0;
    assert exps[..i] == [];
    while i < |exps|
      invariant i <= |exps| && Grouped(order, groups, subs, exps[..i], marked)
    {
      GroupedWithExpediente(order, groups, subs, exps, i, marked);
      order, groups := AddExpediente(order, groups, exps[i]);
      i := i + 1;
    }
    assert exps[..i] == exps;
  }
}
