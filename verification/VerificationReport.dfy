/**
 * What the grouping of marked records guarantees, and the report built from
 * one check per group (apps/api/src/cli/anonymize-titular.ts:1337-1425).
 */
module VerificationReport {
  import opened Options
  import opened VerificationGroups

  // ---- Keys ---------------------------------------------------------------------------------

  /** Why a record belongs to a group. */
  datatype Origin =
    | ByParty(id: string)
    | ByRequest(id: string)
    | LoneSubscriber(id: string)
    | LoneExpediente(id: string)

  function SubscriberOrigin(s: Subscriber): Origin {
    if Truthy(s.party) then ByParty(s.party.value)
    else if Truthy(s.request) then ByRequest(s.request.value)
    else LoneSubscriber(s.id)
  }

  function ExpedienteOrigin(e: Expediente): Origin {
    if Truthy(e.party) then ByParty(e.party.value)
    else if Truthy(e.request) then ByRequest(e.request.value)
    else LoneExpediente(e.id)
  }

  function Tag(o: Origin): string {
    match o
    case ByParty(_) => "party:"
    case ByRequest(_) => "request:"
    case LoneSubscriber(_) => "subscriber:"
    case LoneExpediente(_) => "expediente:"
  }

  /** Two records have the same key exactly when they have the same origin, whatever their ids contain. */
  lemma KeysNeverCollide(a: Origin, b: Origin)
    ensures Tag(a) + a.id == Tag(b) + b.id <==> a == b
  {
    if Tag(a) + a.id == Tag(b) + b.id {
      assert (Tag(a) + a.id)[0] == Tag(a)[0] && (Tag(b) + b.id)[0] == Tag(b)[0];
      assert Tag(a) == Tag(b);
      assert (Tag(a) + a.id)[|Tag(a)|..] == a.id && (Tag(b) + b.id)[|Tag(b)|..] == b.id;
    }
  }

  lemma SubscriberKeyIsOrigin(s: Subscriber)
    ensures SubscriberKey(s) == Tag(SubscriberOrigin(s)) + SubscriberOrigin(s).id
  {
  }

  lemma ExpedienteKeyIsOrigin(e: Expediente)
    ensures ExpedienteKey(e) == Tag(ExpedienteOrigin(e)) + ExpedienteOrigin(e).id
  {
  }

  // ---- Membership -----------------------------------------------------------------------------

  lemma {:induction false} MembersOf(subs: seq<Subscriber>, key: string)
    ensures forall s :: s in SubscribersOf(subs, key) <==> s in subs && SubscriberKey(s) == key
  {
    if subs != [] {
      MembersOf(subs[..|subs| - 1], key);
      assert subs == subs[..|subs| - 1] + [subs[|subs| - 1]];
    }
  }

  lemma {:induction false} ExpedienteMembersOf(exps: seq<Expediente>, key: string)
    ensures forall e :: e in ExpedientesOf(exps, key) <==> e in exps && ExpedienteKey(e) == key
  {
    if exps != [] {
      ExpedienteMembersOf(exps[..|exps| - 1], key);
      assert exps == exps[..|exps| - 1] + [exps[|exps| - 1]];
    }
  }

  lemma {:induction false} SubscriberIdsHold(subs: seq<Subscriber>, id: string)
    ensures id in SubscriberIds(subs) <==> exists s :: s in subs && s.id == id
  {
    if subs != [] {
      var front, last := subs[..|subs| - 1], subs[|subs| - 1];
      SubscriberIdsHold(front, id);
      assert subs == front + [last];
      assert last in subs;
    }
  }

  lemma {:induction false} ExpedienteIdsHold(exps: seq<Expediente>, id: string)
    ensures id in ExpedienteIds(exps) <==> exists e :: e in exps && e.id == id
  {
    if exps != [] {
      var front, last := exps[..|exps| - 1], exps[|exps| - 1];
      ExpedienteIdsHold(front, id);
      assert exps == front + [last];
      assert last in exps;
    }
  }

  lemma {:induction false} AddMissingHold(ids: seq<string>, exps: seq<Expediente>, id: string)
    ensures id in AddMissing(ids, exps) <==> id in ids || exists e :: e in exps && e.id == id
  {
    if exps != [] {
      var front, last := exps[..|exps| - 1], exps[|exps| - 1];
      AddMissingHold(ids, front, id);
      assert exps == front + [last];
      assert last in exps;
    }
  }

  ghost predicate LinksTo(s: Subscriber, marked: set<string>, id: string) {
    Truthy(s.expediente) && s.expediente.value == id && id in marked
  }

  lemma {:induction false} LinkedHold(subs: seq<Subscriber>, marked: set<string>, id: string)
    ensures id in LinkedIds(subs, marked) <==> exists s :: s in subs && LinksTo(s, marked, id)
  {
    if subs != [] {
      var front, last := subs[..|subs| - 1], subs[|subs| - 1];
      LinkedHold(front, marked, id);
      assert subs == front + [last];
      assert last in subs;
    }
  }

  ghost predicate HasUser(s: Subscriber, key: string, user: string) {
    SubscriberKey(s) == key && s.user == Some(user) && user != ""
  }

  lemma UsersOfLast(subs: seq<Subscriber>, key: string)
    requires subs != []
    ensures var front, last := subs[..|subs| - 1], subs[|subs| - 1];
            UserIds(SubscribersOf(subs, key))
            == UserIds(SubscribersOf(front, key))
               + if SubscriberKey(last) == key && Truthy(last.user) then [last.user.value] else []
  {
    var last, of := subs[|subs| - 1], SubscribersOf(subs[..|subs| - 1], key);
    assert (of + [last])[..|of|] == of;
    assert of + [] == of && UserIds(of) + [] == UserIds(of);
  }

  lemma {:induction false} UserIdsHold(subs: seq<Subscriber>, key: string, user: string)
    ensures user in UserIds(SubscribersOf(subs, key)) <==> exists s :: s in subs && HasUser(s, key, user)
  {
    if subs != [] {
      var front, last := subs[..|subs| - 1], subs[|subs| - 1];
      UserIdsHold(front, key, user);
      assert subs == front + [last];
      assert last in subs;
      UsersOfLast(subs, key);
    }
  }

  ghost function WithUser(subs: seq<Subscriber>, key: string): set<nat> {
    set k: nat | k < |subs| && SubscriberKey(subs[k]) == key && subs[k].user.Some? && subs[k].user.value != ""
  }

  lemma WithUserOfLast(subs: seq<Subscriber>, key: string)
    requires subs != []
    ensures var n := |subs| - 1;
            |WithUser(subs, key)|
            == |WithUser(subs[..n], key)| + if SubscriberKey(subs[n]) == key && Truthy(subs[n].user) then 1 else 0
  {
    var n := |subs| - 1;
    var more := if SubscriberKey(subs[n]) == key && Truthy(subs[n].user) then {n} else {};
    assert WithUser(subs, key) == WithUser(subs[..n], key) + more;
  }

  lemma {:induction false} UserIdsCount(subs: seq<Subscriber>, key: string)
    ensures |UserIds(SubscribersOf(subs, key))| == |WithUser(subs, key)|
  {
    if subs != [] {
      UserIdsCount(subs[..|subs| - 1], key);
      UsersOfLast(subs, key);
      WithUserOfLast(subs, key);
    }
  }

  /** The users of a group are exactly those of the subscribers with its key, one entry for each that has one. */
  lemma UsersOfGroup(order: seq<string>, groups: map<string, Group>, subs: seq<Subscriber>, exps: seq<Expediente>,
                     marked: set<string>, key: string, user: string)
    requires Grouped(order, groups, subs, exps, marked) && key in groups
    ensures user in groups[key].userIds <==> exists s :: s in subs && HasUser(s, key, user)
    ensures |groups[key].userIds| == |WithUser(subs, key)|
  {
    assert Entry(groups, key, subs, exps, marked);
    UserIdsHold(subs, key, user);
    UserIdsCount(subs, key);
  }

  ghost predicate DistinctSubscribers(subs: seq<Subscriber>) {
    forall a, b :: a in subs && b in subs && a.id == b.id ==> a == b
  }

  ghost predicate DistinctExpedientes(exps: seq<Expediente>) {
    forall a, b :: a in exps && b in exps && a.id == b.id ==> a == b
  }

  /** Each marked subscriber is in exactly one group: that of its own key. */
  lemma SubscriberInOneGroup(order: seq<string>, groups: map<string, Group>, subs: seq<Subscriber>,
                             exps: seq<Expediente>, marked: set<string>, s: Subscriber, key: string)
    requires Grouped(order, groups, subs, exps, marked) && DistinctSubscribers(subs) && s in subs
    ensures SubscriberKey(s) in groups
    ensures key in groups && s.id in groups[key].subscriberIds <==> key == SubscriberKey(s)
    ensures s.id in groups[SubscriberKey(s)].titularIds
  {
    var own := SubscriberKey(s);
    assert Entry(groups, own, subs, exps, marked) && Entry(groups, key, subs, exps, marked);
    MembersOf(subs, own);
    MembersOf(subs, key);
    assert s in SubscribersOf(subs, own);
    SubscriberIdsHold(SubscribersOf(subs, own), s.id);
    SubscriberIdsHold(SubscribersOf(subs, key), s.id);
  }

  /**
   * Each marked expediente is in the group of its own key; another group has
   * it exactly when one of that group's subscribers points to it.
   */
  lemma ExpedienteInItsGroup(order: seq<string>, groups: map<string, Group>, subs: seq<Subscriber>,
                             exps: seq<Expediente>, e: Expediente, key: string)
    requires Grouped(order, groups, subs, exps, MarkedIds(exps)) && DistinctExpedientes(exps) && e in exps
    ensures ExpedienteKey(e) in groups && e.id in groups[ExpedienteKey(e)].titularIds
    ensures key in groups && e.id in groups[key].expedienteIds <==>
              key == ExpedienteKey(e)
              || exists s :: s in subs && SubscriberKey(s) == key && LinksTo(s, MarkedIds(exps), e.id)
  {
    var own, marked := ExpedienteKey(e), MarkedIds(exps);
    assert Entry(groups, own, subs, exps, marked) && Entry(groups, key, subs, exps, marked);
    ExpedienteMembersOf(exps, own);
    ExpedienteMembersOf(exps, key);
    MembersOf(subs, key);
    assert e in ExpedientesOf(exps, own);
    ExpedienteIdsHold(ExpedientesOf(exps, own), e.id);
    AddMissingHold(LinkedIds(SubscribersOf(subs, key), marked), ExpedientesOf(exps, key), e.id);
    LinkedHold(SubscribersOf(subs, key), marked, e.id);
  }

  /** The record that gave a group its party. */
  lemma GroupOrigin(order: seq<string>, groups: map<string, Group>, subs: seq<Subscriber>, exps: seq<Expediente>,
                    marked: set<string>, key: string)
    returns (o: Origin)
    requires Grouped(order, groups, subs, exps, marked) && key in groups
    ensures key == Tag(o) + o.id
    ensures o.ByParty? <==> Truthy(groups[key].party)
    ensures o.ByParty? ==> groups[key].party == Some(o.id)
  {
    assert Entry(groups, key, subs, exps, marked);
    MembersOf(subs, key);
    ExpedienteMembersOf(exps, key);
    var of, with := SubscribersOf(subs, key), ExpedientesOf(exps, key);
    if of != [] {
      assert of[0] in of;
      SubscriberKeyIsOrigin(of[0]);
      o := SubscriberOrigin(of[0]);
    } else {
      assert with[0] in with;
      ExpedienteKeyIsOrigin(with[0]);
      o := ExpedienteOrigin(with[0]);
    }
  }

  /**
   * A subscriber has the key of a party's group exactly when it has that party; no
   * other group takes one with a party.
   */
  lemma SubscribersShareParty(order: seq<string>, groups: map<string, Group>, subs: seq<Subscriber>,
                              exps: seq<Expediente>, marked: set<string>, key: string, s: Subscriber)
    requires Grouped(order, groups, subs, exps, marked) && key in groups
    ensures Truthy(groups[key].party) ==> (SubscriberKey(s) == key <==> s.party == groups[key].party)
    ensures !Truthy(groups[key].party) && SubscriberKey(s) == key ==> !Truthy(s.party)
  {
    var o := GroupOrigin(order, groups, subs, exps, marked, key);
    SubscriberKeyIsOrigin(s);
    KeysNeverCollide(o, SubscriberOrigin(s));
  }

  /** The same for expedientes. */
  lemma ExpedientesShareParty(order: seq<string>, groups: map<string, Group>, subs: seq<Subscriber>,
                              exps: seq<Expediente>, marked: set<string>, key: string, e: Expediente)
    requires Grouped(order, groups, subs, exps, marked) && key in groups
    ensures Truthy(groups[key].party) ==> (ExpedienteKey(e) == key <==> e.party == groups[key].party)
    ensures !Truthy(groups[key].party) && ExpedienteKey(e) == key ==> !Truthy(e.party)
  {
    var o := GroupOrigin(order, groups, subs, exps, marked, key);
    ExpedienteKeyIsOrigin(e);
    KeysNeverCollide(o, ExpedienteOrigin(e));
  }

  // ---- The report -----------------------------------------------------------------------------

  datatype TableResidual = TableResidual(table: string, residual: nat)

  datatype Finding = Finding(titularIds: seq<string>, residualFields: nat, tables: seq<TableResidual>)

  datatype Report = Report(
    titularesChecked: nat, markedSubscribers: nat, markedExpedientes: nat, residualFields: nat, findings: seq<Finding>)

  function Positive(results: seq<TableResidual>): seq<TableResidual> {
    if results == [] then []
    else Positive(results[..|results| - 1])
         + (if results[|results| - 1].residual > 0 then [results[|results| - 1]] else [])
  }

  function SumTables(results: seq<TableResidual>): nat {
    if results == [] then 0 else SumTables(results[..|results| - 1]) + results[|results| - 1].residual
  }

  function WithoutRepeats(ids: seq<string>): seq<string> {
    if ids == [] then []
    else
      var front, last := WithoutRepeats(ids[..|ids| - 1]), ids[|ids| - 1];
      if last in front then front else front + [last]
  }

  function SumFindings(findings: seq<Finding>): nat {
    if findings == [] then 0 else SumFindings(findings[..|findings| - 1]) + findings[|findings| - 1].residualFields
  }

  /** All residuals of all groups, findings or not. */
  ghost function SumGroups(order: seq<string>, groups: map<string, Group>, check: Group -> seq<TableResidual>): nat
    requires forall k :: k in order ==> k in groups
  {
    if order == [] then 0
    else SumGroups(order[..|order| - 1], groups, check) + SumTables(check(groups[order[|order| - 1]]))
  }

  /** Dropping the clean tables loses no residual. */
  lemma {:induction false} PositiveKeepsSum(results: seq<TableResidual>)
    ensures SumTables(Positive(results)) == SumTables(results)
  {
    if results != [] {
      var front, last := results[..|results| - 1], results[|results| - 1];
      PositiveKeepsSum(front);
      assert (Positive(front) + [last])[..|Positive(front)|] == Positive(front);
      assert Positive(front) + [] == Positive(front);
    }
  }

  lemma {:induction false} SumTablesZero(results: seq<TableResidual>)
    ensures SumTables(results) == 0 <==> forall t :: t in results ==> t.residual == 0
  {
    if results != [] {
      var front, last := results[..|results| - 1], results[|results| - 1];
      SumTablesZero(front);
      assert results == front + [last];
      assert last in results;
      forall t | t in results ensures t in front || t == last {
      }
      forall t | t in front ensures t in results {
      }
    }
  }

  lemma {:induction false} WithoutRepeatsSame(ids: seq<string>)
    ensures forall id :: id in WithoutRepeats(ids) <==> id in ids
    ensures NoRepeats(WithoutRepeats(ids))
  {
    if ids != [] {
      WithoutRepeatsSame(ids[..|ids| - 1]);
      assert ids == ids[..|ids| - 1] + [ids[|ids| - 1]];
    }
  }

  function FindingOf(group: Group, check: Group -> seq<TableResidual>): Finding {
    var tables := Positive(check(group));
    Finding(WithoutRepeats(group.titularIds), SumTables(tables), tables)
  }

  /** What a finding says of a group: its records, once each, and all residuals that its check found. */
  ghost predicate Describes(f: Finding, group: Group, results: seq<TableResidual>) {
    && NoRepeats(f.titularIds) && (forall id :: id in f.titularIds <==> id in group.titularIds)
    && f.residualFields == SumTables(results) == SumTables(f.tables)
    && forall t :: t in f.tables <==> t in results && t.residual > 0
  }

  lemma {:induction false} PositiveHold(results: seq<TableResidual>)
    ensures forall t :: t in Positive(results) <==> t in results && t.residual > 0
  {
    if results != [] {
      var front, last := results[..|results| - 1], results[|results| - 1];
      PositiveHold(front);
      assert results == front + [last];
    }
  }

  lemma FindingDescribes(group: Group, check: Group -> seq<TableResidual>)
    ensures Describes(FindingOf(group, check), group, check(group))
  {
    WithoutRepeatsSame(group.titularIds);
    PositiveKeepsSum(check(group));
    PositiveHold(check(group));
  }

  /** Every group with residuals is described by a finding, and every finding describes such a group. */
  ghost predicate Reported(findings: seq<Finding>, order: seq<string>, groups: map<string, Group>,
                           check: Group -> seq<TableResidual>)
    requires forall k :: k in order ==> k in groups
  {
    && (forall k :: k in order && SumTables(check(groups[k])) > 0 ==>
          exists f :: f in findings && Describes(f, groups[k], check(groups[k])))
    && (forall f :: f in findings ==>
          f.residualFields > 0 && exists k :: k in order && Describes(f, groups[k], check(groups[k])))
  }

  lemma FoundIsReported(findings: seq<Finding>, order: seq<string>, groups: map<string, Group>,
                        check: Group -> seq<TableResidual>)
    requires (forall k :: k in order ==> k in groups) && FoundAll(findings, order, groups, check)
    ensures Reported(findings, order, groups, check)
  {
    forall k | k in order ensures Describes(FindingOf(groups[k], check), groups[k], check(groups[k])) {
      FindingDescribes(groups[k], check);
    }
  }

  ghost predicate NoneMissed(findings: seq<Finding>, order: seq<string>, groups: map<string, Group>,
                             check: Group -> seq<TableResidual>)
    requires forall k :: k in order ==> k in groups
  {
    forall k :: k in order && SumTables(check(groups[k])) > 0 ==> FindingOf(groups[k], check) in findings
  }

  ghost predicate NoneInvented(findings: seq<Finding>, order: seq<string>, groups: map<string, Group>,
                               check: Group -> seq<TableResidual>)
    requires forall k :: k in order ==> k in groups
  {
    forall f :: f in findings ==> exists k :: k in order && f == FindingOf(groups[k], check) && f.residualFields > 0
  }

  ghost predicate FoundAll(findings: seq<Finding>, order: seq<string>, groups: map<string, Group>,
                           check: Group -> seq<TableResidual>)
    requires forall k :: k in order ==> k in groups
  {
    NoneMissed(findings, order, groups, check) && NoneInvented(findings, order, groups, check)
  }

  lemma NoneMissedNext(findings: seq<Finding>, order: seq<string>, k: string, groups: map<string, Group>,
                       check: Group -> seq<TableResidual>)
    requires (forall j :: j in order + [k] ==> j in groups) && NoneMissed(findings, order, groups, check)
    ensures NoneMissed(findings + [FindingOf(groups[k], check)], order + [k], groups, check)
    ensures SumTables(check(groups[k])) == 0 ==> NoneMissed(findings, order + [k], groups, check)
  {
    assert (findings + [FindingOf(groups[k], check)])[|findings|] == FindingOf(groups[k], check);
  }

  lemma NoneInventedNext(findings: seq<Finding>, order: seq<string>, k: string, groups: map<string, Group>,
                         check: Group -> seq<TableResidual>)
    requires (forall j :: j in order + [k] ==> j in groups) && NoneInvented(findings, order, groups, check)
    ensures NoneInvented(findings, order + [k], groups, check)
    ensures FindingOf(groups[k], check).residualFields > 0 ==>
              NoneInvented(findings + [FindingOf(groups[k], check)], order + [k], groups, check)
  {
    assert (order + [k])[|order|] == k;
    forall f | f in findings
      ensures exists j :: j in order + [k] && f == FindingOf(groups[j], check) && f.residualFields > 0
    {
      var j :| j in order && f == FindingOf(groups[j], check) && f.residualFields > 0;
      assert j in order + [k];
    }
  }

  lemma FoundOneMore(findings: seq<Finding>, order: seq<string>, i: nat, groups: map<string, Group>,
                     check: Group -> seq<TableResidual>)
    requires (forall k :: k in order ==> k in groups) && i < |order| && FoundAll(findings, order[..i], groups, check)
    ensures var f := FindingOf(groups[order[i]], check);
            && f.residualFields == SumTables(check(groups[order[i]]))
            && FoundAll(if f.residualFields > 0 then findings + [f] else findings, order[..i + 1], groups, check)
  {
    PositiveKeepsSum(check(groups[order[i]]));
    var prefix := order[..i] + [order[i]];
    assert order[..i + 1] == prefix;
    forall k | k in prefix ensures k in groups {
    }
    NoneMissedNext(findings, order[..i], order[i], groups, check);
    NoneInventedNext(findings, order[..i], order[i], groups, check);
  }

  lemma OneMoreFinding(findings: seq<Finding>, f: Finding)
    ensures SumFindings(findings + [f]) == SumFindings(findings) + f.residualFields
  {
    assert (findings + [f])[..|findings|] == findings;
  }

  lemma OneMoreGroup(order: seq<string>, i: nat, groups: map<string, Group>, check: Group -> seq<TableResidual>)
    requires (forall k :: k in order ==> k in groups) && i < |order|
    ensures (forall k :: k in order[..i + 1] ==> k in groups) && (forall k :: k in order[..i] ==> k in groups)
    ensures SumGroups(order[..i + 1], groups, check)
            == SumGroups(order[..i], groups, check) + SumTables(check(groups[order[i]]))
  {
    assert order[..i + 1][..i] == order[..i];
  }

  method CheckGroups(order: seq<string>, groups: map<string, Group>, check: Group -> seq<TableResidual>)
    returns (findings: seq<Finding>)
    requires forall k :: k in order ==> k in groups
    ensures FoundAll(findings, order, groups, check) && Reported(findings, order, groups, check)
    ensures SumFindings(findings) == SumGroups(order, groups, check)
  {
    findings := [];
    var i := 0;
    while i < |order|
      invariant i <= |order|
      invariant FoundAll(findings, order[..i], groups, check)
      invariant SumFindings(findings) == SumGroups(order[..i], groups, check)
    {
      var finding := FindingOf(groups[order[i]], check);
      FoundOneMore(findings, order, i, groups, check);
      OneMoreFinding(findings, finding);
      OneMoreGroup(order, i, groups, check);
      if finding.residualFields > 0 {
        findings := findings + [finding];
      }
      i := i + 1;
    }
    assert order[..i] == order;
    FoundIsReported(findings, order, groups, check);
  }

  ghost function AllKeys(subs: seq<Subscriber>, exps: seq<Expediente>): set<string> {
    (set s | s in subs :: SubscriberKey(s)) + (set e | e in exps :: ExpedienteKey(e))
  }

  lemma {:induction false} NoRepeatsCount(order: seq<string>)
    requires NoRepeats(order)
    ensures |order| == |set k | k in order|
  {
    if order != [] {
      var front, last := order[..|order| - 1], order[|order| - 1];
      NoRepeatsCount(front);
      assert order == front + [last];
      assert (set k | k in order) == (set k | k in front) + {last};
    }
  }

  lemma GroupsAreKeys(order: seq<string>, groups: map<string, Group>, subs: seq<Subscriber>, exps: seq<Expediente>,
                      marked: set<string>)
    requires Grouped(order, groups, subs, exps, marked)
    ensures groups.Keys == AllKeys(subs, exps) && |order| == |groups|
  {
    NoRepeatsCount(order);
    assert groups.Keys == set k | k in order;
    forall k ensures k in groups <==> k in AllKeys(subs, exps) {
      assert Entry(groups, k, subs, exps, marked);
      MembersOf(subs, k);
      ExpedienteMembersOf(exps, k);
      var of, with := SubscribersOf(subs, k), ExpedientesOf(exps, k);
      if of != [] {
        assert of[0] in of;
      } else if with != [] {
        assert with[0] in with;
      }
    }
  }

  /** The whole pass: as many checks as distinct keys, and every residual of every group counted once. */
  method VerifyMarked(subs: seq<Subscriber>, exps: seq<Expediente>, check: Group -> seq<TableResidual>)
    returns (report: Report, ghost order: seq<string>, ghost groups: map<string, Group>)
    ensures Grouped(order, groups, subs, exps, MarkedIds(exps))
    ensures report.titularesChecked == |AllKeys(subs, exps)| == |order|
    ensures report.markedSubscribers == |subs| && report.markedExpedientes == |exps|
    ensures report.residualFields == SumFindings(report.findings) == SumGroups(order, groups, check)
    ensures FoundAll(report.findings, order, groups, check)
  {
    var keys, found := GroupMarked(subs, exps);
    GroupsAreKeys(keys, found, subs, exps, MarkedIds(exps));
    var findings := CheckGroups(keys, found, check);
    order, groups := keys, found;
    report := Report(|found|, |subs|, |exps|, SumFindings(findings), findings);
  }

  lemma {:induction false} SumGroupsZero(order: seq<string>, groups: map<string, Group>,
                                         check: Group -> seq<TableResidual>)
    requires forall k :: k in order ==> k in groups
    ensures SumGroups(order, groups, check) == 0 <==> forall k :: k in order ==> SumTables(check(groups[k])) == 0
  {
    if order != [] {
      var front, last := order[..|order| - 1], order[|order| - 1];
      SumGroupsZero(front, groups, check);
      assert order == front + [last];
      assert last in order;
      assert forall k :: k in front ==> k in order;
    }
  }

  /** The report is clean exactly when no table of any group has a residual; then there is no finding. */
  lemma CleanIffNoResidual(report: Report, order: seq<string>, groups: map<string, Group>,
                           check: Group -> seq<TableResidual>)
    requires forall k :: k in order ==> k in groups
    requires report.residualFields == SumGroups(order, groups, check) && FoundAll(report.findings, order, groups, check)
    ensures report.residualFields == 0 <==> forall k, t :: k in order && t in check(groups[k]) ==> t.residual == 0
    ensures report.residualFields == 0 <==> report.findings == []
  {
    SumGroupsZero(order, groups, check);
    forall k | k in order
      ensures SumTables(check(groups[k])) == 0 <==> forall t :: t in check(groups[k]) ==> t.residual == 0
      ensures FindingOf(groups[k], check).residualFields == SumTables(check(groups[k]))
    {
      PositiveKeepsSum(check(groups[k]));
      SumTablesZero(check(groups[k]));
    }
    if report.findings != [] {
      assert report.findings[0] in report.findings;
    }
  }

  // ---- Nothing lost or counted twice -----------------------------------------------------------

  ghost function TitularCount(order: seq<string>, subs: seq<Subscriber>, exps: seq<Expediente>): nat {
    if order == [] then 0
    else
      var k := order[|order| - 1];
      TitularCount(order[..|order| - 1], subs, exps) + |SubscribersOf(subs, k)| + |ExpedientesOf(exps, k)|
  }

  lemma {:induction false} EmptyCount(order: seq<string>)
    ensures TitularCount(order, [], []) == 0
  {
    if order != [] {
      EmptyCount(order[..|order| - 1]);
    }
  }

  lemma LastTerm(order: seq<string>, subs: seq<Subscriber>, exps: seq<Expediente>, front: seq<string>, k: string)
    requires order != [] && front == order[..|order| - 1] && k == order[|order| - 1]
    ensures TitularCount(order, subs, exps)
            == TitularCount(front, subs, exps) + |SubscribersOf(subs, k)| + |ExpedientesOf(exps, k)|
  {
  }

  lemma LastKey(order: seq<string>, front: seq<string>, k: string, key: string)
    requires NoRepeats(order) && order != [] && front == order[..|order| - 1] && k == order[|order| - 1]
    ensures NoRepeats(front) && k !in front && (key in order <==> key in front || key == k)
  {
    assert order == front + [k];
  }

  /** One more record raises exactly one term of the count. */
  lemma {:induction false} CountWithSubscriber(order: seq<string>, subs: seq<Subscriber>, exps: seq<Expediente>,
                                               s: Subscriber)
    requires NoRepeats(order)
    ensures TitularCount(order, subs + [s], exps)
            == TitularCount(order, subs, exps) + if SubscriberKey(s) in order then 1 else 0
  {
    if order != [] {
      var front, k := order[..|order| - 1], order[|order| - 1];
      LastKey(order, front, k, SubscriberKey(s));
      CountWithSubscriber(front, subs, exps, s);
      SubscriberAddedTo(subs, s, k);
      LastTerm(order, subs, exps, front, k);
      LastTerm(order, subs + [s], exps, front, k);
    }
  }

  lemma {:induction false} CountWithExpediente(order: seq<string>, subs: seq<Subscriber>, exps: seq<Expediente>,
                                               e: Expediente)
    requires NoRepeats(order)
    ensures TitularCount(order, subs, exps + [e])
            == TitularCount(order, subs, exps) + if ExpedienteKey(e) in order then 1 else 0
  {
    if order != [] {
      var front, k := order[..|order| - 1], order[|order| - 1];
      LastKey(order, front, k, ExpedienteKey(e));
      CountWithExpediente(front, subs, exps, e);
      ExpedienteAddedTo(exps, e, k);
      LastTerm(order, subs, exps, front, k);
      LastTerm(order, subs, exps + [e], front, k);
    }
  }

  lemma SubscriberAddedTo(subs: seq<Subscriber>, s: Subscriber, key: string)
    ensures SubscribersOf(subs + [s], key) == SubscribersOf(subs, key) + if SubscriberKey(s) == key then [s] else []
  {
    assert (subs + [s])[..|subs|] == subs;
  }

  lemma ExpedienteAddedTo(exps: seq<Expediente>, e: Expediente, key: string)
    ensures ExpedientesOf(exps + [e], key) == ExpedientesOf(exps, key) + if ExpedienteKey(e) == key then [e] else []
  {
    assert (exps + [e])[..|exps|] == exps;
  }

  /** The groups together name as many titulares as there are marked records. */
  lemma {:induction false} EveryRecordCountedOnce(order: seq<string>, subs: seq<Subscriber>, exps: seq<Expediente>)
    requires NoRepeats(order)
    requires forall s :: s in subs ==> SubscriberKey(s) in order
    requires forall e :: e in exps ==> ExpedienteKey(e) in order
    ensures TitularCount(order, subs, exps) == |subs| + |exps|
    decreases |subs| + |exps|
  {
    if exps != [] {
      var front, e := exps[..|exps| - 1], exps[|exps| - 1];
      assert exps == front + [e];
      EveryRecordCountedOnce(order, subs, front);
      CountWithExpediente(order, subs, front, e);
      assert e in exps;
    } else if subs != [] {
      var front, s := subs[..|subs| - 1], subs[|subs| - 1];
      assert subs == front + [s];
      EveryRecordCountedOnce(order, front, []);
      CountWithSubscriber(order, front, [], s);
      assert s in subs;
    } else {
      EmptyCount(order);
    }
  }

  lemma {:induction false} IdCounts(subs: seq<Subscriber>, exps: seq<Expediente>)
    ensures |SubscriberIds(subs)| == |subs| && |ExpedienteIds(exps)| == |exps|
    decreases |subs| + |exps|
  {
    if subs != [] {
      IdCounts(subs[..|subs| - 1], exps);
    } else if exps != [] {
      IdCounts(subs, exps[..|exps| - 1]);
    }
  }

  ghost function NamedTitulares(order: seq<string>, groups: map<string, Group>): nat
    requires forall k :: k in order ==> k in groups
  {
    if order == [] then 0
    else NamedTitulares(order[..|order| - 1], groups) + |groups[order[|order| - 1]].titularIds|
  }

  lemma {:induction false} NamedIsCount(order: seq<string>, groups: map<string, Group>, subs: seq<Subscriber>,
                                        exps: seq<Expediente>, marked: set<string>)
    requires Entries(groups, subs, exps, marked) && forall k :: k in order ==> k in groups
    ensures NamedTitulares(order, groups) == TitularCount(order, subs, exps)
  {
    if order != [] {
      var k := order[|order| - 1];
      NamedIsCount(order[..|order| - 1], groups, subs, exps, marked);
      assert Entry(groups, k, subs, exps, marked);
      IdCounts(SubscribersOf(subs, k), ExpedientesOf(exps, k));
    }
  }

  /** Conservation: the titulares of all groups are the marked subscribers and expedientes, none lost, none doubled. */
  lemma TitularesConserved(order: seq<string>, groups: map<string, Group>, subs: seq<Subscriber>, exps: seq<Expediente>,
                           marked: set<string>)
    requires Grouped(order, groups, subs, exps, marked)
    ensures NamedTitulares(order, groups) == |subs| + |exps|
  {
    GroupsAreKeys(order, groups, subs, exps, marked);
    assert forall s :: s in subs ==> SubscriberKey(s) in AllKeys(subs, exps);
    assert forall e :: e in exps ==> ExpedienteKey(e) in AllKeys(subs, exps);
    NamedIsCount(order, groups, subs, exps, marked);
    EveryRecordCountedOnce(order, subs, exps);
  }
}
