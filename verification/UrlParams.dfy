/**
 * URLSearchParams as an ordered list of pairs (WHATWG URL section 6.2) and the
 * merge of updates into it (apps/portal/src/lib/merge-url-search-params.ts:6-21).
 */
module UrlParams {
  import opened Options

  datatype Pair = Pair(name: string, value: string)

  type Query = seq<Pair>

  /** One update; None stands for null and undefined. */
  datatype Update = Update(name: string, value: Option<string>)

  function Get(q: Query, name: string): Option<string> {
    if q == [] then None else if q[0].name == name then Some(q[0].value) else Get(q[1..], name)
  }

  function Without(q: Query, name: string): Query {
    if q == [] then []
    else if q[0].name == name then Without(q[1..], name)
    else [q[0]] + Without(q[1..], name)
  }

  /** The first pair of that name takes the value and the others go; without one the pair is appended. */
  function With(q: Query, name: string, value: string): Query {
    if q == [] then [Pair(name, value)]
    else if q[0].name == name then [Pair(name, value)] + Without(q[1..], name)
    else [q[0]] + With(q[1..], name, value)
  }

  function Meaning(value: Option<string>): Option<string> {
    if value == Some("") then None else value
  }

  function Updated(q: Query, u: Update): Query {
    if Meaning(u.value).None? then Without(q, u.name) else With(q, u.name, u.value.value)
  }

  function Merged(q: Query, updates: seq<Update>): Query {
    if updates == [] then q else Updated(Merged(q, updates[..|updates| - 1]), updates[|updates| - 1])
  }

  class SearchParams {
    var list: Query

    constructor (current: Query)
      ensures list == current
    {
      list := current;
    }

    method Delete(name: string)
      modifies this
      ensures list == Without(old(list), name)
    {
      var kept, i := [], 0;
      while i < |list|
        invariant i <= |list| && list == old(list)
        invariant kept + Without(list[i..], name) == Without(list, name)
      {
        if list[i].name != name {
          kept := kept + [list[i]];
        }
        i := i + 1;
      }
      assert list[i..] == [] && kept + [] == kept;
      list := kept;
    }

    method Set(name: string, value: string)
      modifies this
      ensures list == With(old(list), name, value)
    {
      var kept, found, i := [], false, 0;
      while i < |list|
        invariant i <= |list| && list == old(list)
        invariant kept + SetRest(list[i..], name, value, found) == With(list, name, value)
      {
        SetNext(kept, list, i, name, value, found);
        if list[i].name != name {
          kept := kept + [list[i]];
        } else if !found {
          kept, found := kept + [Pair(name, value)], true;
        }
        i := i + 1;
      }
      assert list[i..] == [] && kept + [] == kept;
      list := if found then kept else kept + [Pair(name, value)];
    }
  }

  /** What the rest of the list becomes once the name was found, or was not. */
  function SetRest(rest: Query, name: string, value: string, found: bool): Query {
    if found then Without(rest, name) else With(rest, name, value)
  }

  lemma SetNext(kept: Query, list: Query, i: nat, name: string, value: string, found: bool)
    requires i < |list|
    ensures var pair, rest := list[i], list[i + 1..];
            kept + SetRest(list[i..], name, value, found)
            == if pair.name != name then kept + [pair] + SetRest(rest, name, value, found)
               else if found then kept + SetRest(rest, name, value, true)
               else kept + [Pair(name, value)] + SetRest(rest, name, value, true)
  {
    assert list[i..][1..] == list[i + 1..];
  }

  method MergeUrlSearchParams(current: Query, updates: seq<Update>) returns (query: Query)
    ensures query == Merged(current, updates)
  {
    var next := new SearchParams(current);
    var i := 0;
    while i < |updates|
      invariant i <= |updates| && next.list == Merged(current, updates[..i])
    {
      assert updates[..i + 1][..i] == updates[..i];
      var u := updates[i];
      if u.value.None? || u.value.value == "" {
        next.Delete(u.name);
      } else {
        next.Set(u.name, u.value.value);
      }
      i := i + 1;
    }
    assert updates[..i] == updates;
    query := next.list;
  }

  // ---- What a merge means ---------------------------------------------------------------------

  lemma {:induction false} GetWithout(q: Query, name: string, other: string)
    ensures Get(Without(q, name), other) == if other == name then None else Get(q, other)
  {
    if q != [] {
      GetWithout(q[1..], name, other);
    }
  }

  lemma {:induction false} GetWith(q: Query, name: string, value: string, other: string)
    ensures Get(With(q, name, value), other) == if other == name then Some(value) else Get(q, other)
  {
    if q != [] {
      GetWith(q[1..], name, value, other);
      GetWithout(q[1..], name, other);
    }
  }

  /** What setting makes of a list whose first pair of the name stands at this place. */
  ghost predicate SetAt(q: Query, name: string, value: string, at: nat, after: Query) {
    && at <= |q| && (forall p :: p in q[..at] ==> p.name != name) && (at < |q| ==> q[at].name == name)
    && after == q[..at] + [Pair(name, value)] + (if at < |q| then Without(q[at + 1..], name) else [])
  }

  lemma SetLater(first: Pair, rest: Query, name: string, value: string, at: nat, after: Query)
    requires first.name != name && SetAt(rest, name, value, at, after)
    ensures SetAt([first] + rest, name, value, at + 1, [first] + after)
  {
    var q := [first] + rest;
    assert q[..at + 1] == [first] + rest[..at] && q[at + 1..] == rest[at..];
    if at < |rest| {
      assert q[at + 2..] == rest[at + 1..];
    }
  }

  /** A set value takes the place of the first pair of its name, or the last place; pairs of other names keep theirs. */
  lemma {:induction false} WithTakesFirstPlace(q: Query, name: string, value: string) returns (at: nat)
    ensures SetAt(q, name, value, at, With(q, name, value))
  {
    if q == [] || q[0].name == name {
      at := 0;
    } else {
      var later := WithTakesFirstPlace(q[1..], name, value);
      at := later + 1;
      SetLater(q[0], q[1..], name, value, later, With(q[1..], name, value));
      assert q == [q[0]] + q[1..];
    }
  }

  /** The last update of a name, if any. */
  function LastUpdate(updates: seq<Update>, name: string): Option<Option<string>> {
    if updates == [] then None
    else if updates[|updates| - 1].name == name then Some(updates[|updates| - 1].value)
    else LastUpdate(updates[..|updates| - 1], name)
  }

  /** After a merge a name reads its last update, empty ones as absence, and every other name reads as before. */
  lemma {:induction false} GetMerged(q: Query, updates: seq<Update>, name: string)
    ensures Get(Merged(q, updates), name)
         == var last := LastUpdate(updates, name);
            if last.None? then Get(q, name) else if last.value == Some("") then None else last.value
  {
    if updates != [] {
      var front, u := updates[..|updates| - 1], updates[|updates| - 1];
      GetMerged(q, front, name);
      GetWithout(Merged(q, front), u.name, name);
      if u.value.Some? {
        GetWith(Merged(q, front), u.name, u.value.value, name);
      }
    }
  }

  lemma {:induction false} NotUpdated(updates: seq<Update>, name: string)
    ensures LastUpdate(updates, name).None? <==> forall u :: u in updates ==> u.name != name
  {
    if updates != [] {
      var front, last := updates[..|updates| - 1], updates[|updates| - 1];
      NotUpdated(front, name);
      assert updates == front + [last];
      assert last in updates;
      assert forall u :: u in front ==> u in updates;
    }
  }
}
