/**
 * Tables that share one URL: when the keys of two namespaces can meet, and
 * that only then a table can change what another one reads
 * (apps/portal/src/lib/use-table-query-state.ts:53-55, 107-175).
 */
module TableNamespaces {
  import opened Options
  import opened Text
  import opened Decimal
  import opened UrlParams
  import opened TableQuery
  import opened TableQueryGuarantees

  function Prefix(namespace: Option<string>): string {
    if Bare(namespace) then "" else namespace.value + "."
  }

  lemma KeyIsPrefixed(namespace: Option<string>, key: string)
    ensures NamespacedKey(namespace, key) == Prefix(namespace) + key
  {
    assert "" + key == key;
  }

  /** What a caller can check of two namespaces: neither prefix starts with the other. */
  predicate Apart(a: Option<string>, b: Option<string>) {
    !(Prefix(a) <= Prefix(b)) && !(Prefix(b) <= Prefix(a))
  }

  /** One text starts with two prefixes exactly when one prefix starts with the other. */
  lemma BothInFront(p: string, x: string, q: string, y: string)
    requires p + x == q + y
    ensures p <= q || q <= p
  {
    var s := p + x;
    assert s[..|p|] == p && s[..|q|] == q;
    if |p| <= |q| {
      assert q[..|p|] == s[..|p|];
    } else {
      assert p[..|q|] == s[..|q|];
    }
  }

  lemma Tail(p: string, q: string)
    requires p <= q
    ensures p + q[|p|..] == q
  {
  }

  ghost predicate Meet(a: Option<string>, b: Option<string>) {
    exists ka, kb :: NamespacedKey(a, ka) == NamespacedKey(b, kb)
  }

  /** Some key of one namespace is a key of the other exactly when one prefix starts with the other. */
  lemma KeysMeetIff(a: Option<string>, b: Option<string>)
    ensures Meet(a, b) <==> !Apart(a, b)
  {
    if ka, kb :| NamespacedKey(a, ka) == NamespacedKey(b, kb) {
      KeyIsPrefixed(a, ka);
      KeyIsPrefixed(b, kb);
      BothInFront(Prefix(a), ka, Prefix(b), kb);
    }
    if Prefix(a) <= Prefix(b) {
      var rest := Prefix(b)[|Prefix(a)|..];
      Tail(Prefix(a), Prefix(b));
      KeyIsPrefixed(a, rest);
      KeyIsPrefixed(b, "");
      assert Prefix(b) + "" == Prefix(b);
      assert NamespacedKey(a, rest) == NamespacedKey(b, "");
    } else if Prefix(b) <= Prefix(a) {
      var rest := Prefix(a)[|Prefix(b)|..];
      Tail(Prefix(b), Prefix(a));
      KeyIsPrefixed(b, rest);
      KeyIsPrefixed(a, "");
      assert Prefix(a) + "" == Prefix(a);
      assert NamespacedKey(a, "") == NamespacedKey(b, rest);
    }
  }

  // ---- What a write can reach -----------------------------------------------------------------

  /** The names that a table writes, seen from a table with another prefix. */
  ghost predicate Clear(patch: seq<Update>, t: Table, key: string) {
    forall u :: u in patch ==> u.name != NamespacedKey(t.namespace, key)
  }

  lemma ClearIsKept(patch: seq<Update>, t: Table, q: Query, key: string)
    requires Clear(patch, t, key)
    ensures Raw(t, Merged(q, patch), key) == Raw(t, q, key)
  {
    var name := NamespacedKey(t.namespace, key);
    NotUpdated(patch, name);
    GetMerged(q, patch, name);
  }

  /** The keys that a table reads. */
  predicate Reads(t: Table, key: string) {
    Reserved(key) || key in t.filterKeys
  }

  lemma ReservedIsRead(t: Table)
    ensures Reads(t, "page") && Reads(t, "size") && Reads(t, "sortBy") && Reads(t, "sortDir")
  {
  }

  lemma ClearStateKept(patch: seq<Update>, t: Table, q: Query)
    requires forall key :: Reads(t, key) ==> Clear(patch, t, key)
    ensures StateOf(t, Merged(q, patch)) == StateOf(t, q)
  {
    var q' := Merged(q, patch);
    ReservedIsRead(t);
    forall key | Reads(t, key) ensures Raw(t, q', key) == Raw(t, q, key) {
      ClearIsKept(patch, t, q, key);
    }
    SameReadsSameState(t, q, q');
  }

  lemma SameReadsSameState(t: Table, q: Query, q': Query)
    requires forall key :: Reads(t, key) ==> Raw(t, q', key) == Raw(t, q, key)
    ensures StateOf(t, q') == StateOf(t, q)
  {
    ReservedIsRead(t);
    forall key | key in t.filterKeys ensures FilterOf(t, q', key) == FilterOf(t, q, key) {
      assert Reads(t, key);
    }
    SameRawSameState(t, q, q');
  }

  lemma SameRawSameState(t: Table, q: Query, q': Query)
    requires Raw(t, q', "page") == Raw(t, q, "page") && Raw(t, q', "size") == Raw(t, q, "size")
    requires Raw(t, q', "sortBy") == Raw(t, q, "sortBy") && Raw(t, q', "sortDir") == Raw(t, q, "sortDir")
    requires forall key :: key in t.filterKeys ==> FilterOf(t, q', key) == FilterOf(t, q, key)
    ensures StateOf(t, q') == StateOf(t, q)
  {
    assert FiltersOf(t, q') == FiltersOf(t, q);
  }

  /** The keys that an update writes. */
  predicate Writes(u: Updates, key: string) {
    Reserved(key) || exists f :: f in u.filters && f.name == key
  }

  ghost predicate Within(patch: seq<Update>, t: Table, u: Updates) {
    forall p :: p in patch ==> exists k :: Writes(u, k) && p.name == NamespacedKey(t.namespace, k)
  }

  lemma {:induction false} ReassignedNames(patch: seq<Update>, name: string, value: Option<string>)
    ensures forall p :: p in Reassigned(patch, name, value) ==> p.name == name || p in patch
  {
    if patch != [] {
      var front, last := patch[..|patch| - 1], patch[|patch| - 1];
      ReassignedNames(front, name, value);
      assert forall p :: p in front ==> p in patch;
      assert last in patch;
    }
  }

  lemma PutWithin(patch: seq<Update>, t: Table, u: Updates, key: string, value: Option<string>)
    requires Within(patch, t, u) && Writes(u, key)
    ensures Within(Put(patch, NamespacedKey(t.namespace, key), value), t, u)
  {
    ReassignedNames(patch, NamespacedKey(t.namespace, key), value);
  }

  lemma {:induction false} PutFiltersWithin(t: Table, patch: seq<Update>, filters: seq<Update>, u: Updates)
    requires Within(patch, t, u) && forall f :: f in filters ==> f in u.filters
    ensures Within(PutFilters(t, patch, filters), t, u)
  {
    if filters != [] {
      var front, last := filters[..|filters| - 1], filters[|filters| - 1];
      assert last in filters;
      PutFiltersWithin(t, patch, front, u);
      PutWithin(PutFilters(t, patch, front), t, u, last.name, last.value);
    }
  }

  lemma PatchWithin(t: Table, u: Updates)
    ensures Within(PatchOf(t, u), t, u)
  {
    var p1 := PutField(t, [], "page", u.page, PagePatch(u.page));
    var p2 := PutField(t, p1, "size", u.pageSize, SizePatch(u.pageSize, t.defaultPageSize));
    var p3 := PutField(t, p2, "sortBy", u.sortBy, SortByPatch(u.sortBy));
    PutWithin([], t, u, "page", PagePatch(u.page));
    PutWithin(p1, t, u, "size", SizePatch(u.pageSize, t.defaultPageSize));
    PutWithin(p2, t, u, "sortBy", SortByPatch(u.sortBy));
    PutWithin(p3, t, u, "sortDir", SortDirPatch(u.sortDir));
    PutFiltersWithin(t, FixedPatch(t, u), u.filters, u);
  }

  lemma CorrectionWithin(t: Table, q: Query, u: Updates)
    ensures Within(CorrectionPatch(t, q), t, u)
  {
    assert Writes(u, "page") && Writes(u, "size");
  }

  /** No key that is written is a key that is read. */
  ghost predicate NothingShared(a: Table, b: Table, u: Updates) {
    forall ka, kb :: Writes(u, ka) && Reads(b, kb) ==> NamespacedKey(a.namespace, ka) != NamespacedKey(b.namespace, kb)
  }

  lemma WithinIsClear(patch: seq<Update>, a: Table, b: Table, u: Updates, key: string)
    requires Within(patch, a, u) && NothingShared(a, b, u) && Reads(b, key)
    ensures Clear(patch, b, key)
  {
  }

  /** A write, or the correction effect, of one table leaves the state of a table that shares no key with it. */
  lemma NothingSharedKept(a: Table, b: Table, q: Query, u: Updates)
    requires NothingShared(a, b, u)
    ensures StateOf(b, Written(a, q, u)) == StateOf(b, q) && StateOf(b, Corrected(a, q)) == StateOf(b, q)
  {
    PatchWithin(a, u);
    CorrectionWithin(a, q, u);
    forall key | Reads(b, key) ensures Clear(PatchOf(a, u), b, key) && Clear(CorrectionPatch(a, q), b, key) {
      WithinIsClear(PatchOf(a, u), a, b, u, key);
      WithinIsClear(CorrectionPatch(a, q), a, b, u, key);
    }
    ClearStateKept(PatchOf(a, u), b, q);
    ClearStateKept(CorrectionPatch(a, q), b, q);
  }

  // ---- Isolation, exactly -----------------------------------------------------------------------

  /** What is left of the longer prefix. */
  function Rest(a: Option<string>, b: Option<string>): string
    requires Prefix(a) < Prefix(b)
  {
    Prefix(b)[|Prefix(a)|..]
  }

  /** The keys of the shorter prefix that are keys of the longer one are those under the rest. */
  lemma UnderRest(a: Option<string>, b: Option<string>, ka: string, kb: string)
    requires Prefix(a) < Prefix(b)
    ensures NamespacedKey(a, ka) == NamespacedKey(b, kb) <==> ka == Rest(a, b) + kb
  {
    KeyIsPrefixed(a, ka);
    KeyIsPrefixed(b, kb);
    SamePrefix(Prefix(a), ka, Rest(a, b) + kb);
    assert Prefix(b) + kb == Prefix(a) + (Rest(a, b) + kb);
  }

  lemma SamePrefix(p: string, x: string, y: string)
    ensures p + x == p + y <==> x == y
  {
    assert (p + x)[|p|..] == x && (p + y)[|p|..] == y;
  }

  /**
   * Two tables that share no key: neither prefix starts with the other, or the
   * one with the shorter prefix uses no key under what is left of the longer one.
   */
  predicate Separate(a: Table, b: Table, u: Updates) {
    if Prefix(a.namespace) < Prefix(b.namespace) then
      forall f :: f in u.filters ==> !(Rest(a.namespace, b.namespace) <= f.name)
    else if Prefix(b.namespace) < Prefix(a.namespace) then
      forall k :: k in b.filterKeys ==> !(Rest(b.namespace, a.namespace) <= k)
    else Apart(a.namespace, b.namespace)
  }

  /** A rest ends with a dot, and the keys of page, size and sort have none. */
  lemma ReservedNotUnderRest(a: Option<string>, b: Option<string>, key: string)
    requires Prefix(a) < Prefix(b) && Reserved(key)
    ensures !(Rest(a, b) <= key)
  {
    var rest := Rest(a, b);
    assert rest[|rest| - 1] == Prefix(b)[|Prefix(b)| - 1] == '.';
    NoDotInReserved();
    assert '.' in rest && '.' !in key;
  }

  lemma NoDotInReserved()
    ensures '.' !in "page" && '.' !in "size" && '.' !in "sortBy" && '.' !in "sortDir"
  {
  }

  lemma SeparateSharesNothing(a: Table, b: Table, u: Updates)
    requires Separate(a, b, u)
    ensures NothingShared(a, b, u)
  {
    forall ka, kb | Writes(u, ka) && Reads(b, kb)
      ensures NamespacedKey(a.namespace, ka) != NamespacedKey(b.namespace, kb)
    {
      if Prefix(a.namespace) < Prefix(b.namespace) {
        UnderRest(a.namespace, b.namespace, ka, kb);
        if Reserved(ka) { ReservedNotUnderRest(a.namespace, b.namespace, ka); }
      } else if Prefix(b.namespace) < Prefix(a.namespace) {
        UnderRest(b.namespace, a.namespace, kb, ka);
        if Reserved(kb) { ReservedNotUnderRest(b.namespace, a.namespace, kb); }
      } else {
        KeysMeetIff(a.namespace, b.namespace);
      }
    }
  }

  /** Writing one table, or correcting its URL, leaves the state of a separate table unchanged. */
  lemma WriteIsolated(a: Table, b: Table, q: Query, u: Updates)
    requires Separate(a, b, u)
    ensures StateOf(b, Written(a, q, u)) == StateOf(b, q)
    ensures StateOf(b, Corrected(a, q)) == StateOf(b, q)
  {
    SeparateSharesNothing(a, b, u);
    NothingSharedKept(a, b, q, u);
  }

  function FilterOnly(key: string, value: string): Updates {
    Updates(Undefined, Undefined, Undefined, Undefined, [Update(key, Some(value))])
  }

  /** A filter of one table under a key that another one reads shows up there. */
  lemma FilterShowsUp(a: Table, b: Table, ka: string, kb: string, value: string)
    requires NamespacedKey(a.namespace, ka) == NamespacedKey(b.namespace, kb) && value != ""
    ensures Raw(b, Written(a, [], FilterOnly(ka, value)), kb) == Some(value)
    ensures Raw(b, [], kb) == None
  {
    var u := FilterOnly(ka, value);
    assert LastUpdate(u.filters, ka) == Some(Some(value));
    RawAfterWrite(a, [], u, ka);
  }

  function AnyTable(namespace: Option<string>, filterKeys: seq<string>): Table {
    Table(namespace, 20, filterKeys, [])
  }

  lemma SevenShows()
    ensures Trimmed(Some("7")) == Some("7") && Trimmed(None) == None
  {
    TrimFixed("7");
  }

  /** A filter that one URL has and another has not tells the two states apart. */
  lemma FilterTellsApart(t: Table, q: Query, q': Query, key: string)
    requires key in t.filterKeys && Trimmed(Raw(t, q, key)).Some? != Trimmed(Raw(t, q', key)).Some?
    ensures StateOf(t, q') != StateOf(t, q)
  {
    assert FilterOf(t, q, key) == Trimmed(Raw(t, q, key)) && FilterOf(t, q', key) == Trimmed(Raw(t, q', key));
    assert (key in FiltersOf(t, q)) != (key in FiltersOf(t, q'));
  }

  /** A shared key is enough for one table to change what another one shows. */
  lemma SharedKeyInterferes(a: Option<string>, b: Option<string>, ka: string, kb: string)
    requires NamespacedKey(a, ka) == NamespacedKey(b, kb)
    ensures var t, u := AnyTable(b, [kb]), FilterOnly(ka, "7");
            StateOf(t, Written(AnyTable(a, []), [], u)) != StateOf(t, [])
  {
    var t, u := AnyTable(b, [kb]), FilterOnly(ka, "7");
    FilterShowsUp(AnyTable(a, []), t, ka, kb, "7");
    SevenShows();
    FilterTellsApart(t, [], Written(AnyTable(a, []), [], u), kb);
  }

  /** No write of a table of the one namespace changes the state of a table of the other. */
  ghost predicate Isolated(a: Option<string>, b: Option<string>) {
    forall s: Table, t: Table, q: Query, u: Updates :: s.namespace == a && t.namespace == b ==>
      StateOf(t, Written(s, q, u)) == StateOf(t, q)
  }

  /** Two namespaces are isolated from each other exactly when neither prefix starts with the other. */
  lemma IsolatedIffApart(a: Option<string>, b: Option<string>)
    ensures Isolated(a, b) <==> Apart(a, b)
  {
    KeysMeetIff(a, b);
    if Apart(a, b) {
      forall s: Table, t: Table, q: Query, u: Updates | s.namespace == a && t.namespace == b
        ensures StateOf(t, Written(s, q, u)) == StateOf(t, q)
      {
        WriteIsolated(s, t, q, u);
      }
    } else {
      var ka, kb :| NamespacedKey(a, ka) == NamespacedKey(b, kb);
      SharedKeyInterferes(a, b, ka, kb);
    }
  }

  /** A table of namespace "a" with a filter "b.page" turns the page of a table of namespace "a.b". */
  lemma DottedNamespacesMeet(s: Table, t: Table, key: string, value: string)
    requires s == AnyTable(Some("a"), []) && t == AnyTable(Some("a.b"), []) && key == "b.page" && value == "7"
    ensures var after := Written(s, [], FilterOnly(key, value));
            Raw(t, after, "page") == Some(value) && PageOf(t, []) == 1 && PageOf(t, after) == 7
  {
    assert "a" + "." + "b.page" == "a.b" + "." + "page";
    FilterShowsUp(s, t, key, "page", value);
    SevenReads();
  }

  lemma SevenReads()
    ensures ParsePositiveInt(Some("7"), 1) == 7
  {
    OneDigit(7);
    assert [Digit(7)] == "7";
  }

  lemma OneDigit(n: nat)
    requires 1 <= n < 10
    ensures ParsePositiveInt(Some([Digit(n)]), 1) == n
  {
    ParseIntOfText(n);
    TextOfDigit(n);
    ReadBack([Digit(n)], n);
  }

  lemma TextOfDigit(n: nat)
    requires n < 10
    ensures NumberText(n) == [Digit(n)]
  {
  }

  lemma ReadBack(text: string, n: int)
    requires text != "" && n >= 1 && ParseInt(text) == Some(n)
    ensures ParsePositiveInt(Some(text), 1) == n
  {
  }

  /** The same without namespace: a filter "items.page" turns the page of the table "items". */
  lemma BareKeyMeets(s: Table, t: Table, key: string, value: string)
    requires s == AnyTable(None, []) && t == AnyTable(Some("items"), []) && key == "items.page" && value == "7"
    ensures var after := Written(s, [], FilterOnly(key, value));
            PageOf(t, []) == 1 && PageOf(t, after) == 7
  {
    assert "items" + "." + "page" == "items.page";
    FilterShowsUp(s, t, key, "page", value);
    SevenReads();
  }

  lemma ReaderReached(a: Option<string>, t: Table, k: string) returns (s: Table, u: Updates)
    requires Prefix(t.namespace) < Prefix(a) && k in t.filterKeys && Rest(t.namespace, a) <= k
    ensures s.namespace == a && StateOf(t, Written(s, [], u)) != StateOf(t, [])
  {
    var rest := Rest(t.namespace, a);
    var ka := k[|rest|..];
    s, u := AnyTable(a, []), FilterOnly(ka, "7");
    Tail(rest, k);
    UnderRest(t.namespace, a, k, ka);
    FilterShowsUp(s, t, ka, k, "7");
    SevenShows();
    FilterTellsApart(t, [], Written(s, [], u), k);
  }

  /**
   * For one reader with the shorter prefix: the writers of the other namespace
   * never reach it exactly when none of its filters lies under the rest of theirs.
   */
  lemma ReaderIsolatedIff(a: Option<string>, t: Table)
    requires Prefix(t.namespace) < Prefix(a)
    ensures (forall s: Table, q: Query, u: Updates :: s.namespace == a ==>
               StateOf(t, Written(s, q, u)) == StateOf(t, q))
            <==> forall k :: k in t.filterKeys ==> !(Rest(t.namespace, a) <= k)
  {
    if forall k :: k in t.filterKeys ==> !(Rest(t.namespace, a) <= k) {
      forall s: Table, q: Query, u: Updates | s.namespace == a ensures StateOf(t, Written(s, q, u)) == StateOf(t, q) {
        WriteIsolated(s, t, q, u);
      }
    } else {
      var k :| k in t.filterKeys && Rest(t.namespace, a) <= k;
      var s, u := ReaderReached(a, t, k);
    }
  }

  /**
   * For one write with the shorter prefix: it never reaches a table of the other
   * namespace exactly when no filter lies under the rest of that prefix.
   */
  lemma WriterIsolatedIff(s: Table, u: Updates, b: Option<string>)
    requires Prefix(s.namespace) < Prefix(b)
    ensures (forall t: Table, q: Query :: t.namespace == b ==> StateOf(t, Written(s, q, u)) == StateOf(t, q))
            <==> forall f :: f in u.filters ==> !(Rest(s.namespace, b) <= f.name)
  {
    if forall f :: f in u.filters ==> !(Rest(s.namespace, b) <= f.name) {
      forall t: Table, q: Query | t.namespace == b ensures StateOf(t, Written(s, q, u)) == StateOf(t, q) {
        WriteIsolated(s, t, q, u);
      }
    } else {
      var f :| f in u.filters && Rest(s.namespace, b) <= f.name;
      var key := f.name[|Rest(s.namespace, b)|..];
      Tail(Rest(s.namespace, b), f.name);
      UnderRest(s.namespace, b, f.name, key);
      var t, q := WrittenKeyShows(s, u, b, f.name, key);
    }
  }

  /** Whatever a filter is set to, some URL shows the change. */
  lemma WrittenKeyShows(s: Table, u: Updates, b: Option<string>, name: string, key: string) returns (t: Table, q: Query)
    requires NamespacedKey(b, key) == NamespacedKey(s.namespace, name)
    requires exists f :: f in u.filters && f.name == name
    ensures t.namespace == b && StateOf(t, Written(s, q, u)) != StateOf(t, q)
  {
    NotUpdated(u.filters, name);
    var asked := LastUpdate(u.filters, name);
    t := AnyTable(b, [key]);
    q := if Trimmed(Meaning(asked.value)).None? then [Pair(NamespacedKey(b, key), "7")] else [];
    RawAfterWrite(s, q, u, name);
    SevenShows();
    assert Raw(s, Written(s, q, u), name) == Raw(t, Written(s, q, u), key);
    assert Raw(t, q, key) == if q == [] then None else Some("7");
    FilterTellsApart(t, q, Written(s, q, u), key);
  }
}
