/**
 * Round trips of the table state through the URL, isolation of namespaces,
 * and the fixpoint of the correction effect
 * (apps/portal/src/lib/use-table-query-state.ts:97-229).
 */
module TableQueryGuarantees {
  import opened Options
  import opened Text
  import opened Decimal
  import opened UrlParams
  import opened TableQuery

  // ---- What a patch holds for a key -----------------------------------------------------------

  lemma KeyApart(namespace: Option<string>, a: string, b: string)
    ensures NamespacedKey(namespace, a) == NamespacedKey(namespace, b) <==> a == b
  {
    if !Bare(namespace) {
      var n := |namespace.value + "."|;
      assert NamespacedKey(namespace, a)[n..] == a && NamespacedKey(namespace, b)[n..] == b;
    }
  }

  lemma {:induction false} LastOfReassigned(patch: seq<Update>, name: string, value: Option<string>, other: string)
    ensures LastUpdate(Reassigned(patch, name, value), other)
         == if other == name && Names(patch, name) then Some(value) else LastUpdate(patch, other)
  {
    if patch != [] {
      var front, last := patch[..|patch| - 1], patch[|patch| - 1];
      LastOfReassigned(front, name, value, other);
      NamesSnoc(front, last, name);
      assert patch == front + [last];
      var after := Reassigned(patch, name, value);
      assert after[..|after| - 1] == if last.name == name then front else Reassigned(front, name, value);
    }
  }

  lemma NamesSnoc(front: seq<Update>, last: Update, name: string)
    ensures Names(front + [last], name) <==> Names(front, name) || last.name == name
  {
    assert last in front + [last];
    assert forall u :: u in front ==> u in front + [last];
  }

  lemma LastOfPut(patch: seq<Update>, name: string, value: Option<string>, other: string)
    ensures LastUpdate(Put(patch, name, value), other)
            == if other == name then Some(value) else LastUpdate(patch, other)
  {
    if Names(patch, name) {
      LastOfReassigned(patch, name, value, other);
    } else {
      assert (patch + [Update(name, value)])[..|patch|] == patch;
    }
  }

  lemma LastOfPutField<T>(t: Table, patch: seq<Update>, key: string, f: Field<T>, value: Option<string>, other: string)
    ensures LastUpdate(PutField(t, patch, key, f, value), NamespacedKey(t.namespace, other))
         == if other == key && !f.Undefined? then Some(value) else LastUpdate(patch, NamespacedKey(t.namespace, other))
  {
    KeyApart(t.namespace, key, other);
    LastOfPut(patch, NamespacedKey(t.namespace, key), value, NamespacedKey(t.namespace, other));
  }

  lemma {:induction false} LastOfPutFilters(t: Table, patch: seq<Update>, filters: seq<Update>, key: string)
    ensures LastUpdate(PutFilters(t, patch, filters), NamespacedKey(t.namespace, key))
         == if LastUpdate(filters, key).Some? then LastUpdate(filters, key)
            else LastUpdate(patch, NamespacedKey(t.namespace, key))
  {
    if filters != [] {
      var front, last := filters[..|filters| - 1], filters[|filters| - 1];
      LastOfPutFilters(t, patch, front, key);
      KeyApart(t.namespace, last.name, key);
      LastOfPut(PutFilters(t, patch, front), NamespacedKey(t.namespace, last.name), last.value,
                NamespacedKey(t.namespace, key));
    }
  }

  predicate Reserved(key: string) {
    key == "page" || key == "size" || key == "sortBy" || key == "sortDir"
  }

  /** What setQuery asks for a key: the filters speak last. */
  function Asked(t: Table, u: Updates, key: string): Option<Option<string>> {
    if LastUpdate(u.filters, key).Some? then LastUpdate(u.filters, key)
    else if key == "page" && !u.page.Undefined? then Some(PagePatch(u.page))
    else if key == "size" && !u.pageSize.Undefined? then Some(SizePatch(u.pageSize, t.defaultPageSize))
    else if key == "sortBy" && !u.sortBy.Undefined? then Some(SortByPatch(u.sortBy))
    else if key == "sortDir" && !u.sortDir.Undefined? then Some(SortDirPatch(u.sortDir))
    else None
  }

  lemma FixedAsked(t: Table, u: Updates, key: string)
    ensures LastUpdate(u.filters, key).None? ==>
              LastUpdate(FixedPatch(t, u), NamespacedKey(t.namespace, key)) == Asked(t, u, key)
  {
    var p1 := PutField(t, [], "page", u.page, PagePatch(u.page));
    var p2 := PutField(t, p1, "size", u.pageSize, SizePatch(u.pageSize, t.defaultPageSize));
    var p3 := PutField(t, p2, "sortBy", u.sortBy, SortByPatch(u.sortBy));
    LastOfPutField(t, [], "page", u.page, PagePatch(u.page), key);
    LastOfPutField(t, p1, "size", u.pageSize, SizePatch(u.pageSize, t.defaultPageSize), key);
    LastOfPutField(t, p2, "sortBy", u.sortBy, SortByPatch(u.sortBy), key);
    LastOfPutField(t, p3, "sortDir", u.sortDir, SortDirPatch(u.sortDir), key);
  }

  /** Each key of the table reads what was asked for it, and keys not asked for read as before. */
  lemma RawAfterWrite(t: Table, q: Query, u: Updates, key: string)
    ensures Raw(t, Written(t, q, u), key)
         == if Asked(t, u, key).Some? then Meaning(Asked(t, u, key).value) else Raw(t, q, key)
  {
    GetMerged(q, PatchOf(t, u), NamespacedKey(t.namespace, key));
    LastOfPutFilters(t, FixedPatch(t, u), u.filters, key);
    FixedAsked(t, u, key);
  }

  lemma ReservedApart()
    ensures "page" != "size" && "page" != "sortBy" && "page" != "sortDir"
    ensures "size" != "sortBy" && "size" != "sortDir" && "sortBy" != "sortDir"
  {
    assert "page"[0] != "size"[0];
    assert "sortBy"[4] != "sortDir"[4];
  }

  lemma RawOfReserved(t: Table, q: Query, u: Updates)
    ensures var w := Written(t, q, u);
            && (LastUpdate(u.filters, "page").None? ==>
                  Raw(t, w, "page") == if u.page.Undefined? then Raw(t, q, "page") else Meaning(PagePatch(u.page)))
            && (LastUpdate(u.filters, "size").None? ==>
                  Raw(t, w, "size") == if u.pageSize.Undefined? then Raw(t, q, "size")
                                       else Meaning(SizePatch(u.pageSize, t.defaultPageSize)))
            && (LastUpdate(u.filters, "sortBy").None? ==>
                  Raw(t, w, "sortBy")
                  == if u.sortBy.Undefined? then Raw(t, q, "sortBy") else Meaning(SortByPatch(u.sortBy)))
            && (LastUpdate(u.filters, "sortDir").None? ==>
                  Raw(t, w, "sortDir")
                  == if u.sortDir.Undefined? then Raw(t, q, "sortDir") else Meaning(SortDirPatch(u.sortDir)))
  {
    ReservedApart();
    RawAfterWrite(t, q, u, "page");
    RawAfterWrite(t, q, u, "size");
    RawAfterWrite(t, q, u, "sortBy");
    RawAfterWrite(t, q, u, "sortDir");
  }

  // ---- Round trips ------------------------------------------------------------------------------

  /**
   * A page above 1 reads back as its whole part exactly while that prints
   * without an exponent; every other page, asked or not a number, reads as 1.
   */
  lemma PageRoundTrip(t: Table, q: Query, u: Updates)
    requires LastUpdate(u.filters, "page").None?
    ensures var page := PageOf(t, Written(t, q, u));
            && (u.page.Undefined? ==> page == PageOf(t, q))
            && (u.page.Given? && u.page.value.Finite? && u.page.value.r > 1.0 ==>
                  (page == u.page.value.r.Floor <==> u.page.value.r.Floor < EXPONENT_FROM))
            && (!u.page.Undefined? && !(u.page.Given? && u.page.value.Finite? && u.page.value.r > 1.0) ==> page == 1)
  {
    RawOfReserved(t, q, u);
    if u.page.Given? {
      PageTextReads(u.page.value);
    }
  }

  /** Of all pages that can be asked for, the effect later drops exactly NaN and infinity. */
  lemma WrittenPageIsBadIff(t: Table, q: Query, u: Updates)
    requires LastUpdate(u.filters, "page").None? && u.page.Given?
    ensures BadPage(Raw(t, Written(t, q, u), "page")) <==> u.page.value.NaN? || u.page.value.PosInfinity?
  {
    RawOfReserved(t, q, u);
    PageTextIsBadIff(u.page.value);
  }

  lemma PageTextIsBadIff(page: Num)
    ensures BadPage(Meaning(PageText(page))) <==> page.NaN? || page.PosInfinity?
  {
    NotANumberReads();
    if page.Finite? && page.r > 1.0 {
      PrintedIsGood(page.r.Floor);
    }
  }

  lemma PrintedIsGood(n: int)
    requires n >= 1
    ensures !BadPage(Meaning(Some(NumberText(n))))
  {
    ParseIntOfText(n);
    PrintedNotEmpty(n);
  }

  /**
   * A size other than the default stands in the URL as it prints, and while that
   * is without an exponent the effect later drops exactly sizes that are not
   * listed or below 1.
   */
  lemma WrittenSizeIsBadIff(t: Table, q: Query, u: Updates)
    requires LastUpdate(u.filters, "size").None? && u.pageSize.Given?
    ensures var raw, n := Raw(t, Written(t, q, u), "size"), u.pageSize.value;
            && raw == (if n == t.defaultPageSize then None else Some(NumberText(n)))
            && (-EXPONENT_FROM < n < EXPONENT_FROM ==>
                  (BadSize(raw, t.options) <==> n != t.defaultPageSize && (n !in t.options || n < 1)))
  {
    RawOfReserved(t, q, u);
    ParseIntOfText(u.pageSize.value);
    PrintedNotEmpty(u.pageSize.value);
  }

  /** A sort is read exactly from a column that is not blank and one of the two words for its direction. */
  lemma SortReadIff(t: Table, q: Query, column: string, dir: Dir)
    ensures StateOf(t, q).sort == Some(Sort(column, dir)) <==>
              && column != "" && Raw(t, q, "sortBy").Some? && Trim(Raw(t, q, "sortBy").value) == column
              && Raw(t, q, "sortDir") == Some(if dir.Asc? then "asc" else "desc")
  {
    assert "asc"[0] != "desc"[0];
  }

  lemma PrintedNotEmpty(n: int)
    ensures NumberText(n) != ""
  {
  }

  lemma LetterReads(s: string)
    requires s == "" || 'A' <= s[0] <= 'Z'
    ensures ParseInt(s).None?
  {
    assert TrimStart(s) == s;
    assert DigitPrefix(s) == "";
  }

  lemma NotANumberReads()
    ensures ParseInt("Infinity").None? && ParseInt("NaN").None? && ParseInt("").None?
  {
    LetterReads("Infinity");
    LetterReads("NaN");
    LetterReads("");
  }

  lemma PageTextReads(page: Num)
    ensures var read := ParsePositiveInt(Meaning(PageText(page)), 1);
            if page.Finite? && page.r > 1.0 then read == page.r.Floor <==> page.r.Floor < EXPONENT_FROM else read == 1
  {
    NotANumberReads();
    if page.Finite? && page.r > 1.0 {
      ParseIntOfText(page.r.Floor);
      PrintedNotEmpty(page.r.Floor);
    }
  }

  /**
   * A page size reads back exactly when it is the default or a listed size of at
   * least 1 that prints without an exponent.
   */
  lemma SizeRoundTrip(t: Table, q: Query, u: Updates)
    requires LastUpdate(u.filters, "size").None?
    ensures var size := SizeOf(t, Written(t, q, u));
            && (u.pageSize.Undefined? ==> size == SizeOf(t, q))
            && (u.pageSize.Null? ==> size == t.defaultPageSize)
            && (u.pageSize.Given? ==>
                  (size == u.pageSize.value <==>
                     u.pageSize.value == t.defaultPageSize
                     || (u.pageSize.value in t.options && 1 <= u.pageSize.value < EXPONENT_FROM)))
            && (u.pageSize.Given? && u.pageSize.value !in t.options && u.pageSize.value < EXPONENT_FROM ==>
                  size == t.defaultPageSize)
  {
    RawOfReserved(t, q, u);
    var raw := Raw(t, Written(t, q, u), "size");
    assert SizeOf(t, Written(t, q, u)) == ParsePageSize(raw, t.defaultPageSize, t.options);
    if u.pageSize.Given? {
      SizeTextReads(u.pageSize.value, t.defaultPageSize, t.options);
    }
  }

  lemma SizeTextReads(n: int, fallback: int, options: seq<int>)
    ensures var size := ParsePageSize(Meaning(if n == fallback then None else Some(NumberText(n))), fallback, options);
            && (size == n <==> n == fallback || (n in options && 1 <= n < EXPONENT_FROM))
            && (n !in options && n < EXPONENT_FROM ==> size == fallback)
  {
    if n != fallback {
      var text := NumberText(n);
      ParseIntOfText(n);
      PrintedNotEmpty(n);
      assert Meaning(Some(text)) == Some(text);
    }
  }

  lemma SortByRoundTrip(t: Table, q: Query, u: Updates)
    requires LastUpdate(u.filters, "sortBy").None?
    ensures SortByOf(t, Written(t, q, u)) == (match u.sortBy
                                              case Undefined => SortByOf(t, q)
                                              case Null => None
                                              case Given(s) => if IsBlank(s) then None else Some(Trim(s)))
  {
    RawOfReserved(t, q, u);
    var raw := Raw(t, Written(t, q, u), "sortBy");
    assert SortByOf(t, Written(t, q, u)) == Trimmed(raw);
    if u.sortBy.Given? {
      assert raw == Meaning(Some(u.sortBy.value));
      ColumnReads(u.sortBy.value);
    }
  }

  lemma SortDirRoundTrip(t: Table, q: Query, u: Updates)
    requires LastUpdate(u.filters, "sortDir").None?
    ensures SortDirOf(t, Written(t, q, u)) == (match u.sortDir
                                               case Undefined => SortDirOf(t, q)
                                               case Null => None
                                               case Given(d) => Some(d))
  {
    RawOfReserved(t, q, u);
    var raw := Raw(t, Written(t, q, u), "sortDir");
    assert SortDirOf(t, Written(t, q, u)) == ParseSortDir(raw);
    if u.sortDir.Given? {
      DirReads(u.sortDir.value);
    }
  }

  /**
   * The sort column reads back without its outer white space, and blank as absent;
   * the direction reads back as it is.
   */
  lemma SortRoundTrip(t: Table, q: Query, u: Updates)
    requires LastUpdate(u.filters, "sortBy").None? && LastUpdate(u.filters, "sortDir").None?
    ensures var after := StateOf(t, Written(t, q, u));
            && after.sortBy == (match u.sortBy
                                case Undefined => SortByOf(t, q)
                                case Null => None
                                case Given(s) => if IsBlank(s) then None else Some(Trim(s)))
            && after.sortDir == (match u.sortDir
                                 case Undefined => SortDirOf(t, q)
                                 case Null => None
                                 case Given(d) => Some(d))
            && (after.sort.Some? <==> after.sortBy.Some? && after.sortDir.Some?)
  {
    SortByRoundTrip(t, q, u);
    SortDirRoundTrip(t, q, u);
  }

  lemma ColumnReads(s: string)
    ensures Trimmed(Meaning(Some(s))) == if IsBlank(s) then None else Some(Trim(s))
  {
    assert Trim(s) == "" <==> IsBlank(s);
  }

  lemma DirReads(d: Dir)
    ensures ParseSortDir(Meaning(Some(DirText(d)))) == Some(d)
  {
    assert |"asc"| != |"desc"|;
  }

  /** An updated filter reads back trimmed, blank or cleared ones disappear, and the others keep their value. */
  lemma FilterRoundTrip(t: Table, q: Query, u: Updates, key: string)
    requires key in t.filterKeys && !Reserved(key)
    ensures var after, asked := FiltersOf(t, Written(t, q, u)), LastUpdate(u.filters, key);
            && (asked.None? ==>
                  (key in after <==> key in FiltersOf(t, q))
                  && (key in after ==> after[key] == FiltersOf(t, q)[key]))
            && (asked.Some? ==> (key in after <==> asked.value.Some? && !IsBlank(asked.value.value)))
            && (asked.Some? && key in after ==> after[key] == Trim(asked.value.value))
  {
    RawAfterWrite(t, q, u, key);
    var asked := LastUpdate(u.filters, key);
    if asked.Some? && asked.value.Some? {
      assert Trim(asked.value.value) == "" <==> IsBlank(asked.value.value);
    }
  }

  // ---- The four setters -----------------------------------------------------------------------------

  function PageUpdate(page: Num): Updates {
    Updates(Given(page), Undefined, Undefined, Undefined, [])
  }

  function SizeUpdate(size: int): Updates {
    Updates(Given(Finite(1.0)), Given(size), Undefined, Undefined, [])
  }

  function SortUpdate(sort: Option<Sort>): Updates {
    Updates(Given(Finite(1.0)), Undefined,
            if sort.Some? then Given(sort.value.column) else Null,
            if sort.Some? then Given(sort.value.dir) else Null, [])
  }

  function FilterUpdate(filters: seq<Update>): Updates {
    Updates(Given(Finite(1.0)), Undefined, Undefined, Undefined, filters)
  }

  lemma FiltersKept(t: Table, q: Query, u: Updates)
    requires u.filters == [] && forall k :: k in t.filterKeys ==> !Reserved(k)
    ensures FiltersOf(t, Written(t, q, u)) == FiltersOf(t, q)
  {
    forall key | key in t.filterKeys
      ensures FilterOf(t, Written(t, q, u), key) == FilterOf(t, q, key)
    {
      RawAfterWrite(t, q, u, key);
    }
  }

  /** Changing the size or the sort goes back to page 1 and keeps the rest. */
  lemma SizeAndSortReset(t: Table, q: Query, size: int, sort: Option<Sort>)
    requires forall k :: k in t.filterKeys ==> !Reserved(k)
    ensures var before, after := StateOf(t, q), StateOf(t, Written(t, q, SizeUpdate(size)));
            after == before.(page := 1, pageSize := after.pageSize)
    ensures var before, after := StateOf(t, q), StateOf(t, Written(t, q, SortUpdate(sort)));
            after == before.(page := 1, sortBy := after.sortBy, sortDir := after.sortDir, sort := after.sort)
    ensures sort.Some? && !IsBlank(sort.value.column) ==>
              StateOf(t, Written(t, q, SortUpdate(sort))).sort == Some(Sort(Trim(sort.value.column), sort.value.dir))
    ensures sort.None? ==> StateOf(t, Written(t, q, SortUpdate(sort))).sort == None
  {
    PageRoundTrip(t, q, SizeUpdate(size));
    SortRoundTrip(t, q, SizeUpdate(size));
    FiltersKept(t, q, SizeUpdate(size));
    PageRoundTrip(t, q, SortUpdate(sort));
    SizeRoundTrip(t, q, SortUpdate(sort));
    SortRoundTrip(t, q, SortUpdate(sort));
    FiltersKept(t, q, SortUpdate(sort));
  }

  /** Changing the page changes nothing else; changing filters goes back to page 1 and keeps size and sort. */
  lemma PageAndFilterReset(t: Table, q: Query, page: Num, filters: seq<Update>)
    requires forall k :: k in t.filterKeys ==> !Reserved(k)
    requires forall u :: u in filters ==> !Reserved(u.name)
    ensures var before, after := StateOf(t, q), StateOf(t, Written(t, q, PageUpdate(page)));
            after == before.(page := after.page)
    ensures var before, after := StateOf(t, q), StateOf(t, Written(t, q, FilterUpdate(filters)));
            after == before.(page := 1, filters := after.filters)
  {
    SizeRoundTrip(t, q, PageUpdate(page));
    SortRoundTrip(t, q, PageUpdate(page));
    FiltersKept(t, q, PageUpdate(page));
    NotUpdated(filters, "page");
    NotUpdated(filters, "size");
    NotUpdated(filters, "sortBy");
    NotUpdated(filters, "sortDir");
    PageRoundTrip(t, q, FilterUpdate(filters));
    SizeRoundTrip(t, q, FilterUpdate(filters));
    SortRoundTrip(t, q, FilterUpdate(filters));
  }

  /** Only a page change leaves a step to go back to. */
  method SetPage(router: Router, t: Table, page: Num)
    modifies router
    ensures router.current == Written(t, old(router.current), PageUpdate(page))
    ensures router.past == old(router.past) + [old(router.current)]
  {
    router.SetQuery(t, router.current, PageUpdate(page), true);
  }

  method SetPageSize(router: Router, t: Table, size: int)
    modifies router
    ensures router.current == Written(t, old(router.current), SizeUpdate(size)) && router.past == old(router.past)
  {
    router.SetQuery(t, router.current, SizeUpdate(size), false);
  }

  method SetSort(router: Router, t: Table, sort: Option<Sort>)
    modifies router
    ensures router.current == Written(t, old(router.current), SortUpdate(sort)) && router.past == old(router.past)
  {
    router.SetQuery(t, router.current, SortUpdate(sort), false);
  }

  method SetFilters(router: Router, t: Table, filters: seq<Update>)
    modifies router
    ensures router.current == Written(t, old(router.current), FilterUpdate(filters)) && router.past == old(router.past)
  {
    router.SetQuery(t, router.current, FilterUpdate(filters), false);
  }

  // ---- The correction effect ----------------------------------------------------------------------------

  lemma RawAfterCorrection(t: Table, q: Query, key: string)
    ensures Raw(t, Corrected(t, q), key)
         == if (key == "page" && BadPage(Raw(t, q, "page"))) || (key == "size" && BadSize(Raw(t, q, "size"), t.options))
            then None else Raw(t, q, key)
  {
    var name := NamespacedKey(t.namespace, key);
    KeyApart(t.namespace, "page", key);
    KeyApart(t.namespace, "size", key);
    GetMerged(q, CorrectionPatch(t, q), name);
    var first := if BadPage(Raw(t, q, "page")) then [Update(NamespacedKey(t.namespace, "page"), None)] else [];
    assert LastUpdate(first, name) == if BadPage(Raw(t, q, "page")) && key == "page" then Some(None) else None;
    var patch := CorrectionPatch(t, q);
    if BadSize(Raw(t, q, "size"), t.options) {
      assert patch[..|patch| - 1] == first;
    } else {
      assert patch == first;
    }
  }

  lemma PageShown(raw: Option<string>)
    ensures if BadPage(raw) then ParsePositiveInt(raw, 1) == 1
            else raw.Some? ==> ParseInt(raw.value) == Some(ParsePositiveInt(raw, 1))
  {
    NotANumberReads();
  }

  lemma SizeShown(raw: Option<string>, fallback: int, options: seq<int>)
    ensures if BadSize(raw, options) then ParsePageSize(raw, fallback, options) == fallback
            else raw.Some? ==> ParseInt(raw.value) == Some(ParsePageSize(raw, fallback, options))
  {
    NotANumberReads();
  }

  lemma NothingToCorrect(t: Table, q: Query)
    requires !NeedsCorrection(t, q)
    ensures Corrected(t, q) == q
  {
    assert CorrectionPatch(t, q) == [];
  }

  lemma CleanAfterCorrection(t: Table, q: Query, q': Query)
    requires q' == Corrected(t, q)
    ensures !NeedsCorrection(t, q')
  {
    RawAfterCorrection(t, q, "page");
    RawAfterCorrection(t, q, "size");
  }

  /** One run of the effect leaves nothing to correct, and a URL without invalid values is left as it is. */
  lemma CorrectionIsFixpoint(t: Table, q: Query)
    ensures !NeedsCorrection(t, Corrected(t, q)) && Corrected(t, Corrected(t, q)) == Corrected(t, q)
    ensures !NeedsCorrection(t, q) ==> Corrected(t, q) == q
  {
    var q' := Corrected(t, q);
    CleanAfterCorrection(t, q, q');
    NothingToCorrect(t, q');
    if !NeedsCorrection(t, q) {
      NothingToCorrect(t, q);
    }
  }

  /** The effect keeps everything that the table reads; filters too unless page or size is one of them. */
  lemma CorrectionKeepsState(t: Table, q: Query)
    ensures var before, after := StateOf(t, q), StateOf(t, Corrected(t, q));
            after == before.(filters := after.filters)
    ensures "page" !in t.filterKeys && "size" !in t.filterKeys ==> StateOf(t, Corrected(t, q)) == StateOf(t, q)
  {
    var q' := Corrected(t, q);
    RawAfterCorrection(t, q, "page");
    RawAfterCorrection(t, q, "size");
    PageShown(Raw(t, q, "page"));
    SizeShown(Raw(t, q, "size"), t.defaultPageSize, t.options);
    assert PageOf(t, q') == PageOf(t, q) && SizeOf(t, q') == SizeOf(t, q);
    RawAfterCorrection(t, q, "sortBy");
    RawAfterCorrection(t, q, "sortDir");
    assert SortByOf(t, q') == SortByOf(t, q) && SortDirOf(t, q') == SortDirOf(t, q);
    if "page" !in t.filterKeys && "size" !in t.filterKeys {
      CorrectionKeepsFilters(t, q);
    }
  }

  lemma CorrectionKeepsFilters(t: Table, q: Query)
    requires "page" !in t.filterKeys && "size" !in t.filterKeys
    ensures FiltersOf(t, Corrected(t, q)) == FiltersOf(t, q)
  {
    forall key | key in t.filterKeys ensures FilterOf(t, Corrected(t, q), key) == FilterOf(t, q, key) {
      RawAfterCorrection(t, q, key);
    }
  }

  /** After the effect the page and size in the URL, if any, are what the table shows. */
  lemma CorrectedUrlIsShown(t: Table, q: Query)
    ensures var page := Raw(t, Corrected(t, q), "page");
            page.Some? ==> ParseInt(page.value) == Some(PageOf(t, q))
    ensures var size := Raw(t, Corrected(t, q), "size");
            size.Some? ==> ParseInt(size.value) == Some(SizeOf(t, q))
  {
    RawAfterCorrection(t, q, "page");
    RawAfterCorrection(t, q, "size");
    PageShown(Raw(t, q, "page"));
    SizeShown(Raw(t, q, "size"), t.defaultPageSize, t.options);
  }
}
