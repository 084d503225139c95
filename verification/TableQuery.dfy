/**
 * Table state kept in the URL: page, size, sort and filters under an optional
 * namespace, the writer, and the effect that drops invalid values
 * (apps/portal/src/lib/use-table-query-state.ts:53-229).
 */
module TableQuery {
  import opened Options
  import opened Text
  import opened Decimal
  import opened UrlParams

  datatype Dir = Asc | Desc

  /** A JavaScript number. */
  datatype Num = Finite(r: real) | PosInfinity | NegInfinity | NaN

  datatype Field<T> = Undefined | Null | Given(value: T)

  datatype Updates = Updates(
    page: Field<Num>, pageSize: Field<int>, sortBy: Field<string>, sortDir: Field<Dir>, filters: seq<Update>)

  datatype Sort = Sort(column: string, dir: Dir)

  datatype Table = Table(namespace: Option<string>, defaultPageSize: int, filterKeys: seq<string>, options: seq<int>)

  datatype State = State(page: int, pageSize: int, sortBy: Option<string>, sortDir: Option<Dir>, sort: Option<Sort>,
                         filters: map<string, string>)

  predicate Bare(namespace: Option<string>) {
    namespace.None? || namespace.value == ""
  }

  function NamespacedKey(namespace: Option<string>, key: string): string {
    if Bare(namespace) then key else namespace.value + "." + key
  }

  // ---- Reading ------------------------------------------------------------------------------

  function ParsePositiveInt(raw: Option<string>, fallback: int): int {
    if raw.None? || raw.value == "" then fallback
    else
      var n := ParseInt(raw.value);
      if n.None? || n.value < 1 then fallback else n.value
  }

  function ParsePageSize(raw: Option<string>, fallback: int, options: seq<int>): int {
    var n := ParsePositiveInt(raw, fallback);
    if n in options then n else fallback
  }

  function DirText(d: Dir): string {
    if d.Asc? then "asc" else "desc"
  }

  function ParseSortDir(raw: Option<string>): Option<Dir> {
    if raw == Some("asc") then Some(Asc) else if raw == Some("desc") then Some(Desc) else None
  }

  /** `?.trim() || null` */
  function Trimmed(raw: Option<string>): Option<string> {
    if raw.None? || Trim(raw.value) == "" then None else Some(Trim(raw.value))
  }

  function Raw(t: Table, q: Query, key: string): Option<string> {
    Get(q, NamespacedKey(t.namespace, key))
  }

  function PageOf(t: Table, q: Query): int {
    ParsePositiveInt(Raw(t, q, "page"), 1)
  }

  function SizeOf(t: Table, q: Query): int {
    ParsePageSize(Raw(t, q, "size"), t.defaultPageSize, t.options)
  }

  function SortByOf(t: Table, q: Query): Option<string> {
    Trimmed(Raw(t, q, "sortBy"))
  }

  function SortDirOf(t: Table, q: Query): Option<Dir> {
    ParseSortDir(Raw(t, q, "sortDir"))
  }

  function FilterOf(t: Table, q: Query, key: string): Option<string> {
    Trimmed(Raw(t, q, key))
  }

  function FiltersOf(t: Table, q: Query): map<string, string> {
    map key | key in t.filterKeys && FilterOf(t, q, key).Some? :: FilterOf(t, q, key).value
  }

  function StateOf(t: Table, q: Query): State {
    var column, dir := SortByOf(t, q), SortDirOf(t, q);
    State(PageOf(t, q), SizeOf(t, q), column, dir,
          if column.Some? && dir.Some? then Some(Sort(column.value, dir.value)) else None,
          FiltersOf(t, q))
  }

  /** The loop that hydrates the filters. */
  method ReadFilters(t: Table, q: Query) returns (filters: map<string, string>)
    ensures filters == FiltersOf(t, q)
  {
    filters := map[];
    var i := 0;
    while i < |t.filterKeys|
      invariant i <= |t.filterKeys|
      invariant forall k :: k in filters <==> k in t.filterKeys[..i] && FilterOf(t, q, k).Some?
      invariant forall k :: k in filters ==> filters[k] == FilterOf(t, q, k).value
    {
      var key := t.filterKeys[i];
      var raw := Raw(t, q, key);
      var value := if raw.None? then "" else Trim(raw.value);
      assert FilterOf(t, q, key) == if value == "" then None else Some(value);
      assert t.filterKeys[..i + 1] == t.filterKeys[..i] + [key];
      if value != "" {
        filters := filters[key := value];
      }
      i := i + 1;
    }
  }

  // ---- Writing ------------------------------------------------------------------------------

  predicate Names(patch: seq<Update>, name: string) {
    exists u :: u in patch && u.name == name
  }

  function Reassigned(patch: seq<Update>, name: string, value: Option<string>): seq<Update> {
    if patch == [] then []
    else
      var front, last := patch[..|patch| - 1], patch[|patch| - 1];
      if last.name == name then front + [Update(name, value)] else Reassigned(front, name, value) + [last]
  }

  /** `patch[name] = value` keeps the place of a key that is already there. */
  function Put(patch: seq<Update>, name: string, value: Option<string>): seq<Update> {
    if Names(patch, name) then Reassigned(patch, name, value) else patch + [Update(name, value)]
  }

  /** `nextPage == null || nextPage <= 1 ? null : String(Math.floor(nextPage))` */
  function PageText(page: Num): Option<string> {
    match page
    case Finite(r) => if r <= 1.0 then None else Some(NumberText(r.Floor))
    case PosInfinity => Some("Infinity")
    case NegInfinity => None
    case NaN => Some("NaN")
  }

  function PagePatch(page: Field<Num>): Option<string> {
    if page.Given? then PageText(page.value) else None
  }

  function SizePatch(size: Field<int>, fallback: int): Option<string> {
    if !size.Given? || size.value == fallback then None else Some(NumberText(size.value))
  }

  function SortByPatch(column: Field<string>): Option<string> {
    if column.Given? then Some(column.value) else None
  }

  function SortDirPatch(dir: Field<Dir>): Option<string> {
    if dir.Given? then Some(DirText(dir.value)) else None
  }

  function PutField<T>(t: Table, patch: seq<Update>, key: string, f: Field<T>, value: Option<string>): seq<Update> {
    if f.Undefined? then patch else Put(patch, NamespacedKey(t.namespace, key), value)
  }

  function PutFilters(t: Table, patch: seq<Update>, filters: seq<Update>): seq<Update> {
    if filters == [] then patch
    else
      var last := filters[|filters| - 1];
      Put(PutFilters(t, patch, filters[..|filters| - 1]), NamespacedKey(t.namespace, last.name), last.value)
  }

  function FixedPatch(t: Table, u: Updates): seq<Update> {
    var p1 := PutField(t, [], "page", u.page, PagePatch(u.page));
    var p2 := PutField(t, p1, "size", u.pageSize, SizePatch(u.pageSize, t.defaultPageSize));
    var p3 := PutField(t, p2, "sortBy", u.sortBy, SortByPatch(u.sortBy));
    PutField(t, p3, "sortDir", u.sortDir, SortDirPatch(u.sortDir))
  }

  function PatchOf(t: Table, u: Updates): seq<Update> {
    PutFilters(t, FixedPatch(t, u), u.filters)
  }

  /** The URL that setQuery navigates to, from the parameters `seen` by the render. */
  function Written(t: Table, seen: Query, u: Updates): Query {
    Merged(seen, PatchOf(t, u))
  }

  // ---- The correction effect ------------------------------------------------------------------

  predicate BadPage(raw: Option<string>) {
    raw.Some? && var n := ParseInt(raw.value); n.None? || n.value < 1
  }

  predicate BadSize(raw: Option<string>, options: seq<int>) {
    raw.Some? && var n := ParseInt(raw.value); n.None? || n.value < 1 || n.value !in options
  }

  predicate NeedsCorrection(t: Table, q: Query) {
    BadPage(Raw(t, q, "page")) || BadSize(Raw(t, q, "size"), t.options)
  }

  function CorrectionPatch(t: Table, q: Query): seq<Update> {
    (if BadPage(Raw(t, q, "page")) then [Update(NamespacedKey(t.namespace, "page"), None)] else [])
    + (if BadSize(Raw(t, q, "size"), t.options) then [Update(NamespacedKey(t.namespace, "size"), None)] else [])
  }

  function Corrected(t: Table, q: Query): Query {
    Merged(q, CorrectionPatch(t, q))
  }

  /** The browser history: the current URL and what Back returns to. */
  class Router {
    var past: seq<Query>
    var current: Query

    constructor (start: Query)
      ensures past == [] && current == start
    {
      past, current := [], start;
    }

    method Push(q: Query)
      modifies this
      ensures past == old(past) + [old(current)] && current == q
    {
      past, current := past + [current], q;
    }

    method Replace(q: Query)
      modifies this
      ensures past == old(past) && current == q
    {
      current := q;
    }

    method SetQuery(t: Table, seen: Query, u: Updates, push: bool)
      modifies this
      ensures current == Written(t, seen, u)
      ensures past == if push then old(past) + [old(current)] else old(past)
    {
      var patch := BuildPatch(t, u);
      var query := MergeUrlSearchParams(seen, patch);
      if push {
        Push(query);
      } else {
        Replace(query);
      }
    }

    /** The effect: it navigates only when something is invalid. */
    method Correct(t: Table, seen: Query)
      requires seen == current
      modifies this
      ensures past == old(past) && current == Corrected(t, old(current))
    {
      var patch, needsCorrection := BuildCorrection(t, seen);
      if needsCorrection {
        var query := MergeUrlSearchParams(seen, patch);
        Replace(query);
      }
    }
  }

  /** The assignments to the patch of setQuery, in order. */
  method BuildPatch(t: Table, u: Updates) returns (patch: seq<Update>)
    ensures patch == PatchOf(t, u)
  {
    patch := BuildFixedPatch(t, u);
    var i := 0;
    while i < |u.filters|
      invariant i <= |u.filters| && patch == PutFilters(t, FixedPatch(t, u), u.filters[..i])
    {
      assert u.filters[..i + 1][..i] == u.filters[..i];
      patch := Put(patch, NamespacedKey(t.namespace, u.filters[i].name), u.filters[i].value);
      i := i + 1;
    }
    assert u.filters[..i] == u.filters;
  }

  method BuildFixedPatch(t: Table, u: Updates) returns (patch: seq<Update>)
    ensures patch == FixedPatch(t, u)
  {
    patch := [];
    if !u.page.Undefined? {
      patch := Put(patch, NamespacedKey(t.namespace, "page"), PagePatch(u.page));
    }
    if !u.pageSize.Undefined? {
      patch := Put(patch, NamespacedKey(t.namespace, "size"), SizePatch(u.pageSize, t.defaultPageSize));
    }
    if !u.sortBy.Undefined? {
      patch := Put(patch, NamespacedKey(t.namespace, "sortBy"), SortByPatch(u.sortBy));
    }
    if !u.sortDir.Undefined? {
      patch := Put(patch, NamespacedKey(t.namespace, "sortDir"), SortDirPatch(u.sortDir));
    }
  }

  method BuildCorrection(t: Table, q: Query) returns (patch: seq<Update>, needsCorrection: bool)
    ensures patch == CorrectionPatch(t, q)
    ensures needsCorrection <==> NeedsCorrection(t, q)
    ensures !needsCorrection ==> patch == []
  {
    var rawPage, rawSize := Raw(t, q, "page"), Raw(t, q, "size");
    patch, needsCorrection := [], false;
    var badPage := IsBadPage(rawPage);
    if badPage {
      patch, needsCorrection := patch + [Update(NamespacedKey(t.namespace, "page"), None)], true;
    }
    var badSize := IsBadSize(rawSize, t.options);
    if badSize {
      patch, needsCorrection := patch + [Update(NamespacedKey(t.namespace, "size"), None)], true;
    }
  }

  method IsBadPage(raw: Option<string>) returns (bad: bool)
    ensures bad == BadPage(raw)
  {
    bad := false;
    if raw.Some? {
      var n := ParseInt(raw.value);
      if n.None? || n.value < 1 {
        bad := true;
      }
    }
  }

  method IsBadSize(raw: Option<string>, options: seq<int>) returns (bad: bool)
    ensures bad == BadSize(raw, options)
  {
    bad := false;
    if raw.Some? {
      var n := ParseInt(raw.value);
      if n.None? || n.value < 1 || n.value !in options {
        bad := true;
      }
    }
  }
}
