/**
 * Where highlightMatch puts its marks: toLowerCase may change the length of a
 * text, and positions found in lower case are used in the text itself
 * (apps/portal/src/lib/api-client.ts:4859-4880).
 */
module HighlightMarks {
  import opened Options
  import opened Text
  import opened HtmlEscape

  // ---- Where the marks are ------------------------------------------------------------------------

  ghost predicate SameIgnoringCase(source: string, i: nat, j: nat, wanted: string, lower: string -> string) {
    i <= j <= |source| && lower(source[i..j]) == lower(wanted)
  }

  ghost predicate OccursIgnoringCase(source: string, wanted: string, lower: string -> string) {
    exists i: nat, j: nat :: SameIgnoringCase(source, i, j, wanted, lower)
  }

  /** As many characters from position k as the query has, or as are left, are the query ignoring case. */
  ghost predicate MatchesAt(source: string, k: nat, wanted: string, lower: string -> string) {
    k <= |source| && lower(Slice(source, k, k + |wanted|)) == lower(wanted)
  }

  ghost predicate FirstMatch(source: string, i: nat, wanted: string, lower: string -> string) {
    MatchesAt(source, i, wanted, lower) && forall k: nat :: k < i ==> !MatchesAt(source, k, wanted, lower)
  }

  ghost predicate SplitsAt(lower: string -> string, source: string, i: nat, j: nat) {
    i <= j <= |source| ==>
      lower(source[..j]) == lower(source[..i]) + lower(source[i..j]) && |lower(source[i..j])| >= j - i
  }

  /**
   * Lower case works through this text from left to right, and a character
   * becomes one character or more. It may change the length of the text.
   */
  ghost predicate WorksThrough(lower: string -> string, source: string) {
    forall i: nat, j: nat :: SplitsAt(lower, source, i, j)
  }

  /** A text that lower case works through keeps its length only character by character. */
  lemma PieceInPlace(lower: string -> string, source: string, i: nat, j: nat)
    requires WorksThrough(lower, source) && |lower(source)| == |source| && i <= j <= |source|
    ensures lower(source[i..j]) == lower(source)[i..j] && |lower(source[..i])| == i
  {
    var n := |source|;
    assert source[..n] == source && source[0..i] == source[..i] && source[0..0] == source[..0];
    assert SplitsAt(lower, source, 0, 0) && SplitsAt(lower, source, 0, i) && SplitsAt(lower, source, i, j);
    assert SplitsAt(lower, source, j, n);
  }

  lemma FoundWherePieceIs(lower: string -> string, source: string, wanted: string, i: nat, j: nat)
    requires WorksThrough(lower, source) && SameIgnoringCase(source, i, j, wanted, lower)
    ensures OccursAt(lower(source), lower(wanted), |lower(source[..i])|)
  {
    var n := |source|;
    assert source[..n] == source;
    assert SplitsAt(lower, source, i, j) && SplitsAt(lower, source, j, n);
    var ls, a, lw := lower(source), lower(source[..i]), lower(wanted);
    assert ls == a + lw + lower(source[j..]);
    assert ls[|a|..|a| + |lw|] == lw;
  }

  lemma FoundIffOccurs(source: string, wanted: string, lower: string -> string)
    requires WorksThrough(lower, source)
    ensures OccursIgnoringCase(source, wanted, lower) ==> FindText(lower(source), lower(wanted)).Some?
    ensures |lower(source)| == |source| ==>
              (FindText(lower(source), lower(wanted)).Some? <==> OccursIgnoringCase(source, wanted, lower))
  {
    var ls, lw := lower(source), lower(wanted);
    if i: nat, j: nat :| SameIgnoringCase(source, i, j, wanted, lower) {
      FoundWherePieceIs(lower, source, wanted, i, j);
    }
    var at := FindText(ls, lw);
    if at.Some? && |ls| == |source| {
      var i, j := at.value, at.value + |lw|;
      assert OccursAt(ls, lw, i);
      PieceInPlace(lower, source, i, j);
      assert SameIgnoringCase(source, i, j, wanted, lower);
    }
  }

  /** Where highlightMatch puts its marks, once both texts are trimmed. */
  function FoundAt(source: string, wanted: string, lower: string -> string): Option<nat> {
    if source == "" || wanted == "" then None else FindText(lower(source), lower(wanted))
  }

  lemma HighlightIsMarked(value: Option<string>, query: string, lower: string -> string)
    ensures var source, wanted := if value.None? then "" else Trim(value.value), Trim(query);
            var at := FoundAt(source, wanted, lower);
            HighlightMatch(value, query, lower) == if at.None? then None else Some(Marked(source, at.value, |wanted|))
  {
  }

  lemma FoundAtIffOccurs(source: string, wanted: string, lower: string -> string)
    requires WorksThrough(lower, source)
    ensures source != "" && wanted != "" && OccursIgnoringCase(source, wanted, lower) ==>
              FoundAt(source, wanted, lower).Some?
    ensures |lower(source)| == |source| ==>
              (FoundAt(source, wanted, lower).Some? <==>
                 source != "" && wanted != "" && OccursIgnoringCase(source, wanted, lower))
  {
    FoundIffOccurs(source, wanted, lower);
  }

  lemma HighlightIffFound(value: string, query: string, lower: string -> string)
    ensures HighlightMatch(None, query, lower).None?
    ensures HighlightMatch(Some(value), query, lower).Some? <==> FoundAt(Trim(value), Trim(query), lower).Some?
  {
    HighlightIsMarked(Some(value), query, lower);
  }

  lemma BlankIffTrimmedAway(s: string)
    ensures Trim(s) == "" <==> IsBlank(s)
  {
  }

  /**
   * A query that occurs in the source, ignoring case, is highlighted. Where
   * lower case keeps the length of the source nothing else is.
   */
  lemma HighlightIffOccurs(value: string, query: string, lower: string -> string)
    requires WorksThrough(lower, Trim(value))
    ensures HighlightMatch(None, query, lower).None?
    ensures !IsBlank(value) && !IsBlank(query) && OccursIgnoringCase(Trim(value), Trim(query), lower) ==>
              HighlightMatch(Some(value), query, lower).Some?
    ensures |lower(Trim(value))| == |Trim(value)| ==>
              (HighlightMatch(Some(value), query, lower).Some? <==>
                 !IsBlank(value) && !IsBlank(query) && OccursIgnoringCase(Trim(value), Trim(query), lower))
  {
    var source, wanted := Trim(value), Trim(query);
    FoundAtIffOccurs(source, wanted, lower);
    HighlightIffFound(value, query, lower);
    BlankIffTrimmedAway(value);
    BlankIffTrimmedAway(query);
  }

  /** In lower case the text before the marks and the text inside them are what the search saw there. */
  ghost predicate MarksFollowSearch(source: string, i: nat, wanted: string, lower: string -> string) {
    && i <= |lower(source)|
    && lower(Slice(source, 0, i)) == lower(source)[..i]
    && lower(Slice(source, i, i + |wanted|)) == lower(wanted)
  }

  /** Lower case keeps the length of the text before the marks, and gives the text inside them that of the query. */
  predicate LengthsFit(source: string, i: nat, wanted: string, lower: string -> string) {
    && |lower(Slice(source, 0, i))| == i
    && |lower(Slice(source, i, i + |wanted|))| == |lower(wanted)|
  }

  lemma FoundInside(source: string, wanted: string, lower: string -> string, i: nat)
    requires FoundAt(source, wanted, lower) == Some(i)
    ensures OccursAt(lower(source), lower(wanted), i)
    ensures forall k: nat :: k < i ==> !OccursAt(lower(source), lower(wanted), k)
    ensures LengthsFit(source, i, wanted, lower) ==> i <= |source|
  {
    assert OccursAt(lower(source), lower(wanted), i);
    assert i >= |source| ==> Slice(source, 0, i) == source;
    assert |lower(wanted)| == 0 ==> OccursAt(lower(source), lower(wanted), 0);
  }

  /** Cut out of the text, what is before and inside the marks has the lower case that it has in the text. */
  predicate SameOutOfContext(source: string, i: nat, wanted: string, lower: string -> string) {
    lower(Slice(source, 0, i)) + lower(Slice(source, i, i + |wanted|)) <= lower(source)
  }

  /**
   * Whatever lower case does: the marks are around what the search found exactly
   * when the lengths fit and the cuts leave lower case as it is.
   */
  lemma MarksFollowIff(source: string, wanted: string, lower: string -> string, i: nat)
    requires FoundAt(source, wanted, lower) == Some(i)
    ensures MarksFollowSearch(source, i, wanted, lower)
            <==> LengthsFit(source, i, wanted, lower) && SameOutOfContext(source, i, wanted, lower)
  {
    var ls, lw := lower(source), lower(wanted);
    var before, inside := lower(Slice(source, 0, i)), lower(Slice(source, i, i + |wanted|));
    FoundInside(source, wanted, lower, i);
    assert ls[i..i + |lw|] == lw;
    if MarksFollowSearch(source, i, wanted, lower) {
      assert ls[..i] + ls[i..i + |lw|] == ls[..i + |lw|];
    }
    if LengthsFit(source, i, wanted, lower) && SameOutOfContext(source, i, wanted, lower) {
      assert ls[..i + |lw|] == before + inside;
      assert (before + inside)[..i] == before && (before + inside)[i..] == inside;
      assert ls[..i + |lw|][..i] == ls[..i] && ls[..i + |lw|][i..] == ls[i..i + |lw|];
    }
  }

  /** Where lower case works through the text the lengths alone decide. */
  lemma MarksFollowIffLengthsFit(source: string, wanted: string, lower: string -> string, i: nat)
    requires WorksThrough(lower, source) && FoundAt(source, wanted, lower) == Some(i)
    ensures MarksFollowSearch(source, i, wanted, lower) <==> LengthsFit(source, i, wanted, lower)
  {
    FoundInside(source, wanted, lower, i);
    MarksFollowIff(source, wanted, lower, i);
    if LengthsFit(source, i, wanted, lower) {
      PiecesFollow(source, i, |wanted|, lower);
    }
  }

  lemma PiecesFollow(source: string, i: nat, n: nat, lower: string -> string)
    requires WorksThrough(lower, source) && i <= |source|
    ensures lower(Slice(source, 0, i)) + lower(Slice(source, i, i + n)) <= lower(source)
  {
    var e := Min(i + n, |source|);
    SliceIsPiece(source, 0, i);
    SliceIsPiece(source, i, n);
    assert source[..|source|] == source && source[0..i] == source[..i];
    assert SplitsAt(lower, source, i, e) && SplitsAt(lower, source, e, |source|);
  }

  lemma SliceIsPiece(source: string, k: nat, n: nat)
    requires k <= |source|
    ensures k <= Min(k + n, |source|) <= |source| && Slice(source, k, k + n) == source[k..Min(k + n, |source|)]
  {
  }

  /** A match shows up in lower case, at the length of what is before it. */
  lemma MatchShowsUp(source: string, wanted: string, lower: string -> string, k: nat)
    requires WorksThrough(lower, source) && k <= |source|
    ensures MatchesAt(source, k, wanted, lower) ==> OccursAt(lower(source), lower(wanted), |lower(source[..k])|)
  {
    if MatchesAt(source, k, wanted, lower) {
      SliceIsPiece(source, k, |wanted|);
      FoundWherePieceIs(lower, source, wanted, k, Min(k + |wanted|, |source|));
    }
  }

  /** Marks that follow the search are around the first match. */
  lemma FollowingIsFirst(source: string, wanted: string, lower: string -> string, i: nat)
    requires WorksThrough(lower, source) && FoundAt(source, wanted, lower) == Some(i)
    requires LengthsFit(source, i, wanted, lower)
    ensures FirstMatch(source, i, wanted, lower)
  {
    MarksFollowIffLengthsFit(source, wanted, lower, i);
    FoundInside(source, wanted, lower, i);
    assert Slice(source, 0, i) == source[..i];
    forall k: nat | k < i
      ensures MatchesAt(source, k, wanted, lower) ==> OccursAt(lower(source), lower(wanted), |lower(source[..k])|)
      ensures |lower(source[..k])| < i
    {
      MatchShowsUp(source, wanted, lower, k);
      assert SplitsAt(lower, source, k, i);
    }
  }

  /**
   * In a source whose length lower case keeps, the marks are around the first match
   * exactly for a query whose length it keeps.
   */
  lemma MarksFirstIffQueryKeepsLength(source: string, wanted: string, lower: string -> string, i: nat)
    requires WorksThrough(lower, source) && |lower(source)| == |source|
    requires FoundAt(source, wanted, lower) == Some(i) && |lower(wanted)| >= |wanted|
    ensures FirstMatch(source, i, wanted, lower) <==> |lower(wanted)| == |wanted|
  {
    var lw := lower(wanted);
    FoundInside(source, wanted, lower, i);
    SliceIsPiece(source, i, |wanted|);
    var e := Min(i + |wanted|, |source|);
    PieceInPlace(lower, source, i, e);
    assert |lower(source[i..e])| == e - i;
    if |lw| == |wanted| {
      assert Slice(source, 0, i) == source[..i];
      FollowingIsFirst(source, wanted, lower, i);
    }
  }

  // ---- For every query ----------------------------------------------------------------------------

  ghost predicate SpaceFromSpace(lower: string -> string, source: string, k: nat) {
    k < |source| ==>
      forall c :: c in lower(source[k..k + 1]) && IsSpace(c) ==> IsSpace(source[k]) && |lower(source[k..k + 1])| == 1
  }

  ghost predicate Settled(lower: string -> string, text: string, k: nat) {
    k <= |text| ==> lower(text[..k]) == text[..k]
  }

  /**
   * Lower case works through the source, has nothing to do on its result, and makes
   * no white space of other characters.
   */
  ghost predicate LowerCaseOf(lower: string -> string, source: string) {
    && WorksThrough(lower, source)
    && (forall k: nat :: Settled(lower, lower(source), k))
    && forall k: nat :: SpaceFromSpace(lower, source, k)
  }

  /** For a query whose length lower case keeps, the marks are at its first match. */
  ghost predicate MarksRight(source: string, wanted: string, lower: string -> string) {
    var at := FoundAt(source, wanted, lower);
    at.Some? && |lower(wanted)| == |wanted| ==> FirstMatch(source, at.value, wanted, lower)
  }

  /** The first character that lower case makes longer. */
  lemma {:induction false} FirstLonger(lower: string -> string, source: string, n: nat) returns (p: nat)
    requires WorksThrough(lower, source) && n <= |source| && |lower(source[..n])| > n
    ensures p < n && |lower(source[..p])| == p && |lower(source[p..p + 1])| > 1
    decreases n
  {
    assert SplitsAt(lower, source, 0, 0) && source[0..0] == source[..0] == "";
    assert n > 0;
    assert SplitsAt(lower, source, n - 1, n);
    assert SplitsAt(lower, source, 0, n - 1) && source[0..n - 1] == source[..n - 1];
    if |lower(source[..n - 1])| > n - 1 {
      p := FirstLonger(lower, source, n - 1);
    } else {
      p := n - 1;
    }
  }

  lemma StartNotSpace(lower: string -> string, source: string, p: nat)
    requires LowerCaseOf(lower, source) && 0 < p <= |source| && !IsSpace(source[0])
    ensures lower(source[..p]) != "" && !IsSpace(lower(source[..p])[0])
  {
    assert SplitsAt(lower, source, 0, 0) && SplitsAt(lower, source, 0, 1) && SplitsAt(lower, source, 1, p);
    assert source[0..1] == source[..1] && source[0..0] == source[..0];
    var first := lower(source[0..1]);
    assert first != "" && first[0] in first;
    assert SpaceFromSpace(lower, source, 0);
  }

  lemma LongerPieceStart(lower: string -> string, source: string, p: nat)
    requires LowerCaseOf(lower, source) && p < |source| && |lower(source[p..p + 1])| > 1
    ensures !IsSpace(lower(source[p..p + 1])[0])
  {
    var piece := lower(source[p..p + 1]);
    assert piece[0] in piece;
    assert SpaceFromSpace(lower, source, p);
  }

  lemma MissedAtStart(source: string, query: string, lower: string -> string)
    requires query != "" && lower(query) == query && query <= lower(source)
    requires |query| <= |source| && |lower(source[..|query|])| > |query|
    ensures !MarksRight(source, query, lower)
  {
    assert OccursAt(lower(source), query, 0);
    assert FoundAt(source, query, lower) == Some(0);
    assert Slice(source, 0, |query|) == source[..|query|];
  }

  /** The start of the source in lower case, up to and including the start of a longer piece. */
  lemma QueryInFront(lower: string -> string, source: string, p: nat, before: string, piece: string, query: string)
    requires LowerCaseOf(lower, source) && p < |source|
    requires before == lower(source[..p]) && piece == lower(source[p..p + 1]) && |before| == p && |piece| > 1
    requires query == before + [piece[0]]
    ensures query <= lower(source) && lower(query) == query && |lower(source[..p + 1])| > |query| == p + 1
  {
    var n, ls := |source|, lower(source);
    assert SplitsAt(lower, source, p, p + 1) && SplitsAt(lower, source, p + 1, n) && source[..n] == source;
    assert ls == before + piece + lower(source[p + 1..n]);
    assert ls[..p + 1] == query;
    assert Settled(lower, ls, p + 1);
  }

  predicate NoOuterSpace(s: string) {
    s != "" && !IsSpace(s[0]) && !IsSpace(s[|s| - 1])
  }

  lemma QueryTrimmed(lower: string -> string, source: string, p: nat, before: string, piece: string, query: string)
    requires LowerCaseOf(lower, source) && p < |source| && !IsSpace(source[0])
    requires before == lower(source[..p]) && piece == lower(source[p..p + 1]) && |before| == p && |piece| > 1
    requires query == before + [piece[0]]
    ensures NoOuterSpace(query)
  {
    LongerPieceStart(lower, source, p);
    if p > 0 {
      StartNotSpace(lower, source, p);
    }
  }

  /** A source that lower case makes longer has a query that the marks miss. */
  lemma LongerSourceMisses(source: string, lower: string -> string) returns (query: string)
    requires LowerCaseOf(lower, source) && NoOuterSpace(source) && |lower(source)| > |source|
    ensures NoOuterSpace(query) && !MarksRight(source, query, lower)
  {
    assert source[..|source|] == source;
    var p := FirstLonger(lower, source, |source|);
    var before, piece := lower(source[..p]), lower(source[p..p + 1]);
    query := before + [piece[0]];
    QueryInFront(lower, source, p, before, piece, query);
    QueryTrimmed(lower, source, p, before, piece, query);
    MissedAtStart(source, query, lower);
  }

  /**
   * On trimmed texts the marks are around the first match for every query that
   * keeps its length, exactly when lower case keeps the length of the source.
   */
  lemma MarksRightIffSourceKeepsLength(source: string, lower: string -> string)
    requires LowerCaseOf(lower, source) && NoOuterSpace(source)
    ensures (forall wanted :: NoOuterSpace(wanted) ==> MarksRight(source, wanted, lower))
            <==> |lower(source)| == |source|
  {
    assert SplitsAt(lower, source, 0, |source|) && SplitsAt(lower, source, 0, 0);
    assert source[0..|source|] == source && source[..|source|] == source;
    if |lower(source)| == |source| {
      forall wanted ensures MarksRight(source, wanted, lower) {
        var at := FoundAt(source, wanted, lower);
        if at.Some? && |lower(wanted)| == |wanted| {
          MarksFirstIffQueryKeepsLength(source, wanted, lower, at.value);
        }
      }
    } else {
      var query := LongerSourceMisses(source, lower);
    }
  }

  // ---- A source that is missed --------------------------------------------------------------------

  function MapChars(f: char -> string, s: string): string {
    if s == "" then "" else f(s[0]) + MapChars(f, s[1..])
  }

  lemma {:induction false} MapCharsAppend(f: char -> string, a: string, b: string)
    ensures MapChars(f, a + b) == MapChars(f, a) + MapChars(f, b)
  {
    if a == "" {
      assert a + b == b;
    } else {
      var rest := a[1..];
      MapCharsAppend(f, rest, b);
      assert (a + b)[1..] == rest + b && (a + b)[0] == a[0];
      assert MapChars(f, a + b) == f(a[0]) + MapChars(f, rest + b);
      Joined(f(a[0]), MapChars(f, rest), MapChars(f, b));
    }
  }

  lemma {:induction false} MapCharsLength(f: char -> string, s: string)
    requires forall c :: |f(c)| >= 1
    ensures |MapChars(f, s)| >= |s|
  {
    if s != "" {
      MapCharsLength(f, s[1..]);
    }
  }

  lemma MapCharsOne(f: char -> string, c: char)
    ensures MapChars(f, [c]) == f(c)
  {
    assert [c][1..] == "";
  }

  /** ASCII letters, and the dotted capital I, which becomes two characters. */
  function LowerChar(c: char): (r: string)
    ensures |r| >= 1
  {
    if c == '\U{0130}' then ['i', '\U{0307}'] else if 'A' <= c <= 'Z' then [(c as int + 32) as char] else [c]
  }

  function LowerText(s: string): string {
    MapChars(LowerChar, s)
  }

  /** This lower case works through every text. */
  lemma LowerTextWorksThrough(s: string)
    ensures WorksThrough(LowerText, s)
  {
    forall i: nat, j: nat ensures SplitsAt(LowerText, s, i, j) {
      if i <= j <= |s| {
        MapCharsAppend(LowerChar, s[..i], s[i..j]);
        MapCharsLength(LowerChar, s[i..j]);
        assert s[..j] == s[..i] + s[i..j];
      }
    }
  }

  lemma {:induction false} MapCharsStable(f: char -> string, t: string)
    requires forall c :: c in t ==> f(c) == [c]
    ensures MapChars(f, t) == t
  {
    if t != "" {
      MapCharsStable(f, t[1..]);
      assert t == [t[0]] + t[1..];
    }
  }

  lemma {:induction false} LowerTextStable(s: string)
    ensures forall c :: c in LowerText(s) ==> LowerChar(c) == [c]
  {
    if s != "" {
      LowerTextStable(s[1..]);
    }
  }

  /** So it is a lower case in the sense above, on every text. */
  lemma LowerTextIsLowerCase(s: string)
    ensures LowerCaseOf(LowerText, s)
  {
    LowerTextWorksThrough(s);
    LowerTextStable(s);
    var ls := LowerText(s);
    forall k: nat ensures Settled(LowerText, ls, k) {
      if k <= |ls| {
        assert forall c :: c in ls[..k] ==> c in ls;
        MapCharsStable(LowerChar, ls[..k]);
      }
    }
    forall k: nat ensures SpaceFromSpace(LowerText, s, k) {
      if k < |s| {
        assert s[k..k + 1] == [s[k]];
        MapCharsOne(LowerChar, s[k]);
      }
    }
  }

  lemma LowerOfDottedPair(source: string)
    requires source == ['\U{0130}'] + ['A']
    ensures LowerText(source) == ['i', '\U{0307}', 'a'] && LowerText(['A']) == ['a']
  {
    MapCharsAppend(LowerChar, ['\U{0130}'], ['A']);
    MapCharsOne(LowerChar, '\U{0130}');
    MapCharsOne(LowerChar, 'A');
  }

  lemma FoundThird(x: char, y: char, z: char)
    requires x != z && y != z
    ensures FindText([x, y, z], [z]) == Some(2)
  {
    var s := [x, y, z];
    assert s[0..1] == [x] && s[1..2] == [y] && s[2..3] == [z];
    assert !OccursAt(s, [z], 0) && !OccursAt(s, [z], 1) && OccursAt(s, [z], 2);
  }

  lemma {:induction false} EscapeKeeps(s: string)
    requires Inert(s) && '&' !in s
    ensures EscapeHtml(s) == s
  {
    EscapeIsEach(s);
    if s != "" {
      EscapeKeeps(s[1..]);
      EscapeIsEach(s[1..]);
      assert s == [s[0]] + s[1..];
    }
  }

  lemma MarkedAtEnd(source: string)
    requires |source| == 2 && Inert(source) && '&' !in source
    ensures Marked(source, 2, 1) == source + OPEN + CLOSE
  {
    assert Slice(source, 0, 2) == source && Slice(source, 2, 3) == "" && Slice(source, 3, 2) == "";
    EscapeKeeps(source);
    EscapeKeeps("");
    assert source + OPEN + "" + CLOSE + "" == source + OPEN + CLOSE;
  }

  lemma HighlightOfTrimmed(source: string, wanted: string, lower: string -> string)
    requires NoOuterSpace(source) && NoOuterSpace(wanted)
    ensures var at := FoundAt(source, wanted, lower);
            HighlightMatch(Some(source), wanted, lower)
            == if at.None? then None else Some(Marked(source, at.value, |wanted|))
  {
    TrimFixed(source);
    TrimFixed(wanted);
    HighlightIsMarked(Some(source), wanted, lower);
  }

  lemma DottedPairFoundAt(source: string, query: string)
    requires source == ['\U{0130}'] + ['A'] && query == ['A']
    ensures FoundAt(source, query, LowerText) == Some(2)
    ensures MatchesAt(source, 1, query, LowerText) && !MatchesAt(source, 2, query, LowerText)
  {
    LowerOfDottedPair(source);
    FoundThird('i', '\U{0307}', 'a');
    assert Slice(source, 1, 2) == query && Slice(source, 2, 3) == "";
    assert LowerText("") == "";
  }

  /** A query found past the end of the source leaves empty marks there. */
  lemma EmptyMarks(source: string, query: string, lower: string -> string)
    requires FoundAt(source, query, lower) == Some(2) && |source| == 2 && |query| == 1
    requires NoOuterSpace(source) && NoOuterSpace(query) && Inert(source) && '&' !in source
    ensures HighlightMatch(Some(source), query, lower) == Some(source + OPEN + CLOSE)
  {
    HighlightOfTrimmed(source, query, lower);
    MarkedAtEnd(source);
  }

  lemma DottedPairShape(source: string, query: string)
    requires source == ['\U{0130}'] + ['A'] && query == ['A']
    ensures |source| == 2 && |query| == 1
    ensures NoOuterSpace(source) && NoOuterSpace(query) && Inert(source) && '&' !in source
    ensures |LowerText(query)| == |query|
  {
    assert source[0] == '\U{0130}' && source[1] == 'A';
    LowerOfDottedPair(source);
  }

  /** In a dotted capital I followed by A the query A, which is there, leaves empty marks at the end. */
  lemma MarksCanMissTheQuery(source: string, query: string)
    requires source == ['\U{0130}'] + ['A'] && query == ['A']
    ensures MatchesAt(source, 1, query, LowerText)
    ensures HighlightMatch(Some(source), query, LowerText) == Some(source + OPEN + CLOSE)
    ensures !MarksRight(source, query, LowerText)
  {
    DottedPairShape(source, query);
    DottedPairFoundAt(source, query);
    EmptyMarks(source, query, LowerText);
  }
  // ---- Lower case that depends on context ---------------------------------------------------------

  lemma NotFoundInThree(x: char, y: char, z: char, w: char)
    requires x != y && y != w
    ensures FindText([x, y, z], [x, w]).None?
  {
    var text, wanted := [x, y, z], [x, w];
    forall i: nat ensures !OccursAt(text, wanted, i) {
      if i + 2 <= |text| {
        assert text[i..i + 2] == [text[i], text[i + 1]];
      }
    }
  }

  /**
   * Lower case turns a capital sigma at the end of a word into another letter, so
   * a query can end where the text goes on: the text holds the query as it is,
   * and nothing is highlighted.
   */
  lemma SigmaQueryIsMissed(source: string, query: string, lower: string -> string)
    requires source == ['\U{0391}', '\U{03A3}', '\U{0392}'] && query == ['\U{0391}', '\U{03A3}']
    requires lower(source) == ['\U{03B1}', '\U{03C3}', '\U{03B2}'] && lower(query) == ['\U{03B1}', '\U{03C2}']
    ensures query <= source && HighlightMatch(Some(source), query, lower).None?
  {
    NotFoundInThree('\U{03B1}', '\U{03C3}', '\U{03B2}', '\U{03C2}');
    assert NoOuterSpace(source) && NoOuterSpace(query);
    HighlightOfTrimmed(source, query, lower);
  }
}
