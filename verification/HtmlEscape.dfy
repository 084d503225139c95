/**
 * escapeHtml, five global replacements in order, and highlightMatch, which
 * puts mark tags around the escaped match
 * (apps/portal/src/lib/api-client.ts:4850-4880).
 */
module HtmlEscape {
  import opened Options
  import opened Text

  const AMP := "&amp;"
  const LT := "&lt;"
  const GT := "&gt;"
  const QUOT := "&quot;"
  const APOS := "&#39;"

  function EscapeHtml(value: string): string {
    var s1 := ReplaceAll(value, '&', AMP);
    var s2 := ReplaceAll(s1, '<', LT);
    var s3 := ReplaceAll(s2, '>', GT);
    var s4 := ReplaceAll(s3, '"', QUOT);
    ReplaceAll(s4, '\'', APOS)
  }

  /** The meaning of the five replacements on one character. */
  function EscapeChar(c: char): string {
    if c == '&' then "&amp;"
    else if c == '<' then "&lt;"
    else if c == '>' then "&gt;"
    else if c == '"' then "&quot;"
    else if c == '\'' then "&#39;"
    else [c]
  }

  function EscapeEach(s: string): string {
    if s == "" then "" else EscapeChar(s[0]) + EscapeEach(s[1..])
  }

  lemma {:induction false} ReplaceAppend(a: string, b: string, c: char, t: string)
    ensures ReplaceAll(a + b, c, t) == ReplaceAll(a, c, t) + ReplaceAll(b, c, t)
  {
    if a == "" {
      assert a + b == b;
    } else {
      var rest := a[1..];
      ReplaceAppend(rest, b, c, t);
      assert (a + b)[1..] == rest + b && (a + b)[0] == a[0];
      var piece := if a[0] == c then t else [a[0]];
      assert ReplaceAll(a, c, t) == piece + ReplaceAll(rest, c, t);
      assert ReplaceAll(a + b, c, t) == piece + ReplaceAll(rest + b, c, t);
      Joined(piece, ReplaceAll(rest, c, t), ReplaceAll(b, c, t));
    }
  }

  lemma Joined(x: string, y: string, z: string)
    ensures x + (y + z) == x + y + z
  {
  }

  lemma {:induction false} ReplaceAbsent(s: string, c: char, t: string)
    requires c !in s
    ensures ReplaceAll(s, c, t) == s
  {
    if s != "" {
      assert s == [s[0]] + s[1..];
      ReplaceAbsent(s[1..], c, t);
    }
  }

  lemma ReplaceChar(c: char, d: char, t: string)
    ensures ReplaceAll([d], c, t) == if d == c then t else [d]
  {
    assert [d][1..] == "";
  }

  /** Escaping distributes over concatenation. */
  lemma EscapeAppend(a: string, b: string)
    ensures EscapeHtml(a + b) == EscapeHtml(a) + EscapeHtml(b)
  {
    var a1, b1 := ReplaceAll(a, '&', AMP), ReplaceAll(b, '&', AMP);
    var a2, b2 := ReplaceAll(a1, '<', LT), ReplaceAll(b1, '<', LT);
    var a3, b3 := ReplaceAll(a2, '>', GT), ReplaceAll(b2, '>', GT);
    var a4, b4 := ReplaceAll(a3, '"', QUOT), ReplaceAll(b3, '"', QUOT);
    ReplaceAppend(a, b, '&', AMP);
    ReplaceAppend(a1, b1, '<', LT);
    ReplaceAppend(a2, b2, '>', GT);
    ReplaceAppend(a3, b3, '"', QUOT);
    ReplaceAppend(a4, b4, '\'', APOS);
  }

  predicate Inert(s: string) {
    '<' !in s && '>' !in s && '"' !in s && '\'' !in s
  }

  /** Later replacements leave an entity that an earlier one wrote alone. */
  lemma TextKept(e: string)
    requires Inert(e)
    ensures ReplaceAll(e, '<', LT) == e && ReplaceAll(e, '>', GT) == e
    ensures ReplaceAll(e, '"', QUOT) == e && ReplaceAll(e, '\'', APOS) == e
  {
    ReplaceAbsent(e, '<', LT);
    ReplaceAbsent(e, '>', GT);
    ReplaceAbsent(e, '"', QUOT);
    ReplaceAbsent(e, '\'', APOS);
  }

  lemma CharIsInert(c: char)
    ensures Inert(EscapeChar(c))
  {
  }

  lemma EscapeOne(c: char)
    ensures EscapeHtml([c]) == EscapeChar(c)
  {
    CharIsInert(c);
    TextKept(EscapeChar(c));
    ReplaceChar('&', c, AMP);
    ReplaceChar('<', c, LT);
    ReplaceChar('>', c, GT);
    ReplaceChar('"', c, QUOT);
    ReplaceChar('\'', c, APOS);
  }

  /** The ordered replacements are one map over the characters. */
  lemma {:induction false} EscapeIsEach(s: string)
    ensures EscapeHtml(s) == EscapeEach(s)
  {
    if s != "" {
      EscapeIsEach(s[1..]);
      EscapeOne(s[0]);
      EscapeAppend([s[0]], s[1..]);
      assert [s[0]] + s[1..] == s;
    }
  }

  // ---- Reading back ---------------------------------------------------------------------------

  function Unescape(s: string): string
    decreases |s|
  {
    if s == "" then ""
    else if StartsWith(s, "&amp;") then ['&'] + Unescape(s[5..])
    else if StartsWith(s, "&lt;") then ['<'] + Unescape(s[4..])
    else if StartsWith(s, "&gt;") then ['>'] + Unescape(s[4..])
    else if StartsWith(s, "&quot;") then ['"'] + Unescape(s[6..])
    else if StartsWith(s, "&#39;") then ['\''] + Unescape(s[5..])
    else [s[0]] + Unescape(s[1..])
  }

  lemma UnescapeOne(c: char, rest: string)
    ensures Unescape(EscapeChar(c) + rest) == [c] + Unescape(rest)
  {
    var e := EscapeChar(c);
    var s := e + rest;
    assert s[|e|..] == rest && StartsWith(s, e);
    if |e| > 1 {
      assert s[1] == e[1];
      OtherEntity(s, "&amp;", 'a');
      OtherEntity(s, "&lt;", 'l');
      OtherEntity(s, "&gt;", 'g');
      OtherEntity(s, "&quot;", 'q');
      OtherEntity(s, "&#39;", '#');
    } else {
      assert s[0] == c != '&';
    }
  }

  /** The second character tells the entities apart. */
  lemma OtherEntity(s: string, entity: string, second: char)
    requires |s| > 1 && |entity| > 1 && entity[1] == second
    ensures s[1] != second ==> !StartsWith(s, entity)
  {
  }

  /** Nothing is lost: the original text can be read back, so escaping is injective. */
  lemma {:induction false} UnescapeOfEscape(s: string)
    ensures Unescape(EscapeHtml(s)) == s
  {
    EscapeIsEach(s);
    if s != "" {
      UnescapeOfEscape(s[1..]);
      EscapeIsEach(s[1..]);
      UnescapeOne(s[0], EscapeEach(s[1..]));
      assert [s[0]] + s[1..] == s;
    }
  }

  lemma EscapeInjective(a: string, b: string)
    ensures EscapeHtml(a) == EscapeHtml(b) <==> a == b
  {
    UnescapeOfEscape(a);
    UnescapeOfEscape(b);
  }

  /** Escaped text holds no character that opens a tag or closes an attribute. */
  lemma {:induction false} EscapedIsInert(s: string)
    ensures Inert(EscapeHtml(s))
  {
    EscapeIsEach(s);
    if s != "" {
      EscapedIsInert(s[1..]);
      EscapeIsEach(s[1..]);
      CharIsInert(s[0]);
    }
  }

  // ---- highlightMatch ---------------------------------------------------------------------------

  function Min(a: nat, b: nat): nat {
    if a < b then a else b
  }

  /** s.slice(start, end) for positions that are not negative. */
  function Slice(s: string, start: nat, end: nat): string {
    if start >= |s| || end <= start then "" else s[start..Min(end, |s|)]
  }

  predicate OccursAt(s: string, t: string, i: nat) {
    i + |t| <= |s| && s[i..i + |t|] == t
  }

  /** s.indexOf(t) */
  function FindText(s: string, t: string): (at: Option<nat>)
    ensures at.Some? ==> OccursAt(s, t, at.value) && forall i: nat :: i < at.value ==> !OccursAt(s, t, i)
    ensures at.None? ==> forall i: nat :: !OccursAt(s, t, i)
  {
    FindFrom(s, t, 0)
  }

  function FindFrom(s: string, t: string, from: nat): (at: Option<nat>)
    ensures at.Some? ==> from <= at.value && OccursAt(s, t, at.value)
    ensures at.Some? ==> forall i: nat :: from <= i < at.value ==> !OccursAt(s, t, i)
    ensures at.None? ==> forall i: nat :: from <= i ==> !OccursAt(s, t, i)
    decreases |s| - from
  {
    if from + |t| > |s| then None
    else if OccursAt(s, t, from) then Some(from)
    else FindFrom(s, t, from + 1)
  }

  const OPEN := "<mark>"

  const CLOSE := "</mark>"

  /** The escaped source with marks around `n` characters from position i. */
  function Marked(source: string, i: nat, n: nat): string {
    EscapeHtml(Slice(source, 0, i)) + OPEN + EscapeHtml(Slice(source, i, i + n)) + CLOSE
    + EscapeHtml(Slice(source, i + n, |source|))
  }

  /** toLowerCase may change the length of a text, so the position found need not fit the source. */
  function HighlightMatch(value: Option<string>, query: string, lower: string -> string): Option<string> {
    var source := if value.None? then "" else Trim(value.value);
    var wanted := Trim(query);
    if source == "" || wanted == "" then None
    else
      var index := FindText(lower(source), lower(wanted));
      if index.None? then None
      else Some(Marked(source, index.value, |wanted|))
  }

  function StripMarks(s: string): string {
    if s == "" then ""
    else if StartsWith(s, "<mark>") then StripMarks(s[6..])
    else if StartsWith(s, "</mark>") then StripMarks(s[7..])
    else [s[0]] + StripMarks(s[1..])
  }

  lemma StripPlain(c: char, rest: string)
    requires c != '<'
    ensures StripMarks([c] + rest) == [c] + StripMarks(rest)
  {
    var s := [c] + rest;
    assert s[1..] == rest;
    assert |s| >= 6 ==> s[..6][0] == c;
    assert |s| >= 7 ==> s[..7][0] == c;
    assert OPEN[0] == '<' && CLOSE[0] == '<';
  }

  lemma {:induction false} StripInert(a: string, rest: string)
    requires '<' !in a
    ensures StripMarks(a + rest) == a + StripMarks(rest)
  {
    if a == "" {
      assert a + rest == rest;
    } else {
      var c, tail := a[0], a[1..];
      assert a == [c] + tail;
      assert '<' !in tail && c != '<';
      StripInert(tail, rest);
      StripOneMore(c, tail, rest);
    }
  }

  lemma StripOneMore(c: char, tail: string, rest: string)
    requires c != '<' && StripMarks(tail + rest) == tail + StripMarks(rest)
    ensures StripMarks([c] + tail + rest) == [c] + tail + StripMarks(rest)
  {
    StripPlain(c, tail + rest);
    Joined([c], tail, rest);
    Joined([c], tail, StripMarks(rest));
  }

  lemma StripTag(rest: string)
    ensures StripMarks(OPEN + rest) == StripMarks(rest)
    ensures StripMarks(CLOSE + rest) == StripMarks(rest)
  {
    assert (OPEN + rest)[..6] == OPEN && (OPEN + rest)[6..] == rest;
    assert (CLOSE + rest)[..7] == CLOSE && (CLOSE + rest)[7..] == rest;
    assert CLOSE[1] != OPEN[1];
    assert (CLOSE + rest)[..6][1] == CLOSE[1];
  }

  lemma SlicesCover(s: string, i: nat, n: nat)
    ensures Slice(s, 0, i) + Slice(s, i, i + n) + Slice(s, i + n, |s|) == s
  {
    var k, l := Min(i, |s|), Min(i + n, |s|);
    assert Slice(s, 0, i) == s[..k] && Slice(s, i, i + n) == s[k..l] && Slice(s, i + n, |s|) == s[l..];
  }

  lemma MarkedWithoutMarks(source: string, i: nat, n: nat)
    ensures StripMarks(Marked(source, i, n)) == EscapeHtml(source)
  {
    var before, marked, after := Slice(source, 0, i), Slice(source, i, i + n), Slice(source, i + n, |source|);
    EscapedIsInert(before);
    EscapedIsInert(marked);
    EscapedIsInert(after);
    MarksRemoved(EscapeHtml(before), EscapeHtml(marked), EscapeHtml(after));
    SlicesCover(source, i, n);
    EscapeAppend(before, marked);
    EscapeAppend(before + marked, after);
  }

  /** Whatever toLowerCase does, a highlight without its marks is the escaped source. */
  lemma HighlightWithoutMarks(value: Option<string>, query: string, lower: string -> string)
    ensures var h := HighlightMatch(value, query, lower);
            h.Some? ==> value.Some? && StripMarks(h.value) == EscapeHtml(Trim(value.value))
  {
    if HighlightMatch(value, query, lower).Some? {
      var source, wanted := Trim(value.value), Trim(query);
      var i := FindText(lower(source), lower(wanted)).value;
      MarkedWithoutMarks(source, i, |wanted|);
    }
  }

  lemma MarksRemoved(b: string, m: string, a: string)
    requires '<' !in b && '<' !in m && '<' !in a
    ensures StripMarks(b + OPEN + m + CLOSE + a) == b + m + a
  {
    TagRemoved(b, OPEN, m + (CLOSE + a));
    TagRemoved(m, CLOSE, a);
    NothingToStrip(a);
    Nested(b, OPEN, m, CLOSE, a);
  }

  lemma NothingToStrip(a: string)
    requires '<' !in a
    ensures StripMarks(a) == a
  {
    StripInert(a, "");
    assert a + "" == a;
  }

  lemma Nested(b: string, x: string, m: string, y: string, a: string)
    ensures b + x + m + y + a == b + (x + (m + (y + a))) && b + (m + a) == b + m + a
  {
  }

  lemma TagRemoved(b: string, tag: string, rest: string)
    requires '<' !in b && (tag == OPEN || tag == CLOSE)
    ensures StripMarks(b + (tag + rest)) == b + StripMarks(rest)
  {
    StripInert(b, tag + rest);
    StripTag(rest);
  }
}
