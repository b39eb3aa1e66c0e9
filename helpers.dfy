/**
 * The URL identifier extractor. The one regular expression of
 * `getIdFromUrl`,
 *
 *     ^.*(youtu\.be\/|v\/|u\/\w\/|embed\/|watch\?v=|\&v=)([^#\&\?]*).*
 *
 * is written out as explicit scans. The greedy leading `.*` cannot cross a
 * line terminator and backtracks from the end of the first line, so the
 * marker (group 1) is the rightmost one that starts within the first line.
 * Group 2 is then the longest run of characters other than `#`, `&` and `?`
 * after the marker; the trailing `.*` always matches, so it never shortens
 * that run.
 */
module Helpers {
  import opened Wrappers

  /** The character class `\w`. */
  predicate IsWordChar(c: char)
  {
    ('a' <= c <= 'z') || ('A' <= c <= 'Z') || ('0' <= c <= '9') || c == '_'
  }

  /** The characters `.` does not match: the ECMAScript line terminators. */
  predicate IsLineTerminator(c: char)
  {
    c == '\n' || c == '\r' || c == '\U{2028}' || c == '\U{2029}'
  }

  /** The character class `[^#&?]` of group 2. */
  predicate IsIdChar(c: char)
  {
    c != '#' && c != '&' && c != '?'
  }

  /** The literal `lit` occurs in `url` starting at position `p`. */
  predicate LiteralAt(url: string, p: nat, lit: string)
  {
    p + |lit| <= |url| && LiteralFrom(url, p, lit, 0)
  }

  /** The characters of `lit` from index `i` on match those of `url` from `p + i` on, compared one at a time. */
  predicate LiteralFrom(url: string, p: nat, lit: string, i: nat)
    decreases |lit| - i
  {
    i >= |lit| || (p + i < |url| && url[p + i] == lit[i] && LiteralFrom(url, p, lit, i + 1))
  }

  /** Comparing one character at a time is the same as comparing the slice of `url` with `lit`. */
  lemma {:induction false} LiteralFromSlice(url: string, p: nat, lit: string, i: nat)
    requires i <= |lit| && p + |lit| <= |url|
    ensures LiteralFrom(url, p, lit, i) <==> url[p + i..p + |lit|] == lit[i..]
    decreases |lit| - i
  {
    if i < |lit| {
      LiteralFromSlice(url, p, lit, i + 1);
      assert url[p + i..p + |lit|] == [url[p + i]] + url[p + i + 1..p + |lit|];
      assert lit[i..] == [lit[i]] + lit[i + 1..];
    }
  }

  /** `LiteralAt` is slice equality. */
  lemma LiteralAtSlice(url: string, p: nat, lit: string)
    ensures LiteralAt(url, p, lit) <==> p + |lit| <= |url| && url[p..p + |lit|] == lit
  {
    if p + |lit| <= |url| {
      LiteralFromSlice(url, p, lit, 0);
    }
  }

  /** The marker `u/<word-char>/` occurs at position `p`. */
  predicate UserMarkerAt(url: string, p: nat)
  {
    p + 4 <= |url| && url[p] == 'u' && url[p + 1] == '/' && IsWordChar(url[p + 2]) && url[p + 3] == '/'
  }

  /** The number of alternatives of group 1. */
  const AltCount: nat := 6

  /** Alternative `k` of group 1, in the order the pattern lists them, matches at `p`. */
  predicate AltAt(url: string, p: nat, k: nat)
    requires k < AltCount
  {
    match k
    case 0 => LiteralAt(url, p, "youtu.be/")
    case 1 => LiteralAt(url, p, "v/")
    case 2 => UserMarkerAt(url, p)
    case 3 => LiteralAt(url, p, "embed/")
    case 4 => LiteralAt(url, p, "watch?v=")
    case _ => LiteralAt(url, p, "&v=")
  }

  /** The length of alternative `k` of group 1. */
  function AltLen(k: nat): nat
    requires k < AltCount
  {
    match k
    case 0 => 9
    case 1 => 2
    case 2 => 4
    case 3 => 6
    case 4 => 8
    case _ => 3
  }

  /**
   * The length of group 1 when the pattern tries it at position `p`: the
   * first alternative that matches there, or 0 when none does.
   */
  function MarkerLen(url: string, p: nat): (n: nat)
    ensures n == 0 <==> forall k | 0 <= k < AltCount :: !AltAt(url, p, k)
    ensures n != 0 ==> p + n <= |url|
  {
    if AltAt(url, p, 0) then AltLen(0)
    else if AltAt(url, p, 1) then AltLen(1)
    else if AltAt(url, p, 2) then AltLen(2)
    else if AltAt(url, p, 3) then AltLen(3)
    else if AltAt(url, p, 4) then AltLen(4)
    else if AltAt(url, p, 5) then AltLen(5)
    else 0
  }

  /** The first characters of the six markers, in the order of the alternatives. */
  const MarkerStarts: seq<char> := ['y', 'v', 'u', 'e', 'w', '&']

  /** `c` can begin a marker. */
  predicate IsMarkerStart(c: char)
  {
    c in MarkerStarts
  }

  /**
   * The six markers begin with six different characters, so at most one
   * alternative matches at any position, and the marker found there does
   * not depend on the order of the alternatives.
   */
  lemma MarkersExclusive(url: string, p: nat, k: nat)
    requires k < AltCount && AltAt(url, p, k)
    ensures forall j | 0 <= j < AltCount && j != k :: !AltAt(url, p, j)
    ensures MarkerLen(url, p) == AltLen(k)
  {
    assert forall j | 0 <= j < AltCount :: AltAt(url, p, j) ==> p < |url| && url[p] == MarkerStarts[j];
  }

  /** A marker can end at position `i`: every marker ends with `/` or with `v=`. */
  predicate CanEndMarker(url: string, i: nat)
    requires i < |url|
  {
    url[i] == '/' || (url[i] == '=' && 0 < i && url[i - 1] == 'v')
  }

  /** Every marker starts with one of `y v u e w &` and ends, at least one character later, with `/` or `v=`. */
  lemma MarkerShape(url: string, q: nat)
    requires MarkerLen(url, q) != 0
    ensures q < |url| && IsMarkerStart(url[q])
    ensures MarkerLen(url, q) >= 2 && CanEndMarker(url, q + MarkerLen(url, q) - 1)
  {
    var k :| 0 <= k < AltCount && AltAt(url, q, k);
    MarkersExclusive(url, q, k);
    var n := AltLen(k);
    if k != 2 {
      var lit := match k
        case 0 => "youtu.be/" case 1 => "v/" case 3 => "embed/" case 4 => "watch?v=" case _ => "&v=";
      LiteralAtSlice(url, q, lit);
      assert url[q..q + n][n - 2] == lit[n - 2];
      assert url[q..q + n][n - 1] == lit[n - 1];
    }
  }

  /** No marker starts at `q` when `url[q]` cannot begin one, or when no marker can end after it. */
  lemma NoMarkerAt(url: string, q: nat)
    requires q >= |url| || !IsMarkerStart(url[q]) || forall i | q < i < |url| :: !CanEndMarker(url, i)
    ensures MarkerLen(url, q) == 0
  {
    if MarkerLen(url, q) != 0 {
      MarkerShape(url, q);
    }
  }

  /** The end of the first line: the first line terminator, or the end of `url`. */
  function LineEnd(url: string): (e: nat)
    ensures e <= |url|
    ensures forall i | 0 <= i < e :: !IsLineTerminator(url[i])
    ensures e == |url| || IsLineTerminator(url[e])
  {
    LineEndFrom(url, 0)
  }

  function LineEndFrom(url: string, i: nat): (e: nat)
    requires i <= |url|
    ensures i <= e <= |url|
    ensures forall j | i <= j < e :: !IsLineTerminator(url[j])
    ensures e == |url| || IsLineTerminator(url[e])
    decreases |url| - i
  {
    if i == |url| || IsLineTerminator(url[i]) then i else LineEndFrom(url, i + 1)
  }

  /**
   * The backtracking of `^.*`: the largest position `q <= p` where a marker
   * starts, or None when there is none.
   */
  function FindMarker(url: string, p: nat): (r: Option<nat>)
    ensures r.Some? ==> r.value <= p && MarkerLen(url, r.value) != 0
    ensures r.Some? ==> forall q | r.value < q <= p :: MarkerLen(url, q) == 0
    ensures r.None? <==> forall q | 0 <= q <= p :: MarkerLen(url, q) == 0
  {
    if MarkerLen(url, p) != 0 then Some(p)
    else if p == 0 then None
    else FindMarker(url, p - 1)
  }

  /** The greedy `[^#&?]*` started at `s`: the first position at or after `s` holding `#`, `&` or `?`, or the end. */
  function RunEnd(url: string, s: nat): (e: nat)
    requires s <= |url|
    ensures MaximalRun(url, s, e)
    decreases |url| - s
  {
    if s == |url| || !IsIdChar(url[s]) then s else RunEnd(url, s + 1)
  }

  /** `url[s..e]` is a maximal run of identifier characters: the greedy `[^#&?]*` from `s` stops at `e`. */
  predicate MaximalRun(url: string, s: nat, e: nat)
  {
    && s <= e <= |url|
    && (forall i | s <= i < e :: IsIdChar(url[i]))
    && (e == |url| || !IsIdChar(url[e]))
  }

  /** Where a match of the pattern puts its marker (group 1) and its identifier run (group 2). */
  datatype Span = Span(marker: nat, start: nat, end: nat)

  /**
   * Declarative description of the match the pattern finds: a marker in the
   * first line with no marker after it in that line, group 2 starting right
   * after the marker, made only of identifier characters and ending at a
   * `#`, `&`, `?` or the end of `url`.
   */
  ghost predicate IsMatch(url: string, m: Span)
  {
    && m.marker <= LineEnd(url)
    && MarkerLen(url, m.marker) != 0
    && m.start == m.marker + MarkerLen(url, m.marker)
    && MaximalRun(url, m.start, m.end)
    && (forall q | m.marker < q <= LineEnd(url) :: MarkerLen(url, q) == 0)
  }

  /** The match of the pattern against `url`, found by the two scans, or None when the pattern does not match. */
  function Match(url: string): (r: Option<Span>)
    ensures r.Some? ==> IsMatch(url, r.value)
    ensures r.None? <==> forall q | 0 <= q <= LineEnd(url) :: MarkerLen(url, q) == 0
  {
    match FindMarker(url, LineEnd(url))
    case None => None
    case Some(p) =>
      var s := p + MarkerLen(url, p);
      Some(Span(p, s, RunEnd(url, s)))
  }

  /** Only one marker position can be the rightmost one up to `hi`. */
  lemma LastMarkerUnique(url: string, hi: nat, a: nat, b: nat)
    requires a <= hi && MarkerLen(url, a) != 0 && forall q | a < q <= hi :: MarkerLen(url, q) == 0
    requires b <= hi && MarkerLen(url, b) != 0 && forall q | b < q <= hi :: MarkerLen(url, q) == 0
    ensures a == b
  {
  }

  /** A maximal run of identifier characters from `s` has only one possible end. */
  lemma RunUnique(url: string, s: nat, e1: nat, e2: nat)
    requires MaximalRun(url, s, e1) && MaximalRun(url, s, e2)
    ensures e1 == e2
  {
  }

  /** The match is unique: any span meeting the declarative description is the one the scans find. */
  lemma MatchUnique(url: string, m: Span)
    requires IsMatch(url, m)
    ensures Match(url) == Some(m)
  {
    assert Match(url).Some?;
    var n := Match(url).value;
    LastMarkerUnique(url, LineEnd(url), n.marker, m.marker);
    RunUnique(url, n.start, n.end, m.end);
    assert n.start == m.start;
    assert n == Span(m.marker, m.start, m.end);
  }

  /** The identifier of `url`: group 2 of the match when it has exactly 11 characters, otherwise None. */
  function GetIdFromUrl(url: string): (id: Option<string>)
    ensures id.Some? ==> |id.value| == 11
    ensures id.Some? ==> forall i | 0 <= i < |id.value| :: IsIdChar(id.value[i])
    ensures id.Some? <==> Match(url).Some? && Match(url).value.end - Match(url).value.start == 11
    ensures id.Some? ==> id.value == url[Match(url).value.start..Match(url).value.end]
  {
    match Match(url)
    case Some(m) =>
      if m.end - m.start == 11 then Some(url[m.start..m.end]) else None
    case None => None
  }

  /** A url with no marker in its first line has no identifier. */
  lemma NoMarkerNoId(url: string)
    requires forall q | 0 <= q <= LineEnd(url) :: MarkerLen(url, q) == 0
    ensures GetIdFromUrl(url) == None
  {
  }

  /**
   * The identifier sits right after the rightmost marker `p` of the first
   * line: it is the 11 characters from `s`, the end of that marker, when they
   * form a maximal run; any run of another length yields None.
   */
  lemma IdFollowsMarker(url: string, p: nat, s: nat)
    requires p <= LineEnd(url) && MarkerLen(url, p) != 0 && s == p + MarkerLen(url, p)
    requires forall q | p < q <= LineEnd(url) :: MarkerLen(url, q) == 0
    ensures MaximalRun(url, s, s + 11) ==> GetIdFromUrl(url) == Some(url[s..s + 11])
    ensures !MaximalRun(url, s, s + 11) ==> GetIdFromUrl(url) == None
  {
    MatchUnique(url, Span(p, s, RunEnd(url, s)));
  }

  /** A url in which no marker can end (no `/` and no `v=`) has no identifier. */
  lemma NoMarkerEndNoId(url: string)
    requires forall i | 0 <= i < |url| :: !CanEndMarker(url, i)
    ensures GetIdFromUrl(url) == None
  {
    forall q | 0 <= q <= LineEnd(url)
      ensures MarkerLen(url, q) == 0
    {
      NoMarkerAt(url, q);
    }
  }

  /** The characters identifiers are made of: `\w` and `-`. */
  predicate IsIdAlphabet(c: char)
  {
    IsWordChar(c) || c == '-'
  }

  /** No marker starts at or after `b` when only identifier characters follow `b`. */
  lemma NoMarkerInIdTail(url: string, b: nat)
    requires forall i | b < i < |url| :: IsIdAlphabet(url[i])
    ensures forall q | b <= q <= |url| :: MarkerLen(url, q) == 0
  {
    forall q | b <= q <= |url|
      ensures MarkerLen(url, q) == 0
    {
      NoMarkerAt(url, q);
    }
  }

  /** The short-link form: `https://youtu.be/<id>` yields `<id>` (for instance `dQw4w9WgXcQ`). */
  lemma ExampleShortLink(id: string)
    requires |id| == 11 && forall i | 0 <= i < |id| :: IsIdAlphabet(id[i])
    ensures GetIdFromUrl("https://youtu.be/" + id) == Some(id)
  {
    var url := "https://youtu.be/" + id;
    assert forall i | 0 <= i < |url| :: !IsLineTerminator(url[i]);
    LiteralAtSlice(url, 8, "youtu.be/");
    assert MarkerLen(url, 10) == MarkerLen(url, 12) == MarkerLen(url, 15) == 0;
    forall q | 8 < q < 16 && q != 10 && q != 12 && q != 15
      ensures MarkerLen(url, q) == 0
    {
      NoMarkerAt(url, q);
    }
    NoMarkerInIdTail(url, 16);
    assert MaximalRun(url, 17, 28) && url[17..28] == id;
    IdFollowsMarker(url, 8, 17);
  }

  /** The `watch?v=` form: `https://www.youtube.com/watch?v=<id>` yields `<id>`. */
  lemma ExampleWatch(id: string)
    requires |id| == 11 && forall i | 0 <= i < |id| :: IsIdAlphabet(id[i])
    ensures GetIdFromUrl("https://www.youtube.com/watch?v=" + id) == Some(id)
  {
    var url := "https://www.youtube.com/watch?v=" + id;
    assert forall i | 0 <= i < |url| :: !IsLineTerminator(url[i]);
    LiteralAtSlice(url, 24, "watch?v=");
    assert MarkerLen(url, 30) == 0;
    forall q | 24 < q < 31 && q != 30
      ensures MarkerLen(url, q) == 0
    {
      NoMarkerAt(url, q);
    }
    NoMarkerInIdTail(url, 31);
    assert MaximalRun(url, 32, 43) && url[32..43] == id;
    IdFollowsMarker(url, 24, 32);
  }

  /** The run stops at `&`: `watch?v=<id>&t=1` yields `<id>`. */
  lemma ExampleWatchWithTime(id: string)
    requires |id| == 11 && forall i | 0 <= i < |id| :: IsIdAlphabet(id[i])
    ensures GetIdFromUrl("watch?v=" + id + "&t=1") == Some(id)
  {
    var url := "watch?v=" + id + "&t=1";
    assert forall i | 0 <= i < |url| :: !IsLineTerminator(url[i]);
    LiteralAtSlice(url, 0, "watch?v=");
    assert MarkerLen(url, 6) == MarkerLen(url, 19) == 0;
    forall q | 0 < q < 8 && q != 6
      ensures MarkerLen(url, q) == 0
    {
      NoMarkerAt(url, q);
    }
    assert forall i | 7 < i < |url| :: !CanEndMarker(url, i);
    forall q | 7 <= q <= |url| && q != 19
      ensures MarkerLen(url, q) == 0
    {
      NoMarkerAt(url, q);
    }
    assert MaximalRun(url, 8, 19) && url[8..19] == id;
    IdFollowsMarker(url, 0, 8);
  }

  /** A url without a marker: `https://example.com/<path>` (for instance `not-a-video`) has no identifier. */
  lemma ExampleNotAVideo(path: string)
    requires forall i | 0 <= i < |path| :: IsIdAlphabet(path[i])
    ensures GetIdFromUrl("https://example.com/" + path) == None
  {
    var url := "https://example.com/" + path;
    assert forall q | 0 <= q < 20 :: url[q] == "https://example.com/"[q];
    assert MarkerLen(url, 8) == MarkerLen(url, 14) == 0;
    forall q | 0 <= q < 19 && q != 8 && q != 14
      ensures MarkerLen(url, q) == 0
    {
      NoMarkerAt(url, q);
    }
    NoMarkerInIdTail(url, 19);
  }

  /** A string too short to hold an identifier. */
  lemma ExampleShort()
    ensures GetIdFromUrl("short") == None
  {
  }
}
