/**
 * One attempt of the block pattern of lib/index.js:58-62 at a given index, written out as an
 * explicit matcher over literal marker texts:
 *
 *   (\n?)([\t ]*) prefix [\t ]*? start [\t ]*? suffix ([\s\S]*?)? prefix [\t ]*? end [\t ]*? suffix ([\t ]*)(\n?)
 *
 * Under ValidMarkers (tokens do not begin or end with a space or a tab, no line feed, start and
 * end non-empty) every backtracking choice of the pattern is forced, which is what the functions
 * below compute.
 */
module Matcher {
  import opened Wrappers
  import opened Strings

  /** The literal texts the escaped tokens of a block stand for. */
  datatype Markers = Markers(prefix: string, start: string, end: string, suffix: string)

  predicate ValidToken(t: string) {
    (forall i :: 0 <= i < |t| ==> t[i] != '\n' && t[i] != '|') &&
    (|t| > 0 ==> !IsSpace(t[0]) && !IsSpace(t[|t| - 1]))
  }

  predicate ValidMarkers(mk: Markers) {
    |mk.start| > 0 && |mk.end| > 0 &&
    ValidToken(mk.prefix) && ValidToken(mk.start) && ValidToken(mk.end) && ValidToken(mk.suffix)
  }

  /** The five capture groups handed to the replacer callback (line 65). */
  datatype Found = Found(preline: string, prespace: string, marked: string, postspace: string, endline: string)

  /**
   * A match of the pattern: its captures and the indices where it begins, where its opening
   * marker begins and ends, where its closing marker begins and ends, and where it stops.
   */
  datatype Match = Match(found: Found, at: nat, openAt: nat, openEnd: nat, closeAt: nat, closeEnd: nat, stop: nat)

  /** A line break capture: empty or one line feed. */
  predicate IsLineCapture(s: string) {
    s == "" || s == "\n"
  }

  /** The capture shapes guaranteed by `(\n?)`, `([\t ]*)`, `([\t ]*)` and `(\n?)`. */
  predicate WellFormedFound(f: Found) {
    IsLineCapture(f.preline) && AllSpace(f.prespace) && AllSpace(f.postspace) && IsLineCapture(f.endline)
  }

  /** The end of the maximal run of spaces and tabs that starts at `i`. */
  function SpaceRun(s: string, i: nat): (j: nat)
    requires i <= |s|
    ensures i <= j <= |s|
    ensures AllSpace(s[i..j])
    ensures j < |s| ==> !IsSpace(s[j])
    decreases |s| - i
  {
    if i < |s| && IsSpace(s[i]) then
      SpaceRun(s, i + 1)
    else i
  }

  /** A run of spaces and tabs that ends before a character of another kind is the run `SpaceRun` takes. */
  lemma {:induction false} SpaceRunStops(s: string, i: nat, j: nat)
    requires i <= j <= |s| && AllSpace(s[i..j]) && (j < |s| ==> !IsSpace(s[j]))
    ensures SpaceRun(s, i) == j
    decreases j - i
  {
    if i < j {
      assert IsSpace(s[i..j][0]);
      assert s[i + 1..j] == s[i..j][1..];
      SpaceRunStops(s, i + 1, j);
    }
  }

  /**
   * The end of a marker `prefix [\t ]*? token [\t ]*? suffix` that begins at `i`, if one does.
   * The space run before the token is the maximal one (the token does not begin with a space);
   * the one before a non-empty suffix is maximal for the same reason, and before an empty suffix
   * the lazy quantifier takes nothing.
   */
  function MarkerEnd(s: string, i: nat, prefix: string, token: string, suffix: string): (e: Option<nat>)
    requires i <= |s|
    ensures e.Some? ==> i + |prefix| + |token| + |suffix| <= e.value <= |s|
  {
    if !StartsWith(s, i, prefix) then None
    else
      var j := SpaceRun(s, i + |prefix|);
      if !StartsWith(s, j, token) then None
      else if suffix == "" then Some(j + |token|)
      else
        var l := SpaceRun(s, j + |token|);
        if StartsWith(s, l, suffix) then Some(l + |suffix|) else None
  }

  lemma MarkerEndShape(s: string, i: nat, prefix: string, token: string, suffix: string)
    requires i <= |s| && MarkerEnd(s, i, prefix, token, suffix).Some?
    ensures StartsWith(s, i, prefix) && StartsWith(s, SpaceRun(s, i + |prefix|), token)
    ensures StartsWith(s, MarkerEnd(s, i, prefix, token, suffix).value - |suffix|, suffix)
  {
  }

  predicate IsOpening(s: string, i: nat, mk: Markers)
    requires i <= |s|
  {
    MarkerEnd(s, i, mk.prefix, mk.start, mk.suffix).Some?
  }

  predicate IsClosing(s: string, i: nat, mk: Markers)
    requires i <= |s|
  {
    MarkerEnd(s, i, mk.prefix, mk.end, mk.suffix).Some?
  }

  /** The first index at or after `from` where a closing marker begins. */
  function FirstClosing(s: string, from: nat, mk: Markers): (c: Option<nat>)
    requires from <= |s|
    ensures c.Some? ==> from <= c.value <= |s| && IsClosing(s, c.value, mk)
    ensures c.Some? ==> forall k :: from <= k < c.value ==> !IsClosing(s, k, mk)
    ensures c.None? ==> forall k :: from <= k <= |s| ==> !IsClosing(s, k, mk)
    decreases |s| - from
  {
    if IsClosing(s, from, mk) then Some(from)
    else if from == |s| then None
    else FirstClosing(s, from + 1, mk)
  }

  /**
   * Where the non-greedy `([\s\S]*?)` stops: at the nearest closing marker, so that `marked` is
   * the shortest text between the opening marker and a closing marker.
   */
  function ClosingAfter(s: string, openEnd: nat, mk: Markers): (c: Option<nat>)
    requires openEnd <= |s|
    ensures c.Some? ==> openEnd <= c.value <= |s| && IsClosing(s, c.value, mk)
    ensures c.Some? ==> forall k :: openEnd <= k < c.value ==> !IsClosing(s, k, mk)
    ensures c.None? ==> forall k :: openEnd <= k <= |s| ==> !IsClosing(s, k, mk)
  {
    FirstClosing(s, openEnd, mk)
  }

  /**
   * Where `([\s\S]*?)?` as JavaScript evaluates it stops: an optional group may not match the
   * empty string, so a non-empty `marked` is preferred and the closing marker directly at the
   * end of the opening marker is taken only when no later closing marker exists.
   */
  function ClosingAfterAsWritten(s: string, openEnd: nat, mk: Markers): (c: Option<nat>)
    requires openEnd <= |s|
    ensures c.Some? ==> openEnd <= c.value <= |s| && IsClosing(s, c.value, mk)
    ensures c.Some? && c.value > openEnd ==> forall k :: openEnd < k < c.value ==> !IsClosing(s, k, mk)
    ensures c == Some(openEnd) ==> forall k :: openEnd < k <= |s| ==> !IsClosing(s, k, mk)
    ensures c.None? ==> forall k :: openEnd <= k <= |s| ==> !IsClosing(s, k, mk)
  {
    var later := if openEnd < |s| then FirstClosing(s, openEnd + 1, mk) else None;
    if later.Some? then later
    else if IsClosing(s, openEnd, mk) then Some(openEnd)
    else None
  }

  /** The line feed consumed by `(\n?)` at `i`, if there is one. */
  function LineFeedEnd(s: string, i: nat): (j: nat)
    requires i <= |s|
    ensures j == i || (j == i + 1 <= |s| && s[i] == '\n')
    ensures IsLineCapture(s[i..j])
    ensures i < |s| && s[i] == '\n' ==> j == i + 1
  {
    if i < |s| && s[i] == '\n' then i + 1 else i
  }

  /** The match of the whole pattern once the opening and closing markers are located. */
  function Assemble(s: string, p: nat, q: nat, r: nat, e1: nat, c: nat, mk: Markers): (m: Match)
    requires p <= |s| && q == LineFeedEnd(s, p) && r == SpaceRun(s, q)
    requires MarkerEnd(s, r, mk.prefix, mk.start, mk.suffix) == Some(e1)
    requires e1 <= c <= |s| && IsClosing(s, c, mk)
    ensures e1 <= m.stop <= |s| && m.at == p && m.openAt == r && m.openEnd == e1 && m.closeAt == c
    ensures Some(m.closeEnd) == MarkerEnd(s, c, mk.prefix, mk.end, mk.suffix) && m.closeEnd <= m.stop
  {
    var e2 := MarkerEnd(s, c, mk.prefix, mk.end, mk.suffix).value;
    var f := SpaceRun(s, e2);
    var g := LineFeedEnd(s, f);
    Match(Found(s[p..q], s[q..r], s[e1..c], s[e2..f], s[f..g]), p, r, e1, c, e2, g)
  }

  lemma AssembleShape(s: string, p: nat, q: nat, r: nat, e1: nat, c: nat, mk: Markers)
    requires p <= |s| && q == LineFeedEnd(s, p) && r == SpaceRun(s, q)
    requires MarkerEnd(s, r, mk.prefix, mk.start, mk.suffix) == Some(e1)
    requires e1 <= c <= |s| && IsClosing(s, c, mk)
    ensures MatchShape(s, p, Assemble(s, p, q, r, e1, c, mk), mk)
  {
    var m := Assemble(s, p, q, r, e1, c, mk);
    assert MatchMarkers(s, p, m, mk);
    AssembleBefore(s, p, q, r, m);
    AssembleAfter(s, m.closeEnd, SpaceRun(s, m.closeEnd), m);
  }

  lemma AssembleBefore(s: string, p: nat, q: nat, r: nat, m: Match)
    requires p <= |s| && q == LineFeedEnd(s, p) && r == SpaceRun(s, q)
    requires m.openAt == r && m.found.preline == s[p..q] && m.found.prespace == s[q..r]
    ensures CapturesBefore(s, p, m)
  {
    assert s[p..r] == s[p..q] + s[q..r];
  }

  lemma AssembleAfter(s: string, e2: nat, f: nat, m: Match)
    requires e2 <= |s| && f == SpaceRun(s, e2) && m.closeEnd == e2 && m.stop == LineFeedEnd(s, f)
    requires m.found.postspace == s[e2..f] && m.found.endline == s[f..m.stop]
    ensures CapturesAfter(s, m)
  {
    assert s[e2..m.stop] == s[e2..f] + s[f..m.stop];
  }

  /** The result of trying the pattern at index `p`, with `marked` the shortest possible. */
  function MatchAt(s: string, p: nat, mk: Markers): (m: Option<Match>)
    requires p <= |s|
    ensures m.Some? && |mk.start| > 0 ==> p < m.value.stop <= |s|
  {
    var q := LineFeedEnd(s, p);
    var r := SpaceRun(s, q);
    match MarkerEnd(s, r, mk.prefix, mk.start, mk.suffix)
    case None => None
    case Some(e1) =>
      match ClosingAfter(s, e1, mk)
      case None => None
      case Some(c) => Some(Assemble(s, p, q, r, e1, c, mk))
  }

  /**
   * A match has the shape of the pattern, and its marked text contains no closing marker:
   * the match ends at the first closing marker after its opening marker.
   */
  lemma MatchAtShape(s: string, p: nat, mk: Markers)
    requires p <= |s| && MatchAt(s, p, mk).Some?
    ensures MatchShape(s, p, MatchAt(s, p, mk).value, mk)
    ensures var m := MatchAt(s, p, mk).value;
            forall k :: m.openEnd <= k < m.closeAt ==> !IsClosing(s, k, mk)
  {
    var q := LineFeedEnd(s, p);
    var r := SpaceRun(s, q);
    var e1 := MarkerEnd(s, r, mk.prefix, mk.start, mk.suffix).value;
    var c := ClosingAfter(s, e1, mk).value;
    AssembleShape(s, p, q, r, e1, c, mk);
  }

  /**
   * A marker written as the prefix, a run of spaces, the token, a run of spaces and the suffix
   * is found, whatever the length of the runs (the run before an empty suffix is empty, since
   * the lazy `[\t ]*?` there takes nothing).
   */
  lemma {:induction false} MarkerFound(s: string, i: nat, prefix: string, a: string, token: string, c: string, suffix: string)
    requires ValidToken(token) && |token| > 0 && ValidToken(suffix)
    requires AllSpace(a) && AllSpace(c) && (suffix == "" ==> c == "")
    requires StartsWith(s, i, prefix + a + token + c + suffix)
    ensures MarkerEnd(s, i, prefix, token, suffix) == Some(i + |prefix| + |a| + |token| + |c| + |suffix|)
  {
    var j0 := i + |prefix|;
    var j := j0 + |a|;
    var l0 := j + |token|;
    var l := l0 + |c|;
    StartsWithParts(s, i, prefix, a, token, c, suffix, j0, j, l0, l);
    StartsWithIndex(s, j, token, 0);
    SpaceRunStops(s, j0, j);
    if suffix != "" {
      StartsWithIndex(s, l, suffix, 0);
      SpaceRunStops(s, l0, l);
      MarkerEndSteps(s, i, prefix, token, suffix, j, l);
    }
  }

  /** MarkerEnd once the end of each space run is known. */
  lemma MarkerEndSteps(s: string, i: nat, prefix: string, token: string, suffix: string, j: nat, l: nat)
    requires StartsWith(s, i, prefix) && SpaceRun(s, i + |prefix|) == j && StartsWith(s, j, token)
    requires suffix != "" && SpaceRun(s, j + |token|) == l && StartsWith(s, l, suffix)
    ensures MarkerEnd(s, i, prefix, token, suffix) == Some(l + |suffix|)
  {
  }

  /**
   * With an opening marker right after the leading line feed and run of spaces, a closing marker
   * at `k` and none between them, the pattern matches at `p` with exactly those markers.
   */
  lemma MatchFound(s: string, p: nat, mk: Markers, r: nat, e1: nat, k: nat)
    requires p <= |s| && r == SpaceRun(s, LineFeedEnd(s, p))
    requires MarkerEnd(s, r, mk.prefix, mk.start, mk.suffix) == Some(e1)
    requires e1 <= k <= |s| && IsClosing(s, k, mk)
    requires forall j :: e1 <= j < k ==> !IsClosing(s, j, mk)
    ensures MatchAt(s, p, mk).Some?
    ensures var m := MatchAt(s, p, mk).value;
            m.openAt == r && m.openEnd == e1 && m.closeAt == k && m.found.marked == s[e1..k] &&
            Some(m.closeEnd) == MarkerEnd(s, k, mk.prefix, mk.end, mk.suffix)
  {
    ClosingAfterIs(s, e1, k, mk);
    assert MatchAt(s, p, mk) == Some(Assemble(s, p, LineFeedEnd(s, p), r, e1, k, mk));
  }

  /** The closing marker at `c` with none before it is the one the lazy body stops at. */
  lemma ClosingAfterIs(s: string, from: nat, c: nat, mk: Markers)
    requires from <= c <= |s| && IsClosing(s, c, mk)
    requires forall k :: from <= k < c ==> !IsClosing(s, k, mk)
    ensures ClosingAfter(s, from, mk) == Some(c)
  {
  }


  /**
   * An opening marker written `prefix a start c suffix` after the leading space run, with any
   * runs of spaces around the start token, opens the match at `p`; the match closes at the first
   * closing marker after it.
   */
  lemma {:induction false} WrittenBlockMatched(s: string, p: nat, mk: Markers, a: string, c: string, r: nat, e1: nat, k: nat)
    requires ValidMarkers(mk) && p <= |s| && r == SpaceRun(s, LineFeedEnd(s, p))
    requires AllSpace(a) && AllSpace(c) && (mk.suffix == "" ==> c == "")
    requires StartsWith(s, r, mk.prefix + a + mk.start + c + mk.suffix)
    requires e1 == r + |mk.prefix| + |a| + |mk.start| + |c| + |mk.suffix|
    requires e1 <= k <= |s| && IsClosing(s, k, mk)
    requires forall j :: e1 <= j < k ==> !IsClosing(s, j, mk)
    ensures MatchAt(s, p, mk).Some?
    ensures var m := MatchAt(s, p, mk).value;
            m.openAt == r && m.openEnd == e1 && m.closeAt == k && m.found.marked == s[e1..k] &&
            Some(m.closeEnd) == MarkerEnd(s, k, mk.prefix, mk.end, mk.suffix)
  {
    MarkerFound(s, r, mk.prefix, a, mk.start, c, mk.suffix);
    MatchFound(s, p, mk, r, e1, k);
  }

  /** MatchAt with the closing marker chosen as JavaScript's `([\s\S]*?)?` chooses it. */
  function MatchAtAsWritten(s: string, p: nat, mk: Markers): (m: Option<Match>)
    requires p <= |s|
    ensures m.Some? && |mk.start| > 0 ==> p < m.value.stop <= |s|
  {
    var q := LineFeedEnd(s, p);
    var r := SpaceRun(s, q);
    match MarkerEnd(s, r, mk.prefix, mk.start, mk.suffix)
    case None => None
    case Some(e1) =>
      match ClosingAfterAsWritten(s, e1, mk)
      case None => None
      case Some(c) => Some(Assemble(s, p, q, r, e1, c, mk))
  }

  /** No closing marker begins exactly where an opening marker ends: no block has an empty body. */
  predicate NoEmptyBlock(s: string, mk: Markers) {
    forall i :: 0 <= i <= |s| && IsOpening(s, i, mk) ==>
      !IsClosing(s, MarkerEnd(s, i, mk.prefix, mk.start, mk.suffix).value, mk)
  }

  /** Away from an empty body, both readings of `([\s\S]*?)?` choose the same closing marker. */
  lemma ClosingChoicesAgree(s: string, openEnd: nat, mk: Markers)
    requires openEnd <= |s| && !IsClosing(s, openEnd, mk)
    ensures ClosingAfterAsWritten(s, openEnd, mk) == ClosingAfter(s, openEnd, mk)
  {
  }

  /** In content without an empty block, the match as written is the shortest-body match. */
  lemma MatchAtAgrees(s: string, p: nat, mk: Markers)
    requires p <= |s| && NoEmptyBlock(s, mk)
    ensures MatchAtAsWritten(s, p, mk) == MatchAt(s, p, mk)
  {
    var r := SpaceRun(s, LineFeedEnd(s, p));
    if IsOpening(s, r, mk) {
      ClosingChoicesAgree(s, MarkerEnd(s, r, mk.prefix, mk.start, mk.suffix).value, mk);
    }
  }

  /**
   * What every match of the pattern looks like: an optional line feed, the maximal space run,
   * the opening marker, the marked text, the closing marker, the maximal space run after it and
   * an optional line feed, laid end to end from `p` to `stop`.
   */
  predicate MatchShape(s: string, p: nat, m: Match, mk: Markers) {
    MatchMarkers(s, p, m, mk) && MatchCaptures(s, p, m)
  }

  /** The match's opening and closing markers, in order. */
  predicate MatchMarkers(s: string, p: nat, m: Match, mk: Markers) {
    p == m.at <= m.openAt <= m.openEnd <= m.closeAt <= m.closeEnd <= m.stop <= |s| &&
    MarkerEnd(s, m.openAt, mk.prefix, mk.start, mk.suffix) == Some(m.openEnd) &&
    MarkerEnd(s, m.closeAt, mk.prefix, mk.end, mk.suffix) == Some(m.closeEnd)
  }

  /** The captures laid around the markers, each space run maximal, each line feed taken if present. */
  predicate MatchCaptures(s: string, p: nat, m: Match)
    requires p <= m.openAt <= m.openEnd <= m.closeAt <= m.closeEnd <= m.stop <= |s|
  {
    CapturesBefore(s, p, m) && m.found.marked == s[m.openEnd..m.closeAt] && CapturesAfter(s, m)
  }

  /** `preline` and `prespace` fill the text from `p` to the opening marker. */
  predicate CapturesBefore(s: string, p: nat, m: Match)
    requires p <= m.openAt <= |s|
  {
    var f := m.found;
    IsLineCapture(f.preline) && AllSpace(f.prespace) &&
    |f.preline| + |f.prespace| == m.openAt - p &&
    s[p..m.openAt] == f.preline + f.prespace &&
    (m.openAt < |s| ==> !IsSpace(s[m.openAt])) &&
    (p < |s| && s[p] == '\n' ==> f.preline == "\n")
  }

  /** `postspace` and `endline` fill the text from the closing marker to the end of the match. */
  predicate CapturesAfter(s: string, m: Match)
    requires m.closeEnd <= m.stop <= |s|
  {
    var f := m.found;
    AllSpace(f.postspace) && IsLineCapture(f.endline) &&
    |f.postspace| + |f.endline| == m.stop - m.closeEnd &&
    s[m.closeEnd..m.stop] == f.postspace + f.endline &&
    (m.closeEnd + |f.postspace| < |s| ==> !IsSpace(s[m.closeEnd + |f.postspace|])) &&
    (f.endline == "" ==> m.stop == |s| || s[m.stop] != '\n')
  }

  /** The captures of a match are well formed. */
  lemma CapturesWellFormed(s: string, p: nat, m: Match)
    requires p <= m.openAt <= m.openEnd <= m.closeAt <= m.closeEnd <= m.stop <= |s|
    requires MatchCaptures(s, p, m)
    ensures WellFormedFound(m.found)
  {
  }

  lemma MatchAtMarkers(s: string, p: nat, mk: Markers)
    requires p <= |s| && MatchAt(s, p, mk).Some?
    ensures MatchMarkers(s, p, MatchAt(s, p, mk).value, mk)
  {
    var q := LineFeedEnd(s, p);
    var r := SpaceRun(s, q);
    var e1 := MarkerEnd(s, r, mk.prefix, mk.start, mk.suffix).value;
    var c := ClosingAfter(s, e1, mk).value;
    assert MatchAt(s, p, mk).value == Assemble(s, p, q, r, e1, c, mk);
  }

  /** A match can only begin where the opening marker's start token occurs. */
  lemma MatchNeedsStartToken(s: string, p: nat, mk: Markers)
    requires p <= |s|
    ensures MatchAt(s, p, mk).Some? ==> Contains(s, mk.start)
  {
    if MatchAt(s, p, mk).Some? {
      var r := SpaceRun(s, LineFeedEnd(s, p));
      assert MarkerEnd(s, r, mk.prefix, mk.start, mk.suffix).Some?;
      MarkerEndShape(s, r, mk.prefix, mk.start, mk.suffix);
      var j := SpaceRun(s, r + |mk.prefix|);
      assert j <= |s| && StartsWith(s, j, mk.start);
    }
  }

  lemma TokenHasNoNewline(t: string)
    requires ValidToken(t)
    ensures CountNewlines(t) == 0
  {
  }

  /** The pieces of a marker: the prefix, a space run, the token, a space run and the suffix. */
  lemma MarkerParts(s: string, i: nat, prefix: string, token: string, suffix: string) returns (j: nat, l: nat)
    requires i <= |s| && MarkerEnd(s, i, prefix, token, suffix).Some?
    ensures i + |prefix| <= j && j + |token| <= l && l + |suffix| == MarkerEnd(s, i, prefix, token, suffix).value
    ensures var e := MarkerEnd(s, i, prefix, token, suffix).value;
            s[i..e] == prefix + s[i + |prefix|..j] + token + s[j + |token|..l] + suffix
    ensures AllSpace(s[i + |prefix|..j]) && AllSpace(s[j + |token|..l])
  {
    var e := MarkerEnd(s, i, prefix, token, suffix).value;
    j := SpaceRun(s, i + |prefix|);
    l := if suffix == "" then j + |token| else SpaceRun(s, j + |token|);
    assert s[i..e] == s[i..i + |prefix|] + s[i + |prefix|..j] + s[j..j + |token|] + s[j + |token|..l] + s[l..e];
  }

  /** A marker holds no line feed when its tokens hold none. */
  lemma MarkerHasNoNewline(s: string, i: nat, prefix: string, token: string, suffix: string)
    requires i <= |s| && MarkerEnd(s, i, prefix, token, suffix).Some?
    requires ValidToken(prefix) && ValidToken(token) && ValidToken(suffix)
    ensures CountNewlines(s[i..MarkerEnd(s, i, prefix, token, suffix).value]) == 0
  {
    var j, l := MarkerParts(s, i, prefix, token, suffix);
    var a, b := s[i + |prefix|..j], s[j + |token|..l];
    CountNewlinesAppend(prefix + a + token + b, suffix);
    CountNewlinesAppend(prefix + a + token, b);
    CountNewlinesAppend(prefix + a, token);
    CountNewlinesAppend(prefix, a);
    TokenHasNoNewline(prefix);
    TokenHasNoNewline(token);
    TokenHasNoNewline(suffix);
    AllSpaceHasNoNewline(a);
    AllSpaceHasNoNewline(b);
  }

  lemma CountNewlinesSplit(s: string, i: nat, j: nat, k: nat)
    requires i <= j <= k <= |s|
    ensures CountNewlines(s[i..k]) == CountNewlines(s[i..j]) + CountNewlines(s[j..k])
  {
    assert s[i..k] == s[i..j] + s[j..k];
    CountNewlinesAppend(s[i..j], s[j..k]);
  }

  /**
   * The line feeds of a matched region are the captured one before it, those of the marked text
   * and the captured one after it: the markers and the space runs hold none.
   */
  lemma MatchNewlines(s: string, p: nat, mk: Markers)
    requires p <= |s| && ValidMarkers(mk) && MatchAt(s, p, mk).Some?
    ensures var m := MatchAt(s, p, mk).value;
            CountNewlines(s[p..m.stop]) == |m.found.preline| + CountNewlines(m.found.marked) + |m.found.endline|
  {
    var m := MatchAt(s, p, mk).value;
    MatchAtShape(s, p, mk);
    var f := m.found;
    MarkerHasNoNewline(s, m.openAt, mk.prefix, mk.start, mk.suffix);
    MarkerHasNoNewline(s, m.closeAt, mk.prefix, mk.end, mk.suffix);
    CountNewlinesSplit(s, p, m.openAt, m.stop);
    CountNewlinesSplit(s, m.openAt, m.openEnd, m.stop);
    CountNewlinesSplit(s, m.openEnd, m.closeAt, m.stop);
    CountNewlinesSplit(s, m.closeAt, m.closeEnd, m.stop);
    CountNewlinesAppend(f.preline, f.prespace);
    CountNewlinesAppend(f.postspace, f.endline);
    AllSpaceHasNoNewline(f.prespace);
    AllSpaceHasNoNewline(f.postspace);
    assert CountNewlines(f.preline) == |f.preline|;
    assert CountNewlines(f.endline) == |f.endline|;
  }

  /**
   * The optional group `([\s\S]*?)?` as the pattern is written rejects an empty iteration, so a
   * block whose closing marker directly follows its opening marker is not closed there: with the
   * start token "s" and the end token "e", the scan of "se e" runs on to the second "e".
   */
  lemma EmptyBlockAsWritten()
    ensures var s, mk := "se e", Markers("", "s", "e", "");
            var m := MatchAtAsWritten(s, 0, mk);
            m.Some? && m.value.found.marked == "e" && m.value.stop == 4 &&
            m.value.openEnd == 1 && IsClosing(s, m.value.openEnd, mk) && m.value.closeAt > m.value.openEnd
  {
    var s, mk := "se e", Markers("", "s", "e", "");
    assert LineFeedEnd(s, 0) == 0 && SpaceRun(s, 0) == 0;
    assert StartsWith(s, 0, "s") && MarkerEnd(s, 0, "", "s", "") == Some(1);
    assert StartsWith(s, 1, "e") && MarkerEnd(s, 1, "", "e", "") == Some(2);
    assert SpaceRun(s, 2) == 3 && StartsWith(s, 3, "e") && MarkerEnd(s, 2, "", "e", "") == Some(4);
    assert FirstClosing(s, 2, mk) == Some(2);
    assert ClosingAfterAsWritten(s, 1, mk) == Some(2);
    assert SpaceRun(s, 4) == 4 && LineFeedEnd(s, 4) == 4;
    assert s[1..2] == "e";
  }

  /**
   * The shortest reading closes the same block at the first "e" with an empty marked text; the
   * space after it is its postspace, and only the final "e" stays outside the match.
   */
  lemma EmptyBlockClosesAtOnce()
    ensures var s, mk := "se e", Markers("", "s", "e", "");
            var m := MatchAt(s, 0, mk);
            m.Some? && m.value.found.marked == "" && m.value.stop == 3 && m.value.closeAt == m.value.openEnd
  {
    var s, mk := "se e", Markers("", "s", "e", "");
    assert LineFeedEnd(s, 0) == 0 && SpaceRun(s, 0) == 0;
    assert StartsWith(s, 0, "s") && MarkerEnd(s, 0, "", "s", "") == Some(1);
    assert StartsWith(s, 1, "e") && MarkerEnd(s, 1, "", "e", "") == Some(2);
    assert ClosingAfter(s, 1, mk) == Some(1);
    assert SpaceRun(s, 2) == 3 && LineFeedEnd(s, 3) == 3;
  }
}
