/**
 * The removal of one inline block, the situation of the default test suite: content made of a
 * word, some spacing, an opening marker `prefix start suffix`, a body on the same line and a
 * closing marker `prefix end suffix`, each marker written with one space on either side of its
 * token, as the default block's opening marker is written in a comment of JavaScript source.
 */
module Removal {
  import opened Wrappers
  import opened Strings
  import opened Blocks
  import opened Matcher
  import opened Rewriter
  import opened Strip

  function Opening(b: Block): string {
    b.prefix + " " + b.start + " " + b.suffix
  }

  function Closing(b: Block): string {
    b.prefix + " " + b.end + " " + b.suffix
  }

  /** Text on one line without spaces, tabs or slashes, such as `visible`. */
  predicate PlainWord(w: string) {
    forall i :: 0 <= i < |w| ==> w[i] != '/' && w[i] != '\n' && !IsSpace(w[i])
  }

  /** Text on one line without slashes. */
  predicate PlainText(t: string) {
    forall i :: 0 <= i < |t| ==> t[i] != '/' && t[i] != '\n' && t[i] != '\r'
  }

  /** The parts of a marker written `prefix token suffix` with single spaces, where each occurs. */
  predicate SpacedAt(s: string, i: nat, prefix: string, token: string, suffix: string) {
    var a := i + |prefix|;
    var t := a + 1 + |token|;
    StartsWith(s, i, prefix) && StartsWith(s, a, " ") && StartsWith(s, a + 1, token) &&
    StartsWith(s, t, " ") && StartsWith(s, t + 1, suffix)
  }

  lemma SpacedSplit(s: string, i: nat, prefix: string, token: string, suffix: string)
    requires StartsWith(s, i, prefix + " " + token + " " + suffix)
    ensures SpacedAt(s, i, prefix, token, suffix)
  {
    StartsWithSplit(s, i, prefix + " " + token + " ", suffix);
    StartsWithSplit(s, i, prefix + " " + token, " ");
    StartsWithSplit(s, i, prefix + " ", token);
    StartsWithSplit(s, i, prefix, " ");
  }

  /** A marker written `prefix token suffix` with single spaces ends right after its suffix. */
  lemma MarkerAtSpaced(s: string, i: nat, prefix: string, token: string, suffix: string)
    requires SpacedAt(s, i, prefix, token, suffix)
    requires |token| > 0 && !IsSpace(token[0]) && |suffix| > 0 && !IsSpace(suffix[0])
    ensures MarkerEnd(s, i, prefix, token, suffix) == Some(i + |prefix| + |token| + |suffix| + 2)
  {
    var a := i + |prefix|;
    var t := a + 1 + |token|;
    StartsWithIndex(s, a + 1, token, 0);
    StartsWithIndex(s, t + 1, suffix, 0);
    SpaceRunStops(s, a, a + 1);
    SpaceRunStops(s, t, t + 1);
    MarkerEndSteps(s, i, prefix, token, suffix, a + 1, t + 1);
  }

  /** No marker whose prefix begins with a slash begins at a character other than a slash. */
  lemma NoMarkerAt(s: string, k: nat, prefix: string, token: string, suffix: string)
    requires k < |s| && s[k] != '/' && |prefix| > 0 && prefix[0] == '/'
    ensures MarkerEnd(s, k, prefix, token, suffix).None?
  {
  }

  /**
   * Markers written as a comment: the prefix begins with a slash, as `/` followed by `*` does,
   * and every token but the prefix begins with a character other than a space or a tab.
   */
  predicate SlashTokens(mk: Markers) {
    |mk.prefix| > 0 && mk.prefix[0] == '/' &&
    |mk.start| > 0 && !IsSpace(mk.start[0]) && |mk.end| > 0 && !IsSpace(mk.end[0]) &&
    |mk.suffix| > 0 && !IsSpace(mk.suffix[0])
  }

  function OpeningLength(mk: Markers): nat {
    |mk.prefix| + |mk.start| + |mk.suffix| + 2
  }

  function ClosingLength(mk: Markers): nat {
    |mk.prefix| + |mk.end| + |mk.suffix| + 2
  }

  /**
   * Content made of a word, spacing, the opening marker, a body on the same line and the
   * closing marker, described by where each part occurs: the opening marker at `r`, the body
   * at `e1` and the closing marker at `c`.
   */
  predicate Layout(s: string, mk: Markers, word: string, lead: string, body: string, r: nat, e1: nat, c: nat) {
    r == |word| + |lead| && e1 == r + OpeningLength(mk) && c == e1 + |body| &&
    |s| == c + ClosingLength(mk) &&
    StartsWith(s, 0, word) && StartsWith(s, |word|, lead) &&
    SpacedAt(s, r, mk.prefix, mk.start, mk.suffix) && StartsWith(s, e1, body) &&
    SpacedAt(s, c, mk.prefix, mk.end, mk.suffix)
  }

  /** What the proof needs of the markers and of the texts around and inside the block. */
  predicate PlainParts(mk: Markers, word: string, lead: string, body: string) {
    SlashTokens(mk) && PlainWord(word) && AllSpace(lead) && PlainText(body)
  }

  /** Where each of five texts written one after the other occurs. */
  lemma StartsWithFive(s: string, a: string, b: string, c: string, d: string, e: string,
                       i: nat, j: nat, k: nat, l: nat)
    requires s == a + b + c + d + e
    requires i == |a| && j == i + |b| && k == j + |c| && l == k + |d|
    ensures StartsWith(s, 0, a) && StartsWith(s, i, b) && StartsWith(s, j, c)
    ensures StartsWith(s, k, d) && StartsWith(s, l, e) && |s| == l + |e|
  {
    assert StartsWith(s, 0, s);
    StartsWithSplit(s, 0, a + b + c + d, e);
    StartsWithSplit(s, 0, a + b + c, d);
    StartsWithSplit(s, 0, a + b, c);
    StartsWithSplit(s, 0, a, b);
  }

  lemma MarkerLengths(b: Block)
    ensures |Opening(b)| == OpeningLength(TokensOf(b)) && |Closing(b)| == ClosingLength(TokensOf(b))
  {
  }

  lemma LayoutFromParts(s: string, b: Block, word: string, lead: string, body: string, r: nat, e1: nat, c: nat)
    requires r == |word| + |lead| && e1 == r + OpeningLength(TokensOf(b)) && c == e1 + |body|
    requires StartsWith(s, 0, word) && StartsWith(s, |word|, lead) && StartsWith(s, r, Opening(b)) &&
             StartsWith(s, e1, body) && StartsWith(s, c, Closing(b)) && |s| == c + ClosingLength(TokensOf(b))
    ensures Layout(s, TokensOf(b), word, lead, body, r, e1, c)
  {
    SpacedSplit(s, r, b.prefix, b.start, b.suffix);
    SpacedSplit(s, c, b.prefix, b.end, b.suffix);
  }

  lemma InlineLayout(b: Block, word: string, lead: string, body: string, r: nat, e1: nat, c: nat)
    requires r == |word| + |lead| && e1 == r + OpeningLength(TokensOf(b)) && c == e1 + |body|
    ensures Layout(word + lead + Opening(b) + body + Closing(b), TokensOf(b), word, lead, body, r, e1, c)
  {
    var s := word + lead + Opening(b) + body + Closing(b);
    MarkerLengths(b);
    StartsWithFive(s, word, lead, Opening(b), body, Closing(b), |word|, r, e1, c);
    LayoutFromParts(s, b, word, lead, body, r, e1, c);
  }

  /** The pass over content laid out as an inline block. */
  lemma LayoutRemoved(s: string, b: Block, word: string, lead: string, body: string, r: nat, e1: nat, c: nat, eol: string)
    requires Layout(s, TokensOf(b), word, lead, body, r, e1, c) && PlainParts(TokensOf(b), word, lead, body)
    requires b.keepspace && !HasReplacement(b)
    ensures Strip.Pass(s, b, eol) == word + lead
  {
    var mk := TokensOf(b);
    forall k | 0 <= k < |word| ensures MatchAt(s, k, mk).None? {
      NoMatchInWord(s, mk, word, k);
    }
    BlockMatched(s, mk, word, lead, body, r, e1, c);
    InlineRemovalText(b, lead, body, eol);
    RewriteAtFirstMatch(s, 0, |word|, b, mk, eol);
    assert s[0..|word|] == word;
  }

  /** An inline block removed with `keepspace` leaves the spacing in front of it. */
  lemma InlineRemovalText(b: Block, lead: string, body: string, eol: string)
    requires b.keepspace && !HasReplacement(b) && AllSpace(lead) && PlainText(body)
    ensures Prepare(b, Found("", lead, body, "", ""), eol) == lead
  {
    assert !IsMultiLine(body);
  }

  lemma NoMatchInWord(s: string, mk: Markers, word: string, k: nat)
    requires StartsWith(s, 0, word) && PlainWord(word) && SlashTokens(mk) && k < |word|
    ensures MatchAt(s, k, mk).None?
  {
    StartsWithIndex(s, 0, word, k);
    SpaceRunStops(s, k, k);
    NoMarkerAt(s, k, mk.prefix, mk.start, mk.suffix);
  }

  lemma OpeningFound(s: string, mk: Markers, p: nat, lead: string, r: nat, e1: nat)
    requires StartsWith(s, p, lead) && AllSpace(lead) && SlashTokens(mk)
    requires r == p + |lead| && e1 == r + OpeningLength(mk) && SpacedAt(s, r, mk.prefix, mk.start, mk.suffix)
    ensures LineFeedEnd(s, p) == p && SpaceRun(s, p) == r && s[p..r] == lead
    ensures MarkerEnd(s, r, mk.prefix, mk.start, mk.suffix) == Some(e1)
  {
    StartsWithIndex(s, r, mk.prefix, 0);
    if |lead| > 0 {
      StartsWithIndex(s, p, lead, 0);
    }
    SpaceRunStops(s, p, r);
    MarkerAtSpaced(s, r, mk.prefix, mk.start, mk.suffix);
  }

  lemma BodyHasNoClosing(s: string, mk: Markers, e1: nat, body: string)
    requires StartsWith(s, e1, body) && PlainText(body) && SlashTokens(mk)
    ensures forall k :: e1 <= k < e1 + |body| ==> !IsClosing(s, k, mk)
  {
    forall k | e1 <= k < e1 + |body| ensures !IsClosing(s, k, mk) {
      StartsWithIndex(s, e1, body, k - e1);
      NoMarkerAt(s, k, mk.prefix, mk.end, mk.suffix);
    }
  }

  lemma ClosingFound(s: string, mk: Markers, e1: nat, body: string, c: nat)
    requires StartsWith(s, e1, body) && PlainText(body) && SlashTokens(mk)
    requires c == e1 + |body| && SpacedAt(s, c, mk.prefix, mk.end, mk.suffix) && |s| == c + ClosingLength(mk)
    ensures ClosingAfter(s, e1, mk) == Some(c) && s[e1..c] == body
    ensures MarkerEnd(s, c, mk.prefix, mk.end, mk.suffix) == Some(|s|)
  {
    MarkerAtSpaced(s, c, mk.prefix, mk.end, mk.suffix);
    BodyHasNoClosing(s, mk, e1, body);
    ClosingAfterIs(s, e1, c, mk);
  }

  /** A match whose opening marker follows a run of spaces and whose closing marker ends the text. */
  lemma MatchToEnd(s: string, p: nat, r: nat, e1: nat, c: nat, mk: Markers)
    requires p <= |s| && LineFeedEnd(s, p) == p && SpaceRun(s, p) == r
    requires MarkerEnd(s, r, mk.prefix, mk.start, mk.suffix) == Some(e1)
    requires ClosingAfter(s, e1, mk) == Some(c) && MarkerEnd(s, c, mk.prefix, mk.end, mk.suffix) == Some(|s|)
    ensures MatchAt(s, p, mk).Some?
    ensures var m := MatchAt(s, p, mk).value;
            m.found == Found("", s[p..r], s[e1..c], "", "") && m.stop == |s|
  {
    SpaceRunStops(s, |s|, |s|);
  }

  lemma BlockMatched(s: string, mk: Markers, word: string, lead: string, body: string, r: nat, e1: nat, c: nat)
    requires Layout(s, mk, word, lead, body, r, e1, c) && PlainParts(mk, word, lead, body)
    ensures MatchAt(s, |word|, mk).Some?
    ensures var m := MatchAt(s, |word|, mk).value;
            m.found == Found("", lead, body, "", "") && m.stop == |s|
  {
    OpeningFound(s, mk, |word|, lead, r, e1);
    ClosingFound(s, mk, e1, body, c);
    MatchToEnd(s, |word|, r, e1, c, mk);
  }

  /**
   * An inline block without a replacement is removed together with its markers; with
   * `keepspace` the spacing before it stays, and the text before it is copied unchanged.
   */
  lemma InlineBlockRemoved(b: Block, word: string, lead: string, body: string, eol: string)
    requires ValidBlock(b) && SlashTokens(TokensOf(b)) && b.keepspace && !HasReplacement(b)
    requires PlainWord(word) && AllSpace(lead) && PlainText(body)
    ensures Strip.Pass(word + lead + Opening(b) + body + Closing(b), b, eol) == word + lead
  {
    var r := |word| + |lead|;
    var e1 := r + OpeningLength(TokensOf(b));
    var c := e1 + |body|;
    InlineLayout(b, word, lead, body, r, e1, c);
    LayoutRemoved(word + lead + Opening(b) + body + Closing(b), b, word, lead, body, r, e1, c, eol);
  }

  /** With empty options, the default block is removed in production and test mode. */
  lemma DefaultBlockRemoved(word: string, lead: string, body: string, eol: string)
    requires PlainWord(word) && AllSpace(lead) && PlainText(body)
    ensures var b := GenerateDefaultOptions(DEFAULT_LABEL);
            var s := word + lead + Opening(b) + body + Closing(b);
            ApplyBlocks(s, BlockList(NoOptions), eol) == word + lead
  {
    var b := GenerateDefaultOptions(DEFAULT_LABEL);
    DefaultOptionsValid();
    assert ValidBlock(b);
    InlineBlockRemoved(b, word, lead, body, eol);
    var specs := BlockList(NoOptions);
    assert specs[..0] == [];
  }

  /** The block configured in upper case, as a block object with `/*`, `*/` and `keepspace`. */
  const UPPER_CASE_BLOCK: Block := Block("DEVBLOCK:START", "DEVBLOCK:END", COMMENT_START, COMMENT_END, true, Missing)

  lemma UpperCaseTokensValid()
    ensures ValidBlock(UPPER_CASE_BLOCK) && SlashTokens(TokensOf(UPPER_CASE_BLOCK))
  {
    var b := UPPER_CASE_BLOCK;
    assert ValidToken(b.start) && ValidToken(b.end);
    assert ValidToken(b.prefix) && ValidToken(b.suffix);
  }

  /** Markers configured in upper case remove a block marked in upper case. */
  lemma UpperCaseBlockRemoved(word: string, lead: string, body: string, eol: string)
    requires PlainWord(word) && AllSpace(lead) && PlainText(body)
    ensures var b := UPPER_CASE_BLOCK;
            var s := word + lead + Opening(b) + body + Closing(b);
            ApplyBlocks(s, BlockList(Configured([Explicit(b)])), eol) == word + lead
  {
    var b := UPPER_CASE_BLOCK;
    UpperCaseTokensValid();
    InlineBlockRemoved(b, word, lead, body, eol);
    var specs := BlockList(Configured([Explicit(b)]));
    assert specs[..0] == [];
  }
}
