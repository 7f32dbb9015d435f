/**
 * The text that replaces one match (lib/index.js:108-191): the decision between replacing and
 * removing, single-line and multi-line, whole-line and inline, with and without `keepspace`.
 */
module Rewriter {
  import opened Strings
  import opened Blocks
  import opened Matcher

  /** Both the line feed before and the line feed after the match were captured. */
  predicate IsWholeLine(f: Found) {
    |f.preline| > 0 && |f.endline| > 0
  }

  /** With well-formed captures, a match is a whole line exactly when it captured a line feed on both sides. */
  lemma WholeLineCaptures(f: Found)
    requires WellFormedFound(f)
    ensures IsWholeLine(f) <==> f.preline == "\n" && f.endline == "\n"
  {
  }

  predicate IsMultiLine(marked: string) {
    HasLineBreak(marked)
  }

  /** The index where the maximal run of spaces and tabs that ends `m` begins. */
  function TrailingRunStart(m: string): (j: nat)
    ensures j <= |m|
    ensures AllSpace(m[j..])
    ensures j > 0 ==> !IsSpace(m[j - 1])
    decreases |m|
  {
    if |m| > 0 && IsSpace(m[|m| - 1]) then
      var j := TrailingRunStart(m[..|m| - 1]);
      assert m[j..] == m[..|m| - 1][j..] + [m[|m| - 1]];
      j
    else |m|
  }

  /**
   * The first match of `/\*?([ \t]*)$/` in `m`: the trailing run of spaces and tabs, together
   * with the one `*` in front of it if there is one.
   */
  function TrailingSpaces(m: string): (t: string)
    ensures |t| <= |m| && t == m[|m| - |t|..]
  {
    var j := TrailingRunStart(m);
    if j > 0 && m[j - 1] == '*' then m[j - 1..] else m[j..]
  }

  /**
   * The trailing text is a suffix of `m` made of spaces and tabs, possibly behind one `*`; the
   * run is maximal and the `*` is included exactly when it stands right before the run.
   */
  lemma TrailingSpacesShape(m: string)
    ensures var t := TrailingSpaces(m);
            var run := if t != "" && t[0] == '*' then t[1..] else t;
            AllSpace(run) && (|run| < |m| ==> !IsSpace(m[|m| - |run| - 1])) &&
            (|t| < |m| && AllSpace(t) ==> m[|m| - |t| - 1] != '*')
  {
    var j := TrailingRunStart(m);
    if j > 0 && m[j - 1] == '*' {
      assert m[j - 1..][1..] == m[j..];
    }
  }

  function PrepareMultiLineWithReplacement(b: Block, f: Found, eol: string): string
    requires HasReplacement(b)
  {
    if b.keepspace then
      var trailingSpaces := TrailingSpaces(f.marked);
      f.preline + trailingSpaces + b.replacement.text + eol
    else f.preline + b.replacement.text + eol
  }

  function PrepareSingleLineWithReplacement(b: Block, f: Found, eol: string): string
    requires HasReplacement(b)
  {
    if b.keepspace then
      if IsWholeLine(f) then f.preline + f.prespace + b.replacement.text + eol
      else f.preline + f.prespace + b.replacement.text + f.postspace
    else
      if IsWholeLine(f) then f.preline + "" + b.replacement.text + eol
      else f.preline + "" + b.replacement.text
  }

  function PrepareWithReplacement(b: Block, f: Found, eol: string): string
    requires HasReplacement(b)
  {
    if IsMultiLine(f.marked) then PrepareMultiLineWithReplacement(b, f, eol)
    else PrepareSingleLineWithReplacement(b, f, eol)
  }

  function PrepareMultiLineWithoutReplacement(b: Block, f: Found): string {
    if b.keepspace then f.preline + f.postspace
    else f.preline + ""
  }

  function PrepareSingleLineWithoutReplacement(b: Block, f: Found): string {
    if b.keepspace then
      if IsWholeLine(f) then f.preline + "" else f.preline + f.prespace + f.postspace
    else f.preline + ""
  }

  function PrepareWithoutReplacement(b: Block, f: Found): string {
    if IsMultiLine(f.marked) then PrepareMultiLineWithoutReplacement(b, f)
    else PrepareSingleLineWithoutReplacement(b, f)
  }

  /** The replacer callback of lines 64-72. */
  function Prepare(b: Block, f: Found, eol: string): string {
    if HasReplacement(b) then PrepareWithReplacement(b, f, eol)
    else PrepareWithoutReplacement(b, f)
  }

  /**
   * A removed block leaves the line feed captured before it and, at most, horizontal spacing:
   * nothing of the block survives, no line feed is added, and an isolated single-line block or
   * any block without `keepspace` leaves exactly that line feed.
   */
  lemma RemovalLeavesLayout(b: Block, f: Found)
    requires WellFormedFound(f)
    ensures var r := PrepareWithoutReplacement(b, f);
            StartsWith(r, 0, f.preline) && AllSpace(r[|f.preline|..]) && CountNewlines(r) == |f.preline|
    ensures (IsWholeLine(f) && !IsMultiLine(f.marked)) || !b.keepspace ==>
            PrepareWithoutReplacement(b, f) == f.preline
  {
    var r := PrepareWithoutReplacement(b, f);
    assert r == f.preline + r[|f.preline|..];
    CountNewlinesAppend(f.preline, r[|f.preline|..]);
    AllSpaceHasNoNewline(r[|f.preline|..]);
    assert CountNewlines(f.preline) == |f.preline|;
  }

  /** With `keepspace`, what shared the line with a removed block keeps its spacing. */
  lemma RemovalKeepsSpacing(b: Block, f: Found)
    requires b.keepspace
    ensures IsMultiLine(f.marked) ==> PrepareWithoutReplacement(b, f) == f.preline + f.postspace
    ensures !IsMultiLine(f.marked) && !IsWholeLine(f) ==>
            PrepareWithoutReplacement(b, f) == f.preline + f.prespace + f.postspace
  {
  }

  /**
   * A replacement for a multi-line or whole-line block ends its own line with `eol`, after the
   * indentation `keepspace` keeps: the closing marker's indentation for a multi-line block,
   * the block's own for a single-line one.
   */
  lemma ReplacementOnItsOwnLine(b: Block, f: Found, eol: string)
    requires HasReplacement(b) && (IsMultiLine(f.marked) || IsWholeLine(f))
    ensures var r := PrepareWithReplacement(b, f, eol);
            var text := b.replacement.text;
            var lead := if !b.keepspace then "" else if IsMultiLine(f.marked) then TrailingSpaces(f.marked) else f.prespace;
            r == f.preline + lead + text + eol
  {
  }

  /** A replacement for an inline block is spliced where the block was; the line goes on. */
  lemma ReplacementInline(b: Block, f: Found, eol: string)
    requires HasReplacement(b) && !IsMultiLine(f.marked) && !IsWholeLine(f)
    ensures var r := PrepareWithReplacement(b, f, eol);
            var text := b.replacement.text;
            r == if b.keepspace then f.preline + f.prespace + text + f.postspace else f.preline + text
  {
  }

  /** Whatever the branch, the output begins with the captured line feed and holds the replacement. */
  lemma PrepareKeepsPreline(b: Block, f: Found, eol: string)
    ensures StartsWith(Prepare(b, f, eol), 0, f.preline)
    ensures HasReplacement(b) ==> Contains(Prepare(b, f, eol), b.replacement.text)
  {
    var r := Prepare(b, f, eol);
    if HasReplacement(b) {
      var text := b.replacement.text;
      if IsMultiLine(f.marked) || IsWholeLine(f) {
        ReplacementOnItsOwnLine(b, f, eol);
        var lead := if !b.keepspace then "" else if IsMultiLine(f.marked) then TrailingSpaces(f.marked) else f.prespace;
        assert r == f.preline + lead + text + eol;
        assert r[|f.preline + lead|..|f.preline + lead| + |text|] == text;
        assert StartsWith(r, |f.preline + lead|, text);
      } else {
        ReplacementInline(b, f, eol);
        var lead := if b.keepspace then f.prespace else "";
        assert r[|f.preline + lead|..|f.preline + lead| + |text|] == text;
        assert StartsWith(r, |f.preline + lead|, text);
      }
    }
  }
}
