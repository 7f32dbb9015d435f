/**
 * The entry point `RemoveCodeBlocks` of lib/index.js: the environment gate, the default options,
 * and one global replace pass per block, in list order, each on the previous pass's output.
 * `process.env.NODE_ENV` is the parameter `mode` (None when unset) and `os.EOL` the parameter `eol`.
 */
module Strip {
  import opened Wrappers
  import opened Strings
  import opened Blocks
  import opened Matcher
  import opened Rewriter

  /** The texts the escaped tokens of a resolved block match literally. */
  function LiteralMarkers(r: Resolved): Markers {
    Markers(Unescape(r.prefix), Unescape(r.start), Unescape(r.end), Unescape(r.suffix))
  }

  /** The marker texts of a block, taken as they are. */
  function TokensOf(b: Block): Markers {
    Markers(b.prefix, b.start, b.end, b.suffix)
  }

  /**
   * The marker texts the pattern built at lines 52-62 matches: the escaped tokens read back as
   * the regex reads them. Escaping makes the pattern match each token literally.
   */
  function BlockMarkers(b: Block): (mk: Markers)
    ensures mk == TokensOf(b)
  {
    LiteralMarkers(Resolve(b))
  }

  /**
   * The tokens of a block satisfy the assumptions under which the explicit matcher is the
   * regex: start and end non-empty, no line feed and no `|`, no space or tab at either end.
   */
  predicate ValidBlock(b: Block) {
    ValidMarkers(TokensOf(b))
  }

  predicate ValidOptions(options: Options) {
    forall spec :: spec in BlockList(options) ==> ValidBlock(Normalize(spec))
  }

  /**
   * `content.replaceAll(regex, callback)` from index `from`: the pattern is tried at each index
   * in turn; a match is replaced and scanning resumes where it stopped, any other character is
   * copied.
   */
  function RewriteFrom(s: string, from: nat, b: Block, mk: Markers, eol: string): string
    requires from <= |s| && |mk.start| > 0
    decreases |s| - from
  {
    if from == |s| then ""
    else
      var (piece, next) := Step(s, from, b, mk, eol);
      piece + RewriteFrom(s, next, b, mk, eol)
  }

  /** One pass of the block `b` over the whole content. */
  function Pass(s: string, b: Block, eol: string): string
    requires |b.start| > 0
  {
    RewriteFrom(s, 0, b, TokensOf(b), eol)
  }

  /** The output of one step of the scan at `pos` and the index where the scan resumes. */
  function Step(s: string, pos: nat, b: Block, mk: Markers, eol: string): (res: (string, nat))
    requires pos < |s| && |mk.start| > 0
    ensures pos < res.1 <= |s|
  {
    match MatchAt(s, pos, mk)
    case Some(m) => (Prepare(b, m.found, eol), m.stop)
    case None => ([s[pos]], pos + 1)
  }

  lemma RewriteStep(s: string, pos: nat, b: Block, mk: Markers, eol: string)
    requires pos < |s| && |mk.start| > 0
    ensures RewriteFrom(s, pos, b, mk, eol) == Step(s, pos, b, mk, eol).0 + RewriteFrom(s, Step(s, pos, b, mk, eol).1, b, mk, eol)
  {
  }

  /** Where the pattern does not match, the scan copies one character. */
  lemma RewriteCopies(s: string, pos: nat, b: Block, mk: Markers, eol: string)
    requires pos < |s| && |mk.start| > 0 && MatchAt(s, pos, mk).None?
    ensures RewriteFrom(s, pos, b, mk, eol) == [s[pos]] + RewriteFrom(s, pos + 1, b, mk, eol)
  {
    assert Step(s, pos, b, mk, eol) == ([s[pos]], pos + 1);
  }

  /** Where the pattern matches, the scan emits the replacement and resumes after the match. */
  lemma RewriteReplaces(s: string, pos: nat, b: Block, mk: Markers, eol: string)
    requires pos < |s| && |mk.start| > 0 && MatchAt(s, pos, mk).Some?
    ensures var m := MatchAt(s, pos, mk).value;
            m.stop <= |s| &&
            RewriteFrom(s, pos, b, mk, eol) == Prepare(b, m.found, eol) + RewriteFrom(s, m.stop, b, mk, eol)
  {
    var m := MatchAt(s, pos, mk).value;
    assert Step(s, pos, b, mk, eol) == (Prepare(b, m.found, eol), m.stop);
  }

  method ReplaceAll(s: string, b: Block, eol: string) returns (r: string)
    requires |b.start| > 0
    ensures r == Pass(s, b, eol)
  {
    var mk := BlockMarkers(b);
    r := "";
    var pos := 0;
    while pos < |s|
      invariant pos <= |s|
      invariant r + RewriteFrom(s, pos, b, mk, eol) == RewriteFrom(s, 0, b, mk, eol)
      decreases |s| - pos
    {
      var st := Step(s, pos, b, mk, eol);
      var piece, next := st.0, st.1;
      RewriteStep(s, pos, b, mk, eol);
      assert (r + piece) + RewriteFrom(s, next, b, mk, eol) == r + (piece + RewriteFrom(s, next, b, mk, eol));
      r := r + piece;
      pos := next;
    }
  }

  /** Step with the closing marker chosen as the pattern as written chooses it. */
  function StepAsWritten(s: string, pos: nat, b: Block, mk: Markers, eol: string): (res: (string, nat))
    requires pos < |s| && |mk.start| > 0
    ensures pos < res.1 <= |s|
  {
    match MatchAtAsWritten(s, pos, mk)
    case Some(m) => (Prepare(b, m.found, eol), m.stop)
    case None => ([s[pos]], pos + 1)
  }

  /** The scan of RewriteFrom made of StepAsWritten. */
  function RewriteFromAsWritten(s: string, from: nat, b: Block, mk: Markers, eol: string): string
    requires from <= |s| && |mk.start| > 0
    decreases |s| - from
  {
    if from == |s| then ""
    else
      var (piece, next) := StepAsWritten(s, from, b, mk, eol);
      piece + RewriteFromAsWritten(s, next, b, mk, eol)
  }

  /** One pass of the block `b` as lib/index.js performs it. */
  function PassAsWritten(s: string, b: Block, eol: string): string
    requires |b.start| > 0
  {
    RewriteFromAsWritten(s, 0, b, TokensOf(b), eol)
  }

  /** Where no block has an empty body, the two scans produce the same text. */
  lemma {:induction false} RewriteAgrees(s: string, from: nat, b: Block, mk: Markers, eol: string)
    requires from <= |s| && |mk.start| > 0 && NoEmptyBlock(s, mk)
    ensures RewriteFromAsWritten(s, from, b, mk, eol) == RewriteFrom(s, from, b, mk, eol)
    decreases |s| - from
  {
    if from < |s| {
      MatchAtAgrees(s, from, mk);
      assert StepAsWritten(s, from, b, mk, eol) == Step(s, from, b, mk, eol);
      RewriteAgrees(s, Step(s, from, b, mk, eol).1, b, mk, eol);
    }
  }

  /** A pass as written is the modelled pass on every content without an empty block. */
  lemma PassAgrees(s: string, b: Block, eol: string)
    requires |b.start| > 0 && NoEmptyBlock(s, TokensOf(b))
    ensures PassAsWritten(s, b, eol) == Pass(s, b, eol)
  {
    RewriteAgrees(s, 0, b, TokensOf(b), eol);
  }

  predicate StartsNonEmpty(specs: seq<BlockSpec>) {
    forall i :: 0 <= i < |specs| ==> |Normalize(specs[i]).start| > 0
  }

  /** The passes of `specs`, the first one on `s` and each later one on the output before it. */
  function ApplyBlocks(s: string, specs: seq<BlockSpec>, eol: string): string
    requires StartsNonEmpty(specs)
  {
    if specs == [] then s
    else Pass(ApplyBlocks(s, specs[..|specs| - 1], eol), Normalize(specs[|specs| - 1]), eol)
  }

  lemma ApplyBlocksStep(s: string, specs: seq<BlockSpec>, i: nat, eol: string)
    requires StartsNonEmpty(specs) && i < |specs|
    ensures StartsNonEmpty(specs[..i]) && StartsNonEmpty(specs[..i + 1])
    ensures ApplyBlocks(s, specs[..i + 1], eol) == Pass(ApplyBlocks(s, specs[..i], eol), Normalize(specs[i]), eol)
  {
    assert specs[..i + 1][..i] == specs[..i];
  }

  lemma ValidOptionsStarts(options: Options)
    requires ValidOptions(options)
    ensures StartsNonEmpty(BlockList(options))
  {
    var specs := BlockList(options);
    forall i | 0 <= i < |specs| ensures |Normalize(specs[i]).start| > 0 {
      assert specs[i] in specs;
    }
  }

  method RemoveCodeBlocks(content: string, options: Options, mode: Option<string>, eol: string) returns (r: string)
    requires ValidOptions(options)
    ensures ShouldSkip(mode) ==> r == content
    ensures !ShouldSkip(mode) ==> StartsNonEmpty(BlockList(options)) && r == ApplyBlocks(content, BlockList(options), eol)
    ensures mode == Some("development") ==> r == content
  {
    if ShouldSkip(mode) {
      return content;
    }
    var specs := BlockList(options);
    ValidOptionsStarts(options);
    r := content;
    var i := 0;
    while i < |specs|
      invariant i <= |specs|
      invariant r == ApplyBlocks(content, specs[..i], eol)
    {
      var block := Normalize(specs[i]);
      ApplyBlocksStep(content, specs, i, eol);
      r := ReplaceAll(r, block, eol);
      i := i + 1;
    }
    assert specs[..i] == specs;
  }

  /** With no match anywhere from `from` on, the rest of the content is copied unchanged. */
  lemma {:induction false} RewriteWithoutMatch(s: string, from: nat, b: Block, mk: Markers, eol: string)
    requires from <= |s| && |mk.start| > 0
    requires forall p :: from <= p < |s| ==> MatchAt(s, p, mk).None?
    ensures RewriteFrom(s, from, b, mk, eol) == s[from..]
    decreases |s| - from
  {
    if from < |s| {
      RewriteWithoutMatch(s, from + 1, b, mk, eol);
      RewriteCopies(s, from, b, mk, eol);
      SliceFirst(s, from, |s|);
      assert s[from..] == s[from..|s|] && s[from + 1..] == s[from + 1..|s|];
    }
  }

  /** Up to the leftmost match the scan copies the content unchanged. */
  lemma {:induction false} RewriteCopiesUpTo(s: string, from: nat, p: nat, b: Block, mk: Markers, eol: string)
    requires from <= p <= |s| && |mk.start| > 0
    requires forall k :: from <= k < p ==> MatchAt(s, k, mk).None?
    ensures RewriteFrom(s, from, b, mk, eol) == s[from..p] + RewriteFrom(s, p, b, mk, eol)
    decreases p - from
  {
    if from < p {
      RewriteCopiesUpTo(s, from + 1, p, b, mk, eol);
      RewriteCopies(s, from, b, mk, eol);
      SliceFirst(s, from, p);
      AppendAssociative([s[from]], s[from + 1..p], RewriteFrom(s, p, b, mk, eol));
    } else {
      assert s[from..p] == [];
    }
  }

  /**
   * The scan copies the text before the leftmost match unchanged, puts the replacement text in
   * place of the match, and resumes right after the match.
   */
  lemma RewriteAtFirstMatch(s: string, from: nat, p: nat, b: Block, mk: Markers, eol: string)
    requires from <= p < |s| && |mk.start| > 0
    requires forall k :: from <= k < p ==> MatchAt(s, k, mk).None?
    requires MatchAt(s, p, mk).Some?
    ensures var m := MatchAt(s, p, mk).value;
            m.stop <= |s| &&
            RewriteFrom(s, from, b, mk, eol) == s[from..p] + (Prepare(b, m.found, eol) + RewriteFrom(s, m.stop, b, mk, eol))
  {
    RewriteCopiesUpTo(s, from, p, b, mk, eol);
    RewriteReplaces(s, p, b, mk, eol);
  }

  /**
   * Matching is literal and case-sensitive: content in which the block's start token does not
   * occur, in exactly the configured case, comes out of the pass unchanged.
   */
  lemma PassWithoutStartToken(s: string, b: Block, eol: string)
    requires |b.start| > 0 && !Contains(s, b.start)
    ensures Pass(s, b, eol) == s
  {
    var mk := TokensOf(b);
    forall p | 0 <= p < |s| ensures MatchAt(s, p, mk).None? {
      MatchNeedsStartToken(s, p, mk);
    }
    RewriteWithoutMatch(s, 0, b, mk, eol);
  }

  /** A second pass of the same block changes nothing once its start token is gone. */
  lemma PassIdempotentWhenMarkersGone(s: string, b: Block, eol: string)
    requires |b.start| > 0 && !Contains(Pass(s, b, eol), b.start)
    ensures Pass(Pass(s, b, eol), b, eol) == Pass(s, b, eol)
  {
    PassWithoutStartToken(Pass(s, b, eol), b, eol);
  }

  lemma StartsNonEmptyAppend(first: seq<BlockSpec>, second: seq<BlockSpec>)
    requires StartsNonEmpty(first) && StartsNonEmpty(second)
    ensures StartsNonEmpty(first + second)
  {
    var all := first + second;
    forall i | 0 <= i < |all| ensures |Normalize(all[i]).start| > 0 {
      if i < |first| {
        assert all[i] == first[i];
      } else {
        assert all[i] == second[i - |first|];
      }
    }
  }

  lemma ApplyBlocksLast(s: string, specs: seq<BlockSpec>, eol: string)
    requires StartsNonEmpty(specs) && |specs| > 0
    ensures StartsNonEmpty(specs[..|specs| - 1])
    ensures ApplyBlocks(s, specs, eol) == Pass(ApplyBlocks(s, specs[..|specs| - 1], eol), Normalize(specs[|specs| - 1]), eol)
  {
  }

  /** Blocks are applied strictly in list order, each pass on the output of the ones before. */
  lemma {:induction false} ApplyBlocksAppend(s: string, first: seq<BlockSpec>, second: seq<BlockSpec>, eol: string)
    requires StartsNonEmpty(first) && StartsNonEmpty(second)
    ensures StartsNonEmpty(first + second)
    ensures ApplyBlocks(s, first + second, eol) == ApplyBlocks(ApplyBlocks(s, first, eol), second, eol)
    decreases |second|
  {
    StartsNonEmptyAppend(first, second);
    if second == [] {
      assert first + second == first;
    } else {
      var init := second[..|second| - 1];
      ApplyBlocksLast(s, second, eol);
      ApplyBlocksAppend(s, first, init, eol);
      AppendLast(first, second);
      ApplyBlocksLast(s, first + second, eol);
      ApplyBlocksLast(ApplyBlocks(s, first, eol), second, eol);
    }
  }

  /** No block at all leaves the content as it is. */
  lemma ApplyNoBlocks(s: string, eol: string)
    ensures ApplyBlocks(s, [], eol) == s
  {
  }

  /**
   * Removing a block takes away exactly the line feeds inside it and the one after it, and keeps
   * the one before it: an isolated block's lines vanish without merging the lines around them.
   */
  lemma RemovalLineCount(s: string, p: nat, b: Block, eol: string)
    requires p <= |s| && ValidBlock(b) && !HasReplacement(b)
    requires MatchAt(s, p, TokensOf(b)).Some?
    ensures var m := MatchAt(s, p, TokensOf(b)).value;
            CountNewlines(Prepare(b, m.found, eol)) + CountNewlines(m.found.marked) + |m.found.endline|
            == CountNewlines(s[p..m.stop])
  {
    var mk := TokensOf(b);
    var m := MatchAt(s, p, mk).value;
    MatchAtShape(s, p, mk);
    CapturesWellFormed(s, p, m);
    RemovalLeavesLayout(b, m.found);
    MatchNewlines(s, p, mk);
  }

  /** A label that does not begin with a space or tab and holds no line feed nor `|`. */
  predicate ValidLabel(name: string) {
    (forall i :: 0 <= i < |name| ==> name[i] != '\n' && name[i] != '|') &&
    (|name| > 0 ==> !IsSpace(name[0]))
  }

  /** A valid label followed by a non-empty valid token is a valid token. */
  lemma LabelTokenValid(name: string, t: string)
    requires ValidLabel(name) && ValidToken(t) && |t| > 0
    ensures ValidToken(name + t)
  {
    var u := name + t;
    forall i | 0 <= i < |u| ensures u[i] != '\n' && u[i] != '|' {
      if i < |name| {
        assert u[i] == name[i];
      } else {
        assert u[i] == t[i - |name|];
      }
    }
    assert u[|u| - 1] == t[|t| - 1];
    if |name| > 0 {
      assert u[0] == name[0];
    } else {
      assert u == t;
    }
  }

  /** A bare label expands to a block the matcher can use. */
  lemma LabelBlockValid(name: string)
    requires ValidLabel(name)
    ensures ValidBlock(GenerateDefaultOptions(name))
  {
    var b := GenerateDefaultOptions(name);
    assert b.start == name + ":start" && b.end == name + ":end";
    LabelTokenValid(name, ":start");
    LabelTokenValid(name, ":end");
  }

  /** Empty options mean the one default block, which the matcher can use. */
  lemma DefaultOptionsValid()
    ensures BlockList(NoOptions) == [Explicit(GenerateDefaultOptions(DEFAULT_LABEL))]
    ensures ValidOptions(NoOptions)
  {
    LabelBlockValid(DEFAULT_LABEL);
  }

  /** Content with an empty block before a later one, and a block with one-letter tokens. */
  const EMPTY_FIRST: string := "se k s x e"
  const SHORT_BLOCK: Block := Block("s", "e", "", "", false, Null)

  lemma EmptyFirstRuns()
    ensures SpaceRun(EMPTY_FIRST, 0) == 0 && SpaceRun(EMPTY_FIRST, 1) == 1 && SpaceRun(EMPTY_FIRST, 3) == 3
    ensures SpaceRun(EMPTY_FIRST, 5) == 5 && SpaceRun(EMPTY_FIRST, 7) == 7 && SpaceRun(EMPTY_FIRST, 9) == 9
    ensures SpaceRun(EMPTY_FIRST, 2) == 3 && SpaceRun(EMPTY_FIRST, 4) == 5
    ensures SpaceRun(EMPTY_FIRST, 6) == 7 && SpaceRun(EMPTY_FIRST, 8) == 9 && SpaceRun(EMPTY_FIRST, 10) == 10
  {
    var s := EMPTY_FIRST;
    assert SpaceRun(s, 10) == 10 && SpaceRun(s, 9) == 9 && SpaceRun(s, 7) == 7 && SpaceRun(s, 5) == 5;
    assert SpaceRun(s, 3) == 3 && SpaceRun(s, 1) == 1 && SpaceRun(s, 0) == 0;
  }

  lemma EmptyFirstMarkers()
    ensures MarkerEnd(EMPTY_FIRST, 0, "", "s", "") == Some(1) && MarkerEnd(EMPTY_FIRST, 1, "", "e", "") == Some(2)
    ensures MarkerEnd(EMPTY_FIRST, 3, "", "s", "") == None && MarkerEnd(EMPTY_FIRST, 5, "", "s", "") == Some(6)
    ensures MarkerEnd(EMPTY_FIRST, 8, "", "e", "") == Some(10)
  {
    EmptyFirstRuns();
  }

  lemma EmptyFirstNoEndToken()
    ensures !StartsWith(EMPTY_FIRST, 3, "e") && !StartsWith(EMPTY_FIRST, 5, "e") && !StartsWith(EMPTY_FIRST, 7, "e")
  {
    var s := EMPTY_FIRST;
    assert s[3..4] == "k" && s[5..6] == "s" && s[7..8] == "x";
  }

  lemma EmptyFirstNoClosing()
    ensures forall k :: 2 <= k < 8 ==> !IsClosing(EMPTY_FIRST, k, TokensOf(SHORT_BLOCK))
  {
    EmptyFirstRuns();
    EmptyFirstNoEndToken();
    var s, mk := EMPTY_FIRST, TokensOf(SHORT_BLOCK);
    forall k | 2 <= k < 8
      ensures !IsClosing(s, k, mk)
    {
      var j := SpaceRun(s, k);
      assert j == 3 || j == 5 || j == 7;
      assert StartsWith(s, k, "");
    }
  }

  lemma EmptyFirstStepAt0()
    ensures Step(EMPTY_FIRST, 0, SHORT_BLOCK, TokensOf(SHORT_BLOCK), "\n") == ("", 3)
  {
    EmptyFirstRuns();
    EmptyFirstMarkers();
    EmptyFirstNoClosing();
  }

  lemma EmptyFirstStepAt3()
    ensures Step(EMPTY_FIRST, 3, SHORT_BLOCK, TokensOf(SHORT_BLOCK), "\n") == ("k", 4)
  {
    EmptyFirstRuns();
    EmptyFirstMarkers();
    EmptyFirstNoClosing();
  }

  lemma EmptyFirstStepAt4()
    ensures Step(EMPTY_FIRST, 4, SHORT_BLOCK, TokensOf(SHORT_BLOCK), "\n") == ("", 10)
  {
    EmptyFirstRuns();
    EmptyFirstMarkers();
    EmptyFirstNoClosing();
  }

  lemma EmptyFirstWrittenStep()
    ensures StepAsWritten(EMPTY_FIRST, 0, SHORT_BLOCK, TokensOf(SHORT_BLOCK), "\n") == ("", 10)
  {
    EmptyFirstRuns();
    EmptyFirstMarkers();
    EmptyFirstNoClosing();
  }

  lemma EmptyFirstPass()
    ensures Pass(EMPTY_FIRST, SHORT_BLOCK, "\n") == "k"
  {
    var s, b, mk := EMPTY_FIRST, SHORT_BLOCK, TokensOf(SHORT_BLOCK);
    EmptyFirstStepAt0();
    EmptyFirstStepAt3();
    EmptyFirstStepAt4();
    RewriteStep(s, 0, b, mk, "\n");
    RewriteStep(s, 3, b, mk, "\n");
    RewriteStep(s, 4, b, mk, "\n");
  }

  lemma EmptyFirstPassAsWritten()
    ensures PassAsWritten(EMPTY_FIRST, SHORT_BLOCK, "\n") == ""
  {
    EmptyFirstWrittenStep();
    assert RewriteFromAsWritten(EMPTY_FIRST, 10, SHORT_BLOCK, TokensOf(SHORT_BLOCK), "\n") == "";
  }

  /**
   * An empty block followed by a later one: the shortest reading closes the first block at
   * once and keeps "k", the pattern as written runs the first block on to the last "e".
   */
  lemma EmptyBlockPassesDiffer()
    ensures Pass(EMPTY_FIRST, SHORT_BLOCK, "\n") == "k"
    ensures PassAsWritten(EMPTY_FIRST, SHORT_BLOCK, "\n") == ""
    ensures !NoEmptyBlock(EMPTY_FIRST, TokensOf(SHORT_BLOCK))
  {
    EmptyFirstPass();
    EmptyFirstPassAsWritten();
    EmptyFirstMarkers();
    assert IsOpening(EMPTY_FIRST, 0, TokensOf(SHORT_BLOCK));
  }
}
