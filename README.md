# strip-code, modelled in Dafny

strip-code removes marked blocks of code from a source text. A block opens with a marker
`prefix start suffix` and closes with a marker `prefix end suffix`; the default block is
`/* devblock:start */ … /* devblock:end */`. `RemoveCodeBlocks(content, options)` makes one global
replace pass per configured block, in list order. Each match is either removed or replaced by the
block's `replacement` text. What survives around the match depends on four things:

- whether the marked text spans lines;
- whether the block sat alone on its line;
- whether `keepspace` is set;
- whether a replacement is given.

In the `development` environment the content is returned as it is. A second file, the option
validator, turns a schema validator's error list into the one message it throws: hidden keywords
are filtered out, the errors are ranked by their path, stably sorted and joined with " and ".

The model has eight modules:

- `Blocks` (blocks.dfy): the constants, the block objects, the default block, bare-label
  expansion, the environment gate, and the regex escaping of tokens with its inverse.
- `Matcher` (matcher.dfy): one attempt of the block regex at one index, written out as an
  explicit matcher over the literal marker texts. Capture groups are `Found`; match positions are
  `Match`.
- `Rewriter` (rewriter.dfy): the replacer callback, which picks the text a match is replaced with
  from eleven outcomes. With a replacement there are two for multi-line marked text and four for
  single-line marked text; without one there are two and three.
- `Strip` (strip.dfy): `replaceAll` as a leftmost, non-overlapping scan; the loop over the
  blocks; the entry point `RemoveCodeBlocks`.
- `Removal` (removal.dfy): complete removals of an inline block, from content to result, for
  the default block and for a block configured in upper case.
- `Validator` (validator.dfy): `validate`, `formatValidationErrors` and its helpers, including
  the in-place sort.
- `Strings` (strings.dfy): shared text helpers (prefix tests, line-feed counts, lexicographic
  order).
- `Wrappers` (wrappers.dfy): `Option` and `Outcome`.

Inputs from the environment become parameters:

- `process.env.NODE_ENV` is `mode: Option<string>` (`None` when unset).
- `os.EOL` is `eol: string`.
- The verdict of the compiled schema is `accepted: bool`.
- Its `errors` property is `errors: Option<seq<ValidationError>>`.

The regex is replaced by an explicit matcher over the literal marker texts. The precondition
`ValidOptions` of `RemoveCodeBlocks` demands `ValidMarkers` of every block:

- `start` and `end` are non-empty;
- no token holds a line feed or `|`;
- no token begins or ends with a space or a tab.

The matcher reads the pattern
`(\n?)([\t ]*)P[\t ]*?S[\t ]*?X([\s\S]*?)?P[\t ]*?E[\t ]*?X([\t ]*)(\n?)` this way:

- the space runs before a token are maximal;
- the run before an empty suffix is empty;
- the marked text ends at the first closing marker after the opening marker.

Both directions are proved about the matcher. `MarkerParts` and `MatchAtShape` show that every
match has this shape. `MarkerFound` and `WrittenBlockMatched` show that a marker written with any
spacing around its token is found where it is written, and that an opening marker after the
leading space run opens a match closing at the first closing marker. That the regex engine's
backtracking settles on the same choices is argued from the token assumptions, not proved, since
the engine is not part of this model.

The third choice differs from JavaScript's in one case: a closing marker that begins right where
the opening marker ends. The body `([\s\S]*?)?` is an optional group, and JavaScript does not let
an optional group match the empty text, so the pattern as written runs on to a later closing
marker when there is one. `MatchAtAsWritten` and `PassAsWritten` model that reading.
`PassAgrees` proves it gives the same pass as the model on every content without such an empty
block; `EmptyBlockPassesDiffer` shows a content where the two differ (see Findings).

`BlockMarkers` proves that the escaped tokens, read back as the regex reads them, are exactly
the configured tokens.

The replacer follows lib/index.js:118-191 branch for branch. A multi-line block with a
replacement becomes the line feed before the block, then (with `keepspace`) the trailing spaces
of the marked text, then the replacement, then `eol` (lines 126-133). No outcome puts back the
line feed captured after the block: the outcomes that end a line emit `eol` in its place, and
the others, such as the inline replacement of line 139 and the removals of line 187, drop it.

## Model

| member | source | states |
|---|---|---|
| Blocks.GenerateDefaultOptions | lib/index.js:21-30 | the block for a label: start is `label:start` and end `label:end`, so both begin with `label:` and they differ; comment prefix and suffix, `keepspace` on, replacement `null` |
| Blocks.DefaultOptions | lib/index.js:12-14 | the default options hold exactly one block |
| Blocks.BlockList | lib/index.js:43-47 | empty options are replaced by the default options; otherwise the configured list is used |
| Blocks.Normalize | lib/index.js:47-50 | a string label expands to the default block for that label; an object is used unchanged |
| Blocks.ShouldSkip | lib/index.js:83-85 | `EXCLUDE_MODES.includes(mode)`: SkipOnlyInDevelopment proves it holds exactly for `development`, and never for an unset mode |
| Blocks.SkipOnlyInDevelopment | lib/index.js:83-85 | the environment gate skips exactly the mode `development` |
| Blocks.IsEmpty | lib/index.js:92-94 | options with no keys; BlockList replaces exactly these by the default options |
| Blocks.HasReplacement | lib/index.js:108-110 | a `replacement` property that is present and not `null`; PrepareKeepsPreline proves the callback output then contains it |
| Blocks.RegexEscape | lib/index.js:99-101 | escaping never shortens a token |
| Blocks.UnescapeEscape | lib/index.js:99-101 | reading the escaped token as a pattern gives back the token itself (round trip) |
| Blocks.EscapeIsLiteral | lib/index.js:99-101 | the escaped token is made only of literal atoms: no metacharacter is left unescaped |
| Blocks.EscapePlain | lib/index.js:99-101 | a token without metacharacters is left unchanged |
| Blocks.EscapeAppend | lib/index.js:99-101 | escaping a concatenation escapes each part |
| Blocks.EscapeLength | lib/index.js:99-101 | the escaped token is longer by exactly one backslash per metacharacter |
| Blocks.Resolve | lib/index.js:52-55 | the four pattern pieces are literal patterns that match exactly prefix, suffix, start and end; an empty prefix or suffix stays empty |
| Strip.BlockMarkers | lib/index.js:52-62 | the texts the assembled pattern matches literally are the block's own tokens |
| Matcher.SpaceRun | lib/index.js:60 | `[\t ]*` at an index: the run consumed is all spaces and tabs and is maximal |
| Matcher.MarkerEnd | lib/index.js:60 | a marker found at `i` covers at least prefix, token and suffix and ends inside the content |
| Matcher.MarkerEndShape | lib/index.js:60 | a found marker begins with the prefix, has the token after the space run, and ends with the suffix |
| Matcher.MarkerParts | lib/index.js:60 | a found marker is exactly prefix, spaces, token, spaces and suffix laid end to end |
| Matcher.FirstClosing | lib/index.js:60 | the result is a closing marker, none occurs before it, and None means none exists |
| Matcher.ClosingAfter | lib/index.js:60 | the lazy body `([\s\S]*?)` stops at the nearest closing marker after the opening marker |
| Matcher.ClosingAfterAsWritten | lib/index.js:60 | `([\s\S]*?)?` as JavaScript runs it: the result is a closing marker with none strictly between the opening marker and it; the closing marker right at the opening marker is taken only when no later one exists; None means there is no closing marker at all |
| Matcher.LineFeedEnd | lib/index.js:60 | `(\n?)` consumes a line feed exactly when one is present |
| Matcher.Assemble | lib/index.js:58-62 | the match begins at `p`, has the given opening and closing markers, and stops after the closing marker inside the content |
| Matcher.AssembleShape | lib/index.js:58-62 | an assembled match has the shape of the pattern: captures, markers and space runs laid end to end, each run maximal |
| Matcher.MatchAt | lib/index.js:58-62 | a match found at `p` consumes at least one character and stops inside the content |
| Matcher.MatchAtShape | lib/index.js:58-65 | every match has the pattern's shape, and its marked text holds no closing marker |
| Matcher.MatchAtMarkers | lib/index.js:58-62 | the match's opening and closing markers are where its positions say, in order |
| Matcher.MatchAtAsWritten | lib/index.js:58-62 | the match JavaScript finds consumes at least one character and stops inside the content |
| Matcher.MarkerFound | lib/index.js:60 | a marker written as prefix, spaces, token, spaces and suffix (no spaces before an empty suffix) is found where it is written and ends right after it |
| Matcher.MatchFound | lib/index.js:58-62 | an opening marker after the leading space run, and a closing marker with none before it, make the match at `p`, with the text between them as marked text |
| Matcher.WrittenBlockMatched | lib/index.js:58-62 | an opening marker written with any spacing after the leading space run opens the match at `p`; the match closes at the first closing marker and marks the text between |
| Matcher.ClosingChoicesAgree | lib/index.js:60 | where no closing marker begins right at the opening marker's end, JavaScript's choice of closing marker is the nearest one |
| Matcher.MatchAtAgrees | lib/index.js:58-62 | in content without an empty block, the match JavaScript finds at each index is the modelled match |
| Matcher.CapturesWellFormed | lib/index.js:64-65 | `preline` and `endline` are empty or one line feed; `prespace` and `postspace` are spaces and tabs |
| Matcher.MatchNeedsStartToken | lib/index.js:58-62 | a match can only occur where the start token occurs in the content |
| Matcher.MarkerHasNoNewline | lib/index.js:60 | a marker holds no line feed when its tokens hold none |
| Matcher.MatchNewlines | lib/index.js:58-65 | the line feeds of a matched region are the one captured before it, those of the marked text and the one captured after it |
| Matcher.EmptyBlockAsWritten | lib/index.js:60 | as written, in "se e" the block opened by "s" does not close at the "e" right after it; the match runs to the second "e" |
| Matcher.EmptyBlockClosesAtOnce | lib/index.js:60 | with the shortest body, the same block closes at once with an empty marked text; the space after it is its postspace and only the final `e` stays outside it |
| Rewriter.TrailingRunStart | lib/index.js:128 | the text from the result on is spaces and tabs, and the run is maximal |
| Rewriter.TrailingSpaces | lib/index.js:128 | the first match of `/\*?([ \t]*)$/` is a suffix of the marked text |
| Rewriter.TrailingSpacesShape | lib/index.js:128 | that suffix is the maximal trailing run of spaces and tabs, preceded by `*` exactly when a `*` stands right before the run |
| Rewriter.IsWholeLine | lib/index.js:150-152 | both line captures are non-empty; WholeLineCaptures proves this means a line feed was captured on each side of the match |
| Rewriter.WholeLineCaptures | lib/index.js:150-152 | for well-formed captures, a match is a whole line exactly when `preline` and `endline` are both a line feed |
| Rewriter.IsMultiLine | lib/index.js:159-161 | the marked text holds a carriage return or a line feed; RemovalLeavesLayout, ReplacementOnItsOwnLine and Strip.RemovalLineCount state what each value of it leads to |
| Rewriter.Prepare | lib/index.js:64-72 | the replacer callback: a replacement present selects PrepareWithReplacement, otherwise PrepareWithoutReplacement; PrepareKeepsPreline proves every outcome begins with `preline` and holds the replacement when one is given |
| Rewriter.PrepareWithReplacement | lib/index.js:118-124 | multi-line marked text selects the multi-line outcome, single-line the single-line one; ReplacementOnItsOwnLine and ReplacementInline state the results |
| Rewriter.PrepareMultiLineWithReplacement | lib/index.js:126-133 | `preline`, the trailing spaces of the marked text with `keepspace`, the replacement and `eol`, as ReplacementOnItsOwnLine states |
| Rewriter.PrepareSingleLineWithReplacement | lib/index.js:135-143 | a whole-line block ends its own line with `eol` (ReplacementOnItsOwnLine); an inline one is spliced in with its spacing kept under `keepspace` (ReplacementInline) |
| Rewriter.PrepareWithoutReplacement | lib/index.js:169-175 | multi-line and single-line removal by the marked text; RemovalLeavesLayout proves it leaves `preline` and only spaces, with no new line feed |
| Rewriter.PrepareMultiLineWithoutReplacement | lib/index.js:177-183 | `preline`, plus the spacing after the block with `keepspace`, as RemovalKeepsSpacing states |
| Rewriter.PrepareSingleLineWithoutReplacement | lib/index.js:185-191 | exactly `preline` for a whole-line block or without `keepspace`, and the spacing on both sides for an inline block with it (RemovalLeavesLayout, RemovalKeepsSpacing) |
| Rewriter.RemovalLeavesLayout | lib/index.js:169-191 | a removed block leaves its leading line feed plus only spaces, adds no line feed, and leaves exactly the line feed when the block is alone on its line or `keepspace` is off |
| Rewriter.RemovalKeepsSpacing | lib/index.js:177-191 | with `keepspace`, a multi-line removal keeps the spacing after the block, and an inline removal keeps the spacing on both sides |
| Rewriter.ReplacementOnItsOwnLine | lib/index.js:118-143 | the replacement of a multi-line or whole-line block ends its own line with `eol`, after the indentation `keepspace` keeps |
| Rewriter.ReplacementInline | lib/index.js:135-143 | the replacement of an inline block is spliced where the block was, and the line goes on after it |
| Rewriter.PrepareKeepsPreline | lib/index.js:64-72 | the callback's output always begins with the captured line feed and contains the replacement when one is given |
| Strip.Step | lib/index.js:64 | every step of the scan moves forward |
| Strip.StepAsWritten | lib/index.js:64 | every step of the scan as JavaScript runs it moves forward |
| Strip.RewriteFrom | lib/index.js:58-72 | `replaceAll` from an index: RewriteWithoutMatch, RewriteCopiesUpTo and RewriteAtFirstMatch prove it copies text without a match, replaces the leftmost match and resumes after it |
| Strip.Pass | lib/index.js:58-72 | one global replace pass; ReplaceAll computes it, PassWithoutStartToken and PassIdempotentWhenMarkersGone state when it changes nothing, and PassAgrees ties it to the pass as written |
| Strip.RewriteAgrees | lib/index.js:64-72 | in content without an empty block, the scan as JavaScript runs it yields the modelled scan from every index |
| Strip.PassAgrees | lib/index.js:58-72 | in content without an empty block, the pass lib/index.js performs is `Pass` |
| Strip.EmptyBlockPassesDiffer | lib/index.js:58-72 | for `se k s x e` with start `s` and end `e`, `Pass` gives `k` but the pass as written gives the empty text, and the content has an empty block |
| Strip.ReplaceAll | lib/index.js:64-72 | the loop over the content computes `Pass`: at each index in turn it replaces the match found there and resumes after it, or copies one character |
| Strip.RewriteWithoutMatch | lib/index.js:64 | with no match from an index on, the rest of the content is copied unchanged |
| Strip.RewriteCopiesUpTo | lib/index.js:64 | up to the leftmost match, the content is copied unchanged |
| Strip.RewriteAtFirstMatch | lib/index.js:64-72 | text before the leftmost match is copied, the match is replaced, and the scan resumes right after it |
| Strip.PassWithoutStartToken | lib/index.js:58-64 | content that does not contain the start token in its exact case comes out of the pass unchanged |
| Strip.PassIdempotentWhenMarkersGone | lib/index.js:64 | a second pass of the same block changes nothing once its start token is gone |
| Strip.ApplyBlocksStep | lib/index.js:47-73 | applying one more block is one more pass on the output so far |
| Strip.ApplyBlocks | lib/index.js:47-73 | the passes of a block list in order; RemoveCodeBlocks returns it, ApplyBlocksStep adds one block and ApplyBlocksAppend shows the blocks act strictly in list order |
| Strip.ValidOptionsStarts | lib/index.js:47-55 | every block of valid options has a non-empty start token |
| Strip.RemoveCodeBlocks | lib/index.js:38-76 | in `development` the content is returned unchanged; otherwise the result is the passes of the listed blocks, in order, each on the output of the ones before |
| Strip.StartsNonEmptyAppend | lib/index.js:47 | two block lists with non-empty starts make one with non-empty starts |
| Strip.ApplyBlocksAppend | lib/index.js:47-73 | applying two lists one after the other equals applying their concatenation: blocks act strictly in list order |
| Strip.RemovalLineCount | lib/index.js:58-72 | removing a block removes exactly the line feeds inside it and the one after it; the one before it is kept |
| Strip.LabelTokenValid | lib/index.js:23-24 | a valid label followed by a valid token is a valid token |
| Strip.LabelBlockValid | lib/index.js:21-30 | the block generated from a valid label satisfies the matcher's assumptions |
| Strip.DefaultOptionsValid | lib/index.js:12-14 | empty options stand for the one `devblock` block, and that block satisfies the matcher's assumptions |
| Removal.MarkerAtSpaced | lib/index.js:60 | a marker written `prefix token suffix` with one space either side is found and ends right after its suffix |
| Removal.InlineRemovalText | lib/index.js:185-188 | an inline block removed with `keepspace` leaves exactly the spacing in front of it |
| Removal.OpeningFound | lib/index.js:60 | in the inline layout, the opening marker is found where it was written |
| Removal.ClosingFound | lib/index.js:60 | in the inline layout, the first closing marker after the opening marker is the written one |
| Removal.BlockMatched | lib/index.js:58-64 | no match begins inside the leading word, and the leftmost match covers the block to the end of the content |
| Removal.LayoutRemoved | lib/index.js:64-72 | a pass over the inline layout leaves the word and the spacing before the block |
| Removal.InlineBlockRemoved | lib/index.js:64-72 | `word spacing /* start */ body /* end */` becomes `word spacing` for every block with slash-led tokens, `keepspace` and no replacement |
| Removal.DefaultBlockRemoved | test/index.test.js:72-77 | with empty options, `visible /* devblock:start */ … /* devblock:end */`, and every content of that layout, becomes `visible ` |
| Removal.UpperCaseTokensValid | test/index.test.js:86-98 | the upper-case block object satisfies the matcher's assumptions and the inline layout's |
| Removal.UpperCaseBlockRemoved | test/index.test.js:86-103 | with the upper-case block configured, the block marked in upper case is removed and the text before it kept |
| Validator.VisibleCounts | lib/validator.js:54-60 | the filter drops every `oneOf`, `if`, `then` and `else` error and keeps every other error as often as it occurs |
| Validator.IsVisibleValidationError | lib/validator.js:54-60 | an error is hidden exactly when its keyword is `oneOf`, `if`, `then` or `else`; VisibleCounts states the filter built on it |
| Validator.Visible | lib/validator.js:38-39 | `errors.filter(isVisibleValidationError)`: VisibleCounts proves it keeps every visible error as often as it occurs and drops the rest |
| Validator.Split | lib/validator.js:80 | a split always yields at least one piece |
| Validator.SplitJoin | lib/validator.js:80 | joining the pieces of a split with the separator gives back the text |
| Validator.SplitWithoutSeparator | lib/validator.js:80 | a text without the separator splits into itself |
| Validator.SplitAtSeparator | lib/validator.js:80 | a piece before the first separator splits off as the first piece |
| Validator.IndexText | lib/validator.js:76-80 | an array index in a path is a non-empty run of decimal digits |
| Validator.IndexTextValue | lib/validator.js:76-80 | an index segment, coerced to a number, is the index itself |
| Validator.ToNumber | lib/validator.js:76-80 | a position segment coerced to a number: IndexTextValue proves the digits of an index give that index |
| Validator.Decompose | lib/validator.js:76-80 | the section, position and field name of a path with their defaults, as DecomposeFieldPath, DecomposeElementPath and DecomposeSectionPath state |
| Validator.DecomposeFieldPath | lib/validator.js:76-80 | `/section/index/name` yields that section, that index and that name |
| Validator.DecomposeElementPath | lib/validator.js:76-80 | `/section/index` yields that section and index, and the name defaults to the empty string |
| Validator.DecomposeSectionPath | lib/validator.js:76-80 | `/section` yields that section, and the position defaults to 99 |
| Validator.OrderFor | lib/validator.js:81 | the configured field order of the section, else none; BlockFieldRanks, FieldRanks and ElementBeforeFieldExample state what each gives |
| Validator.OrderIndex | lib/validator.js:102-111 | the result is -1 or an index whose entry the name includes, and no earlier entry (none at all for -1) is included |
| Validator.RetrieveOrder | lib/validator.js:102-111 | the loop with its early return computes that index |
| Validator.EmptyNameRanksFirst | lib/validator.js:102-111 | an error without a field name ranks -1, before every listed field |
| Validator.AddPriorities | lib/validator.js:68-93 | the ranked record carries the same error |
| Validator.RankAll | lib/validator.js:40 | `errors.map(addPriorities(config))`: RankAllErrors and RankAllRankedBy prove it keeps the errors in order and ranks each by its own path |
| Validator.LocaleCompare | lib/validator.js:123 | `localeCompare` as lexicographic order; LocaleCompareOrder proves it yields -1, 0 or 1, 0 exactly for equal texts, and flips sign when its arguments swap |
| Validator.LocaleCompareOrder | lib/validator.js:123 | the path comparison is a total order: -1, 0 or 1, 0 exactly for equal paths, antisymmetric |
| Validator.SortByPriorities | lib/validator.js:119-124 | position, then field priority, then path; TieIff, CompareFlip, CompareTransitive, PositionFirst and PathBreaksTie state it |
| Validator.TieIff | lib/validator.js:119-124 | two errors with numeric positions tie exactly when position, name priority and path all agree |
| Validator.CompareFlip | lib/validator.js:119-124 | on numeric positions, the comparator is antisymmetric |
| Validator.CompareTransitive | lib/validator.js:119-124 | on numeric positions, "may come before" is transitive |
| Validator.InsertPermutes | lib/validator.js:42-43 | an insertion step adds exactly the inserted element |
| Validator.InsertKeepsErrors | lib/validator.js:42-43 | an insertion step adds exactly the inserted element's error |
| Validator.Insert | lib/validator.js:42-43 | one insertion step of the stable sort; InsertPermutes, InsertSorted and InsertStable state it |
| Validator.Sort | lib/validator.js:42-43 | `errors.sort(sortByPriorities)` as a stable insertion sort; SortPermutes, SortSorted and SortStable prove it a sorted, stable permutation, and SortInPlace computes it |
| Validator.SortPermutes | lib/validator.js:42-43 | sorting is a permutation |
| Validator.SortKeepsErrors | lib/validator.js:42-43 | sorting neither drops nor duplicates an error |
| Validator.InsertSorted | lib/validator.js:42-43 | inserting into a sorted list keeps it sorted |
| Validator.SortSorted | lib/validator.js:42-43 | with numeric positions, the sorted list is ascending by the comparator |
| Validator.InsertStable | lib/validator.js:42-43 | an insertion step puts the inserted element after every element it ties with |
| Validator.SortStable | lib/validator.js:42-43 | the sort is stable: errors that tie keep their original order |
| Validator.InsertInPlace | lib/validator.js:42-43 | moving `a[i]` back in the array yields the insertion of `a[i]` into `a[..i]`; the rest of the array is unchanged |
| Validator.SortInPlace | lib/validator.js:42-43 | the array sorted in place holds the stable insertion sort of its old contents |
| Validator.FormatValidationErrors | lib/validator.js:36-46 | the message is the messages of the visible, ranked, sorted errors, joined with " and " |
| Validator.MessageText | lib/validator.js:44 | `err.message` as `join` renders it; SingleErrorMessage shows a single error yields exactly its message |
| Validator.Messages | lib/validator.js:44 | the messages of the errors, one per error, as MessageParts states |
| Validator.FormattedMessage | lib/validator.js:36-46 | the message FormatValidationErrors returns; OrderedErrors, OrderedSorted and MessageParts state which errors it reports and in which order |
| Validator.ErrorList | lib/validator.js:22 | the error list of the schema validator, empty when unset: Validate fails with the message of no errors when the list is unset |
| Validator.Validate | lib/validator.js:17-27 | returns normally exactly when the schema validator accepts; otherwise fails with the formatted message of its errors (none when `errors` is unset) |
| Validator.RankAllErrors | lib/validator.js:40 | ranking keeps the errors and their order |
| Validator.RankAllRankedBy | lib/validator.js:40 | every ranked error carries the priorities of its own path |
| Validator.OrderedErrors | lib/validator.js:36-46 | the message reports exactly the visible errors, each as often as it was reported, each with its own priorities |
| Validator.OrderedSorted | lib/validator.js:36-46 | with numeric positions, the errors are reported ascending by position, then field order, then path, and tied errors keep the order they came in |
| Validator.ReportedBefore | lib/validator.js:42-45 | an error whose rank is strictly smaller is reported before the other |
| Validator.PositionFirst | lib/validator.js:121 | an error on an element at a smaller position is reported first, whatever the field order |
| Validator.SingleErrorMessage | lib/validator.js:36-46 | a single visible error yields exactly its own message |
| Validator.MessageParts | lib/validator.js:36-46 | the message has one part per visible error |
| Validator.PathBreaksTie | lib/validator.js:123 | errors tied on position and field priority are ordered by path |
| Validator.ElementBeforeFieldExample | test/unit/validator.test.js:193-204 | without `orders`, the error on `/blocks/0` is reported before the one on `/blocks/0/prefix` |
| Validator.PathOrderExample | test/unit/validator.test.js:193-204 | without `orders`, the error on `/blocks/0/prefix` is reported before the one on `/blocks/0/start` |
| Validator.BlockFieldRanks | test/unit/validator.test.js:210 | with the field order start, end, prefix, suffix, those three fields rank 0, 1 and 2 |
| Validator.FieldRanks | test/unit/validator.test.js:206-219 | with that order, `start` ranks before `end` and `end` before `prefix` on the same element |
| Validator.FieldOrderExample | test/unit/validator.test.js:206-219 | with `orders.blocks = [start, end, prefix, suffix]`, errors on one element are reported in that field order |

## Left out

- The regular-expression engine is not modelled. The explicit matcher stands for the one pattern
  the code builds. It is exact only under the assumption `ValidMarkers`: non-empty start and end;
  no line feed and no `|` in a token; no space or tab at either end of a token.
- Strip.RemoveCodeBlocks: requires `ValidOptions`. Blocks outside that assumption are not
  modelled:
  - an empty start or end token;
  - a token with a line feed or `|`;
  - a token with spacing at its ends.
  The code runs the regex on them too.
- Strip.RemoveCodeBlocks: options that are not empty yet lack `blocks`, and a block without
  `start` or `end`, make lib/index.js throw a TypeError. These cannot be expressed in the model's
  types, which always have a list of blocks and string tokens.
- A `replacement` property that is present and set to `undefined` counts as a replacement in
  the code and is rendered as the text "undefined". It is not modelled: a replacement is absent,
  `null` or a string. Truthiness of `keepspace` is a boolean.
- `process.env.NODE_ENV` and `os.EOL` are the parameters `mode` and `eol`. Reading them is not
  modelled.
- Strip.RemoveCodeBlocks: each pass is `Pass`, which ends the marked text at the nearest closing
  marker, empty text included. lib/index.js performs `PassAsWritten`, which skips an empty marked
  text when a later closing marker exists. With default options and `mode` `production`, the
  content `/* devblock:start *//* devblock:end */ keep /* devblock:start */ x /* devblock:end */`
  gives the empty text in lib/index.js and ` keep ` in the model. Strip.PassAgrees proves the two
  passes equal whenever no closing marker begins right at the end of an opening marker.
- Removal.InlineBlockRemoved: holds for blocks whose prefix begins with `/` (`SlashTokens`). The
  special-characters test of test/index.test.js:54-70, whose prefix is `<!--`, is outside that
  condition; its block is covered only per match, by `Matcher` and `Rewriter`.
- The upper-case tests with default settings are covered only by the general
  Strip.PassWithoutStartToken. No lemma instantiates it with the concrete test string.
- The complete-removal lemmas of `Removal` cover the inline, single-line layout: a word,
  spacing, markers written with one space inside. Multi-line and whole-line removals are
  covered per match, by `Rewriter` and Strip.RemovalLineCount, not as whole-content results.
- When `([\s\S]*?)?` skips its group, `marked` is `undefined`. The model represents this as
  the empty text. Both take the single-line branch and neither reaches the multi-line trailing
  match.
- Ajv, the schema and the wording of the error messages are not modelled. The validator's
  verdict and error list are inputs to Validator.Validate.
- Validator.LocaleCompare: `localeCompare` is modelled as lexicographic order on character
  codes. Locale collation rules are not modelled.
- Validator.Decompose: a position segment of decimal digits (or an empty one) becomes that
  number. Any other segment becomes NaN. The rest of JavaScript's string-to-number coercion
  (signs, spacing, exponents, hexadecimal) is not modelled.
- Validator.SortSorted: sortedness and stability are proved only when every position is a
  number (Validator.NumericPaths). With a NaN position the comparator is not a consistent
  order, so the result of the engine's sort depends on the engine. The model then keeps its
  insertion order.
- Validator.SortInPlace: `Array.prototype.sort` is modelled as an in-place insertion sort. For
  a consistent comparator, every stable sort gives this result.
- Validator.AddPriorities: the code defines the two priorities as properties on the error
  object itself. The model builds a new ranked record around the unchanged error, so in-place
  mutation and aliasing are not modelled.
- test/helpers/reader.js, which reads fixture files from disk for the repository's tests, is not part of this model.

## Findings

| source | as written | input that shows it | evidently intended | confidence | as-written member | corrected member |
|---|---|---|---|---|---|---|
| lib/index.js:60 | The body group `([\s\S]*?)?` is optional, and ECMAScript forbids an optional group from matching the empty text. The lazy body therefore prefers a non-empty marked text: a block whose closing marker follows its opening marker directly is closed at the next closing marker instead, if there is one. | start token `s`, end token `e`, empty prefix and suffix, content `se e`: the match runs to the second `e`, with marked text `e`. The same happens to `/* devblock:start *//* devblock:end */` followed by a later block; for a whole pass, Strip.EmptyBlockPassesDiffer shows `se k s x e` giving the empty text as written and `k` in the model. | The marked text is the shortest text up to the nearest closing marker, empty included: the match closes at once at the first `e` with empty marked text; the space after it is its postspace and only the final `e` stays outside it. | not executed | Matcher.EmptyBlockAsWritten | Matcher.EmptyBlockClosesAtOnce |
