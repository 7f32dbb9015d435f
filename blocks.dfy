/**
 * Block specifications of the stripper (lib/index.js): the default block, the expansion of a
 * bare label, the environment gate, and the regex escaping of the marker tokens.
 */
module Blocks {
  import opened Wrappers
  import opened Strings

  const EXCLUDE_MODES: seq<string> := ["development"]
  const DEFAULT_LABEL: string := "devblock"
  const BLOCK_START: string := "start"
  const BLOCK_END: string := "end"
  const COMMENT_START: string := "/*"
  const COMMENT_END: string := "*/"

  /**
   * The `replacement` property of a block object: not an own property, present with the value
   * `null`, or present with a string.
   */
  datatype Replacement = Missing | Null | Given(text: string)

  /**
   * A block object. An absent or empty `prefix`/`suffix` is the empty string (`block.prefix ? … : ''`
   * treats both alike) and an absent `keepspace` is `false`.
   */
  datatype Block = Block(start: string, end: string, prefix: string, suffix: string,
                         keepspace: bool, replacement: Replacement)

  /** An element of `options.blocks`: a bare string label or a block object. */
  datatype BlockSpec = Label(name: string) | Explicit(block: Block)

  /** The options argument: the empty object `{}` (also the default), or an object with `blocks`. */
  datatype Options = NoOptions | Configured(blocks: seq<BlockSpec>)

  /** A block with the regex-escaped marker tokens the pattern is assembled from. */
  datatype Resolved = Resolved(block: Block, prefix: string, suffix: string, start: string, end: string)

  function GenerateDefaultOptions(name: string): (b: Block)
    ensures b.prefix == COMMENT_START && b.suffix == COMMENT_END
    ensures b.keepspace && b.replacement == Null
    ensures b.start == name + ":" + BLOCK_START && b.end == name + ":" + BLOCK_END
    ensures StartsWith(b.start, 0, name + ":") && StartsWith(b.end, 0, name + ":")
    ensures b.start != b.end
  {
    var b := Block(name + ":" + BLOCK_START, name + ":" + BLOCK_END, COMMENT_START, COMMENT_END, true, Null);
    assert b.start[|name| + 1] == 's' && b.end[|name| + 1] == 'e';
    b
  }

  function DefaultOptions(): (o: Options)
    ensures o.Configured? && |o.blocks| == 1
  {
    Configured([Explicit(GenerateDefaultOptions(DEFAULT_LABEL))])
  }

  predicate ShouldSkip(mode: Option<string>) {
    mode.Some? && mode.value in EXCLUDE_MODES
  }

  /** Of all environments, only `development` is skipped; an unset one is not. */
  lemma SkipOnlyInDevelopment(mode: Option<string>)
    ensures ShouldSkip(mode) <==> mode == Some("development")
  {
  }

  /** `Object.keys(options).length === 0`. */
  predicate IsEmpty(options: Options) {
    options.NoOptions?
  }

  /** The block list a call works through: the default list for empty options. */
  function BlockList(options: Options): (bs: seq<BlockSpec>)
    ensures IsEmpty(options) ==> bs == DefaultOptions().blocks
    ensures !IsEmpty(options) ==> bs == options.blocks
  {
    if IsEmpty(options) then DefaultOptions().blocks else options.blocks
  }

  /** `typeof block === 'string'` expands the label; an object is used as it is. */
  function Normalize(spec: BlockSpec): (b: Block)
    ensures spec.Explicit? ==> b == spec.block
    ensures spec.Label? ==> b == GenerateDefaultOptions(spec.name)
  {
    match spec
    case Label(l) => GenerateDefaultOptions(l)
    case Explicit(b) => b
  }

  predicate HasReplacement(b: Block) {
    b.replacement.Given?
  }

  /** The characters `regexEscape` puts a backslash in front of. */
  predicate IsMeta(c: char) {
    c == '^' || c == '$' || c == '.' || c == '*' || c == '+' || c == '?' || c == '=' || c == '!' ||
    c == ':' || c == '\\' || c == '/' || c == '(' || c == ')' || c == '[' || c == ']' || c == '{' || c == '}'
  }

  function RegexEscape(s: string): (r: string)
    ensures |r| >= |s|
  {
    if s == [] then []
    else if IsMeta(s[0]) then ['\\', s[0]] + RegexEscape(s[1..])
    else [s[0]] + RegexEscape(s[1..])
  }

  /**
   * A pattern text made only of literal atoms: a character that is neither a metacharacter nor a
   * backslash, or a backslash followed by a metacharacter.
   */
  predicate IsEscaped(p: string)
    decreases |p|
  {
    if p == [] then true
    else if p[0] == '\\' then |p| >= 2 && IsMeta(p[1]) && IsEscaped(p[2..])
    else !IsMeta(p[0]) && IsEscaped(p[1..])
  }

  /** The text a literal pattern matches: `\c` stands for `c`, any other character for itself. */
  function Unescape(p: string): (r: string)
    ensures |r| <= |p|
    decreases |p|
  {
    if p == [] then []
    else if |p| >= 2 && p[0] == '\\' then [p[1]] + Unescape(p[2..])
    else [p[0]] + Unescape(p[1..])
  }

  lemma {:induction false} UnescapeEscape(s: string)
    ensures Unescape(RegexEscape(s)) == s
  {
    if s != [] {
      UnescapeEscape(s[1..]);
      if IsMeta(s[0]) {
        assert (['\\', s[0]] + RegexEscape(s[1..]))[2..] == RegexEscape(s[1..]);
      } else {
        assert ([s[0]] + RegexEscape(s[1..]))[1..] == RegexEscape(s[1..]);
      }
    }
  }

  /** The escaped text is a pattern of literal atoms only. */
  lemma {:induction false} EscapeIsLiteral(s: string)
    ensures IsEscaped(RegexEscape(s))
  {
    if s != [] {
      EscapeIsLiteral(s[1..]);
      if IsMeta(s[0]) {
        assert (['\\', s[0]] + RegexEscape(s[1..]))[2..] == RegexEscape(s[1..]);
      } else {
        assert ([s[0]] + RegexEscape(s[1..]))[1..] == RegexEscape(s[1..]);
      }
    }
  }

  lemma {:induction false} EscapePlain(s: string)
    requires forall i :: 0 <= i < |s| ==> !IsMeta(s[i])
    ensures RegexEscape(s) == s
  {
    if s != [] {
      EscapePlain(s[1..]);
    }
  }

  lemma {:induction false} EscapeAppend(a: string, b: string)
    ensures RegexEscape(a + b) == RegexEscape(a) + RegexEscape(b)
  {
    if a == [] {
      assert a + b == b;
    } else {
      var piece := if IsMeta(a[0]) then ['\\', a[0]] else [a[0]];
      assert (a + b)[0] == a[0] && (a + b)[1..] == a[1..] + b;
      assert RegexEscape(a + b) == piece + RegexEscape(a[1..] + b);
      assert RegexEscape(a) == piece + RegexEscape(a[1..]);
      EscapeAppend(a[1..], b);
    }
  }

  /** Every metacharacter of the input appears in the output behind a backslash. */
  lemma {:induction false} EscapeLength(s: string)
    ensures |RegexEscape(s)| == |s| + MetaCount(s)
  {
    if s != [] {
      EscapeLength(s[1..]);
    }
  }

  function MetaCount(s: string): nat {
    if s == [] then 0 else (if IsMeta(s[0]) then 1 else 0) + MetaCount(s[1..])
  }

  /** The escaped tokens of lines 52-55; an empty prefix or suffix stays empty. */
  function Resolve(b: Block): (r: Resolved)
    ensures r.block == b
    ensures Unescape(r.prefix) == b.prefix && Unescape(r.suffix) == b.suffix
    ensures Unescape(r.start) == b.start && Unescape(r.end) == b.end
    ensures IsEscaped(r.prefix) && IsEscaped(r.suffix) && IsEscaped(r.start) && IsEscaped(r.end)
  {
    UnescapeEscape(b.prefix);
    UnescapeEscape(b.suffix);
    UnescapeEscape(b.start);
    UnescapeEscape(b.end);
    EscapeIsLiteral(b.prefix);
    EscapeIsLiteral(b.suffix);
    EscapeIsLiteral(b.start);
    EscapeIsLiteral(b.end);
    Resolved(b,
             if b.prefix != "" then RegexEscape(b.prefix) else "",
             if b.suffix != "" then RegexEscape(b.suffix) else "",
             RegexEscape(b.start),
             RegexEscape(b.end))
  }
}
