/**
 * The error-message formatter of lib/validator.js. The schema validator (Ajv) is not modelled:
 * its verdict and its error list are inputs. What is modelled is how the errors become the one
 * message `validate` throws: hidden keywords are dropped, every other error is ranked by the
 * position and the field named in its path, the errors are stably sorted by rank and their
 * messages are joined with " and ".
 */
module Validator {
  import opened Wrappers
  import opened Strings

  /** An error record `{keyword, instancePath, message?}`; the message is absent when none is set. */
  datatype ValidationError = ValidationError(keyword: string, instancePath: string, message: Option<string>)

  /** The optional `config.orders`: per section, the field names in the order their errors are reported. */
  datatype Config = Config(orders: Option<map<string, seq<string>>>)

  /** The errors that branch keywords of the schema emit besides the real error. */
  predicate IsVisibleValidationError(e: ValidationError) {
    e.keyword != "oneOf" && e.keyword != "if" && e.keyword != "then" && e.keyword != "else"
  }

  /** `errors.filter(isVisibleValidationError)`. */
  function Visible(errors: seq<ValidationError>): seq<ValidationError>
    decreases |errors|
  {
    if errors == [] then []
    else (if IsVisibleValidationError(errors[0]) then [errors[0]] else []) + Visible(errors[1..])
  }

  /** A hidden error is dropped; every other error is kept as often as it occurs. */
  lemma {:induction false} VisibleCounts(errors: seq<ValidationError>)
    ensures forall e :: multiset(Visible(errors))[e] == if IsVisibleValidationError(e) then multiset(errors)[e] else 0
    decreases |errors|
  {
    if errors != [] {
      VisibleCounts(errors[1..]);
      assert errors == [errors[0]] + errors[1..];
    }
  }

  // ---------------------------------------------------------------------------------------------
  // Paths
  // ---------------------------------------------------------------------------------------------

  /** `s.split(sep)` for a one-character separator: the texts between separators, at least one. */
  function Split(s: string, sep: char): (parts: seq<string>)
    ensures |parts| >= 1
    decreases |s|
  {
    if s == [] then [""]
    else
      var rest := Split(s[1..], sep);
      if s[0] == sep then [""] + rest
      else [[s[0]] + rest[0]] + rest[1..]
  }

  /** Joining the pieces with the separator gives the text back. */
  lemma {:induction false} SplitJoin(s: string, sep: char)
    ensures Join(Split(s, sep), [sep]) == s
    decreases |s|
  {
    if s != [] {
      var rest := Split(s[1..], sep);
      SplitJoin(s[1..], sep);
      if s[0] == sep {
        assert Join([""] + rest, [sep]) == "" + [sep] + Join(rest, [sep]) by {
          assert ([""] + rest)[1..] == rest;
        }
        assert s == [s[0]] + s[1..];
      } else if |rest| == 1 {
        assert s == [s[0]] + s[1..];
      } else {
        var parts := [[s[0]] + rest[0]] + rest[1..];
        assert parts[1..] == rest[1..];
        assert Join(rest, [sep]) == rest[0] + [sep] + Join(rest[1..], [sep]);
        assert s == [s[0]] + s[1..];
      }
    }
  }

  lemma {:induction false} SplitWithoutSeparator(a: string, sep: char)
    requires sep !in a
    ensures Split(a, sep) == [a]
    decreases |a|
  {
    if a != [] {
      SplitWithoutSeparator(a[1..], sep);
      assert a == [a[0]] + a[1..];
    }
  }

  /** A piece without the separator followed by the separator splits off as the first piece. */
  lemma {:induction false} SplitAtSeparator(a: string, b: string, sep: char)
    requires sep !in a
    ensures Split(a + [sep] + b, sep) == [a] + Split(b, sep)
    decreases |a|
  {
    if a == [] {
      assert a + [sep] + b == [sep] + b;
      assert ([sep] + b)[1..] == b;
    } else {
      assert (a + [sep] + b)[1..] == a[1..] + [sep] + b;
      assert a[0] != sep;
      SplitAtSeparator(a[1..], b, sep);
      assert [a[0]] + a[1..] == a;
    }
  }

  /** A JavaScript number as far as string-to-number coercion of a path segment goes. */
  datatype JsNumber = Num(value: int) | NaN

  predicate IsDigit(c: char) {
    '0' <= c <= '9'
  }

  predicate AllDigits(s: string) {
    forall i :: 0 <= i < |s| ==> IsDigit(s[i])
  }

  function DecimalValue(s: string): nat
    requires AllDigits(s)
    decreases |s|
  {
    if s == [] then 0 else 10 * DecimalValue(s[..|s| - 1]) + (s[|s| - 1] as int - '0' as int)
  }

  /** How a position segment takes part in a subtraction: decimal digits give their value (and an empty segment 0). */
  function ToNumber(s: string): JsNumber {
    if AllDigits(s) then Num(DecimalValue(s)) else NaN
  }

  /** The decimal digits of an array index, as it appears in a JSON pointer. */
  function IndexText(n: nat): (t: string)
    ensures |t| > 0 && AllDigits(t)
  {
    if n < 10 then [('0' as int + n) as char]
    else IndexText(n / 10) + [('0' as int + n % 10) as char]
  }

  /** An index segment reads back as the index itself. */
  lemma {:induction false} IndexTextValue(n: nat)
    ensures ToNumber(IndexText(n)) == Num(n)
  {
    var t := IndexText(n);
    if n >= 10 {
      IndexTextValue(n / 10);
      assert t[..|t| - 1] == IndexText(n / 10);
      assert t[|t| - 1] as int - '0' as int == n % 10;
    } else {
      assert t[..0] == [] && DecimalValue(t[..0]) == 0;
      assert t[0] as int - '0' as int == n;
      assert DecimalValue(t) == n;
    }
  }

  lemma IndexTextHasNoSlash(n: nat)
    ensures '/' !in IndexText(n)
  {
    var t := IndexText(n);
    assert forall i :: 0 <= i < |t| ==> t[i] != '/' by {
      forall i | 0 <= i < |t| ensures t[i] != '/' {
        assert IsDigit(t[i]);
      }
    }
  }

  /** The parts of an error path: its section, the position in it (99 if none) and the field name. */
  datatype PathParts = PathParts(section: string, position: JsNumber, name: string)

  /** `instancePath.replace(/^\//, '')`. */
  function StripLeadingSlash(path: string): string {
    if |path| > 0 && path[0] == '/' then path[1..] else path
  }

  /** The destructuring at lines 76-80, with its defaults for missing segments. */
  function Decompose(path: string): PathParts {
    var parts := Split(StripLeadingSlash(path), '/');
    PathParts(parts[0],
              if |parts| > 1 then ToNumber(parts[1]) else Num(99),
              if |parts| > 2 then parts[2] else "")
  }

  /** A path to a field of an array element, `/section/index/name`. */
  lemma DecomposeFieldPath(section: string, n: nat, name: string)
    requires '/' !in section && '/' !in name
    ensures Decompose("/" + section + "/" + IndexText(n) + "/" + name) == PathParts(section, Num(n), name)
  {
    var idx := IndexText(n);
    var path := "/" + section + "/" + idx + "/" + name;
    assert StripLeadingSlash(path) == section + ['/'] + (idx + ['/'] + name);
    IndexTextHasNoSlash(n);
    IndexTextValue(n);
    SplitAtSeparator(section, idx + ['/'] + name, '/');
    SplitAtSeparator(idx, name, '/');
    SplitWithoutSeparator(name, '/');
  }

  /** A path to an array element, `/section/index`: the name defaults to the empty string. */
  lemma DecomposeElementPath(section: string, n: nat)
    requires '/' !in section
    ensures Decompose("/" + section + "/" + IndexText(n)) == PathParts(section, Num(n), "")
  {
    var idx := IndexText(n);
    assert StripLeadingSlash("/" + section + "/" + idx) == section + ['/'] + idx;
    IndexTextHasNoSlash(n);
    IndexTextValue(n);
    SplitAtSeparator(section, idx, '/');
    SplitWithoutSeparator(idx, '/');
  }

  /** A path to a whole section, `/section`: the position defaults to 99. */
  lemma DecomposeSectionPath(section: string)
    requires '/' !in section
    ensures Decompose("/" + section) == PathParts(section, Num(99), "")
  {
    assert StripLeadingSlash("/" + section) == section;
    SplitWithoutSeparator(section, '/');
  }

  // ---------------------------------------------------------------------------------------------
  // Priorities
  // ---------------------------------------------------------------------------------------------

  /** `config?.orders?.[section] || []`. */
  function OrderFor(config: Config, section: string): seq<string> {
    match config.orders
    case None => []
    case Some(orders) => if section in orders then orders[section] else []
  }

  /** The index of the first entry of `order` that `name` includes, or -1. */
  function OrderIndex(name: string, order: seq<string>): (i: int)
    ensures -1 <= i < |order|
    ensures i >= 0 ==> Contains(name, order[i])
    ensures forall j :: 0 <= j < |order| && (i == -1 || j < i) ==> !Contains(name, order[j])
    decreases |order|
  {
    if order == [] then -1
    else if Contains(name, order[0]) then 0
    else
      var rest := OrderIndex(name, order[1..]);
      assert forall j :: 1 <= j < |order| ==> order[j] == order[1..][j - 1];
      if rest == -1 then -1 else rest + 1
  }

  /** `retrieveOrder`: the loop with its early return. */
  method RetrieveOrder(name: string, order: seq<string>) returns (r: int)
    ensures r == OrderIndex(name, order)
  {
    var i := 0;
    while i < |order|
      invariant 0 <= i <= |order|
      invariant forall j :: 0 <= j < i ==> !Contains(name, order[j])
    {
      if Contains(name, order[i]) {
        return i;
      }
      i := i + 1;
    }
    return -1;
  }

  /** An empty name includes no non-empty entry, so it ranks -1, before every listed field. */
  lemma EmptyNameRanksFirst(order: seq<string>)
    requires forall j :: 0 <= j < |order| ==> |order[j]| > 0
    ensures OrderIndex("", order) == -1
  {
  }

  /** An error with the two priorities `addPriorities` attaches to it. */
  datatype Ranked = Ranked(error: ValidationError, priorityByIndex: JsNumber, priorityByName: int)

  /** `addPriorities(config)(err)`: the same error, ranked by the parts of its path. */
  function AddPriorities(config: Config, e: ValidationError): (r: Ranked)
    ensures r.error == e
  {
    var parts := Decompose(e.instancePath);
    Ranked(e, parts.position, OrderIndex(parts.name, OrderFor(config, parts.section)))
  }

  function RankAll(config: Config, errors: seq<ValidationError>): seq<Ranked>
    decreases |errors|
  {
    if errors == [] then []
    else RankAll(config, errors[..|errors| - 1]) + [AddPriorities(config, errors[|errors| - 1])]
  }

  /** `localeCompare`, read as plain lexicographic order. */
  function LocaleCompare(a: string, b: string): int {
    if LexLess(a, b) then -1 else if a == b then 0 else 1
  }

  /** The comparison yields -1, 0 or 1, yields 0 exactly for equal texts, and flips sign when its arguments swap. */
  lemma LocaleCompareOrder(a: string, b: string)
    ensures -1 <= LocaleCompare(a, b) <= 1
    ensures LocaleCompare(a, b) == 0 <==> a == b
    ensures LocaleCompare(a, b) == -LocaleCompare(b, a)
  {
    if a == b {
      LexLessIrreflexive(a);
    } else {
      LexLessTotal(a, b);
      if LexLess(a, b) && LexLess(b, a) {
        LexLessTransitive(a, b, a);
        LexLessIrreflexive(a);
      }
    }
  }

  /**
   * `sortByPriorities(a, b)`: a difference that is 0, or NaN because a position segment is not
   * a number, falls through to the next criterion.
   */
  function SortByPriorities(a: Ranked, b: Ranked): int {
    var byIndex := if a.priorityByIndex.Num? && b.priorityByIndex.Num?
                   then a.priorityByIndex.value - b.priorityByIndex.value else 0;
    if byIndex != 0 then byIndex
    else if a.priorityByName != b.priorityByName then a.priorityByName - b.priorityByName
    else LocaleCompare(a.error.instancePath, b.error.instancePath)
  }

  /** Every position is a number, as for the errors of array elements and the default 99. */
  predicate Numeric(a: Ranked) {
    a.priorityByIndex.Num?
  }

  /** Two numeric errors tie exactly when position, name priority and path all agree. */
  lemma TieIff(a: Ranked, b: Ranked)
    requires Numeric(a) && Numeric(b)
    ensures SortByPriorities(a, b) == 0 <==>
            a.priorityByIndex == b.priorityByIndex && a.priorityByName == b.priorityByName &&
            a.error.instancePath == b.error.instancePath
  {
    LexLessIrreflexive(a.error.instancePath);
  }

  /** On numeric errors the comparator is antisymmetric. */
  lemma CompareFlip(a: Ranked, b: Ranked)
    requires Numeric(a) && Numeric(b)
    ensures SortByPriorities(a, b) < 0 <==> SortByPriorities(b, a) > 0
    ensures SortByPriorities(a, b) == 0 <==> SortByPriorities(b, a) == 0
  {
    var p, q := a.error.instancePath, b.error.instancePath;
    if p != q {
      LexLessTotal(p, q);
      if LexLess(p, q) && LexLess(q, p) {
        LexLessTransitive(p, q, p);
        LexLessIrreflexive(p);
      }
    } else {
      LexLessIrreflexive(p);
    }
  }

  /** On numeric errors "may come before" is transitive. */
  lemma CompareTransitive(a: Ranked, b: Ranked, c: Ranked)
    requires Numeric(a) && Numeric(b) && Numeric(c)
    requires SortByPriorities(a, b) <= 0 && SortByPriorities(b, c) <= 0
    ensures SortByPriorities(a, c) <= 0
  {
    var p, q, r := a.error.instancePath, b.error.instancePath, c.error.instancePath;
    if a.priorityByIndex == b.priorityByIndex == c.priorityByIndex && a.priorityByName == b.priorityByName == c.priorityByName {
      if LexLess(p, q) && LexLess(q, r) {
        LexLessTransitive(p, q, r);
      } else if LexLess(r, p) {
        if LexLess(p, q) {
          LexLessTransitive(r, p, q);
          CompareFlip(b, c);
        } else if LexLess(q, r) {
          LexLessTransitive(q, r, p);
          CompareFlip(a, b);
        }
      }
    }
  }

  // ---------------------------------------------------------------------------------------------
  // Stable sort
  // ---------------------------------------------------------------------------------------------

  /** `x` placed into `t` after every element that does not come after it. */
  function Insert(x: Ranked, t: seq<Ranked>): seq<Ranked>
    decreases |t|
  {
    if t == [] || SortByPriorities(t[|t| - 1], x) <= 0 then t + [x]
    else Insert(x, t[..|t| - 1]) + [t[|t| - 1]]
  }

  /** The order `errors.sort(sortByPriorities)` produces: a stable insertion sort. */
  function Sort(s: seq<Ranked>): seq<Ranked>
    decreases |s|
  {
    if s == [] then [] else Insert(s[|s| - 1], Sort(s[..|s| - 1]))
  }

  predicate AllNumeric(s: seq<Ranked>) {
    forall i :: 0 <= i < |s| ==> Numeric(s[i])
  }

  predicate Sorted(s: seq<Ranked>) {
    forall i, j :: 0 <= i < j < |s| ==> SortByPriorities(s[i], s[j]) <= 0
  }

  /** The errors of a list of ranked errors, in order. */
  function ErrorsOf(s: seq<Ranked>): seq<ValidationError>
    decreases |s|
  {
    if s == [] then [] else ErrorsOf(s[..|s| - 1]) + [s[|s| - 1].error]
  }

  lemma ErrorsOfAppend(s: seq<Ranked>, x: Ranked)
    ensures ErrorsOf(s + [x]) == ErrorsOf(s) + [x.error]
  {
    assert (s + [x])[..|s|] == s;
  }

  lemma {:induction false} InsertPermutes(x: Ranked, t: seq<Ranked>)
    ensures multiset(Insert(x, t)) == multiset(t) + multiset{x}
    decreases |t|
  {
    if t != [] && SortByPriorities(t[|t| - 1], x) > 0 {
      InsertPermutes(x, t[..|t| - 1]);
      assert t == t[..|t| - 1] + [t[|t| - 1]];
    }
  }

  lemma {:induction false} InsertKeepsErrors(x: Ranked, t: seq<Ranked>)
    ensures multiset(ErrorsOf(Insert(x, t))) == multiset(ErrorsOf(t)) + multiset{x.error}
    decreases |t|
  {
    if t == [] || SortByPriorities(t[|t| - 1], x) <= 0 {
      ErrorsOfAppend(t, x);
    } else {
      var init, last := t[..|t| - 1], t[|t| - 1];
      assert Insert(x, t) == Insert(x, init) + [last];
      assert ErrorsOf(t) == ErrorsOf(init) + [last.error];
      InsertKeepsErrors(x, init);
      ErrorsOfAppend(Insert(x, init), last);
    }
  }

  /** Sorting reorders the errors and neither drops nor duplicates any. */
  lemma {:induction false} SortPermutes(s: seq<Ranked>)
    ensures multiset(Sort(s)) == multiset(s)
    decreases |s|
  {
    if s != [] {
      var init, last := s[..|s| - 1], s[|s| - 1];
      SortPermutes(init);
      InsertPermutes(last, Sort(init));
      assert s == init + [last];
    }
  }

  /** Each error is reported as often as it was ranked. */
  lemma {:induction false} SortKeepsErrors(s: seq<Ranked>)
    ensures multiset(ErrorsOf(Sort(s))) == multiset(ErrorsOf(s))
    decreases |s|
  {
    if s != [] {
      var init, last := s[..|s| - 1], s[|s| - 1];
      assert Sort(s) == Insert(last, Sort(init));
      assert ErrorsOf(s) == ErrorsOf(init) + [last.error];
      SortKeepsErrors(init);
      InsertKeepsErrors(last, Sort(init));
    }
  }

  /** Every element of `t` may come before `y`. */
  predicate AllBefore(t: seq<Ranked>, y: Ranked) {
    forall i :: 0 <= i < |t| ==> SortByPriorities(t[i], y) <= 0
  }

  lemma SortedAppend(u: seq<Ranked>, y: Ranked)
    requires Sorted(u) && AllBefore(u, y)
    ensures Sorted(u + [y])
  {
    var r := u + [y];
    forall i, j | 0 <= i < j < |r| ensures SortByPriorities(r[i], r[j]) <= 0 {
      if j == |u| {
        assert r[i] == u[i] && r[j] == y;
      } else {
        assert r[i] == u[i] && r[j] == u[j];
      }
    }
  }

  lemma {:induction false} InsertBefore(x: Ranked, t: seq<Ranked>, y: Ranked)
    requires AllBefore(t, y) && SortByPriorities(x, y) <= 0
    ensures AllBefore(Insert(x, t), y)
    decreases |t|
  {
    if t == [] || SortByPriorities(t[|t| - 1], x) <= 0 {
      assert forall i :: 0 <= i < |t| ==> (t + [x])[i] == t[i];
    } else {
      var init, last := t[..|t| - 1], t[|t| - 1];
      InsertBefore(x, init, y);
      var u := Insert(x, init);
      assert forall i :: 0 <= i < |u| ==> (u + [last])[i] == u[i];
    }
  }

  lemma {:induction false} InsertNumeric(x: Ranked, t: seq<Ranked>)
    requires AllNumeric(t) && Numeric(x)
    ensures AllNumeric(Insert(x, t))
    decreases |t|
  {
    if t == [] || SortByPriorities(t[|t| - 1], x) <= 0 {
      assert forall i :: 0 <= i < |t| ==> (t + [x])[i] == t[i];
    } else {
      var init, last := t[..|t| - 1], t[|t| - 1];
      InsertNumeric(x, init);
      var u := Insert(x, init);
      assert forall i :: 0 <= i < |u| ==> (u + [last])[i] == u[i];
    }
  }

  lemma {:induction false} InsertSorted(x: Ranked, t: seq<Ranked>)
    requires Sorted(t) && AllNumeric(t) && Numeric(x)
    ensures Sorted(Insert(x, t)) && AllNumeric(Insert(x, t))
    decreases |t|
  {
    InsertNumeric(x, t);
    if t == [] || SortByPriorities(t[|t| - 1], x) <= 0 {
      forall i | 0 <= i < |t| ensures SortByPriorities(t[i], x) <= 0 {
        if i < |t| - 1 {
          CompareTransitive(t[i], t[|t| - 1], x);
        }
      }
      SortedAppend(t, x);
    } else {
      var init, last := t[..|t| - 1], t[|t| - 1];
      assert Sorted(init) && AllNumeric(init);
      InsertSorted(x, init);
      CompareFlip(last, x);
      InsertBefore(x, init, last);
      SortedAppend(Insert(x, init), last);
    }
  }

  /** The sorted order is ascending by the comparator. */
  lemma {:induction false} SortSorted(s: seq<Ranked>)
    requires AllNumeric(s)
    ensures Sorted(Sort(s)) && AllNumeric(Sort(s))
    decreases |s|
  {
    if s != [] {
      SortSorted(s[..|s| - 1]);
      InsertSorted(s[|s| - 1], Sort(s[..|s| - 1]));
    }
  }

  /** The elements of `s` that tie with `y`, in their order in `s`. */
  function Tied(y: Ranked, s: seq<Ranked>): seq<Ranked>
    decreases |s|
  {
    if s == [] then []
    else Tied(y, s[..|s| - 1]) + (if SortByPriorities(s[|s| - 1], y) == 0 then [s[|s| - 1]] else [])
  }

  lemma TiedAppend(y: Ranked, s: seq<Ranked>, x: Ranked)
    ensures Tied(y, s + [x]) == Tied(y, s) + (if SortByPriorities(x, y) == 0 then [x] else [])
  {
    assert (s + [x])[..|s|] == s;
  }

  lemma {:induction false} InsertStable(x: Ranked, t: seq<Ranked>, y: Ranked)
    requires AllNumeric(t) && Numeric(x) && Numeric(y)
    ensures Tied(y, Insert(x, t)) == Tied(y, t) + (if SortByPriorities(x, y) == 0 then [x] else [])
    decreases |t|
  {
    if t == [] || SortByPriorities(t[|t| - 1], x) <= 0 {
      TiedAppend(y, t, x);
    } else {
      var init, last := t[..|t| - 1], t[|t| - 1];
      assert AllNumeric(init);
      assert Insert(x, t) == Insert(x, init) + [last];
      assert Tied(y, t) == Tied(y, init) + (if SortByPriorities(last, y) == 0 then [last] else []);
      InsertStable(x, init, y);
      TiedAppend(y, Insert(x, init), last);
      TieIff(last, y);
      TieIff(x, y);
      TieIff(last, x);
    }
  }

  /** The sort is stable: errors that tie keep the order they had. */
  lemma {:induction false} SortStable(s: seq<Ranked>, y: Ranked)
    requires AllNumeric(s) && Numeric(y)
    ensures Tied(y, Sort(s)) == Tied(y, s)
    decreases |s|
  {
    if s != [] {
      var init, last := s[..|s| - 1], s[|s| - 1];
      assert AllNumeric(init);
      SortStable(init, y);
      SortSorted(init);
      InsertStable(last, Sort(init), y);
      TiedAppend(y, init, last);
      assert s == init + [last];
    }
  }

  /** Inserting into `t[..j + 1]` passes `t[j]` when it comes after `x`. */
  lemma InsertShift(x: Ranked, t: seq<Ranked>, j: nat)
    requires j < |t| && SortByPriorities(t[j], x) > 0
    ensures Insert(x, t[..j + 1]) + t[j + 1..] == Insert(x, t[..j]) + t[j..]
  {
    assert t[..j + 1][..j] == t[..j];
    assert t[j..] == [t[j]] + t[j + 1..];
  }

  /** Inserting into `t[..j]` stops at once when `t[j - 1]` does not come after `x`. */
  lemma InsertStop(x: Ranked, t: seq<Ranked>, j: nat)
    requires j <= |t| && (j == 0 || SortByPriorities(t[j - 1], x) <= 0)
    ensures Insert(x, t[..j]) + t[j..] == t[..j] + [x] + t[j..]
  {
  }

  lemma SortPrefix(s: seq<Ranked>, i: nat)
    requires i < |s|
    ensures Sort(s[..i + 1]) == Insert(s[i], Sort(s[..i]))
  {
    assert s[..i + 1][..i] == s[..i];
  }

  lemma SwapBack(t: seq<Ranked>, x: Ranked, rest: seq<Ranked>, j: nat)
    requires 0 < j <= |t|
    ensures (t[..j] + [x] + t[j..] + rest)[j - 1 := x][j := t[j - 1]] == t[..j - 1] + [x] + t[j - 1..] + rest
  {
    var u := (t[..j] + [x] + t[j..] + rest)[j - 1 := x][j := t[j - 1]];
    var v := t[..j - 1] + [x] + t[j - 1..] + rest;
    assert |u| == |v|;
    forall k | 0 <= k < |u| ensures u[k] == v[k] {
      if k < j - 1 {
      } else if k == j - 1 {
      } else if k == j {
      } else if k <= |t| {
        assert u[k] == t[k - 1] && v[k] == t[k - 1];
      }
    }
  }

  lemma SplitAt(u: seq<Ranked>, rest: seq<Ranked>, s: seq<Ranked>)
    requires s == u + rest
    ensures s[..|u|] == u && s[|u|..] == rest
  {
  }

  /** One insertion step: `a[i]` moves back past the elements of `a[..i]` that come after it. */
  method InsertInPlace(a: array<Ranked>, i: nat)
    requires i < a.Length
    modifies a
    ensures a[..i + 1] == Insert(old(a[i]), old(a[..i]))
    ensures a[i + 1..] == old(a[i + 1..])
  {
    var x := a[i];
    ghost var t := a[..i];
    ghost var rest := a[i + 1..];
    assert t[..i] == t && t[i..] == [];
    assert a[..] == t[..i] + [x] + t[i..] + rest;
    var j := i;
    while j > 0 && SortByPriorities(a[j - 1], x) > 0
      invariant 0 <= j <= i
      invariant a[..] == t[..j] + [x] + t[j..] + rest
      invariant Insert(x, t) == Insert(x, t[..j]) + t[j..]
      decreases j
    {
      ghost var before := a[..];
      assert a[j - 1] == t[j - 1] by {
        assert before[j - 1] == t[j - 1];
      }
      a[j - 1], a[j] := x, a[j - 1];
      assert a[..] == before[j - 1 := x][j := t[j - 1]];
      SwapBack(t, x, rest, j);
      InsertShift(x, t, j - 1);
      j := j - 1;
    }
    InsertStop(x, t, j);
    SplitAt(Insert(x, t), rest, a[..]);
  }

  /**
   * `errorsWithPriorities.sort(sortByPriorities)`, in place: each element in turn is inserted
   * into the sorted elements before it.
   */
  method SortInPlace(a: array<Ranked>)
    modifies a
    ensures a[..] == Sort(old(a[..]))
  {
    ghost var s := a[..];
    var i := 0;
    while i < a.Length
      invariant 0 <= i <= a.Length
      invariant a[..i] == Sort(s[..i])
      invariant a[i..] == s[i..]
    {
      assert a[i] == s[i];
      InsertInPlace(a, i);
      SortPrefix(s, i);
      assert a[i + 1..] == s[i + 1..];
      i := i + 1;
    }
    assert a[..] == a[..a.Length] && s == s[..a.Length];
  }

  // ---------------------------------------------------------------------------------------------
  // The message
  // ---------------------------------------------------------------------------------------------

  /** `err.message` as `join` renders it: an absent message is the empty string. */
  function MessageText(e: ValidationError): string {
    match e.message
    case None => ""
    case Some(m) => m
  }

  function Messages(errors: seq<ValidationError>): seq<string>
    decreases |errors|
  {
    if errors == [] then [] else Messages(errors[..|errors| - 1]) + [MessageText(errors[|errors| - 1])]
  }

  /** The visible errors, ranked and in the order the message reports them. */
  function Ordered(errors: seq<ValidationError>, config: Config): seq<Ranked> {
    Sort(RankAll(config, Visible(errors)))
  }

  /** The message lines 36-46 build. */
  function FormattedMessage(errors: seq<ValidationError>, config: Config): string {
    Join(Messages(ErrorsOf(Ordered(errors, config))), " and ")
  }

  /** `formatValidationErrors`: filter, rank, sort in place, take the messages and join them. */
  method FormatValidationErrors(errors: seq<ValidationError>, config: Config) returns (message: string)
    ensures message == FormattedMessage(errors, config)
  {
    var ranked := RankAll(config, Visible(errors));
    var a := new Ranked[|ranked|](i requires 0 <= i < |ranked| => ranked[i]);
    assert a[..] == ranked;
    SortInPlace(a);
    message := Join(Messages(ErrorsOf(a[..])), " and ");
  }

  /** `validator.errors || []`. */
  function ErrorList(errors: Option<seq<ValidationError>>): seq<ValidationError> {
    match errors
    case None => []
    case Some(list) => list
  }

  /**
   * `validate`: returns normally exactly when the schema validator accepts the options, and
   * otherwise fails with the formatted message of its errors. The verdict and the error list of
   * the compiled schema are the parameters `accepted` and `errors`.
   */
  method Validate(accepted: bool, errors: Option<seq<ValidationError>>, config: Config) returns (outcome: Outcome<string>)
    ensures outcome.Pass? <==> accepted
    ensures outcome.Fail? ==> outcome.error == FormattedMessage(ErrorList(errors), config)
  {
    if !accepted {
      var message := FormatValidationErrors(ErrorList(errors), config);
      return Fail(message);
    }
    return Pass;
  }

  // ---------------------------------------------------------------------------------------------
  // What the message reports
  // ---------------------------------------------------------------------------------------------

  /** Each ranked error carries the priorities `addPriorities(config)` gives its own error. */
  predicate RankedBy(config: Config, s: seq<Ranked>) {
    forall i :: 0 <= i < |s| ==> s[i] == AddPriorities(config, s[i].error)
  }

  lemma {:induction false} RankAllErrors(config: Config, v: seq<ValidationError>)
    ensures ErrorsOf(RankAll(config, v)) == v
    decreases |v|
  {
    if v != [] {
      var init, last := v[..|v| - 1], v[|v| - 1];
      RankAllErrors(config, init);
      ErrorsOfAppend(RankAll(config, init), AddPriorities(config, last));
      assert v == init + [last];
    }
  }

  lemma {:induction false} RankAllRankedBy(config: Config, v: seq<ValidationError>)
    ensures RankedBy(config, RankAll(config, v))
    decreases |v|
  {
    if v != [] {
      var init := v[..|v| - 1];
      RankAllRankedBy(config, init);
      var r := RankAll(config, init);
      var x := AddPriorities(config, v[|v| - 1]);
      assert RankAll(config, v) == r + [x];
      forall i | 0 <= i < |r| + 1 ensures (r + [x])[i] == AddPriorities(config, (r + [x])[i].error) {
        if i < |r| {
          assert (r + [x])[i] == r[i];
        }
      }
    }
  }

  lemma RankAllShape(config: Config, v: seq<ValidationError>)
    ensures ErrorsOf(RankAll(config, v)) == v
    ensures RankedBy(config, RankAll(config, v))
  {
    RankAllErrors(config, v);
    RankAllRankedBy(config, v);
  }

  lemma SortRankedBy(config: Config, s: seq<Ranked>)
    requires RankedBy(config, s)
    ensures RankedBy(config, Sort(s))
  {
    SortPermutes(s);
    var o := Sort(s);
    forall i | 0 <= i < |o| ensures o[i] == AddPriorities(config, o[i].error) {
      assert o[i] in multiset(s);
      var k :| 0 <= k < |s| && s[k] == o[i];
    }
  }

  /**
   * The message reports exactly the visible errors: a `oneOf`, `if`, `then` or `else` error
   * never, every other error as often as it was reported.
   */
  lemma OrderedErrors(errors: seq<ValidationError>, config: Config)
    ensures RankedBy(config, Ordered(errors, config))
    ensures multiset(ErrorsOf(Ordered(errors, config))) == multiset(Visible(errors))
    ensures forall e :: multiset(ErrorsOf(Ordered(errors, config)))[e] ==
                        if IsVisibleValidationError(e) then multiset(errors)[e] else 0
  {
    var v := Visible(errors);
    RankAllShape(config, v);
    SortKeepsErrors(RankAll(config, v));
    SortRankedBy(config, RankAll(config, v));
    VisibleCounts(errors);
  }

  /** Every error path has a numeric position: an array index, an empty segment or none at all. */
  predicate NumericPaths(errors: seq<ValidationError>) {
    forall i :: 0 <= i < |errors| ==> Decompose(errors[i].instancePath).position.Num?
  }

  lemma RankAllNumeric(config: Config, v: seq<ValidationError>)
    requires NumericPaths(v)
    ensures AllNumeric(RankAll(config, v))
  {
    RankAllShape(config, v);
    var r := RankAll(config, v);
    forall i | 0 <= i < |r| ensures Numeric(r[i]) {
      ErrorsOfIndex(r, i);
      assert r[i] == AddPriorities(config, v[i]);
    }
  }

  lemma {:induction false} ErrorsOfIndex(s: seq<Ranked>, i: nat)
    requires i < |s|
    ensures |ErrorsOf(s)| == |s| && ErrorsOf(s)[i] == s[i].error
    decreases |s|
  {
    if i < |s| - 1 {
      ErrorsOfIndex(s[..|s| - 1], i);
    } else if |s| > 1 {
      ErrorsOfIndex(s[..|s| - 1], 0);
    }
  }

  lemma VisibleNumeric(errors: seq<ValidationError>)
    requires NumericPaths(errors)
    ensures NumericPaths(Visible(errors))
  {
    VisibleCounts(errors);
    var v := Visible(errors);
    forall i | 0 <= i < |v| ensures Decompose(v[i].instancePath).position.Num? {
      assert v[i] in multiset(v);
      assert v[i] in multiset(errors);
      var k :| 0 <= k < |errors| && errors[k] == v[i];
    }
  }

  /**
   * With numeric positions the reported order is ascending by position, then name priority,
   * then path, and errors that tie keep the order they were reported in.
   */
  lemma OrderedSorted(errors: seq<ValidationError>, config: Config)
    requires NumericPaths(errors)
    ensures Sorted(Ordered(errors, config))
    ensures forall y :: Numeric(y) ==> Tied(y, Ordered(errors, config)) == Tied(y, RankAll(config, Visible(errors)))
  {
    var r := RankAll(config, Visible(errors));
    VisibleNumeric(errors);
    RankAllNumeric(config, Visible(errors));
    SortSorted(r);
    forall y | Numeric(y) ensures Tied(y, Sort(r)) == Tied(y, r) {
      SortStable(r, y);
    }
  }

  /** In a sorted list, an element the comparator puts strictly first comes first. */
  lemma SortedBefore(o: seq<Ranked>, a: Ranked, b: Ranked)
    requires Sorted(o) && Numeric(a) && Numeric(b) && SortByPriorities(a, b) < 0
    ensures forall i, j :: 0 <= i < |o| && 0 <= j < |o| && o[i] == a && o[j] == b ==> i < j
  {
    CompareFlip(a, b);
  }

  /** An error whose rank is strictly smaller is reported before the other one. */
  lemma ReportedBefore(errors: seq<ValidationError>, config: Config, a: ValidationError, b: ValidationError)
    requires NumericPaths(errors)
    requires Decompose(a.instancePath).position.Num? && Decompose(b.instancePath).position.Num?
    requires SortByPriorities(AddPriorities(config, a), AddPriorities(config, b)) < 0
    ensures var o := Ordered(errors, config);
            forall i, j :: 0 <= i < |o| && 0 <= j < |o| && o[i].error == a && o[j].error == b ==> i < j
  {
    var o := Ordered(errors, config);
    OrderedErrors(errors, config);
    OrderedSorted(errors, config);
    SortedBefore(o, AddPriorities(config, a), AddPriorities(config, b));
  }

  /** Errors on an element at a smaller position are reported first, whatever the field order. */
  lemma PositionFirst(errors: seq<ValidationError>, config: Config, a: ValidationError, b: ValidationError, m: nat, n: nat)
    requires NumericPaths(errors) && m < n
    requires Decompose(a.instancePath).position == Num(m) && Decompose(b.instancePath).position == Num(n)
    ensures var o := Ordered(errors, config);
            forall i, j :: 0 <= i < |o| && 0 <= j < |o| && o[i].error == a && o[j].error == b ==> i < j
  {
    ReportedBefore(errors, config, a, b);
  }

  /** A single visible error yields exactly its own message. */
  lemma SingleErrorMessage(e: ValidationError, config: Config)
    requires IsVisibleValidationError(e)
    ensures FormattedMessage([e], config) == MessageText(e)
  {
    assert Visible([e]) == [e];
    assert RankAll(config, [e]) == [AddPriorities(config, e)] by {
      assert [e][..0] == [];
    }
    assert Sort([AddPriorities(config, e)]) == [AddPriorities(config, e)] by {
      assert [AddPriorities(config, e)][..0] == [];
    }
    assert ErrorsOf([AddPriorities(config, e)]) == [e] by {
      assert [AddPriorities(config, e)][..0] == [];
    }
    assert Messages([e]) == [MessageText(e)] by {
      assert [e][..0] == [];
    }
  }

  /** The message carries one part per visible error. */
  lemma MessageParts(errors: seq<ValidationError>, config: Config)
    ensures |Messages(ErrorsOf(Ordered(errors, config)))| == |Visible(errors)|
  {
    OrderedErrors(errors, config);
    var es := ErrorsOf(Ordered(errors, config));
    MessagesLength(es);
    assert |es| == |multiset(es)| == |multiset(Visible(errors))| == |Visible(errors)|;
  }

  lemma {:induction false} MessagesLength(errors: seq<ValidationError>)
    ensures |Messages(errors)| == |errors|
    decreases |errors|
  {
    if errors != [] {
      MessagesLength(errors[..|errors| - 1]);
    }
  }

  // ---------------------------------------------------------------------------------------------
  // The orderings of the option schema
  // ---------------------------------------------------------------------------------------------

  lemma FirstIndexText()
    ensures IndexText(0) == "0"
  {
  }

  /** The paths of the examples below, taken apart. */
  lemma ElementPathExample()
    ensures Decompose("/blocks/0") == PathParts("blocks", Num(0), "")
  {
    FirstIndexText();
    DecomposeElementPath("blocks", 0);
    assert "/" + "blocks" + "/" + IndexText(0) == "/blocks/0";
  }

  lemma StartPathExample()
    ensures Decompose("/blocks/0/start") == PathParts("blocks", Num(0), "start")
  {
    FirstIndexText();
    DecomposeFieldPath("blocks", 0, "start");
    assert "/" + "blocks" + "/" + IndexText(0) + "/" + "start" == "/blocks/0/start";
  }

  lemma EndPathExample()
    ensures Decompose("/blocks/0/end") == PathParts("blocks", Num(0), "end")
  {
    FirstIndexText();
    DecomposeFieldPath("blocks", 0, "end");
    assert "/" + "blocks" + "/" + IndexText(0) + "/" + "end" == "/blocks/0/end";
  }

  lemma PrefixPathExample()
    ensures Decompose("/blocks/0/prefix") == PathParts("blocks", Num(0), "prefix")
  {
    FirstIndexText();
    DecomposeFieldPath("blocks", 0, "prefix");
    assert "/" + "blocks" + "/" + IndexText(0) + "/" + "prefix" == "/blocks/0/prefix";
  }

  lemma ElementPathFirst()
    ensures LexLess("/blocks/0", "/blocks/0/prefix")
  {
    LexLessProperPrefix("/blocks/0", "/blocks/0/prefix");
  }

  lemma PrefixPathFirst()
    ensures LexLess("/blocks/0/prefix", "/blocks/0/start")
  {
    assert LexLess("prefix", "start");
    LexLessCommonPrefix("/blocks/0/", "prefix", "start");
    assert "/blocks/0/" + "prefix" == "/blocks/0/prefix";
    assert "/blocks/0/" + "start" == "/blocks/0/start";
  }

  /** Two errors on the same position and field priority are ranked by their paths. */
  lemma PathBreaksTie(config: Config, a: ValidationError, b: ValidationError)
    requires Decompose(a.instancePath).position.Num?
    requires Decompose(a.instancePath).position == Decompose(b.instancePath).position
    requires AddPriorities(config, a).priorityByName == AddPriorities(config, b).priorityByName
    requires LexLess(a.instancePath, b.instancePath)
    ensures SortByPriorities(AddPriorities(config, a), AddPriorities(config, b)) < 0
  {
  }

  lemma ElementRanksFirst(a: ValidationError, b: ValidationError)
    requires Decompose(a.instancePath) == PathParts("blocks", Num(0), "")
    requires Decompose(b.instancePath) == PathParts("blocks", Num(0), "prefix")
    requires LexLess(a.instancePath, b.instancePath)
    ensures SortByPriorities(AddPriorities(Config(None), a), AddPriorities(Config(None), b)) < 0
  {
    PathBreaksTie(Config(None), a, b);
  }

  lemma PrefixRanksFirst(b: ValidationError, c: ValidationError)
    requires Decompose(b.instancePath) == PathParts("blocks", Num(0), "prefix")
    requires Decompose(c.instancePath) == PathParts("blocks", Num(0), "start")
    requires LexLess(b.instancePath, c.instancePath)
    ensures SortByPriorities(AddPriorities(Config(None), b), AddPriorities(Config(None), c)) < 0
  {
    PathBreaksTie(Config(None), b, c);
  }

  /** Without `orders`, an error on an element is reported before the errors on its fields. */
  lemma ElementBeforeFieldExample(errors: seq<ValidationError>, a: ValidationError, b: ValidationError)
    requires NumericPaths(errors)
    requires a.instancePath == "/blocks/0" && b.instancePath == "/blocks/0/prefix"
    ensures var o := Ordered(errors, Config(None));
            forall i, j :: 0 <= i < |o| && 0 <= j < |o| && o[i].error == a && o[j].error == b ==> i < j
  {
    ElementPathExample();
    PrefixPathExample();
    ElementPathFirst();
    ElementRanksFirst(a, b);
    ReportedBefore(errors, Config(None), a, b);
  }

  /** Without `orders`, errors on the fields of one element fall back to path order. */
  lemma PathOrderExample(errors: seq<ValidationError>, b: ValidationError, c: ValidationError)
    requires NumericPaths(errors)
    requires b.instancePath == "/blocks/0/prefix" && c.instancePath == "/blocks/0/start"
    ensures var o := Ordered(errors, Config(None));
            forall i, j :: 0 <= i < |o| && 0 <= j < |o| && o[i].error == b && o[j].error == c ==> i < j
  {
    PrefixPathExample();
    StartPathExample();
    PrefixPathFirst();
    PrefixRanksFirst(b, c);
    ReportedBefore(errors, Config(None), b, c);
  }

  /** The field order the option schema configures for block elements. */
  const BLOCK_FIELD_ORDER: seq<string> := ["start", "end", "prefix", "suffix"]

  lemma BlockFieldRanks()
    ensures OrderIndex("start", BLOCK_FIELD_ORDER) == 0
    ensures OrderIndex("end", BLOCK_FIELD_ORDER) == 1
    ensures OrderIndex("prefix", BLOCK_FIELD_ORDER) == 2
  {
    assert StartsWith("start", 0, "start") && StartsWith("end", 0, "end") && StartsWith("prefix", 0, "prefix");
    assert !Contains("end", "start");
    assert !Contains("prefix", "start") by {
      assert "prefix"[0..5] == "prefi" && "prefix"[1..6] == "refix";
    }
    assert !Contains("prefix", "end") by {
      assert "prefix"[0..3] == "pre" && "prefix"[1..4] == "ref" && "prefix"[2..5] == "efi" && "prefix"[3..6] == "fix";
    }
  }

  lemma FieldRanks(a: ValidationError, b: ValidationError, c: ValidationError)
    requires a.instancePath == "/blocks/0/start" && b.instancePath == "/blocks/0/end" && c.instancePath == "/blocks/0/prefix"
    ensures Decompose(a.instancePath).position.Num? && Decompose(b.instancePath).position.Num? && Decompose(c.instancePath).position.Num?
    ensures var config := Config(Some(map["blocks" := BLOCK_FIELD_ORDER]));
            SortByPriorities(AddPriorities(config, a), AddPriorities(config, b)) < 0 &&
            SortByPriorities(AddPriorities(config, b), AddPriorities(config, c)) < 0
  {
    var config := Config(Some(map["blocks" := BLOCK_FIELD_ORDER]));
    StartPathExample();
    EndPathExample();
    PrefixPathExample();
    assert OrderFor(config, "blocks") == BLOCK_FIELD_ORDER;
    BlockFieldRanks();
  }

  /** With `orders.blocks = [start, end, prefix, suffix]`, errors on one element follow that field order. */
  lemma FieldOrderExample(errors: seq<ValidationError>, a: ValidationError, b: ValidationError, c: ValidationError)
    requires NumericPaths(errors)
    requires a.instancePath == "/blocks/0/start" && b.instancePath == "/blocks/0/end" && c.instancePath == "/blocks/0/prefix"
    ensures var o := Ordered(errors, Config(Some(map["blocks" := BLOCK_FIELD_ORDER])));
            forall i, j :: 0 <= i < |o| && 0 <= j < |o| && o[i].error == a && o[j].error == b ==> i < j
    ensures var o := Ordered(errors, Config(Some(map["blocks" := BLOCK_FIELD_ORDER])));
            forall i, j :: 0 <= i < |o| && 0 <= j < |o| && o[i].error == b && o[j].error == c ==> i < j
  {
    var config := Config(Some(map["blocks" := BLOCK_FIELD_ORDER]));
    FieldRanks(a, b, c);
    ReportedBefore(errors, config, a, b);
    ReportedBefore(errors, config, b, c);
  }
}
