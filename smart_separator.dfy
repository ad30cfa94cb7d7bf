/** `core/extractors/formula_separator.py`: split extracted items into true
    formulas and parameters, first by their type and then by whether the
    formula text holds "complex" arithmetic. */
module SmartSeparator {
  import opened Common
  import opened FormulaItems

  const FormulaTypes: set<string> := {
    "salary_calculation", "fraction_formula", "multiplication_formula",
    "division_formula", "complex_calculation", "conditional_formula"
  }

  const ParameterTypes: set<string> := {
    "amount_definition", "percentage_rate", "tax_rate", "allowance",
    "insurance_rate", "fee", "coefficient", "deduction", "interest_rate",
    "exchange_rate", "value_range", "index", "quota_rate", "min_max_amount"
  }

  /** Lines 16-27: no type is both a formula type and a parameter type. */
  lemma TypeSetsDisjoint()
    ensures FormulaTypes * ParameterTypes == {}
  {
  }

  // ---------------------------------------------------------------------------
  // has_complex_math (lines 50-68)

  predicate IsOp(c: char) { c == '×' || c == '*' || c == '/' || c == '+' || c == '-' }
  predicate IsMulDiv(c: char) { c == '×' || c == '*' || c == '/' }

  /** `[A-Za-zÀ-ỹ]`. */
  predicate IsLetter(c: char) {
    ('A' <= c <= 'Z') || ('a' <= c <= 'z') || ('À' <= c <= 'ỹ')
  }

  predicate HasOp(s: string) { exists k :: 0 <= k < |s| && IsOp(s[k]) }

  /** `sum(text.count(op) for op in math_ops)`. */
  function CountOps(s: string): (n: nat)
    ensures n == 0 <==> !HasOp(s)
  {
    if s == [] then 0
    else
      var n := CountOps(s[..|s| - 1]) + (if IsOp(s[|s| - 1]) then 1 else 0);
      assert HasOp(s) <==> HasOp(s[..|s| - 1]) || IsOp(s[|s| - 1]) by {
        if HasOp(s) {
          var k :| 0 <= k < |s| && IsOp(s[k]);
          if k < |s| - 1 { assert s[..|s| - 1][k] == s[k]; }
        }
        if HasOp(s[..|s| - 1]) {
          var k :| 0 <= k < |s| - 1 && IsOp(s[..|s| - 1][k]);
          assert s[k] == s[..|s| - 1][k];
        }
      }
      n
  }

  /** The first `)` at or after `from`, or the length when there is none. */
  function NextClose(s: string, from: nat): (j: nat)
    ensures from <= j <= |s| || (from > |s| && j == |s|)
    ensures j < |s| ==> s[j] == ')'
    ensures forall m :: from <= m < j ==> s[m] != ')'
    decreases |s| - from
  {
    if from >= |s| then |s|
    else if s[from] == ')' then from
    else NextClose(s, from + 1)
  }

  /** A bracket pair `re.search(r'\(([^)]+)\)', s)` can match at `i`: an
      opening bracket whose next closing bracket is not right after it. */
  predicate BracketAt(s: string, i: nat) {
    i < |s| && s[i] == '(' && NextClose(s, i + 1) < |s| && NextClose(s, i + 1) >= i + 2
  }

  /** The leftmost position at or after `i` where the bracket pattern matches. */
  function FirstBracket(s: string, i: nat): (r: Option<nat>)
    ensures r.Some? ==> i <= r.value && BracketAt(s, r.value) && forall m :: i <= m < r.value ==> !BracketAt(s, m)
    ensures r.None? ==> forall m :: i <= m ==> !BracketAt(s, m)
    decreases |s| - i
  {
    if i >= |s| then None
    else if BracketAt(s, i) then Some(i)
    else FirstBracket(s, i + 1)
  }

  /** The captured group of that first match. */
  function BracketGroup(s: string): (g: Option<string>)
    ensures g.Some? ==> g.value != [] && ')' !in g.value
  {
    match FirstBracket(s, 0)
    case None => None
    case Some(i) => Some(s[i + 1..NextClose(s, i + 1)])
  }

  /** `re.search` for one of × * / , optional white space, then a letter of `[A-Za-zÀ-ỹ]`. */
  predicate OpBeforeLetter(s: string) {
    exists i, k :: 0 <= i < k < |s| && IsMulDiv(s[i]) && IsLetter(s[k]) &&
                   (forall m :: i < m < k ==> IsSpace(s[m]))
  }

  predicate BracketedOp(s: string) {
    '(' in s && ')' in s && BracketGroup(s).Some? && HasOp(BracketGroup(s).value)
  }

  predicate HasComplexMath(s: string) {
    BracketedOp(s) || CountOps(s) >= 2 || OpBeforeLetter(s)
  }

  /** Two operators anywhere are enough. */
  lemma TwoOperatorsSuffice(s: string, i: nat, j: nat)
    requires i < j < |s| && IsOp(s[i]) && IsOp(s[j])
    ensures HasComplexMath(s)
  {
    CountOpsAtLeastTwo(s, i, j);
  }

  lemma {:induction false} CountOpsAtLeastTwo(s: string, i: nat, j: nat)
    requires i < j < |s| && IsOp(s[i]) && IsOp(s[j])
    ensures CountOps(s) >= 2
  {
    var p := s[..|s| - 1];
    if j < |s| - 1 {
      assert p[i] == s[i] && p[j] == s[j];
      CountOpsAtLeastTwo(p, i, j);
    } else {
      assert p[i] == s[i];
      assert HasOp(p);
    }
  }

  /** A single `×`, `*` or `/` is enough when a letter follows it. */
  lemma OperatorBeforeLetter(s: string, i: nat)
    requires i + 1 < |s| && IsMulDiv(s[i]) && IsLetter(s[i + 1])
    ensures HasComplexMath(s)
  {
    assert OpBeforeLetter(s);
  }

  /** An operator inside the first bracket pair is enough: "(a + b)" after
      text with no opening bracket. */
  lemma BracketedOperatorSuffices(pre: string, g: string, post: string)
    requires '(' !in pre && g != [] && ')' !in g && HasOp(g)
    ensures HasComplexMath(pre + "(" + g + ")" + post)
  {
    var s := pre + "(" + g + ")" + post;
    var i := |pre|;
    BracketedText(pre, g, post);
    BracketPairAt(s, i, g);
    FirstBracketIs(s, 0, i);
    assert BracketGroup(s) == Some(g);
    assert s[i] == '(' && s[i + 1 + |g|] == ')';
    assert BracketedOp(s);
  }

  /** Where the pieces of `pre + "(" + g + ")" + post` sit. */
  lemma BracketedText(pre: string, g: string, post: string)
    requires '(' !in pre
    ensures var s := pre + "(" + g + ")" + post;
            var i := |pre|;
            i + 1 + |g| < |s| && s[i] == '(' && s[i + 1 + |g|] == ')' &&
            s[i + 1..i + 1 + |g|] == g && forall m :: 0 <= m < i ==> s[m] != '('
  {
    var s := pre + "(" + g + ")" + post;
    var t := "(" + g + ")" + post;
    assert s == pre + t;
    assert t[1..1 + |g|] == g;
    assert s[|pre| + 1..|pre| + 1 + |g|] == t[1..1 + |g|];
    forall m | 0 <= m < |pre| ensures s[m] != '(' {
      assert s[m] == pre[m];
    }
  }

  /** A bracket pair around a non-empty group without ')' matches, and its
      group is that text. */
  lemma BracketPairAt(s: string, i: nat, g: string)
    requires i + 1 + |g| < |s| && s[i] == '(' && s[i + 1 + |g|] == ')'
    requires s[i + 1..i + 1 + |g|] == g && g != [] && ')' !in g
    ensures BracketAt(s, i) && NextClose(s, i + 1) == i + 1 + |g|
  {
    forall m | i + 1 <= m < i + 1 + |g| ensures s[m] != ')' {
      assert s[m] == g[m - i - 1];
    }
    NextCloseRun(s, i + 1, i + 1 + |g|);
  }

  lemma {:induction false} NextCloseRun(s: string, from: nat, j: nat)
    requires from <= j < |s| && s[j] == ')' && forall m :: from <= m < j ==> s[m] != ')'
    ensures NextClose(s, from) == j
    decreases j - from
  {
    if from < j {
      NextCloseRun(s, from + 1, j);
    }
  }

  lemma {:induction false} FirstBracketIs(s: string, i: nat, r: nat)
    requires i <= r && BracketAt(s, r) && forall m :: i <= m < r ==> s[m] != '('
    ensures FirstBracket(s, i) == Some(r)
    decreases r - i
  {
    if i < r {
      FirstBracketIs(s, i + 1, r);
    }
  }

  /** Text with no operator at all never has complex arithmetic. */
  lemma NoOperatorNoMath(s: string)
    requires forall k :: 0 <= k < |s| ==> !IsOp(s[k])
    ensures !HasComplexMath(s)
  {
    if BracketGroup(s).Some? {
      var i := FirstBracket(s, 0).value;
      var g := BracketGroup(s).value;
      assert forall k :: 0 <= k < |g| ==> g[k] == s[i + 1 + k];
    }
  }

  // ---------------------------------------------------------------------------
  // is_true_formula (lines 29-48)

  /** The type decides first; only items of neither type are judged on the
      formula text.  `is_simple_definition` does not change the outcome
      (both of its branches return False). */
  predicate IsTrueFormula(item: FormulaItem) {
    var t := TypeOf(item);
    if t in FormulaTypes then true
    else if t in ParameterTypes then false
    else HasComplexMath(FormulaText(item))
  }

  /** Lines 34-38: a formula type makes a formula and a parameter type a
      parameter, whatever the text says. */
  lemma TypeDecidesFirst(item: FormulaItem)
    ensures TypeOf(item) in FormulaTypes ==> IsTrueFormula(item)
    ensures TypeOf(item) in ParameterTypes ==> !IsTrueFormula(item)
    ensures TypeOf(item) !in FormulaTypes && TypeOf(item) !in ParameterTypes ==>
              (IsTrueFormula(item) <==> HasComplexMath(FormulaText(item)))
  {
    TypeSetsDisjoint();
  }

  // ---------------------------------------------------------------------------
  // extract_clean_value (lines 84-93)

  /** The stripped group of `re.search(r'[:=]\s*(.+)', s)`, or None when it
      does not match (no separator, or only line breaks after the first). */
  function ValueAfterSep(s: string): (r: Option<string>)
    ensures r.Some? ==> '\n' !in r.value
  {
    var i := FirstSep(s, 0);
    if i == -1 then None
    else if forall m :: i < m < |s| ==> s[m] == '\n' then None
    else
      var k := SkipSpaces(s, i + 1);
      var g := s[k..LineEnd(s, k)];
      assert '\n' !in g;
      StripSlice(g);
      Some(Strip(g))
  }

  /** A list marker `\s*\d+\.` (or `\s+\d+\.` when `needSpace`) starts at `p`. */
  predicate MarkerAt(v: string, p: nat, needSpace: bool) {
    p <= |v| &&
    var q := SkipSpaces(v, p);
    (!needSpace || q > p) && q < |v| && IsDigit(v[q]) &&
    var r := SkipDigits(v, q);
    r < |v| && v[r] == '.'
  }

  /** The start of the leftmost list marker at or after `p`, or the length. */
  function FirstMarker(v: string, p: nat, needSpace: bool): (r: nat)
    requires p <= |v|
    ensures p <= r <= |v|
    ensures r < |v| ==> MarkerAt(v, r, needSpace)
    ensures forall m :: p <= m < r ==> !MarkerAt(v, m, needSpace)
    decreases |v| - p
  {
    if p == |v| then |v|
    else if MarkerAt(v, p, needSpace) then p
    else FirstMarker(v, p + 1, needSpace)
  }

  /** `re.sub(pattern + r'\s*.*$', '', v)` on a line: everything from the
      first list marker on is removed. */
  function DropListTail(v: string, needSpace: bool): (r: string)
    ensures |r| <= |v| && r == v[..|r|]
  {
    v[..FirstMarker(v, 0, needSpace)]
  }

  /** Lines 84-93 as written: the marker pattern `\s*\d+\.` also matches a
      value that starts with a number written with `.` as the thousands
      separator, so such a value is emptied. */
  function CleanValueAsWritten(s: string): (r: string)
    ensures ValueAfterSep(s).None? ==> r == s
    ensures ValueAfterSep(s).Some? ==> |r| <= |ValueAfterSep(s).value| && r == ValueAfterSep(s).value[..|r|]
  {
    match ValueAfterSep(s)
    case None => s
    case Some(v) => DropListTail(v, false)
  }

  /** The evidently intended cleaning: a list marker is preceded by white
      space (`\s+\d+\.`), so a leading amount such as "1.800.000" is kept. */
  function CleanValue(s: string): (r: string)
    ensures ValueAfterSep(s).None? ==> r == s
    ensures ValueAfterSep(s).Some? ==> |r| <= |ValueAfterSep(s).value| && r == ValueAfterSep(s).value[..|r|]
  {
    match ValueAfterSep(s)
    case None => s
    case Some(v) => DropListTail(v, true)
  }

  /** As written, any value that starts with digits and a dot is erased. */
  lemma AsWrittenErasesLeadingAmount(v: string)
    requires |v| > 0 && IsDigit(v[0])
    requires SkipDigits(v, 0) < |v| && v[SkipDigits(v, 0)] == '.'
    ensures DropListTail(v, false) == ""
  {
    assert MarkerAt(v, 0, false);
  }

  /** The value read from a definition "name: value" is that value, when
      the name holds no separator and the value is a trimmed single line. */
  lemma ValueOfDefinition(name: string, v: string)
    requires forall m :: 0 <= m < |name| ==> !IsSep(name[m])
    requires v != [] && !IsSpace(v[0]) && !IsSpace(v[|v| - 1]) && '\n' !in v
    ensures ValueAfterSep(name + ": " + v) == Some(v)
  {
    var s := name + ": " + v;
    var n := |name|;
    assert s[n] == ':' && s[n + 1] == ' ' && s[n + 2] == v[0];
    FirstSepIs(s, 0, n);
    assert !(forall m :: n < m < |s| ==> s[m] == '\n');
    assert SkipSpaces(s, n + 1) == n + 2;
    assert forall m :: n + 2 <= m < |s| ==> s[m] == v[m - (n + 2)];
    LineEndRun(s, n + 2);
    assert s[n + 2..|s|] == v;
    assert LStrip(v) == v;
    assert RStrip(v) == v;
  }

  /** As written, a definition whose value starts with an amount written
      with `.` separators, such as "Mức: 1.800.000 đồng", cleans to "". */
  lemma AsWrittenErasesAmounts(name: string, v: string)
    requires forall m :: 0 <= m < |name| ==> !IsSep(name[m])
    requires v != [] && !IsSpace(v[0]) && !IsSpace(v[|v| - 1]) && '\n' !in v
    requires IsDigit(v[0]) && SkipDigits(v, 0) < |v| && v[SkipDigits(v, 0)] == '.'
    ensures CleanValueAsWritten(name + ": " + v) == ""
  {
    ValueOfDefinition(name, v);
    AsWrittenErasesLeadingAmount(v);
  }

  /** With the intended pattern the same definitions keep their value. */
  lemma IntendedKeepsDefinitionValue(name: string, v: string)
    requires forall m :: 0 <= m < |name| ==> !IsSep(name[m])
    requires v != [] && !IsSpace(v[0]) && !IsSpace(v[|v| - 1]) && '\n' !in v
    requires forall m :: 0 <= m < |v| - 1 && IsSpace(v[m]) ==> !IsDigit(v[m + 1])
    ensures CleanValue(name + ": " + v) == v
  {
    ValueOfDefinition(name, v);
    IntendedKeepsAmounts(v);
  }

  /** With the intended pattern a value with no white space directly before
      a digit is kept whole. */
  lemma {:induction false} IntendedKeepsAmounts(v: string)
    requires forall m :: 0 <= m < |v| - 1 && IsSpace(v[m]) ==> !IsDigit(v[m + 1])
    ensures DropListTail(v, true) == v
  {
    forall p | 0 <= p < |v| ensures !MarkerAt(v, p, true) {
      var q := SkipSpaces(v, p);
      if q > p && q < |v| {
        assert IsSpace(v[q - 1]);
      }
    }
  }

  /** With the intended pattern a trailing list item " 8. …" is still cut
      off after a value with no white space directly before a digit. */
  lemma IntendedDropsListItem(a: string, d: string, rest: string)
    requires a != [] && !IsSpace(a[|a| - 1])
    requires forall m :: 0 <= m < |a| - 1 && IsSpace(a[m]) ==> !IsDigit(a[m + 1])
    requires d != [] && AllDigits(d)
    ensures DropListTail(a + " " + d + "." + rest, true) == a
  {
    var v := a + " " + d + "." + rest;
    forall p | 0 <= p < |a| ensures !MarkerAt(v, p, true) {
      var q := SkipSpaces(v, p);
      assert v[|a| - 1] == a[|a| - 1];
      assert q <= |a| - 1;
      if q > p {
        assert v[q - 1] == a[q - 1] && v[q] == a[q];
      }
    }
    assert SkipSpaces(v, |a| + 1) == |a| + 1;
    assert SkipSpaces(v, |a|) == |a| + 1;
    SkipDigitsRun(v, |a| + 1, |d|);
    assert MarkerAt(v, |a|, true);
    assert FirstMarker(v, 0, true) == |a| by {
      FirstMarkerIs(v, 0, |a|, true);
    }
    assert v[..|a|] == a;
  }

  lemma {:induction false} FirstMarkerIs(v: string, p: nat, r: nat, needSpace: bool)
    requires p <= r < |v| && MarkerAt(v, r, needSpace)
    requires forall m :: p <= m < r ==> !MarkerAt(v, m, needSpace)
    ensures FirstMarker(v, p, needSpace) == r
    decreases r - p
  {
    if p < r {
      FirstMarkerIs(v, p + 1, r, needSpace);
    }
  }

  // ---------------------------------------------------------------------------
  // separate (lines 95-123)

  datatype Parameter = Parameter(name: string, value: string, paramType: string, confidence: real, context: string)

  const ContextLimit := 100

  /** Line 112: a context longer than 100 characters is cut to 100 and "..." added. */
  function CutContext(ctx: string): (r: string)
    ensures |ctx| <= ContextLimit ==> r == ctx
    ensures |ctx| > ContextLimit ==> |r| == ContextLimit + 3 && r[..ContextLimit] == ctx[..ContextLimit] && r[ContextLimit..] == "..."
  {
    if |ctx| > ContextLimit then ctx[..ContextLimit] + "..." else ctx
  }

  function ToParameter(item: FormulaItem): Parameter {
    Parameter(Strip(item.name.GetOr("")), CleanValueAsWritten(FormulaText(item)), TypeOf(item),
              item.confidence.GetOr(0.0), CutContext(item.context.GetOr("")))
  }

  /** The non-formula items, converted in order. */
  function Parameters(items: seq<FormulaItem>): seq<Parameter> {
    Converted(items, IsTrueFormula, ToParameter)
  }

  datatype Separated = Separated(formulas: seq<FormulaItem>, parameters: seq<Parameter>,
                                 totalFormulas: nat, totalParameters: nat, originalTotal: nat)

  method Separate(items: seq<FormulaItem>) returns (out: Separated)
    ensures out.formulas == Select(items, IsTrueFormula)
    ensures out.parameters == Parameters(items)
    ensures out.totalFormulas == |out.formulas| && out.totalParameters == |out.parameters|
    ensures out.originalTotal == |items|
  {
    var formulas: seq<FormulaItem> := [];
    var parameters: seq<Parameter> := [];
    var i := 0;
    while i < |items|
      invariant 0 <= i <= |items|
      invariant formulas == Select(items[..i], IsTrueFormula)
      invariant parameters == Converted(items[..i], IsTrueFormula, ToParameter)
    {
      SelectStep(items, IsTrueFormula, i);
      ConvertedStep(items, IsTrueFormula, ToParameter, i);
      var item := items[i];
      if IsTrueFormula(item) {
        formulas := formulas + [item];
      } else {
        parameters := parameters + [ToParameter(item)];
      }
      i := i + 1;
    }
    assert items[..i] == items;
    out := Separated(formulas, parameters, |formulas|, |parameters|, |items|);
  }

  /** As a consequence, an item judged a parameter whose text is
      "Mức: 1.800.000 đồng" is stored with an empty value. */
  lemma ParameterErasesAmount(item: FormulaItem, name: string, v: string)
    requires item.formula == Some(name + ": " + v)
    requires forall m :: 0 <= m < |name| ==> !IsSep(name[m])
    requires v != [] && !IsSpace(v[0]) && !IsSpace(v[|v| - 1]) && '\n' !in v
    requires IsDigit(v[0]) && SkipDigits(v, 0) < |v| && v[SkipDigits(v, 0)] == '.'
    ensures ToParameter(item).value == ""
  {
    AsWrittenErasesAmounts(name, v);
  }

  /** Every item goes to exactly one list: the totals add up to the input count,
      and the formulas are exactly the items judged true formulas, unchanged. */
  lemma SeparateTotals(items: seq<FormulaItem>)
    ensures |Select(items, IsTrueFormula)| + |Parameters(items)| == |items|
    ensures forall x :: x in Select(items, IsTrueFormula) <==> x in items && IsTrueFormula(x)
  {
    ConvertedCount(items, IsTrueFormula, ToParameter);
    SelectCounts(items, IsTrueFormula);
    SelectMembers(items, IsTrueFormula);
  }
}
