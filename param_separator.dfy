/** `formula_parameter_separator.py`: split extracted items into true
    formulas (arithmetic, a calculation type or a calculation keyword) and
    parameters, and read a parameter's value from its definition text. */
module ParamSeparator {
  import opened Common
  import opened FormulaItems

  const CalculationTypes: set<string> := {
    "salary_calculation", "fraction_formula", "multiplication_formula",
    "division_formula", "complex_calculation", "conditional_formula"
  }

  const FormulaKeywords: seq<string> := [
    "tính", "bằng", "được tính", "theo công thức",
    "phép tính", "tổng", "chia", "nhân", "cộng", "trừ"
  ]

  predicate IsComplexOp(c: char) {
    c == '+' || c == '-' || c == '×' || c == '*' || c == '/' || c == '÷' || c == '(' || c == ')'
  }

  predicate AnyComplexOp(s: string) { exists k :: 0 <= k < |s| && IsComplexOp(s[k]) }

  /** Lines 31-39: a lone `=` is a definition, not arithmetic; the result is
      exactly whether one of `+ - × * / ÷ ( )` occurs. */
  function HasMathOperations(text: string): (r: bool)
    ensures r <==> AnyComplexOp(text)
  {
    if CountChar(text, '=') == 1 && !AnyComplexOp(text) then false
    else AnyComplexOp(text)
  }

  predicate HasFormulaKeyword(text: string) {
    exists k :: 0 <= k < |FormulaKeywords| && Contains(Lower(text), FormulaKeywords[k])
  }

  /** Lines 41-63: arithmetic first, then the calculation types, then the keywords. */
  function IsTrueFormula(item: FormulaItem): bool {
    var formula := FormulaText(item);
    if HasMathOperations(formula) then true
    else if TypeOf(item) in CalculationTypes then true
    else if HasFormulaKeyword(formula) then true
    else false
  }

  /** An item is a parameter exactly when its text has no arithmetic and no
      calculation keyword and its type is not a calculation type. */
  lemma ParameterCriteria(item: FormulaItem)
    ensures !IsTrueFormula(item) <==>
              (forall k :: 0 <= k < |FormulaText(item)| ==> !IsComplexOp(FormulaText(item)[k])) &&
              TypeOf(item) !in CalculationTypes && !HasFormulaKeyword(FormulaText(item))
  {
  }

  // ---------------------------------------------------------------------------
  // extract_value (lines 95-101)

  /** `re.search(r'[:=]\s*([^.]+)', s)` can match at `i`: a separator not
      directly followed by a dot (white space after it can be given back to
      the group). */
  predicate ValueSepAt(s: string, i: nat) {
    i + 1 < |s| && IsSep(s[i]) && s[i + 1] != '.'
  }

  function FirstValueSep(s: string, i: nat): (r: int)
    ensures r == -1 || (i <= r && ValueSepAt(s, r))
    ensures r == -1 ==> forall m :: i <= m ==> !ValueSepAt(s, m)
    ensures r >= 0 ==> forall m :: i <= m < r ==> !ValueSepAt(s, m)
    decreases |s| - i
  {
    if i >= |s| then -1
    else if ValueSepAt(s, i) then i
    else FirstValueSep(s, i + 1)
  }

  /** The first `.` at or after `k`, or the length. */
  function DotFrom(s: string, k: nat): (r: nat)
    requires k <= |s|
    ensures k <= r <= |s|
    ensures forall m :: k <= m < r ==> s[m] != '.'
    ensures r < |s| ==> s[r] == '.'
    decreases |s| - k
  {
    if k < |s| && s[k] != '.' then DotFrom(s, k + 1) else k
  }

  /** The stripped group: from the first non-space character after the
      separator up to the next dot; when only white space precedes that dot
      the group is white space and strips to "". */
  function ExtractValue(text: string): (r: string)
    ensures FirstValueSep(text, 0) == -1 ==> r == text
    ensures FirstValueSep(text, 0) != -1 ==> '.' !in r
  {
    var i := FirstValueSep(text, 0);
    if i == -1 then text
    else
      var k := SkipSpaces(text, i + 1);
      if k < |text| && text[k] != '.' then
        var g := text[k..DotFrom(text, k)];
        assert '.' !in g;
        StripSlice(g);
        Strip(g)
      else ""
  }

  /** The value read from "name: value." is the value, when the name holds
      no separator and the value is trimmed and holds no dot. */
  lemma ExtractValueOfDefinition(name: string, v: string, tail: string)
    requires forall m :: 0 <= m < |name| ==> !IsSep(name[m])
    requires v != [] && !IsSpace(v[0]) && !IsSpace(v[|v| - 1]) && '.' !in v
    requires tail == [] || tail[0] == '.'
    ensures ExtractValue(name + ": " + v + tail) == v
  {
    var s := name + ": " + v + tail;
    var n := |name|;
    assert s[n] == ':' && s[n + 1] == ' ' && s[n + 2] == v[0];
    FirstValueSepIs(s, 0, n);
    assert SkipSpaces(s, n + 1) == n + 2;
    DotFromRun(s, n + 2, |v|);
    assert s[n + 2..n + 2 + |v|] == v;
    assert LStrip(v) == v;
    assert RStrip(v) == v;
  }

  lemma {:induction false} FirstValueSepIs(s: string, i: nat, r: nat)
    requires i <= r && ValueSepAt(s, r)
    requires forall m :: i <= m < r ==> !ValueSepAt(s, m)
    ensures FirstValueSep(s, i) == r
    decreases r - i
  {
    if i < r {
      FirstValueSepIs(s, i + 1, r);
    }
  }

  lemma {:induction false} DotFromRun(s: string, k: nat, n: nat)
    requires k + n <= |s| && forall m :: k <= m < k + n ==> s[m] != '.'
    requires k + n == |s| || s[k + n] == '.'
    ensures DotFrom(s, k) == k + n
    decreases n
  {
    if n > 0 {
      DotFromRun(s, k + 1, n - 1);
    }
  }

  // ---------------------------------------------------------------------------
  // separate_formulas_parameters (lines 65-93)

  datatype Parameter = Parameter(name: string, value: string, originalFormula: string,
                                 paramType: string, confidence: real, context: string)

  function ToParameter(item: FormulaItem): Parameter {
    Parameter(item.name.GetOr(""), ExtractValue(FormulaText(item)), FormulaText(item),
              TypeOf(item), item.confidence.GetOr(0.0), item.context.GetOr(""))
  }

  /** The non-formula items, converted in order. */
  function Parameters(items: seq<FormulaItem>): seq<Parameter> {
    Converted(items, IsTrueFormula, ToParameter)
  }

  datatype Separated = Separated(formulas: seq<FormulaItem>, parameters: seq<Parameter>,
                                 totalFormulas: nat, totalParameters: nat)

  method SeparateFormulasParameters(items: seq<FormulaItem>) returns (out: Separated)
    ensures out.formulas == Select(items, IsTrueFormula)
    ensures out.parameters == Parameters(items)
    ensures out.totalFormulas == |out.formulas| && out.totalParameters == |out.parameters|
  {
    var trueFormulas: seq<FormulaItem> := [];
    var parameters: seq<Parameter> := [];
    var i := 0;
    while i < |items|
      invariant 0 <= i <= |items|
      invariant trueFormulas == Select(items[..i], IsTrueFormula)
      invariant parameters == Converted(items[..i], IsTrueFormula, ToParameter)
    {
      SelectStep(items, IsTrueFormula, i);
      ConvertedStep(items, IsTrueFormula, ToParameter, i);
      var item := items[i];
      if IsTrueFormula(item) {
        trueFormulas := trueFormulas + [item];
      } else {
        parameters := parameters + [ToParameter(item)];
      }
      i := i + 1;
    }
    assert items[..i] == items;
    out := Separated(trueFormulas, parameters, |trueFormulas|, |parameters|);
  }

  /** Every item goes to exactly one list, so the two totals add up to the
      input count; the formulas are the items judged true formulas, unchanged. */
  lemma SeparateTotals(items: seq<FormulaItem>)
    ensures |Select(items, IsTrueFormula)| + |Parameters(items)| == |items|
    ensures forall x :: x in Select(items, IsTrueFormula) <==> x in items && IsTrueFormula(x)
  {
    ConvertedCount(items, IsTrueFormula, ToParameter);
    SelectCounts(items, IsTrueFormula);
    SelectMembers(items, IsTrueFormula);
  }

  /** Line 80: each parameter keeps the formula text of an input item that
      was judged not a formula, and that text holds no arithmetic operator. */
  lemma {:induction false} ParametersKeepOriginal(items: seq<FormulaItem>)
    ensures forall p :: p in Parameters(items) ==>
              exists j :: 0 <= j < |items| && !IsTrueFormula(items[j]) &&
                          p.originalFormula == FormulaText(items[j]) && p == ToParameter(items[j])
    ensures forall p :: p in Parameters(items) ==> !AnyComplexOp(p.originalFormula)
  {
    if items != [] {
      var q := items[..|items| - 1];
      ParametersKeepOriginal(q);
      forall p | p in Parameters(items)
        ensures exists j :: 0 <= j < |items| && !IsTrueFormula(items[j]) &&
                            p.originalFormula == FormulaText(items[j]) && p == ToParameter(items[j])
      {
        if p in Parameters(q) {
          var j :| 0 <= j < |q| && !IsTrueFormula(q[j]) && p.originalFormula == FormulaText(q[j]) && p == ToParameter(q[j]);
          assert items[j] == q[j];
        } else {
          assert p == ToParameter(items[|items| - 1]);
        }
      }
    }
  }
}
