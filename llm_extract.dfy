/** `scripts/extract/improved_llm_extractor.py`: a rule-based stand-in for
    an LLM formula extractor.  It keeps the lines that look like
    arithmetic, joins continuation lines, finds "left = right" spans,
    rejects references, dates and contact details, classifies and scores
    what is left, and deduplicates. */
module LlmExtract {
  import opened Common
  import opened Sorting
  import FirstSeen

  // ---------------------------------------------------------------------------
  // Keeping the lines with arithmetic (lines 38-44)

  /** The operator class of line 42: '=', '×', '÷', '*', '/', '%', '+' and '-'. */
  predicate IsMathSymbol(c: char) {
    c == '=' || c == '×' || c == '÷' || c == '*' || c == '/' || c == '%' || c == '+' || c == '-'
  }

  predicate HasMathSymbol(line: string) {
    exists i :: 0 <= i < |line| && IsMathSymbol(line[i])
  }

  const MinLineLength := 10

  /** A stripped line is kept when it is longer than 10 characters and holds a math symbol. */
  predicate Retained(line: string) {
    HasMathSymbol(line) && |line| > MinLineLength
  }

  /** `f` applied to each element, keeping the results that pass `keep`, in order. */
  function MapFilter<T>(xs: seq<T>, f: T -> T, keep: T -> bool): (r: seq<T>)
    ensures forall y :: y in r ==> keep(y)
  {
    if xs == [] then []
    else
      var y := f(xs[|xs| - 1]);
      MapFilter(xs[..|xs| - 1], f, keep) + (if keep(y) then [y] else [])
  }

  lemma MapFilterStep<T>(xs: seq<T>, i: int, f: T -> T, keep: T -> bool)
    requires 0 <= i < |xs|
    ensures MapFilter(xs[..i + 1], f, keep) ==
            MapFilter(xs[..i], f, keep) + (if keep(f(xs[i])) then [f(xs[i])] else [])
  {
    assert xs[..i + 1][..i] == xs[..i];
  }

  lemma {:induction false} MapFilterMembers<T>(xs: seq<T>, f: T -> T, keep: T -> bool, y: T)
    ensures y in MapFilter(xs, f, keep) <==> keep(y) && exists i :: 0 <= i < |xs| && f(xs[i]) == y
  {
    if xs != [] {
      var init := xs[..|xs| - 1];
      MapFilterMembers(init, f, keep, y);
      if exists i :: 0 <= i < |xs| && f(xs[i]) == y {
        var i :| 0 <= i < |xs| && f(xs[i]) == y;
        if i < |init| {
          assert init[i] == xs[i];
        }
      }
      if exists i :: 0 <= i < |init| && f(init[i]) == y {
        var i :| 0 <= i < |init| && f(init[i]) == y;
        assert xs[i] == init[i];
      }
    }
  }

  /** The stripped lines that are kept, in order. */
  function MathLines(raw: seq<string>): (r: seq<string>)
    ensures forall l :: l in r ==> Retained(l)
  {
    MapFilter(raw, Strip, Retained)
  }

  /** A line survives exactly when its stripped form passes the test. */
  lemma MathLinesKept(raw: seq<string>, line: string)
    ensures line in MathLines(raw) <==> Retained(line) && exists i :: 0 <= i < |raw| && Strip(raw[i]) == line
  {
    MapFilterMembers(raw, Strip, Retained, line);
  }

  /** Lines 39-43.  `content.splitlines()` is taken as a split at '\n'. */
  method FilterLines(content: string) returns (linesWithMath: seq<string>)
    ensures linesWithMath == MathLines(Split(content, '\n'))
  {
    var lines := Split(content, '\n');
    linesWithMath := [];
    var i := 0;
    while i < |lines|
      invariant 0 <= i <= |lines|
      invariant linesWithMath == MapFilter(lines[..i], Strip, Retained)
    {
      MapFilterStep(lines, i, Strip, Retained);
      var line := Strip(lines[i]);
      if HasMathSymbol(line) && |line| > MinLineLength {
        linesWithMath := linesWithMath + [line];
      }
      i := i + 1;
    }
    assert lines[..i] == lines;
  }

  // ---------------------------------------------------------------------------
  // Joining continuation lines (lines 45-56)

  /** How the loop cuts the lines into segments: a line holding '=' starts
      a new segment once there is one; every other line continues the
      current one. */
  function Segments(lines: seq<string>): (segs: seq<seq<string>>)
    ensures segs == [] <==> lines == []
    ensures forall k :: 0 <= k < |segs| ==> segs[k] != []
  {
    if lines == [] then []
    else
      var segs := Segments(lines[..|lines| - 1]);
      var l := lines[|lines| - 1];
      if segs == [] then [[l]]
      else if '=' in l then segs + [[l]]
      else segs[..|segs| - 1] + [segs[|segs| - 1] + [l]]
  }

  function Flatten(segs: seq<seq<string>>): seq<string> {
    if segs == [] then [] else Flatten(segs[..|segs| - 1]) + segs[|segs| - 1]
  }

  lemma {:induction false} FlattenSnoc(segs: seq<seq<string>>, l: string)
    requires segs != []
    ensures Flatten(segs[..|segs| - 1] + [segs[|segs| - 1] + [l]]) == Flatten(segs) + [l]
  {
    var init := segs[..|segs| - 1];
    var t := init + [segs[|segs| - 1] + [l]];
    assert t[..|t| - 1] == init;
  }

  /** The segments hold every line, in order. */
  lemma {:induction false} SegmentsFlatten(lines: seq<string>)
    ensures Flatten(Segments(lines)) == lines
  {
    if lines != [] {
      var init := lines[..|lines| - 1];
      var l := lines[|lines| - 1];
      SegmentsFlatten(init);
      var segs := Segments(init);
      assert lines == init + [l];
      if segs == [] {
        assert Flatten([[l]]) == Flatten([]) + [l];
      } else if '=' in l {
        var r := segs + [[l]];
        assert r[..|segs|] == segs;
        assert Flatten(r) == Flatten(segs) + [l];
      } else {
        FlattenSnoc(segs, l);
      }
    }
  }

  /** Every segment after the first starts with a line holding '='. */
  lemma {:induction false} SegmentsStartAtEquals(lines: seq<string>)
    ensures forall k :: 0 < k < |Segments(lines)| ==> '=' in Segments(lines)[k][0]
  {
    if lines != [] {
      var init := lines[..|lines| - 1];
      var l := lines[|lines| - 1];
      SegmentsStartAtEquals(init);
      var segs := Segments(init);
      var r := Segments(lines);
      if segs != [] && '=' in l {
        assert r == segs + [[l]];
        forall k | 0 < k < |r| ensures '=' in r[k][0] {
          if k < |segs| {
            assert r[k] == segs[k];
          } else {
            assert r[k] == [l];
          }
        }
      } else if segs != [] {
        var last := segs[|segs| - 1];
        assert r == segs[..|segs| - 1] + [last + [l]];
        forall k | 0 < k < |r| ensures '=' in r[k][0] {
          if k < |segs| - 1 {
            assert r[k] == segs[k];
          } else {
            assert r[k] == last + [l];
            assert r[k][0] == last[0];
          }
        }
      }
    }
  }

  /** No line of a segment other than its first holds '='. */
  lemma {:induction false} SegmentsContinue(lines: seq<string>)
    ensures forall k, j :: 0 <= k < |Segments(lines)| && 0 < j < |Segments(lines)[k]| ==> '=' !in Segments(lines)[k][j]
  {
    if lines != [] {
      var init := lines[..|lines| - 1];
      var l := lines[|lines| - 1];
      SegmentsContinue(init);
      var segs := Segments(init);
      var r := Segments(lines);
      if segs != [] && '=' !in l {
        var last := segs[|segs| - 1];
        assert r == segs[..|segs| - 1] + [last + [l]];
        forall k, j | 0 <= k < |r| && 0 < j < |r[k]| ensures '=' !in r[k][j] {
          if k < |segs| - 1 {
            assert r[k] == segs[k];
          } else {
            assert r[k] == last + [l];
            if j < |last| {
              assert r[k][j] == last[j];
            }
          }
        }
      } else if segs != [] {
        assert r == segs + [[l]];
        forall k, j | 0 <= k < |r| && 0 < j < |r[k]| ensures '=' !in r[k][j] {
          assert k < |segs|;
          assert r[k] == segs[k];
        }
      }
    }
  }

  /** Python `sep.join(parts)`. */
  function Join(parts: seq<string>, sep: string): string {
    if parts == [] then ""
    else if |parts| == 1 then parts[0]
    else Join(parts[..|parts| - 1], sep) + sep + parts[|parts| - 1]
  }

  function JoinedOf(segs: seq<seq<string>>): (r: seq<string>)
    ensures |r| == |segs|
  {
    if segs == [] then [] else JoinedOf(segs[..|segs| - 1]) + [Strip(Join(segs[|segs| - 1], " "))]
  }

  /** Each joined line is a segment's lines joined by spaces and stripped. */
  function JoinedLines(lines: seq<string>): seq<string> {
    JoinedOf(Segments(lines))
  }

  lemma StripLeadingSpace(x: string)
    ensures Strip(" " + x) == Strip(x)
  {
    assert (" " + x)[1..] == x;
  }

  lemma SegmentsStep(lines: seq<string>, i: int)
    requires 0 <= i < |lines|
    ensures var segs := Segments(lines[..i]);
            Segments(lines[..i + 1]) ==
              if segs == [] then [[lines[i]]]
              else if '=' in lines[i] then segs + [[lines[i]]]
              else segs[..|segs| - 1] + [segs[|segs| - 1] + [lines[i]]]
  {
    assert lines[..i + 1][..i] == lines[..i];
  }

  /** The lines already emitted once `segs` has been read. */
  function DoneOf(segs: seq<seq<string>>): seq<string> {
    if segs == [] then [] else JoinedOf(segs[..|segs| - 1])
  }

  /** The buffer once `segs` has been read: the first segment carries the
      leading space of `buffer += " " + line` on an empty buffer. */
  function PendingOf(segs: seq<seq<string>>): string {
    if segs == [] then "" else (if |segs| == 1 then " " else "") + Join(segs[|segs| - 1], " ")
  }

  /** Stripping the buffer drops the leading space of the first segment. */
  lemma StripPending(segs: seq<seq<string>>)
    requires segs != []
    ensures Strip(PendingOf(segs)) == Strip(Join(segs[|segs| - 1], " "))
  {
    var x := Join(segs[|segs| - 1], " ");
    if |segs| == 1 {
      assert PendingOf(segs) == " " + x;
      StripLeadingSpace(x);
    } else {
      assert PendingOf(segs) == "" + x;
      assert "" + x == x;
    }
  }

  lemma JoinStartsSegment(segs: seq<seq<string>>, line: string)
    requires segs != []
    ensures DoneOf(segs + [[line]]) == DoneOf(segs) + [Strip(PendingOf(segs))]
    ensures PendingOf(segs + [[line]]) == line
  {
    var next := segs + [[line]];
    assert next[..|next| - 1] == segs;
    JoinFinishes(segs);
    assert PendingOf(next) == "" + Join([line], " ");
    assert "" + line == line;
  }

  lemma JoinExtendsSegment(segs: seq<seq<string>>, line: string)
    requires segs != [] && segs[|segs| - 1] != []
    ensures var last := segs[|segs| - 1];
            var next := segs[..|segs| - 1] + [last + [line]];
            DoneOf(next) == DoneOf(segs) && PendingOf(next) == PendingOf(segs) + " " + line
  {
    var last := segs[|segs| - 1];
    var next := segs[..|segs| - 1] + [last + [line]];
    var longer := last + [line];
    assert longer[..|longer| - 1] == last;
    assert Join(longer, " ") == Join(last, " ") + " " + line;
    assert next[..|next| - 1] == segs[..|segs| - 1];
    assert next[|next| - 1] == longer;
    var pre := if |segs| == 1 then " " else "";
    assert PendingOf(next) == pre + Join(longer, " ");
    assert PendingOf(segs) == pre + Join(last, " ");
    assert pre + (Join(last, " ") + " " + line) == (pre + Join(last, " ")) + " " + line;
  }

  lemma JoinFinishes(segs: seq<seq<string>>)
    requires segs != []
    ensures DoneOf(segs) + [Strip(PendingOf(segs))] == JoinedOf(segs)
  {
    StripPending(segs);
  }

  /** Lines 46-55. */
  method JoinLines(lines: seq<string>) returns (joinedLines: seq<string>)
    ensures joinedLines == JoinedLines(lines)
  {
    joinedLines := [];
    var buffer := "";
    var i := 0;
    while i < |lines|
      invariant 0 <= i <= |lines|
      invariant joinedLines == DoneOf(Segments(lines[..i]))
      invariant buffer == PendingOf(Segments(lines[..i]))
      invariant buffer == "" <==> Segments(lines[..i]) == []
    {
      ghost var segs := Segments(lines[..i]);
      SegmentsStep(lines, i);
      var line := lines[i];
      ghost var next := Segments(lines[..i + 1]);
      if '=' in line && buffer != "" {
        assert next == segs + [[line]];
        JoinStartsSegment(segs, line);
        joinedLines := joinedLines + [Strip(buffer)];
        buffer := line;
      } else {
        if segs == [] {
          assert next == [[line]];
          assert PendingOf(next) == " " + Join([line], " ");
          assert DoneOf(next) == JoinedOf([]);
        } else {
          assert next == segs[..|segs| - 1] + [segs[|segs| - 1] + [line]];
          JoinExtendsSegment(segs, line);
        }
        buffer := buffer + " " + line;
      }
      i := i + 1;
    }
    assert lines[..i] == lines;
    if buffer != "" {
      JoinFinishes(Segments(lines));
      joinedLines := joinedLines + [Strip(buffer)];
    }
  }

  /** Line 57. */
  function Filtered(content: string): string {
    Join(JoinedLines(MathLines(Split(content, '\n'))), "\n")
  }

  // ---------------------------------------------------------------------------
  // Validity (lines 96-117)

  /** The operator class of lines 112 and 136: the math symbols of line 42 without the equals sign. */
  predicate IsOperator(c: char) {
    c == '×' || c == '÷' || c == '*' || c == '/' || c == '%' || c == '+' || c == '-'
  }

  const MinFormulaLength := 20
  const MaxFormulaLength := 250

  /** `\s+\d+` starting at `k`: whitespace, then a digit. */
  predicate NumberAfterSpaces(s: string, k: nat) {
    k <= |s| && var j := SkipSpaces(s, k); k < j < |s| && IsDigit(s[j])
  }

  /** `\b<kw>\s+\d+` matching at `i`. */
  predicate KeywordNumberAt(s: string, kw: string, i: int) {
    OccursAt(s, kw, i) && (i == 0 || !IsWordChar(s[i - 1])) && NumberAfterSpaces(s, i + |kw|)
  }

  predicate KeywordNumberIn(s: string, kw: string) {
    exists i :: 0 <= i < |s| && KeywordNumberAt(s, kw, i)
  }

  /** `trang\s+\d+` matching at `i` (no word boundary). */
  predicate PageNumberAt(s: string, i: int) {
    OccursAt(s, "trang", i) && NumberAfterSpaces(s, i + 5)
  }

  predicate PageNumberIn(s: string) {
    exists i :: 0 <= i < |s| && PageNumberAt(s, i)
  }

  predicate DigitsAt(s: string, i: int, n: nat) {
    0 <= i && i + n <= |s| && forall j :: i <= j < i + n ==> IsDigit(s[j])
  }

  /** `\d{a}/\d{b}/\d{4}` at `i`. */
  predicate DateShapeAt(s: string, i: int, a: nat, b: nat) {
    DigitsAt(s, i, a) && i + a < |s| && s[i + a] == '/' &&
    DigitsAt(s, i + a + 1, b) && i + a + 1 + b < |s| && s[i + a + 1 + b] == '/' &&
    DigitsAt(s, i + a + b + 2, 4)
  }

  /** `\d{1,2}/\d{1,2}/\d{4}` matching at `i`. */
  predicate DateAt(s: string, i: int) {
    DateShapeAt(s, i, 1, 1) || DateShapeAt(s, i, 1, 2) || DateShapeAt(s, i, 2, 1) || DateShapeAt(s, i, 2, 2)
  }

  predicate DateIn(s: string) {
    exists i :: 0 <= i < |s| && DateAt(s, i)
  }

  predicate IsCodeChar(c: char) {
    'A' <= c <= 'Z' || c == '-'
  }

  /** `\d+/\d+/[A-Z-]+` has a match whose slashes are at `j` and `k`. */
  predicate CodeAt(s: string, j: int, k: int) {
    1 <= j && j + 1 < k && k + 1 < |s| && IsDigit(s[j - 1]) && s[j] == '/' &&
    DigitsAt(s, j + 1, k - j - 1) && s[k] == '/' && IsCodeChar(s[k + 1])
  }

  predicate CodeIn(s: string) {
    exists j, k :: 0 <= j < k < |s| && CodeAt(s, j, k)
  }

  /** `http|email|đồng/tháng|mức lương cơ bản|tỷ lệ đóng`. */
  predicate PhraseIn(s: string) {
    Contains(s, "http") || Contains(s, "email") || Contains(s, "đồng/tháng") ||
    Contains(s, "mức lương cơ bản") || Contains(s, "tỷ lệ đóng")
  }

  /** The exclusion list of lines 99-107, every pattern searched in the
      lower-cased formula `low` (so `[A-Z-]` of the code pattern can only
      match '-'). */
  predicate Excluded(low: string) {
    KeywordNumberIn(low, "điều") || KeywordNumberIn(low, "khoản") || KeywordNumberIn(low, "mục") ||
    DateIn(low) || CodeIn(low) || PageNumberIn(low) || PhraseIn(low)
  }

  predicate HasOperatorOrDigit(s: string) {
    exists i :: 0 <= i < |s| && (IsOperator(s[i]) || IsDigit(s[i]))
  }

  predicate LengthInRange(s: string) {
    MinFormulaLength <= |s| <= MaxFormulaLength
  }

  /** `_is_valid_formula` (lines 94-117). */
  predicate IsValidFormula(formula: string) {
    !Excluded(Lower(formula)) && HasOperatorOrDigit(formula) && LengthInRange(formula)
  }

  /** Line 73: ASCII operators become typographic ones. */
  function Rewrite(formula: string): (r: string)
    ensures |r| == |formula|
    ensures '/' !in r && '*' !in r
    ensures forall i :: 0 <= i < |r| ==>
      r[i] == (if formula[i] == '*' then '×' else if formula[i] == '/' then '÷' else formula[i])
  {
    ReplaceChar(ReplaceChar(formula, '*', '×'), '/', '÷')
  }

  /** Lines 70-72. */
  function RawFormula(m: (string, string)): string {
    Strip(m.0) + " = " + Strip(m.1)
  }

  lemma LowerSlashFree(s: string)
    requires '/' !in s
    ensures '/' !in Lower(s)
  {
    var low := Lower(s);
    forall i | 0 <= i < |low| ensures low[i] != '/' {
      assert s[i] != '/';
    }
  }

  /** As written, the formula is validated after '/' has become '÷', so the
      date, the document-code and the "đồng/tháng" exclusions can never fire. */
  lemma SlashExclusionsNeverFire(m: (string, string))
    ensures var low := Lower(Rewrite(RawFormula(m)));
            !DateIn(low) && !CodeIn(low) && !Contains(low, "đồng/tháng")
  {
    var low := Lower(Rewrite(RawFormula(m)));
    LowerSlashFree(Rewrite(RawFormula(m)));
    if DateIn(low) {
      assert false;
    }
    if CodeIn(low) {
      assert false;
    }
    AbsentChar(low, "đồng/tháng", 4);
  }

  /** A phrase cannot occur in a text that lacks one of its characters. */
  lemma AbsentChar(s: string, sub: string, k: int)
    requires 0 <= k < |sub| && sub[k] !in s
    ensures !Contains(s, sub)
    ensures forall i :: !OccursAt(s, sub, i)
  {
  }

  lemma LowerUnchanged(s: string)
    requires forall i :: 0 <= i < |s| ==> !('A' <= s[i] <= 'Z') && !IsViUpper(s[i])
    ensures Lower(s) == s
  {
  }

  /** Without a '/', neither the date nor the document-code pattern can match. */
  lemma SlashFreeNoDate(s: string)
    requires '/' !in s
    ensures !DateIn(s) && !CodeIn(s)
  {
  }

  lemma StripUnchanged(s: string)
    requires s != [] && !IsSpace(s[0]) && !IsSpace(s[|s| - 1])
    ensures Strip(s) == s
  {
  }

  const DatedLeft := "ngày 01/01/2024"
  const DatedRight := "x + 1"
  const DatedRaw := DatedLeft + " = " + DatedRight
  const DatedRewritten := "ngày 01÷01÷2024 = x + 1"

  lemma DatedRawText()
    ensures RawFormula((DatedLeft, DatedRight)) == DatedRaw
  {
    DatedLeftStripped();
    DatedRightStripped();
  }

  lemma DatedLeftStripped()
    ensures Strip(DatedLeft) == DatedLeft
  {
    StripUnchanged(DatedLeft);
  }

  lemma DatedRightStripped()
    ensures Strip(DatedRight) == DatedRight
  {
    StripUnchanged(DatedRight);
  }

  lemma DatedRewrittenText()
    ensures Rewrite(DatedRaw) == DatedRewritten
  {
    assert DatedRaw == "ngày 01/01/2024 = x + 1";
  }

  lemma DatedFormulaRejected()
    ensures !IsValidFormula(DatedRaw)
  {
    var low := Lower(DatedRaw);
    forall k | 5 <= k < 15 ensures low[k] == DatedRaw[k] {
    }
    assert DateShapeAt(low, 5, 2, 2);
    assert DateAt(low, 5);
  }

  lemma DatedRewrittenNoReference()
    ensures !KeywordNumberIn(DatedRewritten, "điều") && !KeywordNumberIn(DatedRewritten, "khoản")
    ensures !KeywordNumberIn(DatedRewritten, "mục") && !PageNumberIn(DatedRewritten)
  {
    DatedRewrittenNoArticle();
    AbsentChar(DatedRewritten, "mục", 0);
    AbsentChar(DatedRewritten, "trang", 0);
  }

  lemma DatedRewrittenNoArticle()
    ensures !KeywordNumberIn(DatedRewritten, "điều") && !KeywordNumberIn(DatedRewritten, "khoản")
  {
    AbsentChar(DatedRewritten, "điều", 0);
    AbsentChar(DatedRewritten, "khoản", 0);
  }

  lemma DatedRewrittenNoPhrase()
    ensures !PhraseIn(DatedRewritten)
  {
    DatedRewrittenNoAddress();
    AbsentChar(DatedRewritten, "đồng/tháng", 0);
    AbsentChar(DatedRewritten, "mức lương cơ bản", 0);
    AbsentChar(DatedRewritten, "tỷ lệ đóng", 0);
  }

  lemma DatedRewrittenNoAddress()
    ensures !Contains(DatedRewritten, "http") && !Contains(DatedRewritten, "email")
  {
    AbsentChar(DatedRewritten, "http", 0);
    AbsentChar(DatedRewritten, "email", 0);
  }

  lemma DatedRewrittenLower()
    ensures Lower(DatedRewritten) == DatedRewritten
  {
    LowerUnchanged(DatedRewritten);
  }

  lemma RewrittenDatedFormulaAccepted()
    ensures IsValidFormula(DatedRewritten)
  {
    DatedRewrittenLower();
    SlashFreeNoDate(DatedRewritten);
    DatedRewrittenNoReference();
    DatedRewrittenNoPhrase();
    assert IsDigit(DatedRewritten[5]);
  }

  /** A formula that carries a date, "ngày 01/01/2024 = x + 1", is emitted
      as written, while the intended test rejects it. */
  lemma AsWrittenAcceptsDates()
    ensures var m := (DatedLeft, DatedRight);
            IsValidFormula(Rewrite(RawFormula(m))) && !IsValidFormula(RawFormula(m))
  {
    DatedRawText();
    DatedRewrittenText();
    DatedFormulaRejected();
    RewrittenDatedFormulaAccepted();
  }

  // ---------------------------------------------------------------------------
  // Classification and confidence (lines 119-144)

  const SalaryKind := "salary_calculation"
  const TaxKind := "tax_calculation"
  const PercentageKind := "percentage_formula"
  const MultiplicationKind := "multiplication_formula"
  const DivisionKind := "division_formula"
  const ComplexKind := "complex_formula"

  /** Lines 119-132: the first rule that applies names the kind. */
  function Classify(formula: string): (kind: string)
    ensures kind in {SalaryKind, TaxKind, PercentageKind, MultiplicationKind, DivisionKind, ComplexKind}
    ensures kind == ComplexKind ==> '×' !in Lower(formula) && '÷' !in Lower(formula)
  {
    var f := Lower(formula);
    if Contains(f, "lương") || Contains(f, "tiết dạy") then SalaryKind
    else if Contains(f, "thuế") then TaxKind
    else if '%' in f && ('×' in f || '÷' in f) then PercentageKind
    else if '×' in f then MultiplicationKind
    else if '÷' in f then DivisionKind
    else ComplexKind
  }

  lemma LowerKeepsOperator(s: string, i: int)
    requires 0 <= i < |s| && IsOperator(s[i])
    ensures Lower(s)[i] == s[i]
  {
  }

  /** Because the rewrite runs first, an ASCII '*' or '/' in a formula
      without salary or tax words is classified by its operator. */
  lemma RewrittenOperatorsClassified(raw: string)
    requires var f := Lower(Rewrite(raw));
             !Contains(f, "lương") && !Contains(f, "tiết dạy") && !Contains(f, "thuế") && '%' !in raw
    ensures '*' in raw ==> Classify(Rewrite(raw)) == MultiplicationKind
    ensures '/' in raw && '*' !in raw && '×' !in raw ==> Classify(Rewrite(raw)) == DivisionKind
  {
    var r := Rewrite(raw);
    var f := Lower(r);
    assert '%' !in f by {
      forall i | 0 <= i < |f| ensures f[i] != '%' {
        assert raw[i] != '%';
      }
    }
    if '*' in raw {
      var i :| 0 <= i < |raw| && raw[i] == '*';
      LowerKeepsOperator(r, i);
      assert f[i] == '×';
    }
    if '/' in raw && '*' !in raw && '×' !in raw {
      var i :| 0 <= i < |raw| && raw[i] == '/';
      LowerKeepsOperator(r, i);
      assert f[i] == '÷';
      forall j | 0 <= j < |f| ensures f[j] != '×' {
        assert raw[j] != '*' && raw[j] != '×';
        if IsOperator(r[j]) {
          LowerKeepsOperator(r, j);
        }
      }
    }
  }

  /** Number of characters in the operator class. */
  function OperatorCount(s: string): (n: nat)
    ensures n <= |s|
  {
    if s == [] then 0
    else OperatorCount(s[..|s| - 1]) + (if IsOperator(s[|s| - 1]) then 1 else 0)
  }

  const ConfidenceKeywords := ["lương", "thuế", "phụ cấp", "định mức", "phí"]
  const ContextKeywords := ["tiết dạy", "năm học"]

  /** Three hundredths for each listed keyword the text contains. */
  function KeywordBonus(low: string, kws: seq<string>): (b: nat)
    ensures b <= 3 * |kws|
  {
    if kws == [] then 0
    else KeywordBonus(low, kws[..|kws| - 1]) + (if Contains(low, kws[|kws| - 1]) then 3 else 0)
  }

  predicate HasContext(low: string) {
    Contains(low, ContextKeywords[0]) || Contains(low, ContextKeywords[1])
  }

  /** Lines 134-144, in hundredths: 0.75, plus 0.03 per operator up to 0.2,
      plus 0.03 per keyword, plus 0.05 for teaching context, capped at 0.98. */
  function Confidence(formula: string): (c: int)
    ensures 75 <= c <= 98
    ensures OperatorCount(formula) >= 7 ==> c >= 95
    ensures c == 98 || c == 75 + Min(20, 3 * OperatorCount(formula)) + KeywordBonus(Lower(formula), ConfidenceKeywords) + (if HasContext(Lower(formula)) then 5 else 0)
  {
    var low := Lower(formula);
    var base := 75 + Min(20, 3 * OperatorCount(formula)) + KeywordBonus(low, ConfidenceKeywords)
                + (if HasContext(low) then 5 else 0);
    if base < 98 then base else 98
  }

  function Min(a: int, b: int): int { if a < b then a else b }

  lemma {:induction false} KeywordBonusGrows(low: string, more: string, kws: seq<string>)
    ensures KeywordBonus(low + more, kws) >= KeywordBonus(low, kws)
  {
    if kws != [] {
      KeywordBonusGrows(low, more, kws[..|kws| - 1]);
      if Contains(low, kws[|kws| - 1]) {
        ContainsInLonger(low, more, kws[|kws| - 1]);
      }
    }
  }

  /** Appending text never lowers the confidence: operators and keywords only add. */
  lemma {:induction false} ConfidenceGrows(formula: string, more: string)
    ensures Confidence(formula + more) >= Confidence(formula)
  {
    var low := Lower(formula);
    assert Lower(formula + more) == low + Lower(more);
    OperatorCountGrows(formula, more);
    KeywordBonusGrows(low, Lower(more), ConfidenceKeywords);
    HasContextGrows(low, Lower(more));
    ConfidenceMonotone(formula, formula + more);
  }

  lemma HasContextGrows(low: string, more: string)
    ensures HasContext(low) ==> HasContext(low + more)
  {
    if Contains(low, ContextKeywords[0]) {
      ContainsInLonger(low, more, ContextKeywords[0]);
    }
    if Contains(low, ContextKeywords[1]) {
      ContainsInLonger(low, more, ContextKeywords[1]);
    }
  }

  /** More operators, more keywords and context kept give no less confidence. */
  lemma ConfidenceMonotone(f: string, g: string)
    requires OperatorCount(g) >= OperatorCount(f)
    requires KeywordBonus(Lower(g), ConfidenceKeywords) >= KeywordBonus(Lower(f), ConfidenceKeywords)
    requires HasContext(Lower(f)) ==> HasContext(Lower(g))
    ensures Confidence(g) >= Confidence(f)
  {
  }

  lemma {:induction false} OperatorCountGrows(s: string, more: string)
    ensures OperatorCount(s + more) >= OperatorCount(s)
    decreases |more|
  {
    if more != [] {
      var init := more[..|more| - 1];
      OperatorCountGrows(s, init);
      assert (s + more)[..|s + more| - 1] == s + init;
      assert OperatorCount(s + more) >= OperatorCount(s + init);
    } else {
      assert s + more == s;
    }
  }

  // ---------------------------------------------------------------------------
  // Formula names (lines 146-151)

  predicate IsAsciiLower(c: char) { 'a' <= c <= 'z' }

  /** `^\d+\.\s*[a-z]\)\s*` removed. */
  function DropNumberedLetter(s: string): (r: string)
    ensures |r| <= |s| && r == s[|s| - |r|..]
  {
    var d := SkipDigits(s, 0);
    if 0 < d < |s| && s[d] == '.' then
      var k := SkipSpaces(s, d + 1);
      if k + 1 < |s| && IsAsciiLower(s[k]) && s[k + 1] == ')' then s[SkipSpaces(s, k + 2)..] else s
    else s
  }

  /** `^\d+[\.\)]\s*` removed. */
  function DropNumber(s: string): (r: string)
    ensures |r| <= |s| && r == s[|s| - |r|..]
  {
    var d := SkipDigits(s, 0);
    if 0 < d < |s| && (s[d] == '.' || s[d] == ')') then s[SkipSpaces(s, d + 1)..] else s
  }

  /** `^[a-z]\)\s*` removed. */
  function DropLetter(s: string): (r: string)
    ensures |r| <= |s| && r == s[|s| - |r|..]
  {
    if |s| >= 2 && IsAsciiLower(s[0]) && s[1] == ')' then s[SkipSpaces(s, 2)..] else s
  }

  const NameLength := 60

  /** The left side without its list marker, whitespace runs collapsed,
      cut to 60 characters. */
  function ExtractName(left: string): (name: string)
    ensures |name| <= NameLength
    ensures forall i :: 0 <= i < |name| ==> (IsSpace(name[i]) ==> name[i] == ' ')
    ensures forall i :: 0 <= i < |name| - 1 ==> !(name[i] == ' ' && name[i + 1] == ' ')
  {
    var unmarked := DropLetter(DropNumber(DropNumberedLetter(Strip(left))));
    CollapsedNameShape(unmarked, NameLength);
    Take(CollapseSpaces(unmarked), NameLength)
  }

  /** Cutting a collapsed string keeps it collapsed. */
  lemma CollapsedNameShape(s: string, n: nat)
    ensures var t := Take(CollapseSpaces(s), n);
            |t| <= n &&
            (forall i :: 0 <= i < |t| ==> (IsSpace(t[i]) ==> t[i] == ' ')) &&
            (forall i :: 0 <= i < |t| - 1 ==> !(t[i] == ' ' && t[i + 1] == ' '))
  {
    var c := CollapseSpaces(s);
    var t := Take(c, n);
    forall i | 0 <= i < |t| ensures t[i] == c[i] {
    }
  }

  /** A lettered item loses its marker: "a) " + text keeps only the text. */
  lemma LetterMarkerDropped(text: string)
    requires text != [] && !IsSpace(text[0]) && !IsDigit(text[0])
    ensures DropLetter(DropNumber(DropNumberedLetter("a) " + text))) == text
  {
    var s := "a) " + text;
    assert SkipDigits(s, 0) == 0;
    assert SkipSpaces(s, 2) == 3 by {
      assert SkipSpaces(s, 3) == 3;
    }
    assert s[3..] == text;
  }

  // ---------------------------------------------------------------------------
  // Candidates (lines 60-84)

  datatype FormulaRecord = FormulaRecord(
    name: string, formula: string, description: string, confidence: int, kind: string)

  /** The two search patterns of lines 61-64, passed to `findMatches`. */
  const FormulaPatterns: seq<string> := [
    @"([^\n=]{8,120})\s*=\s*([\s\S]{8,250}?)(?=\n[A-ZÀ-Ỵ]|$)",
    @"([^\n=]{5,80})\s*=\s*([^\n=]{5,200}[×*/%+\-][^\n=]{3,200})"
  ]

  /** The record built for an accepted formula (lines 76-84). */
  function RecordOf(left: string, formula: string): (r: FormulaRecord)
    ensures r.formula == formula && r.kind == Classify(formula)
    ensures r.description == "Công thức " + r.kind
    ensures 75 <= r.confidence <= 98 && |r.name| <= NameLength
  {
    var kind := Classify(formula);
    FormulaRecord(ExtractName(left), formula, "Công thức " + kind, Confidence(formula), kind)
  }

  /** Lines 70-84 as written: the rewritten formula is validated. */
  function CandidateAsWritten(m: (string, string)): (r: Option<FormulaRecord>)
    ensures r.Some? <==> IsValidFormula(Rewrite(RawFormula(m)))
    ensures r.Some? ==> r.value.formula == Rewrite(RawFormula(m)) && 75 <= r.value.confidence <= 98
  {
    var formula := Rewrite(RawFormula(m));
    if IsValidFormula(formula) then Some(RecordOf(Strip(m.0), formula)) else None
  }

  /** The intended order: the formula is validated as found, then rewritten. */
  function Candidate(m: (string, string)): (r: Option<FormulaRecord>)
    ensures r.Some? <==> IsValidFormula(RawFormula(m))
    ensures r.Some? ==> r.value.formula == Rewrite(RawFormula(m)) && 75 <= r.value.confidence <= 98
  {
    var raw := RawFormula(m);
    if IsValidFormula(raw) then Some(RecordOf(Strip(m.0), Rewrite(raw))) else None
  }

  /** The dated example is a candidate as written and is rejected as intended. */
  lemma DatedCandidate()
    ensures CandidateAsWritten((DatedLeft, DatedRight)).Some?
    ensures Candidate((DatedLeft, DatedRight)).None?
  {
    AsWrittenAcceptsDates();
  }

  /** With the intended order an accepted formula never carries a date, a
      document code or a per-month amount, and its length is within bounds. */
  lemma CandidateExcludesDates(m: (string, string))
    requires Candidate(m).Some?
    ensures var low := Lower(RawFormula(m));
            !DateIn(low) && !CodeIn(low) && !Contains(low, "đồng/tháng")
    ensures LengthInRange(Candidate(m).value.formula)
  {
  }

  /** The values `pick` gives for `xs`, skipping `None`, in order. */
  function Kept<X, Y>(xs: seq<X>, pick: X -> Option<Y>): (r: seq<Y>)
    ensures |r| <= |xs|
  {
    if xs == [] then []
    else
      var init := Kept(xs[..|xs| - 1], pick);
      match pick(xs[|xs| - 1])
      case Some(y) => init + [y]
      case None => init
  }

  lemma {:induction false} KeptAppend<X, Y>(a: seq<X>, b: seq<X>, pick: X -> Option<Y>)
    ensures Kept(a + b, pick) == Kept(a, pick) + Kept(b, pick)
    decreases |b|
  {
    if b == [] {
      assert a + b == a;
    } else {
      var init := b[..|b| - 1];
      KeptAppend(a, init, pick);
      assert (a + b)[..|a + b| - 1] == a + init;
    }
  }

  lemma KeptSnoc<X, Y>(xs: seq<X>, x: X, pick: X -> Option<Y>)
    ensures Kept(xs + [x], pick) == Kept(xs, pick) + (if pick(x).Some? then [pick(x).value] else [])
  {
    assert (xs + [x])[..|xs|] == xs;
  }

  /** Every kept value is what `pick` gives for some input. */
  lemma {:induction false} KeptFromInputs<X, Y>(xs: seq<X>, pick: X -> Option<Y>, y: Y)
    requires y in Kept(xs, pick)
    ensures exists x :: x in xs && pick(x) == Some(y)
  {
    var init := xs[..|xs| - 1];
    if y in Kept(init, pick) {
      KeptFromInputs(init, pick, y);
      var x :| x in init && pick(x) == Some(y);
      assert x in xs;
    } else {
      assert pick(xs[|xs| - 1]) == Some(y);
    }
  }

  /** All matches of the patterns, pattern by pattern. */
  function AllMatches(patterns: seq<string>, text: string,
                      findMatches: (string, string) -> seq<(string, string)>): seq<(string, string)>
  {
    if patterns == [] then []
    else AllMatches(patterns[..|patterns| - 1], text, findMatches) + findMatches(patterns[|patterns| - 1], text)
  }

  lemma AllMatchesStep(patterns: seq<string>, p: int, text: string,
                       findMatches: (string, string) -> seq<(string, string)>)
    requires 0 <= p < |patterns|
    ensures AllMatches(patterns[..p + 1], text, findMatches) ==
            AllMatches(patterns[..p], text, findMatches) + findMatches(patterns[p], text)
  {
    assert patterns[..p + 1][..p] == patterns[..p];
  }

  /** The loop of lines 69-84 over one pattern's matches: each accepted
      record is appended to `acc`. */
  method AppendKept<X, Y>(xs: seq<X>, pick: X -> Option<Y>, acc: seq<Y>) returns (result: seq<Y>)
    ensures result == acc + Kept(xs, pick)
  {
    result := acc;
    var i := 0;
    while i < |xs|
      invariant 0 <= i <= |xs|
      invariant result == acc + Kept(xs[..i], pick)
    {
      assert xs[..i + 1] == xs[..i] + [xs[i]];
      KeptSnoc(xs[..i], xs[i], pick);
      var picked := pick(xs[i]);
      if picked.Some? {
        assert result + [picked.value] == acc + (Kept(xs[..i], pick) + [picked.value]);
        result := result + [picked.value];
      }
      i := i + 1;
    }
    assert xs[..i] == xs;
  }

  /** Lines 66-84: each match's record, rewritten before it is validated. */
  method CollectFormulas(filtered: string, findMatches: (string, string) -> seq<(string, string)>)
    returns (formulas: seq<FormulaRecord>)
    ensures formulas == Kept(AllMatches(FormulaPatterns, filtered, findMatches), CandidateAsWritten)
  {
    var patterns := FormulaPatterns;
    formulas := [];
    var p := 0;
    while p < |patterns|
      invariant 0 <= p <= |patterns|
      invariant formulas == Kept(AllMatches(patterns[..p], filtered, findMatches), CandidateAsWritten)
    {
      var matches := findMatches(patterns[p], filtered);
      AllMatchesStep(patterns, p, filtered, findMatches);
      KeptAppend(AllMatches(patterns[..p], filtered, findMatches), matches, CandidateAsWritten);
      formulas := AppendKept(matches, CandidateAsWritten, formulas);
      p := p + 1;
    }
    assert patterns[..p] == patterns;
  }

  // ---------------------------------------------------------------------------
  // Deduplication (lines 153-160)

  const KeyLength := 80

  /** Lower-cased, stripped, whitespace runs collapsed, first 80 characters. */
  function DedupKey(f: FormulaRecord): (k: string)
    ensures |k| <= KeyLength
  {
    Take(CollapseSpaces(Strip(Lower(f.formula))), KeyLength)
  }

  /** The loop of lines 154-159 keeps the first record per `DedupKey` with
      a set of the keys seen so far: `FirstSeen.DedupLoop`. */
  predicate DistinctKeys<T>(u: seq<T>, key: T -> string) {
    forall i, j :: 0 <= i < j < |u| ==> key(u[i]) != key(u[j])
  }

  function ConfidenceOf(f: FormulaRecord): real {
    f.confidence as real
  }

  /** Lines 153-160: the first record per key, highest confidence first. */
  method DeduplicateFormulas(formulas: seq<FormulaRecord>) returns (unique: seq<FormulaRecord>)
    ensures unique == SortDesc(FirstSeen.Dedup(formulas, DedupKey), ConfidenceOf)
  {
    var kept := FirstSeen.DedupLoop(formulas, DedupKey);
    unique := SortDesc(kept, ConfidenceOf);
  }

  lemma {:induction false} OneCopyPerKey<T>(u: seq<T>, key: T -> string, x: T)
    requires DistinctKeys(u, key)
    ensures multiset(u)[x] <= 1
  {
    if u != [] {
      var init := u[..|u| - 1];
      assert u == init + [u[|u| - 1]];
      OneCopyPerKey(init, key, x);
    }
  }

  lemma TwoCopies<T>(s: seq<T>, i: int, j: int)
    requires 0 <= i < j < |s| && s[i] == s[j]
    ensures multiset(s)[s[i]] >= 2
  {
    assert s == s[..j] + [s[j]] + s[j + 1..];
    assert s[..j][i] == s[i];
  }

  /** Reordering a list whose keys are distinct keeps them distinct. */
  lemma DistinctKeysPermuted<T>(u: seq<T>, out: seq<T>, key: T -> string)
    requires multiset(out) == multiset(u) && DistinctKeys(u, key)
    ensures DistinctKeys(out, key)
  {
    forall i, j | 0 <= i < j < |out| ensures key(out[i]) != key(out[j]) {
      if out[i] == out[j] {
        TwoCopies(out, i, j);
        OneCopyPerKey(u, key, out[i]);
      } else {
        assert out[i] in multiset(u) && out[j] in multiset(u);
        var a :| 0 <= a < |u| && u[a] == out[i];
        var b :| 0 <= b < |u| && u[b] == out[j];
        assert a != b;
      }
    }
  }

  // ---------------------------------------------------------------------------
  // The whole extraction (lines 35-93)

  datatype Extraction = Extraction(
    formulas: seq<FormulaRecord>,
    totalFormulas: nat,
    extractionMethod: string,
    filteredContentLength: nat,
    originalContentLength: nat)

  const ExtractionMethod := "improved_llm_v2.1_with_multiline"

  /** The records the extraction returns for `content`. */
  function ExtractedFormulas(content: string, findMatches: (string, string) -> seq<(string, string)>): seq<FormulaRecord> {
    var candidates := Kept(AllMatches(FormulaPatterns, Filtered(content), findMatches), CandidateAsWritten);
    SortDesc(FirstSeen.Dedup(candidates, DedupKey), ConfidenceOf)
  }

  /** `extract_with_improved_prompt`.  The regular-expression search is the
      parameter `findMatches`: for a pattern and a text it gives the two
      captured groups of each match, in order. */
  method ExtractWithImprovedPrompt(content: string, findMatches: (string, string) -> seq<(string, string)>)
    returns (r: Extraction)
    ensures r.formulas == ExtractedFormulas(content, findMatches)
    ensures r.totalFormulas == |r.formulas|
    ensures r.extractionMethod == ExtractionMethod
    ensures r.filteredContentLength == |Filtered(content)| && r.originalContentLength == |content|
  {
    var linesWithMath := FilterLines(content);
    var joinedLines := JoinLines(linesWithMath);
    var filtered := Join(joinedLines, "\n");
    var formulas := CollectFormulas(filtered, findMatches);
    var unique := DeduplicateFormulas(formulas);
    r := Extraction(unique, |unique|, ExtractionMethod, |filtered|, |content|);
  }

  /** What the extraction promises about its output: ordered by confidence,
      one record per key, each a valid match rewritten with typographic
      operators, scored between 0.75 and 0.98. */
  lemma ExtractedFormulasProperties(content: string, findMatches: (string, string) -> seq<(string, string)>)
    ensures var out := ExtractedFormulas(content, findMatches);
            SortedDesc(out, ConfidenceOf) && DistinctKeys(out, DedupKey) &&
            forall f :: f in out ==>
              75 <= f.confidence <= 98 && LengthInRange(f.formula) && '/' !in f.formula && '*' !in f.formula
  {
    var matches := AllMatches(FormulaPatterns, Filtered(content), findMatches);
    var candidates := Kept(matches, CandidateAsWritten);
    var u := FirstSeen.Dedup(candidates, DedupKey);
    var out := SortDesc(u, ConfidenceOf);
    SortDescSorted(u, ConfidenceOf);
    DedupedDistinct(candidates);
    DistinctKeysPermuted(u, out, DedupKey);
    FirstSeen.DedupFromInput(candidates, DedupKey);
    forall f | f in out
      ensures 75 <= f.confidence <= 98 && LengthInRange(f.formula) && '/' !in f.formula && '*' !in f.formula
    {
      assert f in multiset(u);
      CandidateBounds(matches, f);
    }
  }

  lemma DedupedDistinct(candidates: seq<FormulaRecord>)
    ensures DistinctKeys(FirstSeen.Dedup(candidates, DedupKey), DedupKey)
  {
    FirstSeen.DedupDistinctKeys(candidates, DedupKey);
  }

  lemma CandidateBounds(matches: seq<(string, string)>, f: FormulaRecord)
    requires f in Kept(matches, CandidateAsWritten)
    ensures 75 <= f.confidence <= 98 && LengthInRange(f.formula) && '/' !in f.formula && '*' !in f.formula
  {
    KeptFromInputs(matches, CandidateAsWritten, f);
    var m :| m in matches && CandidateAsWritten(m) == Some(f);
  }
}
