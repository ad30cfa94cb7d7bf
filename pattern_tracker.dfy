/** `scripts/analysis/human_in_loop_tracker.py`: records the formulas the
    second extraction layer found, groups the unanalysed ones by the shapes
    they show, and suggests a regex for every shape seen often enough. */
module PatternTracker {
  import opened Common

  datatype Finding = Finding(timestamp: string, url: string, formula: string, foundBy: string, analyzed: bool)

  datatype Suggestion = Suggestion(pattern: string, regexSuggestion: string, examples: seq<string>,
                                   count: nat, confidence: real, implemented: bool)

  const NameColonValue := "name_colon_value"
  const NameEqualsCalculation := "name_equals_calculation"
  const PercentageFormula := "percentage_formula"
  const ParenthesesFormula := "parentheses_formula"
  const MultiplicationFormula := "multiplication_formula"

  const MaxExamples := 3
  const ExampleLength := 100

  /** `re.search(r'[^S]+S\s*[^.]+', s)` for a separator S: some S has a
      non-S character right before it and a character other than '.' right
      after it (`\s*` may match nothing, and `[^.]+` accepts whitespace). */
  predicate HasNameSep(s: string, sep: char) {
    exists i :: 1 <= i < |s| - 1 && s[i] == sep && s[i - 1] != sep && s[i + 1] != '.'
  }

  /** `detect_patterns` (lines 101-125): the shapes a formula shows, in this order. */
  function DetectPatterns(formula: string): (tags: seq<string>)
    ensures forall i, j :: 0 <= i < j < |tags| ==> tags[i] != tags[j]
  {
    (if HasNameSep(formula, ':') then [NameColonValue] else []) +
    (if HasNameSep(formula, '=') then [NameEqualsCalculation] else []) +
    (if '%' in formula then [PercentageFormula] else []) +
    (if '(' in formula && ')' in formula then [ParenthesesFormula] else []) +
    (if '×' in formula || 'x' in formula || '*' in formula then [MultiplicationFormula] else [])
  }

  /** Whether `formula` shows the shape `tag` names. */
  predicate Shows(formula: string, tag: string) {
    (tag == NameColonValue && HasNameSep(formula, ':')) ||
    (tag == NameEqualsCalculation && HasNameSep(formula, '=')) ||
    (tag == PercentageFormula && '%' in formula) ||
    (tag == ParenthesesFormula && '(' in formula && ')' in formula) ||
    (tag == MultiplicationFormula && ('×' in formula || 'x' in formula || '*' in formula))
  }

  /** Lines 106-123: a formula is tagged with exactly the shapes it shows;
      any of '×', 'x', '*' counts as multiplication. */
  lemma DetectPatternsShows(formula: string, tag: string)
    ensures tag in DetectPatterns(formula) <==> Shows(formula, tag)
  {
  }

  const RegexMap: Dict<string> := [
    (NameColonValue, @"([^:]+):\s*([^.]+)"),
    (NameEqualsCalculation, @"([^=]+)=\s*([^.]+)"),
    (PercentageFormula, @"([^%]*\d+(?:[.,]\d+)?%[^.]*)"),
    (ParenthesesFormula, @"([^(]*\([^)]+\)[^.]*)"),
    (MultiplicationFormula, @"([^×x*]*[×x*][^.]*)")
  ]

  const DefaultRegex := @"([^.]+)"

  /** `generate_regex` (lines 127-136). */
  function GenerateRegex(pattern: string): (r: string)
    ensures HasKey(RegexMap, pattern) ==> (pattern, r) in RegexMap
    ensures !HasKey(RegexMap, pattern) ==> r == DefaultRegex
  {
    Get(RegexMap, pattern).GetOr(DefaultRegex)
  }

  /** Every tag `detect_patterns` produces has a regex of its own. */
  lemma DetectedPatternsHaveRegex(formula: string, tag: string)
    requires tag in DetectPatterns(formula)
    ensures GenerateRegex(tag) != DefaultRegex
  {
    DetectPatternsShows(formula, tag);
    var i := if tag == NameColonValue then 0 else if tag == NameEqualsCalculation then 1
             else if tag == PercentageFormula then 2 else if tag == ParenthesesFormula then 3 else 4;
    assert RegexMap[i].0 == tag;
    assert forall e :: e in RegexMap ==> |e.1| != |DefaultRegex|;
  }

  // ---------------------------------------------------------------------------
  // Grouping (lines 52-64)

  /** `pattern_groups[pattern].append(finding)` on a defaultdict(list). */
  function Append(groups: Dict<seq<Finding>>, pattern: string, f: Finding): Dict<seq<Finding>> {
    Put(groups, pattern, Get(groups, pattern).GetOr([]) + [f])
  }

  function AddToGroups(groups: Dict<seq<Finding>>, patterns: seq<string>, f: Finding): Dict<seq<Finding>> {
    if patterns == [] then groups
    else Append(AddToGroups(groups, patterns[..|patterns| - 1], f), patterns[|patterns| - 1], f)
  }

  /** The groups built from the findings not yet analysed. */
  function Groups(findings: seq<Finding>): Dict<seq<Finding>> {
    if findings == [] then []
    else
      var f := findings[|findings| - 1];
      var g := Groups(findings[..|findings| - 1]);
      if f.analyzed then g else AddToGroups(g, DetectPatterns(f.formula), f)
  }

  /** The unanalysed findings that show `pattern`, in order. */
  function Matching(findings: seq<Finding>, pattern: string): (r: seq<Finding>)
    ensures forall f :: f in r ==> f in findings && !f.analyzed && pattern in DetectPatterns(f.formula)
  {
    if findings == [] then []
    else
      var f := findings[|findings| - 1];
      Matching(findings[..|findings| - 1], pattern) +
        (if !f.analyzed && pattern in DetectPatterns(f.formula) then [f] else [])
  }

  lemma {:induction false} AddToGroupsGet(groups: Dict<seq<Finding>>, patterns: seq<string>, f: Finding, p: string)
    requires forall i, j :: 0 <= i < j < |patterns| ==> patterns[i] != patterns[j]
    ensures Get(AddToGroups(groups, patterns, f), p) ==
              if p in patterns then Some(Get(groups, p).GetOr([]) + [f]) else Get(groups, p)
  {
    if patterns != [] {
      var init := patterns[..|patterns| - 1];
      var last := patterns[|patterns| - 1];
      var g := AddToGroups(groups, init, f);
      AddToGroupsGet(groups, init, f, p);
      if p != last {
        PutOthers(g, last, Get(g, last).GetOr([]) + [f], p);
        assert p in patterns <==> p in init;
      } else {
        assert last !in init;
      }
    }
  }

  /** Lines 55-64: the group of a pattern holds exactly the unanalysed
      findings that show it, in order; a pattern none shows has no group. */
  lemma {:induction false} GroupsAreMatching(findings: seq<Finding>, p: string)
    ensures Get(Groups(findings), p) == if Matching(findings, p) == [] then None else Some(Matching(findings, p))
  {
    if findings != [] {
      var init := findings[..|findings| - 1];
      var f := findings[|findings| - 1];
      var g := Groups(init);
      var m := Matching(init, p);
      GroupsAreMatching(init, p);
      assert Get(g, p).GetOr([]) == m;
      if f.analyzed {
        assert Groups(findings) == g;
        assert Matching(findings, p) == m;
      } else {
        var tags := DetectPatterns(f.formula);
        assert Groups(findings) == AddToGroups(g, tags, f);
        AddToGroupsGet(g, tags, f, p);
        if p in tags {
          assert Matching(findings, p) == m + [f];
          assert Get(Groups(findings), p) == Some(m + [f]);
        } else {
          assert Matching(findings, p) == m;
          assert Get(Groups(findings), p) == Get(g, p);
        }
      }
    }
  }

  /** Findings already analysed never reach a group. */
  lemma {:induction false} AnalysedFindingsIgnored(findings: seq<Finding>)
    requires forall i :: 0 <= i < |findings| ==> findings[i].analyzed
    ensures Groups(findings) == []
  {
    if findings != [] {
      AnalysedFindingsIgnored(findings[..|findings| - 1]);
    }
  }

  method GroupFindings(findings: seq<Finding>) returns (patternGroups: Dict<seq<Finding>>)
    ensures patternGroups == Groups(findings)
  {
    patternGroups := [];
    var i := 0;
    while i < |findings|
      invariant 0 <= i <= |findings|
      invariant patternGroups == Groups(findings[..i])
    {
      GroupsStep(findings, i);
      var finding := findings[i];
      if !finding.analyzed {
        patternGroups := AddFinding(patternGroups, DetectPatterns(finding.formula), finding);
      }
      i := i + 1;
    }
    assert findings[..i] == findings;
  }

  /** The inner loop: append the finding to the group of each of its patterns. */
  method AddFinding(groups: Dict<seq<Finding>>, patterns: seq<string>, finding: Finding)
    returns (patternGroups: Dict<seq<Finding>>)
    ensures patternGroups == AddToGroups(groups, patterns, finding)
  {
    patternGroups := groups;
    var j := 0;
    while j < |patterns|
      invariant 0 <= j <= |patterns|
      invariant patternGroups == AddToGroups(groups, patterns[..j], finding)
    {
      assert patterns[..j + 1][..j] == patterns[..j];
      patternGroups := Append(patternGroups, patterns[j], finding);
      j := j + 1;
    }
    assert patterns[..j] == patterns;
  }

  lemma GroupsStep(findings: seq<Finding>, i: int)
    requires 0 <= i < |findings|
    ensures Groups(findings[..i + 1]) ==
              if findings[i].analyzed then Groups(findings[..i])
              else AddToGroups(Groups(findings[..i]), DetectPatterns(findings[i].formula), findings[i])
  {
    assert findings[..i + 1][..i] == findings[..i];
  }

  // ---------------------------------------------------------------------------
  // Suggestions (lines 66-77)

  function Examples(group: seq<Finding>): (ex: seq<string>)
    ensures |ex| <= MaxExamples
    ensures |ex| <= |group|
    ensures forall k :: 0 <= k < |ex| ==> |ex[k]| <= ExampleLength && ex[k] == Take(group[k].formula, ExampleLength)
  {
    var firsts := Take(group, MaxExamples);
    seq(|firsts|, k requires 0 <= k < |firsts| => Take(firsts[k].formula, ExampleLength))
  }

  function SuggestionFor(pattern: string, group: seq<Finding>): Suggestion {
    Suggestion(pattern, GenerateRegex(pattern), Examples(group), |group|,
               if 1.0 <= |group| as real / 10.0 then 1.0 else |group| as real / 10.0, false)
  }

  /** A suggestion for each group with at least `minOccurrences` findings,
      in group order. */
  function Suggestions(groups: Dict<seq<Finding>>, minOccurrences: int): seq<Suggestion>
  {
    if groups == [] then []
    else
      var e := groups[|groups| - 1];
      Suggestions(groups[..|groups| - 1], minOccurrences)
      + (if |e.1| >= minOccurrences then [SuggestionFor(e.0, e.1)] else [])
  }

  /** Every suggestion is that of a group with at least `minOccurrences`
      findings; it counts at least that many and shows at most three. */
  lemma {:induction false} SuggestionsSound(groups: Dict<seq<Finding>>, minOccurrences: int)
    ensures forall x :: x in Suggestions(groups, minOccurrences) ==>
              exists e :: e in groups && |e.1| >= minOccurrences && x == SuggestionFor(e.0, e.1)
    ensures forall x :: x in Suggestions(groups, minOccurrences) ==> x.count >= minOccurrences && |x.examples| <= MaxExamples
  {
    if groups != [] {
      var e := groups[|groups| - 1];
      var init := groups[..|groups| - 1];
      SuggestionsSound(init, minOccurrences);
      assert groups == init + [e];
      var s := Suggestions(groups, minOccurrences);
      var rest := Suggestions(init, minOccurrences);
      assert s == rest + (if |e.1| >= minOccurrences then [SuggestionFor(e.0, e.1)] else []);
      forall x | x in s
        ensures (exists e :: e in groups && |e.1| >= minOccurrences && x == SuggestionFor(e.0, e.1))
                && x.count >= minOccurrences && |x.examples| <= MaxExamples
      {
        if x in rest {
          var e' :| e' in init && |e'.1| >= minOccurrences && x == SuggestionFor(e'.0, e'.1);
          assert e' in groups;
        } else {
          assert x == SuggestionFor(e.0, e.1);
          assert e in groups;
        }
      }
    }
  }

  /** Every group with at least `minOccurrences` findings has its
      suggestion. */
  lemma {:induction false} SuggestionsComplete(groups: Dict<seq<Finding>>, minOccurrences: int, e: (string, seq<Finding>))
    requires e in groups && |e.1| >= minOccurrences
    ensures SuggestionFor(e.0, e.1) in Suggestions(groups, minOccurrences)
  {
    var last := groups[|groups| - 1];
    var init := groups[..|groups| - 1];
    var rest := Suggestions(init, minOccurrences);
    assert groups == init + [last];
    assert Suggestions(groups, minOccurrences) == rest + (if |last.1| >= minOccurrences then [SuggestionFor(last.0, last.1)] else []);
    if e != last {
      assert e in init;
      SuggestionsComplete(init, minOccurrences, e);
    }
  }

  method BuildSuggestions(patternGroups: Dict<seq<Finding>>, minOccurrences: int) returns (suggestions: seq<Suggestion>)
    ensures suggestions == Suggestions(patternGroups, minOccurrences)
  {
    suggestions := [];
    var i := 0;
    while i < |patternGroups|
      invariant 0 <= i <= |patternGroups|
      invariant suggestions == Suggestions(patternGroups[..i], minOccurrences)
    {
      assert patternGroups[..i + 1][..i] == patternGroups[..i];
      var (pattern, findings) := patternGroups[i];
      if |findings| >= minOccurrences {
        suggestions := suggestions + [SuggestionFor(pattern, findings)];
      }
      i := i + 1;
    }
    assert patternGroups[..i] == patternGroups;
  }

  // ---------------------------------------------------------------------------
  // The tracker

  function MarkAnalyzed(findings: seq<Finding>): (r: seq<Finding>)
    ensures |r| == |findings|
    ensures forall i :: 0 <= i < |findings| ==> r[i] == findings[i].(analyzed := true)
  {
    seq(|findings|, i requires 0 <= i < |findings| => findings[i].(analyzed := true))
  }

  function MarkPattern(suggested: seq<Suggestion>, pattern: string): (r: seq<Suggestion>)
    ensures |r| == |suggested|
    ensures forall i :: 0 <= i < |suggested| ==>
              r[i] == if suggested[i].pattern == pattern then suggested[i].(implemented := true) else suggested[i]
  {
    seq(|suggested|, i requires 0 <= i < |suggested| =>
      if suggested[i].pattern == pattern then suggested[i].(implemented := true) else suggested[i])
  }

  /** The suggestions `generate_improvement_code` lists (lines 140-141). */
  function Pending(suggested: seq<Suggestion>): (r: seq<Suggestion>)
    ensures forall x :: x in r <==> x in suggested && !x.implemented
  {
    if suggested == [] then []
    else
      var x := suggested[|suggested| - 1];
      Pending(suggested[..|suggested| - 1]) + (if x.implemented then [] else [x])
  }

  /** After `mark_implemented(p)` no suggestion for `p` is pending any more,
      and every other one is as pending as before. */
  lemma MarkedNotPending(suggested: seq<Suggestion>, pattern: string, x: Suggestion)
    ensures x in Pending(MarkPattern(suggested, pattern)) ==> x.pattern != pattern && x in Pending(suggested)
    ensures x in Pending(suggested) && x.pattern != pattern ==> x in Pending(MarkPattern(suggested, pattern))
  {
    var m := MarkPattern(suggested, pattern);
    if x in suggested && !x.implemented && x.pattern != pattern {
      var i :| 0 <= i < |suggested| && suggested[i] == x;
      assert m[i] == x;
    }
    if x in m && !x.implemented {
      var i :| 0 <= i < |m| && m[i] == x;
      assert suggested[i] == x;
    }
  }

  /** The tracker's in-memory data: `layer2_findings` and `suggested_patterns`. */
  class Tracker {
    var findings: seq<Finding>
    var suggested: seq<Suggestion>

    /** `load_data` with no data file yet (lines 23-27). */
    constructor ()
      ensures findings == [] && suggested == []
    {
      findings := [];
      suggested := [];
    }

    /** `track_layer2_finding` (lines 35-46); `timestamp` is the clock's reading. */
    method TrackLayer2Finding(url: string, formula: string, foundBy: string, timestamp: string)
      modifies this
      ensures findings == old(findings) + [Finding(timestamp, url, formula, foundBy, false)]
      ensures suggested == old(suggested)
    {
      findings := findings + [Finding(timestamp, url, formula, foundBy, false)];
    }

    /** `analyze_patterns` (lines 48-99). */
    method AnalyzePatterns(minOccurrences: int) returns (suggestions: seq<Suggestion>)
      modifies this
      ensures suggestions == Suggestions(Groups(old(findings)), minOccurrences)
      ensures suggested == old(suggested) + suggestions
      ensures findings == MarkAnalyzed(old(findings))
    {
      var patternGroups := GroupFindings(findings);
      suggestions := BuildSuggestions(patternGroups, minOccurrences);
      suggested := suggested + suggestions;
      MarkAllAnalyzed();
    }

    /** Lines 82-84: every finding is marked analysed. */
    method MarkAllAnalyzed()
      modifies this
      ensures findings == MarkAnalyzed(old(findings))
      ensures suggested == old(suggested)
    {
      var i := 0;
      ghost var before := findings;
      while i < |findings|
        invariant |findings| == |before|
        invariant 0 <= i <= |findings|
        invariant forall k :: 0 <= k < i ==> findings[k] == before[k].(analyzed := true)
        invariant forall k :: i <= k < |findings| ==> findings[k] == before[k]
        invariant suggested == old(suggested)
      {
        findings := findings[i := findings[i].(analyzed := true)];
        i := i + 1;
      }
      assert findings == MarkAnalyzed(before);
    }

    /** `mark_implemented` (lines 153-158). */
    method MarkImplemented(pattern: string)
      modifies this
      ensures suggested == MarkPattern(old(suggested), pattern)
      ensures findings == old(findings)
    {
      var i := 0;
      ghost var before := suggested;
      while i < |suggested|
        invariant 0 <= i <= |suggested| == |before|
        invariant forall k :: 0 <= k < i ==> suggested[k] == MarkPattern(before, pattern)[k]
        invariant forall k :: i <= k < |suggested| ==> suggested[k] == before[k]
        invariant findings == old(findings)
      {
        if suggested[i].pattern == pattern {
          suggested := suggested[i := suggested[i].(implemented := true)];
        }
        i := i + 1;
      }
      assert suggested == MarkPattern(before, pattern);
    }
  }

  /** A second analysis with no new findings suggests nothing. */
  lemma AnalyseTwiceSuggestsNothing(findings: seq<Finding>, minOccurrences: int)
    ensures Suggestions(Groups(MarkAnalyzed(findings)), minOccurrences) == []
  {
    AnalysedFindingsIgnored(MarkAnalyzed(findings));
  }

  /** A tracked finding joins the group of every shape it shows, at the end. */
  lemma TrackedFindingGrouped(findings: seq<Finding>, f: Finding, p: string)
    requires !f.analyzed && p in DetectPatterns(f.formula)
    ensures Get(Groups(findings + [f]), p) == Some(Matching(findings, p) + [f])
  {
    GroupsAreMatching(findings + [f], p);
    assert (findings + [f])[..|findings|] == findings;
  }
}
