/** `core/filters/document_filter.py`: a cheap pre-filter that decides
    whether a document's content is worth sending to formula extraction. */
module DocFilter {
  import opened Common

  const MinContentLength := 50

  /** `×|÷|\*|/|%`: one match per operator character. */
  predicate IsOperator(c: char) {
    c == '×' || c == '÷' || c == '*' || c == '/' || c == '%'
  }

  /** The characters of `[0-9.,]`. */
  predicate IsAmountChar(c: char) { IsDigit(c) || c == '.' || c == ',' }

  function CountWhere(s: string, p: char -> bool): (n: nat)
    ensures n <= |s|
  {
    if s == [] then 0 else CountWhere(s[..|s| - 1], p) + (if p(s[|s| - 1]) then 1 else 0)
  }

  /** End of the run of amount characters starting at `i`. */
  function AmountEnd(s: string, i: nat): (j: nat)
    requires i <= |s|
    ensures i <= j <= |s|
    ensures forall m :: i <= m < j ==> IsAmountChar(s[m])
    ensures j < |s| ==> !IsAmountChar(s[j])
    decreases |s| - i
  {
    if i < |s| && IsAmountChar(s[i]) then AmountEnd(s, i + 1) else i
  }

  /** `lit` occurs at `k`, letters compared case-insensitively. */
  predicate OccursAtIgnoreCase(s: string, lit: string, k: nat) {
    k + |lit| <= |s| && forall m :: 0 <= m < |lit| ==> LowerChar(s[k + m]) == lit[m]
  }

  /** `len(re.findall(r'[0-9.,]+\s*' + lit, s[i..], re.IGNORECASE))`.  A match
      needs a whole run of amount characters (a shorter run is followed by an
      amount character, which neither `\s` nor `lit` accepts), then all the
      whitespace after it; the next search starts after the match. */
  function AmountMatches(s: string, i: nat, lit: string): (n: nat)
    requires i <= |s|
    requires lit != [] && !IsAmountChar(lit[0]) && !IsSpace(lit[0])
    decreases |s| - i
  {
    if i == |s| then 0
    else if !IsAmountChar(s[i]) then AmountMatches(s, i + 1, lit)
    else
      var k := SkipSpaces(s, AmountEnd(s, i));
      if OccursAtIgnoreCase(s, lit, k) then 1 + AmountMatches(s, k + |lit|, lit)
      else AmountMatches(s, AmountEnd(s, i), lit)
  }

  /** Lines 8 and 14: the matches of the four indicator patterns, added up. */
  function IndicatorCount(content: string): nat {
    CountWhere(content, c => c == '=') + CountWhere(content, IsOperator) +
    AmountMatches(content, 0, "%") + AmountMatches(content, 0, "đồng")
  }

  /** `^\s*điều\s+\d+`, case-insensitive, anchored at the start of the content. */
  predicate ArticleHeading(content: string) {
    var k := SkipSpaces(content, 0);
    OccursAtIgnoreCase(content, "điều", k) &&
    var j := k + 4;
    j < |content| && IsSpace(content[j]) &&
    var d := SkipSpaces(content, j);
    d < |content| && IsDigit(content[d])
  }

  /** `liên hệ|email|website`, case-insensitive. */
  predicate ContactWords(content: string) {
    var l := Lower(content);
    Contains(l, "liên hệ") || Contains(l, "email") || Contains(l, "website")
  }

  /** Lines 9 and 15: the number of exclude patterns found, one each at most. */
  function ExclusionCount(content: string): (n: nat)
    ensures n <= 2
  {
    (if ArticleHeading(content) then 1 else 0) + (if ContactWords(content) then 1 else 0)
  }

  /** `DocumentFilter.has_formulas` (lines 11-16). */
  function HasFormulas(content: string): (r: bool)
    ensures |content| < MinContentLength ==> !r
    ensures |content| >= MinContentLength ==>
              (r <==> IndicatorCount(content) - 2 * ExclusionCount(content) >= 1)
    ensures r ==> IndicatorCount(content) >= 1
  {
    if content == [] || |content| < MinContentLength then false
    else IndicatorCount(content) - 2 * ExclusionCount(content) >= 1
  }

  // ---------------------------------------------------------------------------
  // Monotonicity: one more '=' never turns an accepted document down.

  lemma {:induction false} CountWhereSnoc(s: string, p: char -> bool, c: char)
    ensures CountWhere(s + [c], p) == CountWhere(s, p) + (if p(c) then 1 else 0)
  {
    assert (s + [c])[..|s + [c]| - 1] == s;
  }

  lemma {:induction false} AmountEndSnoc(s: string, c: char, i: nat)
    requires i <= |s| && !IsAmountChar(c)
    ensures AmountEnd(s + [c], i) == AmountEnd(s, i)
    decreases |s| - i
  {
    if i < |s| && IsAmountChar(s[i]) {
      AmountEndSnoc(s, c, i + 1);
    }
  }

  lemma {:induction false} SkipSpacesSnoc(s: string, c: char, i: nat)
    requires i <= |s| && !IsSpace(c)
    ensures SkipSpaces(s + [c], i) == SkipSpaces(s, i)
    decreases |s| - i
  {
    if i < |s| && IsSpace(s[i]) {
      SkipSpacesSnoc(s, c, i + 1);
    }
  }

  /** A last character that lowers to no letter of `lit` takes part in no
      match of `lit`. */
  lemma OccursIgnoreCaseSnoc(s: string, c: char, lit: string, k: nat)
    requires lit != [] && LowerChar(c) !in lit
    ensures OccursAtIgnoreCase(s + [c], lit, k) <==> OccursAtIgnoreCase(s, lit, k)
  {
    var t := s + [c];
    if OccursAtIgnoreCase(t, lit, k) {
      assert LowerChar(t[k + |lit| - 1]) == lit[|lit| - 1];
      assert k + |lit| <= |s|;
      forall m | 0 <= m < |lit| ensures LowerChar(s[k + m]) == lit[m] {
        assert t[k + m] == s[k + m];
      }
    }
    if OccursAtIgnoreCase(s, lit, k) {
      forall m | 0 <= m < |lit| ensures LowerChar(t[k + m]) == lit[m] {
        assert t[k + m] == s[k + m];
      }
    }
  }

  /** A character that no literal's letter lowers to cannot complete a
      match, so it adds no amount match. */
  lemma {:induction false} AmountMatchesSnoc(s: string, c: char, i: nat, lit: string)
    requires i <= |s|
    requires lit != [] && !IsAmountChar(lit[0]) && !IsSpace(lit[0])
    requires !IsAmountChar(c) && !IsSpace(c) && LowerChar(c) !in lit
    ensures AmountMatches(s + [c], i, lit) == AmountMatches(s, i, lit)
    decreases |s| - i
  {
    var t := s + [c];
    if i == |s| {
      assert !IsAmountChar(t[i]);
      assert AmountMatches(t, i + 1, lit) == 0;
    } else if !IsAmountChar(s[i]) {
      AmountMatchesSnoc(s, c, i + 1, lit);
    } else {
      AmountEndSnoc(s, c, i);
      var j := AmountEnd(s, i);
      SkipSpacesSnoc(s, c, j);
      var k := SkipSpaces(s, j);
      OccursIgnoreCaseSnoc(s, c, lit, k);
      if OccursAtIgnoreCase(s, lit, k) {
        AmountMatchesSnoc(s, c, k + |lit|, lit);
      } else {
        AmountMatchesSnoc(s, c, j, lit);
      }
    }
  }

  lemma ContainsSnoc(l: string, c: char, w: string)
    requires c !in w
    ensures Contains(l + [c], w) <==> Contains(l, w)
  {
    var t := l + [c];
    if w == [] {
      assert OccursAt(l, w, 0) && OccursAt(t, w, 0);
    } else {
      if Contains(t, w) {
        var i :| 0 <= i <= |t| - |w| && OccursAt(t, w, i);
        assert t[i + |w| - 1] == w[|w| - 1];
        assert i + |w| <= |l|;
        assert l[i..i + |w|] == t[i..i + |w|];
        assert OccursAt(l, w, i);
      }
      if Contains(l, w) {
        var i :| 0 <= i <= |l| - |w| && OccursAt(l, w, i);
        assert t[i..i + |w|] == l[i..i + |w|];
        assert OccursAt(t, w, i);
      }
    }
  }

  lemma ExclusionsSnocEquals(content: string)
    ensures ExclusionCount(content + "=") == ExclusionCount(content)
  {
    ArticleHeadingSnoc(content);
    ContactWordsSnoc(content);
  }

  lemma ArticleHeadingSnoc(content: string)
    ensures ArticleHeading(content + "=") == ArticleHeading(content)
  {
    var t := content + "=";
    SkipSpacesSnoc(content, '=', 0);
    var k := SkipSpaces(content, 0);
    OccursIgnoreCaseSnoc(content, '=', "điều", k);
    if OccursAtIgnoreCase(content, "điều", k) && k + 4 < |content| && IsSpace(content[k + 4]) {
      SkipSpacesSnoc(content, '=', k + 4);
    }
  }

  lemma ContactWordsSnoc(content: string)
    ensures ContactWords(content + "=") == ContactWords(content)
  {
    assert Lower(content + "=") == Lower(content) + "=";
    ContainsSnoc(Lower(content), '=', "liên hệ");
    ContainsSnoc(Lower(content), '=', "email");
    ContainsSnoc(Lower(content), '=', "website");
  }

  /** Line 16: with the exclusions unchanged, one more indicator match ('=')
      never turns an accepted document down. */
  lemma MoreIndicatorsKeepAccepted(content: string)
    requires HasFormulas(content)
    ensures HasFormulas(content + "=")
    ensures IndicatorCount(content + "=") == IndicatorCount(content) + 1
  {
    IndicatorSnoc(content);
    ExclusionsSnocEquals(content);
  }

  lemma IndicatorSnoc(content: string)
    ensures IndicatorCount(content + "=") == IndicatorCount(content) + 1
  {
    CountWhereSnoc(content, c => c == '=', '=');
    CountWhereSnoc(content, IsOperator, '=');
    AmountMatchesSnoc(content, '=', 0, "%");
    AmountMatchesSnoc(content, '=', 0, "đồng");
  }
}
