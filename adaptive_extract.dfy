/** `adaptive_formula_extractor.py`: detect a document's legal domain from
    keywords and run the base extractor with that domain's extra patterns
    for one call. */
module AdaptiveExtract {
  import opened Common
  import opened Sorting

  /** A regex pattern with the formula type and confidence it reports. */
  datatype Pattern = Pattern(regex: string, kind: string, confidence: real)

  datatype FormulaRecord = FormulaRecord(formula: string, kind: string, confidence: real)
  datatype ParamRecord = ParamRecord(name: string, value: string)

  const General := "general"

  /** Lines 42-47, in dict order. */
  const DomainKeywords: seq<(string, seq<string>)> := [
    ("education", ["giáo dục", "nhà giáo", "giáo viên", "tiết dạy", "học sinh"]),
    ("tax", ["thuế", "khai thuế", "thu nhập", "tncn", "gtgt"]),
    ("labor", ["lao động", "người lao động", "hợp đồng lao động", "bảo hiểm xã hội"]),
    ("finance", ["ngân hàng", "tín dụng", "lãi suất", "tiền tệ", "tài chính"])
  ]

  /** Lines 15-36: the extra patterns of each domain. */
  const DomainPatterns: Dict<seq<Pattern>> := [
    ("education", [
      Pattern(@"(Tiền lương[^=]{5,50}=\s*[^.]{20,200})", "salary_calc", 0.95),
      Pattern(@"(Số tiết[^=]{5,50}=\s*[^.]{20,200})", "teaching_hours", 0.95),
      Pattern(@"(Định mức[^=]{5,50}=\s*[^.]{20,200})", "quota_calc", 0.9)]),
    ("tax", [
      Pattern(@"(Thuế[^=]{5,50}=\s*[^.]{20,200})", "tax_calc", 0.95),
      Pattern(@"(Mức thuế[^=]{5,50}=\s*[^.]{15,150})", "tax_rate", 0.9),
      Pattern(@"(\d+%\s*[^.]{10,100})", "percentage", 0.8)]),
    ("labor", [
      Pattern(@"(Lương[^=]{5,50}=\s*[^.]{20,200})", "wage_calc", 0.95),
      Pattern(@"(Phụ cấp[^=]{5,50}=\s*[^.]{15,150})", "allowance", 0.9),
      Pattern(@"(Bảo hiểm[^=]{5,50}=\s*[^.]{15,150})", "insurance", 0.9)]),
    ("finance", [
      Pattern(@"(Lãi suất[^=]{5,50}=\s*[^.]{15,150})", "interest_rate", 0.9),
      Pattern(@"(Phí[^=]{5,50}=\s*[^.]{15,150})", "fee_calc", 0.85),
      Pattern(@"(Tỷ lệ[^=]{5,50}=\s*[^.]{15,150})", "ratio_calc", 0.85)])
  ]

  /** Line 51: how many of the keywords occur in the lower-cased text. */
  function Score(textLower: string, keywords: seq<string>): (n: nat)
    ensures n <= |keywords|
  {
    if keywords == [] then 0
    else Score(textLower, keywords[..|keywords| - 1]) +
         (if Contains(textLower, keywords[|keywords| - 1]) then 1 else 0)
  }

  function Scores(textLower: string, table: seq<(string, seq<string>)>): (scores: seq<(string, nat)>)
    ensures |scores| == |table|
    ensures forall i :: 0 <= i < |table| ==> scores[i] == (table[i].0, Score(textLower, table[i].1))
  {
    seq(|table|, i requires 0 <= i < |table| => (table[i].0, Score(textLower, table[i].1)))
  }

  /** `max(scores, key=scores.get)`: the position of the first highest score. */
  function ArgMax(scores: seq<(string, nat)>): (i: nat)
    requires scores != []
    ensures i < |scores|
    ensures forall j :: 0 <= j < |scores| ==> scores[j].1 <= scores[i].1
    ensures forall j :: 0 <= j < i ==> scores[j].1 < scores[i].1
  {
    if |scores| == 1 then 0
    else
      var b := ArgMax(scores[..|scores| - 1]);
      if scores[|scores| - 1].1 > scores[b].1 then |scores| - 1 else b
  }

  /** `detect_document_domain` (lines 38-54). */
  function DetectDomain(text: string): (domain: string)
    ensures var scores := Scores(Lower(text), DomainKeywords);
            (domain == General <==> forall j :: 0 <= j < |scores| ==> scores[j].1 == 0) &&
            (domain != General ==>
               exists i :: 0 <= i < |scores| && scores[i].0 == domain && scores[i].1 > 0 &&
                 (forall j :: 0 <= j < |scores| ==> scores[j].1 <= scores[i].1) &&
                 (forall j :: 0 <= j < i ==> scores[j].1 < scores[i].1))
  {
    var scores := Scores(Lower(text), DomainKeywords);
    var i := ArgMax(scores);
    assert scores[i].0 in {"education", "tax", "labor", "finance"};
    if scores[i].1 > 0 then scores[i].0 else General
  }

  /** A text that mentions no keyword of any domain is "general". */
  lemma NoKeywordIsGeneral(text: string)
    requires forall d, k :: 0 <= d < |DomainKeywords| && 0 <= k < |DomainKeywords[d].1| ==>
               !Contains(Lower(text), DomainKeywords[d].1[k])
    ensures DetectDomain(text) == General
  {
    var scores := Scores(Lower(text), DomainKeywords);
    forall d | 0 <= d < |scores| ensures scores[d].1 == 0 {
      ScoreZero(Lower(text), DomainKeywords[d].1);
    }
  }

  lemma {:induction false} ScoreZero(textLower: string, keywords: seq<string>)
    requires forall k :: 0 <= k < |keywords| ==> !Contains(textLower, keywords[k])
    ensures Score(textLower, keywords) == 0
  {
    if keywords != [] {
      ScoreZero(textLower, keywords[..|keywords| - 1]);
    }
  }

  /** Outcome of `extract_formulas`. */
  datatype Extraction =
    | NoContent                 // lines 72-77: extraction_method 'failed_no_content'
    | Raised                    // the base extractor raised; the exception propagates
    | Extracted(formulas: seq<FormulaRecord>, parameters: seq<ParamRecord>,
                totalFormulas: nat, totalParameters: nat, extractionMethod: string,
                detectedDomain: string, url: Option<string>, contentLength: nat)

  function Confidence(f: FormulaRecord): real { f.confidence }

  /** The base extractor's steps with the patterns in force: candidates,
      validation, parameters and its own dedup.  `None` when one of them raises. */
  type Pipeline = (seq<Pattern>, string) -> Option<(seq<FormulaRecord>, seq<ParamRecord>)>

  class AdaptiveFormulaExtractor {
    /** The base extractor's pattern list, swapped during a call. */
    var formulaPatterns: seq<Pattern>

    constructor (basePatterns: seq<Pattern>)
      ensures formulaPatterns == basePatterns
    {
      formulaPatterns := basePatterns;
    }

    /** `get_adaptive_patterns` (lines 56-65): a copy of the base patterns,
        followed by the domain's own when it has any. */
    function AdaptivePatterns(domain: string): (ps: seq<Pattern>)
      reads this
      ensures |ps| >= |formulaPatterns| && ps[..|formulaPatterns|] == formulaPatterns
      ensures HasKey(DomainPatterns, domain) ==> ps[|formulaPatterns|..] == Get(DomainPatterns, domain).value
      ensures !HasKey(DomainPatterns, domain) ==> ps == formulaPatterns
    {
      match Get(DomainPatterns, domain) {
        case Some(extra) => formulaPatterns + extra
        case None => formulaPatterns
      }
    }

    /** `extract_formulas` (lines 67-105).  `fetched` is what crawling the URL
        returns when no text is given. */
    method ExtractFormulas(url: Option<string>, text: Option<string>, fetched: Option<string>,
                           pipeline: Pipeline) returns (r: Extraction)
      modifies this
      ensures var content := if Truthy(url) && !Truthy(text) then fetched else text;
              if !Truthy(content) then r == NoContent && formulaPatterns == old(formulaPatterns)
              else
                var domain := DetectDomain(content.value);
                var patterns := old(AdaptivePatterns(domain));
                match pipeline(patterns, content.value) {
                  case None => r == Raised && formulaPatterns == patterns
                  case Some(out) =>
                    var formulas := SortDesc(out.0, Confidence);
                    formulaPatterns == old(formulaPatterns) &&
                    r == Extracted(formulas, out.1, |formulas|, |out.1|, "adaptive_" + domain,
                                   domain, url, |content.value|)
                }
    {
      var content := text;
      if Truthy(url) && !Truthy(text) {
        content := fetched;
      }
      if !Truthy(content) {
        return NoContent;
      }
      var domain := DetectDomain(content.value);
      var originalPatterns := formulaPatterns;
      formulaPatterns := AdaptivePatterns(domain);
      var out := pipeline(formulaPatterns, content.value);
      if out.None? {
        return Raised;
      }
      var uniqueFormulas := SortDesc(out.value.0, Confidence);
      formulaPatterns := originalPatterns;
      r := Extracted(uniqueFormulas, out.value.1, |uniqueFormulas|, |out.value.1|, "adaptive_" + domain,
                     domain, url, |content.value|);
    }
  }

  /** The formulas returned are ordered by confidence, highest first, and
      are exactly what the base extractor produced. */
  lemma ExtractedOrdered(out: seq<FormulaRecord>)
    ensures SortedDesc(SortDesc(out, Confidence), Confidence)
    ensures multiset(SortDesc(out, Confidence)) == multiset(out)
  {
    SortDescSorted(out, Confidence);
  }

  /** Every domain the detector can name has its own patterns. */
  lemma DetectedDomainHasPatterns(text: string)
    ensures DetectDomain(text) == General || HasKey(DomainPatterns, DetectDomain(text))
  {
    var d := DetectDomain(text);
    if d != General {
      var scores := Scores(Lower(text), DomainKeywords);
      var i :| 0 <= i < |scores| && scores[i].0 == d;
      assert DomainPatterns[i].0 == d;
    }
  }
}
