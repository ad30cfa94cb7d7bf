/** `scripts/analysis/gap_analyzer.py`: compare, URL by URL, what the regex
    extractor and the LLM extractor found.  Formulas are compared on their
    normalised text and parameters on their normalised "name: value" text;
    what the LLM found and the regex missed are the learning targets. */
module GapAnalysis {
  import opened Common

  // ---------------------------------------------------------------------------
  // _normalize_formula (lines 31-37)

  predicate IsPunct(c: char) { c == ',' || c == ';' || c == ':' }

  /** `re.sub(r"[,;:]+", "", s)`: every run of these characters is deleted. */
  function DropPunct(s: string): (r: string)
    ensures |r| <= |s|
    ensures forall c :: c in r <==> c in s && !IsPunct(c)
  {
    if s == [] then []
    else DropPunct(s[..|s| - 1]) + (if IsPunct(s[|s| - 1]) then [] else [s[|s| - 1]])
  }

  /** What a normalised text may hold: no ",;:", no '×' or '–', and no
      whitespace other than the plain space. */
  predicate NormalChar(c: char) {
    !IsPunct(c) && c != '×' && c != '–' && (IsSpace(c) ==> c == ' ')
  }

  /** Runs of whitespace collapsed, then ",;:" deleted. */
  function Cleaned(s: string): (r: string)
    ensures forall i :: 0 <= i < |r| ==> !IsPunct(r[i]) && (IsSpace(r[i]) ==> r[i] == ' ')
  {
    var collapsed := CollapseSpaces(s);
    var r := DropPunct(collapsed);
    assert forall i :: 0 <= i < |r| ==> !IsPunct(r[i]) && (IsSpace(r[i]) ==> r[i] == ' ') by {
      forall i | 0 <= i < |r| ensures !IsPunct(r[i]) && (IsSpace(r[i]) ==> r[i] == ' ') {
        assert r[i] in r;
        var j :| 0 <= j < |collapsed| && collapsed[j] == r[i];
      }
    }
    r
  }

  /** `.replace('–', '-').replace('×', '*')`. */
  function Dashes(s: string): (r: string)
    ensures |r| == |s|
    ensures forall i :: 0 <= i < |s| ==> (!IsPunct(s[i]) && (IsSpace(s[i]) ==> s[i] == ' ') ==> NormalChar(r[i]))
  {
    ReplaceChar(ReplaceChar(s, '–', '-'), '×', '*')
  }

  lemma StripKeeps(s: string)
    requires forall i :: 0 <= i < |s| ==> NormalChar(s[i])
    ensures forall i :: 0 <= i < |Strip(s)| ==> NormalChar(Strip(s)[i])
  {
    StripSlice(s);
  }

  /** `_normalize_formula`: collapse whitespace, drop ",;:", unify the dash
      and the multiplication sign, strip, lower-case. */
  function Normalize(s: string): (r: string)
    ensures forall i :: 0 <= i < |r| ==> NormalChar(r[i]) && !('A' <= r[i] <= 'Z')
    ensures r == [] || (r[0] != ' ' && r[|r| - 1] != ' ')
  {
    var mapped := Dashes(Cleaned(s));
    StripKeeps(mapped);
    var stripped := Strip(mapped);
    LowerNormalText(stripped);
    Lower(stripped)
  }

  /** Lower-casing a stripped normal text keeps it normal and stripped. */
  lemma LowerNormalText(t: string)
    requires forall i :: 0 <= i < |t| ==> NormalChar(t[i])
    requires t == [] || (!IsSpace(t[0]) && !IsSpace(t[|t| - 1]))
    ensures var r := Lower(t);
            (forall i :: 0 <= i < |r| ==> NormalChar(r[i]) && !('A' <= r[i] <= 'Z')) &&
            (r == [] || (r[0] != ' ' && r[|r| - 1] != ' '))
  {
    var r := Lower(t);
    forall i | 0 <= i < |r| ensures NormalChar(r[i]) && !('A' <= r[i] <= 'Z') && (!IsSpace(t[i]) ==> r[i] != ' ') {
      LowerKeepsNormal(t[i]);
    }
  }

  lemma LowerKeepsNormal(c: char)
    requires NormalChar(c)
    ensures NormalChar(LowerChar(c)) && !('A' <= LowerChar(c) <= 'Z')
    ensures !IsSpace(c) ==> LowerChar(c) != ' '
  {
    if 'A' <= c <= 'Z' {
      assert 'a' <= LowerChar(c) <= 'z';
    }
  }

  /** A text `_normalize_formula` has nothing left to do to: normal
      characters only, already lower-case, single spaces between words and
      none at either end. */
  predicate NormalText(t: string) {
    && (forall i :: 0 <= i < |t| ==> NormalChar(t[i]) && LowerChar(t[i]) == t[i])
    && (forall i :: 0 <= i < |t| - 1 ==> !(t[i] == ' ' && t[i + 1] == ' '))
    && (t == [] || (t[0] != ' ' && t[|t| - 1] != ' '))
  }

  /** Such a text is its own key: every character survives normalisation,
      unchanged and in order. */
  lemma NormalizeKeepsNormalText(t: string)
    requires NormalText(t)
    ensures Normalize(t) == t
  {
    CollapseKeepsSingleSpaces(t);
    DropPunctKeeps(t);
    assert Cleaned(t) == t;
    FinishKeeps(t);
  }

  lemma {:induction false} CollapseKeepsSingleSpaces(s: string)
    requires forall i :: 0 <= i < |s| ==> (IsSpace(s[i]) ==> s[i] == ' ')
    requires forall i :: 0 <= i < |s| - 1 ==> !(s[i] == ' ' && s[i + 1] == ' ')
    ensures CollapseSpaces(s) == s
  {
    if s != [] {
      var tail := s[1..];
      forall i | 0 <= i < |tail| ensures IsSpace(tail[i]) ==> tail[i] == ' ' {
        assert tail[i] == s[i + 1];
      }
      forall i | 0 <= i < |tail| - 1 ensures !(tail[i] == ' ' && tail[i + 1] == ' ') {
        assert tail[i] == s[i + 1] && tail[i + 1] == s[i + 2];
      }
      CollapseKeepsSingleSpaces(tail);
      assert s == [s[0]] + tail;
      if IsSpace(s[0]) {
        if tail != [] {
          assert tail[0] == s[1] && !(s[0] == ' ' && s[1] == ' ');
        }
        assert LStrip(tail) == tail;
        assert LStrip(s) == tail;
        assert CollapseSpaces(s) == [' '] + CollapseSpaces(tail);
      } else {
        assert CollapseSpaces(s) == [s[0]] + CollapseSpaces(tail);
      }
    }
  }

  lemma {:induction false} DropPunctKeeps(s: string)
    requires forall i :: 0 <= i < |s| ==> !IsPunct(s[i])
    ensures DropPunct(s) == s
  {
    if s != [] {
      DropPunctKeeps(s[..|s| - 1]);
      assert s[..|s| - 1] + [s[|s| - 1]] == s;
    }
  }

  lemma StripKeepsTrimmed(s: string)
    requires s == [] || (!IsSpace(s[0]) && !IsSpace(s[|s| - 1]))
    ensures Strip(s) == s
  {
    assert LStrip(s) == s;
    assert RStrip(s) == s;
  }

  /** Normalising is not idempotent: ",;:" are deleted after whitespace is
      collapsed, so a mark between two spaces leaves both. "a , b" gets the
      key "a  b" and "a b" the key "a b", so the two never match. */
  lemma SpacedPunctuationKeepsBothSpaces(a: string, p: char, b: string)
    requires a != [] && b != [] && NormalText(a) && NormalText(b) && IsPunct(p)
    ensures Normalize(a + [' ', p, ' '] + b) == a + "  " + b
    ensures Normalize(a + " " + b) == a + " " + b
  {
    SpacedMarkKey(a, p, b);
    NormalJoin(a, b);
    NormalizeKeepsNormalText(a + " " + b);
  }

  lemma SpacedMarkKey(a: string, p: char, b: string)
    requires a != [] && b != [] && NormalText(a) && NormalText(b) && IsPunct(p)
    ensures Normalize(a + [' ', p, ' '] + b) == a + "  " + b
  {
    CleanedSpacedMark(a, p, b);
    var d := a + "  " + b;
    DoubleSpacedChars(a, b);
    FinishKeeps(d);
  }

  lemma DoubleSpacedChars(a: string, b: string)
    requires a != [] && b != [] && NormalText(a) && NormalText(b)
    ensures var d := a + "  " + b;
            && (forall i :: 0 <= i < |d| ==> NormalChar(d[i]) && LowerChar(d[i]) == d[i])
            && d[0] != ' ' && d[|d| - 1] != ' '
  {
    var d := a + "  " + b;
    forall i | 0 <= i < |d| ensures NormalChar(d[i]) && LowerChar(d[i]) == d[i] {
      if i >= |a| + 2 { assert d[i] == b[i - |a| - 2]; } else if i < |a| { assert d[i] == a[i]; }
    }
    assert d[0] == a[0] && d[|d| - 1] == b[|b| - 1];
  }

  /** Whitespace is collapsed first and the mark deleted second. */
  lemma CleanedSpacedMark(a: string, p: char, b: string)
    requires a != [] && b != [] && NormalText(a) && NormalText(b) && IsPunct(p)
    ensures Cleaned(a + [' ', p, ' '] + b) == a + "  " + b
  {
    var s := a + [' ', p, ' '] + b;
    SpacedMarkSingleSpaces(a, p, b);
    CollapseKeepsSingleSpaces(s);
    DropPunctKeeps(a);
    DropPunctKeeps(b);
    DropSpacedMark(p);
    DropPunctAppend(a + [' ', p, ' '], b);
    DropPunctAppend(a, [' ', p, ' ']);
  }

  lemma SpacedMarkSingleSpaces(a: string, p: char, b: string)
    requires a != [] && b != [] && NormalText(a) && NormalText(b) && IsPunct(p)
    ensures var s := a + [' ', p, ' '] + b;
            && (forall i :: 0 <= i < |s| ==> (IsSpace(s[i]) ==> s[i] == ' '))
            && (forall i :: 0 <= i < |s| - 1 ==> !(s[i] == ' ' && s[i + 1] == ' '))
  {
    var s := a + [' ', p, ' '] + b;
    forall i | 0 <= i < |s| ensures IsSpace(s[i]) ==> s[i] == ' ' {
      if i >= |a| + 3 { assert s[i] == b[i - |a| - 3]; } else if i < |a| { assert s[i] == a[i]; }
    }
    forall i | 0 <= i < |s| - 1 ensures !(s[i] == ' ' && s[i + 1] == ' ') {
      if i >= |a| + 3 { assert s[i] == b[i - |a| - 3] && s[i + 1] == b[i + 1 - |a| - 3]; }
      else if i == |a| + 2 { assert s[i + 1] == b[0]; }
      else if i < |a| - 1 { assert s[i] == a[i] && s[i + 1] == a[i + 1]; }
      else if i == |a| - 1 { assert s[i] == a[|a| - 1]; }
    }
  }

  lemma DropSpacedMark(p: char)
    requires IsPunct(p)
    ensures DropPunct([' ', p, ' ']) == "  "
  {
    assert [' ', p, ' '][..2] == [' ', p];
    assert [' ', p][..1] == [' '];
  }

  /** The steps after cleaning leave a lower-case normal text with no
      space at either end as it is. */
  lemma FinishKeeps(d: string)
    requires forall i :: 0 <= i < |d| ==> NormalChar(d[i]) && LowerChar(d[i]) == d[i]
    requires d == [] || (d[0] != ' ' && d[|d| - 1] != ' ')
    ensures Lower(Strip(Dashes(d))) == d
  {
    assert Dashes(d) == d;
    StripKeepsTrimmed(d);
    assert Lower(d) == d;
  }

  lemma {:induction false} DropPunctAppend(s: string, t: string)
    ensures DropPunct(s + t) == DropPunct(s) + DropPunct(t)
  {
    if t == [] {
      assert s + t == s;
    } else {
      assert (s + t)[..|s + t| - 1] == s + t[..|t| - 1];
      DropPunctAppend(s, t[..|t| - 1]);
    }
  }

  /** Two normal words joined by one space make a normal text. */
  lemma NormalJoin(a: string, b: string)
    requires a != [] && b != [] && NormalText(a) && NormalText(b)
    ensures NormalText(a + " " + b)
  {
    var s := a + " " + b;
    forall i | 0 <= i < |s| ensures NormalChar(s[i]) && LowerChar(s[i]) == s[i] {
      if i > |a| { assert s[i] == b[i - |a| - 1]; } else if i < |a| { assert s[i] == a[i]; }
    }
    forall i | 0 <= i < |s| - 1 ensures !(s[i] == ' ' && s[i + 1] == ' ') {
      if i > |a| { assert s[i] == b[i - |a| - 1] && s[i + 1] == b[i - |a|]; }
      else if i == |a| { assert s[i + 1] == b[0]; }
      else if i < |a| - 1 { assert s[i] == a[i] && s[i + 1] == a[i + 1]; }
      else { assert s[i] == a[|a| - 1]; }
    }
    assert s[0] == a[0] && s[|s| - 1] == b[|b| - 1];
  }

  // ---------------------------------------------------------------------------
  // _compare_url_results (lines 39-103)

  /** A formula or parameter entry: only these fields take part. */
  datatype Entry = Entry(formula: Option<string>, name: Option<string>, value: Option<string>)

  /** One URL's result from one extractor. */
  datatype ResultRecord = ResultRecord(
    url: Option<string>, error: Option<string>,
    totalFormulas: Option<int>, totalParameters: Option<int>,
    formulas: seq<Entry>, parameters: seq<Entry>)

  /** The record a side gets for a URL it has no result for (lines 139-140). */
  function MissingResult(url: string): ResultRecord {
    ResultRecord(Some(url), Some("Missing result"), None, None, [], [])
  }

  function ParamKey(p: Entry): string {
    Normalize(p.name.GetOr("") + ": " + p.value.GetOr(""))
  }

  /** The comprehension's (key, entry) pairs: entries with a formula text. */
  function FormulaPairs(fs: seq<Entry>): (ps: seq<(string, Entry)>)
    ensures forall e :: e in ps ==> Truthy(e.1.formula) && e.0 == Normalize(e.1.formula.value)
  {
    if fs == [] then []
    else
      var f := fs[|fs| - 1];
      FormulaPairs(fs[..|fs| - 1]) + (if Truthy(f.formula) then [(Normalize(f.formula.value), f)] else [])
  }

  /** The comprehension's (key, entry) pairs: only entries with a name. */
  function ParamPairs(ps: seq<Entry>): (r: seq<(string, Entry)>)
    ensures forall e :: e in r ==> Truthy(e.1.name) && e.0 == ParamKey(e.1)
  {
    if ps == [] then []
    else
      var p := ps[|ps| - 1];
      ParamPairs(ps[..|ps| - 1]) + (if Truthy(p.name) then [(ParamKey(p), p)] else [])
  }

  /** Entries of `mine` whose key `other` lacks: `[mine[k] for k in mine.keys() - other.keys()]`. */
  function Unmatched(mine: Dict<Entry>, other: Dict<Entry>): (r: Dict<Entry>)
    ensures forall e :: e in r <==> e in mine && !HasKey(other, e.0)
  {
    FilterDict(mine, (k: string, v: Entry) => !HasKey(other, k))
  }

  datatype Comparison = Comparison(
    url: Option<string>, regexError: Option<string>, llmError: Option<string>,
    regexFormulasCount: int, llmFormulasCount: int,
    regexParametersCount: int, llmParametersCount: int,
    missedFormulas: Dict<Entry>, missedParameters: Dict<Entry>,
    falsePositiveFormulas: Dict<Entry>, falsePositiveParameters: Dict<Entry>)

  function CompareUrlResults(regex: ResultRecord, llm: ResultRecord): (c: Comparison)
    ensures Truthy(regex.error) || Truthy(llm.error) ==>
              c.missedFormulas == [] && c.missedParameters == [] &&
              c.falsePositiveFormulas == [] && c.falsePositiveParameters == []
    ensures c.url == Or(regex.url, llm.url)
  {
    var base := Comparison(Or(regex.url, llm.url), regex.error, llm.error,
                           regex.totalFormulas.GetOr(0), llm.totalFormulas.GetOr(0),
                           regex.totalParameters.GetOr(0), llm.totalParameters.GetOr(0),
                           [], [], [], []);
    if Truthy(regex.error) || Truthy(llm.error) then base
    else
      var regexFormulas := PutAll([], FormulaPairs(regex.formulas));
      var llmFormulas := PutAll([], FormulaPairs(llm.formulas));
      var regexParameters := PutAll([], ParamPairs(regex.parameters));
      var llmParameters := PutAll([], ParamPairs(llm.parameters));
      base.(missedFormulas := Unmatched(llmFormulas, regexFormulas),
            falsePositiveFormulas := Unmatched(regexFormulas, llmFormulas),
            missedParameters := Unmatched(llmParameters, regexParameters),
            falsePositiveParameters := Unmatched(regexParameters, llmParameters))
  }

  function KeySet(d: Dict<Entry>): set<string> {
    set e | e in d :: e.0
  }

  lemma HasKeyInKeySet(d: Dict<Entry>, k: string)
    ensures HasKey(d, k) <==> k in KeySet(d)
  {
    if k in KeySet(d) {
      var e :| e in d && e.0 == k;
      var i :| 0 <= i < |d| && d[i] == e;
    }
  }

  /** Lines 71-80: the missed keys are the LLM keys minus the regex keys, the
      false positives the regex keys minus the LLM keys, and no key is both. */
  lemma UnmatchedKeys(llm: Dict<Entry>, regex: Dict<Entry>)
    ensures KeySet(Unmatched(llm, regex)) == KeySet(llm) - KeySet(regex)
    ensures KeySet(Unmatched(regex, llm)) == KeySet(regex) - KeySet(llm)
    ensures KeySet(Unmatched(llm, regex)) !! KeySet(Unmatched(regex, llm))
  {
    forall k ensures HasKey(llm, k) <==> k in KeySet(llm) {
      HasKeyInKeySet(llm, k);
    }
    forall k ensures HasKey(regex, k) <==> k in KeySet(regex) {
      HasKeyInKeySet(regex, k);
    }
  }

  /** Lines 83-101: every compared parameter has a name and sits under its
      own normalised "name: value" key. */
  lemma ParametersKeyedByName(regex: ResultRecord, llm: ResultRecord)
    ensures var c := CompareUrlResults(regex, llm);
            forall e :: e in c.missedParameters || e in c.falsePositiveParameters ==>
              Truthy(e.1.name) && e.0 == ParamKey(e.1) &&
              (e.1 in regex.parameters || e.1 in llm.parameters)
  {
    PutAllEntries([], ParamPairs(regex.parameters));
    PutAllEntries([], ParamPairs(llm.parameters));
    ParamPairsFrom(regex.parameters);
    ParamPairsFrom(llm.parameters);
  }

  lemma {:induction false} ParamPairsFrom(ps: seq<Entry>)
    ensures forall e :: e in ParamPairs(ps) ==> e.1 in ps
  {
    if ps != [] {
      ParamPairsFrom(ps[..|ps| - 1]);
    }
  }

  /** Each missed formula sits under its own normalised text, which the
      regex side has no formula for. */
  lemma MissedFormulasKeyed(regex: ResultRecord, llm: ResultRecord)
    ensures var c := CompareUrlResults(regex, llm);
            forall e :: e in c.missedFormulas ==>
              Truthy(e.1.formula) && e.0 == Normalize(e.1.formula.value) &&
              !HasKey(PutAll([], FormulaPairs(regex.formulas)), e.0)
  {
    PutAllEntries([], FormulaPairs(llm.formulas));
  }

  // ---------------------------------------------------------------------------
  // analyze (lines 105-192)

  function UrlSet(data: seq<ResultRecord>): set<string> {
    set i | 0 <= i < |data| && data[i].url.Some? :: data[i].url.value
  }

  lemma UrlSetSnoc(data: seq<ResultRecord>)
    requires data != [] && data[|data| - 1].url.Some?
    ensures UrlSet(data) == UrlSet(data[..|data| - 1]) + {data[|data| - 1].url.value}
  {
    var p := data[..|data| - 1];
    assert forall i :: 0 <= i < |p| ==> p[i] == data[i];
  }

  /** `{r['url']: r for r in data}`: the last record of a URL wins. */
  function UrlMap(data: seq<ResultRecord>): (m: map<string, ResultRecord>)
    requires forall i :: 0 <= i < |data| ==> data[i].url.Some?
    ensures m.Keys == UrlSet(data)
    ensures forall u :: u in m ==> m[u].url == Some(u)
  {
    if data == [] then map[]
    else
      var last := data[|data| - 1];
      UrlSetSnoc(data);
      UrlMap(data[..|data| - 1])[last.url.value := last]
  }

  function ResultFor(m: map<string, ResultRecord>, url: string): ResultRecord {
    if url in m then m[url] else MissingResult(url)
  }

  /** The comparison of every URL, in iteration order. */
  function Comparisons(regexMap: map<string, ResultRecord>, llmMap: map<string, ResultRecord>,
                       urls: seq<string>): (cs: seq<Comparison>)
    ensures |cs| == |urls|
    ensures forall i :: 0 <= i < |urls| ==>
              cs[i] == CompareUrlResults(ResultFor(regexMap, urls[i]), ResultFor(llmMap, urls[i]))
  {
    seq(|urls|, i requires 0 <= i < |urls| =>
      CompareUrlResults(ResultFor(regexMap, urls[i]), ResultFor(llmMap, urls[i])))
  }

  datatype Totals = Totals(missedFormulas: int, missedParameters: int,
                           falsePositiveFormulas: int, falsePositiveParameters: int)

  function TotalsOf(cs: seq<Comparison>): Totals {
    if cs == [] then Totals(0, 0, 0, 0)
    else
      var t := TotalsOf(cs[..|cs| - 1]);
      var c := cs[|cs| - 1];
      Totals(t.missedFormulas + |c.missedFormulas|, t.missedParameters + |c.missedParameters|,
             t.falsePositiveFormulas + |c.falsePositiveFormulas|,
             t.falsePositiveParameters + |c.falsePositiveParameters|)
  }

  // ---------------------------------------------------------------------------
  // _extract_learning_targets (lines 194-220)

  function Values(d: Dict<Entry>): (vs: seq<Entry>)
    ensures |vs| == |d|
    ensures forall i :: 0 <= i < |d| ==> vs[i] == d[i].1
  {
    seq(|d|, i requires 0 <= i < |d| => d[i].1)
  }

  function AllMissedFormulas(cs: seq<Comparison>): seq<Entry> {
    if cs == [] then [] else AllMissedFormulas(cs[..|cs| - 1]) + Values(cs[|cs| - 1].missedFormulas)
  }

  function AllMissedParameters(cs: seq<Comparison>): seq<Entry> {
    if cs == [] then [] else AllMissedParameters(cs[..|cs| - 1]) + Values(cs[|cs| - 1].missedParameters)
  }

  const MultiplicationWithEquals := "multiplication_with_equals"
  const DivisionWithEquals := "division_with_equals"
  const ConditionalFormulas := "conditional_formulas"

  /** Lines 206-213: the first matching pattern, if any. */
  function PatternOf(text: string): (r: Option<string>)
    ensures r.Some? ==> r.value in {MultiplicationWithEquals, DivisionWithEquals, ConditionalFormulas}
  {
    if '=' in text && ('×' in text || '*' in text) then Some(MultiplicationWithEquals)
    else if '=' in text && '/' in text then Some(DivisionWithEquals)
    else if Contains(Lower(text), "nếu") then Some(ConditionalFormulas)
    else None
  }

  /** `d[k] = d.get(k, 0) + 1`. */
  function Bump(d: Dict<int>, k: string): Dict<int> {
    Put(d, k, Get(d, k).GetOr(0) + 1)
  }

  lemma BumpGet(d: Dict<int>, k: string, k': string)
    ensures Get(Bump(d, k), k') == if k' == k then Some(Get(d, k).GetOr(0) + 1) else Get(d, k')
  {
    if k' != k {
      PutOthers(d, k, Get(d, k).GetOr(0) + 1, k');
    }
  }

  /** The first matching pattern of each formula, in order. */
  function Patterns(fs: seq<Entry>): (r: seq<Option<string>>)
    ensures |r| == |fs|
  {
    seq(|fs|, i requires 0 <= i < |fs| => PatternOf(fs[i].formula.GetOr("")))
  }

  /** How often each pattern occurs, keys in the order first seen. */
  function Tally(xs: seq<Option<string>>): Dict<int> {
    if xs == [] then []
    else
      var d := Tally(xs[..|xs| - 1]);
      match xs[|xs| - 1] {
        case None => d
        case Some(k) => Bump(d, k)
      }
  }

  function Occurrences(xs: seq<Option<string>>, k: string): nat {
    if xs == [] then 0
    else Occurrences(xs[..|xs| - 1], k) + (if xs[|xs| - 1] == Some(k) then 1 else 0)
  }

  function PatternCounts(fs: seq<Entry>): Dict<int> {
    Tally(Patterns(fs))
  }

  function CountPattern(fs: seq<Entry>, k: string): nat {
    Occurrences(Patterns(fs), k)
  }

  const SampleSize := 5

  datatype Learning = Learning(missedFormulasSample: seq<Entry>, missedParametersSample: seq<Entry>,
                               patternAnalysis: Dict<int>, totalLearningOpportunities: int)

  function LearningOf(cs: seq<Comparison>): Learning {
    var fs := AllMissedFormulas(cs);
    var ps := AllMissedParameters(cs);
    Learning(Take(fs, SampleSize), Take(ps, SampleSize), PatternCounts(fs), |fs| + |ps|)
  }

  /** Lines 198-203: every comparison's missed entries, in order. */
  method CollectMissed(detailed: seq<Comparison>) returns (fs: seq<Entry>, ps: seq<Entry>)
    ensures fs == AllMissedFormulas(detailed) && ps == AllMissedParameters(detailed)
  {
    fs, ps := [], [];
    var i := 0;
    while i < |detailed|
      invariant 0 <= i <= |detailed|
      invariant fs == AllMissedFormulas(detailed[..i])
      invariant ps == AllMissedParameters(detailed[..i])
    {
      assert detailed[..i + 1][..i] == detailed[..i];
      fs := fs + Values(detailed[i].missedFormulas);
      ps := ps + Values(detailed[i].missedParameters);
      i := i + 1;
    }
    assert detailed[..i] == detailed;
  }

  /** Lines 206-213: count the first pattern each missed formula matches. */
  method CountPatterns(fs: seq<Entry>) returns (formulaPatterns: Dict<int>)
    ensures formulaPatterns == PatternCounts(fs)
  {
    formulaPatterns := [];
    var j := 0;
    while j < |fs|
      invariant 0 <= j <= |fs|
      invariant formulaPatterns == PatternCounts(fs[..j])
    {
      PatternCountsStep(fs, j);
      match PatternOf(fs[j].formula.GetOr("")) {
        case None =>
        case Some(pattern) =>
          formulaPatterns := Bump(formulaPatterns, pattern);
      }
      j := j + 1;
    }
    assert fs[..j] == fs;
  }

  lemma PatternCountsStep(fs: seq<Entry>, j: int)
    requires 0 <= j < |fs|
    ensures PatternCounts(fs[..j + 1]) ==
              match PatternOf(fs[j].formula.GetOr("")) {
                case None => PatternCounts(fs[..j])
                case Some(k) => Bump(PatternCounts(fs[..j]), k)
              }
  {
    var xs := Patterns(fs[..j + 1]);
    assert xs[..j] == Patterns(fs[..j]);
  }

  method ExtractLearningTargets(detailed: seq<Comparison>) returns (l: Learning)
    ensures l == LearningOf(detailed)
  {
    var allMissedFormulas, allMissedParameters := CollectMissed(detailed);
    var formulaPatterns := CountPatterns(allMissedFormulas);
    l := Learning(Take(allMissedFormulas, SampleSize), Take(allMissedParameters, SampleSize),
                  formulaPatterns, |allMissedFormulas| + |allMissedParameters|);
  }

  /** Each pattern's count is the number of missed formulas it is the first
      match for; a pattern no formula matches has no entry. */
  lemma PatternCountsAreCounts(fs: seq<Entry>, k: string)
    ensures Get(PatternCounts(fs), k) == if CountPattern(fs, k) == 0 then None else Some(CountPattern(fs, k))
  {
    TallyCounts(Patterns(fs), k);
  }

  lemma {:induction false} TallyCounts(xs: seq<Option<string>>, k: string)
    ensures Get(Tally(xs), k) == if Occurrences(xs, k) == 0 then None else Some(Occurrences(xs, k))
  {
    if xs != [] {
      var p := xs[..|xs| - 1];
      TallyCounts(p, k);
      TallyCombine(Tally(p), Tally(xs), xs[|xs| - 1], k, Occurrences(p, k), Occurrences(xs, k));
    }
  }

  /** One step of the tally: counting one more pattern keeps the entry for
      `k` equal to its count. */
  lemma TallyCombine(d: Dict<int>, d': Dict<int>, x: Option<string>, k: string, n: nat, n': nat)
    requires Get(d, k) == if n == 0 then None else Some(n)
    requires d' == match x { case None => d case Some(j) => Bump(d, j) }
    requires n' == n + if x == Some(k) then 1 else 0
    ensures Get(d', k) == if n' == 0 then None else Some(n')
  {
    if x.Some? {
      BumpGet(d, x.value, k);
    }
  }

  /** The three pattern counts together never exceed the missed formulas. */
  lemma PatternCountsBounded(fs: seq<Entry>)
    ensures CountPattern(fs, MultiplicationWithEquals) + CountPattern(fs, DivisionWithEquals) +
            CountPattern(fs, ConditionalFormulas) <= |fs|
  {
    OccurrencesBounded(Patterns(fs), MultiplicationWithEquals, DivisionWithEquals, ConditionalFormulas);
  }

  /** Distinct keys share out the entries: each entry counts for at most one. */
  lemma {:induction false} OccurrencesBounded(xs: seq<Option<string>>, a: string, b: string, c: string)
    requires a != b && a != c && b != c
    ensures Occurrences(xs, a) + Occurrences(xs, b) + Occurrences(xs, c) <= |xs|
  {
    if xs != [] {
      OccurrencesBounded(xs[..|xs| - 1], a, b, c);
    }
  }

  lemma {:induction false} MissedCounts(cs: seq<Comparison>)
    ensures |AllMissedFormulas(cs)| == TotalsOf(cs).missedFormulas
    ensures |AllMissedParameters(cs)| == TotalsOf(cs).missedParameters
  {
    if cs != [] {
      MissedCounts(cs[..|cs| - 1]);
    }
  }

  // ---------------------------------------------------------------------------
  // The report

  datatype Report = Report(totalUrlsProcessed: nat, totals: Totals, gapScore: int,
                           learning: Learning, detailed: seq<Comparison>)

  datatype Outcome =
    | EmptyReport          // line 121: a side could not be loaded or is empty
    | MissingUrlKey        // `r['url']` raises for a record without one
    | Done(report: Report)

  predicate AllHaveUrls(data: seq<ResultRecord>) {
    forall i :: 0 <= i < |data| ==> data[i].url.Some?
  }

  predicate Distinct(xs: seq<string>) {
    forall i, j :: 0 <= i < j < |xs| ==> xs[i] != xs[j]
  }

  /** The loop of lines 138-153 for a given per-URL comparison: collect every
      comparison and add up the four totals. */
  method TallyComparisons(urls: seq<string>, compare: string -> Comparison)
    returns (detailedComparison: seq<Comparison>, totals: Totals)
    ensures detailedComparison == MapSeq(urls, compare)
    ensures totals == TotalsOf(detailedComparison)
  {
    detailedComparison := [];
    var totalMissedFormulas := 0;
    var totalMissedParameters := 0;
    var totalFalsePositiveFormulas := 0;
    var totalFalsePositiveParameters := 0;
    var i := 0;
    while i < |urls|
      invariant 0 <= i <= |urls|
      invariant detailedComparison == MapSeq(urls[..i], compare)
      invariant Totals(totalMissedFormulas, totalMissedParameters,
                       totalFalsePositiveFormulas, totalFalsePositiveParameters) == TotalsOf(detailedComparison)
    {
      MapSeqStep(urls, compare, i);
      var comp := compare(urls[i]);
      var before := detailedComparison;
      detailedComparison := detailedComparison + [comp];
      assert detailedComparison[..|detailedComparison| - 1] == before;
      totalMissedFormulas := totalMissedFormulas + |comp.missedFormulas|;
      totalMissedParameters := totalMissedParameters + |comp.missedParameters|;
      totalFalsePositiveFormulas := totalFalsePositiveFormulas + |comp.falsePositiveFormulas|;
      totalFalsePositiveParameters := totalFalsePositiveParameters + |comp.falsePositiveParameters|;
      i := i + 1;
    }
    assert urls[..i] == urls;
    totals := Totals(totalMissedFormulas, totalMissedParameters,
                     totalFalsePositiveFormulas, totalFalsePositiveParameters);
  }

  /** Lines 138-153: compare every URL with `_compare_url_results` and add up
      the four totals. */
  method CompareAll(regexMap: map<string, ResultRecord>, llmMap: map<string, ResultRecord>, urls: seq<string>)
    returns (detailedComparison: seq<Comparison>, totals: Totals)
    ensures detailedComparison == Comparisons(regexMap, llmMap, urls)
    ensures totals == TotalsOf(detailedComparison)
  {
    var compare := (url: string) => CompareUrlResults(ResultFor(regexMap, url), ResultFor(llmMap, url));
    detailedComparison, totals := TallyComparisons(urls, compare);
    ghost var expected := Comparisons(regexMap, llmMap, urls);
    forall i | 0 <= i < |urls| ensures detailedComparison[i] == expected[i] {
    }
  }

  /** Lines 105-192.  `urlOrder` is the order in which the set of all URLs is
      iterated: each URL of either side exactly once. */
  method Analyze(regexData: seq<ResultRecord>, llmData: seq<ResultRecord>, urlOrder: seq<string>)
    returns (out: Outcome)
    requires Distinct(urlOrder)
    requires AllHaveUrls(regexData) && AllHaveUrls(llmData) ==>
               (set u | u in urlOrder) == UrlSet(regexData) + UrlSet(llmData)
    ensures regexData == [] || llmData == [] ==> out == EmptyReport
    ensures regexData != [] && llmData != [] && !(AllHaveUrls(regexData) && AllHaveUrls(llmData)) ==> out == MissingUrlKey
    ensures regexData != [] && llmData != [] && AllHaveUrls(regexData) && AllHaveUrls(llmData) ==>
              out == Done(ReportOf(Comparisons(UrlMap(regexData), UrlMap(llmData), urlOrder)))
  {
    if regexData == [] || llmData == [] {
      return EmptyReport;
    }
    if !(AllHaveUrls(regexData) && AllHaveUrls(llmData)) {
      return MissingUrlKey;
    }
    var regexMap := UrlMap(regexData);
    var llmMap := UrlMap(llmData);
    var detailedComparison, totals := CompareAll(regexMap, llmMap, urlOrder);
    var learning := ExtractLearningTargets(detailedComparison);
    ReportOfParts(detailedComparison, totals, learning);
    out := Done(Report(|detailedComparison|, totals, totals.missedFormulas + totals.missedParameters,
                       learning, detailedComparison));
  }

  lemma ReportOfParts(cs: seq<Comparison>, totals: Totals, learning: Learning)
    requires totals == TotalsOf(cs) && learning == LearningOf(cs)
    ensures ReportOf(cs) == Report(|cs|, totals, totals.missedFormulas + totals.missedParameters, learning, cs)
  {
  }

  /** The report over a list of comparisons, one per URL. */
  function ReportOf(cs: seq<Comparison>): (rep: Report)
    ensures rep.totalUrlsProcessed == |cs| && rep.detailed == cs
    ensures rep.gapScore == rep.learning.totalLearningOpportunities
    ensures |rep.learning.missedFormulasSample| <= SampleSize && |rep.learning.missedParametersSample| <= SampleSize
  {
    var t := TotalsOf(cs);
    MissedCounts(cs);
    Report(|cs|, t, t.missedFormulas + t.missedParameters, LearningOf(cs), cs)
  }

  /** A URL only one side has a result for counts as an error: it adds no
      missed formula and no false positive. */
  lemma MissingSideAddsNothing(regexMap: map<string, ResultRecord>, llmMap: map<string, ResultRecord>, url: string)
    requires url !in regexMap || url !in llmMap
    ensures var c := CompareUrlResults(ResultFor(regexMap, url), ResultFor(llmMap, url));
            c.missedFormulas == [] && c.missedParameters == [] &&
            c.falsePositiveFormulas == [] && c.falsePositiveParameters == []
  {
  }

  /** The number of URLs processed is the number of distinct URLs of both sides. */
  lemma {:induction false} DistinctCount(xs: seq<string>)
    requires Distinct(xs)
    ensures |set u | u in xs| == |xs|
  {
    if xs != [] {
      var p := xs[..|xs| - 1];
      assert Distinct(p);
      DistinctCount(p);
      assert (set u | u in xs) == (set u | u in p) + {xs[|xs| - 1]};
    }
  }

  /** Line 162: the URLs processed are the distinct URLs of both sides. */
  lemma UrlsProcessed(regexData: seq<ResultRecord>, llmData: seq<ResultRecord>, urlOrder: seq<string>)
    requires Distinct(urlOrder)
    requires (set u | u in urlOrder) == UrlSet(regexData) + UrlSet(llmData)
    ensures |urlOrder| == |UrlSet(regexData) + UrlSet(llmData)|
  {
    DistinctCount(urlOrder);
  }
}
