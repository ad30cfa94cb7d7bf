/** The legal-terms crawler: `crawl_tnpl_page` keeps each term link once
    per page, and `save_terms_batch` sorts a page's terms into new, changed
    and unchanged ones, inserts the new ones in one batch and updates the
    changed ones one by one.  The `terms` table is a sequence of rows, since
    nothing stops two rows from sharing a URL. */
module TnplCrawl {
  import opened Common

  const SiteRoot := "https://thuvienphapluat.vn"
  const SourceCrawl := "https://thuvienphapluat.vn/tnpl/"

  datatype Term = Term(termName: string, definition: string, url: string, sourceCrawl: string)

  // ---------------------------------------------------------------------------
  // The page scan (lines 111-159)

  /** What the page yields per term block: the href of its first term link
      (`None` when the block has no such link), its text and its definition
      text, both already extracted from the page. */
  datatype Block = Block(href: Option<string>, title: string, definition: string)

  function FullUrl(href: string): string {
    if StartsWith(href, "/") then SiteRoot + href else href
  }

  /** The terms of the blocks, in order, with the URLs seen so far. */
  function Scan(blocks: seq<Block>): (seq<Term>, set<string>)
  {
    if blocks == [] then ([], {})
    else
      var (terms, seen) := Scan(blocks[..|blocks| - 1]);
      var b := blocks[|blocks| - 1];
      if !Truthy(b.href) || !Contains(b.href.value, "?tab=0") then (terms, seen)
      else
        var fullUrl := FullUrl(b.href.value);
        if fullUrl in seen then (terms, seen)
        else (terms + [Term(Strip(b.title), Take(b.definition, 1000), fullUrl, SourceCrawl)], seen + {fullUrl})
  }

  /** The loop of `crawl_tnpl_page` over the term blocks. */
  method PageTerms(blocks: seq<Block>) returns (terms: seq<Term>)
    ensures terms == Scan(blocks).0
  {
    var seenUrls: set<string> := {};
    terms := [];
    var i := 0;
    while i < |blocks|
      invariant 0 <= i <= |blocks|
      invariant (terms, seenUrls) == Scan(blocks[..i])
    {
      var b := blocks[i];
      assert blocks[..i + 1][..i] == blocks[..i];
      if Truthy(b.href) && Contains(b.href.value, "?tab=0") {
        var href := b.href.value;
        var fullUrl := if StartsWith(href, "/") then SiteRoot + href else href;
        if fullUrl !in seenUrls {
          seenUrls := seenUrls + {fullUrl};
          terms := terms + [Term(Strip(b.title), Take(b.definition, 1000), fullUrl, SourceCrawl)];
        }
      }
      i := i + 1;
    }
    assert blocks[..i] == blocks;
  }

  /** The URLs of a list of terms. */
  function Urls(terms: seq<Term>): (r: set<string>)
    ensures forall i :: 0 <= i < |terms| ==> terms[i].url in r
    ensures forall u :: u in r ==> exists i :: 0 <= i < |terms| && terms[i].url == u
  {
    if terms == [] then {} else Urls(terms[..|terms| - 1]) + {terms[|terms| - 1].url}
  }

  lemma UrlsSnoc(terms: seq<Term>, t: Term)
    ensures Urls(terms + [t]) == Urls(terms) + {t.url}
  {
    assert (terms + [t])[..|terms|] == terms;
  }

  /** One more block either keeps the scan or adds one term and its URL. */
  lemma ScanStep(blocks: seq<Block>)
    requires blocks != []
    ensures var p := Scan(blocks[..|blocks| - 1]);
            Scan(blocks) == p || exists t: Term :: Scan(blocks) == (p.0 + [t], p.1 + {t.url})
  {
  }

  /** The set of seen URLs is exactly the set of URLs of the kept terms. */
  lemma {:induction false} ScanSeenUrls(blocks: seq<Block>)
    ensures Scan(blocks).1 == Urls(Scan(blocks).0)
  {
    if blocks != [] {
      var p := blocks[..|blocks| - 1];
      ScanSeenUrls(p);
      ScanStep(blocks);
      if Scan(blocks) != Scan(p) {
        var t: Term :| Scan(blocks) == (Scan(p).0 + [t], Scan(p).1 + {t.url});
        UrlsSnoc(Scan(p).0, t);
      }
    }
  }

  /** Only "?tab=0" links are kept, with definitions of at most 1000
      characters, and never more terms than blocks. */
  lemma {:induction false} ScanKeepsTermLinks(blocks: seq<Block>)
    ensures forall t :: t in Scan(blocks).0 ==> Contains(t.url, "?tab=0") && |t.definition| <= 1000
    ensures |Scan(blocks).0| <= |blocks|
  {
    if blocks != [] {
      ScanKeepsTermLinks(blocks[..|blocks| - 1]);
      var b := blocks[|blocks| - 1];
      if Truthy(b.href) && Contains(b.href.value, "?tab=0") && StartsWith(b.href.value, "/") {
        ContainsInLonger(b.href.value, SiteRoot, "?tab=0");
      }
    }
  }

  /** Each full URL is kept once. */
  lemma {:induction false} ScanDistinctUrls(blocks: seq<Block>)
    ensures var terms := Scan(blocks).0;
            forall i, j :: 0 <= i < j < |terms| ==> terms[i].url != terms[j].url
  {
    if blocks != [] {
      var p := blocks[..|blocks| - 1];
      ScanDistinctUrls(p);
      ScanSeenUrls(p);
      var terms := Scan(p).0;
      var r := Scan(blocks).0;
      if r != terms {
        var b := blocks[|blocks| - 1];
        assert r == terms + [Term(Strip(b.title), Take(b.definition, 1000), FullUrl(b.href.value), SourceCrawl)];
        assert r[|terms|].url !in Urls(terms);
        forall i, j | 0 <= i < j < |r| ensures r[i].url != r[j].url {
          assert r[i] == terms[i];
          if j < |terms| {
            assert r[j] == terms[j];
          }
        }
      }
    }
  }

  // ---------------------------------------------------------------------------
  // The batch save (lines 29-82)

  datatype TermRow = TermRow(url: string, termName: string, definition: string, sourceCrawl: string)

  /** `existing_map[url]`: the dict comprehension keeps the last row of each URL. */
  function ExistingRow(rows: seq<TermRow>, url: string): (r: Option<TermRow>)
    ensures r.Some? ==> r.value in rows && r.value.url == url
    ensures r.None? <==> forall i :: 0 <= i < |rows| ==> rows[i].url != url
    ensures r.Some? ==> exists i :: 0 <= i < |rows| && rows[i] == r.value &&
                                    forall j :: i < j < |rows| ==> rows[j].url != url
  {
    var i := LastWhere(rows, (m: TermRow) => m.url == url);
    if i < 0 then None else Some(rows[i])
  }

  /** Whether a term differs from the stored row of its URL. */
  predicate Differs(row: TermRow, t: Term) {
    row.termName != t.termName || row.definition != t.definition
  }

  /** The classification loop: new terms and terms to update, in order. */
  function Classify(rows: seq<TermRow>, terms: seq<Term>): (seq<Term>, seq<Term>)
  {
    if terms == [] then ([], [])
    else
      var (newTerms, updateTerms) := Classify(rows, terms[..|terms| - 1]);
      var t := terms[|terms| - 1];
      var e := ExistingRow(rows, t.url);
      if e.Some? then
        if Differs(e.value, t) then (newTerms, updateTerms + [t]) else (newTerms, updateTerms)
      else (newTerms + [t], updateTerms)
  }

  /** A term is new exactly when no row has its URL, queued for update
      exactly when the stored row differs in name or definition, and
      otherwise in neither list. */
  lemma {:induction false} ClassifyPartition(rows: seq<TermRow>, terms: seq<Term>)
    ensures var (newTerms, updateTerms) := Classify(rows, terms);
            && (forall t :: t in newTerms <==> t in terms && ExistingRow(rows, t.url).None?)
            && (forall t :: t in updateTerms <==> t in terms && ExistingRow(rows, t.url).Some? && Differs(ExistingRow(rows, t.url).value, t))
            && |newTerms| + |updateTerms| <= |terms|
  {
    if terms != [] {
      ClassifyPartition(rows, terms[..|terms| - 1]);
      assert terms == terms[..|terms| - 1] + [terms[|terms| - 1]];
    }
  }

  /** `update ... where url = t.url`: every row of that URL is rewritten. */
  function UpdateByUrl(rows: seq<TermRow>, t: Term): (r: seq<TermRow>)
    ensures |r| == |rows|
    ensures forall i :: 0 <= i < |rows| ==>
              r[i] == if rows[i].url == t.url then TermRow(t.url, t.termName, t.definition, t.sourceCrawl) else rows[i]
  {
    seq(|rows|, i requires 0 <= i < |rows| =>
      if rows[i].url == t.url then TermRow(t.url, t.termName, t.definition, t.sourceCrawl) else rows[i])
  }

  function NewRows(terms: seq<Term>): (r: seq<TermRow>)
    ensures |r| == |terms|
    ensures forall i :: 0 <= i < |terms| ==>
              r[i] == TermRow(terms[i].url, terms[i].termName, terms[i].definition, terms[i].sourceCrawl)
  {
    seq(|terms|, i requires 0 <= i < |terms| =>
      TermRow(terms[i].url, terms[i].termName, terms[i].definition, terms[i].sourceCrawl))
  }

  /** The update loop: the `k`-th update fails when `updateFails[k]` is true
      (missing entries succeed); failed updates write nothing. */
  function UpdateRun(rows: seq<TermRow>, updates: seq<Term>, updateFails: seq<bool>): (seq<TermRow>, nat)
  {
    if updates == [] then (rows, 0)
    else
      var k := |updates| - 1;
      var (r, n) := UpdateRun(rows, updates[..k], updateFails);
      if k < |updateFails| && updateFails[k] then (r, n) else (UpdateByUrl(r, updates[k]), n + 1)
  }

  function Failures(updateFails: seq<bool>, n: nat): nat {
    if n == 0 then 0
    else Failures(updateFails, n - 1) + (if n - 1 < |updateFails| && updateFails[n - 1] then 1 else 0)
  }

  /** The updated count is the number of updates that did not fail. */
  lemma {:induction false} UpdateRunCount(rows: seq<TermRow>, updates: seq<Term>, updateFails: seq<bool>)
    ensures UpdateRun(rows, updates, updateFails).1 + Failures(updateFails, |updates|) == |updates|
    ensures |UpdateRun(rows, updates, updateFails).0| == |rows|
  {
    if updates != [] {
      var k := |updates| - 1;
      UpdateRunCount(rows, updates[..k], updateFails);
    }
  }

  /** One call: the new table and `(new_count, updated_count)`. */
  function SaveBatch(rows: seq<TermRow>, terms: seq<Term>, insertFails: bool, updateFails: seq<bool>)
    : (seq<TermRow>, nat, nat)
  {
    var (newTerms, updateTerms) := Classify(rows, terms);
    var (r1, newCount) := if newTerms != [] && !insertFails then (rows + NewRows(newTerms), |newTerms|) else (rows, 0);
    var (r2, updatedCount) := UpdateRun(r1, updateTerms, updateFails);
    (r2, newCount, updatedCount)
  }

  class TermsTable {
    var rows: seq<TermRow>

    constructor(init: seq<TermRow>)
      ensures rows == init
    {
      rows := init;
    }

    /** The classification loop of lines 43-51, against the rows as they are. */
    method ClassifyTerms(terms: seq<Term>) returns (newTerms: seq<Term>, updateTerms: seq<Term>)
      ensures (newTerms, updateTerms) == Classify(rows, terms)
    {
      newTerms, updateTerms := [], [];
      var i := 0;
      while i < |terms|
        invariant 0 <= i <= |terms|
        invariant (newTerms, updateTerms) == Classify(rows, terms[..i])
      {
        var term := terms[i];
        assert terms[..i + 1][..i] == terms[..i];
        var existing := ExistingRow(rows, term.url);
        if existing.Some? {
          if existing.value.termName != term.termName || existing.value.definition != term.definition {
            updateTerms := updateTerms + [term];
          }
        } else {
          newTerms := newTerms + [term];
        }
        i := i + 1;
      }
      assert terms[..i] == terms;
    }

    /** Lines 29-82; `insertFails` and `updateFails` say which store calls
        raise (and are caught). */
    method SaveTermsBatch(terms: seq<Term>, insertFails: bool, updateFails: seq<bool>)
      returns (newCount: nat, updatedCount: nat)
      modifies this
      ensures (rows, newCount, updatedCount) == SaveBatch(old(rows), terms, insertFails, updateFails)
    {
      var newTerms, updateTerms := ClassifyTerms(terms);
      newCount, updatedCount := 0, 0;
      if newTerms != [] && !insertFails {
        rows := rows + NewRows(newTerms);
        newCount := |newTerms|;
      }
      ghost var afterInsert := rows;
      var k := 0;
      while k < |updateTerms|
        invariant 0 <= k <= |updateTerms|
        invariant (rows, updatedCount) == UpdateRun(afterInsert, updateTerms[..k], updateFails)
      {
        assert updateTerms[..k + 1][..k] == updateTerms[..k];
        if !(k < |updateFails| && updateFails[k]) {
          rows := UpdateByUrl(rows, updateTerms[k]);
          updatedCount := updatedCount + 1;
        }
        k := k + 1;
      }
      assert updateTerms[..k] == updateTerms;
    }
  }

  /** `new_count` is the number of new terms when the batch insert succeeds
      and 0 otherwise; `updated_count` counts the successful updates only. */
  lemma SaveBatchCounts(rows: seq<TermRow>, terms: seq<Term>, insertFails: bool, updateFails: seq<bool>)
    ensures var (newTerms, updateTerms) := Classify(rows, terms);
            var (r, newCount, updatedCount) := SaveBatch(rows, terms, insertFails, updateFails);
            && newCount == (if insertFails then 0 else |newTerms|)
            && updatedCount + Failures(updateFails, |updateTerms|) == |updateTerms|
            && |r| == |rows| + newCount
  {
    var (newTerms, updateTerms) := Classify(rows, terms);
    var r1 := if newTerms != [] && !insertFails then rows + NewRows(newTerms) else rows;
    UpdateRunCount(r1, updateTerms, updateFails);
  }

  /** A batch whose terms all match their stored rows is classified as
      neither new nor changed, so the save writes nothing and reports 0 and 0. */
  lemma {:induction false} UnchangedBatchWritesNothing(rows: seq<TermRow>, terms: seq<Term>, insertFails: bool, updateFails: seq<bool>)
    requires forall t :: t in terms ==> ExistingRow(rows, t.url).Some? && !Differs(ExistingRow(rows, t.url).value, t)
    ensures Classify(rows, terms) == ([], [])
    ensures SaveBatch(rows, terms, insertFails, updateFails) == (rows, 0, 0)
  {
    if terms != [] {
      var p := terms[..|terms| - 1];
      assert forall t :: t in p ==> t in terms;
      assert terms[|terms| - 1] in terms;
      UnchangedBatchWritesNothing(rows, p, insertFails, updateFails);
    }
  }
}
