/** Harvesting search result pages, as `tvpl_crawler/main.py` (`links`),
    `tvpl_crawler/links_playwright.py` and the `/links-basic` endpoint of
    `api/main.py` all do it: walk a range of pages, keep at most 20 items
    per page whose key (the document id, else the canonical URL) has not
    been seen, and number the kept items from 1.  Fetching, the CAPTCHA
    check and parsing are the page outcomes `PageFetch`; `urlunparse` of
    the scheme, host and path is the opaque parameter `canonical`. */
module Harvest {
  import opened Common
  import opened SearchParser

  const PerPageLimit := 20

  // ---------------------------------------------------------------------------
  // The page range

  /** `end_page if end_page else (start_page + max_pages - 1)`. */
  function PageEnd(startPage: int, endPage: Option<int>, maxPages: int): int {
    if endPage.Some? && endPage.value != 0 then endPage.value else startPage + maxPages - 1
  }

  /** `/links-basic`: `req.start_page or 1`. */
  function ApiPageStart(startPage: Option<int>): int {
    if startPage.Some? && startPage.value != 0 then startPage.value else 1
  }

  /** `range(page_start, page_end + 1)`. */
  function PageRange(start: int, end: int): (r: seq<int>)
    ensures |r| == if end >= start then end - start + 1 else 0
    ensures forall i :: 0 <= i < |r| ==> r[i] == start + i
  {
    if end < start then [] else seq(end - start + 1, i requires 0 <= i <= end - start => start + i)
  }

  /** Without an end page the crawl visits `max_pages` pages from the start
      page; with one it visits the start page through the end page. */
  lemma PageRangeBounds(startPage: int, endPage: Option<int>, maxPages: nat)
    ensures endPage.None? || endPage == Some(0) ==>
              PageRange(startPage, PageEnd(startPage, endPage, maxPages)) ==
                seq(maxPages, i requires 0 <= i < maxPages => startPage + i)
    ensures endPage.Some? && endPage.value != 0 && endPage.value >= startPage ==>
              var r := PageRange(startPage, PageEnd(startPage, endPage, maxPages));
              r != [] && r[0] == startPage && r[|r| - 1] == endPage.value
  {
  }

  /** `/links-basic` without a start page starts at page 1. */
  lemma ApiDefaultRange(maxPages: nat)
    ensures PageRange(ApiPageStart(None), PageEnd(ApiPageStart(None), None, maxPages)) ==
              seq(maxPages, i requires 0 <= i < maxPages => i + 1)
  {
  }

  // ---------------------------------------------------------------------------
  // One page

  /** `it.get("doc_id") or it.get("canonical_url")`. */
  function HarvestKey(it: SearchItem, canonical: string -> string): string {
    if it.docId.Some? && it.docId.value != "" then it.docId.value else canonical(it.url)
  }

  function AddedKeys(items: seq<SearchItem>, canonical: string -> string): (ks: set<string>)
    ensures forall i :: 0 <= i < |items| ==> HarvestKey(items[i], canonical) in ks
    ensures forall k :: k in ks ==> exists i :: 0 <= i < |items| && HarvestKey(items[i], canonical) == k
  {
    if items == [] then {}
    else
      var p := items[..|items| - 1];
      assert forall i :: 0 <= i < |p| ==> items[i] == p[i];
      AddedKeys(p, canonical) + {HarvestKey(items[|items| - 1], canonical)}
  }

  /** The seen keys, the items added on the page, and `page_seen`. */
  datatype PageScan = PageScan(seen: set<string>, added: seq<SearchItem>, pageSeen: nat)

  /** The per-page loop: an item with a new non-empty key counts towards
      `page_seen`, and is added (its key becoming seen) while fewer than 20
      items have been added on the page. */
  function ScanPage(seen: set<string>, items: seq<SearchItem>, canonical: string -> string): PageScan
  {
    if items == [] then PageScan(seen, [], 0)
    else
      var r := ScanPage(seen, items[..|items| - 1], canonical);
      var key := HarvestKey(items[|items| - 1], canonical);
      if key != "" && key !in r.seen then
        if |r.added| < PerPageLimit then PageScan(r.seen + {key}, r.added + [items[|items| - 1]], r.pageSeen + 1)
        else r.(pageSeen := r.pageSeen + 1)
      else r
  }

  /** At most 20 items per page, never more than `page_seen`; the seen set
      grows by exactly the added keys, which are new, non-empty and
      distinct. */
  lemma {:induction false} ScanPageAdds(seen: set<string>, items: seq<SearchItem>, canonical: string -> string)
    ensures var r := ScanPage(seen, items, canonical);
            && |r.added| <= PerPageLimit && |r.added| <= r.pageSeen <= |items|
            && r.seen == seen + AddedKeys(r.added, canonical)
            && (forall i :: 0 <= i < |r.added| ==>
                  HarvestKey(r.added[i], canonical) != "" && HarvestKey(r.added[i], canonical) !in seen)
            && (forall i, j :: 0 <= i < j < |r.added| ==> HarvestKey(r.added[i], canonical) != HarvestKey(r.added[j], canonical))
  {
    if items != [] {
      var p := items[..|items| - 1];
      var it := items[|items| - 1];
      ScanPageAdds(seen, p, canonical);
      var r := ScanPage(seen, p, canonical);
      var key := HarvestKey(it, canonical);
      if key != "" && key !in r.seen && |r.added| < PerPageLimit {
        var a := r.added + [it];
        assert a[..|a| - 1] == r.added;
        assert AddedKeys(a, canonical) == AddedKeys(r.added, canonical) + {key};
      }
    }
  }

  /** Every added item is an item of the page. */
  lemma {:induction false} ScanPageAddsFromPage(seen: set<string>, items: seq<SearchItem>, canonical: string -> string)
    ensures forall it :: it in ScanPage(seen, items, canonical).added ==> it in items
  {
    if items != [] {
      var p := items[..|items| - 1];
      ScanPageAddsFromPage(seen, p, canonical);
      forall it | it in p ensures it in items {
        var i :| 0 <= i < |p| && p[i] == it;
        assert items[i] == it;
      }
    }
  }

  /** An item with a new non-empty key is left out only once the page has
      its 20 items. */
  lemma {:induction false} ScanPageSkipsOnlyWhenFull(seen: set<string>, items: seq<SearchItem>, canonical: string -> string)
    ensures forall i :: 0 <= i < |items| && HarvestKey(items[i], canonical) != "" && HarvestKey(items[i], canonical) !in seen ==>
              HarvestKey(items[i], canonical) in ScanPage(seen, items, canonical).seen ||
              |ScanPage(seen, items, canonical).added| == PerPageLimit
  {
    if items != [] {
      var n := |items| - 1;
      var p := items[..n];
      ScanPageSkipsOnlyWhenFull(seen, p, canonical);
      var r := ScanPage(seen, p, canonical);
      var r' := ScanPage(seen, items, canonical);
      var key := HarvestKey(items[n], canonical);
      if key != "" && key !in r.seen {
        if |r.added| < PerPageLimit {
          assert r'.seen == r.seen + {key};
          forall i | 0 <= i < n && HarvestKey(items[i], canonical) != "" && HarvestKey(items[i], canonical) !in seen
            ensures HarvestKey(items[i], canonical) in r'.seen
          {
            assert items[i] == p[i];
          }
        } else {
          ScanPageAdds(seen, p, canonical);
          assert r'.seen == r.seen && |r'.added| == PerPageLimit;
          forall i | 0 <= i < n ensures items[i] == p[i] { }
        }
      } else {
        assert r' == r;
        forall i | 0 <= i < n ensures items[i] == p[i] { }
      }
    }
  }

  /** The per-page loop with its counters (`tvpl_crawler/main.py`
      lines 282-292). */
  method AddPage(seenKeys: set<string>, allItems: seq<SearchItem>, items: seq<SearchItem>, canonical: string -> string)
    returns (seen': set<string>, all': seq<SearchItem>, pageAdded: nat, pageSeen: nat)
    ensures seen' == ScanPage(seenKeys, items, canonical).seen
    ensures all' == allItems + ScanPage(seenKeys, items, canonical).added
    ensures pageAdded == |ScanPage(seenKeys, items, canonical).added|
    ensures pageSeen == ScanPage(seenKeys, items, canonical).pageSeen
  {
    seen', all', pageAdded, pageSeen := seenKeys, allItems, 0, 0;
    var i := 0;
    while i < |items|
      invariant 0 <= i <= |items|
      invariant seen' == ScanPage(seenKeys, items[..i], canonical).seen
      invariant all' == allItems + ScanPage(seenKeys, items[..i], canonical).added
      invariant pageAdded == |ScanPage(seenKeys, items[..i], canonical).added|
      invariant pageSeen == ScanPage(seenKeys, items[..i], canonical).pageSeen
    {
      assert items[..i + 1][..i] == items[..i];
      var it := items[i];
      var key := HarvestKey(it, canonical);
      if key != "" && key !in seen' {
        pageSeen := pageSeen + 1;
        if pageAdded < PerPageLimit {
          seen' := seen' + {key};
          all' := all' + [it];
          pageAdded := pageAdded + 1;
        }
      }
      i := i + 1;
    }
    assert items[..i] == items;
  }

  // ---------------------------------------------------------------------------
  // The page loop

  /** What a page gives: its parsed items; a failure that skips the page
      (a fetch error, or an error while reading the loaded page in the
      browser version); or a stop (a CAPTCHA page in the HTTP version, a
      failed bypass in the browser version). A browser navigation that
      still fails after its one retry raises out of the whole crawl; that
      abort is not modelled, and such a page is treated here as `Failed`. */
  datatype PageFetch = Fetched(items: seq<SearchItem>) | Failed | Stopped

  datatype CrawlState = CrawlState(seen: set<string>, allItems: seq<SearchItem>, stopped: bool)

  function Crawl(pages: seq<PageFetch>, canonical: string -> string): CrawlState
  {
    if pages == [] then CrawlState({}, [], false)
    else
      var st := Crawl(pages[..|pages| - 1], canonical);
      if st.stopped then st
      else match pages[|pages| - 1]
        case Stopped => st.(stopped := true)
        case Failed => st
        case Fetched(items) =>
          var r := ScanPage(st.seen, items, canonical);
          CrawlState(r.seen, st.allItems + r.added, false)
  }

  /** After a stop, later pages change nothing. */
  lemma {:induction false} StoppedStays(pages: seq<PageFetch>, canonical: string -> string, k: nat)
    requires 0 < k <= |pages| && Crawl(pages[..k], canonical).stopped
    ensures Crawl(pages, canonical) == Crawl(pages[..k], canonical)
    decreases |pages|
  {
    if k < |pages| {
      var p := pages[..|pages| - 1];
      assert p[..k] == pages[..k];
      StoppedStays(p, canonical, k);
    } else {
      assert pages[..k] == pages;
    }
  }

  /** The loop over the pages (`tvpl_crawler/main.py` lines 248-297). */
  method HarvestPages(pages: seq<PageFetch>, canonical: string -> string) returns (allItems: seq<SearchItem>)
    ensures allItems == Crawl(pages, canonical).allItems
  {
    var seenKeys: set<string> := {};
    allItems := [];
    var i := 0;
    while i < |pages|
      invariant 0 <= i <= |pages|
      invariant !Crawl(pages[..i], canonical).stopped
      invariant seenKeys == Crawl(pages[..i], canonical).seen
      invariant allItems == Crawl(pages[..i], canonical).allItems
    {
      assert pages[..i + 1][..i] == pages[..i];
      if pages[i].Stopped? {
        StoppedStays(pages, canonical, i + 1);
        break;
      }
      if pages[i].Fetched? {
        var pageAdded, pageSeen;
        seenKeys, allItems, pageAdded, pageSeen := AddPage(seenKeys, allItems, pages[i].items, canonical);
      }
      i := i + 1;
    }
    if i == |pages| {
      assert pages[..i] == pages;
    }
  }

  lemma {:induction false} AddedKeysAppend(a: seq<SearchItem>, b: seq<SearchItem>, canonical: string -> string)
    ensures AddedKeys(a + b, canonical) == AddedKeys(a, canonical) + AddedKeys(b, canonical)
  {
    var ab := a + b;
    forall k | k in AddedKeys(a, canonical) ensures k in AddedKeys(ab, canonical) {
      var i :| 0 <= i < |a| && HarvestKey(a[i], canonical) == k;
      assert ab[i] == a[i];
    }
    forall k | k in AddedKeys(ab, canonical) ensures k in AddedKeys(a, canonical) + AddedKeys(b, canonical) {
      var i :| 0 <= i < |ab| && HarvestKey(ab[i], canonical) == k;
      if i >= |a| {
        assert ab[i] == b[i - |a|];
      }
    }
    forall k | k in AddedKeys(b, canonical) ensures k in AddedKeys(ab, canonical) {
      var i :| 0 <= i < |b| && HarvestKey(b[i], canonical) == k;
      assert ab[|a| + i] == b[i];
    }
  }

  /** Across all pages no key is added twice, every key is non-empty, and
      the seen set is exactly the keys of the items. */
  lemma {:induction false} CrawlDistinct(pages: seq<PageFetch>, canonical: string -> string)
    ensures var st := Crawl(pages, canonical);
            && st.seen == AddedKeys(st.allItems, canonical)
            && (forall i :: 0 <= i < |st.allItems| ==> HarvestKey(st.allItems[i], canonical) != "")
            && (forall i, j :: 0 <= i < j < |st.allItems| ==>
                  HarvestKey(st.allItems[i], canonical) != HarvestKey(st.allItems[j], canonical))
  {
    if pages != [] {
      var q := pages[..|pages| - 1];
      CrawlDistinct(q, canonical);
      var st := Crawl(q, canonical);
      if !st.stopped && pages[|pages| - 1].Fetched? {
        var items := pages[|pages| - 1].items;
        ScanPageAdds(st.seen, items, canonical);
        var r := ScanPage(st.seen, items, canonical);
        AddedKeysAppend(st.allItems, r.added, canonical);
        AppendDistinct(st.allItems, r.added, st.seen, canonical);
      }
    }
  }

  lemma AppendDistinct(a: seq<SearchItem>, b: seq<SearchItem>, seen: set<string>, canonical: string -> string)
    requires seen == AddedKeys(a, canonical)
    requires forall i :: 0 <= i < |a| ==> HarvestKey(a[i], canonical) != ""
    requires forall i, j :: 0 <= i < j < |a| ==> HarvestKey(a[i], canonical) != HarvestKey(a[j], canonical)
    requires forall i :: 0 <= i < |b| ==> HarvestKey(b[i], canonical) != "" && HarvestKey(b[i], canonical) !in seen
    requires forall i, j :: 0 <= i < j < |b| ==> HarvestKey(b[i], canonical) != HarvestKey(b[j], canonical)
    ensures forall i :: 0 <= i < |a + b| ==> HarvestKey((a + b)[i], canonical) != ""
    ensures forall i, j :: 0 <= i < j < |a + b| ==> HarvestKey((a + b)[i], canonical) != HarvestKey((a + b)[j], canonical)
  {
    var ab := a + b;
    forall i | 0 <= i < |ab| ensures HarvestKey(ab[i], canonical) != "" {
      if i >= |a| {
        assert ab[i] == b[i - |a|];
      }
    }
    forall i, j | 0 <= i < j < |ab|
      ensures HarvestKey(ab[i], canonical) != HarvestKey(ab[j], canonical)
    {
      if j >= |a| {
        assert ab[j] == b[j - |a|];
        if i >= |a| {
          assert ab[i] == b[i - |a|];
        } else {
          assert HarvestKey(ab[i], canonical) in seen;
        }
      }
    }
  }

  /** Each page adds at most 20 items. */
  lemma {:induction false} CrawlCap(pages: seq<PageFetch>, canonical: string -> string)
    ensures |Crawl(pages, canonical).allItems| <= PerPageLimit * |pages|
  {
    if pages != [] {
      var q := pages[..|pages| - 1];
      CrawlCap(q, canonical);
      var st := Crawl(q, canonical);
      if !st.stopped && pages[|pages| - 1].Fetched? {
        ScanPageAdds(st.seen, pages[|pages| - 1].items, canonical);
      }
    }
  }

  // ---------------------------------------------------------------------------
  // Only-basic rows

  datatype BasicRow = BasicRow(stt: int, tenVanBan: Option<string>, url: string, ngayCapNhat: Option<string>)

  /** The only-basic comprehension: rows numbered from 1 in harvest order,
      with the canonical URL (or the URL when that is empty).  Search items
      carry no update date, so "Ngay cap nhat" is always null. */
  function BasicRows(items: seq<SearchItem>, canonical: string -> string): (rows: seq<BasicRow>)
    ensures |rows| == |items|
    ensures forall i :: 0 <= i < |items| ==>
              && rows[i].stt == i + 1
              && rows[i].tenVanBan == items[i].title
              && rows[i].url == (if canonical(items[i].url) != "" then canonical(items[i].url) else items[i].url)
              && rows[i].ngayCapNhat.None?
  {
    seq(|items|, i requires 0 <= i < |items| =>
      BasicRow(i + 1, items[i].title, if canonical(items[i].url) != "" then canonical(items[i].url) else items[i].url, None))
  }

  /** The only-basic output of a harvest has at most 20 rows per page. */
  lemma BasicRowsBounded(pages: seq<PageFetch>, canonical: string -> string)
    ensures |BasicRows(Crawl(pages, canonical).allItems, canonical)| <= PerPageLimit * |pages|
  {
    CrawlCap(pages, canonical);
  }
}
