/** `tvpl_crawler/parser.py`: reading search result pages and the
    "Lược đồ" tab.  The HTML itself is not modelled: a page is given as the
    anchors of its result containers (href and text already stripped, in
    document order), and a tab as its tables, each a list of rows whose
    cell texts are already whitespace-normalised.  `urljoin` and the path
    component of `urlparse` are the opaque parameters `join` and `pathOf`. */
module SearchParser {
  import opened Common
  import opened DocId
  import opened FirstSeen

  datatype Anchor = Anchor(href: string, text: string)

  /** The anchors the parser takes: those whose href contains "/van-ban/". */
  predicate IsDocLink(a: Anchor) {
    Contains(a.href, "/van-ban/")
  }

  // ---------------------------------------------------------------------------
  // extract_document_links_from_search

  /** The `candidates` list: the joined href of every document anchor. */
  function Candidates(anchors: seq<Anchor>, join: string -> string): (r: seq<string>)
    ensures |r| <= |anchors|
    ensures forall u :: u in r <==> exists a :: a in anchors && IsDocLink(a) && u == join(a.href)
  {
    if anchors == [] then []
    else
      var p := anchors[..|anchors| - 1];
      var a := anchors[|anchors| - 1];
      assert forall b :: b in anchors <==> b in p || b == a;
      Candidates(p, join) + (if IsDocLink(a) then [join(a.href)] else [])
  }

  /** Lines 20-46: collect the candidates, then drop repeated URLs. */
  method ExtractDocumentLinks(anchors: seq<Anchor>, join: string -> string) returns (links: seq<string>)
    ensures links == Dedup(Candidates(anchors, join), Identity)
  {
    var candidates: seq<string> := [];
    var i := 0;
    while i < |anchors|
      invariant 0 <= i <= |anchors|
      invariant candidates == Candidates(anchors[..i], join)
    {
      assert anchors[..i + 1][..i] == anchors[..i];
      var href := anchors[i].href;
      if Contains(href, "/van-ban/") {
        candidates := candidates + [join(href)];
      }
      i := i + 1;
    }
    assert anchors[..i] == anchors;
    links := DedupLoop(candidates, Identity);
  }

  /** The links are distinct, and they are exactly the joined hrefs of the
      document anchors, each at its first occurrence. */
  lemma DocumentLinks(anchors: seq<Anchor>, join: string -> string)
    ensures var links := Dedup(Candidates(anchors, join), Identity);
            && (forall i, j :: 0 <= i < j < |links| ==> links[i] != links[j])
            && (forall u :: u in links <==> exists a :: a in anchors && IsDocLink(a) && u == join(a.href))
  {
    var c := Candidates(anchors, join);
    var links := Dedup(c, Identity);
    DedupDistinctKeys(c, Identity);
    DedupSameKeys(c, Identity);
    forall u ensures u in links <==> u in c {
      if u in links {
        var i :| 0 <= i < |links| && links[i] == u;
        assert Identity(links[i]) in KeysOf(c, Identity);
      }
      if u in c {
        var i :| 0 <= i < |c| && c[i] == u;
        assert Identity(c[i]) in KeysOf(links, Identity);
      }
    }
  }

  // ---------------------------------------------------------------------------
  // extract_document_items_from_search

  datatype SearchItem = SearchItem(url: string, category: Option<string>, slug: string,
                                   docId: Option<string>, title: Option<string>)

  function NonEmptyParts(parts: seq<string>): (r: seq<string>)
    ensures forall p :: p in r <==> p in parts && p != ""
  {
    if parts == [] then []
    else
      var q := parts[..|parts| - 1];
      var x := parts[|parts| - 1];
      assert forall p :: p in parts <==> p in q || p == x;
      NonEmptyParts(q) + (if x != "" then [x] else [])
  }

  /** Start of the run of digits ending just before position `e`. */
  function DigitRunStart(s: string, e: nat): (b: nat)
    requires e <= |s|
    ensures b <= e
    ensures forall k :: b <= k < e ==> IsDigit(s[k])
    ensures b == 0 || !IsDigit(s[b - 1])
  {
    if e > 0 && IsDigit(s[e - 1]) then DigitRunStart(s, e - 1) else e
  }

  /** `re.sub(r"-(\d+)\.aspx$", "", last)`: the only place such a match can
      start is the '-' just before the digit run that ends at ".aspx". */
  function StripIdSuffix(last: string): string
  {
    if EndsWith(last, ".aspx") then
      var e := |last| - 5;
      var b := DigitRunStart(last, e);
      if b < e && b > 0 && last[b - 1] == '-' then last[..b - 1] else last
    else last
  }

  /** `parse_from_href` (lines 60-76) on the joined URL `u`, whose path is
      `path`. */
  function ParseFromHref(u: string, path: string): SearchItem
  {
    var parts := NonEmptyParts(Split(path, '/'));
    var category := if |parts| > 2 && parts[0] == "van-ban" then Some(parts[1]) else None;
    var last := if parts != [] then parts[|parts| - 1] else "";
    SearchItem(u, category, StripIdSuffix(last), ExtractDocId(last), None)
  }

  /** Lines 83-91: one item per document anchor, titled with the anchor text
      when it is non-empty. */
  function Items(anchors: seq<Anchor>, join: string -> string, pathOf: string -> string): (r: seq<SearchItem>)
    ensures |r| <= |anchors|
  {
    if anchors == [] then []
    else
      var a := anchors[|anchors| - 1];
      Items(anchors[..|anchors| - 1], join, pathOf)
      + (if IsDocLink(a) then
           var item := ParseFromHref(join(a.href), pathOf(join(a.href)));
           [if a.text != "" then item.(title := Some(a.text)) else item]
         else [])
  }

  /** `it.get("doc_id") or it.get("url")`. */
  function ItemKey(it: SearchItem): string {
    if it.docId.Some? && it.docId.value != "" then it.docId.value else it.url
  }

  /** Lines 49-101. */
  method ExtractDocumentItems(anchors: seq<Anchor>, join: string -> string, pathOf: string -> string)
    returns (uniqueItems: seq<SearchItem>)
    ensures uniqueItems == Dedup(Items(anchors, join, pathOf), ItemKey)
  {
    var items: seq<SearchItem> := [];
    var i := 0;
    while i < |anchors|
      invariant 0 <= i <= |anchors|
      invariant items == Items(anchors[..i], join, pathOf)
    {
      assert anchors[..i + 1][..i] == anchors[..i];
      var href := anchors[i].href;
      if Contains(href, "/van-ban/") {
        var item := ParseFromHref(join(href), pathOf(join(href)));
        var text := anchors[i].text;
        if text != "" {
          item := item.(title := Some(text));
        }
        items := items + [item];
      }
      i := i + 1;
    }
    assert anchors[..i] == anchors;
    uniqueItems := DedupLoop(items, ItemKey);
  }

  /** An item has a title only when its anchor text is non-empty, and then
      the title is that text. */
  lemma {:induction false} TitlesNonEmpty(anchors: seq<Anchor>, join: string -> string, pathOf: string -> string)
    ensures forall it :: it in Items(anchors, join, pathOf) && it.title.Some? ==> it.title.value != ""
  {
    if anchors != [] {
      TitlesNonEmpty(anchors[..|anchors| - 1], join, pathOf);
    }
  }

  /** The category is the second path segment, and only under "/van-ban/"
      with at least three segments. */
  lemma CategoryUnderVanBan(u: string, path: string)
    ensures var parts := NonEmptyParts(Split(path, '/'));
            ParseFromHref(u, path).category.Some? <==> |parts| > 2 && parts[0] == "van-ban"
    ensures ParseFromHref(u, path).category.Some? ==> ParseFromHref(u, path).category.value == NonEmptyParts(Split(path, '/'))[1]
  {
  }

  /** A last segment "<slug>-<digits>.aspx" has slug `<slug>`. */
  lemma SlugDropsIdSuffix(s: string, d: string)
    requires d != [] && AllDigits(d)
    ensures StripIdSuffix(s + "-" + d + ".aspx") == s
  {
    var last := s + "-" + d + ".aspx";
    var e := |last| - 5;
    assert last[e..] == ".aspx";
    assert last[|s| + 1..e] == d;
    var b := DigitRunStart(last, e);
    assert last[|s|] == '-' && !IsDigit(last[|s|]);
    assert forall k :: |s| + 1 <= k < e ==> last[k] == d[k - (|s| + 1)];
    assert b == |s| + 1;
    assert last[..b - 1] == s;
  }

  /** A last segment without the id suffix is the slug unchanged. */
  lemma SlugWithoutSuffix(last: string)
    requires !EndsWith(last, ".aspx")
    ensures StripIdSuffix(last) == last
  {
  }

  // ---------------------------------------------------------------------------
  // extract_luoc_do

  const ExpectedLabels: seq<string> := [
    "Số hiệu", "Loại văn bản", "Lĩnh vực, ngành", "Nơi ban hành", "Người ký",
    "Ngày ban hành", "Ngày hiệu lực", "Ngày hết hiệu lực", "Số công báo", "Tình trạng"]
  const DescKey := "Mô tả"
  const TitleKey := "Tiêu đề"
  const ViewingHeader := "Văn bản đang xem"

  /** A table row: two cells (label and value), one cell with its parsed
      `colspan` (None when absent or not an integer), or anything else. */
  datatype Row = TwoCells(left: string, right: string) | OneCell(colspan: Option<int>, text: string) | OtherRow

  /** `re.sub(r":\s*$", "", s)`: a colon followed only by whitespace is
      removed with that whitespace. */
  function TrimColon(s: string): (r: string)
    ensures r == s || |r| < |s|
  {
    var t := RStrip(s);
    if t != [] && t[|t| - 1] == ':' then t[..|t| - 1] else s
  }

  /** `is_expected`: some expected label occurs in the label, ignoring case. */
  predicate IsExpected(cell: string) {
    exists i :: 0 <= i < |ExpectedLabels| && Contains(Lower(TrimColon(cell)), Lower(ExpectedLabels[i]))
  }

  /** A one-cell row that can become the description. */
  predicate IsDescription(colspan: Option<int>, text: string) {
    colspan.GetOr(1) >= 2 && text != "" && Lower(text) != Lower(ViewingHeader)
  }

  /** One row of the table loop (lines 164-188). */
  function ScanRow(score: nat, pairs: Dict<string>, row: Row): (nat, Dict<string>)
  {
    match row
    case TwoCells(left, right) =>
      if left == "" then (score, pairs)
      else (score + (if IsExpected(left) then 1 else 0), if right != "" then Put(pairs, TrimColon(left), right) else pairs)
    case OneCell(colspan, text) =>
      if IsDescription(colspan, text) && !HasKey(pairs, DescKey) then (score, Put(pairs, DescKey, text)) else (score, pairs)
    case OtherRow => (score, pairs)
  }

  /** The score and the pairs of one table. */
  function TableScan(rows: seq<Row>): (r: (nat, Dict<string>))
    ensures r.0 <= |rows|
  {
    if rows == [] then (0, [])
    else
      var p := TableScan(rows[..|rows| - 1]);
      ScanRow(p.0, p.1, rows[|rows| - 1])
  }

  /** Lines 164-188: one row of the table loop. */
  method ScanOneRow(score: nat, pairs: Dict<string>, row: Row) returns (score': nat, pairs': Dict<string>)
    ensures (score', pairs') == ScanRow(score, pairs, row)
  {
    score', pairs' := score, pairs;
    match row {
    case TwoCells(left, right) =>
      if left != "" {
        if IsExpected(left) {
          score' := score' + 1;
        }
        var leftKey := TrimColon(left);
        if right != "" {
          pairs' := Put(pairs', leftKey, right);
        }
      }
    case OneCell(colspan, text) =>
      var c := colspan.GetOr(1);
      if c >= 2 {
        if text != "" && Lower(text) != Lower(ViewingHeader) {
          if !HasKey(pairs', DescKey) {
            pairs' := Put(pairs', DescKey, text);
          }
        }
      }
    case OtherRow =>
    }
  }

  lemma TableScanStep(rows: seq<Row>, i: int)
    requires 0 <= i < |rows|
    ensures TableScan(rows[..i + 1]) == ScanRow(TableScan(rows[..i]).0, TableScan(rows[..i]).1, rows[i])
  {
    assert rows[..i + 1][..i] == rows[..i];
  }

  /** Lines 161-188. */
  method ScanTable(rows: seq<Row>) returns (score: nat, pairs: Dict<string>)
    ensures score == TableScan(rows).0 && pairs == TableScan(rows).1
  {
    score, pairs := 0, [];
    var i := 0;
    while i < |rows|
      invariant 0 <= i <= |rows|
      invariant score == TableScan(rows[..i]).0 && pairs == TableScan(rows[..i]).1
    {
      TableScanStep(rows, i);
      score, pairs := ScanOneRow(score, pairs, rows[i]);
      i := i + 1;
    }
    assert rows[..i] == rows;
  }

  /** A table's pairs have distinct labels and only non-empty values. */
  lemma {:induction false} TablePairsWellFormed(rows: seq<Row>)
    ensures DistinctKeys(TableScan(rows).1)
    ensures forall e :: e in TableScan(rows).1 ==> e.1 != ""
  {
    if rows != [] {
      var p := TableScan(rows[..|rows| - 1]);
      TablePairsWellFormed(rows[..|rows| - 1]);
      match rows[|rows| - 1]
      case TwoCells(left, right) =>
        if left != "" && right != "" {
          PutDistinct(p.1, TrimColon(left), right);
          PutElements(p.1, TrimColon(left), right);
        }
      case OneCell(colspan, text) =>
        if IsDescription(colspan, text) && !HasKey(p.1, DescKey) {
          PutDistinct(p.1, DescKey, text);
          PutElements(p.1, DescKey, text);
        }
      case OtherRow =>
    }
  }

  /** The text of the first one-cell row that qualifies as a description. */
  function FirstDescription(rows: seq<Row>): (r: Option<string>)
    ensures r.Some? ==> r.value != ""
  {
    if rows == [] then None
    else
      var d := FirstDescription(rows[..|rows| - 1]);
      if d.Some? then d
      else match rows[|rows| - 1]
        case OneCell(colspan, text) => if IsDescription(colspan, text) then Some(text) else None
        case _ => None
  }

  /** No two-cell row is labelled "Mô tả". */
  predicate NoDescLabel(rows: seq<Row>) {
    forall i :: 0 <= i < |rows| && rows[i].TwoCells? && rows[i].left != "" && rows[i].right != "" ==>
      TrimColon(rows[i].left) != DescKey
  }

  /** "Mô tả" is set once, by the first qualifying one-cell row, and later
      one-cell rows never overwrite it. */
  lemma {:induction false} DescriptionIsFirst(rows: seq<Row>)
    requires NoDescLabel(rows)
    ensures Get(TableScan(rows).1, DescKey) == FirstDescription(rows)
  {
    if rows != [] {
      var q := rows[..|rows| - 1];
      assert NoDescLabel(q) by {
        forall i | 0 <= i < |q| ensures q[i] == rows[i] { }
      }
      DescriptionIsFirst(q);
      var p := TableScan(q);
      match rows[|rows| - 1]
      case TwoCells(left, right) =>
        if left != "" && right != "" {
          assert rows[|rows| - 1].TwoCells?;
          PutOthers(p.1, TrimColon(left), right, DescKey);
        }
      case OneCell(colspan, text) =>
      case OtherRow =>
    }
  }

  /** `score > best_score or (score == best_score and len(pairs) > len(best))`. */
  predicate Better(score: int, n: int, bestScore: int, bestN: int) {
    score > bestScore || (score == bestScore && n > bestN)
  }

  /** The best score and pairs after a loop that scans each item with `scan`
      and keeps the first one no later item beats. */
  function BestBy<T>(xs: seq<T>, scan: T -> (nat, Dict<string>)): (int, Dict<string>)
  {
    if xs == [] then (-1, [])
    else
      var b := BestBy(xs[..|xs| - 1], scan);
      var t := scan(xs[|xs| - 1]);
      if Better(t.0, |t.1|, b.0, |b.1|) then (t.0, t.1) else b
  }

  /** The best score and pairs after the loop over the tables. */
  function BestOf(tables: seq<seq<Row>>): (int, Dict<string>)
  {
    BestBy(tables, TableScan)
  }

  /** Lines 158-192. */
  method ChooseBest(tables: seq<seq<Row>>) returns (bestScore: int, bestPairs: Dict<string>)
    ensures bestScore == BestOf(tables).0 && bestPairs == BestOf(tables).1
  {
    bestScore, bestPairs := -1, [];
    var i := 0;
    while i < |tables|
      invariant 0 <= i <= |tables|
      invariant bestScore == BestOf(tables[..i]).0 && bestPairs == BestOf(tables[..i]).1
    {
      assert tables[..i + 1][..i] == tables[..i];
      var score, pairsLocal := ScanTable(tables[i]);
      if score > bestScore || (score == bestScore && |pairsLocal| > |bestPairs|) {
        bestScore := score;
        bestPairs := pairsLocal;
      }
      i := i + 1;
    }
    assert tables[..i] == tables;
  }

  /** No item beats the chosen one, and the chosen one beats every item
      before it.  With no item nothing is chosen. */
  lemma {:induction false} BestByIsFirstMaximum<T>(xs: seq<T>, scan: T -> (nat, Dict<string>))
    ensures forall j :: 0 <= j < |xs| ==>
              !Better(scan(xs[j]).0, |scan(xs[j]).1|, BestBy(xs, scan).0, |BestBy(xs, scan).1|)
    ensures xs == [] ==> BestBy(xs, scan) == (-1, [])
    ensures xs != [] ==>
              exists i :: 0 <= i < |xs| && BestBy(xs, scan).0 == scan(xs[i]).0 && BestBy(xs, scan).1 == scan(xs[i]).1
                && forall j :: 0 <= j < i ==> Better(scan(xs[i]).0, |scan(xs[i]).1|, scan(xs[j]).0, |scan(xs[j]).1|)
  {
    if xs != [] {
      var q := xs[..|xs| - 1];
      var n := |xs| - 1;
      BestByIsFirstMaximum(q, scan);
      var b := BestBy(q, scan);
      var t := scan(xs[n]);
      forall j | 0 <= j < n ensures xs[j] == q[j] { }
      if Better(t.0, |t.1|, b.0, |b.1|) {
        forall j | 0 <= j < n
          ensures Better(t.0, |t.1|, scan(xs[j]).0, |scan(xs[j]).1|)
        {
          assert !Better(scan(q[j]).0, |scan(q[j]).1|, b.0, |b.1|);
        }
      } else {
        assert q != [];
        var i :| 0 <= i < |q| && b.0 == scan(q[i]).0 && b.1 == scan(q[i]).1
                 && forall j :: 0 <= j < i ==> Better(scan(q[i]).0, |scan(q[i]).1|, scan(q[j]).0, |scan(q[j]).1|);
        assert xs[i] == q[i];
      }
    }
  }

  /** No table beats the chosen one, and the chosen one beats every table
      before it: it is the first table with the highest score and, among
      those, the most pairs.  With no table nothing is chosen. */
  lemma BestIsFirstMaximum(tables: seq<seq<Row>>)
    ensures forall j :: 0 <= j < |tables| ==>
              !Better(TableScan(tables[j]).0, |TableScan(tables[j]).1|, BestOf(tables).0, |BestOf(tables).1|)
    ensures tables == [] ==> BestOf(tables) == (-1, [])
    ensures tables != [] ==>
              exists i :: 0 <= i < |tables| && BestOf(tables).0 == TableScan(tables[i]).0 && BestOf(tables).1 == TableScan(tables[i]).1
                && forall j :: 0 <= j < i ==> Better(TableScan(tables[i]).0, |TableScan(tables[i]).1|, TableScan(tables[j]).0, |TableScan(tables[j]).1|)
  {
    BestByIsFirstMaximum(tables, TableScan);
  }

  /** The fallback pairs (lines 195-213): labels and values found next to
      each other outside tables, both normalised; an empty label or value is
      skipped. */
  function FallbackPairs(found: seq<(string, string)>): (r: seq<(string, string)>)
    ensures forall e :: e in r ==> e.1 != ""
  {
    if found == [] then []
    else
      var e := found[|found| - 1];
      FallbackPairs(found[..|found| - 1]) + (if e.0 != "" && e.1 != "" then [(TrimColon(e.0), e.1)] else [])
  }

  /** The result of `extract_luoc_do`: the `<h1>` title under "Tiêu đề",
      then the best table's pairs, or the fallback pairs when no table gave
      any. */
  function LuocDo(h1Text: Option<string>, tables: seq<seq<Row>>, found: seq<(string, string)>): Dict<string>
  {
    var result := if h1Text.Some? && h1Text.value != "" then [(TitleKey, h1Text.value)] else [];
    var best := BestOf(tables).1;
    PutAll(result, if best == [] then PutAll([], FallbackPairs(found)) else best)
  }

  /** When a table gave pairs, the result holds exactly those pairs, plus
      the `<h1>` title unless a pair is itself labelled "Tiêu đề". */
  lemma LuocDoFromBestTable(h1Text: Option<string>, tables: seq<seq<Row>>, found: seq<(string, string)>, k: string)
    requires BestOf(tables).1 != []
    ensures var best := BestOf(tables).1;
            Get(LuocDo(h1Text, tables, found), k) ==
              if HasKey(best, k) then Get(best, k)
              else if k == TitleKey && h1Text.Some? && h1Text.value != "" then h1Text
              else None
  {
    var best := BestOf(tables).1;
    BestIsFirstMaximum(tables);
    var i :| 0 <= i < |tables| && best == TableScan(tables[i]).1;
    TablePairsWellFormed(tables[i]);
    var result := if h1Text.Some? && h1Text.value != "" then [(TitleKey, h1Text.value)] else [];
    PutAllGet(result, best, k);
    if !HasKey(best, k) && k == TitleKey && h1Text.Some? && h1Text.value != "" {
      IndexOfKeyIs(result, k, 0);
    }
  }
}
