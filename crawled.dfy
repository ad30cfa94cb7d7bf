/** The crawled record of one document, as the crawler writes it and the
    importers and transforms read it, and the relation rows the two
    `save_document` importers derive from it. */
module Crawled {
  import opened Common
  import opened DocId

  /** An anchor: `href` and `text`, each "" when absent. */
  datatype Link = Link(href: string, text: string)

  /** The "tab4" part: related documents grouped by relation title, a count
      per group and a running total.  A record without "tab4" reads as
      `EmptyTab4`. */
  datatype Tab4 = Tab4(relations: Dict<seq<Link>>, summary: Dict<int>, total: int)

  const EmptyTab4 := Tab4([], [], 0)

  /** One crawled record.  Optional strings are `None` when the key is absent
      or null; `tab8Links` are the download links. */
  datatype Item = Item(
    url: Option<string>,
    error: Option<string>,
    title: Option<string>,
    docInfo: Dict<string>,
    tab4: Tab4,
    tab8Links: seq<Link>,
    ngayCapNhat: Option<string>)

  /** The id both `save_document`s derive: `None` without a URL, else the
      split-based id (which may be empty). */
  function SaveDocId(data: Item): (r: Option<string>)
    ensures r.Some? <==> Truthy(data.url)
    ensures r.Some? ==> r.value == SplitDocId(data.url.value)
  {
    if Truthy(data.url) then Some(SplitDocId(data.url.value)) else None
  }

  /** `tab8_links[0].get("href", "")` when there are links, else "". */
  function DownloadLink(data: Item): (r: string)
    ensures data.tab8Links != [] ==> r == data.tab8Links[0].href
    ensures data.tab8Links == [] ==> r == ""
  {
    if data.tab8Links != [] then data.tab8Links[0].href else ""
  }

  /** The number of related documents over all groups. */
  function RelationCount(rels: Dict<seq<Link>>): (n: nat)
    ensures rels == [] ==> n == 0
  {
    if rels == [] then 0 else RelationCount(rels[..|rels| - 1]) + |rels[|rels| - 1].1|
  }

  lemma RelationCountAppend(rels: Dict<seq<Link>>, g: (string, seq<Link>))
    ensures RelationCount(rels + [g]) == RelationCount(rels) + |g.1|
  {
    assert (rels + [g])[..|rels|] == rels;
  }

  // ---------------------------------------------------------------------------
  // Relation rows

  datatype RelationRow = RelationRow(
    sourceDocId: string,
    relationType: string,
    targetDocId: Option<string>,
    targetUrl: string,
    targetTitle: string,
    resolved: bool)

  /** The row for one related document: the target id is the split-based id
      of a non-empty href, and `resolved` says whether that id is non-empty. */
  function RelationRowOf(docId: string, relationType: string, target: Link): (r: RelationRow)
    ensures r.sourceDocId == docId && r.relationType == relationType
    ensures r.targetUrl == target.href && r.targetTitle == target.text
    ensures r.resolved <==> target.href != "" && SplitDocId(target.href) != ""
    ensures r.targetDocId.Some? <==> target.href != ""
  {
    var targetDocId := if target.href != "" then Some(SplitDocId(target.href)) else None;
    RelationRow(docId, relationType, targetDocId, target.href, target.text, Truthy(targetDocId))
  }

  function GroupRows(docId: string, relationType: string, targets: seq<Link>): (rows: seq<RelationRow>)
    ensures |rows| == |targets|
  {
    if targets == [] then []
    else GroupRows(docId, relationType, targets[..|targets| - 1])
         + [RelationRowOf(docId, relationType, targets[|targets| - 1])]
  }

  lemma {:induction false} GroupRowsAt(docId: string, relationType: string, targets: seq<Link>)
    ensures forall i :: 0 <= i < |targets| ==>
              GroupRows(docId, relationType, targets)[i] == RelationRowOf(docId, relationType, targets[i])
  {
    if targets != [] {
      GroupRowsAt(docId, relationType, targets[..|targets| - 1]);
    }
  }

  /** The rows the nested loop inserts, group by group in dictionary order. */
  function RelationRows(docId: string, rels: Dict<seq<Link>>): seq<RelationRow>
  {
    if rels == [] then []
    else
      var g := rels[|rels| - 1];
      RelationRows(docId, rels[..|rels| - 1]) + GroupRows(docId, g.0, g.1)
  }

  /** One row per related document, every row sourced at `docId`, and a row
      resolved exactly when its target id is non-empty. */
  lemma {:induction false} RelationRowsShape(docId: string, rels: Dict<seq<Link>>)
    ensures |RelationRows(docId, rels)| == RelationCount(rels)
    ensures forall r :: r in RelationRows(docId, rels) ==>
              r.sourceDocId == docId && (r.resolved <==> Truthy(r.targetDocId))
  {
    if rels != [] {
      var g := rels[|rels| - 1];
      RelationRowsShape(docId, rels[..|rels| - 1]);
      GroupRowsAt(docId, g.0, g.1);
    }
  }

  lemma RelationRowsPrefix(docId: string, rels: Dict<seq<Link>>, i: nat)
    requires i < |rels|
    ensures RelationRows(docId, rels[..i + 1]) == RelationRows(docId, rels[..i]) + GroupRows(docId, rels[i].0, rels[i].1)
  {
    assert rels[..i + 1][..i] == rels[..i];
  }

  /** The inner loop of both `save_document`s: one row per target of a group. */
  method AppendGroupRows(table: seq<RelationRow>, docId: string, relationType: string, targets: seq<Link>)
    returns (out: seq<RelationRow>)
    ensures out == table + GroupRows(docId, relationType, targets)
  {
    out := table;
    var j := 0;
    while j < |targets|
      invariant 0 <= j <= |targets|
      invariant out == table + GroupRows(docId, relationType, targets[..j])
    {
      var target := targets[j];
      var targetDocId := if target.href != "" then Some(SplitDocId(target.href)) else None;
      var row := RelationRow(docId, relationType, targetDocId, target.href, target.text, Truthy(targetDocId));
      assert row == RelationRowOf(docId, relationType, target);
      assert targets[..j + 1][..j] == targets[..j];
      assert GroupRows(docId, relationType, targets[..j + 1])
          == GroupRows(docId, relationType, targets[..j]) + [row];
      out := out + [row];
      j := j + 1;
    }
    assert targets[..j] == targets;
  }

  /** The outer loop of both `save_document`s, over the groups in order,
      skipping empty ones, appending to the rows of `document_relations`. */
  method AppendRelationRows(table: seq<RelationRow>, docId: string, rels: Dict<seq<Link>>)
    returns (out: seq<RelationRow>)
    ensures out == table + RelationRows(docId, rels)
  {
    out := table;
    var i := 0;
    while i < |rels|
      invariant 0 <= i <= |rels|
      invariant out == table + RelationRows(docId, rels[..i])
    {
      var relationType := rels[i].0;
      var targets := rels[i].1;
      ghost var group := GroupRows(docId, relationType, targets);
      RelationRowsPrefix(docId, rels, i);
      RowsAssoc(table, RelationRows(docId, rels[..i]), group);
      if targets != [] {
        out := AppendGroupRows(out, docId, relationType, targets);
      } else {
        assert group == [];
        assert out + group == out;
      }
      i := i + 1;
    }
    assert rels[..i] == rels;
  }

  lemma RowsAssoc(t: seq<RelationRow>, a: seq<RelationRow>, g: seq<RelationRow>)
    ensures (t + a) + g == t + (a + g)
  {
  }

  /** `delete ... where source_doc_id = docId`. */
  function WithoutSource(table: seq<RelationRow>, docId: string): (r: seq<RelationRow>)
    ensures forall x :: x in r <==> x in table && x.sourceDocId != docId
    ensures |r| <= |table|
  {
    if table == [] then []
    else if table[|table| - 1].sourceDocId == docId then WithoutSource(table[..|table| - 1], docId)
    else WithoutSource(table[..|table| - 1], docId) + [table[|table| - 1]]
  }

  /** Deleting a document's relations and inserting the new ones replaces
      exactly that document's rows and keeps every other row. */
  lemma ReplaceRelations(table: seq<RelationRow>, docId: string, rels: Dict<seq<Link>>)
    ensures var t := WithoutSource(table, docId) + RelationRows(docId, rels);
            && (forall x :: x in t && x.sourceDocId != docId <==> x in table && x.sourceDocId != docId)
            && (forall x :: x in t && x.sourceDocId == docId <==> x in RelationRows(docId, rels))
  {
    RelationRowsShape(docId, rels);
  }
}
