/** `supabase_transform.transform_to_supabase`: each crawled record with a
    URL and a non-empty `doc_info` gives one metadata row, one relationship
    per related document that has an href, and at most one file row,
    preferring the first link whose text mentions "pdf".  The md5 content
    hash is the opaque parameter `hash`. */
module SupabaseTransform {
  import opened Common
  import opened DocId
  import opened Crawled
  import opened FileTypes
  import opened TransformCommon

  datatype MetaRow = MetaRow(url: string, docId: Option<string>, conHieuLuc: Option<bool>,
                             contentHash: string, extraData: Dict<string>)
  datatype RelRow = RelRow(sourceUrl: string, sourceDocId: Option<string>, targetDocUrl: string,
                           targetDocId: Option<string>, relationshipType: string)
  datatype FileRow = FileRow(sourceUrl: string, sourceDocId: Option<string>, fileUrl: string,
                             fileName: string, fileType: string)
  datatype Output = Output(docMetadata: seq<MetaRow>, relationships: seq<RelRow>, docFiles: seq<FileRow>)

  const StillInForce := "Còn hiệu lực"

  /** `con_hieu_luc`: unknown without a status, else whether the status says
      the document is still in force. */
  function ConHieuLuc(docInfo: Dict<string>): (r: Option<bool>)
    ensures r.None? <==> Get(docInfo, "Tình trạng").GetOr("") == ""
    ensures r == Some(true) <==> Get(docInfo, "Tình trạng").Some? && Contains(Get(docInfo, "Tình trạng").value, StillInForce)
  {
    var tinhTrang := Get(docInfo, "Tình trạng").GetOr("");
    if tinhTrang == "" then None
    else
      assert Contains(tinhTrang, StillInForce) ==> tinhTrang != "";
      Some(Contains(tinhTrang, StillInForce))
  }

  function MetaOf(item: Item, hash: Dict<string> -> string): MetaRow
    requires Transformable(item)
  {
    MetaRow(item.url.value, ExtractDocId(item.url.value), ConHieuLuc(item.docInfo), hash(item.docInfo), item.docInfo)
  }

  function RelRows(url: string, docId: Option<string>, entries: seq<(string, Link)>): (r: seq<RelRow>)
    ensures |r| == |entries|
    ensures forall i :: 0 <= i < |entries| ==>
              r[i] == RelRow(url, docId, entries[i].1.href, ExtractDocId(entries[i].1.href), entries[i].0)
  {
    seq(|entries|, i requires 0 <= i < |entries| =>
      RelRow(url, docId, entries[i].1.href, ExtractDocId(entries[i].1.href), entries[i].0))
  }

  predicate MentionsPdf(l: Link) {
    Contains(Lower(l.text), "pdf")
  }

  /** `next((link for link in links if "pdf" in ...), None)`. */
  function FirstPdf(links: seq<Link>): (r: Option<Link>)
    ensures r.Some? ==> r.value in links && MentionsPdf(r.value)
    ensures r.None? <==> forall l :: l in links ==> !MentionsPdf(l)
  {
    if links == [] then None
    else if MentionsPdf(links[0]) then Some(links[0])
    else FirstPdf(links[1..])
  }

  /** `pdf_link or (links[0] if links else None)`. */
  function SelectedLink(links: seq<Link>): (r: Option<Link>)
    ensures r.None? <==> links == []
  {
    var pdf := FirstPdf(links);
    if pdf.Some? then pdf else if links != [] then Some(links[0]) else None
  }

  function FileRows(url: string, docId: Option<string>, links: seq<Link>): (r: seq<FileRow>)
    ensures |r| <= 1
  {
    var selected := SelectedLink(links);
    if selected.None? then []
    else [FileRow(url, docId, selected.value.href, selected.value.text, StandardFileType(selected.value.text))]
  }

  /** The rows of one record. */
  function ItemOutput(item: Item, hash: Dict<string> -> string): Output
  {
    if !Transformable(item) then Output([], [], [])
    else
      var url := item.url.value;
      var docId := ExtractDocId(url);
      Output([MetaOf(item, hash)], RelRows(url, docId, Entries(item.tab4.relations, true)), FileRows(url, docId, item.tab8Links))
  }

  function Concat(a: Output, b: Output): Output {
    Output(a.docMetadata + b.docMetadata, a.relationships + b.relationships, a.docFiles + b.docFiles)
  }

  /** The three lists after the loop over the records. */
  function Transform(items: seq<Item>, hash: Dict<string> -> string): Output
  {
    if items == [] then Output([], [], [])
    else Concat(Transform(items[..|items| - 1], hash), ItemOutput(items[|items| - 1], hash))
  }

  /** Lines 32-118. */
  method TransformToSupabase(crawledData: seq<Item>, hash: Dict<string> -> string) returns (result: Output)
    ensures result == Transform(crawledData, hash)
  {
    result := Output([], [], []);
    var k := 0;
    while k < |crawledData|
      invariant 0 <= k <= |crawledData|
      invariant result == Transform(crawledData[..k], hash)
    {
      assert crawledData[..k + 1][..k] == crawledData[..k];
      var item := crawledData[k];
      if Transformable(item) {
        var url := item.url.value;
        var docId := ExtractDocId(url);
        var metadata := MetaRow(url, docId, ConHieuLuc(item.docInfo), hash(item.docInfo), item.docInfo);
        var entries := RelationEntries(item.tab4.relations, true);
        var selected := SelectedLink(item.tab8Links);
        var files: seq<FileRow> := [];
        if selected.Some? {
          files := [FileRow(url, docId, selected.value.href, selected.value.text, StandardFileType(selected.value.text))];
        }
        result := Output(result.docMetadata + [metadata], result.relationships + RelRows(url, docId, entries),
                         result.docFiles + files);
      }
      k := k + 1;
    }
    assert crawledData[..k] == crawledData;
  }

  function CountTransformable(items: seq<Item>): nat {
    if items == [] then 0
    else CountTransformable(items[..|items| - 1]) + (if Transformable(items[|items| - 1]) then 1 else 0)
  }

  /** One metadata row per record with a URL and a non-empty `doc_info`, and
      at most one file row per metadata row. */
  lemma {:induction false} TransformCounts(items: seq<Item>, hash: Dict<string> -> string)
    ensures |Transform(items, hash).docMetadata| == CountTransformable(items)
    ensures |Transform(items, hash).docFiles| <= |Transform(items, hash).docMetadata|
  {
    if items != [] {
      TransformCounts(items[..|items| - 1], hash);
    }
  }

  /** Each metadata row carries the record's URL, the id found in it, the
      opaque hash and the whole `doc_info`. */
  lemma MetadataRow(item: Item, hash: Dict<string> -> string)
    requires Transformable(item)
    ensures ItemOutput(item, hash).docMetadata ==
              [MetaRow(item.url.value, ExtractDocId(item.url.value), ConHieuLuc(item.docInfo), hash(item.docInfo), item.docInfo)]
  {
  }

  /** Every relationship of a record has a non-empty target URL, the target
      id found in that URL and a normalised type without spaces, taken from
      a group of the record; every related document with an href gets one. */
  lemma RelationshipsOfItem(item: Item, hash: Dict<string> -> string)
    requires Transformable(item)
    ensures var rels := ItemOutput(item, hash).relationships;
            && (forall r :: r in rels ==>
                  r.targetDocUrl != "" && r.targetDocId == ExtractDocId(r.targetDocUrl)
                  && r.sourceUrl == item.url.value && ' ' !in r.relationshipType
                  && exists g :: g in item.tab4.relations && r.relationshipType == NormalizeType(g.0))
            && (forall g, l :: g in item.tab4.relations && l in g.1 && l.href != "" ==>
                  RelRow(item.url.value, ExtractDocId(item.url.value), l.href, ExtractDocId(l.href), NormalizeType(g.0)) in rels)
  {
    var url := item.url.value;
    var entries := Entries(item.tab4.relations, true);
    var rels := RelRows(url, ExtractDocId(url), entries);
    EntriesSound(item.tab4.relations, true);
    EntriesComplete(item.tab4.relations, true);
    forall r | r in rels
      ensures r.targetDocUrl != "" && r.targetDocId == ExtractDocId(r.targetDocUrl)
              && r.sourceUrl == url && ' ' !in r.relationshipType
              && exists g :: g in item.tab4.relations && r.relationshipType == NormalizeType(g.0)
    {
      var i :| 0 <= i < |rels| && rels[i] == r;
      assert entries[i] in entries;
    }
    forall g, l | g in item.tab4.relations && l in g.1 && l.href != ""
      ensures RelRow(url, ExtractDocId(url), l.href, ExtractDocId(l.href), NormalizeType(g.0)) in rels
    {
      var i :| 0 <= i < |entries| && entries[i] == (NormalizeType(g.0), l);
      assert rels[i] == RelRow(url, ExtractDocId(url), l.href, ExtractDocId(l.href), NormalizeType(g.0));
    }
  }

  /** The file row is the first "pdf" link when there is one (typed "pdf"),
      otherwise the first link, typed by the standard precedence; there is
      none without links. */
  lemma FileSelection(item: Item, hash: Dict<string> -> string)
    requires Transformable(item)
    ensures var files := ItemOutput(item, hash).docFiles;
            var links := item.tab8Links;
            && (links == [] ==> files == [])
            && (FirstPdf(links).Some? ==> |files| == 1 && files[0].fileUrl == FirstPdf(links).value.href && files[0].fileType == "pdf")
            && (links != [] && FirstPdf(links).None? ==>
                  |files| == 1 && files[0].fileUrl == links[0].href && files[0].fileType == StandardFileType(links[0].text))
  {
  }
}
