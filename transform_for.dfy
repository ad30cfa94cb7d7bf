/** `transform_for_supabase.transform_to_supabase`: like the other
    transforms, but the metadata row names the common `doc_info` fields and
    embeds the whole record, every related document of a non-empty group
    gives a relationship (there is no href filter), and every download link
    gives a file row typed with "doc"-but-not-"docx" checked before "docx". */
module TransformFor {
  import opened Common
  import opened Dates
  import opened Crawled
  import opened FileTypes
  import opened TransformCommon

  datatype MetaRow = MetaRow(
    url: string, soHieu: Option<string>, loaiVanBan: Option<string>, linhVuc: Option<string>,
    noiBanHanh: Option<string>, nguoiKy: Option<string>, ngayBanHanh: Option<string>,
    ngayHieuLuc: Option<string>, ngayDang: Option<string>, soCongBao: Option<string>,
    tinhTrang: Option<string>, rawJson: Item, contentHash: string)
  datatype RelRow = RelRow(sourceUrl: string, targetDocUrl: string, targetText: string, relationshipType: string)
  datatype FileRow = FileRow(sourceUrl: string, fileType: string, fileUrl: string, fileName: string)
  datatype Output = Output(docMetadata: seq<MetaRow>, relationships: seq<RelRow>, docFiles: seq<FileRow>)

  function MetaOf(item: Item, hash: Dict<string> -> string): (m: MetaRow)
    requires Transformable(item)
    ensures m.url == item.url.value && m.rawJson == item && m.contentHash == hash(item.docInfo)
    ensures m.ngayBanHanh == ParseDateSplit(Get(item.docInfo, "Ngày ban hành"))
  {
    var d := item.docInfo;
    MetaRow(item.url.value, Get(d, "Số hiệu"), Get(d, "Loại văn bản"), Get(d, "Lĩnh vực, ngành"),
            Get(d, "Nơi ban hành"), Get(d, "Người ký"), ParseDateSplit(Get(d, "Ngày ban hành")),
            ParseDateSplit(Get(d, "Ngày hiệu lực")), ParseDateSplit(Get(d, "Ngày đăng")),
            Get(d, "Số công báo"), Get(d, "Tình trạng"), item, hash(d))
  }

  function RelRows(url: string, entries: seq<(string, Link)>): (r: seq<RelRow>)
    ensures |r| == |entries|
    ensures forall i :: 0 <= i < |entries| ==> r[i] == RelRow(url, entries[i].1.href, entries[i].1.text, entries[i].0)
  {
    seq(|entries|, i requires 0 <= i < |entries| => RelRow(url, entries[i].1.href, entries[i].1.text, entries[i].0))
  }

  function FileRows(url: string, links: seq<Link>): (r: seq<FileRow>)
    ensures |r| == |links|
    ensures forall i :: 0 <= i < |links| ==> r[i] == FileRow(url, DocFirstFileType(links[i].text), links[i].href, links[i].text)
  {
    seq(|links|, i requires 0 <= i < |links| => FileRow(url, DocFirstFileType(links[i].text), links[i].href, links[i].text))
  }

  function ItemOutput(item: Item, hash: Dict<string> -> string): Output
  {
    if !Transformable(item) then Output([], [], [])
    else
      var url := item.url.value;
      Output([MetaOf(item, hash)], RelRows(url, Entries(item.tab4.relations, false)), FileRows(url, item.tab8Links))
  }

  function Transform(items: seq<Item>, hash: Dict<string> -> string): Output
  {
    if items == [] then Output([], [], [])
    else
      var a := Transform(items[..|items| - 1], hash);
      var b := ItemOutput(items[|items| - 1], hash);
      Output(a.docMetadata + b.docMetadata, a.relationships + b.relationships, a.docFiles + b.docFiles)
  }

  /** The inner loop over the download links (lines 85-104). */
  method AppendFiles(files: seq<FileRow>, url: string, links: seq<Link>) returns (r: seq<FileRow>)
    ensures r == files + FileRows(url, links)
  {
    r := files;
    var j := 0;
    while j < |links|
      invariant 0 <= j <= |links|
      invariant r == files + FileRows(url, links[..j])
    {
      var link := links[j];
      var fileText := Lower(link.text);
      var fileType :=
        if Contains(fileText, "pdf") then "pdf"
        else if Contains(fileText, "doc") && !Contains(fileText, "docx") then "doc"
        else if Contains(fileText, "docx") then "docx"
        else "other";
      r := r + [FileRow(url, fileType, link.href, link.text)];
      assert FileRows(url, links[..j + 1]) == FileRows(url, links[..j]) + [FileRow(url, fileType, link.href, link.text)];
      j := j + 1;
    }
    assert links[..j] == links;
  }

  /** Lines 27-106. */
  method TransformToSupabase(crawledData: seq<Item>, hash: Dict<string> -> string) returns (result: Output)
    ensures result == Transform(crawledData, hash)
  {
    result := Output([], [], []);
    var k := 0;
    while k < |crawledData|
      invariant 0 <= k <= |crawledData|
      invariant result == Transform(crawledData[..k], hash)
    {
      assert crawledData[..k + 1][..k] == crawledData[..k];
      var item := crawledData[k];
      if Transformable(item) {
        var url := item.url.value;
        var entries := RelationEntries(item.tab4.relations, false);
        var files := AppendFiles(result.docFiles, url, item.tab8Links);
        result := Output(result.docMetadata + [MetaOf(item, hash)], result.relationships + RelRows(url, entries), files);
      }
      k := k + 1;
    }
    assert crawledData[..k] == crawledData;
  }

  function CountTransformable(items: seq<Item>): nat {
    if items == [] then 0
    else CountTransformable(items[..|items| - 1]) + (if Transformable(items[|items| - 1]) then 1 else 0)
  }

  /** One metadata row per record with a URL and a non-empty `doc_info`. */
  lemma {:induction false} MetadataPerItem(items: seq<Item>, hash: Dict<string> -> string)
    ensures |Transform(items, hash).docMetadata| == CountTransformable(items)
  {
    if items != [] {
      MetadataPerItem(items[..|items| - 1], hash);
    }
  }

  /** One relationship per related document, each under its group's
      normalised title, and one file row per download link typed as
      `DocFirstFileType`, which agrees with the standard precedence. */
  lemma ItemRowCounts(item: Item, hash: Dict<string> -> string)
    requires Transformable(item)
    ensures var o := ItemOutput(item, hash);
            && |o.relationships| == RelationCount(item.tab4.relations)
            && (forall g, l :: g in item.tab4.relations && l in g.1 ==>
                  RelRow(item.url.value, l.href, l.text, NormalizeType(g.0)) in o.relationships)
            && |o.docFiles| == |item.tab8Links|
            && (forall i :: 0 <= i < |item.tab8Links| ==> o.docFiles[i].fileType == StandardFileType(item.tab8Links[i].text))
  {
    var url := item.url.value;
    var entries := Entries(item.tab4.relations, false);
    var rels := RelRows(url, entries);
    EntriesComplete(item.tab4.relations, false);
    forall g, l | g in item.tab4.relations && l in g.1
      ensures RelRow(url, l.href, l.text, NormalizeType(g.0)) in rels
    {
      EntryVisited(item.tab4.relations, false, g, l);
      var i :| 0 <= i < |entries| && entries[i] == (NormalizeType(g.0), l);
      assert rels[i] == RelRow(url, l.href, l.text, NormalizeType(g.0));
    }
    forall i | 0 <= i < |item.tab8Links|
      ensures ItemOutput(item, hash).docFiles[i].fileType == StandardFileType(item.tab8Links[i].text)
    {
      DocFirstAgrees(item.tab8Links[i].text);
    }
  }
}
