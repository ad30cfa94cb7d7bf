/** `save_document` of the v2 Supabase importer: version tracking on a
    content hash or a later update date, the "smart merge" that keeps the
    previous relations when a re-crawl found none, a diff summary against the
    previous version, and the replacement of the document's relation and file
    rows.  The five tables are fields of `V2Db`; `Save` is the specification
    of one call. */
module ImportV2 {
  import opened Common
  import opened Dates
  import opened DocId
  import opened Crawled
  import opened VersionDiff
  import opened FileTypes

  /** A row of `crawl_url`, the link registry (other columns are not touched
      here and are left out). */
  datatype CrawlUrlRow = CrawlUrlRow(docId: Option<string>, title: Option<string>, status: string, errorMessage: Option<string>)

  /** A row of `document_finals`, keyed on the document id. */
  datatype FinalRow = FinalRow(
    title: string, url: string, hash: string, updateDate: Option<string>,
    metadata: Dict<string>, downloadLink: string, relationsSummary: Dict<int>)

  /** The compact content a version stores. */
  datatype Content = Content(docInfo: Dict<string>, tab4: Tab4)

  datatype VersionRow = VersionRow(
    docId: string, versionHash: string, content: Content, sessionId: nat,
    diff: Option<DiffSummary>, snapshotDate: Option<string>)

  datatype FileRow = FileRow(docId: string, fileName: string, fileType: string, fileUrl: string, downloadStatus: string)

  /** The part of a record the content hash covers. */
  datatype Important = Important(docInfo: Dict<string>, tab4: Tab4, tab8Links: seq<Link>)

  datatype V2State = V2State(
    crawlUrls: map<string, CrawlUrlRow>,
    finals: map<string, FinalRow>,
    versions: seq<VersionRow>,
    relations: seq<RelationRow>,
    files: seq<FileRow>)

  // ---------------------------------------------------------------------------
  // The pieces of one call

  /** `compute_hash` over `doc_info`, `tab4` and `tab8`; the hash itself is a
      parameter. */
  function ContentHash(hash: Important -> string, data: Item): string {
    hash(Important(data.docInfo, data.tab4, data.tab8Links))
  }

  /** Records that agree on `doc_info`, `tab4` and `tab8` hash alike,
      whatever their URL, title, error or date. */
  lemma ContentHashDependsOnly(hash: Important -> string, a: Item, b: Item)
    requires a.docInfo == b.docInfo && a.tab4 == b.tab4 && a.tab8Links == b.tab8Links
    ensures ContentHash(hash, a) == ContentHash(hash, b)
  {
  }

  /** `data.title or doc_info.so_hieu or "Untitled"`. */
  function Title(data: Item): (t: string)
    ensures t != ""
    ensures Truthy(data.title) ==> t == data.title.value
  {
    if Truthy(data.title) then data.title.value
    else
      var soHieu := Get(data.docInfo, "so_hieu").GetOr("");
      if soHieu != "" then soHieu else "Untitled"
  }

  /** Lines 116-120. */
  predicate HasChanged(stored: Option<FinalRow>, contentHash: string, updateDate: Option<string>) {
    || stored.None?
    || stored.value.hash != contentHash
    || (Truthy(updateDate) && Truthy(stored.value.updateDate) && StrLt(stored.value.updateDate.value, updateDate.value))
  }

  /** The newest version of a document (`order('crawled_at', desc).limit(1)`):
      the last one inserted, as `crawled_at` is set on insertion. */
  function LatestVersion(versions: seq<VersionRow>, docId: string): (r: Option<VersionRow>)
    ensures r.Some? ==> r.value in versions && r.value.docId == docId
    ensures r.None? <==> forall i :: 0 <= i < |versions| ==> versions[i].docId != docId
    ensures r.Some? ==> exists i :: 0 <= i < |versions| && versions[i] == r.value &&
                                    forall j :: i < j < |versions| ==> versions[j].docId != docId
  {
    var i := LastWhere(versions, (m: VersionRow) => m.docId == docId);
    if i < 0 then None else Some(versions[i])
  }

  lemma LatestVersionAppend(versions: seq<VersionRow>, v: VersionRow)
    ensures LatestVersion(versions + [v], v.docId) == Some(v)
  {
  }

  /** Lines 122-134: a changed record with a stored hash, whose tab4 total is
      0, takes over the tab4 of the previous version when that one had
      relations. */
  function SmartMerge(data: Item, changed: bool, oldHash: Option<string>, latest: Option<VersionRow>): Item {
    if changed && Truthy(oldHash) && data.tab4.total == 0 && latest.Some? && latest.value.content.tab4.total > 0
    then data.(tab4 := latest.value.content.tab4)
    else data
  }

  function MarkFailed(m: map<string, CrawlUrlRow>, url: string, error: string): (r: map<string, CrawlUrlRow>)
    ensures r.Keys == m.Keys
  {
    if url in m then m[url := m[url].(status := "failed", errorMessage := Some(Take(error, 500)))] else m
  }

  function UpsertCompleted(m: map<string, CrawlUrlRow>, url: string, docId: string, title: string): (r: map<string, CrawlUrlRow>)
    ensures r.Keys == m.Keys + {url}
    ensures r[url].docId == Some(docId) && r[url].title == Some(title) && r[url].status == "completed"
  {
    if url in m then m[url := m[url].(docId := Some(docId), title := Some(title), status := "completed")]
    else m[url := CrawlUrlRow(Some(docId), Some(title), "completed", None)]
  }

  function FileRowOf(docId: string, link: Link): FileRow {
    FileRow(docId, link.text, V2FileType(link.text), link.href, "pending")
  }

  function FileRows(docId: string, links: seq<Link>): (rows: seq<FileRow>)
    ensures |rows| == |links|
  {
    if links == [] then [] else FileRows(docId, links[..|links| - 1]) + [FileRowOf(docId, links[|links| - 1])]
  }

  /** One file row per link, in order, typed by the v2 rule and pending. */
  lemma {:induction false} FileRowsAt(docId: string, links: seq<Link>)
    ensures forall i :: 0 <= i < |links| ==>
              FileRows(docId, links)[i] == FileRow(docId, links[i].text, V2FileType(links[i].text), links[i].href, "pending")
  {
    if links != [] {
      FileRowsAt(docId, links[..|links| - 1]);
    }
  }

  /** `delete ... where doc_id = docId` on `document_files`. */
  function WithoutFiles(files: seq<FileRow>, docId: string): (r: seq<FileRow>)
    ensures forall f :: f in r <==> f in files && f.docId != docId
  {
    if files == [] then []
    else if files[|files| - 1].docId == docId then WithoutFiles(files[..|files| - 1], docId)
    else WithoutFiles(files[..|files| - 1], docId) + [files[|files| - 1]]
  }

  /** The writes of the changed branch (lines 136-227). */
  function WriteChanged(s: V2State, id: string, url: string, title: string, data: Item, merged: Item,
                        contentHash: string, updateDate: Option<string>, sessionId: nat,
                        oldHash: Option<string>, latest: Option<VersionRow>): V2State
  {
    var final := FinalRow(title, url, contentHash, updateDate, data.docInfo, DownloadLink(data), merged.tab4.summary);
    var diff := if Truthy(oldHash) && latest.Some?
                then Diff(latest.value.content.docInfo, latest.value.content.tab4.relations, merged.docInfo, merged.tab4.relations)
                else None;
    var version := VersionRow(id, contentHash, Content(merged.docInfo, merged.tab4), sessionId, diff, updateDate);
    V2State(
      s.crawlUrls,
      s.finals[id := final],
      s.versions + [version],
      WithoutSource(s.relations, id) + RelationRows(id, merged.tab4.relations),
      if merged.tab8Links != [] then WithoutFiles(s.files, id) + FileRows(id, merged.tab8Links) else s.files)
  }

  /** The call after the URL upsert, for a record with a non-empty id. */
  function SaveValid(s1: V2State, id: string, url: string, title: string, data: Item, sessionId: nat,
                     hash: Important -> string): (V2State, bool, Item)
  {
    var updateDate := ParseDateV2(data.ngayCapNhat);
    var contentHash := ContentHash(hash, data);
    var stored := if id in s1.finals then Some(s1.finals[id]) else None;
    var oldHash := if stored.Some? then Some(stored.value.hash) else None;
    var changed := HasChanged(stored, contentHash, updateDate);
    var latest := LatestVersion(s1.versions, id);
    var merged := SmartMerge(data, changed, oldHash, latest);
    if changed then
      (WriteChanged(s1, id, url, title, data, merged, contentHash, updateDate, sessionId, oldHash, latest), true, merged)
    else if id in s1.finals then
      (s1.(finals := s1.finals[id := s1.finals[id].(title := title)]), false, merged)
    else
      (s1, false, merged)
  }

  /** One call of `save_document`: the new tables, the result, and the record
      as the call leaves it (its tab4 may have been merged). */
  function Save(s: V2State, data: Item, sessionId: nat, hash: Important -> string): (V2State, bool, Item) {
    var docId := SaveDocId(data);
    if docId.None? || docId.value == "" then (s, false, data)
    else if Truthy(data.error) then (s.(crawlUrls := MarkFailed(s.crawlUrls, data.url.value, data.error.value)), false, data)
    else
      var title := Title(data);
      var s1 := s.(crawlUrls := UpsertCompleted(s.crawlUrls, data.url.value, docId.value, title));
      SaveValid(s1, docId.value, data.url.value, title, data, sessionId, hash)
  }

  // ---------------------------------------------------------------------------
  // The store

  class V2Db {
    var crawlUrls: map<string, CrawlUrlRow>
    var finals: map<string, FinalRow>
    var versions: seq<VersionRow>
    var relations: seq<RelationRow>
    var files: seq<FileRow>

    function State(): V2State
      reads this
    {
      V2State(crawlUrls, finals, versions, relations, files)
    }

    constructor(init: V2State)
      ensures State() == init
    {
      crawlUrls, finals, versions, relations, files := init.crawlUrls, init.finals, init.versions, init.relations, init.files;
    }

    /** `select hash, update_date ... where doc_id`. */
    function SelectFinal(id: string): (r: Option<FinalRow>)
      reads this
      ensures r.Some? <==> id in finals
      ensures r.Some? ==> r.value == finals[id]
    {
      if id in finals then Some(finals[id]) else None
    }

    /** The newest `document_versions` row of a document. */
    function SelectLatestVersion(id: string): Option<VersionRow>
      reads this
    {
      LatestVersion(versions, id)
    }

    /** The loop of lines 204-227. */
    method InsertFiles(id: string, links: seq<Link>)
      modifies this
      ensures State() == old(State()).(files := old(files) + FileRows(id, links))
    {
      var i := 0;
      while i < |links|
        invariant 0 <= i <= |links|
        invariant State() == old(State()).(files := old(files) + FileRows(id, links[..i]))
      {
        var link := links[i];
        var fileName := link.text;
        var fileType := V2FileType(fileName);
        files := files + [FileRow(id, fileName, fileType, link.href, "pending")];
        assert links[..i + 1][..i] == links[..i];
        i := i + 1;
      }
      assert links[..i] == links;
    }

    /** The changed branch: upsert the final row, insert the version with its
        diff, replace the relation rows and, when there are links, the file
        rows. */
    method WriteNewVersion(id: string, url: string, title: string, data: Item, merged: Item,
                           contentHash: string, updateDate: Option<string>, sessionId: nat, oldHash: Option<string>)
      modifies this
      ensures State() == WriteChanged(old(State()), id, url, title, data, merged, contentHash, updateDate,
                                      sessionId, oldHash, LatestVersion(old(versions), id))
    {
      ghost var latest := LatestVersion(versions, id);
      finals := finals[id := FinalRow(title, url, contentHash, updateDate, data.docInfo, DownloadLink(data), merged.tab4.summary)];
      var diffSummary: Option<DiffSummary> := None;
      if Truthy(oldHash) {
        var oldVersion := SelectLatestVersion(id);
        if oldVersion.Some? {
          var oldContent := oldVersion.value.content;
          diffSummary := ComputeDiff(oldContent.docInfo, oldContent.tab4.relations, merged.docInfo, merged.tab4.relations);
        }
      }
      versions := versions + [VersionRow(id, contentHash, Content(merged.docInfo, merged.tab4), sessionId, diffSummary, updateDate)];
      relations := WithoutSource(relations, id);
      relations := AppendRelationRows(relations, id, merged.tab4.relations);
      if merged.tab8Links != [] {
        files := WithoutFiles(files, id);
        InsertFiles(id, merged.tab8Links);
      }
    }

    /** Lines 66-235. */
    method SaveDocument(data: Item, sessionId: nat, hash: Important -> string) returns (changed: bool, merged: Item)
      modifies this
      ensures (State(), changed, merged) == Save(old(State()), data, sessionId, hash)
    {
      var docId := if Truthy(data.url) then Some(SplitDocId(data.url.value)) else None;
      if docId.None? || docId.value == "" {
        return false, data;
      }
      var url := data.url.value;
      var id := docId.value;
      if Truthy(data.error) {
        crawlUrls := MarkFailed(crawlUrls, url, data.error.value);
        return false, data;
      }
      var title := Title(data);
      crawlUrls := UpsertCompleted(crawlUrls, url, id, title);
      var updateDate := ParseDateV2(data.ngayCapNhat);
      var contentHash := hash(Important(data.docInfo, data.tab4, data.tab8Links));
      var existing := SelectFinal(id);
      var oldHash := if existing.Some? then Some(existing.value.hash) else None;
      changed := HasChanged(existing, contentHash, updateDate);
      merged := data;
      if changed && Truthy(oldHash) && data.tab4.total == 0 {
        var oldVersion := SelectLatestVersion(id);
        if oldVersion.Some? && oldVersion.value.content.tab4.total > 0 {
          merged := data.(tab4 := oldVersion.value.content.tab4);
        }
      }
      if changed {
        WriteNewVersion(id, url, title, data, merged, contentHash, updateDate, sessionId, oldHash);
      } else if id in finals {
        finals := finals[id := finals[id].(title := title)];
      }
    }
  }

  // ---------------------------------------------------------------------------
  // Properties of one call

  /** A record without a URL, or whose URL gives an empty id, writes nothing
      and returns false. */
  lemma SaveWithoutId(s: V2State, data: Item, sessionId: nat, hash: Important -> string)
    requires !Truthy(data.url) || SplitDocId(data.url.value) == ""
    ensures Save(s, data, sessionId, hash) == (s, false, data)
  {
  }

  /** A record carrying an error returns false and only marks its registry
      row (when there is one) as failed with the first 500 characters of the
      error. */
  lemma SaveErrorRecord(s: V2State, data: Item, sessionId: nat, hash: Important -> string)
    requires Truthy(data.url) && SplitDocId(data.url.value) != "" && Truthy(data.error)
    ensures var (t, r, m) := Save(s, data, sessionId, hash);
            && !r && m == data
            && t.finals == s.finals && t.versions == s.versions && t.relations == s.relations && t.files == s.files
            && t.crawlUrls.Keys == s.crawlUrls.Keys
            && (forall u :: u in s.crawlUrls && u != data.url.value ==> t.crawlUrls[u] == s.crawlUrls[u])
            && (data.url.value in s.crawlUrls ==>
                  t.crawlUrls[data.url.value].status == "failed"
                  && t.crawlUrls[data.url.value].errorMessage == Some(Take(data.error.value, 500)))
  {
  }

  /** For a record that is saved, the result is the change rule of lines
      116-120 applied to the stored final row: no row, a different hash, or
      two present dates with the new one later. */
  lemma SaveResultIsChangeRule(s: V2State, data: Item, sessionId: nat, hash: Important -> string)
    requires Truthy(data.url) && SplitDocId(data.url.value) != "" && !Truthy(data.error)
    ensures var id := SplitDocId(data.url.value);
            var u := ParseDateV2(data.ngayCapNhat);
            Save(s, data, sessionId, hash).1 <==>
              || id !in s.finals
              || s.finals[id].hash != ContentHash(hash, data)
              || (Truthy(u) && Truthy(s.finals[id].updateDate) && StrLt(s.finals[id].updateDate.value, u.value))
  {
  }

  /** The registry row of a saved record is completed, with the id and title. */
  lemma SaveRegistersUrl(s: V2State, data: Item, sessionId: nat, hash: Important -> string)
    requires Truthy(data.url) && SplitDocId(data.url.value) != "" && !Truthy(data.error)
    ensures var t := Save(s, data, sessionId, hash).0;
            && data.url.value in t.crawlUrls
            && t.crawlUrls[data.url.value].status == "completed"
            && t.crawlUrls[data.url.value].docId == Some(SplitDocId(data.url.value))
            && t.crawlUrls[data.url.value].title == Some(Title(data))
  {
  }

  /** A changed record appends exactly one version, carrying the hash of the
      record as it arrived, and its final row holds that hash.  An unchanged
      one leaves versions, relations and files alone and only retitles its
      final row. */
  lemma SaveVersioning(s: V2State, data: Item, sessionId: nat, hash: Important -> string)
    requires Truthy(data.url) && SplitDocId(data.url.value) != "" && !Truthy(data.error)
    ensures var id := SplitDocId(data.url.value);
            var (t, changed, merged) := Save(s, data, sessionId, hash);
            && (changed ==>
                  |t.versions| == |s.versions| + 1
                  && t.versions[..|s.versions|] == s.versions
                  && t.versions[|s.versions|].docId == id
                  && t.versions[|s.versions|].versionHash == ContentHash(hash, data)
                  && t.versions[|s.versions|].content == Content(merged.docInfo, merged.tab4)
                  && id in t.finals && t.finals[id].hash == ContentHash(hash, data)
                  && t.finals[id].updateDate == ParseDateV2(data.ngayCapNhat))
            && (!changed ==>
                  t.versions == s.versions && t.relations == s.relations && t.files == s.files
                  && merged == data
                  && id in s.finals && t.finals == s.finals[id := s.finals[id].(title := Title(data))])
  {
  }

  /** A changed record's relation rows are replaced by one row per related
      document of the (merged) tab4; every other document's rows stay. */
  lemma SaveReplacesRelations(s: V2State, data: Item, sessionId: nat, hash: Important -> string)
    requires Truthy(data.url) && SplitDocId(data.url.value) != "" && !Truthy(data.error)
    requires Save(s, data, sessionId, hash).1
    ensures var id := SplitDocId(data.url.value);
            var (t, _, merged) := Save(s, data, sessionId, hash);
            && (forall x :: x in t.relations && x.sourceDocId != id <==> x in s.relations && x.sourceDocId != id)
            && (forall x :: x in t.relations && x.sourceDocId == id <==> x in RelationRows(id, merged.tab4.relations))
  {
    var id := SplitDocId(data.url.value);
    var merged := Save(s, data, sessionId, hash).2;
    ReplaceRelations(s.relations, id, merged.tab4.relations);
  }

  /** A changed record with download links replaces its file rows by one per
      link; without links its old file rows stay. */
  lemma SaveReplacesFiles(s: V2State, data: Item, sessionId: nat, hash: Important -> string)
    requires Truthy(data.url) && SplitDocId(data.url.value) != "" && !Truthy(data.error)
    requires Save(s, data, sessionId, hash).1
    ensures var id := SplitDocId(data.url.value);
            var t := Save(s, data, sessionId, hash).0;
            && (data.tab8Links == [] ==> t.files == s.files)
            && (data.tab8Links != [] ==>
                  (forall f :: f in t.files && f.docId != id <==> f in s.files && f.docId != id)
                  && t.files[|t.files| - |data.tab8Links|..] == FileRows(id, data.tab8Links))
  {
    var id := SplitDocId(data.url.value);
    SaveFiles(s, data, sessionId, hash);
    if data.tab8Links != [] {
      FilesReplaced(s.files, Save(s, data, sessionId, hash).0.files, id, data.tab8Links);
    }
  }

  /** The file rows after a changed record. */
  lemma SaveFiles(s: V2State, data: Item, sessionId: nat, hash: Important -> string)
    requires Truthy(data.url) && SplitDocId(data.url.value) != "" && !Truthy(data.error)
    requires Save(s, data, sessionId, hash).1
    ensures var id := SplitDocId(data.url.value);
            Save(s, data, sessionId, hash).0.files ==
              if data.tab8Links != [] then WithoutFiles(s.files, id) + FileRows(id, data.tab8Links) else s.files
  {
  }

  lemma FilesReplaced(files: seq<FileRow>, files': seq<FileRow>, id: string, links: seq<Link>)
    requires files' == WithoutFiles(files, id) + FileRows(id, links)
    ensures forall f :: f in files' && f.docId != id <==> f in files && f.docId != id
    ensures files'[|files'| - |links|..] == FileRows(id, links)
  {
    var w := WithoutFiles(files, id);
    assert files'[|w|..] == FileRows(id, links);
    forall f | f in FileRows(id, links) ensures f.docId == id {
      FileRowsAt(id, links);
    }
  }

  /** The smart merge replaces tab4, and nothing else, only for a changed
      record that had a stored hash, arrived with a tab4 total of 0, and whose
      previous version had relations; and then it takes that version's tab4. */
  lemma SmartMergeOnlyWhen(s: V2State, data: Item, sessionId: nat, hash: Important -> string)
    requires Truthy(data.url) && SplitDocId(data.url.value) != "" && !Truthy(data.error)
    ensures var id := SplitDocId(data.url.value);
            var (_, changed, merged) := Save(s, data, sessionId, hash);
            var latest := LatestVersion(s.versions, id);
            && merged == data.(tab4 := merged.tab4)
            && (merged != data <==>
                  changed && id in s.finals && s.finals[id].hash != "" && data.tab4.total == 0
                  && latest.Some? && latest.value.content.tab4.total > 0
                  && latest.value.content.tab4 != data.tab4)
            && (merged != data ==> merged.tab4 == latest.value.content.tab4)
  {
  }

  /** The diff summary of a new version is taken against the previous
      version only when a hash was stored; a first version has none. */
  lemma SaveDiff(s: V2State, data: Item, sessionId: nat, hash: Important -> string)
    requires Truthy(data.url) && SplitDocId(data.url.value) != "" && !Truthy(data.error)
    requires Save(s, data, sessionId, hash).1
    ensures var id := SplitDocId(data.url.value);
            var (t, _, merged) := Save(s, data, sessionId, hash);
            var v := t.versions[|t.versions| - 1];
            var latest := LatestVersion(s.versions, id);
            && (id !in s.finals ==> v.diff.None?)
            && (id in s.finals && s.finals[id].hash != "" && latest.Some? ==>
                  v.diff == Diff(latest.value.content.docInfo, latest.value.content.tab4.relations,
                                 merged.docInfo, merged.tab4.relations))
  {
  }

  /** Saving the same record again right away reports no change and adds
      no version. */
  lemma SaveAgainUnchanged(s: V2State, data: Item, sessionId: nat, sessionId': nat, hash: Important -> string)
    requires Truthy(data.url) && SplitDocId(data.url.value) != "" && !Truthy(data.error)
    ensures var t := Save(s, data, sessionId, hash).0;
            var (t', changed', _) := Save(t, data, sessionId', hash);
            !changed' && t'.versions == t.versions && t'.relations == t.relations && t'.files == t.files
  {
    var id := SplitDocId(data.url.value);
    var u := ParseDateV2(data.ngayCapNhat);
    var t := Save(s, data, sessionId, hash).0;
    SaveVersioning(s, data, sessionId, hash);
    SaveResultIsChangeRule(t, data, sessionId', hash);
    if Save(s, data, sessionId, hash).1 {
      if Truthy(u) {
        StrLtIrreflexive(u.value);
      }
    } else {
      SaveResultIsChangeRule(s, data, sessionId, hash);
    }
    SaveVersioning(t, data, sessionId', hash);
  }
}
