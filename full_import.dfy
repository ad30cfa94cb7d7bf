/** The migration script that imports metadata, relationships and files.
    Store calls that can fail (network, constraint violations) are given as a
    fault per record; missing dictionary keys raise `KeyError` as in Python.
    `import_metadata` uses the hash alone to decide on a new version and
    caches, per URL, the id of that URL's latest metadata row. */
module FullImport {
  import opened Common
  import opened DocMetadataStore

  /** Which store call of a record's processing raises, if any. */
  datatype Fault = NoFault | FailUpsert | FailSelect | FailInsert | FailCacheSelect

  /** One `doc_metadata` entry of the input; keys may be missing. */
  datatype MetaDoc = MetaDoc(url: Option<string>, contentHash: Option<string>, docId: Json, conHieuLuc: Json, extraData: Json)

  /** A `doc_metadata` row with its own id. */
  datatype FullRow = FullRow(id: nat, docUrlId: nat, contentHash: string, docId: Json, conHieuLuc: Json, extraData: Json)

  datatype FullStore = FullStore(reg: Registry, rows: seq<FullRow>, nextRowId: nat)

  /** What `import_metadata` carries from one document to the next. */
  datatype MetaAcc = MetaAcc(store: FullStore, inserted: nat, skipped: nat, cache: map<string, nat>)

  /** The query at lines 31-36: the URL's newest row. The database numbers
      versions in insertion order, so the highest version is the last row
      inserted for the URL. */
  function LatestRow(rows: seq<FullRow>, docUrlId: nat): (r: Option<FullRow>)
    ensures r.Some? ==> r.value in rows && r.value.docUrlId == docUrlId
    ensures r.None? <==> forall i :: 0 <= i < |rows| ==> rows[i].docUrlId != docUrlId
    ensures r.Some? ==> exists i :: 0 <= i < |rows| && rows[i] == r.value &&
                                    forall j :: i < j < |rows| ==> rows[j].docUrlId != docUrlId
  {
    var i := LastWhere(rows, (m: FullRow) => m.docUrlId == docUrlId);
    if i < 0 then None else Some(rows[i])
  }

  lemma LatestRowAppend(rows: seq<FullRow>, row: FullRow, docUrlId: nat)
    ensures LatestRow(rows + [row], docUrlId) == if row.docUrlId == docUrlId then Some(row) else LatestRow(rows, docUrlId)
  {
    LastWhereAppend(rows, row, (m: FullRow) => m.docUrlId == docUrlId);
  }

  /** The decision at line 39: a new version iff there is none yet or the
      hash differs. No date takes part. */
  predicate HashChanged(latest: Option<FullRow>, hash: string) {
    latest.None? || latest.value.contentHash != hash
  }

  /** One iteration of the loop at lines 20-60. */
  function MetaStep(acc: MetaAcc, doc: MetaDoc, fault: Fault): (r: MetaAcc)
    ensures r.inserted + r.skipped <= acc.inserted + acc.skipped + 1
    ensures r.inserted >= acc.inserted && r.skipped >= acc.skipped
  {
    if doc.url.None? || fault == FailUpsert then acc
    else
      var url := doc.url.value;
      var (reg, docUrlId) := UpsertUrl(acc.store.reg, url, "crawled");
      var s1 := acc.store.(reg := reg);
      if fault == FailSelect then acc.(store := s1)
      else
        var latest := LatestRow(s1.rows, docUrlId);
        if doc.contentHash.None? then acc.(store := s1)
        else if HashChanged(latest, doc.contentHash.value) then
          if fault == FailInsert then acc.(store := s1)
          else
            var row := FullRow(s1.nextRowId, docUrlId, doc.contentHash.value, doc.docId, doc.conHieuLuc, doc.extraData);
            var s2 := s1.(rows := s1.rows + [row], nextRowId := s1.nextRowId + 1);
            if fault == FailCacheSelect then MetaAcc(s2, acc.inserted + 1, acc.skipped, acc.cache)
            else MetaAcc(s2, acc.inserted + 1, acc.skipped, acc.cache[url := row.id])
        else
          if fault == FailCacheSelect then MetaAcc(s1, acc.inserted, acc.skipped + 1, acc.cache)
          else MetaAcc(s1, acc.inserted, acc.skipped + 1, acc.cache[url := latest.value.id])
  }

  function MetaRun(acc: MetaAcc, docs: seq<MetaDoc>, faults: seq<Fault>): MetaAcc
    requires |faults| == |docs|
    decreases |docs|
  {
    if docs == [] then acc
    else MetaStep(MetaRun(acc, docs[..|docs| - 1], faults[..|docs| - 1]), docs[|docs| - 1], faults[|docs| - 1])
  }

  /** `import_metadata`: returns `inserted`, `skipped` and the URL → metadata id cache. */
  method ImportMetadata(store: FullStore, metadataList: seq<MetaDoc>, faults: seq<Fault>)
      returns (store': FullStore, inserted: nat, skipped: nat, urlToMetadataId: map<string, nat>)
    requires |faults| == |metadataList|
    ensures MetaAcc(store', inserted, skipped, urlToMetadataId) == MetaRun(MetaAcc(store, 0, 0, map[]), metadataList, faults)
  {
    store', inserted, skipped, urlToMetadataId := store, 0, 0, map[];
    var i := 0;
    while i < |metadataList|
      invariant 0 <= i <= |metadataList|
      invariant MetaAcc(store', inserted, skipped, urlToMetadataId)
                == MetaRun(MetaAcc(store, 0, 0, map[]), metadataList[..i], faults[..i])
    {
      assert metadataList[..i + 1][..i] == metadataList[..i];
      assert faults[..i + 1][..i] == faults[..i];
      var acc := MetaStep(MetaAcc(store', inserted, skipped, urlToMetadataId), metadataList[i], faults[i]);
      store', inserted, skipped, urlToMetadataId := acc.store, acc.inserted, acc.skipped, acc.cache;
      i := i + 1;
    }
    assert metadataList[..i] == metadataList && faults[..i] == faults;
  }

  /** A document processed without an exception increments exactly one
      counter, inserts a row exactly when the hash decides so, and leaves
      its URL cached with the id of its latest row. */
  lemma MetaStepSucceeds(acc: MetaAcc, doc: MetaDoc)
    requires doc.url.Some? && doc.contentHash.Some?
    ensures var r := MetaStep(acc, doc, NoFault);
            var (reg, id) := UpsertUrl(acc.store.reg, doc.url.value, "crawled");
            var changed := HashChanged(LatestRow(acc.store.rows, id), doc.contentHash.value);
            && r.inserted + r.skipped == acc.inserted + acc.skipped + 1
            && (r.inserted == acc.inserted + 1 <==> changed)
            && (changed ==> |r.store.rows| == |acc.store.rows| + 1)
            && (!changed ==> r.store.rows == acc.store.rows)
            && r.cache.Keys == acc.cache.Keys + {doc.url.value}
            && LatestRow(r.store.rows, id).Some?
            && r.cache[doc.url.value] == LatestRow(r.store.rows, id).value.id
  {
    var (reg, id) := UpsertUrl(acc.store.reg, doc.url.value, "crawled");
    var s1 := acc.store.(reg := reg);
    var row := FullRow(s1.nextRowId, id, doc.contentHash.value, doc.docId, doc.conHieuLuc, doc.extraData);
    assert (s1.rows + [row])[|s1.rows|] == row;
  }

  /** An exception raised before the counter update (a missing key, a failed
      upsert or select, a failed insert of a new version) changes neither
      counter nor the cache, and writes no version row. */
  lemma MetaStepEarlyFailure(acc: MetaAcc, doc: MetaDoc, fault: Fault)
    requires || doc.url.None? || doc.contentHash.None? || fault == FailUpsert || fault == FailSelect
             || (fault == FailInsert
                 && HashChanged(LatestRow(acc.store.rows, UpsertUrl(acc.store.reg, doc.url.value, "crawled").1),
                                doc.contentHash.value))
    ensures var r := MetaStep(acc, doc, fault);
            r.inserted == acc.inserted && r.skipped == acc.skipped && r.cache == acc.cache
            && r.store.rows == acc.store.rows
  {
  }

  /** The counters are bumped before the id lookup at lines 49-51 and 55-57,
      so a failure of that lookup leaves a counter incremented and no cache
      entry. */
  lemma MetaStepLateFailure(acc: MetaAcc, doc: MetaDoc)
    requires doc.url.Some? && doc.contentHash.Some?
    ensures var r := MetaStep(acc, doc, FailCacheSelect);
            r.inserted + r.skipped == acc.inserted + acc.skipped + 1 && r.cache == acc.cache
  {
  }

  /** Over a batch: at most one counter step per document, earlier rows kept,
      and every cached URL is a URL of the batch or was cached before. */
  lemma {:induction false} MetaRunBounds(acc: MetaAcc, docs: seq<MetaDoc>, faults: seq<Fault>)
    requires |faults| == |docs|
    ensures var r := MetaRun(acc, docs, faults);
            && r.inserted + r.skipped <= acc.inserted + acc.skipped + |docs|
            && |acc.store.rows| <= |r.store.rows|
            && r.store.rows[..|acc.store.rows|] == acc.store.rows
            && forall u :: u in r.cache ==> u in acc.cache || exists d :: d in docs && d.url == Some(u)
  {
    if docs != [] {
      var n := |docs| - 1;
      MetaRunBounds(acc, docs[..n], faults[..n]);
      var m := MetaRun(acc, docs[..n], faults[..n]);
      var r := MetaStep(m, docs[n], faults[n]);
      assert r.store.rows[..|m.store.rows|] == m.store.rows;
      assert m.store.rows[..|acc.store.rows|] == acc.store.rows;
      forall u | u in r.cache ensures u in acc.cache || exists d :: d in docs && d.url == Some(u) {
        if u !in m.cache {
          assert docs[n].url == Some(u);
        } else if u !in acc.cache {
          var d :| d in docs[..n] && d.url == Some(u);
          assert d in docs;
        }
      }
    }
  }

  // ---------------------------------------------------------------------------
  // import_relationships and import_files

  /** One relationship record; keys may be missing. */
  datatype RelIn = RelIn(sourceUrl: Option<string>, targetDocUrl: Option<string>, relationshipType: Option<string>)

  datatype RelRow = RelRow(sourceDocId: nat, targetDocUrl: string, targetDocId: Option<nat>, relationshipType: string)

  /** Python `cache.get(key)` where the key itself may be None. */
  function CacheGet(cache: map<string, nat>, key: Option<string>): (r: Option<nat>)
    ensures r.Some? <==> key.Some? && key.value in cache
    ensures r.Some? ==> r.value == cache[key.value]
  {
    if key.Some? && key.value in cache then Some(cache[key.value]) else None
  }

  /** The row inserted for a relationship, or `None` when it is counted as an
      error (missing or uncached source, a missing key, a failed insert). */
  function RelOutcome(rel: RelIn, cache: map<string, nat>, insertFails: bool): Option<RelRow> {
    if !Truthy(rel.sourceUrl) || rel.sourceUrl.value !in cache then None
    else if rel.targetDocUrl.None? || rel.relationshipType.None? || insertFails then None
    else Some(RelRow(cache[rel.sourceUrl.value], rel.targetDocUrl.value,
                     CacheGet(cache, rel.targetDocUrl), rel.relationshipType.value))
  }

  function RelRun(rels: seq<RelIn>, cache: map<string, nat>, fails: seq<bool>): seq<RelRow>
    requires |fails| == |rels|
    decreases |rels|
  {
    if rels == [] then []
    else
      var n := |rels| - 1;
      var prev := RelRun(rels[..n], cache, fails[..n]);
      match RelOutcome(rels[n], cache, fails[n])
      case Some(row) => prev + [row]
      case None => prev
  }

  /** `import_relationships`: appends the inserted rows to the table and
      returns their count. */
  method ImportRelationships(table: seq<RelRow>, relationshipsList: seq<RelIn>, urlCache: map<string, nat>, fails: seq<bool>)
      returns (table': seq<RelRow>, inserted: nat)
    requires |fails| == |relationshipsList|
    ensures table' == table + RelRun(relationshipsList, urlCache, fails)
    ensures inserted == |RelRun(relationshipsList, urlCache, fails)|
  {
    table', inserted := table, 0;
    var errors := 0;
    var i := 0;
    while i < |relationshipsList|
      invariant 0 <= i <= |relationshipsList|
      invariant table' == table + RelRun(relationshipsList[..i], urlCache, fails[..i])
      invariant inserted == |RelRun(relationshipsList[..i], urlCache, fails[..i])|
    {
      assert relationshipsList[..i + 1][..i] == relationshipsList[..i];
      assert fails[..i + 1][..i] == fails[..i];
      match RelOutcome(relationshipsList[i], urlCache, fails[i]) {
        case Some(row) =>
          table' := table' + [row];
          inserted := inserted + 1;
        case None =>
          errors := errors + 1;
      }
      i := i + 1;
    }
    assert relationshipsList[..i] == relationshipsList && fails[..i] == fails;
  }

  /** Every inserted relationship comes from a record whose source URL is
      cached, carries that URL's metadata id, and takes the target id from
      the cache when the target URL is cached. */
  lemma {:induction false} RelRunSound(rels: seq<RelIn>, cache: map<string, nat>, fails: seq<bool>)
    requires |fails| == |rels|
    ensures |RelRun(rels, cache, fails)| <= |rels|
    ensures forall row :: row in RelRun(rels, cache, fails) ==>
              exists k :: 0 <= k < |rels| && RelOutcome(rels[k], cache, fails[k]) == Some(row)
  {
    if rels != [] {
      var n := |rels| - 1;
      RelRunSound(rels[..n], cache, fails[..n]);
      forall row | row in RelRun(rels, cache, fails)
        ensures exists k :: 0 <= k < |rels| && RelOutcome(rels[k], cache, fails[k]) == Some(row)
      {
        if row in RelRun(rels[..n], cache, fails[..n]) {
          var k :| 0 <= k < n && RelOutcome(rels[..n][k], cache, fails[..n][k]) == Some(row);
          assert rels[..n][k] == rels[k] && fails[..n][k] == fails[k];
        } else {
          assert RelOutcome(rels[n], cache, fails[n]) == Some(row);
        }
      }
    }
  }

  lemma RelOutcomeMeaning(rel: RelIn, cache: map<string, nat>, insertFails: bool)
    ensures var o := RelOutcome(rel, cache, insertFails);
            && (o.Some? ==> Truthy(rel.sourceUrl) && rel.sourceUrl.value in cache
                            && o.value.sourceDocId == cache[rel.sourceUrl.value]
                            && o.value.targetDocId == CacheGet(cache, rel.targetDocUrl))
            && (!Truthy(rel.sourceUrl) || rel.sourceUrl.value !in cache ==> o.None?)
  {
  }

  /** One file record; keys may be missing. */
  datatype FileIn = FileIn(sourceUrl: Option<string>, fileName: Option<string>, fileType: Option<string>, fileUrl: Option<string>)

  datatype FileRow = FileRow(docMetadataId: nat, fileName: string, fileType: string, localPath: string)

  function FileOutcome(f: FileIn, cache: map<string, nat>, insertFails: bool): (o: Option<FileRow>)
    ensures o.Some? ==> Truthy(f.sourceUrl) && f.sourceUrl.value in cache
                        && o.value.docMetadataId == cache[f.sourceUrl.value]
                        && o.value.localPath == f.fileUrl.GetOr("")
    ensures !Truthy(f.sourceUrl) || f.sourceUrl.value !in cache ==> o.None?
  {
    if !Truthy(f.sourceUrl) || f.sourceUrl.value !in cache then None
    else if f.fileName.None? || f.fileType.None? || insertFails then None
    else Some(FileRow(cache[f.sourceUrl.value], f.fileName.value, f.fileType.value, f.fileUrl.GetOr("")))
  }

  function FileRun(files: seq<FileIn>, cache: map<string, nat>, fails: seq<bool>): (r: seq<FileRow>)
    requires |fails| == |files|
    ensures |r| <= |files|
    decreases |files|
  {
    if files == [] then []
    else
      var n := |files| - 1;
      var prev := FileRun(files[..n], cache, fails[..n]);
      match FileOutcome(files[n], cache, fails[n])
      case Some(row) => prev + [row]
      case None => prev
  }

  /** `import_files`: appends the inserted rows and returns their count. */
  method ImportFiles(table: seq<FileRow>, filesList: seq<FileIn>, urlCache: map<string, nat>, fails: seq<bool>)
      returns (table': seq<FileRow>, inserted: nat)
    requires |fails| == |filesList|
    ensures table' == table + FileRun(filesList, urlCache, fails)
    ensures inserted == |FileRun(filesList, urlCache, fails)|
  {
    table', inserted := table, 0;
    var errors := 0;
    var i := 0;
    while i < |filesList|
      invariant 0 <= i <= |filesList|
      invariant table' == table + FileRun(filesList[..i], urlCache, fails[..i])
      invariant inserted == |FileRun(filesList[..i], urlCache, fails[..i])|
    {
      assert filesList[..i + 1][..i] == filesList[..i];
      assert fails[..i + 1][..i] == fails[..i];
      match FileOutcome(filesList[i], urlCache, fails[i]) {
        case Some(row) =>
          table' := table' + [row];
          inserted := inserted + 1;
        case None =>
          errors := errors + 1;
      }
      i := i + 1;
    }
    assert filesList[..i] == filesList && fails[..i] == fails;
  }

  /** With no failures and every key present, each file whose source is
      cached yields exactly one row. */
  lemma {:induction false} FileRunComplete(files: seq<FileIn>, cache: map<string, nat>, fails: seq<bool>)
    requires |fails| == |files|
    requires forall k :: 0 <= k < |files| ==>
               !fails[k] && files[k].fileName.Some? && files[k].fileType.Some?
               && Truthy(files[k].sourceUrl) && files[k].sourceUrl.value in cache
    ensures |FileRun(files, cache, fails)| == |files|
  {
    if files != [] {
      var n := |files| - 1;
      FileRunComplete(files[..n], cache, fails[..n]);
    }
  }
}
