/** The n8n code node that imports transformed documents: for each document
    it upserts the URL registry row, reads the latest version row, decides
    whether the document is a new version, and inserts the row if so.
    JavaScript comparison semantics are written out: a string compared with
    a NULL column is converted to a number and compared with 0 (module
    `JsNumber`), and with an absent column (`undefined`) it is never greater. */
module N8nImport {
  import opened Common
  import opened DocMetadataStore
  import JsNumber

  /** The columns the insert copies from the document, besides the id and hash. */
  const JsColumns: seq<string> :=
    ["so_hieu", "loai_van_ban", "linh_vuc", "noi_ban_hanh", "nguoi_ky",
     "ngay_ban_hanh", "ngay_hieu_luc", "tinh_trang", "raw_data"]

  /** JavaScript `a > b` for a string `a` and a stored column `b`. */
  predicate JsGreater(a: string, b: Cell) {
    match b
    case Missing => false
    case Null => JsNumber.GreaterThanNull(a)
    case Val(t) => StrLt(t, a)
  }

  /** The decision at lines 34-48. */
  function ShouldInsert(latest: Option<MetaRow>, doc: ImportDoc): bool {
    if latest.None? then true
    else if doc.contentHash != latest.value.contentHash then true
    else Truthy(doc.ngayCapNhat) && JsGreater(doc.ngayCapNhat.value, latest.value.ngayCapNhat)
  }

  /** With no earlier version the document is always inserted. */
  lemma FirstVersionInserted(doc: ImportDoc)
    ensures ShouldInsert(None, doc)
  {
  }

  /** A changed hash inserts whatever the dates say. */
  lemma ChangedHashInserted(latest: MetaRow, doc: ImportDoc)
    requires doc.contentHash != latest.contentHash
    ensures ShouldInsert(Some(latest), doc)
  {
  }

  /** With an equal hash, only a present, strictly later date inserts. */
  lemma SameHashNeedsLaterDate(latest: MetaRow, doc: ImportDoc)
    requires doc.contentHash == latest.contentHash
    ensures ShouldInsert(Some(latest), doc) <==>
              Truthy(doc.ngayCapNhat) && JsGreater(doc.ngayCapNhat.value, latest.ngayCapNhat)
  {
  }

  /** Against a stored date, "later" is plain string order, so an equal
      or earlier date never inserts. */
  lemma SameHashSameOrEarlierDateSkipped(latest: MetaRow, doc: ImportDoc, t: string)
    requires doc.contentHash == latest.contentHash && latest.ngayCapNhat == Val(t)
    requires doc.ngayCapNhat.Some? ==> !StrLt(t, doc.ngayCapNhat.value)
    ensures !ShouldInsert(Some(latest), doc)
  {
  }

  /** The row the insert writes: the upserted id, the incoming hash and the
      copied columns; `ngay_cap_nhat` is not written. */
  function NewRow(id: nat, doc: ImportDoc): MetaRow {
    MetaRow(id, doc.contentHash, Null, Pick(doc.fields, JsColumns))
  }

  /** One iteration of the loop. */
  function Step(s: Store, doc: ImportDoc): Store {
    var (s1, id) := Upsert(s, doc.url);
    if ShouldInsert(LatestIn(s1.rows, id), doc) then s1.(rows := s1.rows + [NewRow(id, doc)]) else s1
  }

  /** The whole loop, over the documents in order. */
  function Run(s: Store, docs: seq<ImportDoc>): Store
    decreases |docs|
  {
    if docs == [] then s else Step(Run(s, docs[..|docs| - 1]), docs[|docs| - 1])
  }

  /** Lines 4-75: the loop, then the input returned unchanged. */
  method ImportDocuments(db: MetadataDb, documents: seq<ImportDoc>) returns (out: seq<ImportDoc>)
    modifies db
    ensures out == documents
    ensures db.State() == Run(old(db.State()), documents)
  {
    var i := 0;
    while i < |documents|
      invariant 0 <= i <= |documents|
      invariant db.State() == Run(old(db.State()), documents[..i])
    {
      RunStep(old(db.State()), documents, i);
      ImportOne(db, documents[i]);
      i := i + 1;
    }
    assert documents[..i] == documents;
    out := documents;
  }

  /** The body of the loop for one document. */
  method ImportOne(db: MetadataDb, doc: ImportDoc)
    modifies db
    ensures db.State() == Step(old(db.State()), doc)
  {
    var docUrlId := db.UpsertCrawled(doc.url);
    var latestVersion := db.LatestVersion(docUrlId);
    var shouldInsert := false;
    if latestVersion.None? {
      shouldInsert := true;
    } else if doc.contentHash != latestVersion.value.contentHash {
      shouldInsert := true;
    } else if Truthy(doc.ngayCapNhat) && JsGreater(doc.ngayCapNhat.value, latestVersion.value.ngayCapNhat) {
      shouldInsert := true;
    }
    if shouldInsert {
      db.InsertRow(NewRow(docUrlId, doc));
    }
  }

  lemma RunStep(s: Store, docs: seq<ImportDoc>, i: int)
    requires 0 <= i < |docs|
    ensures Run(s, docs[..i + 1]) == Step(Run(s, docs[..i]), docs[i])
  {
    assert docs[..i + 1][..i] == docs[..i];
  }

  // ---------------------------------------------------------------------------
  // Properties of one step

  /** A document inserts at most one row, exactly when the decision says so,
      and that row carries the upserted registry id and the incoming hash. */
  lemma StepInsertsAtMostOne(s: Store, doc: ImportDoc)
    ensures var (s1, id) := Upsert(s, doc.url);
            var t := Step(s, doc);
            && (ShouldInsert(LatestIn(s.rows, id), doc) ==>
                  t.rows == s.rows + [t.rows[|s.rows|]]
                  && t.rows[|s.rows|].docUrlId == id
                  && t.rows[|s.rows|].contentHash == doc.contentHash)
            && (!ShouldInsert(LatestIn(s.rows, id), doc) ==> t.rows == s.rows)
  {
  }

  /** The registry keeps one row per URL, whose id never changes. */
  lemma StepKeepsRegistryIds(s: Store, doc: ImportDoc)
    ensures forall u :: u in s.reg.ids ==> u in Step(s, doc).reg.ids && Step(s, doc).reg.ids[u] == s.reg.ids[u]
    ensures Step(s, doc).reg.ids.Keys == s.reg.ids.Keys + {doc.url}
  {
  }

  // ---------------------------------------------------------------------------
  // Properties of the loop

  /** The version table is append-only: earlier rows stay as they were, and
      at most one row is added per document. */
  lemma {:induction false} RunAppendOnly(s: Store, docs: seq<ImportDoc>)
    ensures |s.rows| <= |Run(s, docs).rows| <= |s.rows| + |docs|
    ensures Run(s, docs).rows[..|s.rows|] == s.rows
  {
    if docs != [] {
      var p := docs[..|docs| - 1];
      RunAppendOnly(s, p);
      var m := Run(s, p);
      assert Step(m, docs[|docs| - 1]).rows[..|m.rows|] == m.rows;
      assert m.rows[..|s.rows|] == s.rows;
    }
  }

  lemma {:induction false} RunValid(s: Store, docs: seq<ImportDoc>)
    requires Valid(s)
    ensures Valid(Run(s, docs))
  {
    if docs != [] {
      RunValid(s, docs[..|docs| - 1]);
    }
  }

  /** A document is settled when its URL is registered as crawled and its
      latest version would not be replaced. */
  ghost predicate Settled(s: Store, doc: ImportDoc) {
    && doc.url in s.reg.ids
    && doc.url in s.reg.status && s.reg.status[doc.url] == "crawled"
    && !ShouldInsert(LatestIn(s.rows, s.reg.ids[doc.url]), doc)
  }

  /** A document is settled after its own step unless its date compares
      greater than the NULL the inserted row holds: a date JavaScript reads
      as a positive number, such as "7", " 7", "1.5", "1e3" or "+5". */
  lemma StepSettles(s: Store, doc: ImportDoc)
    requires Valid(s)
    requires !(Truthy(doc.ngayCapNhat) && JsNumber.GreaterThanNull(doc.ngayCapNhat.value))
    ensures Settled(Step(s, doc), doc)
  {
    var (s1, id) := Upsert(s, doc.url);
    if ShouldInsert(LatestIn(s1.rows, id), doc) {
      LatestAppend(s1.rows, NewRow(id, doc), id);
    }
  }

  /** A step for one URL leaves every other URL's settlement alone. */
  lemma StepPreservesSettled(s: Store, doc: ImportDoc, other: ImportDoc)
    requires Valid(s)
    requires other.url != doc.url
    requires Settled(s, other)
    ensures Settled(Step(s, doc), other)
  {
    var (s1, id) := Upsert(s, doc.url);
    var oid := s.reg.ids[other.url];
    assert id != oid;
    if ShouldInsert(LatestIn(s1.rows, id), doc) {
      LatestAppend(s1.rows, NewRow(id, doc), oid);
    }
  }

  /** Re-processing a settled document changes nothing. */
  lemma StepSettledIsNoop(s: Store, doc: ImportDoc)
    requires Settled(s, doc)
    ensures Step(s, doc) == s
  {
    assert s.reg.status[doc.url := "crawled"] == s.reg.status;
    assert s.reg.(status := s.reg.status[doc.url := "crawled"]) == s.reg;
  }

  /** After the loop every processed document is settled. */
  lemma {:induction false} RunSettles(s: Store, docs: seq<ImportDoc>)
    requires Valid(s)
    requires DistinctUrls(docs)
    requires forall d :: d in docs ==> !(Truthy(d.ngayCapNhat) && JsNumber.GreaterThanNull(d.ngayCapNhat.value))
    ensures forall d :: d in docs ==> Settled(Run(s, docs), d)
  {
    if docs != [] {
      var p := docs[..|docs| - 1];
      var last := docs[|docs| - 1];
      RunSettles(s, p);
      RunValid(s, p);
      var m := Run(s, p);
      StepSettles(m, last);
      forall d | d in docs ensures Settled(Run(s, docs), d) {
        if d != last {
          var k :| 0 <= k < |docs| && docs[k] == d;
          assert k < |docs| - 1;
          assert d in p;
          StepPreservesSettled(m, last, d);
        }
      }
    }
  }

  /** Running a loop over settled documents changes nothing. */
  lemma {:induction false} RunSettledIsNoop(s: Store, docs: seq<ImportDoc>)
    requires forall d :: d in docs ==> Settled(s, d)
    ensures Run(s, docs) == s
  {
    if docs != [] {
      var p := docs[..|docs| - 1];
      assert forall d :: d in p ==> d in docs;
      RunSettledIsNoop(s, p);
      StepSettledIsNoop(s, docs[|docs| - 1]);
    }
  }

  /** Importing the same batch twice: the second pass writes nothing, as
      long as URLs are distinct and no date reads as a positive number (which
      compares greater than the NULL date of the row just inserted). */
  lemma RerunIsNoop(s: Store, docs: seq<ImportDoc>)
    requires Valid(s)
    requires DistinctUrls(docs)
    requires forall d :: d in docs ==> !(Truthy(d.ngayCapNhat) && JsNumber.GreaterThanNull(d.ngayCapNhat.value))
    ensures Run(Run(s, docs), docs) == Run(s, docs)
  {
    RunSettles(s, docs);
    RunSettledIsNoop(Run(s, docs), docs);
  }

  /** After its step, a document's URL has a latest version carrying the
      document's hash: the row just inserted, or the one it matched. */
  lemma StepLeavesOwnHash(s: Store, doc: ImportDoc)
    ensures var t := Step(s, doc);
            doc.url in t.reg.ids &&
            var latest := LatestIn(t.rows, t.reg.ids[doc.url]);
            latest.Some? && latest.value.contentHash == doc.contentHash
  {
    var (s1, id) := Upsert(s, doc.url);
    if ShouldInsert(LatestIn(s1.rows, id), doc) {
      LatestAppend(s1.rows, NewRow(id, doc), id);
    }
  }

  /** Two documents with the same URL and different hashes: the second is
      inserted right after the first. */
  lemma SameUrlNewHashInserted(s: Store, a: ImportDoc, b: ImportDoc)
    requires a.url == b.url && a.contentHash != b.contentHash
    ensures |Step(Step(s, a), b).rows| == |Step(s, a).rows| + 1
  {
    StepLeavesOwnHash(s, a);
  }

  /** Without distinct URLs a second run is not a no-op: a batch holding one
      URL twice with different hashes inserts both documents again. */
  lemma DuplicateUrlReinserted(s: Store, a: ImportDoc, b: ImportDoc)
    requires a.url == b.url && a.contentHash != b.contentHash
    ensures var once := Run(s, [a, b]);
            |Run(once, [a, b]).rows| == |once.rows| + 2
  {
    var once := Run(s, [a, b]);
    assert [a, b][..1] == [a];
    assert Run(s, [a]) == Step(s, a);
    assert once == Step(Step(s, a), b);
    assert Run(once, [a]) == Step(once, a);
    assert Run(once, [a, b]) == Step(Step(once, a), b);
    SameUrlNewHashInserted(Step(s, a), b, a);
    SameUrlNewHashInserted(once, a, b);
  }

  /** The exception to the above: once inserted, a document whose date
      reads as a positive number is inserted again on the next pass. */
  lemma NumericDateReinserted(s: Store, doc: ImportDoc)
    requires Truthy(doc.ngayCapNhat) && JsNumber.GreaterThanNull(doc.ngayCapNhat.value)
    requires |Step(s, doc).rows| == |s.rows| + 1
    ensures |Step(Step(s, doc), doc).rows| == |Step(s, doc).rows| + 1
  {
    var (s1, id) := Upsert(s, doc.url);
    if ShouldInsert(LatestIn(s1.rows, id), doc) {
      LatestAppend(s1.rows, NewRow(id, doc), id);
    }
    UpsertUrlIdempotent(s.reg, doc.url, "crawled");
  }
}
