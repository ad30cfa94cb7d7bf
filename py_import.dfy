/** The Python import script: `import_document` upserts the registry row,
    reads the latest version, decides and inserts; `main` runs it over a
    batch, counting inserted and skipped documents and swallowing exceptions.
    The only exception the model raises is the `TypeError` of comparing a
    string with a NULL stored date. */
module PyImport {
  import opened Common
  import opened DocMetadataStore
  import N8nImport

  /** The columns `import_document` copies from the document. */
  const PyColumns: seq<string> :=
    ["so_hieu", "loai_van_ban", "linh_vuc", "noi_ban_hanh", "nguoi_ky",
     "ngay_ban_hanh", "ngay_hieu_luc", "tinh_trang", "extra_data"]

  /** Python `d > latest.get('ngay_cap_nhat', '')` for a non-empty `d`: an
      absent column counts as "", a NULL one raises. */
  function PyGreater(d: string, stored: Cell): Result<bool> {
    match stored
    case Missing => Ok(StrLt("", d))
    case Null => Err("TypeError: '>' not supported between 'str' and 'NoneType'")
    case Val(t) => Ok(StrLt(t, d))
  }

  /** The decision at lines 34-48. */
  function Decide(latest: Option<MetaRow>, doc: ImportDoc): Result<bool> {
    if latest.None? then Ok(true)
    else if doc.contentHash != latest.value.contentHash then Ok(true)
    else if Truthy(doc.ngayCapNhat) then PyGreater(doc.ngayCapNhat.value, latest.value.ngayCapNhat)
    else Ok(false)
  }

  /** With no latest version, or a different hash, the document is inserted
      before any date is looked at. */
  lemma NewOrChangedInserted(latest: Option<MetaRow>, doc: ImportDoc)
    requires latest.None? || doc.contentHash != latest.value.contentHash
    ensures Decide(latest, doc) == Ok(true)
  {
  }

  /** With an equal hash, a document is inserted iff it has a date that is
      greater than the stored one, an absent stored date counting as "". */
  lemma SameHashDateRule(latest: MetaRow, doc: ImportDoc)
    requires doc.contentHash == latest.contentHash
    ensures Decide(Some(latest), doc) == Ok(true) <==>
              Truthy(doc.ngayCapNhat)
              && (latest.ngayCapNhat.Missing?
                  || (latest.ngayCapNhat.Val? && StrLt(latest.ngayCapNhat.s, doc.ngayCapNhat.value)))
    ensures !Truthy(doc.ngayCapNhat) ==> Decide(Some(latest), doc) == Ok(false)
  {
    if Truthy(doc.ngayCapNhat) && latest.ngayCapNhat.Missing? {
      assert doc.ngayCapNhat.value[0..0] == [];
    }
  }

  /** Wherever the stored date is a value, or the document has none, the
      script and the n8n node decide alike. */
  lemma AgreesWithN8n(latest: Option<MetaRow>, doc: ImportDoc)
    requires latest.Some? && Truthy(doc.ngayCapNhat) ==> latest.value.ngayCapNhat.Val?
    ensures Decide(latest, doc) == Ok(N8nImport.ShouldInsert(latest, doc))
  {
  }

  function NewRow(id: nat, doc: ImportDoc): MetaRow {
    MetaRow(id, doc.contentHash, Null, Pick(doc.fields, PyColumns))
  }

  /** `import_document`: the new store and the returned flag, or the error. */
  function ImportStep(s: Store, doc: ImportDoc): (Store, Result<bool>) {
    var (s1, id) := Upsert(s, doc.url);
    match Decide(LatestIn(s1.rows, id), doc)
    case Err(e) => (s1, Err(e))
    case Ok(insert) => if insert then (s1.(rows := s1.rows + [NewRow(id, doc)]), Ok(true)) else (s1, Ok(false))
  }

  method ImportDocument(db: MetadataDb, doc: ImportDoc) returns (r: Result<bool>)
    modifies db
    ensures (db.State(), r) == ImportStep(old(db.State()), doc)
  {
    var docUrlId := db.UpsertCrawled(doc.url);
    var latest := db.LatestVersion(docUrlId);
    var shouldInsert := false;
    if latest.None? {
      shouldInsert := true;
    } else {
      var latestData := latest.value;
      if doc.contentHash != latestData.contentHash {
        shouldInsert := true;
      } else if Truthy(doc.ngayCapNhat) {
        var greater := PyGreater(doc.ngayCapNhat.value, latestData.ngayCapNhat);
        if greater.Err? {
          return Err(greater.reason);
        }
        shouldInsert := greater.value;
      }
    }
    if shouldInsert {
      db.InsertRow(NewRow(docUrlId, doc));
      return Ok(true);
    }
    return Ok(false);
  }

  /** `import_document` returns True exactly when it inserted a row; when it
      returns False or raises, only the registry upsert has happened. */
  lemma ReturnsTrueIffInserted(s: Store, doc: ImportDoc)
    ensures var (t, r) := ImportStep(s, doc);
            && (r == Ok(true) <==> |t.rows| == |s.rows| + 1)
            && (r != Ok(true) ==> t == Upsert(s, doc.url).0)
            && t.rows[..|s.rows|] == s.rows
  {
  }

  /** `main`: the store after the batch and the counters `inserted`,
      `skipped`, plus the number of documents that raised. */
  function ImportRun(s: Store, docs: seq<ImportDoc>): (Store, nat, nat, nat)
    decreases |docs|
  {
    if docs == [] then (s, 0, 0, 0)
    else
      var (m, ins, skp, err) := ImportRun(s, docs[..|docs| - 1]);
      Tally(ImportStep(m, docs[|docs| - 1]), ins, skp, err)
  }

  /** The counters after one more document. */
  function Tally(step: (Store, Result<bool>), ins: nat, skp: nat, err: nat): (Store, nat, nat, nat) {
    match step.1
    case Ok(b) => if b then (step.0, ins + 1, skp, err) else (step.0, ins, skp + 1, err)
    case Err(_) => (step.0, ins, skp, err + 1)
  }

  method ImportAll(db: MetadataDb, documents: seq<ImportDoc>) returns (inserted: nat, skipped: nat)
    modifies db
    ensures var (t, ins, skp, _) := ImportRun(old(db.State()), documents);
            db.State() == t && inserted == ins && skipped == skp
  {
    inserted, skipped := 0, 0;
    ghost var failed: nat := 0;
    var i := 0;
    while i < |documents|
      invariant 0 <= i <= |documents|
      invariant ImportRun(old(db.State()), documents[..i]) == (db.State(), inserted, skipped, failed)
    {
      ghost var before := db.State();
      ImportRunStep(old(db.State()), documents, i);
      var r := ImportDocument(db, documents[i]);
      match r {
        case Ok(b) =>
          if b {
            inserted := inserted + 1;
          } else {
            skipped := skipped + 1;
          }
        case Err(_) =>
          failed := failed + 1;
      }
      i := i + 1;
    }
    assert documents[..i] == documents;
  }

  lemma ImportRunStep(s: Store, docs: seq<ImportDoc>, i: int)
    requires 0 <= i < |docs|
    ensures var (m, ins, skp, err) := ImportRun(s, docs[..i]);
            ImportRun(s, docs[..i + 1]) == Tally(ImportStep(m, docs[i]), ins, skp, err)
  {
    assert docs[..i + 1][..i] == docs[..i];
  }

  /** Every document is counted once: inserted, skipped or failed; and the
      inserted count is the number of rows added. */
  lemma {:induction false} ImportCounts(s: Store, docs: seq<ImportDoc>)
    ensures var (t, ins, skp, err) := ImportRun(s, docs);
            && ins + skp + err == |docs|
            && |t.rows| == |s.rows| + ins
            && t.rows[..|s.rows|] == s.rows
  {
    if docs != [] {
      var p := docs[..|docs| - 1];
      ImportCounts(s, p);
      var (m, _, _, _) := ImportRun(s, p);
      ReturnsTrueIffInserted(m, docs[|docs| - 1]);
      var t := ImportRun(s, docs).0;
      assert t.rows[..|m.rows|] == m.rows;
      assert m.rows[..|s.rows|] == s.rows;
    }
  }

  // ---------------------------------------------------------------------------
  // Running a batch twice

  ghost predicate Settled(s: Store, doc: ImportDoc) {
    && doc.url in s.reg.ids
    && doc.url in s.reg.status && s.reg.status[doc.url] == "crawled"
    && Decide(LatestIn(s.rows, s.reg.ids[doc.url]), doc) != Ok(true)
  }

  lemma StepSettles(s: Store, doc: ImportDoc)
    ensures Settled(ImportStep(s, doc).0, doc)
  {
    var (s1, id) := Upsert(s, doc.url);
    LatestAppend(s1.rows, NewRow(id, doc), id);
  }

  lemma StepPreservesSettled(s: Store, doc: ImportDoc, other: ImportDoc)
    requires Valid(s)
    requires other.url != doc.url
    requires Settled(s, other)
    ensures Settled(ImportStep(s, doc).0, other)
  {
    var (s1, id) := Upsert(s, doc.url);
    var oid := s.reg.ids[other.url];
    assert id != oid;
    LatestAppend(s1.rows, NewRow(id, doc), oid);
  }

  lemma StepSettledKeepsStore(s: Store, doc: ImportDoc)
    requires Settled(s, doc)
    ensures ImportStep(s, doc).0 == s
    ensures ImportStep(s, doc).1 != Ok(true)
  {
    assert s.reg.status[doc.url := "crawled"] == s.reg.status;
    assert s.reg.(status := s.reg.status[doc.url := "crawled"]) == s.reg;
  }

  /** A step changes the registry only by the upsert of the document's URL. */
  lemma StepKeepsRegistry(s: Store, doc: ImportDoc)
    ensures ImportStep(s, doc).0.reg == Upsert(s, doc.url).0.reg
  {
  }

  lemma {:induction false} ImportValid(s: Store, docs: seq<ImportDoc>)
    requires Valid(s)
    ensures Valid(ImportRun(s, docs).0)
  {
    if docs != [] {
      var p := docs[..|docs| - 1];
      ImportValid(s, p);
      var (m, ins, skp, err) := ImportRun(s, p);
      StepKeepsRegistry(m, docs[|docs| - 1]);
    }
  }

  lemma {:induction false} ImportSettles(s: Store, docs: seq<ImportDoc>)
    requires Valid(s)
    requires DistinctUrls(docs)
    ensures forall d :: d in docs ==> Settled(ImportRun(s, docs).0, d)
  {
    if docs != [] {
      var p := docs[..|docs| - 1];
      var last := docs[|docs| - 1];
      ImportSettles(s, p);
      ImportValid(s, p);
      var m := ImportRun(s, p).0;
      assert ImportRun(s, docs).0 == ImportStep(m, last).0;
      StepSettles(m, last);
      forall d | d in docs ensures Settled(ImportRun(s, docs).0, d) {
        if d != last {
          var k :| 0 <= k < |docs| && docs[k] == d;
          assert d in p;
          StepPreservesSettled(m, last, d);
        }
      }
    }
  }

  lemma TallyKeepsInserted(step: (Store, Result<bool>), ins: nat, skp: nat, err: nat)
    requires step.1 != Ok(true)
    ensures Tally(step, ins, skp, err).0 == step.0 && Tally(step, ins, skp, err).1 == ins
  {
  }

  lemma {:induction false} ImportSettledKeepsStore(s: Store, docs: seq<ImportDoc>)
    requires forall d :: d in docs ==> Settled(s, d)
    ensures ImportRun(s, docs).0 == s
    ensures ImportRun(s, docs).1 == 0
  {
    if docs != [] {
      var p := docs[..|docs| - 1];
      var last := docs[|docs| - 1];
      assert forall d :: d in p ==> d in docs;
      ImportSettledKeepsStore(s, p);
      StepSettledKeepsStore(s, last);
      var (m, ins, skp, err) := ImportRun(s, p);
      assert m == s && ins == 0;
      TallyKeepsInserted(ImportStep(s, last), ins, skp, err);
    }
  }

  /** A second run of `main` over the same batch inserts nothing and leaves
      the store as the first run left it. */
  lemma RerunInsertsNothing(s: Store, docs: seq<ImportDoc>)
    requires Valid(s)
    requires DistinctUrls(docs)
    ensures var first := ImportRun(s, docs).0;
            ImportRun(first, docs).0 == first && ImportRun(first, docs).1 == 0
  {
    ImportSettles(s, docs);
    ImportSettledKeepsStore(ImportRun(s, docs).0, docs);
  }

  /** After its step, a document's URL has a latest version carrying the
      document's hash: the row just inserted, or the one it matched. */
  lemma StepLeavesOwnHash(s: Store, doc: ImportDoc)
    ensures var t := ImportStep(s, doc).0;
            doc.url in t.reg.ids &&
            var latest := LatestIn(t.rows, t.reg.ids[doc.url]);
            latest.Some? && latest.value.contentHash == doc.contentHash
  {
    var (s1, id) := Upsert(s, doc.url);
    LatestAppend(s1.rows, NewRow(id, doc), id);
  }

  /** Two documents with the same URL and different hashes: the second is
      inserted right after the first. */
  lemma SameUrlNewHashInserted(s: Store, a: ImportDoc, b: ImportDoc)
    requires a.url == b.url && a.contentHash != b.contentHash
    ensures ImportStep(ImportStep(s, a).0, b).1 == Ok(true)
  {
    StepLeavesOwnHash(s, a);
  }

  /** Without distinct URLs a second run inserts again: a batch holding one
      URL twice with different hashes has both documents inserted anew. */
  lemma DuplicateUrlReinserted(s: Store, a: ImportDoc, b: ImportDoc)
    requires a.url == b.url && a.contentHash != b.contentHash
    ensures ImportRun(ImportRun(s, [a, b]).0, [a, b]).1 == 2
  {
    var once := ImportRun(s, [a, b]).0;
    assert [a, b][..1] == [a];
    assert ImportRun(s, [a]).0 == ImportStep(s, a).0;
    assert once == ImportStep(ImportStep(s, a).0, b).0;
    var first := ImportStep(once, a);
    assert ImportRun(once, [a]) == Tally(first, 0, 0, 0);
    SameUrlNewHashInserted(ImportStep(s, a).0, b, a);
    SameUrlNewHashInserted(once, a, b);
  }

  /** Because the inserted row leaves `ngay_cap_nhat` NULL, importing a dated
      document again right after it was inserted raises instead of skipping. */
  lemma RerunOfDatedDocumentRaises(s: Store, doc: ImportDoc)
    requires Truthy(doc.ngayCapNhat)
    requires ImportStep(s, doc).1 == Ok(true)
    ensures ImportStep(ImportStep(s, doc).0, doc).1.Err?
  {
    var (s1, id) := Upsert(s, doc.url);
    LatestAppend(s1.rows, NewRow(id, doc), id);
  }
}
