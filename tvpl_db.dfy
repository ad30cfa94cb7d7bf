/** `TVPLDatabase.save_document`, the PostgreSQL store: the final row is
    upserted on every call, a version (holding the whole record) is inserted
    only when the hash of the whole record changed, and then the relation rows
    are replaced.  The writes run in one transaction: any exception rolls
    them all back.  Whether a statement raises is a parameter. */
module TvplDb {
  import opened Common
  import opened Dates
  import opened DocId
  import opened Crawled
  import opened VersionDiff

  datatype DbFinal = DbFinal(
    title: string, url: string, hash: string, updateDate: Option<Date>,
    effectiveDate: Option<Date>, metadata: Dict<string>, downloadLink: string)

  datatype DbVersion = DbVersion(
    docId: string, versionHash: string, content: Item, sessionId: Option<nat>,
    diff: Option<DiffSummary>, snapshotDate: Option<Date>)

  datatype DbState = DbState(finals: map<string, DbFinal>, versions: seq<DbVersion>, relations: seq<RelationRow>)

  /** What a call ends with: the early return without an id (which returns
      nothing), a committed save and its change flag, or a rolled-back
      transaction whose exception is re-raised. */
  datatype Outcome = NoDocId | Saved(changed: bool) | RolledBack

  /** `_parse_date`: empty gives `None`, otherwise `strptime("%d/%m/%Y")`,
      `None` when that fails. */
  function ParseDateDb(s: Option<string>): (r: Option<Date>)
    ensures !Truthy(s) ==> r.None?
    ensures Truthy(s) ==> r == Strptime(s.value)
  {
    if Truthy(s) then Strptime(s.value) else None
  }

  /** A site date parses to itself. */
  lemma ParseDateDbDmy(d: Date)
    requires ValidDate(d)
    ensures ParseDateDb(Some(Dmy(d))) == Some(d)
  {
    StrptimeDmy(d);
  }

  /** `doc_info.so_hieu or "Untitled"`. */
  function DbTitle(data: Item): (t: string)
    ensures t != ""
  {
    var soHieu := Get(data.docInfo, "so_hieu").GetOr("");
    if soHieu != "" then soHieu else "Untitled"
  }

  /** `ORDER BY crawled_at DESC LIMIT 1`: the version crawled last, which is
      the last one inserted, as `crawled_at` is set on insertion. */
  function LatestDbVersion(versions: seq<DbVersion>, docId: string): (r: Option<DbVersion>)
    ensures r.Some? ==> r.value in versions && r.value.docId == docId
    ensures r.None? <==> forall i :: 0 <= i < |versions| ==> versions[i].docId != docId
    ensures r.Some? ==> exists i :: 0 <= i < |versions| && versions[i] == r.value &&
                                    forall j :: i < j < |versions| ==> versions[j].docId != docId
  {
    var i := LastWhere(versions, (m: DbVersion) => m.docId == docId);
    if i < 0 then None else Some(versions[i])
  }

  function FinalOf(data: Item, hash: Item -> string): DbFinal {
    DbFinal(DbTitle(data), OrEmpty(data.url), hash(data), ParseDateDb(data.ngayCapNhat),
            ParseDateDb(Get(data.docInfo, "ngay_hieu_luc")), data.docInfo, DownloadLink(data))
  }

  /** The committed writes for a record with id `id` (lines 102-188). */
  function Commit(s: DbState, id: string, data: Item, sessionId: Option<nat>, hash: Item -> string): (DbState, bool) {
    var contentHash := hash(data);
    var oldHash := if id in s.finals then Some(s.finals[id].hash) else None;
    var changed := oldHash.None? || oldHash.value != contentHash;
    var finals := s.finals[id := FinalOf(data, hash)];
    if changed then
      var latest := LatestDbVersion(s.versions, id);
      var diff := if Truthy(oldHash) && latest.Some?
                  then Diff(latest.value.content.docInfo, latest.value.content.tab4.relations, data.docInfo, data.tab4.relations)
                  else None;
      var version := DbVersion(id, contentHash, data, sessionId, diff, ParseDateDb(data.ngayCapNhat));
      (DbState(finals, s.versions + [version], WithoutSource(s.relations, id) + RelationRows(id, data.tab4.relations)), true)
    else
      (s.(finals := finals), false)
  }

  /** One call of `save_document`; `raises` says whether some statement of
      the transaction raised. */
  function SaveDb(s: DbState, data: Item, sessionId: Option<nat>, hash: Item -> string, raises: bool): (DbState, Outcome) {
    var docId := SaveDocId(data);
    if docId.None? || docId.value == "" then (s, NoDocId)
    else if raises then (s, RolledBack)
    else
      var (t, changed) := Commit(s, docId.value, data, sessionId, hash);
      (t, Saved(changed))
  }

  class TvplDatabase {
    var finals: map<string, DbFinal>
    var versions: seq<DbVersion>
    var relations: seq<RelationRow>

    function State(): DbState
      reads this
    {
      DbState(finals, versions, relations)
    }

    constructor(init: DbState)
      ensures State() == init
    {
      finals, versions, relations := init.finals, init.versions, init.relations;
    }

    /** Lines 92-194. */
    method SaveDocument(data: Item, sessionId: Option<nat>, hash: Item -> string, raises: bool) returns (outcome: Outcome)
      modifies this
      ensures State() == SaveDb(old(State()), data, sessionId, hash, raises).0
      ensures outcome == SaveDb(old(State()), data, sessionId, hash, raises).1
    {
      var docId := if Truthy(data.url) then Some(SplitDocId(data.url.value)) else None;
      if docId.None? || docId.value == "" {
        return NoDocId;
      }
      var id := docId.value;
      var savedFinals, savedVersions, savedRelations := finals, versions, relations;
      var hasChanged := CommitWrites(id, data, sessionId, hash);
      if raises {
        finals, versions, relations := savedFinals, savedVersions, savedRelations;
        outcome := RolledBack;
      } else {
        outcome := Saved(hasChanged);
      }
    }

    /** Lines 102-188: the writes of the transaction. */
    method CommitWrites(id: string, data: Item, sessionId: Option<nat>, hash: Item -> string) returns (hasChanged: bool)
      modifies this
      ensures State() == Commit(old(State()), id, data, sessionId, hash).0
      ensures hasChanged == Commit(old(State()), id, data, sessionId, hash).1
    {
      var title := DbTitle(data);
      var url := OrEmpty(data.url);
      var updateDate := ParseDateDb(data.ngayCapNhat);
      var effectiveDate := ParseDateDb(Get(data.docInfo, "ngay_hieu_luc"));
      var contentHash := hash(data);
      var oldHash := if id in finals then Some(finals[id].hash) else None;
      hasChanged := oldHash.None? || oldHash.value != contentHash;
      finals := finals[id := DbFinal(title, url, contentHash, updateDate, effectiveDate, data.docInfo, DownloadLink(data))];
      if hasChanged {
        var diffSummary: Option<DiffSummary> := None;
        if Truthy(oldHash) {
          var oldContentRow := LatestDbVersion(versions, id);
          if oldContentRow.Some? {
            var oldData := oldContentRow.value.content;
            diffSummary := ComputeDiff(oldData.docInfo, oldData.tab4.relations, data.docInfo, data.tab4.relations);
          }
        }
        versions := versions + [DbVersion(id, contentHash, data, sessionId, diffSummary, updateDate)];
        relations := WithoutSource(relations, id);
        relations := AppendRelationRows(relations, id, data.tab4.relations);
      }
    }
  }

  // ---------------------------------------------------------------------------
  // Properties

  /** Without an id the call returns before writing anything. */
  lemma NoDocIdWritesNothing(s: DbState, data: Item, sessionId: Option<nat>, hash: Item -> string, raises: bool)
    requires !Truthy(data.url) || SplitDocId(data.url.value) == ""
    ensures SaveDb(s, data, sessionId, hash, raises) == (s, NoDocId)
  {
  }

  /** An exception leaves every table as it was. */
  lemma RollbackKeepsState(s: DbState, data: Item, sessionId: Option<nat>, hash: Item -> string)
    requires Truthy(data.url) && SplitDocId(data.url.value) != ""
    ensures SaveDb(s, data, sessionId, hash, true) == (s, RolledBack)
  {
  }

  /** A committed call reports a change exactly when there was no final row
      or its hash differs from the hash of the whole record. */
  lemma ChangedIffHashDiffers(s: DbState, data: Item, sessionId: Option<nat>, hash: Item -> string)
    requires Truthy(data.url) && SplitDocId(data.url.value) != ""
    ensures var id := SplitDocId(data.url.value);
            SaveDb(s, data, sessionId, hash, false).1 == Saved(id !in s.finals || s.finals[id].hash != hash(data))
  {
  }

  /** Dates play no part in the decision: two records with the same id and
      the same hash get the same answer whatever their update dates. */
  lemma DatesIgnored(s: DbState, a: Item, b: Item, sessionId: Option<nat>, hash: Item -> string)
    requires Truthy(a.url) && SplitDocId(a.url.value) != ""
    requires a.url == b.url && hash(a) == hash(b)
    ensures SaveDb(s, a, sessionId, hash, false).1 == SaveDb(s, b, sessionId, hash, false).1
  {
    ChangedIffHashDiffers(s, a, sessionId, hash);
    ChangedIffHashDiffers(s, b, sessionId, hash);
  }

  /** The final row is rewritten on every committed call, changed or not. */
  lemma FinalAlwaysUpserted(s: DbState, data: Item, sessionId: Option<nat>, hash: Item -> string)
    requires Truthy(data.url) && SplitDocId(data.url.value) != ""
    ensures var id := SplitDocId(data.url.value);
            var t := SaveDb(s, data, sessionId, hash, false).0;
            && t.finals == s.finals[id := t.finals[id]]
            && t.finals[id].hash == hash(data) && t.finals[id].url == data.url.value
            && t.finals[id].title == DbTitle(data)
            && t.finals[id].updateDate == ParseDateDb(data.ngayCapNhat)
  {
  }

  /** A version holding the whole record is appended only on a change, with
      a diff only when a hash was stored; without a change versions and
      relations stay as they were. */
  lemma VersionOnlyWhenChanged(s: DbState, data: Item, sessionId: Option<nat>, hash: Item -> string)
    requires Truthy(data.url) && SplitDocId(data.url.value) != ""
    ensures var id := SplitDocId(data.url.value);
            var (t, outcome) := SaveDb(s, data, sessionId, hash, false);
            && (outcome == Saved(true) ==>
                  t.versions[..|s.versions|] == s.versions && |t.versions| == |s.versions| + 1
                  && t.versions[|s.versions|].content == data
                  && t.versions[|s.versions|].versionHash == hash(data)
                  && (id !in s.finals ==> t.versions[|s.versions|].diff.None?))
            && (outcome == Saved(false) ==> t.versions == s.versions && t.relations == s.relations)
  {
  }

  /** On a change the document's relation rows are replaced and every other
      document's rows stay; each new row is resolved exactly when it has a
      non-empty target id. */
  lemma RelationsReplacedOnChange(s: DbState, data: Item, sessionId: Option<nat>, hash: Item -> string)
    requires Truthy(data.url) && SplitDocId(data.url.value) != ""
    requires SaveDb(s, data, sessionId, hash, false).1 == Saved(true)
    ensures var id := SplitDocId(data.url.value);
            var t := SaveDb(s, data, sessionId, hash, false).0;
            && (forall x :: x in t.relations && x.sourceDocId != id <==> x in s.relations && x.sourceDocId != id)
            && (forall x :: x in t.relations && x.sourceDocId == id <==> x in RelationRows(id, data.tab4.relations))
            && (forall x :: x in t.relations && x.sourceDocId == id ==> (x.resolved <==> Truthy(x.targetDocId)))
  {
    var id := SplitDocId(data.url.value);
    ReplaceRelations(s.relations, id, data.tab4.relations);
    RelationRowsShape(id, data.tab4.relations);
  }

  /** Saving the same record twice: the second call reports no change and
      adds no version. */
  lemma SaveTwiceNoNewVersion(s: DbState, data: Item, sessionId: Option<nat>, hash: Item -> string)
    requires Truthy(data.url) && SplitDocId(data.url.value) != ""
    ensures var t := SaveDb(s, data, sessionId, hash, false).0;
            var (t', outcome') := SaveDb(t, data, sessionId, hash, false);
            outcome' == Saved(false) && t'.versions == t.versions && t'.relations == t.relations
  {
    var t := SaveDb(s, data, sessionId, hash, false).0;
    FinalAlwaysUpserted(s, data, sessionId, hash);
    ChangedIffHashDiffers(t, data, sessionId, hash);
  }
}
