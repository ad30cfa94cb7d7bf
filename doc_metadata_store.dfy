/** The two tables the version importers write: the URL registry
    (`doc_urls`, also reached as `system.crawl_url`), keyed on `url`, and the
    append-only version table `doc_metadata`, whose rows point at a registry
    id.  The store is a class whose fields the import loops update; `State()`
    is its value, against which the loops are specified. */
module DocMetadataStore {
  import opened Common

  /** A stored column as the database client hands it back: absent from the
      returned record, present but NULL, or a value. */
  datatype Cell = Missing | Null | Val(s: string)

  /** One row of `doc_metadata`. `ngayCapNhat` is whatever the row holds;
      the importers never write that column, so their rows hold `Null`. */
  datatype MetaRow = MetaRow(docUrlId: nat, contentHash: string, ngayCapNhat: Cell, columns: Dict<Json>)

  /** One transformed document as the importers receive it. */
  datatype ImportDoc = ImportDoc(url: string, contentHash: string, ngayCapNhat: Option<string>, fields: Dict<Json>)

  /** The URL registry: an id and a status per URL, and the next fresh id. */
  datatype Registry = Registry(ids: map<string, nat>, status: map<string, string>, nextId: nat)

  datatype Store = Store(reg: Registry, rows: seq<MetaRow>)

  /** Registry ids are distinct and below the next fresh id; every registered
      URL has a status. */
  ghost predicate ValidRegistry(r: Registry) {
    && r.status.Keys == r.ids.Keys
    && (forall u :: u in r.ids ==> r.ids[u] < r.nextId)
    && (forall u, v :: u in r.ids && v in r.ids && u != v ==> r.ids[u] != r.ids[v])
  }

  ghost predicate Valid(s: Store) {
    ValidRegistry(s.reg)
  }

  /** Upsert of `{url, status}` on conflict `url`, returning the row id: an
      existing URL keeps its id, a new one gets the next id. */
  function UpsertUrl(r: Registry, url: string, status: string): (res: (Registry, nat))
    ensures url in res.0.ids && res.0.ids[url] == res.1
    ensures url in res.0.status && res.0.status[url] == status
    ensures url in r.ids ==> res.1 == r.ids[url] && res.0.ids == r.ids
    ensures url !in r.ids ==> res.1 == r.nextId && res.0.ids == r.ids[url := r.nextId]
    ensures forall u :: u != url && u in r.status ==> u in res.0.status && res.0.status[u] == r.status[u]
    ensures ValidRegistry(r) ==> ValidRegistry(res.0)
  {
    if url in r.ids then
      (r.(status := r.status[url := status]), r.ids[url])
    else
      (Registry(r.ids[url := r.nextId], r.status[url := status], r.nextId + 1), r.nextId)
  }

  /** Upserting the same URL twice is the same as upserting it once. */
  lemma UpsertUrlIdempotent(r: Registry, url: string, status: string)
    ensures UpsertUrl(UpsertUrl(r, url, status).0, url, status) == UpsertUrl(r, url, status)
  {
    var r1 := UpsertUrl(r, url, status).0;
    assert r1.status[url := status] == r1.status;
  }

  /** The importers' upsert of `{url, status: 'crawled'}`. */
  function Upsert(s: Store, url: string): (res: (Store, nat))
    ensures res.0.rows == s.rows
    ensures url in res.0.reg.ids && res.0.reg.ids[url] == res.1
    ensures url in res.0.reg.status && res.0.reg.status[url] == "crawled"
  {
    var (reg, id) := UpsertUrl(s.reg, url, "crawled");
    (s.(reg := reg), id)
  }

  /** The latest version row of a registry id: the most recently inserted
      one.  The database numbers versions in insertion order, so this is the
      row `order('version', desc).limit(1)` selects. */
  function LatestIn(rows: seq<MetaRow>, id: nat): (r: Option<MetaRow>)
    ensures r.Some? ==> r.value in rows && r.value.docUrlId == id
    ensures r.None? <==> forall i :: 0 <= i < |rows| ==> rows[i].docUrlId != id
    ensures r.Some? ==> exists i :: 0 <= i < |rows| && rows[i] == r.value &&
                                    forall j :: i < j < |rows| ==> rows[j].docUrlId != id
  {
    var i := LastWhere(rows, (m: MetaRow) => m.docUrlId == id);
    if i < 0 then None else Some(rows[i])
  }

  lemma LatestAppend(rows: seq<MetaRow>, row: MetaRow, id: nat)
    ensures LatestIn(rows + [row], id) == if row.docUrlId == id then Some(row) else LatestIn(rows, id)
  {
    LastWhereAppend(rows, row, (m: MetaRow) => m.docUrlId == id);
  }

  /** No URL occurs twice in a batch. */
  predicate DistinctUrls(docs: seq<ImportDoc>) {
    forall i, j :: 0 <= i < j < |docs| ==> docs[i].url != docs[j].url
  }

  /** Python `d.get(k)` for each named column, in order. */
  function Pick(fields: Dict<Json>, names: seq<string>): (r: Dict<Json>)
    ensures Keys(r) == names
    ensures forall i :: 0 <= i < |names| ==> r[i].1 == JGet(fields, names[i], JNull)
  {
    seq(|names|, i requires 0 <= i < |names| => (names[i], JGet(fields, names[i], JNull)))
  }

  class MetadataDb {
    var registry: Registry
    var rows: seq<MetaRow>

    function State(): Store
      reads this
    {
      Store(registry, rows)
    }

    constructor(init: Store)
      ensures State() == init
    {
      registry := init.reg;
      rows := init.rows;
    }

    /** The upsert of `{url, status: 'crawled'}` into the registry. */
    method UpsertCrawled(url: string) returns (id: nat)
      modifies this
      ensures (State(), id) == Upsert(old(State()), url)
    {
      if url in registry.ids {
        id := registry.ids[url];
        registry := registry.(status := registry.status[url := "crawled"]);
      } else {
        id := registry.nextId;
        registry := Registry(registry.ids[url := id], registry.status[url := "crawled"], id + 1);
      }
    }

    /** Select of the highest-version row for a registry id. */
    function LatestVersion(id: nat): Option<MetaRow>
      reads this
    {
      LatestIn(rows, id)
    }

    method InsertRow(row: MetaRow)
      modifies this
      ensures State() == old(State()).(rows := old(State()).rows + [row])
    {
      rows := rows + [row];
    }
  }
}
