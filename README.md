# Crawled-document import and reshaping: a Dafny model

This project models the sequential logic of a thuvienphapluat.vn crawler
and its importers. It covers what the importers write to the record store
and how crawled records are reshaped on the way. The browser automation
that produces the records is not modelled.

The centrepiece is **version-change detection**. For each crawled document
an importer does four things in order:

1. It upserts a URL-registry row keyed on `url`.
2. It reads the latest version row.
3. It decides whether the document is a new version.
4. It appends a version row only when that decision is yes.

The store is a class (`DocMetadataStore.MetadataDb`) whose fields the import
loops update. Each loop is proved against a pure specification function on
the store's value, with these properties proved about that function:

- the tie-break rules of the decision;
- the version history is append-only;
- registry ids stay stable;
- a second run over a batch whose URLs are distinct inserts nothing;
  a batch that holds one URL twice with different hashes is inserted again.

The variants of the rule are modelled separately, because they differ:

- the n8n code node uses hash-or-later-date, with JavaScript comparison
  semantics; a stored date that is NULL is compared by reading the incoming
  date as a number (`JsNumber`, the StringToNumber conversion of section
  7.1.4.1.1 of ECMA-262);
- the Python test importer uses hash-or-later-date, where a missing stored
  date defaults to `''`;
- the migration importer and the PostgreSQL store use the hash only;
- the v2 importer uses hash-or-later-date and adds a "smart merge" and a
  diff summary.

The rest of the model is organised as follows:

- **Registry and term classifiers.** `upsert_links` (insert, update to
  pending, or skip), `save_terms_batch` (new, changed or unchanged) and the
  duplicate-term fix (keep the earliest record per URL).
- **Record reshaping.** `compact_schema`, `clean_item`, the three Supabase
  transforms, the date parsers, document-id extraction and file-type
  detection.
- **Search-result harvesting.** Order-preserving dedup, the 20-per-page cap,
  page ranges, pending-URL pagination, the "Lược đồ" table choice and the
  tab-4 section slicing.
- **Formula and parameter bookkeeping.** Two separators, gap analysis, the
  rule-based formula extractor, domain detection, the document pre-filter and
  the pattern tracker.

Some library and external pieces are parameters of the model:

- Hash functions (sha256/md5 over JSON) are opaque.
- URL canonicalisation (`urlunparse`, `urljoin`, `urlparse`) is an opaque
  function.
- Store errors that the source catches per record are fault flags given
  per record: the migration importer's failure stages (`FullImport`), the
  term batch insert and updates (`TnplCrawl`), the duplicate deletes
  (`TnplDedup`) and the PostgreSQL transaction's rollback (`TvplDb`).
  Other store errors are not modelled; "## Left out" names them.
- The regular expressions that read HTML are given as their match results.

Python dicts iterate in insertion order, so they are association lists
(`Common.Dict`). JSON values are `Common.Json`, and Python truthiness is
`Common.Truthy` / `Common.JTruthy`.

## Model

| member | source | states |
|---|---|---|
| `DocMetadataStore.UpsertUrl` | config/n8n/n8n_import_supabase.js:10-20 | An upsert keyed on `url`: an existing URL keeps its id and its registry entry, a new URL gets the next fresh id, the status is set, other URLs keep their status, and distinct ids stay distinct |
| `DocMetadataStore.UpsertUrlIdempotent` | config/n8n/n8n_import_supabase.js:10-20 | Upserting the same URL twice gives the same registry and id as upserting it once: one registry row and a stable id |
| `DocMetadataStore.Upsert` | test_supabase_import.py:18-23 | The importers' upsert of `{url, status: 'crawled'}` leaves the version rows untouched, registers the URL with the returned id and sets its status to crawled |
| `DocMetadataStore.LatestIn` | config/n8n/n8n_import_supabase.js:23-31 | The highest-version row of an id is a row of that id with no later row of that id, the database numbering versions in insertion order; there is none exactly when no row carries the id |
| `DocMetadataStore.MetadataDb.UpsertCrawled` | config/n8n/n8n_import_supabase.js:10-20 | The store's registry after the call, and the returned id, are those of `Upsert` |
| `DocMetadataStore.MetadataDb.InsertRow` | config/n8n/n8n_import_supabase.js:52-67 | An insert appends exactly one version row and changes nothing else |
| `N8nImport.FirstVersionInserted` | config/n8n/n8n_import_supabase.js:36-38 | With no prior version the decision is to insert |
| `N8nImport.ChangedHashInserted` | config/n8n/n8n_import_supabase.js:43-44 | A changed `content_hash` inserts, whatever the dates |
| `N8nImport.SameHashNeedsLaterDate` | config/n8n/n8n_import_supabase.js:45-48 | With an equal hash, the decision is to insert iff the incoming date is present and compares greater, by JavaScript `>`, than the stored one; against a NULL stored date that is the incoming text read as a JavaScript number (`JsNumber.StringToNumber`) being greater than 0 |
| `N8nImport.SameHashSameOrEarlierDateSkipped` | config/n8n/n8n_import_supabase.js:45-48 | An equal hash with a missing, equal or earlier incoming date is skipped |
| `N8nImport.ImportDocuments` | config/n8n/n8n_import_supabase.js:4-75 | The loop leaves the store equal to the per-document specification `Run` applied to the documents in order, and returns its input unchanged |
| `N8nImport.ImportOne` | config/n8n/n8n_import_supabase.js:6-73 | One pass of the loop body leaves the store as the per-document step `Step` says: upsert the URL, then insert a version row when the hash differs or the date compares greater by JavaScript `>` (a NULL stored date: the date read as a number is above 0) |
| `N8nImport.StepInsertsAtMostOne` | config/n8n/n8n_import_supabase.js:51-67 | A document appends one row exactly when the decision says so, and that row carries the upserted `doc_url_id` and the incoming `content_hash`; otherwise the version rows are unchanged |
| `N8nImport.StepKeepsRegistryIds` | config/n8n/n8n_import_supabase.js:10-20 | Each step keeps every registered URL's id and adds exactly the document's URL to the registry |
| `N8nImport.RunAppendOnly` | config/n8n/n8n_import_supabase.js:6-73 | Over a batch the version rows are append-only: earlier rows are unchanged, and at most one row is added per document |
| `N8nImport.RunValid` | config/n8n/n8n_import_supabase.js:6-73 | The batch keeps registry ids distinct and every registered URL with a status |
| `N8nImport.StepSettles` | config/n8n/n8n_import_supabase.js:6-73 | After its own step a document is registered as crawled and would not be inserted again, unless its date reads as a positive JavaScript number (`JsNumber.GreaterThanNull`: digits with white space, a sign, a fraction, an exponent, a `0x`/`0o`/`0b` prefix, or `Infinity`), which `>` then finds greater than the NULL date of the row just inserted |
| `N8nImport.StepPreservesSettled` | config/n8n/n8n_import_supabase.js:6-73 | A step for one URL leaves other URLs settled |
| `N8nImport.StepSettledIsNoop` | config/n8n/n8n_import_supabase.js:6-73 | Processing a settled document changes nothing in the store |
| `N8nImport.RunSettles` | config/n8n/n8n_import_supabase.js:6-73 | After a batch with distinct URLs and no date that reads as a positive JavaScript number (`JsNumber.GreaterThanNull`), every document of the batch is settled |
| `N8nImport.RunSettledIsNoop` | config/n8n/n8n_import_supabase.js:6-73 | A batch of settled documents leaves the store unchanged |
| `N8nImport.RerunIsNoop` | config/n8n/n8n_import_supabase.js:6-73 | For a batch with distinct URLs and no date that reads as a positive JavaScript number (`JsNumber.GreaterThanNull`), re-running it after a first run changes nothing: no second insert |
| `N8nImport.StepLeavesOwnHash` | config/n8n/n8n_import_supabase.js:10-66 | After a document's step its URL has a latest version carrying the document's hash |
| `N8nImport.SameUrlNewHashInserted` | config/n8n/n8n_import_supabase.js:22-66 | A document right after another with the same URL and a different hash is inserted |
| `N8nImport.DuplicateUrlReinserted` | config/n8n/n8n_import_supabase.js:6-73 | Without distinct URLs re-running is not a no-op: a batch holding one URL twice with different hashes inserts two rows again on the second run |
| `N8nImport.NumericDateReinserted` | config/n8n/n8n_import_supabase.js:45-66 | The exception to re-run idempotence: a document whose date reads as a positive JavaScript number (`JsNumber.GreaterThanNull`) is inserted again on the second pass, because the insert writes no `ngay_cap_nhat` |
| `JsNumber.SpaceEnd` | config/n8n/n8n_import_supabase.js:45 | Where leading white space ends (`TrimStart` cuts there): every skipped character is JavaScript white space (including no-break space, the byte order mark, line terminators and the Zs separators), and the first kept one is not |
| `JsNumber.SpaceStart` | config/n8n/n8n_import_supabase.js:45 | Where trailing white space starts (`TrimEnd` cuts there): every dropped character is JavaScript white space, and the last kept one is not |
| `JsNumber.TrimStartSpaces` | config/n8n/n8n_import_supabase.js:45 | Leading white space is trimmed away whatever follows it |
| `JsNumber.TrimEndSpaces` | config/n8n/n8n_import_supabase.js:45 | Trailing white space is trimmed away whatever precedes it |
| `JsNumber.TrimPadding` | config/n8n/n8n_import_supabase.js:45 | White space on either side of a text does not change what it trims to |
| `JsNumber.PaddingIgnored` | config/n8n/n8n_import_supabase.js:45 | The number a string denotes ignores white space around it |
| `JsNumber.DigitStringGreater` | config/n8n/n8n_import_supabase.js:45 | A run of decimal digits is greater than NULL exactly when some digit is not 0 |
| `JsNumber.PaddedDigitsAboveNull` | config/n8n/n8n_import_supabase.js:45 | Digits with some non-zero digit and white space around them (" 7") are greater than NULL |
| `JsNumber.PlusDigitsAboveNull` | config/n8n/n8n_import_supabase.js:45 | Digits with some non-zero digit after a plus sign ("+5") are greater than NULL |
| `JsNumber.FractionAboveNull` | config/n8n/n8n_import_supabase.js:45 | A decimal fraction with some non-zero digit and at most 268 fraction digits ("1.5") is greater than NULL |
| `JsNumber.ExponentLiteral` | config/n8n/n8n_import_supabase.js:45 | Digits, `e` and a signed integer read as the digits' value times ten to that integer |
| `JsNumber.ExponentAboveNull` | config/n8n/n8n_import_supabase.js:45 | Digits with some non-zero digit times ten to an exponent of at least -268 ("1e3") are greater than NULL |
| `JsNumber.TinyExponentNotAboveNull` | config/n8n/n8n_import_supabase.js:45 | A literal whose value is at most 10^-359 ("1e-400") rounds to +0 and is not greater than NULL |
| `JsNumber.SmallExponentsPositive` | config/n8n/n8n_import_supabase.js:45 | A positive mantissa with an exponent of at least -268 does not round to zero |
| `JsNumber.TinyValuesVanish` | config/n8n/n8n_import_supabase.js:45 | A positive value at most 10^-k rounds to zero once 3k >= 1075 |
| `JsNumber.SeparatedDigitsNaN` | config/n8n/n8n_import_supabase.js:45 | Digits followed by a character that starts neither a fraction nor an exponent are NaN, so ISO dates ("2024-01-15") and day-first dates ("15/01/2024") are no number |
| `JsNumber.SeparatedDigitsNotAboveNull` | config/n8n/n8n_import_supabase.js:45 | So such dates are not greater than NULL |
| `JsNumber.NonDecimalLiteral` | config/n8n/n8n_import_supabase.js:45 | `0x`, `0o` and `0b` followed by digits of that radix read as the digits' value in that radix |
| `JsNumber.NonDecimalAboveNull` | config/n8n/n8n_import_supabase.js:45 | A `0x`, `0o` or `0b` literal with some non-zero digit ("0x1F") is greater than NULL |
| `JsNumber.InfinityLiteral` | config/n8n/n8n_import_supabase.js:45 | `Infinity`, `+Infinity` and `-Infinity` read as infinities of that sign, and are greater than NULL exactly without the minus sign |
| `JsNumber.MinusNeverGreater` | config/n8n/n8n_import_supabase.js:45 | No literal with a leading minus sign is greater than NULL |
| `PyImport.NewOrChangedInserted` | test_supabase_import.py:36-43 | No latest version, or a different hash, decides insert before any date is read |
| `PyImport.SameHashDateRule` | test_supabase_import.py:44-48 | With an equal hash: insert iff the incoming date is non-empty and greater than the stored one, where an absent stored column counts as `''`; no incoming date means skip |
| `PyImport.AgreesWithN8n` | test_supabase_import.py:34-48 | Wherever the stored date is a value or the incoming date is empty, the Python rule and the n8n rule decide alike |
| `PyImport.ImportDocument` | test_supabase_import.py:14-68 | The new store and the result are those of the specification `ImportStep`: upsert, decide, insert when decided, and an error for the `TypeError` of comparing with a NULL date |
| `PyImport.ReturnsTrueIffInserted` | test_supabase_import.py:50-68 | `import_document` returns True exactly when one version row was added; on False or an exception only the registry upsert happened, and old rows are kept |
| `PyImport.ImportAll` | test_supabase_import.py:70-95 | The loop's store and its `inserted`/`skipped` counters are those of the specification `ImportRun` |
| `PyImport.ImportCounts` | test_supabase_import.py:86-95 | inserted + skipped + failed equals the number of documents, and `inserted` is the number of rows added |
| `PyImport.StepSettles` | test_supabase_import.py:14-68 | After a document's step it is registered as crawled and would not be inserted again |
| `PyImport.StepPreservesSettled` | test_supabase_import.py:14-68 | A step for one URL leaves other URLs settled |
| `PyImport.StepSettledKeepsStore` | test_supabase_import.py:14-68 | A settled document's step leaves the store unchanged |
| `PyImport.ImportValid` | test_supabase_import.py:86-95 | A batch keeps the registry well formed |
| `PyImport.ImportSettles` | test_supabase_import.py:86-95 | After a batch with distinct URLs every document of the batch is settled |
| `PyImport.ImportSettledKeepsStore` | test_supabase_import.py:86-95 | A batch of settled documents leaves the store unchanged and inserts nothing |
| `PyImport.RerunInsertsNothing` | test_supabase_import.py:86-95 | For a batch with distinct URLs, a second run of `main` over it inserts nothing and leaves the store as the first run left it |
| `PyImport.StepLeavesOwnHash` | test_supabase_import.py:18-66 | After `import_document`, whether it inserted, skipped or raised, the URL has a latest version carrying the document's hash |
| `PyImport.SameUrlNewHashInserted` | test_supabase_import.py:25-66 | A document right after another with the same URL and a different hash returns True |
| `PyImport.DuplicateUrlReinserted` | test_supabase_import.py:86-95 | Without distinct URLs a second run inserts again: for a batch holding one URL twice with different hashes it counts two insertions |
| `PyImport.RerunOfDatedDocumentRaises` | test_supabase_import.py:44-64 | Because the inserted row's `ngay_cap_nhat` is NULL, importing a dated document again right after inserting it raises instead of skipping |
| `FullImport.LatestRow` | scripts/migration/import_full_supabase.py:31-36 | The latest version row of a URL id: it belongs to the table and carries that id, it is absent iff no row carries the id, and no later row carries the id |
| `FullImport.LatestRowAppend` | scripts/migration/import_full_supabase.py:31-36 | After a row is appended, the latest row of its own id is that row, and the latest row of every other id is unchanged |
| `FullImport.MetaStep` | scripts/migration/import_full_supabase.py:20-60 | One document bumps at most one counter, and neither counter decreases |
| `FullImport.ImportMetadata` | scripts/migration/import_full_supabase.py:14-62 | The loop's store, counters and URL cache are those of the specification `MetaRun` |
| `FullImport.MetaStepSucceeds` | scripts/migration/import_full_supabase.py:39-57 | A document processed without an exception increments exactly one counter. It inserts iff there is no latest row or the hash differs, with dates never consulted. Its URL is cached in both branches with the id of its latest row |
| `FullImport.MetaStepEarlyFailure` | scripts/migration/import_full_supabase.py:58-60 | An exception before the counter update changes neither counter nor the cache, and writes no row |
| `FullImport.MetaStepLateFailure` | scripts/migration/import_full_supabase.py:47-57 | A failure of the id lookup after the counter update leaves a counter bumped and no cache entry |
| `FullImport.MetaRunBounds` | scripts/migration/import_full_supabase.py:20-62 | Over a batch: at most one counter step per document, earlier rows are kept, and every cached URL is a URL of the batch or was cached before |
| `FullImport.CacheGet` | scripts/migration/import_full_supabase.py:79 | `url_cache.get(target_doc_url)` is the cached id when the URL is present and cached, and absent otherwise |
| `FullImport.ImportRelationships` | scripts/migration/import_full_supabase.py:64-92 | The table gains exactly the rows of `RelRun`, and the result is their count |
| `FullImport.RelRunSound` | scripts/migration/import_full_supabase.py:69-90 | At most one row per relationship, and each inserted row is the outcome of one input relationship |
| `FullImport.RelOutcomeMeaning` | scripts/migration/import_full_supabase.py:71-87 | A relationship is inserted only when its `source_url` is present and cached, with that URL's metadata id and the target id from the cache; a missing or uncached source inserts nothing |
| `FullImport.FileOutcome` | scripts/migration/import_full_supabase.py:101-115 | A file row is written only when its `source_url` is present and cached |
| `FullImport.FileRun` | scripts/migration/import_full_supabase.py:99-117 | At most one row per input file |
| `FullImport.ImportFiles` | scripts/migration/import_full_supabase.py:94-119 | The table gains exactly the rows of `FileRun`, and the result is their count |
| `FullImport.FileRunComplete` | scripts/migration/import_full_supabase.py:99-117 | With no failures, every key present and every source cached, each file yields exactly one row |
| `ImportV2.ContentHashDependsOnly` | tvpl_crawler/utils/import_supabase_v2.py:104-109 | Two records that agree on `doc_info`, `tab4` and `tab8` get the same content hash, whatever their URL, title, error or date |
| `ImportV2.Title` | tvpl_crawler/utils/import_supabase_v2.py:82-86 | The title is never empty, and is the record's own title whenever that is truthy |
| `ImportV2.LatestVersion` | tvpl_crawler/utils/import_supabase_v2.py:126-128 | The newest version of a document is one of its versions with no later version of the document, `crawled_at` being set on insertion; there is none exactly when the document has no version row |
| `ImportV2.LatestVersionAppend` | tvpl_crawler/utils/import_supabase_v2.py:164-171 | After a version is appended it is the document's newest version |
| `ImportV2.MarkFailed` | tvpl_crawler/utils/import_supabase_v2.py:73-79 | Marking a URL failed never adds or removes registry rows |
| `ImportV2.UpsertCompleted` | tvpl_crawler/utils/import_supabase_v2.py:89-95 | The upsert keyed on `url` adds only that URL and leaves it completed with the derived id and the title |
| `ImportV2.FileRowsAt` | tvpl_crawler/utils/import_supabase_v2.py:204-227 | One file row per download link, in order, with the link's text, href, the v2 file type and status pending |
| `ImportV2.WithoutFiles` | tvpl_crawler/utils/import_supabase_v2.py:201 | Deleting a document's files keeps exactly the rows of other documents |
| `ImportV2.V2Db.SelectFinal` | tvpl_crawler/utils/import_supabase_v2.py:112-114 | The stored final row of an id, present exactly when the id has one |
| `ImportV2.V2Db.InsertFiles` | tvpl_crawler/utils/import_supabase_v2.py:204-227 | The loop appends exactly `FileRows` for the links and changes nothing else |
| `ImportV2.V2Db.WriteNewVersion` | tvpl_crawler/utils/import_supabase_v2.py:136-227 | The changed branch leaves the tables equal to the specification `WriteChanged`: final row upserted, version appended with its diff, relations and files replaced |
| `ImportV2.V2Db.SaveDocument` | tvpl_crawler/utils/import_supabase_v2.py:66-235 | The tables, the result and the merged record are those of the specification `Save` |
| `ImportV2.SaveWithoutId` | tvpl_crawler/utils/import_supabase_v2.py:67-70 | A record without a URL, or whose URL gives an empty `doc_id`, writes nothing and returns False |
| `ImportV2.SaveErrorRecord` | tvpl_crawler/utils/import_supabase_v2.py:72-79 | An error record returns False and only marks its registry row failed, with the error cut to 500 characters |
| `ImportV2.SaveResultIsChangeRule` | tvpl_crawler/utils/import_supabase_v2.py:116-120 | `has_changed` holds iff there is no stored hash, or the hash differs, or both dates are present and the new one is greater |
| `ImportV2.SaveRegistersUrl` | tvpl_crawler/utils/import_supabase_v2.py:88-95 | A saved record's registry row is completed, with the derived id and the title |
| `ImportV2.SaveVersioning` | tvpl_crawler/utils/import_supabase_v2.py:136-233 | A changed record appends exactly one version carrying the hash of the record as it arrived, and its final row holds that hash; an unchanged one leaves versions, relations and files alone and only retitles its final row |
| `ImportV2.SaveReplacesRelations` | tvpl_crawler/utils/import_supabase_v2.py:173-195 | A changed record's relation rows become one row per related document of the merged tab4, and every other document's rows stay |
| `ImportV2.SaveReplacesFiles` | tvpl_crawler/utils/import_supabase_v2.py:197-227 | A changed record with download links replaces its file rows by one per link; without links its old file rows stay |
| `ImportV2.SmartMergeOnlyWhen` | tvpl_crawler/utils/import_supabase_v2.py:122-134 | `tab4`, and nothing else, is replaced by the previous version's tab4 only when the record changed, a hash was stored, the new total is 0 and the old total is positive |
| `ImportV2.SaveDiff` | tvpl_crawler/utils/import_supabase_v2.py:150-157 | A new version's diff is taken against the previous version only when a hash was stored; a first version has none |
| `ImportV2.SaveAgainUnchanged` | tvpl_crawler/utils/import_supabase_v2.py:116-120 | Saving the same record again right away reports no change and adds no version |
| `TvplDb.ParseDateDb` | tvpl_crawler/db.py:62-69 | An empty or missing string gives None; otherwise the result is the dd/mm/yyyy parse, None when that fails |
| `TvplDb.ParseDateDbDmy` | tvpl_crawler/db.py:62-69 | A valid date written dd/mm/yyyy parses back to itself |
| `TvplDb.DbTitle` | tvpl_crawler/db.py:102 | The title is never empty |
| `TvplDb.LatestDbVersion` | tvpl_crawler/db.py:150-154 | The newest version of a document is one of its versions with no later version of the document, `crawled_at` being set on insertion; none exactly when it has no version |
| `TvplDb.TvplDatabase.SaveDocument` | tvpl_crawler/db.py:92-194 | The tables and the outcome are those of the specification `SaveDb`, the transaction included |
| `TvplDb.TvplDatabase.CommitWrites` | tvpl_crawler/db.py:102-188 | The transaction's writes leave the tables as the committed state of the call describes, and report whether the record changed |
| `TvplDb.NoDocIdWritesNothing` | tvpl_crawler/db.py:98-100 | An empty `doc_id` returns without writing |
| `TvplDb.RollbackKeepsState` | tvpl_crawler/db.py:188-192 | An exception rolls every table back and is re-raised |
| `TvplDb.ChangedIffHashDiffers` | tvpl_crawler/db.py:115-125 | A committed call reports a change exactly when there was no stored hash or it differs from the hash of the whole record |
| `TvplDb.DatesIgnored` | tvpl_crawler/db.py:125 | Records with the same URL and the same hash get the same answer whatever their dates |
| `TvplDb.FinalAlwaysUpserted` | tvpl_crawler/db.py:127-141 | `documents_finals` is rewritten on every committed call, with the new hash, URL, title and parsed date, and no other final row changes |
| `TvplDb.VersionOnlyWhenChanged` | tvpl_crawler/db.py:143-162 | A version holding the whole record and its hash is appended only on a change, without a diff when no hash was stored; an unchanged record adds no version and keeps its relations |
| `TvplDb.RelationsReplacedOnChange` | tvpl_crawler/db.py:164-186 | On a change the document's relation rows are exactly the new ones, every other document's rows stay, and `resolved` equals whether a target id was derived |
| `TvplDb.SaveTwiceNoNewVersion` | tvpl_crawler/db.py:115-162 | Saving the same record twice: the second call reports no change and adds no version |
| `VersionDiff.CollectChangedFields` | tvpl_crawler/utils/import_supabase_v2.py:38-40 | The loop collects exactly `ChangedFields` of the two `doc_info` dicts |
| `VersionDiff.ChangedFieldsExact` | tvpl_crawler/utils/import_supabase_v2.py:38-40 | A key is listed exactly when the new `doc_info` has it and its value differs from the old one |
| `VersionDiff.ChangedFieldsBound` | tvpl_crawler/db.py:78-80 | No more keys are listed than the new `doc_info` has entries |
| `VersionDiff.ComputeDiff` | tvpl_crawler/db.py:71-90 | The method computes the summary of the specification `Diff` |
| `VersionDiff.DiffNoneIff` | tvpl_crawler/utils/import_supabase_v2.py:44-49 | The result is None exactly when no `doc_info` value changed and the relation count is unchanged |
| `VersionDiff.DiffCounts` | tvpl_crawler/utils/import_supabase_v2.py:46-47 | `relations_added` and `relations_removed` are max(0, ±(new_total − old_total)): at most one is non-zero, and their difference is the change in count |
| `VersionDiff.DiffSelf` | tvpl_crawler/utils/import_supabase_v2.py:33-49 | A record compared with itself has no diff |
| `Crawled.SaveDocId` | tvpl_crawler/utils/import_supabase_v2.py:67-68 | No URL gives no id; otherwise the id is the split-based id of the URL |
| `Crawled.DownloadLink` | tvpl_crawler/utils/import_supabase_v2.py:99-102 | The first tab8 link's href when there are links, else "" |
| `Crawled.RelationCountAppend` | tvpl_crawler/utils/import_supabase_v2.py:44-45 | The related-document count is additive: one more group adds its size, so the count is the sum of the group sizes |
| `Crawled.RelationRowOf` | tvpl_crawler/db.py:179-186 | A relation row's target id is the split-based id of a non-empty href, and `resolved` says whether that id is non-empty |
| `Crawled.RelationRowsShape` | tvpl_crawler/db.py:175-186 | One row per related document, each sourced at the document's id, resolved exactly when its target id is non-empty |
| `Crawled.AppendGroupRows` | tvpl_crawler/db.py:178-186 | The inner loop appends exactly the rows of one group |
| `Crawled.AppendRelationRows` | tvpl_crawler/utils/import_supabase_v2.py:180-195 | The outer loop appends exactly `RelationRows` of the groups in order, skipping empty ones |
| `Crawled.WithoutSource` | tvpl_crawler/db.py:167-169 | Deleting a document's relations keeps exactly the rows of other documents |
| `Crawled.ReplaceRelations` | tvpl_crawler/utils/import_supabase_v2.py:173-195 | Delete-then-insert replaces exactly the document's rows and keeps every other row |
| `FileTypes.StandardFileType` | supabase_transform.py:100-107 | A link text mentioning "pdf" is a pdf; otherwise "docx" gives docx, otherwise "doc" gives doc, otherwise other |
| `FileTypes.DocxContainsDoc` | supabase_transform.py:102-105 | A text containing "docx" also contains "doc", so the docx test must come first |
| `FileTypes.DocFirstAgrees` | transform_for_supabase.py:89-96 | Testing "doc"-without-"docx" before "docx" classifies every text exactly as the standard order does |
| `FileTypes.V2Refines` | tvpl_crawler/utils/import_supabase_v2.py:209-219 | The v2 importer agrees with the standard order except on texts the standard order calls "other", which it calls "doc" exactly when they carry the Vietnamese download label (with or without diacritics) |
| `Dates.Strptime` | tvpl_crawler/upsert_links.py:17-20 | A successful "%d/%m/%Y" parse yields a real calendar date: year 1 to 9999, month 1 to 12, day within its month |
| `Dates.StrptimeDmy` | tvpl_crawler/upsert_links.py:18 | Parsing the site's "dd/mm/yyyy" spelling of any date gives that date back |
| `Dates.IsoOrder` | tvpl_crawler/utils/import_supabase_v2.py:119 | Comparing two "yyyy-mm-dd" strings as strings orders them as the dates they denote |
| `Dates.ParseDateV2` | tvpl_crawler/utils/import_supabase_v2.py:21-31 | Empty or missing input gives none; a 10-character text with '-' at index 4 passes through unchanged; anything else is the ISO spelling of its `strptime` parse, or none when that fails |
| `Dates.ParseDateV2Idempotent` | tvpl_crawler/utils/import_supabase_v2.py:25-26 | Parsing an already parsed date changes nothing |
| `Dates.ParseDateV2Dmy` | tvpl_crawler/utils/import_supabase_v2.py:28-29 | The site's "dd/mm/yyyy" spelling of a date becomes its "yyyy-mm-dd" spelling |
| `Dates.ParseDateStrict` | tvpl_crawler/upsert_links.py:13-20 | Empty input gives none; otherwise the result is the ISO spelling of the `strptime` parse, and none exactly when that parse fails |
| `Dates.ParseDateSplit` | supabase_transform.py:15-25 | Empty input and the "data being updated" placeholder give none; otherwise a result exists exactly when the text splits into three parts on '/', and it is those parts reversed and joined by '-', with no check that they are numbers |
| `Dates.ParseDateSplitDmy` | transform_for_supabase.py:9-20 | On the site's zero-padded "dd/mm/yyyy" the splitting parser agrees with the `strptime` parser |
| `DocId.DigitRunEnd` | supabase_transform.py:12 | The greedy `\d+` run starting at a position: all digits, and stopped by the end of the text or a non-digit |
| `DocId.MatchAt` | supabase_transform.py:12 | A match of `-(\d+)\.aspx` at a position yields a non-empty digit group that occurs there between '-' and ".aspx" |
| `DocId.FirstMatch` | supabase_transform.py:12 | The position found is the leftmost one at or after the start where the pattern matches, and -1 exactly when none does |
| `DocId.SearchFrom` | supabase_transform.py:12 | The search finds nothing exactly when no position at or after the start matches |
| `DocId.ExtractDocId` | supabase_transform.py:10-13 | The id is a non-empty digit string found between '-' and ".aspx" at the leftmost match in the URL; none exactly when no position matches |
| `DocId.ExtractDocIdIgnoresSuffix` | extract_doc_id.py:11-17 | Appending text such as a query string to a URL that has an id keeps the same id |
| `DocId.SplitDocId` | tvpl_crawler/upsert_links.py:40 | The split-based id is the text after the last '-' with ".aspx" deleted, so it holds no '-' |
| `DocId.SplitDocIdCanonical` | tvpl_crawler/utils/import_supabase_v2.py:68 | On a URL ending in "-<digits>.aspx" the split-based id is those digits, the same id the regular expression finds |
| `DocId.SplitDocIdKeepsQuery` | tvpl_crawler/db.py:98 | With "?dll=true" after ".aspx" the split-based id keeps the query text, unlike the regular expression |
| `TransformCommon.NormalizeType` | supabase_transform.py:71 | The normalised relationship type has the length of the group title and no spaces |
| `TransformCommon.GroupEntriesLoop` | n8n_node2_crawl_docs.py:118-129 | The inner loop appends exactly the links of one group, those with an href when one is required, under the group's normalised type |
| `TransformCommon.RelationEntries` | n8n_node2_crawl_docs.py:112-129 | The outer loop collects the groups' entries in dictionary order, skipping empty groups |
| `TransformCommon.EntriesSound` | supabase_transform.py:67-88 | Every collected entry is a link of some group under that group's normalised type, with an href when one is required |
| `TransformCommon.GroupEntriesSound` | n8n_node2_crawl_docs.py:118-122 | One group contributes only its own links, all those with an href when one is required, and every link when none is |
| `TransformCommon.EntriesComplete` | transform_for_supabase.py:65-79 | Every qualifying link of every group is collected, and without an href filter there is one entry per related document |
| `TransformCommon.EntryVisited` | supabase_transform.py:73-88 | A single qualifying related document is among the collected entries |
| `TransformFor.MetaOf` | transform_for_supabase.py:44-58 | The metadata row keeps the record's URL, the whole record as raw JSON, the hash of `doc_info` and the dates parsed by the splitting parser |
| `TransformFor.AppendFiles` | transform_for_supabase.py:85-104 | The loop appends one file row per download link, in order |
| `TransformFor.TransformToSupabase` | transform_for_supabase.py:27-106 | The three output lists are the record-by-record concatenation of each record's rows |
| `TransformFor.MetadataPerItem` | transform_for_supabase.py:36-59 | There is one metadata row per record with a URL and a non-empty `doc_info` |
| `TransformFor.ItemRowCounts` | transform_for_supabase.py:61-104 | One relationship per related document, with no href filter, under its group's normalised type; one file row per link, typed as the standard precedence would |
| `N8nCrawlDocs.MetaOf` | n8n_node2_crawl_docs.py:93-105 | The metadata row keeps the record's URL and the hash of `doc_info`, and takes the update date from the record, not from `doc_info` |
| `N8nCrawlDocs.AppendFiles` | n8n_node2_crawl_docs.py:135-153 | The loop appends one file row per download link, in order, typed by the standard precedence |
| `N8nCrawlDocs.TransformForSupabase` | n8n_node2_crawl_docs.py:76-155 | The three output lists are the record-by-record concatenation of each record's rows |
| `N8nCrawlDocs.MetadataPerItem` | n8n_node2_crawl_docs.py:85-106 | There is one metadata row per record with a URL and a non-empty `doc_info` |
| `N8nCrawlDocs.ItemRows` | n8n_node2_crawl_docs.py:108-153 | Every relationship has a non-empty target URL and a space-free type; every related document with an href gets one; one file row per link |
| `SupabaseTransform.ConHieuLuc` | supabase_transform.py:51-52 | In force is unknown without a status, and true exactly when the status contains "Còn hiệu lực" |
| `SupabaseTransform.FirstPdf` | supabase_transform.py:94 | The first link whose lower-cased text mentions "pdf", and none exactly when no link does |
| `SupabaseTransform.SelectedLink` | supabase_transform.py:95 | A link is selected exactly when there are links |
| `SupabaseTransform.FileRows` | supabase_transform.py:97-116 | At most one file row per record |
| `SupabaseTransform.TransformToSupabase` | supabase_transform.py:32-118 | The three output lists are the record-by-record concatenation of each record's rows |
| `SupabaseTransform.TransformCounts` | supabase_transform.py:41-61 | One metadata row per record with a URL and a non-empty `doc_info`, and no more file rows than metadata rows |
| `SupabaseTransform.MetadataRow` | supabase_transform.py:49-61 | The metadata row carries the URL, the regular-expression id of the URL, the in-force flag, the hash and the whole `doc_info` |
| `SupabaseTransform.RelationshipsOfItem` | supabase_transform.py:63-88 | Every relationship has a non-empty target URL, the id found in it, the record's URL as source and the normalised type of one of the record's groups; every related document with an href gets one |
| `SupabaseTransform.FileSelection` | supabase_transform.py:90-116 | The file row is the first pdf link, typed pdf, when there is one; otherwise the first link, typed by the standard precedence; none without links |
| `UpsertLinks.CrawlUrlTable.UpsertLinks` | tvpl_crawler/upsert_links.py:22-92 | The loop leaves the registry and the three counters as the link-by-link fold of the decision, and reports the length of the batch as total |
| `UpsertLinks.CrawlUrlTable.UpsertLink` | tvpl_crawler/upsert_links.py:35-85 | One link makes exactly the write and the counter choice of the per-link decision |
| `UpsertLinks.NoUrlIgnored` | tvpl_crawler/upsert_links.py:36-38 | A link without a URL writes nothing and touches no counter |
| `UpsertLinks.UnknownInserted` | tvpl_crawler/upsert_links.py:75-85 | An unknown URL is inserted as pending with priority 0, its split-based id, its title and its parsed date |
| `UpsertLinks.CompletedNeedsLaterDate` | tvpl_crawler/upsert_links.py:54-66 | A completed URL is reset to pending with priority 1 exactly when both dates exist and the new one is later; otherwise it is skipped and nothing is written |
| `UpsertLinks.NotCompletedUpdated` | tvpl_crawler/upsert_links.py:67-74 | A URL that is not completed is always reset to pending with the new title and date, keeping its priority |
| `UpsertLinks.StepTouchesOwnUrl` | tvpl_crawler/upsert_links.py:57-84 | One link writes at most the row of its own URL and never removes a row |
| `UpsertLinks.CountsAddUp` | tvpl_crawler/upsert_links.py:87-92 | inserted + updated + skipped is the number of links with a URL, so at most the total, and the total when every link has one |
| `UpsertLinks.RunRegisters` | tvpl_crawler/upsert_links.py:75-85 | After the loop every URL of the batch is in the registry and no URL was removed |
| `UpsertLinks.RunOnRegisteredInsertsNothing` | tvpl_crawler/upsert_links.py:48-74 | On a registry already holding every URL of the batch nothing is inserted and the set of URLs stays the same |
| `UpsertLinks.RerunInsertsNothing` | tvpl_crawler/upsert_links.py:22-92 | Upserting the same batch a second time inserts nothing |
| `TnplCrawl.PageTerms` | scripts/crawl/crawl_tnpl_supabase.py:111-159 | The loop over the term blocks yields exactly the scan of the blocks |
| `TnplCrawl.Urls` | scripts/crawl/crawl_tnpl_supabase.py:113-133 | The URL set of a term list holds the URL of each term and nothing else |
| `TnplCrawl.ScanStep` | scripts/crawl/crawl_tnpl_supabase.py:116-157 | One more block either changes nothing or appends one term and adds its URL to the seen set |
| `TnplCrawl.ScanSeenUrls` | scripts/crawl/crawl_tnpl_supabase.py:131-133 | The seen-URL set is exactly the set of URLs of the kept terms |
| `TnplCrawl.ScanKeepsTermLinks` | scripts/crawl/crawl_tnpl_supabase.py:126-157 | Every kept term's URL contains "?tab=0", every stored definition has at most 1000 characters, and there are never more terms than blocks |
| `TnplCrawl.ScanDistinctUrls` | scripts/crawl/crawl_tnpl_supabase.py:129-133 | No two kept terms share a full URL |
| `TnplCrawl.ExistingRow` | scripts/crawl/crawl_tnpl_supabase.py:36-37 | The looked-up row is the last stored row with that URL, as the dict comprehension keeps it, and there is none exactly when no stored row has it |
| `TnplCrawl.ClassifyPartition` | scripts/crawl/crawl_tnpl_supabase.py:43-51 | A term is new exactly when no stored row has its URL, queued for update exactly when its stored row differs in name or definition, and otherwise in neither list |
| `TnplCrawl.UpdateByUrl` | scripts/crawl/crawl_tnpl_supabase.py:72-77 | An update rewrites every row of the term's URL with the term's name, definition and source, and leaves other rows alone |
| `TnplCrawl.NewRows` | scripts/crawl/crawl_tnpl_supabase.py:56-63 | One inserted row per new term, in order, carrying that term's fields |
| `TnplCrawl.UpdateRunCount` | scripts/crawl/crawl_tnpl_supabase.py:70-80 | The updated count plus the number of failed updates is the number of queued updates, and the table keeps its size |
| `TnplCrawl.TermsTable.ClassifyTerms` | scripts/crawl/crawl_tnpl_supabase.py:40-51 | The loop builds the new and update lists of the classification |
| `TnplCrawl.TermsTable.SaveTermsBatch` | scripts/crawl/crawl_tnpl_supabase.py:29-82 | The table and both counts are those of the batch save: classify, insert the new terms in one batch unless it fails, then apply each update that does not fail |
| `TnplCrawl.SaveBatchCounts` | scripts/crawl/crawl_tnpl_supabase.py:53-80 | `new_count` is the number of new terms, or 0 when the batch insert fails; `updated_count` counts only the successful updates; the table grows by `new_count` rows |
| `TnplCrawl.UnchangedBatchWritesNothing` | scripts/crawl/crawl_tnpl_supabase.py:43-82 | A batch whose terms all match their stored rows is neither new nor changed, so the save leaves the table as it is and reports 0 and 0 |
| `TnplDedup.RowsWithUrl` | fix_tnpl_duplicates.py:24-25 | The records of one URL are exactly the table's records with that URL |
| `TnplDedup.GroupByUrl` | fix_tnpl_duplicates.py:21-25 | The grouping loop builds exactly the URL groups |
| `TnplDedup.GroupsExact` | fix_tnpl_duplicates.py:23-25 | A URL has a group exactly when some record has it, and that group holds its records in table order |
| `TnplDedup.GroupsDistinct` | fix_tnpl_duplicates.py:23-25 | No URL has two groups |
| `TnplDedup.Duplicates` | fix_tnpl_duplicates.py:28 | The duplicates are exactly the groups with more than one record |
| `TnplDedup.Earliest` | fix_tnpl_duplicates.py:57 | The kept position lies inside the group |
| `TnplDedup.EarliestIsFirstMinimum` | fix_tnpl_duplicates.py:56-60 | No record of the group was created before the kept one, and every record before it in the group was created strictly after it, which is what a stable sort puts first |
| `TnplDedup.Others` | fix_tnpl_duplicates.py:60 | The records to delete are the group without the kept one, one fewer than the group |
| `TnplDedup.TotalIsPlanned` | fix_tnpl_duplicates.py:37 | The announced total, the sum of group size minus one, is the number of records planned for deletion |
| `TnplDedup.RemoveId` | fix_tnpl_duplicates.py:62 | Deleting by id keeps exactly the records with another id |
| `TnplDedup.Succeeding` | fix_tnpl_duplicates.py:60-67 | The deleted ids are exactly the ids of planned records whose delete does not raise |
| `TnplDedup.DeleteRunLeaves` | fix_tnpl_duplicates.py:55-67 | After the deletes a record is left exactly when it was there and no successful delete named its id |
| `TnplDedup.DeleteRunCount` | fix_tnpl_duplicates.py:60-67 | `deleted_count` is at most the number of planned records, and equal to it when no delete raises |
| `TnplDedup.TermsTable.DeleteOthers` | fix_tnpl_duplicates.py:60-67 | The inner loop deletes one group's later records and counts the successful deletes |
| `TnplDedup.TermsTable.DeleteAllPlanned` | fix_tnpl_duplicates.py:55-67 | The outer loop deletes every planned record of every duplicate group and counts the successes |
| `TnplDedup.TermsTable.FixDuplicates` | fix_tnpl_duplicates.py:17-69 | The table and outcome are those of one run: nothing without duplicates, nothing without confirmation, otherwise the planned deletes |
| `TnplDedup.NoConfirmationNoDelete` | fix_tnpl_duplicates.py:46-49 | Unless the answer lower-cases to "yes" the table is unchanged and no delete happens |
| `TnplDedup.ConfirmedRunCounts` | fix_tnpl_duplicates.py:53-69 | In a confirmed run the deleted count is at most the announced total, and equals it when no delete raises |
| `TnplDedup.EarliestKept` | fix_tnpl_duplicates.py:55-62 | With distinct ids and no failing delete, a confirmed run keeps the earliest record of every URL |
| `TnplDedup.PlannedNotKept` | fix_tnpl_duplicates.py:57-62 | With distinct ids, no planned record shares its id with the record kept for any URL |
| `TnplDedup.PlannedFrom` | fix_tnpl_duplicates.py:55-60 | Every planned record comes from the later records of some duplicate group |
| `TnplDedup.OthersExcludeKept` | fix_tnpl_duplicates.py:57-60 | With distinct ids in a group, the kept record's id is not among those deleted |
| `CompactSchema.CompactAll` | compact_schema.py:4-41 | One output record per input record, in order, each the compaction of its input |
| `CompactSchema.ErrorPassesThrough` | compact_schema.py:10-12 | A record is passed through unchanged exactly when its `error` is truthy |
| `CompactSchema.DocInfoExact` | compact_schema.py:15-18 | `doc_info` holds exactly the record's fields outside the excluded keys, with their values |
| `CompactSchema.UpdateDatePreference` | compact_schema.py:23 | `ngay_cap_nhat` is "Ngay cap nhat" when that is truthy, and "ngay_cap_nhat" otherwise |
| `CompactSchema.MissingPartsDefault` | compact_schema.py:30-37 | Missing tab4 and tab8 fields read as an empty dict, an empty dict, 0 and an empty list |
| `CleanData.SubDict` | clean_crawled_data.py:14-19 | A missing part reads as the empty dict |
| `CleanData.KeepGroup` | clean_crawled_data.py:27 | A group is kept exactly when it is truthy; a truthy number or boolean has no length and raises |
| `CleanData.CleanKeepsNonEmptyGroups` | clean_crawled_data.py:23-28 | The relation groups of a cleaned record are exactly the truthy groups of the original, unchanged |
| `CleanData.MissingTabsEmpty` | clean_crawled_data.py:15-20 | Missing `tab4` and `tab8` give empty relations and links |
| `CleanData.NumericGroupRaises` | clean_crawled_data.py:27 | A relation group that is a non-zero number makes the cleaning raise |
| `CleanData.CleanAll` | clean_crawled_data.py:45 | The cleaning succeeds exactly when every record cleans, and then gives one cleaned record per record, in order |
| `SearchParser.Candidates` | tvpl_crawler/parser.py:27-37 | The candidates are exactly the joined hrefs of the anchors whose href contains "/van-ban/", never more than the anchors |
| `SearchParser.ExtractDocumentLinks` | tvpl_crawler/parser.py:20-46 | The loop returns the candidates with repeats dropped, each kept at its first occurrence |
| `SearchParser.DocumentLinks` | tvpl_crawler/parser.py:39-46 | The returned links are pairwise distinct and are exactly the joined hrefs of the document anchors |
| `SearchParser.NonEmptyParts` | tvpl_crawler/parser.py:64 | The path parts kept are exactly the non-empty ones |
| `SearchParser.Items` | tvpl_crawler/parser.py:83-91 | At most one item per anchor |
| `SearchParser.ExtractDocumentItems` | tvpl_crawler/parser.py:49-101 | The loop keeps the first item per key, the id when there is one and the URL otherwise, in order |
| `SearchParser.TitlesNonEmpty` | tvpl_crawler/parser.py:88-90 | An item carries a title only when the anchor text is non-empty |
| `SearchParser.CategoryUnderVanBan` | tvpl_crawler/parser.py:64-65 | The category is set exactly when the path has more than two parts and the first is "van-ban", and it is then the second part |
| `SearchParser.SlugDropsIdSuffix` | tvpl_crawler/parser.py:70 | A last segment "<slug>-<digits>.aspx" has slug `<slug>` |
| `SearchParser.SlugWithoutSuffix` | tvpl_crawler/parser.py:70 | A last segment not ending in ".aspx" is its own slug |
| `SearchParser.TrimColon` | tvpl_crawler/parser.py:173 | Removing a trailing colon and its whitespace either leaves the label as it is or shortens it |
| `SearchParser.TableScan` | tvpl_crawler/parser.py:161-188 | A table's score is at most its number of rows |
| `SearchParser.ScanOneRow` | tvpl_crawler/parser.py:164-188 | One row of the loop updates the score and pairs as the row rule says |
| `SearchParser.ScanTable` | tvpl_crawler/parser.py:161-188 | The row loop yields the score and pairs of the table |
| `SearchParser.TablePairsWellFormed` | tvpl_crawler/parser.py:169-188 | A table's pairs have distinct labels and only non-empty values |
| `SearchParser.FirstDescription` | tvpl_crawler/parser.py:183-188 | A description, when there is one, is non-empty |
| `SearchParser.DescriptionIsFirst` | tvpl_crawler/parser.py:176-188 | "Mô tả" holds the text of the first qualifying one-cell row and is never overwritten by a later one |
| `SearchParser.ChooseBest` | tvpl_crawler/parser.py:158-192 | The table loop yields the best score and pairs |
| `SearchParser.BestIsFirstMaximum` | tvpl_crawler/parser.py:190-192 | No table beats the chosen one, and it beats every table before it: the first table with the highest score and, among those, the most pairs; with no table the score stays -1 and the pairs empty |
| `SearchParser.FallbackPairs` | tvpl_crawler/parser.py:195-213 | Every fallback pair has a non-empty value |
| `SearchParser.LuocDoFromBestTable` | tvpl_crawler/parser.py:215-219 | When a table gave pairs the result holds exactly those pairs, plus the `<h1>` title under "Tiêu đề" unless a pair has that label |
| `FirstSeen.KeysOf` | tvpl_crawler/parser.py:94-100 | The key set holds the key of every element and nothing else |
| `FirstSeen.DedupLoop` | tvpl_crawler/parser.py:94-100 | The seen-set loop keeps exactly the elements of the de-duplication |
| `FirstSeen.DedupFirstOccurrences` | tvpl_crawler/parser.py:40-45 | The kept elements are the first occurrence of each key, at increasing positions of the input, and every first occurrence is kept |
| `FirstSeen.DedupDistinctKeys` | tvpl_crawler/main.py:69-74 | No two kept elements share a key |
| `FirstSeen.DedupSameKeys` | tvpl_crawler/main.py:69-74 | The kept elements carry every key of the input and no other |
| `FirstSeen.FirstWithKey` | tvpl_crawler/parser.py:96-100 | Any position carrying a key has a first position carrying it, at or before it |
| `FirstSeen.DedupFromInput` | scripts/extract/improved_llm_extractor.py:154-159 | De-duplication never adds an element: every kept element is an input element |
| `UrlInput.EntryUrl` | tvpl_crawler/main.py:60-66 | A string entry is taken as it is; an object gives `Url`, else `url`, else `canonical_url`, the first that is non-empty, and nothing when none is |
| `UrlInput.EntryUrls` | tvpl_crawler/main.py:58-66 | At most one URL per entry |
| `Common.MapSeq` | tvpl_crawler/main.py:70-72 | One image per element, in order: one canonical URL per input URL (and, in the gap analysis, one comparison per URL) |
| `UrlInput.LoadUrls` | tvpl_crawler/main.py:57-74 | The loops produce the canonical URLs of the input with repeats dropped at their first occurrence |
| `UrlInput.ReadUrls` | tvpl_crawler/main.py:58-66 | The first loop collects the URL of each entry that gives one, in order |
| `UrlInput.LoadedUrls` | tvpl_crawler/main.py:69-74 | The loaded URLs are distinct and are exactly the canonical forms of the input URLs |
| `Harvest.PageRange` | tvpl_crawler/main.py:248 | The pages are start through end, one each, and none when end is below start |
| `Harvest.PageRangeBounds` | tvpl_crawler/main.py:246-248 | Without an end page (or with 0) the crawl visits `max_pages` pages from the start page; with one at or after the start it visits the start page through the end page |
| `Harvest.ApiDefaultRange` | api/main.py:169-172 | `/links-basic` without a start page visits pages 1 to `max_pages` |
| `Harvest.AddedKeys` | tvpl_crawler/main.py:286-290 | The key set of the harvested items holds each item's key and nothing else |
| `Harvest.ScanPageAdds` | tvpl_crawler/main.py:282-292 | A page adds at most 20 items and no more than `page_seen`, which is at most the page's items; the seen set grows by exactly the added keys, which are new, non-empty and distinct |
| `Harvest.ScanPageAddsFromPage` | tvpl_crawler/main.py:285-291 | Every added item is an item of the page |
| `Harvest.ScanPageSkipsOnlyWhenFull` | tvpl_crawler/main.py:287-292 | An item with a new non-empty key is left out only once the page has added its 20 items |
| `Harvest.AddPage` | tvpl_crawler/main.py:282-292 | The per-page loop updates the seen set, the item list and both counters as the page scan says |
| `Harvest.StoppedStays` | tvpl_crawler/main.py:254-257 | Once the crawl has stopped, later pages change nothing |
| `Harvest.HarvestPages` | tvpl_crawler/main.py:248-297 | The page loop yields the items of the crawl: fetched pages scanned, failed pages skipped, a stop ends the loop |
| `Harvest.CrawlDistinct` | tvpl_crawler/links_playwright.py:225-235 | Across all pages no key is added twice, every key is non-empty, and the seen set is exactly the keys of the harvested items |
| `Harvest.AppendDistinct` | tvpl_crawler/main.py:287-291 | Appending items with new, distinct, non-empty keys keeps the keys of the list distinct and non-empty |
| `Harvest.CrawlCap` | tvpl_crawler/links_playwright.py:221-235 | The harvest holds at most 20 items per page visited |
| `Harvest.BasicRows` | tvpl_crawler/main.py:309-319 | One row per harvested item, numbered from 1 in order, with its title and its canonical URL (the URL when that is empty), and a null update date |
| `Harvest.BasicRowsBounded` | tvpl_crawler/links_playwright.py:250-259 | The only-basic output has at most 20 rows per page visited |
| `Captcha.OcrCode` | tvpl_crawler/links_playwright.py:117-146 | The OCR code is the first reading with at least six characters, and it is empty exactly when no reading has six |
| `Captcha.SubmittedCode` | tvpl_crawler/links_playwright.py:148-167 | No code is submitted exactly when the OCR code is shorter than six characters; otherwise the submitted code is its first six characters |
| `Captcha.Bypass` | tvpl_crawler/links_playwright.py:86-210 | The attempt loop yields the bypass outcome and the submitted codes of the attempt sequence |
| `Captcha.AtMostThreeCodes` | tvpl_crawler/links_playwright.py:87 | At most one code per attempt, so at most three |
| `Captcha.CodesAreSixCharacters` | tvpl_crawler/links_playwright.py:166-172 | Every submitted code has six characters and is the submitted code of some attempt that read the image |
| `Captcha.SuccessIsAccepted` | tvpl_crawler/links_playwright.py:182-186 | A successful bypass submitted a code, and the last one submitted is that of an attempt the site accepted |
| `Captcha.BrowserPage` | tvpl_crawler/links_playwright.py:208-210 | A page stops the crawl exactly when a CAPTCHA was shown and the bypass failed |
| `Captcha.FailedBypassStops` | tvpl_crawler/links_playwright.py:208-210 | After a failed bypass no later page adds an item |
| `MinimalRows.CliTitleFallback` | tvpl_crawler/main.py:105-117 | The title is the stripped document title, else the saved file's stem with '_' as ' ', else the download name without extension likewise, the first non-empty one, and null when none is |
| `MinimalRows.ApiTitleFallback` | api/main.py:281-293 | The endpoint follows the same order with the file name's stem, except that a saved file with an empty stem leaves an empty title rather than null |
| `MinimalRows.EntryPointsDisagree` | api/main.py:283-296 | On a saved file with an empty stem and no download name the command writes null and the endpoint an empty title |
| `MinimalRows.CliMinimalRows` | tvpl_crawler/main.py:89-135 | The URL loop writes the rows of the URLs whose extraction succeeded, in order |
| `MinimalRows.CliRowsNumbered` | tvpl_crawler/main.py:89-101 | At most one row per URL, each numbered with the position of a URL whose extraction succeeded, the numbers strictly increasing |
| `MinimalRows.ApiRows` | api/main.py:278-299 | Exactly one row per result |
| `MinimalRows.ApiRowsElementwise` | api/main.py:294-299 | Row `i` is the mapping of result `i`, keeping its `stt` and saved path |
| `MinimalRows.ApiMinimalRows` | api/main.py:277-300 | The loop builds exactly the endpoint's mapping of the results |
| `PendingFetch.PageAt` | tvpl_crawler/crawlers/fetch_pending_urls.py:28 | One query returns the next at most 1000 rows from the offset, and none past the end |
| `PendingFetch.SliceTo` | tvpl_crawler/crawlers/fetch_pending_urls.py:42 | A non-negative limit takes that many rows; a negative one drops that many from the end, as a Python slice does |
| `PendingFetch.Format` | tvpl_crawler/crawlers/fetch_pending_urls.py:49-56 | One formatted row per row, numbered from 1, with its title, URL and last update date |
| `PendingFetch.FetchRows` | tvpl_crawler/crawlers/fetch_pending_urls.py:22-46 | The paged loop yields the fetched rows for the limit |
| `PendingFetch.FormatLinks` | tvpl_crawler/crawlers/fetch_pending_urls.py:49-56 | The numbering loop yields the formatted rows |
| `PendingFetch.FetchPendingUrls` | tvpl_crawler/crawlers/fetch_pending_urls.py:9-66 | Missing credentials raise; otherwise the result is the formatted fetched rows |
| `PendingFetch.LimitTruncates` | tvpl_crawler/crawlers/fetch_pending_urls.py:40-43 | A positive limit gives the first `limit` pending rows, or all when there are fewer; no limit (None or 0) gives every pending row |
| `PendingFetch.NegativeLimitDropsFromFirstPage` | tvpl_crawler/crawlers/fetch_pending_urls.py:41-42 | A limit of -1 on a single page of rows drops its last row |
| `Tab4Simple.Find` | tvpl_crawler/playwright_extract_simple.py:45 | `str.find`: -1 when the text does not occur at or after the start, otherwise the first position where it does |
| `Tab4Simple.FindLast` | tvpl_crawler/playwright_extract_simple.py:72 | The last occurrence in a window, or -1 when there is none |
| `Tab4Simple.RFind` | tvpl_crawler/playwright_extract_simple.py:72 | `str.rfind` with an end offset: an occurrence that fits between the start and the end, and -1 only when none does |
| `Tab4Simple.Absolute` | tvpl_crawler/playwright_extract_simple.py:102-103 | A root-relative href gets the site's address in front; any other href is kept; the result never starts with '/' |
| `Tab4Simple.KeepLinks` | tvpl_crawler/playwright_extract_simple.py:97-104 | No more relations than links |
| `Tab4Simple.RelationsIn` | tvpl_crawler/playwright_extract_simple.py:97-104 | The link loop yields exactly the kept relations |
| `Tab4Simple.RelationOfKept` | tvpl_crawler/playwright_extract_simple.py:99-104 | A link that passes the filter gives a relation with a non-empty absolute href and a text longer than ten characters |
| `Tab4Simple.KeptRelationsFrom` | tvpl_crawler/playwright_extract_simple.py:98-104 | Every kept relation comes from a link that passes the filter |
| `Tab4Simple.KeptRelationsFiltered` | tvpl_crawler/playwright_extract_simple.py:101-103 | Every kept relation has a non-empty absolute href and a text longer than ten characters |
| `Tab4Simple.PassingLinksKept` | tvpl_crawler/playwright_extract_simple.py:98-104 | Every link that passes the filter yields a relation |
| `Tab4Simple.CtEnd` | tvpl_crawler/playwright_extract_simple.py:79-89 | The section ends at the nearer of the next group header and the next separator, or at the end of the HTML when there is neither |
| `Tab4Simple.SectionAfter` | tvpl_crawler/playwright_extract_simple.py:64-69 | Without a `ct` section after the header there is no section |
| `Tab4Simple.GroupAt` | tvpl_crawler/playwright_extract_simple.py:44-76 | A header gives a group exactly when it has a title, which is non-empty; without a section the group's list is empty |
| `Tab4Simple.Groups` | tvpl_crawler/playwright_extract_simple.py:43 | At most one group per header |
| `Tab4Simple.Counts` | tvpl_crawler/playwright_extract_simple.py:107 | One summary entry per group, its title with its number of relations |
| `Tab4Simple.TrimColons` | tvpl_crawler/playwright_extract_simple.py:20 | `rstrip(":")` removes exactly the trailing colons: the result is a prefix that does not end in ':' and only colons were dropped |
| `Tab4Simple.InfoPairs` | tvpl_crawler/playwright_extract_simple.py:19-23 | Every recorded value is neither empty nor "..." |
| `Tab4Simple.InfoStep` | tvpl_crawler/playwright_extract_simple.py:16-23 | One more `.att` row adds its pair, if it has one, to the dictionary |
| `Tab4Simple.ExtractDocInfo` | tvpl_crawler/playwright_extract_simple.py:11-23 | The loop builds the dictionary of the rows' pairs, a later row overwriting an earlier one |
| `Tab4Simple.ReadGroup` | tvpl_crawler/playwright_extract_simple.py:44-104 | The per-header code yields that header's group |
| `Tab4Simple.AppendGroupRelations` | tvpl_crawler/playwright_extract_simple.py:106 | Recording one more group sets its title to its relation list |
| `Tab4Simple.AppendGroupSummary` | tvpl_crawler/playwright_extract_simple.py:107 | Recording one more group sets its title's summary to its count |
| `Tab4Simple.AppendGroupTotal` | tvpl_crawler/playwright_extract_simple.py:108 | Recording one more group adds its count to the total |
| `Tab4Simple.GroupsStep` | tvpl_crawler/playwright_extract_simple.py:43-108 | Each header the loop reads adds its group, if any, last |
| `Tab4Simple.RecordGroup` | tvpl_crawler/playwright_extract_simple.py:106-108 | Recording a group keeps the three results in step with the group list |
| `Tab4Simple.AddGroup` | tvpl_crawler/playwright_extract_simple.py:66-75 | Recording the group a header gave, if any, puts its relations and their count under its title and adds the count to the total, keeping the three results in step with the group list |
| `Tab4Simple.ExtractRelations` | tvpl_crawler/playwright_extract_simple.py:28-108 | Relations, summary and total are the dictionary of the groups, the dictionary of their counts and the sum of their counts |
| `Tab4Simple.ExtractTab4Simple` | tvpl_crawler/playwright_extract_simple.py:7-119 | The four results are the `doc_info` dictionary, the relations, the summary and the total of the groups |
| `Tab4Simple.LastCount` | tvpl_crawler/playwright_extract_simple.py:106-107 | A title's last summary entry exists exactly when its last group does, and is that group's length |
| `Tab4Simple.SummaryIsLength` | tvpl_crawler/playwright_extract_simple.py:106-107 | Each title's summary entry is the length of its relation list |
| `Tab4Simple.TotalIsSummarySum` | tvpl_crawler/playwright_extract_simple.py:107-108 | With distinct titles the total is the sum of the summary values |
| `Tab4Simple.DocInfoLastRow` | tvpl_crawler/playwright_extract_simple.py:22-23 | Each key of `doc_info` holds the value of the last row with that key, which is neither empty nor "..." |
| `SmartSeparator.TypeSetsDisjoint` | core/extractors/formula_separator.py:16-27 | No type is both a formula type and a parameter type |
| `SmartSeparator.CountOps` | core/extractors/formula_separator.py:59-60 | The operator count is zero exactly when the text holds none of × * / + - |
| `SmartSeparator.NextClose` | core/extractors/formula_separator.py:54 | The first ')' at or after a position, or the end when there is none |
| `SmartSeparator.FirstBracket` | core/extractors/formula_separator.py:54 | The leftmost position where `\(([^)]+)\)` matches, and none only when no position matches |
| `SmartSeparator.BracketGroup` | core/extractors/formula_separator.py:54-55 | The captured bracket content is non-empty and holds no ')' |
| `SmartSeparator.BracketedOperatorSuffices` | core/extractors/formula_separator.py:52-56 | An operator inside the first bracket pair, with no opening bracket before it, makes the text complex arithmetic |
| `SmartSeparator.NextCloseRun` | core/extractors/formula_separator.py:54 | The first ')' after a run without one is the one that ends the run |
| `SmartSeparator.FirstBracketIs` | core/extractors/formula_separator.py:54 | A bracket match with no opening bracket before it is the leftmost one |
| `SmartSeparator.BracketPairAt` | core/extractors/formula_separator.py:54 | Brackets around a non-empty text without ')' match there, and the group ends at that closing bracket |
| `SmartSeparator.TwoOperatorsSuffice` | core/extractors/formula_separator.py:58-62 | Two operators anywhere make the text complex arithmetic |
| `SmartSeparator.CountOpsAtLeastTwo` | core/extractors/formula_separator.py:60 | Two operator positions give a count of at least two |
| `SmartSeparator.OperatorBeforeLetter` | core/extractors/formula_separator.py:64-66 | A single ×, * or / directly followed by a letter makes the text complex arithmetic |
| `SmartSeparator.NoOperatorNoMath` | core/extractors/formula_separator.py:50-68 | Text with no operator is never complex arithmetic |
| `SmartSeparator.TypeDecidesFirst` | core/extractors/formula_separator.py:29-48 | A formula type makes a formula and a parameter type a parameter whatever the text says; otherwise the item is a formula exactly when its text has complex arithmetic, so the simple-definition test never changes the answer |
| `SmartSeparator.ValueAfterSep` | core/extractors/formula_separator.py:87-89 | The value after the first ':' or '=' is a single line |
| `SmartSeparator.FirstMarker` | core/extractors/formula_separator.py:91 | The leftmost list marker at or after a position, or the end when there is none |
| `SmartSeparator.DropListTail` | core/extractors/formula_separator.py:91 | Removing the list tail keeps a prefix of the value |
| `SmartSeparator.CleanValueAsWritten` | core/extractors/formula_separator.py:84-93 | Without a separator the text is returned as it is; otherwise the result is a prefix of the value after the separator |
| `SmartSeparator.CleanValue` | core/extractors/formula_separator.py:84-93 | The intended cleaning has the same shape: the text itself without a separator, else a prefix of the value after it |
| `SmartSeparator.AsWrittenErasesLeadingAmount` | core/extractors/formula_separator.py:91 | As written, a value that starts with digits and a dot is erased entirely |
| `SmartSeparator.ValueOfDefinition` | core/extractors/formula_separator.py:87-89 | The value read from "name: value" is that value, when the name holds no separator and the value is a trimmed single line |
| `SmartSeparator.AsWrittenErasesAmounts` | core/extractors/formula_separator.py:84-93 | As written, a definition whose value starts with an amount such as "1.800.000" cleans to "" |
| `SmartSeparator.IntendedKeepsDefinitionValue` | core/extractors/formula_separator.py:84-93 | With the intended marker pattern the same definitions keep their whole value |
| `SmartSeparator.IntendedKeepsAmounts` | core/extractors/formula_separator.py:91 | With the intended pattern a value with no white space directly before a digit is kept whole |
| `SmartSeparator.IntendedDropsListItem` | core/extractors/formula_separator.py:91 | With the intended pattern a trailing list item " 8. …" is still cut off |
| `SmartSeparator.FirstMarkerIs` | core/extractors/formula_separator.py:91 | A marker with none before it is the leftmost one |
| `SmartSeparator.CutContext` | core/extractors/formula_separator.py:112 | A context of at most 100 characters is kept; a longer one becomes its first 100 characters followed by "..." |
| `SmartSeparator.Separate` | core/extractors/formula_separator.py:95-123 | The formulas are the items judged true formulas, unchanged and in order; the parameters are the others converted in order, each value cleaned by `extract_clean_value` as written; the totals are the list lengths and the input count |
| `SmartSeparator.ParameterErasesAmount` | core/extractors/formula_separator.py:107-114 | As a result, an item judged a parameter whose text is a definition of an amount such as "Mức: 1.800.000 đồng" is stored with an empty value |
| `SmartSeparator.SeparateTotals` | core/extractors/formula_separator.py:116-121 | Every item goes to exactly one list, so the totals add up to the input count, and the formulas are exactly the items judged formulas |
| `FormulaItems.Select` | formula_parameter_separator.py:72-74 | Keeping the items that pass a test never yields more items than were given |
| `FormulaItems.SelectCounts` | formula_parameter_separator.py:72-85 | The kept items and the rejected items together number all the items |
| `FormulaItems.SelectMembers` | formula_parameter_separator.py:72-74 | The kept items are exactly the input items that pass the test |
| `FormulaItems.FirstSep` | core/extractors/formula_separator.py:87 | The first ':' or '=' at or after a position, or none when there is no such character |
| `FormulaItems.LineEnd` | core/extractors/formula_separator.py:87 | The end of the current line: no newline lies before it |
| `ParamSeparator.HasMathOperations` | formula_parameter_separator.py:31-39 | A lone '=' is a definition, not arithmetic: the result is true exactly when one of + - × * / ÷ ( ) occurs |
| `ParamSeparator.ParameterCriteria` | formula_parameter_separator.py:41-63 | An item is a parameter exactly when its text has no arithmetic operator, its type is not a calculation type and its lower-cased text holds no calculation keyword |
| `ParamSeparator.FirstValueSep` | formula_parameter_separator.py:98 | The leftmost position where `[:=]\s*([^.]+)` matches, or none when it matches nowhere |
| `ParamSeparator.DotFrom` | formula_parameter_separator.py:98 | The first '.' at or after a position, or the end |
| `ParamSeparator.ExtractValue` | formula_parameter_separator.py:95-101 | Text the pattern does not match is returned as it is; a matched value holds no '.' |
| `ParamSeparator.ExtractValueOfDefinition` | formula_parameter_separator.py:95-101 | The value read from "name: value." is the value, when the name holds no separator and the value is trimmed and holds no dot |
| `ParamSeparator.SeparateFormulasParameters` | formula_parameter_separator.py:65-93 | The formulas are the items judged true formulas, unchanged and in order; the parameters are the other items converted in order; the totals are the two list lengths |
| `FormulaItems.ConvertedCount` | formula_parameter_separator.py:72-85 | Both separators make one parameter per item not judged a formula |
| `ParamSeparator.SeparateTotals` | formula_parameter_separator.py:87-91 | Every item goes to exactly one list, so the totals add up to the input count, and the formulas are exactly the items judged formulas |
| `ParamSeparator.ParametersKeepOriginal` | formula_parameter_separator.py:76-85 | Each parameter is the conversion of an input item judged not a formula, keeps that item's text as its original formula, and that text holds no arithmetic operator |
| `GapAnalysis.DropPunct` | scripts/analysis/gap_analyzer.py:35 | Deleting the runs of ",;:" never lengthens the text and keeps exactly its other characters |
| `GapAnalysis.Cleaned` | scripts/analysis/gap_analyzer.py:34-35 | After collapsing white space and deleting ",;:" no such character is left and every white-space character is a plain space |
| `GapAnalysis.Dashes` | scripts/analysis/gap_analyzer.py:36 | Replacing the en dash and '×' keeps the length and leaves no en dash or '×' in cleaned text |
| `GapAnalysis.Normalize` | scripts/analysis/gap_analyzer.py:31-37 | A normalised formula holds no ",;:", no en dash, no '×', no upper-case ASCII letter, and no space at either end |
| `GapAnalysis.NormalizeKeepsNormalText` | scripts/analysis/gap_analyzer.py:31-37 | A text that is already lower case, free of the removed marks, single-spaced and trimmed is its own normal form |
| `GapAnalysis.SpacedPunctuationKeepsBothSpaces` | scripts/analysis/gap_analyzer.py:31-37 | Normalisation is not idempotent: a mark between spaces ("a , b") leaves two spaces, so it keys differently from "a b", which is kept as it is |
| `GapAnalysis.FormulaPairs` | scripts/analysis/gap_analyzer.py:62-69 | Only formulas with a non-empty text take part, each under its normalised text |
| `GapAnalysis.ParamPairs` | scripts/analysis/gap_analyzer.py:83-90 | Only parameters with a non-empty name take part, each under its normalised "name: value" key |
| `GapAnalysis.Unmatched` | scripts/analysis/gap_analyzer.py:75-80 | The entries kept are exactly the entries of one side whose key the other side lacks |
| `GapAnalysis.CompareUrlResults` | scripts/analysis/gap_analyzer.py:39-103 | The URL is the first truthy URL of the two results; when either side reports an error, nothing is missed and nothing is a false positive |
| `GapAnalysis.UnmatchedKeys` | scripts/analysis/gap_analyzer.py:71-80 | The missed keys are the LLM keys minus the regex keys, the false-positive keys the regex keys minus the LLM keys, and no key is both |
| `GapAnalysis.ParametersKeyedByName` | scripts/analysis/gap_analyzer.py:83-101 | Every missed or false-positive parameter has a name, sits under its own normalised key and comes from one of the two results |
| `GapAnalysis.MissedFormulasKeyed` | scripts/analysis/gap_analyzer.py:66-76 | Each missed formula has a text, sits under its normalised text, and the regex side has no formula under that key |
| `GapAnalysis.UrlMap` | scripts/analysis/gap_analyzer.py:124-125 | The map's keys are the URLs of the records and each URL maps to a record carrying that URL |
| `GapAnalysis.Comparisons` | scripts/analysis/gap_analyzer.py:138-143 | One comparison per URL, in iteration order, of that URL's two results, a missing one replaced by an error record |
| `GapAnalysis.Values` | scripts/analysis/gap_analyzer.py:76 | The entries of a dictionary in their order, one per key |
| `GapAnalysis.PatternOf` | scripts/analysis/gap_analyzer.py:206-213 | The pattern a missed formula is counted under is one of the three named patterns |
| `GapAnalysis.CollectMissed` | scripts/analysis/gap_analyzer.py:196-201 | The collected formulas and parameters are every comparison's missed entries, in order |
| `GapAnalysis.CountPatterns` | scripts/analysis/gap_analyzer.py:204-213 | The loop builds the pattern counts of the missed formulas |
| `GapAnalysis.ExtractLearningTargets` | scripts/analysis/gap_analyzer.py:194-220 | The learning targets are the samples, pattern counts and opportunity total of the comparisons |
| `GapAnalysis.PatternCountsAreCounts` | scripts/analysis/gap_analyzer.py:204-213 | Each pattern's count is the number of missed formulas whose first matching pattern it is, and a pattern no formula matches has no entry |
| `GapAnalysis.PatternCountsBounded` | scripts/analysis/gap_analyzer.py:208-213 | The three pattern counts together never exceed the number of missed formulas |
| `GapAnalysis.MissedCounts` | scripts/analysis/gap_analyzer.py:145-151 | The collected missed formulas and parameters number exactly the missed totals |
| `GapAnalysis.TallyComparisons` | scripts/analysis/gap_analyzer.py:138-153 | The loop collects each URL's comparison in order and its four totals are the sums over those comparisons |
| `GapAnalysis.CompareAll` | scripts/analysis/gap_analyzer.py:138-153 | Every URL is compared with its two results and the four totals are the sums over the comparisons |
| `GapAnalysis.Analyze` | scripts/analysis/gap_analyzer.py:105-192 | An empty side gives the empty report; a record without a URL stops with the missing-key error; otherwise the report covers every URL of either side once |
| `GapAnalysis.ReportOf` | scripts/analysis/gap_analyzer.py:160-174 | The report counts one URL per comparison, keeps the comparisons, its gap score equals the learning opportunities, and each sample holds at most five entries |
| `GapAnalysis.MissingSideAddsNothing` | scripts/analysis/gap_analyzer.py:139-142 | A URL only one side has a result for adds no missed entry and no false positive |
| `GapAnalysis.DistinctCount` | scripts/analysis/gap_analyzer.py:128 | A list of distinct URLs has as many elements as its set |
| `GapAnalysis.UrlsProcessed` | scripts/analysis/gap_analyzer.py:164 | The number of URLs processed is the number of distinct URLs of both sides |
| `LlmExtract.MapFilter` | scripts/extract/improved_llm_extractor.py:39-43 | Every element kept passes the test |
| `LlmExtract.MapFilterMembers` | scripts/extract/improved_llm_extractor.py:39-43 | A value is kept exactly when it passes the test and is the mapped form of some input |
| `LlmExtract.MathLines` | scripts/extract/improved_llm_extractor.py:40-43 | Every kept line is stripped, longer than 10 characters and holds a math symbol |
| `LlmExtract.MathLinesKept` | scripts/extract/improved_llm_extractor.py:40-43 | A line is kept exactly when it is the stripped form of an input line and passes the length and symbol test |
| `LlmExtract.FilterLines` | scripts/extract/improved_llm_extractor.py:38-43 | The loop keeps the stripped math lines of the content, in order |
| `LlmExtract.Segments` | scripts/extract/improved_llm_extractor.py:46-55 | There are segments exactly when there are lines, and no segment is empty |
| `LlmExtract.SegmentsFlatten` | scripts/extract/improved_llm_extractor.py:46-55 | The segments hold every line once, in order |
| `LlmExtract.SegmentsStartAtEquals` | scripts/extract/improved_llm_extractor.py:49-51 | Every segment after the first starts with a line holding '=' |
| `LlmExtract.SegmentsContinue` | scripts/extract/improved_llm_extractor.py:52-53 | No line of a segment other than its first holds '=' |
| `LlmExtract.JoinedOf` | scripts/extract/improved_llm_extractor.py:46-55 | One joined line per segment |
| `LlmExtract.StripPending` | scripts/extract/improved_llm_extractor.py:50-55 | Stripping the buffer drops the space placed before the first segment's first line |
| `LlmExtract.JoinLines` | scripts/extract/improved_llm_extractor.py:45-55 | The loop emits each segment's lines joined by spaces and stripped, one per segment |
| `LlmExtract.Rewrite` | scripts/extract/improved_llm_extractor.py:73 | The rewrite keeps the length, leaves no '/' or '*', and changes only those two characters |
| `LlmExtract.SlashExclusionsNeverFire` | scripts/extract/improved_llm_extractor.py:73-110 | As written, after the rewrite no date, no document code and no "đồng/tháng" can be found in the validated text |
| `LlmExtract.SlashFreeNoDate` | scripts/extract/improved_llm_extractor.py:103-104 | Text without '/' matches neither the date nor the document-code pattern |
| `LlmExtract.DatedFormulaRejected` | scripts/extract/improved_llm_extractor.py:96-117 | The dated formula "ngày 01/01/2024 = x + 1", validated before the rewrite, is rejected |
| `LlmExtract.RewrittenDatedFormulaAccepted` | scripts/extract/improved_llm_extractor.py:96-117 | The same formula after the rewrite passes validation |
| `LlmExtract.AsWrittenAcceptsDates` | scripts/extract/improved_llm_extractor.py:70-75 | As written, the dated formula is accepted, while validating it before the rewrite rejects it |
| `LlmExtract.Classify` | scripts/extract/improved_llm_extractor.py:119-132 | The kind is one of the six named kinds, and the complex kind only when the text holds neither '×' nor '÷' |
| `LlmExtract.RewrittenOperatorsClassified` | scripts/extract/improved_llm_extractor.py:73-130 | Without salary, tax or percent, a formula with an ASCII '*' is classified as multiplication, and one with only '/' as division |
| `LlmExtract.OperatorCount` | scripts/extract/improved_llm_extractor.py:136 | The number of operators never exceeds the length |
| `LlmExtract.KeywordBonus` | scripts/extract/improved_llm_extractor.py:138-140 | The keyword bonus is at most three hundredths per keyword |
| `LlmExtract.Confidence` | scripts/extract/improved_llm_extractor.py:134-144 | In hundredths the confidence lies between 75 and 98, is at least 95 with seven operators, and is 98 or 75 plus the capped operator bonus, the keyword bonus and the context bonus |
| `LlmExtract.ConfidenceGrows` | scripts/extract/improved_llm_extractor.py:134-144 | Appending text never lowers the confidence |
| `LlmExtract.OperatorCountGrows` | scripts/extract/improved_llm_extractor.py:136 | Appending text never lowers the operator count |
| `LlmExtract.KeywordBonusGrows` | scripts/extract/improved_llm_extractor.py:138-140 | Appending text never lowers the keyword bonus |
| `LlmExtract.DropNumberedLetter` | scripts/extract/improved_llm_extractor.py:147 | Removing a "1. a)" marker leaves a suffix of the text |
| `LlmExtract.DropNumber` | scripts/extract/improved_llm_extractor.py:148 | Removing a "1." or "1)" marker leaves a suffix of the text |
| `LlmExtract.DropLetter` | scripts/extract/improved_llm_extractor.py:149 | Removing an "a)" marker leaves a suffix of the text |
| `LlmExtract.ExtractName` | scripts/extract/improved_llm_extractor.py:146-151 | The name is at most 60 characters, its only white space is single plain spaces |
| `LlmExtract.LetterMarkerDropped` | scripts/extract/improved_llm_extractor.py:146-151 | A lettered item "a) text" loses its marker and keeps only the text |
| `LlmExtract.RecordOf` | scripts/extract/improved_llm_extractor.py:76-84 | The record holds the formula, its classified kind, the matching description, a confidence between 0.75 and 0.98 and a name of at most 60 characters |
| `LlmExtract.CandidateAsWritten` | scripts/extract/improved_llm_extractor.py:69-84 | As written, a match yields a record exactly when its rewritten formula passes validation; the record holds the rewritten formula and a confidence in range |
| `LlmExtract.Candidate` | scripts/extract/improved_llm_extractor.py:69-84 | The corrected order: a match yields a record exactly when the formula as found passes the same validation; the record holds the rewritten formula and a confidence in range |
| `LlmExtract.DatedCandidate` | scripts/extract/improved_llm_extractor.py:69-84 | The dated example becomes a record as written and is rejected by the intended order |
| `LlmExtract.CandidateExcludesDates` | scripts/extract/improved_llm_extractor.py:97-115 | With the corrected order, an accepted formula, lower-cased as the validation does, carries no date, no document code and no "đồng/tháng", and its length is between 20 and 250 |
| `LlmExtract.Kept` | scripts/extract/improved_llm_extractor.py:69-84 | No more records than matches |
| `LlmExtract.KeptAppend` | scripts/extract/improved_llm_extractor.py:67-69 | The records of two runs of matches are the records of each, in order |
| `LlmExtract.KeptFromInputs` | scripts/extract/improved_llm_extractor.py:69-84 | Every record comes from some match |
| `LlmExtract.AppendKept` | scripts/extract/improved_llm_extractor.py:69-84 | The loop appends the records of the matches, in order, to what was collected |
| `LlmExtract.CollectFormulas` | scripts/extract/improved_llm_extractor.py:66-84 | The collected records are those of all matches of both patterns, pattern by pattern, each rewritten and then validated as written |
| `LlmExtract.DedupKey` | scripts/extract/improved_llm_extractor.py:156 | The key is at most 80 characters |
| `LlmExtract.DeduplicateFormulas` | scripts/extract/improved_llm_extractor.py:153-160 | The first record per key (`FirstSeen.Dedup` on the formula key, computed by `FirstSeen.DedupLoop`), sorted by decreasing confidence |
| `LlmExtract.DistinctKeysPermuted` | scripts/extract/improved_llm_extractor.py:160 | Sorting a list whose keys are distinct keeps them distinct |
| `LlmExtract.ExtractWithImprovedPrompt` | scripts/extract/improved_llm_extractor.py:35-93 | The result holds the extracted records, their count, the method name and the filtered and original content lengths |
| `LlmExtract.ExtractedFormulasProperties` | scripts/extract/improved_llm_extractor.py:35-93 | The output of the extraction as written is ordered by decreasing confidence, has one record per key, and every record scores 0.75 to 0.98, has a length in range and holds no ASCII '/' or '*' |
| `AdaptiveExtract.Score` | adaptive_formula_extractor.py:51 | A domain's score never exceeds its number of keywords |
| `AdaptiveExtract.Scores` | adaptive_formula_extractor.py:49-52 | One score per domain, in table order, each the number of that domain's keywords in the lower-cased text |
| `AdaptiveExtract.ArgMax` | adaptive_formula_extractor.py:54 | The chosen position holds a highest score and every earlier position a strictly lower one, so ties go to the first domain |
| `AdaptiveExtract.DetectDomain` | adaptive_formula_extractor.py:38-54 | The domain is "general" exactly when every score is zero; otherwise it is the first domain with the highest, positive score |
| `AdaptiveExtract.NoKeywordIsGeneral` | adaptive_formula_extractor.py:49-54 | A text that mentions no keyword of any domain is "general" |
| `AdaptiveExtract.ScoreZero` | adaptive_formula_extractor.py:51 | A text with none of the keywords scores zero |
| `AdaptiveExtract.AdaptiveFormulaExtractor.constructor` | adaptive_formula_extractor.py:11-12 | A new extractor holds the base extractor's patterns |
| `AdaptiveExtract.AdaptiveFormulaExtractor.AdaptivePatterns` | adaptive_formula_extractor.py:56-65 | The base patterns come first, unchanged; a known domain's own patterns follow them; for any other domain the list is the base list |
| `AdaptiveExtract.AdaptiveFormulaExtractor.ExtractFormulas` | adaptive_formula_extractor.py:67-105 | Without text the URL's content is fetched; no content gives the no-content result; otherwise the domain's patterns are used, the formulas come back sorted by confidence with the detected domain, and the base patterns are restored unless the extraction raised |
| `AdaptiveExtract.ExtractedOrdered` | adaptive_formula_extractor.py:91 | The returned formulas are ordered by confidence, highest first, and are exactly the extracted ones |
| `AdaptiveExtract.DetectedDomainHasPatterns` | adaptive_formula_extractor.py:15-54 | Every domain the detector can name other than "general" has patterns of its own |
| `DocFilter.CountWhere` | core/filters/document_filter.py:14 | The number of matching characters never exceeds the length |
| `DocFilter.AmountEnd` | core/filters/document_filter.py:8 | The run of `[0-9.,]` starting at a position ends at the first character outside that class |
| `DocFilter.ExclusionCount` | core/filters/document_filter.py:15 | Each of the two exclude patterns counts once at most |
| `DocFilter.HasFormulas` | core/filters/document_filter.py:11-16 | Content shorter than 50 characters is refused; otherwise it is accepted exactly when the indicator matches minus twice the exclusions reach one, so an accepted document has at least one indicator |
| `DocFilter.AmountMatchesSnoc` | core/filters/document_filter.py:8 | Appending a character no literal can use adds no amount match |
| `DocFilter.ExclusionsSnocEquals` | core/filters/document_filter.py:9 | Appending '=' changes no exclusion |
| `DocFilter.MoreIndicatorsKeepAccepted` | core/filters/document_filter.py:14-16 | Appending '=' adds exactly one indicator match and never turns an accepted document down |
| `PatternTracker.DetectPatterns` | scripts/analysis/human_in_loop_tracker.py:101-125 | No shape is reported twice |
| `PatternTracker.DetectPatternsShows` | scripts/analysis/human_in_loop_tracker.py:105-123 | A formula is tagged with a shape exactly when it shows it; any of '×', 'x', '*' counts as multiplication |
| `PatternTracker.GenerateRegex` | scripts/analysis/human_in_loop_tracker.py:127-136 | A known shape gets its own regex; any other gets the default one |
| `PatternTracker.DetectedPatternsHaveRegex` | scripts/analysis/human_in_loop_tracker.py:122-136 | Every detected shape has a regex other than the default |
| `PatternTracker.Matching` | scripts/analysis/human_in_loop_tracker.py:55-64 | Every finding of a group is an unanalysed input finding that shows the shape |
| `PatternTracker.GroupsAreMatching` | scripts/analysis/human_in_loop_tracker.py:53-64 | The group of a shape holds exactly the unanalysed findings showing it, in order, and a shape none shows has no group |
| `PatternTracker.AnalysedFindingsIgnored` | scripts/analysis/human_in_loop_tracker.py:56-57 | When every finding is already analysed no group is formed |
| `PatternTracker.GroupFindings` | scripts/analysis/human_in_loop_tracker.py:53-64 | The loop builds the groups of the unanalysed findings |
| `PatternTracker.AddFinding` | scripts/analysis/human_in_loop_tracker.py:62-64 | The inner loop appends the finding to the group of each of its patterns, in order |
| `PatternTracker.Examples` | scripts/analysis/human_in_loop_tracker.py:73 | At most three examples, the first findings' formulas each cut to 100 characters |
| `PatternTracker.SuggestionsSound` | scripts/analysis/human_in_loop_tracker.py:67-77 | Every suggestion is that of a group with at least the minimum number of findings; each counts at least the minimum and has at most three examples |
| `PatternTracker.SuggestionsComplete` | scripts/analysis/human_in_loop_tracker.py:67-77 | Every group with at least the minimum number of findings has its suggestion |
| `PatternTracker.BuildSuggestions` | scripts/analysis/human_in_loop_tracker.py:67-77 | The loop builds the suggestions of the groups |
| `PatternTracker.MarkAnalyzed` | scripts/analysis/human_in_loop_tracker.py:83-84 | Every finding is kept, in place, and marked analysed |
| `PatternTracker.MarkPattern` | scripts/analysis/human_in_loop_tracker.py:155-157 | Every suggestion is kept in place; those for the pattern become implemented |
| `PatternTracker.Pending` | scripts/analysis/human_in_loop_tracker.py:140-141 | The pending suggestions are exactly those not implemented |
| `PatternTracker.MarkedNotPending` | scripts/analysis/human_in_loop_tracker.py:140-157 | After marking a pattern implemented no suggestion for it is pending, and every other pending suggestion still is |
| `PatternTracker.Tracker.constructor` | scripts/analysis/human_in_loop_tracker.py:23-27 | A tracker without a data file starts with no findings and no suggestions |
| `PatternTracker.Tracker.TrackLayer2Finding` | scripts/analysis/human_in_loop_tracker.py:35-46 | The new, unanalysed finding is appended and the suggestions are unchanged |
| `PatternTracker.Tracker.AnalyzePatterns` | scripts/analysis/human_in_loop_tracker.py:48-99 | The result is the suggestions of the unanalysed findings' groups, they are appended to the stored suggestions, and every finding becomes analysed |
| `PatternTracker.Tracker.MarkAllAnalyzed` | scripts/analysis/human_in_loop_tracker.py:82-84 | Every finding is marked analysed and nothing else changes |
| `PatternTracker.Tracker.MarkImplemented` | scripts/analysis/human_in_loop_tracker.py:153-158 | The pattern's suggestions become implemented and the findings are unchanged |
| `PatternTracker.AnalyseTwiceSuggestsNothing` | scripts/analysis/human_in_loop_tracker.py:48-99 | A second analysis with no new findings suggests nothing |
| `PatternTracker.TrackedFindingGrouped` | scripts/analysis/human_in_loop_tracker.py:35-64 | A tracked finding joins, at the end, the group of every shape it shows |
| `Sorting.InsertDesc` | scripts/extract/improved_llm_extractor.py:160 | Inserting one element adds exactly that element |
| `Sorting.SortDesc` | scripts/extract/improved_llm_extractor.py:160 | The sorted list is a permutation of the input |
| `Sorting.WithKey` | scripts/extract/improved_llm_extractor.py:160 | The elements with one key are no more than the input |
| `Sorting.InsertDescSorted` | scripts/extract/improved_llm_extractor.py:160 | Inserting into a list sorted by decreasing key keeps it sorted |
| `Sorting.SortDescSorted` | adaptive_formula_extractor.py:91 | The sort puts larger keys first |
| `Sorting.SortDescStable` | adaptive_formula_extractor.py:91 | The sort is stable: elements with the same key keep their order |

## Left out

- Browser automation (Playwright page navigation, clicks, cookie banners, screenshots, file downloads) is not modelled; what a page yields is an input of the model.
- OCR image processing for the CAPTCHA is not modelled; each attempt is given by its OCR readings and by whether the site accepted the code.
- Network and store I/O (HTTP, Supabase and PostgreSQL calls, FastAPI wiring, subprocesses) is not modelled; the store is a value or a class holding maps and sequences. A store error the source catches per record is a per-record fault flag; the store errors listed below are not modelled.
- Concurrency, timing, random delays, retries after time-outs and the wall-clock rate limit of `api/main.py` are left out; they decide when things happen, not what is written.
- Calls to language models and the regular-expression search of the rule-based extractor are parameters: `LlmExtract.ExtractWithImprovedPrompt` takes the matches of each pattern as the function `findMatches`.
- Hashes (sha256/md5 over JSON), URL canonicalisation and joining (`urlparse`, `urlunparse`, `urljoin`) and the HTML-reading regular expressions are opaque parameters; their own behaviour is not modelled.
- Floating point: confidences are exact `real`s, and the rule-based extractor's confidence is kept in integer hundredths, which is what `round(..., 2)` of those sums gives.
- Common.Lower: lower-cases ASCII and the Vietnamese letters only; other Unicode case pairs, and Unicode white space and word characters beyond ASCII and Vietnamese, are not modelled. `\d` is taken as the ASCII digits.
- LlmExtract.FilterLines: `str.splitlines()` is taken as a split at '\n'; the other line boundaries it honours ('\r', '\x0b', '\x0c', '\x1c' to '\x1e', '\x85', '\u2028', '\u2029') are not modelled.
- Dates.Strptime: `datetime.strptime(s, "%d/%m/%Y")` is modelled for ASCII digits only; the non-ASCII decimal digits that Python's `\d` also accepts are rejected by the model.
- Harvest.Crawl: in the browser version a navigation failure that survives its one retry raises out of the whole crawl (tvpl_crawler/links_playwright.py:48-60), so no result is returned; the model treats such a page like any other page error, which is skipped.
- TnplDedup: the order in which `fix_tnpl_duplicates.py` deletes the surplus records (by `created_at`) is not modelled; the model states which record is kept and which are removed, which does not depend on that order.
- The `/transform` endpoint of `api/main.py` (lines 466-469) returns its request body as it is; it has no logic beyond the identity, so it is not a member of the model.
- File output (JSON and CSV reports, the tracker's data file, console summaries) is not modelled; the tracker is modelled from an empty data file.
- FullImport.MetaStepLateFailure: the counter of inserted documents is bumped before the id lookup, so a failure of that lookup leaves a document counted as inserted and also counted as an error; the model keeps that behaviour rather than the one-counter-per-document rule.
- N8nImport.ImportDocuments: an awaited store call that fails aborts the whole n8n node; the model has no store failure here, so it does not capture a batch cut short.
- PyImport.ImportAll: a failing upsert, select or insert inside `import_document` is caught by `main` (test_supabase_import.py:88-94) and counted neither as inserted nor as skipped; the model raises only the NULL-date TypeError, so these other failures are not modelled.
- UpsertLinks.CrawlUrlTable.UpsertLinks: an exception from a store call inside the loop (tvpl_crawler/upsert_links.py:44-85) ends the run; the model has no store failure here.
- ImportV2.V2Db.SaveDocument: a store call that raises inside `save_document` is caught by the import loop and counted as an error; the model has no store failure here.
- N8nImport.RerunIsNoop and PyImport.RerunInsertsNothing: re-run idempotence is proved only for batches with distinct URLs. When a batch holds one URL twice with different hashes, every run inserts both documents again; `N8nImport.DuplicateUrlReinserted` and `PyImport.DuplicateUrlReinserted` show this.
- GapAnalysis.Unmatched: the source builds the missed and false-positive lists by iterating set differences of string keys, whose order depends on string hashing; the model takes them in the order of the source dict, one of the orders the program may produce. The five samples of `all_missed_formulas[:5]` and the insertion order of the pattern counts are those of that order.
- SmartSeparator.ToParameter, ParamSeparator.ToParameter, FormulaItems.FormulaText, FormulaItems.TypeOf and GapAnalysis.ParamPairs: a JSON field present with the value null is read like a missing one (the default). In Python `item.get(k, default)` returns None for a null, so `.strip()` (core/extractors/formula_separator.py:109) raises, a copied field holds None, and a parameter's key is formatted with "None"; the model does not capture these cases.
- N8nImport.StepSettles: re-running a batch is idempotent except for documents whose date reads as a positive JavaScript number (" 7", "1.5", "1e3", "+5", "0x1F", "Infinity"), which JavaScript compares greater than the NULL date the node itself stored; the model keeps that exception (`N8nImport.NumericDateReinserted`).
- PyImport: a stored version whose `ngay_cap_nhat` is NULL makes the Python comparison raise a TypeError; the model gives that document an error result, which counts as neither inserted nor skipped.
- JsNumber.Positive: a literal's value is kept exact and rounded to zero only below half of 2^-1074; section 7.1.4.1.1 of ECMA-262 lets an engine round a literal with more than 20 significant digits from a truncated form, which can only change the answer within a hair of that bound.

## Findings

| source | as written | input that shows it | evidently intended | confidence | as-written member | corrected member |
|---|---|---|---|---|---|---|
| core/extractors/formula_separator.py:91 | the list tail is cut at `\s*\d+\.`, which also matches at the very start of the value | "Mức: 1.800.000 đồng" cleans to "" | cut only at a numbered list item preceded by white space, `\s+\d+\.` | not executed | `SmartSeparator.CleanValueAsWritten` (`SmartSeparator.AsWrittenErasesAmounts`, `SmartSeparator.ParameterErasesAmount`) | `SmartSeparator.CleanValue` (`SmartSeparator.IntendedKeepsDefinitionValue`, `SmartSeparator.IntendedKeepsAmounts`) |
| scripts/extract/improved_llm_extractor.py:73 | '/' is rewritten to '÷' before `_is_valid_formula`, so the date, document-code and "đồng/tháng" exclusions can never match (the extraction, `LlmExtract.CollectFormulas`, keeps this order) | "ngày 01/01/2024 = x + 1" is accepted as a formula | validate the formula as found, then rewrite its operators | not executed | `LlmExtract.CandidateAsWritten` (`LlmExtract.AsWrittenAcceptsDates`) | `LlmExtract.Candidate` (`LlmExtract.CandidateExcludesDates`) |
