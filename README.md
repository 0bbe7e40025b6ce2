# Item migration model (cds_ils/migrator/items/api.py)

A Dafny model of the CDS-ILS item migrator. It reads a dump of legacy item
records and, for each record in input order:

- sets `internal_location_pid` from the internal location migrated under
  `id_crcLIBRARY`;
- sets `document_pid` in two tiers: first the document migrated under
  `id_bibrec`, then the document whose volumes carry the item's barcode
  within that `id_bibrec`;
- cleans the record;
- asks the item search for the barcode;
- imports and commits a new item when the search does not find exactly one,
  rolling back when the import or the commit raises.

Two loggers record what happened: `migrated_records` gets `ITEM: <barcode> OK`
and `records_errored` gets `ITEM: <barcode> ERROR: <reason>`.

Files:

- `wrappers.dfy`: `Option` (Python's `None`) and `Result` (a raised exception).
- `items_api.dfy` (module `ItemsApi`):
  - the record (`LegacyItem`, the mutable dict `RecordDict`);
  - the catalog (`Item`) and the log entries (`LogEntry`, rendered by `Text`);
  - the collaborators whose code is not modelled (`Services`);
  - the specification of one loop iteration (`Step`) and of the whole loop (`Run`);
  - the class `Migrator` with the source's functions as methods proved against those specifications.
- `items_api_properties.dfy` (module `ItemsApiProperties`): lemmas about runs.
  They cover the duplicate check, append-only logs, where a run stops, reruns,
  ambiguous barcodes and the references of created items.

Behaviour a reader might not expect, which the model follows:

- A failed internal-location lookup (line 89) is not caught. It ends the whole
  batch (`BatchStopsAtMissingLocation`), where a skip of that one record might be expected.
- `get_item_by_barcode` raises the same `ItemMigrationError` for no hit and for
  more than one hit (lines 144-152). The `except` at line 116 therefore imports
  a record whose barcode is already ambiguous (`AmbiguousBarcodeIsImported`).
- A document that neither tier finds is logged twice, with the same line
  (`DocumentMissLogsTwice`).
- A primary pid that is the empty string is falsy. The barcode lookup is then
  consulted without a first error line. If that lookup also fails,
  `document_pid` stays `""` rather than `None` (`ResolveDocument`).
- Rerunning a dump creates nothing (`RerunIsIdempotent`), provided every
  import of the first run committed and no barcode of a record it processed
  was already in the catalog twice. A barcode repeated within the dump is imported once and
  found by its later records. A first run that stopped at a missing location
  stops at the same record again.

## Model

| member | source | states |
|---|---|---|
| `ItemsApi.Migrator.SetInternalLocationPid` | cds_ils/migrator/items/api.py:33-40 | sets `internal_location_pid` to the pid the location lookup gives for `id_crcLIBRARY` and changes no other key; when the lookup raises, the record is untouched and the error is returned to the caller |
| `ItemsApi.Migrator.SetDocumentPid` | cds_ils/migrator/items/api.py:43-73 | the record, the error log and the raised flag after the call are exactly those `ResolveDocument` gives; the catalog and the migrated log are unchanged |
| `ItemsApi.ResolveDocument` | cds_ils/migrator/items/api.py:43-73 | only `document_pid` changes. A truthy primary pid wins with nothing logged. Otherwise the barcode lookup's pid is taken. It raises exactly when the primary pid is falsy and the barcode lookup raises, and then `document_pid` keeps the primary's falsy value. One `Document <id> not found` line per tier that raised. Any pid set comes from one of the two document lookups |
| `ItemsApi.Located` | cds_ils/migrator/items/api.py:33-40 | the record with `internal_location_pid` set to the pid of the location migrated under `id_crcLIBRARY` and every other key unchanged; defined only when that lookup succeeds |
| `ItemsApi.Search` | cds_ils/migrator/items/api.py:136-143 | the term query on `barcode` over the committed catalog, in catalog order; its properties are `SearchHits` and `SearchCountsBarcode` |
| `ItemsApi.SearchHits` | cds_ils/migrator/items/api.py:136-143 | the term query's hits are exactly the catalog items carrying the barcode |
| `ItemsApi.GetItemByBarcode` | cds_ils/migrator/items/api.py:143-156 | returns the first hit exactly when the hit list is non-empty and the total is 1; an empty hit list or a total below 1 raises "no item found", a total above 1 raises "found more than one item" |
| `ItemsApi.DedupAndImport` | cds_ils/migrator/items/api.py:105-131 | the duplicate check on the cleaned record: one hit skips it; no hit or several lead to `import_record` and a commit, logging OK and adding the item, or to a rollback with an error line; its properties are `StepOutcomes` and `StepErrorLines` |
| `ItemsApi.Step` | cds_ils/migrator/items/api.py:89-131 | one iteration of the loop on a record: location, document, cleaning, duplicate check and import, in the source's order; its properties are `StepOutcomes`, `StepErrorLines` and `StepReachesDedup` |
| `ItemsApi.StepOutcomes` | cds_ils/migrator/items/api.py:89-131 | a missing location ends the batch with nothing changed. Only records that resolve and clean reach the duplicate check. An existing item is the single hit of its search. Zero or several hits lead to the import. Only a committed import adds an item and an OK line, one of each. The error log only grows, and every error skip adds to it |
| `ItemsApi.StepErrorLines` | cds_ils/migrator/items/api.py:91-131 | the exact error lines of each skip: the resolution's lines for a missing document; those plus `ITEM: <barcode> ERROR: <str(e)>` for a failed clean, import or commit, with the reason coming from that call. A record is imported exactly when it reaches the import path, `import_record` returns a pid and the commit does not raise, and then the outcome carries that pid |
| `ItemsApi.StepReachesDedup` | cds_ils/migrator/items/api.py:89-116 | a record that resolves and cleans reaches the duplicate check with the resolution's error lines already logged |
| `ItemsApi.Migrator.MigrateRecord` | cds_ils/migrator/items/api.py:89-131 | one loop iteration on the record objects and the session leaves the catalog and logs as `Step` says and reports `Step`'s outcome; a failed import or commit restores the catalog snapshot |
| `ItemsApi.Text` | cds_ils/migrator/items/api.py:55-130 | renders the log lines `ITEM: <barcode> OK`, `ITEM: <barcode> ERROR: Document <id_bibrec> not found` and `ITEM: <barcode> ERROR: <str(e)>`, with `id_bibrec` in Python's decimal `str`; its properties are `MissLineNamesDocument` and `NatToDecimalRoundTrip` |
| `ItemsApi.Run` | cds_ils/migrator/items/api.py:82-131 | the loop over the dump: records in order, one `Step` each, ending after a record whose location lookup raised; its properties are the `ItemsApiProperties` run lemmas |
| `ItemsApi.Migrator.ImportItemsFromJson` | cds_ils/migrator/items/api.py:76-131 | the loop over the dump leaves the catalog and logs as `Run` says; the location lookup error escapes exactly when `Run` stopped at a missing location, naming that location |
| `ItemsApiProperties.SearchCountsBarcode` | cds_ils/migrator/items/api.py:142-143 | the hit total of the barcode query equals the number of catalog items with that barcode |
| `ItemsApiProperties.DedupMatchesCatalog` | cds_ils/migrator/items/api.py:142-156 | on the catalog, `get_item_by_barcode` returns an item exactly when one catalog item has the barcode, and that item is in the catalog; no item raises "no item found", several raise "found more than one item" |
| `ItemsApiProperties.PrimaryHitIgnoresFallback` | cds_ils/migrator/items/api.py:48-62 | with a truthy pid from the `id_bibrec` lookup, the result does not depend on the barcode lookup at all, and `document_pid` is that pid |
| `ItemsApiProperties.DocumentMissLogsTwice` | cds_ils/migrator/items/api.py:54-73 | a record whose document neither lookup finds is skipped with two identical `Document <id> not found` lines and no change to the catalog or the migrated log |
| `ItemsApi.NatToDecimalRoundTrip` | cds_ils/migrator/items/api.py:56-58 | the decimal text of an id in a log line is a non-empty digit string without a leading zero that reads back as the id |
| `ItemsApiProperties.MissLineNamesDocument` | cds_ils/migrator/items/api.py:55-59 | the `Document <id> not found` line is the `ITEM: <barcode> ERROR: Document ` prefix, the digits of `id_bibrec` that read back as that id, and the ` not found` suffix |
| `ItemsApiProperties.RunOnlyAppends` | cds_ils/migrator/items/api.py:117-131 | a run only appends: the catalog, the migrated log and the error log it ends with extend those it started from |
| `ItemsApiProperties.MigratedLogMirrorsCatalog` | cds_ils/migrator/items/api.py:117-124 | the migrated log gains exactly one `OK` entry per item the run creates, in creation order and with that item's barcode, and the number of `Imported` outcomes equals the number of items created |
| `ItemsApiProperties.RunSplit` | cds_ils/migrator/items/api.py:82-104 | when no record of `a` stops the run, running over `a + b` is running over `a` and then over `b` from where `a` left the store; a skipped record does not keep later records from being processed |
| `ItemsApiProperties.EveryLocatedRecordHasOutcome` | cds_ils/migrator/items/api.py:82-131 | when every location resolves, every record yields exactly one outcome and the run is not stopped |
| `ItemsApiProperties.BatchStopsAtMissingLocation` | cds_ils/migrator/items/api.py:89 | the first record with a missing location ends the batch: the run equals the run over the records before it, plus that record's outcome, and no later record is processed |
| `ItemsApiProperties.RerunCreatesNothing` | cds_ils/migrator/items/api.py:105-115 | when every processed record reaching the duplicate check has its barcode in the catalog exactly once, the run creates no item, writes no OK line, and a processed record is skipped as already migrated exactly when it reaches the duplicate check |
| `ItemsApiProperties.StepCounts` | cds_ils/migrator/items/api.py:105-131 | one record changes only the count of its own barcode, by one when imported, and leaves it at one when it was at most one and the import did not fail |
| `ItemsApiProperties.RunLeavesOneItemPerBarcode` | cds_ils/migrator/items/api.py:105-131 | a run without failed imports, over records whose locations all resolve and whose barcodes were not already in the catalog twice, leaves exactly one item per barcode, after cleaning, of every record that reaches the duplicate check, repeated barcodes included, and no other barcode's count changed; a record skipped for its document or its cleaning gets no item |
| `ItemsApiProperties.RerunIsIdempotent` | cds_ils/migrator/items/api.py:105-131 | when the first run had no failed import and no barcode of a record it processed was in the catalog twice, running the same dump a second time creates no item, writes no OK line and reports a record as already migrated exactly when it reaches the duplicate check; repeated barcodes and a run stopped at a missing location are included |
| `ItemsApiProperties.ImportThenRerun` | cds_ils/migrator/items/api.py:105-124 | a record with a new barcode is imported with exactly that item and one OK entry; rerunning it finds that item and creates nothing |
| `ItemsApiProperties.AmbiguousBarcodeIsImported` | cds_ils/migrator/items/api.py:144-152 | a barcode already on two or more items is imported again when import and commit succeed, so the catalog holds one more item with it |
| `ItemsApiProperties.CreatedItemsHaveReferences` | cds_ils/migrator/items/api.py:33-73 | when cleaning keeps the two pids, every item a run creates has an internal location pid and a document pid, both given by the lookups |

## Left out

- Console output, the progress bar and `json.load` of the dump file (lines 78-87) are I/O. The dump is a sequence of `LegacyItem` values, and `RecordDict`'s constructor stands for the dict `json.load` builds.
- The loop body is the method `MigrateRecord`: each `continue` of the loop is a `return` there, and the loop in `ImportItemsFromJson` calls it once per record.
- The Elasticsearch query and its index: `Search` filters the committed catalog, so the index is assumed to be in step with the database. Index refresh lag and concurrent runs are not modelled. The first page of hits holds all hits.
- `get_record_by_pid` on the single hit is the hit itself, and `if item:` always holds for it: a stored item record is never empty.
- `clean_item_record`, `import_record` (with `model_provider_by_rectype` and the `rectype` argument), `db.session.commit` and the three lookup helpers have no code here. They are the fields of `Services`: maps for the lookups and total functions for the others. PID minting is whatever `importRecord` returns, given the record and the catalog.
- Exceptions the source does not name are not modelled. These include a `KeyError` for a missing key (every dump record carries `barcode`, `id_bibrec` and `id_crcLIBRARY`), search errors, and errors from `get_record_by_legacy_recid` other than `DocumentMigrationError`.
- ItemsApi.Migrator.MigrateRecord: when cleaning raises, the error line uses the barcode from before cleaning; a partial in-place change made by `clean_item_record` before it raised is not modelled.
- Log entries are kept as `LogEntry` values whose text `Text` gives; logger configuration and levels (`warning` for OK, `error` for errors) are left out.
- Floating-point JSON values are not modelled.
- `cds_books/ext.py`, `cds_books/circulation/mail.py` and the `tests/` files are not part of this model.
