/**
 * Model of the item migrator (cds_ils/migrator/items/api.py): resolving the
 * internal location and the document of each legacy item record, checking
 * the catalog for an item with the same barcode, and importing the record
 * inside a database transaction, with two append-only audit logs.
 */
module ItemsApi {
  import opened Wrappers

  type Pid = string
  type LegacyId = int

  /** A JSON value of the dump (floating-point numbers are not modelled). */
  datatype Json =
    | JNull
    | JBool(b: bool)
    | JNumber(n: int)
    | JString(s: string)
    | JArray(elems: seq<Json>)
    | JObject(members: map<string, Json>)

  /**
   * The contents of one record dict. The keys the migrator reads or writes
   * are fields; every other key of the dump is kept in `extra`.
   * `documentPid` and `internalLocationPid` are None for a missing key or a
   * Python `None`.
   */
  datatype LegacyItem = LegacyItem(
    barcode: string,                  // "barcode"
    idBibrec: LegacyId,               // "id_bibrec"
    idCrcLibrary: LegacyId,           // "id_crcLIBRARY"
    documentPid: Option<Pid>,         // "document_pid"
    internalLocationPid: Option<Pid>, // "internal_location_pid"
    extra: map<string, Json>)

  /** An item of the target catalog: its minted pid and the record it was created from. */
  datatype Item = Item(pid: Pid, record: LegacyItem)

  /**
   * The collaborators the migrator calls but whose code is not part of this
   * model. A lookup that raises is a missing key; a call that raises is a
   * Failure carrying `str(e)`.
   */
  datatype Services = Services(
    // get_internal_location_by_legacy_recid
    locations: map<LegacyId, Pid>,
    // get_record_by_legacy_recid(document_cls, ...); a miss is DocumentMigrationError
    documentsByRecid: map<LegacyId, Pid>,
    // get_document_by_barcode(barcode, id_bibrec); a miss is PIDDoesNotExistError
    documentsByBarcode: map<(string, LegacyId), Pid>,
    // clean_item_record; a Failure is ItemMigrationError
    clean: LegacyItem -> Result<LegacyItem, string>,
    // import_record(record, model, provider, legacy_id_key="barcode"), given the catalog it writes to
    importRecord: (LegacyItem, seq<Item>) -> Result<Pid, string>,
    // db.session.commit() of the staged catalog; Some(msg) when it raises
    commit: seq<Item> -> Option<string>)

  /** What the committed database holds and what the two loggers have written. */
  datatype Store = Store(catalog: seq<Item>, migrated: seq<LogEntry>, errors: seq<LogEntry>)

  /** What happened to one record of the batch. */
  datatype RecordOutcome =
    | Imported(pid: Pid)
    | AlreadyMigrated(existing: Pid)
    | DocumentUnresolved
    | CleaningFailed(reason: string)
    | ImportFailed(reason: string)
    | LocationUnresolved(idCrcLibrary: LegacyId)

  // ---------------------------------------------------------------------
  // Log lines and exception messages

  function DigitChar(d: nat): char
    requires d < 10
  {
    "0123456789"[d]
  }

  /** Python's `str` of a non-negative int. */
  function NatToDecimal(n: nat): string
  {
    if n < 10 then [DigitChar(n)] else NatToDecimal(n / 10) + [DigitChar(n % 10)]
  }

  predicate IsDigits(t: string)
  {
    forall k :: 0 <= k < |t| ==> '0' <= t[k] <= '9'
  }

  /** The value of a string of decimal digits, read left to right. */
  function DecimalValue(t: string): nat
    requires IsDigits(t)
  {
    if t == [] then 0 else DecimalValue(t[..|t| - 1]) * 10 + (t[|t| - 1] - '0') as nat
  }

  /** The digit character of `d` is a digit that reads back as `d`. */
  lemma DigitCharValue(d: nat)
    requires d < 10
    ensures '0' <= DigitChar(d) <= '9'
    ensures (DigitChar(d) - '0') as nat == d
  {
  }

  /** `str` of a non-negative int is a non-empty string of digits without a leading zero that reads back as the int. */
  lemma {:induction false} NatToDecimalRoundTrip(n: nat)
    ensures NatToDecimal(n) != [] && IsDigits(NatToDecimal(n))
    ensures DecimalValue(NatToDecimal(n)) == n
    ensures n > 0 ==> NatToDecimal(n)[0] != '0'
    decreases n
  {
    if n < 10 {
      DigitCharValue(n);
    } else {
      NatToDecimalRoundTrip(n / 10);
      DigitCharValue(n % 10);
      var head := NatToDecimal(n / 10);
      var t := head + [DigitChar(n % 10)];
      assert NatToDecimal(n) == t;
      assert t[..|t| - 1] == head;
      assert IsDigits(t) by {
        forall k | 0 <= k < |t| ensures '0' <= t[k] <= '9' {
          if k < |head| { assert t[k] == head[k]; }
        }
      }
      assert DecimalValue(t) == DecimalValue(head) * 10 + n % 10;
      assert t[0] == head[0];
    }
  }

  /** Python's `str` of an int. */
  function IntToDecimal(i: int): string
  {
    if i < 0 then "-" + NatToDecimal(-i) else NatToDecimal(i)
  }

  /** The status part of a log entry. */
  datatype Status =
    | Ok                                    // "OK"
    | DocumentNotFound(idBibrec: LegacyId)  // "ERROR: Document <id_bibrec> not found"
    | Error(reason: string)                 // "ERROR: <str(e)>"

  /** One message written to a logger, about the item with `barcode`. */
  datatype LogEntry = LogEntry(barcode: string, status: Status)

  /** The text of a log entry, as the source formats it. */
  function Text(e: LogEntry): string
  {
    "ITEM: " + e.barcode + " " +
      match e.status
      case Ok => "OK"
      case DocumentNotFound(id) => "ERROR: Document " + IntToDecimal(id) + " not found"
      case Error(reason) => "ERROR: " + reason
  }

  /**
   * The two ItemMigrationErrors get_item_by_barcode raises ("no item found
   * with barcode <b>", "found more than one item with barcode <b>"); the
   * loop catches both without using the message.
   */
  datatype LookupError = NoItemFound(barcode: string) | MoreThanOneItem(barcode: string)

  /** Python truthiness of a pid value: neither None nor the empty string. */
  predicate Truthy(p: Option<Pid>)
  {
    p.Some? && p.value != ""
  }

  // ---------------------------------------------------------------------
  // set_internal_location_pid

  /** The record once its internal location pid is set; defined only when the lookup succeeds. */
  function Located(env: Services, d: LegacyItem): (r: LegacyItem)
    requires d.idCrcLibrary in env.locations
    ensures r.internalLocationPid == Some(env.locations[d.idCrcLibrary])
    ensures r == d.(internalLocationPid := r.internalLocationPid)
  {
    d.(internalLocationPid := Some(env.locations[d.idCrcLibrary]))
  }

  // ---------------------------------------------------------------------
  // set_document_pid

  /** get_record_by_legacy_recid: None when it raises DocumentMigrationError. */
  function PrimaryLookup(env: Services, idBibrec: LegacyId): Option<Pid>
  {
    if idBibrec in env.documentsByRecid then Some(env.documentsByRecid[idBibrec]) else None
  }

  /** get_document_by_barcode: None when it raises PIDDoesNotExistError. */
  function FallbackLookup(env: Services, barcode: string, idBibrec: LegacyId): Option<Pid>
  {
    if (barcode, idBibrec) in env.documentsByBarcode
    then Some(env.documentsByBarcode[(barcode, idBibrec)])
    else None
  }

  /** The effect of set_document_pid: the new record, the lines it logs, and whether it raised. */
  datatype Resolution = Resolution(record: LegacyItem, log: seq<LogEntry>, raised: bool)

  function ResolveDocument(env: Services, rec: LegacyItem): (r: Resolution)
    // only "document_pid" changes
    ensures r.record == rec.(documentPid := r.record.documentPid)
    // it raises exactly when the primary pid is falsy and the barcode lookup raises
    ensures r.raised <==>
      !Truthy(PrimaryLookup(env, rec.idBibrec)) && FallbackLookup(env, rec.barcode, rec.idBibrec).None?
    // a truthy primary pid wins, nothing is logged and the fallback is not consulted
    ensures Truthy(PrimaryLookup(env, rec.idBibrec)) ==>
      r.record.documentPid == PrimaryLookup(env, rec.idBibrec) && r.log == []
    // otherwise the fallback's pid is taken when it has one
    ensures !Truthy(PrimaryLookup(env, rec.idBibrec)) && FallbackLookup(env, rec.barcode, rec.idBibrec).Some? ==>
      r.record.documentPid == FallbackLookup(env, rec.barcode, rec.idBibrec)
    // when both fail, document_pid keeps the primary's (falsy) value: None unless it was ""
    ensures r.raised ==> r.record.documentPid == PrimaryLookup(env, rec.idBibrec)
    // one "Document <id> not found" line per tier that raised
    ensures |r.log| == (if PrimaryLookup(env, rec.idBibrec).None? then 1 else 0) + (if r.raised then 1 else 0)
    ensures forall k :: 0 <= k < |r.log| ==> r.log[k] == LogEntry(rec.barcode, DocumentNotFound(rec.idBibrec))
    // the pid comes from one of the two document services
    ensures r.record.documentPid.Some? ==>
      r.record.documentPid.value in env.documentsByRecid.Values
      || r.record.documentPid.value in env.documentsByBarcode.Values
  {
    var primary := PrimaryLookup(env, rec.idBibrec);
    var missLine := LogEntry(rec.barcode, DocumentNotFound(rec.idBibrec));
    var log1 := if primary.None? then [missLine] else [];
    if Truthy(primary) then
      Resolution(rec.(documentPid := primary), log1, false)
    else
      match FallbackLookup(env, rec.barcode, rec.idBibrec)
      case Some(pid) => Resolution(rec.(documentPid := Some(pid)), log1, false)
      case None => Resolution(rec.(documentPid := primary), log1 + [missLine], true)
  }

  // ---------------------------------------------------------------------
  // get_item_by_barcode

  /** The term query on "barcode": the catalog items carrying that barcode, in catalog order. */
  function Search(catalog: seq<Item>, barcode: string): seq<Item>
  {
    if catalog == [] then []
    else
      var last := catalog[|catalog| - 1];
      Search(catalog[..|catalog| - 1], barcode) + (if last.record.barcode == barcode then [last] else [])
  }

  /** The hits are the catalog items that carry the barcode, and no more of them than the catalog holds. */
  lemma {:induction false} SearchHits(catalog: seq<Item>, barcode: string)
    ensures |Search(catalog, barcode)| <= |catalog|
    ensures forall x :: x in Search(catalog, barcode) <==> x in catalog && x.record.barcode == barcode
  {
    if catalog != [] {
      var n := |catalog| - 1;
      SearchHits(catalog[..n], barcode);
      assert catalog == catalog[..n] + [catalog[n]];
    }
  }

  /**
   * Classification of a search result with `hits` on its first page and
   * `hitsTotal` hits in all: zero or several hits raise ItemMigrationError,
   * one hit is returned.
   */
  function GetItemByBarcode(barcode: string, hits: seq<Item>, hitsTotal: int): (r: Result<Item, LookupError>)
    ensures r.Success? <==> hits != [] && hitsTotal == 1
    ensures r.Success? ==> r.value == hits[0]
    ensures hits == [] || hitsTotal < 1 ==> r == Failure(NoItemFound(barcode))
    ensures hits != [] && hitsTotal > 1 ==> r == Failure(MoreThanOneItem(barcode))
  {
    if hits == [] || hitsTotal < 1 then Failure(NoItemFound(barcode))
    else if hitsTotal > 1 then Failure(MoreThanOneItem(barcode))
    else Success(hits[0])
  }

  // ---------------------------------------------------------------------
  // import_items_from_json, as a specification

  /** The record that reaches the duplicate check, or None when an earlier stage stops it. */
  function Prepared(env: Services, d: LegacyItem): Option<LegacyItem>
  {
    if d.idCrcLibrary !in env.locations then None
    else
      var res := ResolveDocument(env, Located(env, d));
      if res.raised then None
      else match env.clean(res.record)
        case Failure(_) => None
        case Success(c) => Some(c)
  }

  datatype StepResult = StepResult(outcome: RecordOutcome, store: Store)

  /**
   * The try/except around get_item_by_barcode for the cleaned record `c`: an
   * existing item skips it; ItemMigrationError (no hit, or more than one)
   * leads to import_record and a commit, or to a rollback.
   */
  function DedupAndImport(env: Services, s: Store, c: LegacyItem): StepResult
  {
    var hits := Search(s.catalog, c.barcode);
    match GetItemByBarcode(c.barcode, hits, |hits|)
    case Success(item) => StepResult(AlreadyMigrated(item.pid), s)
    case Failure(_) =>
      match env.importRecord(c, s.catalog)
      case Failure(msg) =>
        StepResult(ImportFailed(msg), s.(errors := s.errors + [LogEntry(c.barcode, Error(msg))]))
      case Success(pid) =>
        var staged := s.catalog + [Item(pid, c)];
        match env.commit(staged)
        case Some(msg) =>
          StepResult(ImportFailed(msg), s.(errors := s.errors + [LogEntry(c.barcode, Error(msg))]))
        case None =>
          StepResult(Imported(pid), s.(catalog := staged, migrated := s.migrated + [LogEntry(c.barcode, Ok)]))
  }

  /** Lines 96-104 of the loop body for the record `rec` whose document is resolved: clean it or skip it. */
  function CleanAndImport(env: Services, s: Store, rec: LegacyItem): StepResult
  {
    match env.clean(rec)
    case Failure(msg) => StepResult(CleaningFailed(msg), s.(errors := s.errors + [LogEntry(rec.barcode, Error(msg))]))
    case Success(c) => DedupAndImport(env, s, c)
  }

  /** Lines 91-94 of the loop body for the record `rec` whose location is set: resolve its document or skip it. */
  function ResolveAndImport(env: Services, s: Store, rec: LegacyItem): StepResult
  {
    var res := ResolveDocument(env, rec);
    var s1 := s.(errors := s.errors + res.log);
    if res.raised then StepResult(DocumentUnresolved, s1) else CleanAndImport(env, s1, res.record)
  }

  /** One iteration of the batch loop on record `d`, from store `s`. */
  function Step(env: Services, s: Store, d: LegacyItem): StepResult
  {
    if d.idCrcLibrary !in env.locations then StepResult(LocationUnresolved(d.idCrcLibrary), s)
    else ResolveAndImport(env, s, Located(env, d))
  }

  /** What one iteration of the loop does to the catalog and the two logs, by outcome. */
  lemma StepOutcomes(env: Services, s: Store, d: LegacyItem)
    // a missing internal location raises out of the loop and changes nothing
    ensures Step(env, s, d).outcome.LocationUnresolved? <==> d.idCrcLibrary !in env.locations
    ensures Step(env, s, d).outcome.LocationUnresolved? ==>
      Step(env, s, d).store == s && Step(env, s, d).outcome.idCrcLibrary == d.idCrcLibrary
    // the duplicate check and the import are reached exactly by the records that resolve and clean
    ensures var o := Step(env, s, d).outcome;
      o.Imported? || o.AlreadyMigrated? || o.ImportFailed? <==> Prepared(env, d).Some?
    // an existing item is the one hit of a search with exactly one hit
    ensures Step(env, s, d).outcome.AlreadyMigrated? ==>
      |Search(s.catalog, Prepared(env, d).value.barcode)| == 1
      && Step(env, s, d).outcome.existing == Search(s.catalog, Prepared(env, d).value.barcode)[0].pid
    // the import path is taken for zero hits and for more than one hit alike
    ensures Step(env, s, d).outcome.Imported? || Step(env, s, d).outcome.ImportFailed? ==>
      |Search(s.catalog, Prepared(env, d).value.barcode)| != 1
    // only a committed import adds an item and an OK line, one of each
    ensures var r := Step(env, s, d);
      r.store.catalog ==
        if r.outcome.Imported? then s.catalog + [Item(r.outcome.pid, Prepared(env, d).value)] else s.catalog
    ensures var r := Step(env, s, d);
      r.store.migrated ==
        if r.outcome.Imported? then s.migrated + [LogEntry(Prepared(env, d).value.barcode, Ok)] else s.migrated
    // the error log only grows, and every skip for an error adds a line
    ensures s.errors <= Step(env, s, d).store.errors
    ensures var r := Step(env, s, d);
      r.outcome.DocumentUnresolved? || r.outcome.CleaningFailed? || r.outcome.ImportFailed? ==>
        |r.store.errors| > |s.errors|
  {
  }

  /**
   * The exact lines each skip writes to the error log, and exactly when a
   * record is imported: the import path is taken, import_record returns a
   * pid and the commit of the staged item does not raise.
   */
  lemma StepErrorLines(env: Services, s: Store, d: LegacyItem)
    // a document that neither tier finds: only the resolution's lines
    ensures var r := Step(env, s, d);
      r.outcome.DocumentUnresolved? ==>
        d.idCrcLibrary in env.locations
        && r.store.errors == s.errors + ResolveDocument(env, Located(env, d)).log
    // ItemMigrationError from clean_item_record: "ITEM: <barcode> ERROR: <str(e)>"
    ensures var r := Step(env, s, d);
      r.outcome.CleaningFailed? ==>
        d.idCrcLibrary in env.locations
        && env.clean(ResolveDocument(env, Located(env, d)).record) == Failure(r.outcome.reason)
        && r.store.errors ==
             s.errors + ResolveDocument(env, Located(env, d)).log + [LogEntry(d.barcode, Error(r.outcome.reason))]
    // any exception of import_record or of the commit: "ITEM: <barcode> ERROR: <str(e)>"
    ensures var r := Step(env, s, d);
      var p := Prepared(env, d);
      r.outcome.ImportFailed? ==>
        p.Some? && d.idCrcLibrary in env.locations
        && r.store.errors ==
             s.errors + ResolveDocument(env, Located(env, d)).log + [LogEntry(p.value.barcode, Error(r.outcome.reason))]
        && (env.importRecord(p.value, s.catalog) == Failure(r.outcome.reason)
            || (env.importRecord(p.value, s.catalog).Success?
                && env.commit(s.catalog + [Item(env.importRecord(p.value, s.catalog).value, p.value)]) == Some(r.outcome.reason)))
    // imported exactly when the import path is taken and both import_record and the commit succeed
    ensures var r := Step(env, s, d);
      var p := Prepared(env, d);
      r.outcome.Imported? <==>
        p.Some? && |Search(s.catalog, p.value.barcode)| != 1
        && env.importRecord(p.value, s.catalog).Success?
        && env.commit(s.catalog + [Item(env.importRecord(p.value, s.catalog).value, p.value)]).None?
    ensures var r := Step(env, s, d);
      var p := Prepared(env, d);
      r.outcome.Imported? ==> p.Some? && r.outcome.pid == env.importRecord(p.value, s.catalog).value
    // an import or a duplicate skip writes only the resolution's lines to the error log
    ensures var r := Step(env, s, d);
      r.outcome.Imported? || r.outcome.AlreadyMigrated? ==>
        d.idCrcLibrary in env.locations
        && r.store.errors == s.errors + ResolveDocument(env, Located(env, d)).log
  {
  }

  /** A record that resolves and cleans to `c` reaches the duplicate check with the resolution's log lines written. */
  lemma StepReachesDedup(env: Services, s: Store, d: LegacyItem, c: LegacyItem)
    requires Prepared(env, d) == Some(c)
    ensures d.idCrcLibrary in env.locations
    ensures Step(env, s, d) ==
      DedupAndImport(env, s.(errors := s.errors + ResolveDocument(env, Located(env, d)).log), c)
  {
  }

  /** The outcomes of the records processed, in input order, and the final store. */
  datatype BatchRun = BatchRun(outcomes: seq<RecordOutcome>, store: Store)

  /** The whole loop: records in order, stopping after a record whose location lookup raised. */
  function Run(env: Services, s: Store, dump: seq<LegacyItem>): BatchRun
    decreases |dump|
  {
    if dump == [] then BatchRun([], s)
    else
      var st := Step(env, s, dump[0]);
      if st.outcome.LocationUnresolved? then BatchRun([st.outcome], st.store)
      else
        var rest := Run(env, st.store, dump[1..]);
        BatchRun([st.outcome] + rest.outcomes, rest.store)
  }

  /** One more record of the loop, as seen from position `i` of the dump. */
  lemma RunFrom(env: Services, s: Store, dump: seq<LegacyItem>, i: nat)
    requires i < |dump|
    ensures var st := Step(env, s, dump[i]);
      Run(env, s, dump[i..]) ==
        if st.outcome.LocationUnresolved? then BatchRun([st.outcome], st.store)
        else BatchRun([st.outcome] + Run(env, st.store, dump[i + 1..]).outcomes,
                      Run(env, st.store, dump[i + 1..]).store)
  {
    assert dump[i..][0] == dump[i];
    assert dump[i..][1..] == dump[i + 1..];
  }

  /** The loop's bookkeeping: after one more record that did not stop the run, the rest of the run is what remains. */
  lemma RunAdvance(env: Services, start: Store, dump: seq<LegacyItem>, i: nat, done: seq<RecordOutcome>, before: Store)
    requires i < |dump|
    requires Run(env, start, dump).outcomes == done + Run(env, before, dump[i..]).outcomes
    requires Run(env, start, dump).store == Run(env, before, dump[i..]).store
    requires !Step(env, before, dump[i]).outcome.LocationUnresolved?
    ensures var st := Step(env, before, dump[i]);
      Run(env, start, dump).outcomes == done + [st.outcome] + Run(env, st.store, dump[i + 1..]).outcomes
      && Run(env, start, dump).store == Run(env, st.store, dump[i + 1..]).store
  {
    RunFrom(env, before, dump, i);
  }

  /** The loop's bookkeeping when a record's location lookup raised: the run ends with that record. */
  lemma RunStop(env: Services, start: Store, dump: seq<LegacyItem>, i: nat, done: seq<RecordOutcome>, before: Store)
    requires i < |dump|
    requires Run(env, start, dump).outcomes == done + Run(env, before, dump[i..]).outcomes
    requires Run(env, start, dump).store == Run(env, before, dump[i..]).store
    requires forall k :: 0 <= k < |done| ==> !done[k].LocationUnresolved?
    requires Step(env, before, dump[i]).outcome.LocationUnresolved?
    ensures var outcomes := Run(env, start, dump).outcomes;
      outcomes == done + [Step(env, before, dump[i]).outcome]
      && outcomes[|outcomes| - 1] == Step(env, before, dump[i]).outcome
      && !(forall k :: 0 <= k < |outcomes| ==> !outcomes[k].LocationUnresolved?)
    ensures Run(env, start, dump).store == before
  {
    RunFrom(env, before, dump, i);
    var outcomes := Run(env, start, dump).outcomes;
    assert outcomes[|done|].LocationUnresolved?;
  }

  // ---------------------------------------------------------------------
  // The mutable objects

  /** A record dict of the dump, updated in place by the migrator. */
  class RecordDict {
    var barcode: string
    var idBibrec: LegacyId
    var idCrcLibrary: LegacyId
    var documentPid: Option<Pid>
    var internalLocationPid: Option<Pid>
    var extra: map<string, Json>

    function Value(): LegacyItem
      reads this
    {
      LegacyItem(barcode, idBibrec, idCrcLibrary, documentPid, internalLocationPid, extra)
    }

    /** The dict json.load builds for one object of the dump. */
    constructor (v: LegacyItem)
      ensures Value() == v
    {
      barcode, idBibrec, idCrcLibrary := v.barcode, v.idBibrec, v.idCrcLibrary;
      documentPid, internalLocationPid, extra := v.documentPid, v.internalLocationPid, v.extra;
    }

    /** Rewrites the dict in place, as clean_item_record does. */
    method Assign(v: LegacyItem)
      modifies this
      ensures Value() == v
    {
      barcode, idBibrec, idCrcLibrary := v.barcode, v.idBibrec, v.idCrcLibrary;
      documentPid, internalLocationPid, extra := v.documentPid, v.internalLocationPid, v.extra;
    }
  }

  /** The migrator's shared state: the database session's catalog and the two loggers. */
  class Migrator {
    const env: Services
    var catalog: seq<Item>
    var migratedLog: seq<LogEntry>   // migrated_logger ("migrated_records")
    var errorLog: seq<LogEntry>      // error_logger ("records_errored")

    function State(): Store
      reads this
    {
      Store(catalog, migratedLog, errorLog)
    }

    constructor (env: Services, catalog: seq<Item>)
      ensures this.env == env
      ensures State() == Store(catalog, [], [])
    {
      this.env := env;
      this.catalog := catalog;
      migratedLog, errorLog := [], [];
    }

    /**
     * set_internal_location_pid. Returns Some(id) when the lookup raises;
     * the record is then untouched.
     */
    method SetInternalLocationPid(rec: RecordDict) returns (missing: Option<LegacyId>)
      modifies rec
      ensures missing.None? <==> old(rec.idCrcLibrary) in env.locations
      ensures missing.None? ==>
        rec.Value() == old(rec.Value()).(internalLocationPid := Some(env.locations[old(rec.idCrcLibrary)]))
      ensures missing.Some? ==> missing.value == old(rec.idCrcLibrary) && rec.Value() == old(rec.Value())
    {
      if rec.idCrcLibrary !in env.locations {
        return Some(rec.idCrcLibrary);
      }
      missing := None;
      rec.internalLocationPid := Some(env.locations[rec.idCrcLibrary]);
    }

    /**
     * set_document_pid: the lookup by id_bibrec, then the lookup by barcode
     * within id_bibrec. Returns true when PIDDoesNotExistError escapes.
     */
    method SetDocumentPid(rec: RecordDict) returns (raised: bool)
      modifies this, rec
      ensures var r := ResolveDocument(env, old(rec.Value()));
        rec.Value() == r.record && errorLog == old(errorLog) + r.log && raised == r.raised
      ensures catalog == old(catalog) && migratedLog == old(migratedLog)
    {
      rec.documentPid := None;
      var primary := PrimaryLookup(env, rec.idBibrec);
      if primary.Some? {
        rec.documentPid := primary;
      } else {
        errorLog := errorLog + [LogEntry(rec.barcode, DocumentNotFound(rec.idBibrec))];
        rec.documentPid := None;
      }
      raised := false;
      if !Truthy(rec.documentPid) {
        var fallback := FallbackLookup(env, rec.barcode, rec.idBibrec);
        if fallback.Some? {
          rec.documentPid := fallback;
        } else {
          errorLog := errorLog + [LogEntry(rec.barcode, DocumentNotFound(rec.idBibrec))];
          raised := true;
        }
      }
    }

    /**
     * The body of the loop in import_items_from_json for the dump record `d`;
     * each `continue` of the loop is a `return` here. LocationUnresolved
     * stands for the lookup error that set_internal_location_pid lets escape.
     */
    method MigrateRecord(d: LegacyItem) returns (outcome: RecordOutcome)
      modifies this
      ensures var r := Step(env, old(State()), d);
        State() == r.store && outcome == r.outcome
    {
      var record := new RecordDict(d);

      var missing := SetInternalLocationPid(record);
      if missing.Some? {
        return LocationUnresolved(missing.value);
      }

      var raised := SetDocumentPid(record);
      if raised {
        return DocumentUnresolved;
      }

      // clean the item JSON
      var cleaned := env.clean(record.Value());
      if cleaned.Failure? {
        errorLog := errorLog + [LogEntry(record.barcode, Error(cleaned.error))];
        return CleaningFailed(cleaned.error);
      }
      record.Assign(cleaned.value);

      // check if the item is already there
      var hits := Search(catalog, record.barcode);
      var existing := GetItemByBarcode(record.barcode, hits, |hits|);
      if existing.Success? {
        return AlreadyMigrated(existing.value.pid);
      }

      // except ItemMigrationError: import, then commit or roll back
      var snapshot := catalog;
      var imported := env.importRecord(record.Value(), catalog);
      if imported.Success? {
        catalog := catalog + [Item(imported.value, record.Value())];
        var commitError := env.commit(catalog);
        if commitError.None? {
          migratedLog := migratedLog + [LogEntry(record.barcode, Ok)];
          return Imported(imported.value);
        }
        errorLog := errorLog + [LogEntry(record.barcode, Error(commitError.value))];
        catalog := snapshot;   // db.session.rollback()
        return ImportFailed(commitError.value);
      }
      errorLog := errorLog + [LogEntry(record.barcode, Error(imported.error))];
      catalog := snapshot;     // db.session.rollback()
      outcome := ImportFailed(imported.error);
    }

    /**
     * import_items_from_json over the records of the dump. Returns Some(id)
     * when the internal location lookup for id raised and ended the batch.
     */
    method ImportItemsFromJson(dump: seq<LegacyItem>) returns (escaped: Option<LegacyId>)
      modifies this
      ensures State() == Run(env, old(State()), dump).store
      // the lookup error escapes exactly when the run stopped at a missing internal location
      ensures var outcomes := Run(env, old(State()), dump).outcomes;
        escaped.None? <==> forall k :: 0 <= k < |outcomes| ==> !outcomes[k].LocationUnresolved?
      ensures var outcomes := Run(env, old(State()), dump).outcomes;
        escaped.Some? ==> outcomes != [] && outcomes[|outcomes| - 1] == LocationUnresolved(escaped.value)
    {
      ghost var start := State();
      ghost var done: seq<RecordOutcome> := [];
      escaped := None;
      assert dump[0..] == dump;
      for i := 0 to |dump|
        invariant Run(env, start, dump).outcomes == done + Run(env, State(), dump[i..]).outcomes
        invariant Run(env, start, dump).store == Run(env, State(), dump[i..]).store
        invariant forall k :: 0 <= k < |done| ==> !done[k].LocationUnresolved?
      {
        ghost var before := State();
        var outcome := MigrateRecord(dump[i]);
        if outcome.LocationUnresolved? {
          RunStop(env, start, dump, i, done, before);
          return Some(outcome.idCrcLibrary);
        }
        RunAdvance(env, start, dump, i, done, before);
        done := done + [outcome];
      }
      assert dump[|dump|..] == [];
    }
  }
}
