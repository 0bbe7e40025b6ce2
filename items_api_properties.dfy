/**
 * Properties of the item migrator model: what the duplicate check sees, what
 * a run does to the catalog and the logs, where a run stops, and what a
 * rerun over the same dump does.
 */
module ItemsApiProperties {
  import opened Wrappers
  import opened ItemsApi

  // ---------------------------------------------------------------------
  // The duplicate check against the catalog

  /** The number of catalog items with `barcode`, counted from the front (independent of Search). */
  function CountBarcode(catalog: seq<Item>, barcode: string): nat
  {
    if catalog == [] then 0
    else (if catalog[0].record.barcode == barcode then 1 else 0) + CountBarcode(catalog[1..], barcode)
  }

  lemma {:induction false} CountBarcodeAppend(catalog: seq<Item>, x: Item, barcode: string)
    ensures CountBarcode(catalog + [x], barcode) ==
      CountBarcode(catalog, barcode) + (if x.record.barcode == barcode then 1 else 0)
  {
    if catalog != [] {
      assert (catalog + [x])[1..] == catalog[1..] + [x];
      CountBarcodeAppend(catalog[1..], x, barcode);
    }
  }

  lemma SearchAppend(catalog: seq<Item>, x: Item, barcode: string)
    ensures Search(catalog + [x], barcode) ==
      Search(catalog, barcode) + (if x.record.barcode == barcode then [x] else [])
  {
    assert (catalog + [x])[..|catalog|] == catalog;
  }

  /** The search's hit total is the number of catalog items with that barcode. */
  lemma {:induction false} SearchCountsBarcode(catalog: seq<Item>, barcode: string)
    ensures |Search(catalog, barcode)| == CountBarcode(catalog, barcode)
  {
    if catalog != [] {
      var n := |catalog| - 1;
      SearchCountsBarcode(catalog[..n], barcode);
      assert catalog == catalog[..n] + [catalog[n]];
      CountBarcodeAppend(catalog[..n], catalog[n], barcode);
    }
  }

  /**
   * get_item_by_barcode on the catalog's search result returns an item
   * exactly when one catalog item has the barcode, and raises for none and
   * for several.
   */
  lemma DedupMatchesCatalog(catalog: seq<Item>, barcode: string)
    ensures var hits := Search(catalog, barcode);
      var r := GetItemByBarcode(barcode, hits, |hits|);
      && (r.Success? <==> CountBarcode(catalog, barcode) == 1)
      && (r.Success? ==> r.value in catalog && r.value.record.barcode == barcode)
      && (CountBarcode(catalog, barcode) == 0 ==> r == Failure(NoItemFound(barcode)))
      && (CountBarcode(catalog, barcode) > 1 ==> r == Failure(MoreThanOneItem(barcode)))
  {
    SearchCountsBarcode(catalog, barcode);
  }

  // ---------------------------------------------------------------------
  // set_document_pid

  /** A truthy pid from the lookup by id_bibrec makes the barcode lookup irrelevant. */
  lemma PrimaryHitIgnoresFallback(env: Services, byBarcode: map<(string, LegacyId), Pid>, rec: LegacyItem)
    requires Truthy(PrimaryLookup(env, rec.idBibrec))
    ensures ResolveDocument(env.(documentsByBarcode := byBarcode), rec) == ResolveDocument(env, rec)
    ensures ResolveDocument(env, rec).record.documentPid == Some(env.documentsByRecid[rec.idBibrec])
  {
  }

  /**
   * A record whose document neither lookup finds is skipped with two
   * identical error lines and no change to the catalog or the migrated log.
   */
  lemma DocumentMissLogsTwice(env: Services, s: Store, d: LegacyItem)
    requires d.idCrcLibrary in env.locations
    requires d.idBibrec !in env.documentsByRecid
    requires (d.barcode, d.idBibrec) !in env.documentsByBarcode
    ensures Step(env, s, d).outcome == DocumentUnresolved
    ensures Step(env, s, d).store ==
      s.(errors := s.errors + [LogEntry(d.barcode, DocumentNotFound(d.idBibrec)), LogEntry(d.barcode, DocumentNotFound(d.idBibrec))])
  {
  }

  /**
   * The "Document <id> not found" line names the document: between the
   * "ITEM: <barcode> ERROR: Document " prefix and the " not found" suffix
   * stand the decimal digits of `id_bibrec`, which read back as that id.
   */
  lemma MissLineNamesDocument(barcode: string, id: nat)
    ensures var t := Text(LogEntry(barcode, DocumentNotFound(id)));
      var head := "ITEM: " + barcode + " ERROR: Document ";
      && |head| < |t| - 10
      && t[..|head|] == head
      && t[|t| - 10..] == " not found"
      && IsDigits(t[|head|..|t| - 10])
      && DecimalValue(t[|head|..|t| - 10]) == id
  {
    NatToDecimalRoundTrip(id);
    var digits := NatToDecimal(id);
    var head := "ITEM: " + barcode + " ERROR: Document ";
    var t := Text(LogEntry(barcode, DocumentNotFound(id)));
    assert t == head + digits + " not found";
    assert t[|head|..|t| - 10] == digits;
  }

  // ---------------------------------------------------------------------
  // Runs of the batch loop

  predicate HasLocation(env: Services, d: LegacyItem)
  {
    d.idCrcLibrary in env.locations
  }

  predicate AllLocated(env: Services, dump: seq<LegacyItem>)
  {
    forall i :: 0 <= i < |dump| ==> HasLocation(env, dump[i])
  }

  predicate NoneStopped(outcomes: seq<RecordOutcome>)
  {
    forall k :: 0 <= k < |outcomes| ==> !outcomes[k].LocationUnresolved?
  }

  function ImportedCount(outcomes: seq<RecordOutcome>): nat
  {
    if outcomes == [] then 0 else (if outcomes[0].Imported? then 1 else 0) + ImportedCount(outcomes[1..])
  }

  /** Nothing is removed: the catalog and both logs of a run extend the ones it started from. */
  lemma {:induction false} RunOnlyAppends(env: Services, s: Store, dump: seq<LegacyItem>)
    ensures s.catalog <= Run(env, s, dump).store.catalog
    ensures s.migrated <= Run(env, s, dump).store.migrated
    ensures s.errors <= Run(env, s, dump).store.errors
    decreases |dump|
  {
    if dump != [] {
      StepOutcomes(env, s, dump[0]);
      var st := Step(env, s, dump[0]);
      if !st.outcome.LocationUnresolved? {
        RunOnlyAppends(env, st.store, dump[1..]);
      }
    }
  }

  /**
   * The migrated log gains exactly one "ITEM: <barcode> OK" line per item the
   * run creates, in the order the items were created, and one item per
   * Imported outcome.
   */
  lemma {:induction false} MigratedLogMirrorsCatalog(env: Services, s: Store, dump: seq<LegacyItem>)
    ensures var f := Run(env, s, dump).store;
      && |s.catalog| <= |f.catalog|
      && |f.migrated| - |s.migrated| == |f.catalog| - |s.catalog|
      && (forall k :: |s.catalog| <= k < |f.catalog| ==>
            |s.migrated| + (k - |s.catalog|) < |f.migrated|
            && f.migrated[|s.migrated| + (k - |s.catalog|)] == LogEntry(f.catalog[k].record.barcode, Ok))
    ensures ImportedCount(Run(env, s, dump).outcomes) ==
      |Run(env, s, dump).store.catalog| - |s.catalog|
    decreases |dump|
  {
    if dump != [] {
      StepOutcomes(env, s, dump[0]);
      var st := Step(env, s, dump[0]);
      if !st.outcome.LocationUnresolved? {
        MigratedLogMirrorsCatalog(env, st.store, dump[1..]);
        RunOnlyAppends(env, st.store, dump[1..]);
        var f := Run(env, s, dump).store;
        assert ImportedCount(Run(env, s, dump).outcomes) ==
          (if st.outcome.Imported? then 1 else 0) + ImportedCount(Run(env, st.store, dump[1..]).outcomes);
        forall k | |s.catalog| <= k < |f.catalog|
          ensures |s.migrated| + (k - |s.catalog|) < |f.migrated|
          ensures f.migrated[|s.migrated| + (k - |s.catalog|)] == LogEntry(f.catalog[k].record.barcode, Ok)
        {
          if st.outcome.Imported? && k == |s.catalog| {
            assert f.catalog[k] == st.store.catalog[k];
            assert f.migrated[|s.migrated|] == st.store.migrated[|s.migrated|];
          }
        }
      }
    }
  }

  /**
   * Records are processed in input order: when no record of `a` stops the
   * run, running over `a + b` is running over `a` and then over `b`, so a
   * record skipped in `a` does not keep the records of `b` from being
   * processed.
   */
  lemma {:induction false} RunSplit(env: Services, s: Store, a: seq<LegacyItem>, b: seq<LegacyItem>)
    requires NoneStopped(Run(env, s, a).outcomes)
    ensures var ra := Run(env, s, a);
      var rb := Run(env, ra.store, b);
      Run(env, s, a + b) == BatchRun(ra.outcomes + rb.outcomes, rb.store)
    decreases |a|
  {
    if a == [] {
      assert a + b == b;
    } else {
      var a0, a1 := a[0], a[1..];
      assert (a + b)[0] == a0 && (a + b)[1..] == a1 + b;
      var st := Step(env, s, a0);
      var rest := Run(env, st.store, a1);
      assert Run(env, s, a).outcomes[0] == st.outcome;
      assert NoneStopped(rest.outcomes) by {
        forall k | 0 <= k < |rest.outcomes| ensures !rest.outcomes[k].LocationUnresolved? {
          assert rest.outcomes[k] == Run(env, s, a).outcomes[k + 1];
        }
      }
      RunSplit(env, st.store, a1, b);
    }
  }

  /** Every record yields exactly one outcome when every internal location resolves. */
  lemma {:induction false} EveryLocatedRecordHasOutcome(env: Services, s: Store, dump: seq<LegacyItem>)
    requires AllLocated(env, dump)
    ensures |Run(env, s, dump).outcomes| == |dump|
    ensures NoneStopped(Run(env, s, dump).outcomes)
    decreases |dump|
  {
    if dump != [] {
      StepOutcomes(env, s, dump[0]);
      var st := Step(env, s, dump[0]);
      assert HasLocation(env, dump[0]);
      assert AllLocated(env, dump[1..]) by {
        forall i | 0 <= i < |dump[1..]| ensures HasLocation(env, dump[1..][i]) {
          assert dump[1..][i] == dump[i + 1];
        }
      }
      EveryLocatedRecordHasOutcome(env, st.store, dump[1..]);
      var rest := Run(env, st.store, dump[1..]).outcomes;
      forall k | 0 <= k < |rest| + 1 ensures !([st.outcome] + rest)[k].LocationUnresolved? {
        if k > 0 { assert ([st.outcome] + rest)[k] == rest[k - 1]; }
      }
    }
  }

  /**
   * The first record whose internal location is missing ends the batch:
   * the run is the run over the records before it, plus that record's
   * LocationUnresolved outcome, and no later record is processed.
   */
  lemma {:induction false} BatchStopsAtMissingLocation(env: Services, s: Store, dump: seq<LegacyItem>, k: nat)
    requires k < |dump|
    requires !HasLocation(env, dump[k])
    requires forall j :: 0 <= j < k ==> HasLocation(env, dump[j])
    ensures var before := Run(env, s, dump[..k]);
      Run(env, s, dump) ==
        BatchRun(before.outcomes + [LocationUnresolved(dump[k].idCrcLibrary)], before.store)
    decreases k
  {
    StepOutcomes(env, s, dump[0]);
    if k == 0 {
      assert dump[..0] == [];
    } else {
      var st := Step(env, s, dump[0]);
      assert HasLocation(env, dump[0]);
      assert dump[1..][k - 1] == dump[k];
      assert forall j :: 0 <= j < k - 1 ==> dump[1..][j] == dump[j + 1];
      BatchStopsAtMissingLocation(env, st.store, dump[1..], k - 1);
      assert dump[..k][0] == dump[0];
      assert dump[..k][1..] == dump[1..][..k - 1];
    }
  }

  // ---------------------------------------------------------------------
  // Reruns

  /** The barcode of every record that reaches the duplicate check has exactly one item in `catalog`. */
  predicate AllPresent(env: Services, catalog: seq<Item>, dump: seq<LegacyItem>)
  {
    forall i :: 0 <= i < |dump| && Prepared(env, dump[i]).Some? ==>
      CountBarcode(catalog, Prepared(env, dump[i]).value.barcode) == 1
  }

  /**
   * A rerun over records whose barcodes are all in the catalog once creates
   * no item and writes no OK line: every such record stops at the
   * duplicate check. Only the records the run processes matter.
   */
  lemma {:induction false} RerunCreatesNothing(env: Services, s: Store, dump: seq<LegacyItem>)
    requires forall i :: 0 <= i < |dump| && i < |Run(env, s, dump).outcomes| && Prepared(env, dump[i]).Some? ==>
      CountBarcode(s.catalog, Prepared(env, dump[i]).value.barcode) == 1
    ensures Run(env, s, dump).store.catalog == s.catalog
    ensures Run(env, s, dump).store.migrated == s.migrated
    ensures forall k :: 0 <= k < |Run(env, s, dump).outcomes| ==> !Run(env, s, dump).outcomes[k].Imported?
    // every processed record that reaches the duplicate check is skipped as already migrated
    ensures |Run(env, s, dump).outcomes| <= |dump|
    ensures forall k :: 0 <= k < |Run(env, s, dump).outcomes| ==>
      (Run(env, s, dump).outcomes[k].AlreadyMigrated? <==> Prepared(env, dump[k]).Some?)
    decreases |dump|
  {
    if dump != [] {
      StepOutcomes(env, s, dump[0]);
      var st := Step(env, s, dump[0]);
      if Prepared(env, dump[0]).Some? {
        SearchCountsBarcode(s.catalog, Prepared(env, dump[0]).value.barcode);
      }
      assert st.store.catalog == s.catalog && st.store.migrated == s.migrated && !st.outcome.Imported?;
      if !st.outcome.LocationUnresolved? {
        var tail := dump[1..];
        var rest := Run(env, st.store, tail).outcomes;
        assert Run(env, s, dump).outcomes == [st.outcome] + rest;
        forall i | 0 <= i < |tail| && i < |rest| && Prepared(env, tail[i]).Some?
          ensures CountBarcode(st.store.catalog, Prepared(env, tail[i]).value.barcode) == 1
        {
          assert tail[i] == dump[i + 1];
        }
        RerunCreatesNothing(env, st.store, tail);
        forall k | 0 <= k < |rest| + 1
          ensures !([st.outcome] + rest)[k].Imported?
          ensures ([st.outcome] + rest)[k].AlreadyMigrated? <==> Prepared(env, dump[k]).Some?
        {
          if k > 0 {
            assert ([st.outcome] + rest)[k] == rest[k - 1];
            assert tail[k - 1] == dump[k];
          }
        }
      }
    }
  }

  /** The barcode `b` belongs to no record of `dump` that reaches the duplicate check. */
  predicate NotInDump(env: Services, dump: seq<LegacyItem>, b: string)
  {
    forall i :: 0 <= i < |dump| && Prepared(env, dump[i]).Some? ==> Prepared(env, dump[i]).value.barcode != b
  }

  /**
   * One record changes the count of its own barcode only, and leaves it at
   * one when it was at most one and the record did not fail to import.
   */
  lemma StepCounts(env: Services, s: Store, d: LegacyItem)
    ensures var r := Step(env, s, d);
      forall b :: CountBarcode(r.store.catalog, b) ==
        CountBarcode(s.catalog, b) + (if r.outcome.Imported? && Prepared(env, d).value.barcode == b then 1 else 0)
    ensures var r := Step(env, s, d);
      (Prepared(env, d).Some? && CountBarcode(s.catalog, Prepared(env, d).value.barcode) <= 1 && !r.outcome.ImportFailed?)
      ==> CountBarcode(r.store.catalog, Prepared(env, d).value.barcode) == 1
  {
    StepOutcomes(env, s, d);
    var st := Step(env, s, d);
    forall b ensures CountBarcode(st.store.catalog, b) ==
      CountBarcode(s.catalog, b) + (if st.outcome.Imported? && Prepared(env, d).value.barcode == b then 1 else 0)
    {
      if st.outcome.Imported? {
        CountBarcodeAppend(s.catalog, Item(st.outcome.pid, Prepared(env, d).value), b);
      }
    }
    if Prepared(env, d).Some? {
      SearchCountsBarcode(s.catalog, Prepared(env, d).value.barcode);
    }
  }

  /**
   * A run in which every record is processed and every import commits, over
   * barcodes none of which is in the catalog more than once, leaves exactly
   * one item per barcode, after cleaning, of every record that reaches the
   * duplicate check, and touches no other barcode. A record skipped for its
   * document or its cleaning gets no item. A barcode repeated in the dump
   * is imported by its first record and found by the later ones.
   */
  lemma {:induction false} RunLeavesOneItemPerBarcode(env: Services, s: Store, dump: seq<LegacyItem>)
    requires AllLocated(env, dump)
    requires forall i :: 0 <= i < |dump| && Prepared(env, dump[i]).Some? ==>
      CountBarcode(s.catalog, Prepared(env, dump[i]).value.barcode) <= 1
    requires forall k :: 0 <= k < |Run(env, s, dump).outcomes| ==> !Run(env, s, dump).outcomes[k].ImportFailed?
    ensures AllPresent(env, Run(env, s, dump).store.catalog, dump)
    ensures forall b :: NotInDump(env, dump, b) ==>
      CountBarcode(Run(env, s, dump).store.catalog, b) == CountBarcode(s.catalog, b)
    decreases |dump|
  {
    if dump != [] {
      StepOutcomes(env, s, dump[0]);
      var st := Step(env, s, dump[0]);
      var tail := dump[1..];
      assert forall i :: 0 <= i < |tail| ==> tail[i] == dump[i + 1];
      assert HasLocation(env, dump[0]);
      var rest := Run(env, st.store, tail);
      assert Run(env, s, dump) == BatchRun([st.outcome] + rest.outcomes, rest.store);
      assert !st.outcome.ImportFailed? by {
        assert Run(env, s, dump).outcomes[0] == st.outcome;
      }
      StepCounts(env, s, dump[0]);
      forall k | 0 <= k < |rest.outcomes| ensures !rest.outcomes[k].ImportFailed? {
        assert rest.outcomes[k] == Run(env, s, dump).outcomes[k + 1];
      }
      forall i | 0 <= i < |tail| && Prepared(env, tail[i]).Some?
        ensures CountBarcode(st.store.catalog, Prepared(env, tail[i]).value.barcode) <= 1
      {
        // a repeated barcode now has the one item the first record found or created
        assert Prepared(env, dump[i + 1]).Some?;
      }
      RunLeavesOneItemPerBarcode(env, st.store, tail);
      forall i | 0 <= i < |dump| && Prepared(env, dump[i]).Some?
        ensures CountBarcode(rest.store.catalog, Prepared(env, dump[i]).value.barcode) == 1
      {
        if i == 0 {
          var b0 := Prepared(env, dump[0]).value.barcode;
          if !NotInDump(env, tail, b0) {
            // a later record with the same barcode: it found, or created, the one item
            var j :| 0 <= j < |tail| && Prepared(env, tail[j]).Some? && Prepared(env, tail[j]).value.barcode == b0;
          }
        } else {
          assert dump[i] == tail[i - 1];
        }
      }
      forall b | NotInDump(env, dump, b)
        ensures CountBarcode(rest.store.catalog, b) == CountBarcode(s.catalog, b)
      {
        assert NotInDump(env, tail, b) by {
          forall j | 0 <= j < |tail| && Prepared(env, tail[j]).Some?
            ensures Prepared(env, tail[j]).value.barcode != b
          {
            assert tail[j] == dump[j + 1];
          }
        }
      }
    }
  }

  /**
   * Idempotence of the batch: when every import of the first run commits
   * and no barcode of a record it processed was in the catalog twice,
   * running the same dump again creates no item and writes no OK line, and
   * reports every record that reaches the duplicate check as already
   * migrated. A first run that stopped at a missing internal location stops
   * at the same record again.
   */
  lemma RerunIsIdempotent(env: Services, s: Store, dump: seq<LegacyItem>)
    // only the records the first run processed matter
    requires forall i :: 0 <= i < |dump| && i < |Run(env, s, dump).outcomes| && Prepared(env, dump[i]).Some? ==>
      CountBarcode(s.catalog, Prepared(env, dump[i]).value.barcode) <= 1
    requires forall k :: 0 <= k < |Run(env, s, dump).outcomes| ==> !Run(env, s, dump).outcomes[k].ImportFailed?
    ensures var first := Run(env, s, dump).store;
      Run(env, first, dump).store.catalog == first.catalog
      && Run(env, first, dump).store.migrated == first.migrated
    ensures var second := Run(env, Run(env, s, dump).store, dump).outcomes;
      |second| <= |dump|
      && forall k :: 0 <= k < |second| ==> (second[k].AlreadyMigrated? <==> Prepared(env, dump[k]).Some?)
  {
    if AllLocated(env, dump) {
      RerunOfLocatedDump(env, s, dump);
    } else {
      var k := FirstUnlocated(env, dump);
      RerunOfStoppedDump(env, s, dump, k);
    }
  }

  /** The first run processed its records without a failed import, over barcodes at most once in the catalog. */
  predicate FirstRunCommits(env: Services, s: Store, dump: seq<LegacyItem>)
  {
    && (forall i :: 0 <= i < |dump| && i < |Run(env, s, dump).outcomes| && Prepared(env, dump[i]).Some? ==>
          CountBarcode(s.catalog, Prepared(env, dump[i]).value.barcode) <= 1)
    && (forall k :: 0 <= k < |Run(env, s, dump).outcomes| ==> !Run(env, s, dump).outcomes[k].ImportFailed?)
  }

  /** A run from `first` leaves the catalog and the migrated log alone and reports the prepared records as already migrated. */
  predicate RerunSkipsAll(env: Services, first: Store, dump: seq<LegacyItem>)
  {
    var second := Run(env, first, dump);
    && second.store.catalog == first.catalog
    && second.store.migrated == first.migrated
    && |second.outcomes| <= |dump|
    && forall k :: 0 <= k < |second.outcomes| ==>
         (second.outcomes[k].AlreadyMigrated? <==> Prepared(env, dump[k]).Some?)
  }

  /** Idempotence when every location resolves. */
  lemma RerunOfLocatedDump(env: Services, s: Store, dump: seq<LegacyItem>)
    requires AllLocated(env, dump)
    requires FirstRunCommits(env, s, dump)
    ensures RerunSkipsAll(env, Run(env, s, dump).store, dump)
  {
    EveryLocatedRecordHasOutcome(env, s, dump);
    RunLeavesOneItemPerBarcode(env, s, dump);
    RerunCreatesNothing(env, Run(env, s, dump).store, dump);
  }

  /** Idempotence when record `k` is the first whose location is missing: both runs stop there. */
  lemma RerunOfStoppedDump(env: Services, s: Store, dump: seq<LegacyItem>, k: nat)
    requires k < |dump| && !HasLocation(env, dump[k])
    requires forall j :: 0 <= j < k ==> HasLocation(env, dump[j])
    requires FirstRunCommits(env, s, dump)
    ensures RerunSkipsAll(env, Run(env, s, dump).store, dump)
  {
    var prefix := dump[..k];
    var first := Run(env, s, dump).store;
    StoppedRunLeavesOneItem(env, s, dump, k);
    // the second run stops at the same record k
    BatchStopsAtMissingLocation(env, first, dump, k);
    assert AllLocated(env, prefix);
    EveryLocatedRecordHasOutcome(env, first, prefix);
    forall i | 0 <= i < |dump| && i < |Run(env, first, dump).outcomes| && Prepared(env, dump[i]).Some?
      ensures CountBarcode(first.catalog, Prepared(env, dump[i]).value.barcode) == 1
    {
      assert prefix[i] == dump[i];
    }
    RerunCreatesNothing(env, first, dump);
  }

  /** A first run stopped at record `k` leaves one item per barcode of the prepared records before `k`. */
  lemma StoppedRunLeavesOneItem(env: Services, s: Store, dump: seq<LegacyItem>, k: nat)
    requires k < |dump| && !HasLocation(env, dump[k])
    requires forall j :: 0 <= j < k ==> HasLocation(env, dump[j])
    requires FirstRunCommits(env, s, dump)
    ensures AllPresent(env, Run(env, s, dump).store.catalog, dump[..k])
  {
    var prefix := dump[..k];
    BatchStopsAtMissingLocation(env, s, dump, k);
    var before := Run(env, s, prefix);
    assert Run(env, s, dump).outcomes == before.outcomes + [LocationUnresolved(dump[k].idCrcLibrary)];
    assert AllLocated(env, prefix);
    EveryLocatedRecordHasOutcome(env, s, prefix);
    assert FirstRunCommits(env, s, prefix) by {
      forall j | 0 <= j < |before.outcomes| ensures !before.outcomes[j].ImportFailed? {
        assert before.outcomes[j] == Run(env, s, dump).outcomes[j];
      }
      forall i | 0 <= i < |prefix| && Prepared(env, prefix[i]).Some?
        ensures CountBarcode(s.catalog, Prepared(env, prefix[i]).value.barcode) <= 1
      {
        assert prefix[i] == dump[i];
      }
    }
    RunLeavesOneItemPerBarcode(env, s, prefix);
  }

  /** The position of the first record whose internal location is missing. */
  lemma FirstUnlocated(env: Services, dump: seq<LegacyItem>) returns (k: nat)
    requires !AllLocated(env, dump)
    ensures k < |dump| && !HasLocation(env, dump[k])
    ensures forall j :: 0 <= j < k ==> HasLocation(env, dump[j])
  {
    k := 0;
    while HasLocation(env, dump[k])
      invariant k < |dump|
      invariant forall j :: 0 <= j < k ==> HasLocation(env, dump[j])
      decreases |dump| - k
    {
      k := k + 1;
      if k == |dump| {
        assert AllLocated(env, dump);
        assert false;
      }
    }
  }

  /**
   * One record with a new barcode: the first run creates its item and logs
   * OK; a second run finds that item and creates nothing.
   */
  lemma ImportThenRerun(env: Services, s: Store, d: LegacyItem, c: LegacyItem, pid: Pid)
    requires Prepared(env, d) == Some(c)
    requires CountBarcode(s.catalog, c.barcode) == 0
    requires env.importRecord(c, s.catalog) == Success(pid)
    requires env.commit(s.catalog + [Item(pid, c)]) == None
    ensures var first := Run(env, s, [d]);
      && first.outcomes == [Imported(pid)]
      && first.store.catalog == s.catalog + [Item(pid, c)]
      && first.store.migrated == s.migrated + [LogEntry(c.barcode, Ok)]
    ensures var first := Run(env, s, [d]).store;
      var second := Run(env, first, [d]);
      && second.outcomes == [AlreadyMigrated(pid)]
      && second.store.catalog == first.catalog
      && second.store.migrated == first.migrated
  {
    SearchCountsBarcode(s.catalog, c.barcode);
    StepReachesDedup(env, s, d, c);
    var st := Step(env, s, d);
    assert st.outcome == Imported(pid);
    var first := st.store;
    assert first.catalog == s.catalog + [Item(pid, c)];
    assert Run(env, s, [d]) == BatchRun([st.outcome], first);
    SearchAppend(s.catalog, Item(pid, c), c.barcode);
    assert Search(first.catalog, c.barcode) == [Item(pid, c)];
    StepReachesDedup(env, first, d, c);
    var st2 := Step(env, first, d);
    assert st2.outcome == AlreadyMigrated(pid);
    assert Run(env, first, [d]) == BatchRun([st2.outcome], st2.store);
  }

  /**
   * A barcode already carried by several catalog items raises the same
   * ItemMigrationError as a missing one, so the record is imported again:
   * the catalog then holds one more item with that barcode.
   */
  lemma AmbiguousBarcodeIsImported(env: Services, s: Store, d: LegacyItem, c: LegacyItem, pid: Pid)
    requires Prepared(env, d) == Some(c)
    requires CountBarcode(s.catalog, c.barcode) >= 2
    requires env.importRecord(c, s.catalog) == Success(pid)
    requires env.commit(s.catalog + [Item(pid, c)]) == None
    ensures Step(env, s, d).outcome == Imported(pid)
    ensures CountBarcode(Step(env, s, d).store.catalog, c.barcode) == CountBarcode(s.catalog, c.barcode) + 1
  {
    SearchCountsBarcode(s.catalog, c.barcode);
    StepOutcomes(env, s, d);
    CountBarcodeAppend(s.catalog, Item(pid, c), c.barcode);
  }

  // ---------------------------------------------------------------------
  // References of the created items

  /** An item whose internal location and document pids came from the lookup services. */
  predicate ReferencesResolved(env: Services, it: Item)
  {
    && it.record.internalLocationPid.Some?
    && it.record.internalLocationPid.value in env.locations.Values
    && it.record.documentPid.Some?
    && (it.record.documentPid.value in env.documentsByRecid.Values
        || it.record.documentPid.value in env.documentsByBarcode.Values)
  }

  /** clean_item_record keeps the two pids set by the resolution steps. */
  ghost predicate CleanKeepsReferences(env: Services)
  {
    forall r :: env.clean(r).Success? ==>
      env.clean(r).value.documentPid == r.documentPid
      && env.clean(r).value.internalLocationPid == r.internalLocationPid
  }

  /**
   * When cleaning keeps the resolved pids, every item a run creates has an
   * internal location pid and a document pid, both given by the lookups.
   */
  lemma {:induction false} CreatedItemsHaveReferences(env: Services, s: Store, dump: seq<LegacyItem>)
    requires CleanKeepsReferences(env)
    ensures var f := Run(env, s, dump).store;
      |s.catalog| <= |f.catalog|
      && forall k :: |s.catalog| <= k < |f.catalog| ==> ReferencesResolved(env, f.catalog[k])
    decreases |dump|
  {
    if dump != [] {
      StepOutcomes(env, s, dump[0]);
      var st := Step(env, s, dump[0]);
      if st.outcome.Imported? {
        var d := dump[0];
        var res := ResolveDocument(env, Located(env, d));
        assert ReferencesResolved(env, Item(st.outcome.pid, Prepared(env, d).value));
      }
      if !st.outcome.LocationUnresolved? {
        CreatedItemsHaveReferences(env, st.store, dump[1..]);
        RunOnlyAppends(env, st.store, dump[1..]);
        var f := Run(env, s, dump).store;
        forall k | |s.catalog| <= k < |f.catalog| ensures ReferencesResolved(env, f.catalog[k]) {
          if k < |st.store.catalog| {
            assert f.catalog[k] == st.store.catalog[k];
          }
        }
      }
    }
  }
}
