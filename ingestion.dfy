/**
 * process_document and process_all_documents_in_directory: skip a document
 * whose id the ledger already holds; otherwise load it, chunk it, store its
 * embeddings and only then record its id. The loader and splitter are not
 * modelled: `fragmentsOf(path)` is what they produce for a file.
 */
module Ingestion {
  import opened Wrappers
  import opened Unicode
  import opened PyStr
  import opened PyPath
  import opened Chunking
  import opened Services
  import opened Ledger
  import opened Batching

  /** The chunk size and overlap process_document splits with (the defaults of split_document_with_metadata). */
  const ChunkSize: int := 500
  const ChunkOverlap: int := 50

  const PdfExtension: Text := Str(".pdf")

  /** The ledger file after a run, the calls the run made, and whether it ended by raising. */
  datatype Outcome = Outcome(ledgerFile: Option<Text>, calls: seq<Call>, failed: bool)

  /** What process_document(path, documentId) does, for a file the splitter cuts into `fragments`. */
  function ProcessDocumentEffect(file: Option<Text>, path: Text, documentId: Text, fragments: seq<Text>): Outcome {
    if documentId in Entries(file) then Outcome(file, [LedgerReadCall], false)
    else
      Outcome(Saved(file, documentId),
              [LedgerReadCall, LoadCall(path)]
              + StoreCalls(ChunksOf(fragments, documentId, ChunkSize, ChunkOverlap))
              + [LedgerAppendCall(documentId + [Newline])],
              !Clean(documentId))
  }

  /** process_document; `ok` is false when it raises. */
  method ProcessDocument(env: Environment, documentPath: Text, documentId: Text, fragments: seq<Text>)
    returns (ok: bool)
    modifies env
    ensures var e := ProcessDocumentEffect(old(env.ledgerFile), documentPath, documentId, fragments);
            env.ledgerFile == e.ledgerFile && env.log == old(env.log) + e.calls && ok == !e.failed
  {
    ok := true;
    var record := LoadProcessedDocumentRecord(env);
    if documentId !in record {
      env.LoadPdf(documentPath);
      var chunks := SplitDocumentWithMetadata(fragments, documentId, ChunkSize, ChunkOverlap);
      StoreEmbeddings(env, chunks);
      ok := SaveProcessedDocumentRecord(env, documentId);
    }
  }

  /** The ledger writes in a call sequence, in order. */
  function Appends(calls: seq<Call>): seq<Text> {
    if calls == [] then []
    else (if calls[0].LedgerAppendCall? then [calls[0].written] else []) + Appends(calls[1..])
  }

  lemma {:induction false} AppendsAppend(a: seq<Call>, b: seq<Call>)
    ensures Appends(a + b) == Appends(a) + Appends(b)
  {
    if a != [] {
      assert (a + b)[0] == a[0] && (a + b)[1..] == a[1..] + b;
      AppendsAppend(a[1..], b);
    } else {
      assert a + b == b;
    }
  }

  /** Storing embeddings never writes the ledger. */
  lemma {:induction false} StoreCallsWriteNoLedger(batches: seq<seq<Chunk>>)
    ensures Appends(CallsFor(batches)) == []
  {
    if batches != [] {
      StoreCallsWriteNoLedger(batches[1..]);
      AppendsAppend(BatchCalls(batches[0]), CallsFor(batches[1..]));
      assert BatchCalls(batches[0])[1..][1..] == [];
    }
  }

  /**
   * A recorded document costs one ledger read and nothing else: no load, no
   * embedding, no upsert, no ledger write. An unrecorded one is recorded
   * exactly once, by the last call, after all of its upserts.
   */
  lemma ProcessDocumentRecordsOnce(file: Option<Text>, path: Text, documentId: Text, fragments: seq<Text>)
    ensures var e := ProcessDocumentEffect(file, path, documentId, fragments);
            if documentId in Entries(file) then e.calls == [LedgerReadCall] && e.ledgerFile == file && !e.failed
            else
              && Appends(e.calls) == [documentId + [Newline]]
              && e.calls[|e.calls| - 1] == LedgerAppendCall(documentId + [Newline])
              && Upserts(e.calls) == Upserts(StoreCalls(ChunksOf(fragments, documentId, ChunkSize, ChunkOverlap)))
  {
    if documentId !in Entries(file) {
      var store := StoreCalls(ChunksOf(fragments, documentId, ChunkSize, ChunkOverlap));
      var last := [LedgerAppendCall(documentId + [Newline])];
      StoreCallsWriteNoLedger(Batches(ChunksOf(fragments, documentId, ChunkSize, ChunkOverlap)));
      AppendsAppend([LedgerReadCall, LoadCall(path)], store);
      AppendsAppend([LedgerReadCall, LoadCall(path)] + store, last);
      UpsertsAppend([LedgerReadCall, LoadCall(path)], store);
      UpsertsAppend([LedgerReadCall, LoadCall(path)] + store, last);
      assert [LedgerReadCall, LoadCall(path)][1..][1..] == [];
    }
  }

  /**
   * Ingesting a document twice is ingesting it once: the second run only
   * reads the ledger and leaves it as the first run left it.
   */
  lemma ProcessDocumentTwice(file: Option<Text>, path: Text, documentId: Text, fragments: seq<Text>)
    requires WellFormed(file)
    requires Recordable(documentId)
    ensures var first := ProcessDocumentEffect(file, path, documentId, fragments);
            ProcessDocumentEffect(first.ledgerFile, path, documentId, fragments) == Outcome(first.ledgerFile, [LedgerReadCall], false)
  {
    if documentId !in Entries(file) {
      EntriesAfterSave(file, documentId);
    }
  }

  /** Processing a recordable document does not raise, keeps the ledger well formed, keeps every entry and adds its id. */
  lemma ProcessDocumentGrowsLedger(file: Option<Text>, path: Text, documentId: Text, fragments: seq<Text>)
    requires WellFormed(file)
    requires Recordable(documentId)
    ensures var e := ProcessDocumentEffect(file, path, documentId, fragments);
            !e.failed && WellFormed(e.ledgerFile) && Entries(file) + {documentId} <= Entries(e.ledgerFile)
  {
    if documentId !in Entries(file) {
      EntriesAfterSave(file, documentId);
    }
  }

  /**
   * A new document whose id holds a surrogate is loaded and all of its
   * chunks are upserted, but the ledger write raises: the id is not
   * recorded, so the next run ingests it again.
   */
  lemma ProcessDocumentSurrogateId(file: Option<Text>, path: Text, documentId: Text, fragments: seq<Text>)
    requires documentId !in Entries(file)
    requires !Clean(documentId)
    ensures var e := ProcessDocumentEffect(file, path, documentId, fragments);
            && e.failed
            && e.ledgerFile == Some(FileText(file))
            && documentId !in Entries(e.ledgerFile)
            && Upserts(e.calls) == Upserts(StoreCalls(ChunksOf(fragments, documentId, ChunkSize, ChunkOverlap)))
  {
    ProcessDocumentRecordsOnce(file, path, documentId, fragments);
    if file.None? {
      assert Split(UniversalNewlines([]), Newline) == [[]];
      assert documentId != [];
    }
  }

  /**
   * A document whose id holds a carriage return is re-read as the pieces
   * around it: after ingesting "a\rb" into a new ledger, "a" counts as
   * recorded (a later "a.pdf" is skipped unprocessed) while "a\rb" does not
   * (it is ingested again on every run).
   */
  lemma CarriageReturnIdSkipsAnother(path: Text, otherPath: Text, fragments: seq<Text>, otherFragments: seq<Text>)
    ensures var first := ProcessDocumentEffect(None, path, [0x61, CarriageReturn, 0x62], fragments);
            && !first.failed
            && ProcessDocumentEffect(first.ledgerFile, otherPath, [0x61], otherFragments)
               == Outcome(first.ledgerFile, [LedgerReadCall], false)
            && ProcessDocumentEffect(first.ledgerFile, path, [0x61, CarriageReturn, 0x62], fragments).calls
               != [LedgerReadCall]
  {
    CarriageReturnIdIsSplit();
    var documentId: Text := [0x61, CarriageReturn, 0x62];
    assert documentId !in Entries(None);
    assert documentId != [0x61] && documentId != [0x62];
  }

  /** A document to ingest: its path and its id. */
  datatype Target = Target(path: Text, documentId: Text)

  /** The (path, id) pairs process_all_documents_in_directory passes to process_document, in listing order. */
  function Targets(directory: Text, names: seq<Text>): seq<Target> {
    if names == [] then []
    else
      Targets(directory, names[..|names| - 1]) + TargetOf(directory, names[|names| - 1])
  }

  /** The target one listed name yields: none unless its joined path ends in ".pdf". */
  function TargetOf(directory: Text, name: Text): seq<Target> {
    var path := Join(directory, name);
    if EndsWith(path, PdfExtension) then [Target(path, SplitextRoot(name))] else []
  }

  /** The names of a listing that end in ".pdf", in listing order. */
  function PdfNames(names: seq<Text>): seq<Text> {
    if names == [] then []
    else
      PdfNames(names[..|names| - 1]) + PdfName(names[|names| - 1])
  }

  function PdfName(name: Text): seq<Text> {
    if EndsWith(name, PdfExtension) then [name] else []
  }

  lemma PdfExtensionHasNoSlash()
    ensures |PdfExtension| == 4 && Slash !in PdfExtension
  {
    assert PdfExtension == [Dot, 0x70, 0x64, 0x66];
  }

  /**
   * process_all_documents_in_directory hands process_document exactly the
   * names ending in ".pdf", in listing order, each joined to the directory
   * and with its id the name without its extension.
   */
  lemma {:induction false} TargetsArePdfNames(directory: Text, names: seq<Text>)
    ensures |Targets(directory, names)| == |PdfNames(names)|
    ensures forall k :: 0 <= k < |PdfNames(names)| ==>
              Targets(directory, names)[k] == Target(Join(directory, PdfNames(names)[k]), SplitextRoot(PdfNames(names)[k]))
  {
    if names != [] {
      var front := names[..|names| - 1];
      var name := names[|names| - 1];
      TargetsArePdfNames(directory, front);
      PdfExtensionHasNoSlash();
      JoinEndsWith(directory, name, PdfExtension);
      assert Targets(directory, names) == Targets(directory, front) + TargetOf(directory, name);
      assert PdfNames(names) == PdfNames(front) + PdfName(name);
    }
  }

  /**
   * What running process_document over `targets`, in order, does. The first
   * document that raises ends the run: later targets are not processed.
   */
  function RunAll(file: Option<Text>, targets: seq<Target>, fragmentsOf: Text -> seq<Text>): Outcome {
    if targets == [] then Outcome(file, [], false)
    else
      var before := RunAll(file, targets[..|targets| - 1], fragmentsOf);
      if before.failed then before
      else
        var t := targets[|targets| - 1];
        var step := ProcessDocumentEffect(before.ledgerFile, t.path, t.documentId, fragmentsOf(t.path));
        Outcome(step.ledgerFile, before.calls + step.calls, step.failed)
  }

  lemma RunAllSnoc(file: Option<Text>, targets: seq<Target>, t: Target, fragmentsOf: Text -> seq<Text>)
    ensures var before := RunAll(file, targets, fragmentsOf);
            var step := ProcessDocumentEffect(before.ledgerFile, t.path, t.documentId, fragmentsOf(t.path));
            RunAll(file, targets + [t], fragmentsOf)
            == if before.failed then before else Outcome(step.ledgerFile, before.calls + step.calls, step.failed)
  {
    assert (targets + [t])[..|targets|] == targets;
  }

  /** Once a document raises, the rest of the listing changes nothing: the scan is abandoned. */
  lemma {:induction false} RunAllStopsAtFailure(file: Option<Text>, targets: seq<Target>, rest: seq<Target>,
                                                fragmentsOf: Text -> seq<Text>)
    requires RunAll(file, targets, fragmentsOf).failed
    ensures RunAll(file, targets + rest, fragmentsOf) == RunAll(file, targets, fragmentsOf)
  {
    if rest != [] {
      var front := rest[..|rest| - 1];
      RunAllStopsAtFailure(file, targets, front, fragmentsOf);
      assert (targets + rest)[..|targets + rest| - 1] == targets + front;
    } else {
      assert targets + rest == targets;
    }
  }

  lemma TargetsSnoc(directory: Text, names: seq<Text>, name: Text)
    ensures Targets(directory, names + [name]) == Targets(directory, names) + TargetOf(directory, name)
  {
    assert (names + [name])[..|names|] == names;
  }

  /** The targets of a listing split at any point are those of its two parts. */
  lemma {:induction false} TargetsAppend(directory: Text, names: seq<Text>, more: seq<Text>)
    ensures Targets(directory, names + more) == Targets(directory, names) + Targets(directory, more)
  {
    if more == [] {
      assert names + more == names;
    } else {
      var front := more[..|more| - 1];
      var name := more[|more| - 1];
      assert more == front + [name];
      assert names + more == (names + front) + [name];
      TargetsSnoc(directory, names + front, name);
      TargetsSnoc(directory, front, name);
      TargetsAppend(directory, names, front);
      AppendAssociative(Targets(directory, names), Targets(directory, front), TargetOf(directory, name));
    }
  }

  /** process_all_documents_in_directory, for a directory whose listing is `listing`; `ok` is false when it raises. */
  method ProcessAllDocumentsInDirectory(env: Environment, directoryPath: Text, listing: seq<Text>,
                                        fragmentsOf: Text -> seq<Text>)
    returns (ok: bool)
    modifies env
    ensures var e := RunAll(old(env.ledgerFile), Targets(directoryPath, listing), fragmentsOf);
            env.ledgerFile == e.ledgerFile && env.log == old(env.log) + e.calls && ok == !e.failed
  {
    for i := 0 to |listing|
      invariant var e := RunAll(old(env.ledgerFile), Targets(directoryPath, listing[..i]), fragmentsOf);
                env.ledgerFile == e.ledgerFile && env.log == old(env.log) + e.calls && !e.failed
    {
      var filename := listing[i];
      var documentPath := Join(directoryPath, filename);
      ghost var done := Targets(directoryPath, listing[..i]);
      assert listing[..i + 1][..i] == listing[..i] && listing[..i + 1][i] == filename;
      assert Targets(directoryPath, listing[..i + 1]) == done + TargetOf(directoryPath, filename);
      if EndsWith(documentPath, PdfExtension) {
        var documentId := SplitextRoot(filename);
        ghost var before := RunAll(old(env.ledgerFile), done, fragmentsOf);
        var fragments := fragmentsOf(documentPath);
        ghost var step := ProcessDocumentEffect(before.ledgerFile, documentPath, documentId, fragments);
        ghost var logBefore := env.log;
        assert env.ledgerFile == before.ledgerFile && logBefore == old(env.log) + before.calls;
        var processed := ProcessDocument(env, documentPath, documentId, fragments);
        assert env.ledgerFile == step.ledgerFile && env.log == logBefore + step.calls;
        AppendAssociative(old(env.log), before.calls, step.calls);
        RunAllSnoc(old(env.ledgerFile), done, Target(documentPath, documentId), fragmentsOf);
        assert done + TargetOf(directoryPath, filename) == done + [Target(documentPath, documentId)];
        if !processed {
          TargetsSplitAt(directoryPath, listing, i + 1);
          RunAllStopsAtFailure(old(env.ledgerFile), Targets(directoryPath, listing[..i + 1]),
                               Targets(directoryPath, listing[i + 1..]), fragmentsOf);
          return false;
        }
      } else {
        assert done + TargetOf(directoryPath, filename) == done;
      }
    }
    assert listing[..|listing|] == listing;
    return true;
  }

  lemma TargetsSplitAt(directory: Text, listing: seq<Text>, i: nat)
    requires i <= |listing|
    ensures Targets(directory, listing) == Targets(directory, listing[..i]) + Targets(directory, listing[i..])
  {
    var front, back := listing[..i], listing[i..];
    assert front + back == listing;
    TargetsAppend(directory, front, back);
  }

  function Ids(targets: seq<Target>): set<Text> {
    set t | t in targets :: t.documentId
  }

  lemma IdsSnoc(front: seq<Target>, t: Target)
    ensures Ids(front + [t]) == Ids(front) + {t.documentId}
  {
  }

  /** After a run every id it was given is recorded, and nothing recorded before is lost. */
  lemma {:induction false} RunAllRecords(file: Option<Text>, targets: seq<Target>, fragmentsOf: Text -> seq<Text>)
    requires WellFormed(file)
    requires forall t :: t in targets ==> Recordable(t.documentId)
    ensures var e := RunAll(file, targets, fragmentsOf);
            !e.failed && WellFormed(e.ledgerFile) && Entries(file) + Ids(targets) <= Entries(e.ledgerFile)
  {
    if targets != [] {
      var front := targets[..|targets| - 1];
      var t := targets[|targets| - 1];
      assert forall u :: u in front ==> u in targets;
      RunAllRecords(file, front, fragmentsOf);
      var before := RunAll(file, front, fragmentsOf);
      ProcessDocumentGrowsLedger(before.ledgerFile, t.path, t.documentId, fragmentsOf(t.path));
      IdsSnoc(front, t);
      assert targets == front + [t];
    }
  }

  /** Every scan, over any ids, leaves a well-formed ledger well formed. */
  lemma {:induction false} RunAllWellFormed(file: Option<Text>, targets: seq<Target>, fragmentsOf: Text -> seq<Text>)
    requires WellFormed(file)
    ensures WellFormed(RunAll(file, targets, fragmentsOf).ledgerFile)
  {
    if targets != [] {
      var front := targets[..|targets| - 1];
      var t := targets[|targets| - 1];
      RunAllWellFormed(file, front, fragmentsOf);
      var before := RunAll(file, front, fragmentsOf);
      if !before.failed && t.documentId !in Entries(before.ledgerFile) {
        SavedWellFormed(before.ledgerFile, t.documentId);
      }
    }
  }

  /** Targets whose ids are all recorded are all skipped: one ledger read each, no other call. */
  lemma {:induction false} RunAllSkipsRecorded(file: Option<Text>, targets: seq<Target>, fragmentsOf: Text -> seq<Text>)
    requires Ids(targets) <= Entries(file)
    ensures RunAll(file, targets, fragmentsOf) == Outcome(file, seq(|targets|, _ => LedgerReadCall), false)
  {
    if targets != [] {
      var front := targets[..|targets| - 1];
      assert Ids(front) <= Ids(targets);
      RunAllSkipsRecorded(file, front, fragmentsOf);
      assert targets[|targets| - 1] in targets;
    }
  }

  /**
   * Running the whole directory scan a second time changes nothing: every
   * document is skipped after one ledger read, and the ledger is unchanged.
   */
  lemma RunAllTwice(file: Option<Text>, targets: seq<Target>, fragmentsOf: Text -> seq<Text>)
    requires WellFormed(file)
    requires forall t :: t in targets ==> Recordable(t.documentId)
    ensures var first := RunAll(file, targets, fragmentsOf);
            RunAll(first.ledgerFile, targets, fragmentsOf) == Outcome(first.ledgerFile, seq(|targets|, _ => LedgerReadCall), false)
  {
    RunAllRecords(file, targets, fragmentsOf);
    RunAllSkipsRecorded(RunAll(file, targets, fragmentsOf).ledgerFile, targets, fragmentsOf);
  }
}
