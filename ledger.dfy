/**
 * load_processed_document_record and save_processed_document_record: the
 * processed-document ledger is a text file with one document id per line,
 * appended to after each ingested document and read back as the set of its
 * lines.
 */
module Ledger {
  import opened Wrappers
  import opened Unicode
  import opened PyStr
  import opened Services

  /** The set load_processed_document_record returns for a ledger file (None: no file). */
  function Entries(file: Option<Text>): set<Text> {
    match file
    case None => {}
    case Some(content) => set line | line in Split(UniversalNewlines(content), Newline)
  }

  /** The ledger file after a successful save_processed_document_record(documentId). */
  function Appended(file: Option<Text>, documentId: Text): Option<Text> {
    Some(FileText(file) + documentId + [Newline])
  }

  /**
   * The ledger file after save_processed_document_record(documentId): the id
   * and a newline appended, or, when the id holds a surrogate and the write
   * raises, the file as it was (created empty if it was missing).
   */
  function Saved(file: Option<Text>, documentId: Text): Option<Text> {
    if Clean(documentId) then Appended(file, documentId) else Some(FileText(file))
  }

  /** An id a save writes and a load reads back as itself: no line break in it, nothing UTF-8 cannot encode. */
  predicate Recordable(documentId: Text) {
    Newline !in documentId && CarriageReturn !in documentId && Clean(documentId)
  }

  /**
   * A ledger file written only by appending whole lines: absent, empty, or
   * ending in a newline.
   */
  predicate WellFormed(file: Option<Text>) {
    file.None? || file.value == [] || file.value[|file.value| - 1] == Newline
  }

  /** Every save, whatever the id and whether or not it raises, leaves a well-formed ledger well formed. */
  lemma SavedWellFormed(file: Option<Text>, documentId: Text)
    requires WellFormed(file)
    ensures WellFormed(Saved(file, documentId))
  {
    if Clean(documentId) {
      var after := FileText(file) + documentId + [Newline];
      assert after[|after| - 1] == Newline;
    }
  }

  /**
   * Saving a recordable id makes a later load contain it, and adds nothing
   * else except the empty string that the text after the final newline
   * contributes; the file stays well formed.
   */
  lemma EntriesAfterSave(file: Option<Text>, documentId: Text)
    requires WellFormed(file)
    requires Recordable(documentId)
    ensures Saved(file, documentId) == Appended(file, documentId)
    ensures WellFormed(Saved(file, documentId))
    ensures Entries(Saved(file, documentId)) == Entries(file) + {documentId, []}
  {
    var content := FileText(file);
    var read := UniversalNewlines(content);
    ReadAfterAppend(content, documentId);
    LinesAfterAppend(read, documentId);
    assert Appended(file, documentId) == Some(content + documentId + [Newline]);
    if file.None? {
      assert Split(read, Newline) == [[]];
    } else {
      assert Entries(file) == set x | x in Split(read, Newline);
    }
  }

  /** The text read back after an id line is appended: what was read before, then the id line. */
  lemma ReadAfterAppend(content: Text, documentId: Text)
    requires content == [] || content[|content| - 1] == Newline
    requires Recordable(documentId)
    ensures var read := UniversalNewlines(content);
            && (read == [] || read[|read| - 1] == Newline)
            && UniversalNewlines(content + documentId + [Newline]) == read + documentId + [Newline]
  {
    var line := documentId + [Newline];
    assert CarriageReturn !in line;
    UniversalNewlinesKeeps(line);
    UniversalNewlinesAppend(content, line);
    AppendAssociative(content, documentId, [Newline]);
    AppendAssociative(UniversalNewlines(content), documentId, [Newline]);
    if content != [] {
      UniversalNewlinesEndsInNewline(content);
    }
  }

  /** The lines of a newline-terminated text gain exactly the appended id (and keep the final empty line). */
  lemma LinesAfterAppend(content: Text, documentId: Text)
    requires content == [] || content[|content| - 1] == Newline
    requires Newline !in documentId
    ensures (set x | x in Split(content + documentId + [Newline], Newline))
         == (set x | x in Split(content, Newline)) + {documentId, []}
  {
    var line := documentId + [Newline];
    var after := content + documentId + [Newline];
    IdLine(documentId);
    if content == [] {
      assert after == line;
    } else {
      var front := content[..|content| - 1];
      var before := Split(front, Newline);
      assert after == front + [Newline] + line;
      SplitAround(front, Newline, line);
      SplitAround(front, Newline, []);
      assert front + [Newline] + [] == content;
      LinesOfAppend(before, [documentId, []]);
      LinesOfAppend(before, [[]]);
    }
  }

  /**
   * An id with a carriage return is not read back as itself: after saving
   * "a\rb" to a new ledger, a load holds "a" and "b" but not "a\rb".
   */
  lemma CarriageReturnIdIsSplit()
    ensures var documentId := [0x61, CarriageReturn, 0x62];
            Entries(Saved(None, documentId)) == {[0x61], [0x62], []}
  {
    var documentId: Text := [0x61, CarriageReturn, 0x62];
    var content: Text := [0x61, CarriageReturn, 0x62, Newline];
    assert Clean(documentId);
    assert FileText(None) + documentId + [Newline] == content;
    assert Saved(None, documentId) == Some(content);
    CarriageReturnReadsAsNewline();
    TwoLines();
    var lines: seq<Text> := [[0x61], [0x62], []];
    assert Split(UniversalNewlines(content), Newline) == lines;
    assert (set x | x in lines) == {[0x61], [0x62], []};
  }

  lemma CarriageReturnReadsAsNewline()
    ensures UniversalNewlines([0x61, CarriageReturn, 0x62, Newline]) == [0x61, Newline, 0x62, Newline]
  {
    var content: Text := [0x61, CarriageReturn, 0x62, Newline];
    var tail: Text := [0x62, Newline];
    assert content[1..][1..] == tail;
    UniversalNewlinesKeeps(tail);
    assert UniversalNewlines(content[1..]) == [Newline] + tail;
  }

  lemma TwoLines()
    ensures Split([0x61, Newline, 0x62, Newline], Newline) == [[0x61], [0x62], []]
  {
    IdLine([0x62]);
    SplitWithoutSep([0x61], Newline);
    SplitAround([0x61], Newline, [0x62, Newline]);
    assert [0x61] + [Newline] + [0x62, Newline] == [0x61, Newline, 0x62, Newline];
    assert [0x62] + [Newline] == [0x62, Newline];
  }

  lemma LinesOfAppend(a: seq<Text>, b: seq<Text>)
    ensures (set x | x in a + b) == (set x | x in a) + (set x | x in b)
  {
  }

  /** An id line written by a save splits into the id and the empty text after the newline. */
  lemma IdLine(documentId: Text)
    requires Newline !in documentId
    ensures Split(documentId + [Newline], Newline) == [documentId, []]
  {
    SplitAround(documentId, Newline, []);
    SplitWithoutSep(documentId, Newline);
    assert documentId + [Newline] + [] == documentId + [Newline];
  }

  /** load_processed_document_record: the set of lines of the ledger file, or the empty set without one. */
  method LoadProcessedDocumentRecord(env: Environment) returns (record: set<Text>)
    modifies env
    ensures record == Entries(old(env.ledgerFile))
    ensures old(env.ledgerFile).None? ==> record == {}
    ensures env.ledgerFile == old(env.ledgerFile)
    ensures env.log == old(env.log) + [LedgerReadCall]
  {
    var contents := env.ReadLedger();
    if contents.Some? {
      var lines := Split(contents.value, Newline);
      record := set line | line in lines;
    } else {
      record := {};
    }
  }

  /**
   * save_processed_document_record: appends the id and a newline; `ok` is
   * false when the write raises because the id holds a surrogate.
   */
  method SaveProcessedDocumentRecord(env: Environment, documentId: Text) returns (ok: bool)
    modifies env
    ensures ok == Clean(documentId)
    ensures env.ledgerFile == Saved(old(env.ledgerFile), documentId)
    ensures env.log == old(env.log) + [LedgerAppendCall(documentId + [Newline])]
  {
    ok := env.AppendLedger(documentId + [Newline]);
    CleanLine(documentId);
    assert FileText(old(env.ledgerFile)) + (documentId + [Newline]) == FileText(old(env.ledgerFile)) + documentId + [Newline];
  }

  /** The id line is encodable exactly when the id is. */
  lemma CleanLine(documentId: Text)
    ensures Clean(documentId + [Newline]) == Clean(documentId)
  {
    if Clean(documentId + [Newline]) {
      forall i | 0 <= i < |documentId|
        ensures !IsSurrogate(documentId[i])
      {
        assert documentId[i] == (documentId + [Newline])[i];
      }
    }
  }
}
