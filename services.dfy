/**
 * The external collaborators of both pipelines: the processed-document
 * ledger file, the PDF loader, the embedding service and the vector index.
 * Each call is recorded, in order, in a ghost log; the ledger file is the
 * only one whose state the model keeps (None while the file does not exist).
 * What the services compute (PDF text, embedding vectors, query matches) is
 * not modelled here: the pipelines receive it as input.
 */
module Services {
  import opened Wrappers
  import opened Unicode
  import opened Chunking

  /** One call into an external collaborator. */
  datatype Call =
    | LedgerReadCall                                // read processed_document_record.txt
    | LedgerAppendCall(written: Text)               // append to processed_document_record.txt
    | LoadCall(path: Text)                          // PyPDFLoader(path).load()
    | EmbedCall(inputs: seq<Text>, inputType: Text) // pc.inference.embed(...)
    | UpsertCall(vectors: seq<UpsertRecord>)        // index.upsert(vectors=...)
    | QueryCall(topK: int)                          // index.query(..., top_k=...)

  const PassageType: Text := Str("passage")
  const QueryType: Text := Str("query")

  const Newline: CodePoint := 0x0A
  const CarriageReturn: CodePoint := 0x0D

  /**
   * What reading a file opened in text mode returns (universal newlines):
   * every "\r\n" and every other "\r" becomes "\n".
   */
  function UniversalNewlines(s: Text): (r: Text)
    ensures CarriageReturn !in r
    ensures |r| <= |s|
    ensures Newline in s ==> Newline in r
  {
    if s == [] then []
    else if s[0] == CarriageReturn then
      [Newline] + UniversalNewlines(if |s| > 1 && s[1] == Newline then s[2..] else s[1..])
    else [s[0]] + UniversalNewlines(s[1..])
  }

  /** A text without a carriage return reads back unchanged. */
  lemma {:induction false} UniversalNewlinesKeeps(s: Text)
    requires CarriageReturn !in s
    ensures UniversalNewlines(s) == s
  {
    if s != [] {
      assert CarriageReturn !in s[1..];
      UniversalNewlinesKeeps(s[1..]);
      assert [s[0]] + s[1..] == s;
    }
  }

  /** A "\r\n", and a "\r" not followed by "\n", each read as one newline, whatever follows. */
  lemma UniversalNewlinesCarriageReturn(y: Text)
    ensures UniversalNewlines([CarriageReturn, Newline] + y) == [Newline] + UniversalNewlines(y)
    ensures y == [] || y[0] != Newline ==> UniversalNewlines([CarriageReturn] + y) == [Newline] + UniversalNewlines(y)
  {
    assert ([CarriageReturn, Newline] + y)[2..] == y;
    assert ([CarriageReturn] + y)[1..] == y;
  }

  /**
   * The translation is local: text that does not end in a carriage return
   * translates independently of what follows it.
   */
  lemma {:induction false} UniversalNewlinesAppend(x: Text, y: Text)
    requires x == [] || x[|x| - 1] != CarriageReturn
    ensures UniversalNewlines(x + y) == UniversalNewlines(x) + UniversalNewlines(y)
  {
    if x == [] {
      assert x + y == y;
    } else {
      var n := if x[0] == CarriageReturn && x[1] == Newline then 2 else 1;
      var head := if x[0] == CarriageReturn then Newline else x[0];
      assert |x| > 1 || x[0] != CarriageReturn;
      UnfoldFirst(x, y, n, head);
      var rest := x[n..];
      assert rest == [] || rest[|rest| - 1] == x[|x| - 1];
      UniversalNewlinesAppend(rest, y);
      AppendAssociative([head], UniversalNewlines(rest), UniversalNewlines(y));
    }
  }

  lemma AppendAssociative<T>(a: seq<T>, b: seq<T>, c: seq<T>)
    ensures a + b + c == a + (b + c)
  {
  }

  /** The first step of the translation of `x` is the same with or without `y` after it. */
  lemma UnfoldFirst(x: Text, y: Text, n: nat, head: CodePoint)
    requires |x| > 1 || (x != [] && x[0] != CarriageReturn)
    requires n == if x[0] == CarriageReturn && x[1] == Newline then 2 else 1
    requires head == if x[0] == CarriageReturn then Newline else x[0]
    ensures n <= |x|
    ensures UniversalNewlines(x) == [head] + UniversalNewlines(x[n..])
    ensures UniversalNewlines(x + y) == [head] + UniversalNewlines(x[n..] + y)
  {
    var s := x + y;
    assert s[0] == x[0] && s[n..] == x[n..] + y;
    if x[0] == CarriageReturn {
      assert s[1] == x[1];
    }
  }

  /** A text ending in a newline reads as a text ending in a newline. */
  lemma {:induction false} UniversalNewlinesEndsInNewline(s: Text)
    requires s != [] && s[|s| - 1] == Newline
    ensures UniversalNewlines(s) != [] && UniversalNewlines(s)[|UniversalNewlines(s)| - 1] == Newline
  {
    if s[0] == CarriageReturn && |s| > 1 && s[1] == Newline {
      if |s| > 2 {
        UniversalNewlinesEndsInNewline(s[2..]);
      } else {
        assert s[2..] == [];
      }
    } else if |s| > 1 {
      UniversalNewlinesEndsInNewline(s[1..]);
    } else {
      assert s[1..] == [];
    }
  }

  /** The ledger file's text; a missing file reads as empty when appended to. */
  function FileText(file: Option<Text>): Text {
    if file.Some? then file.value else []
  }

  class Environment {
    ghost var log: seq<Call>
    var ledgerFile: Option<Text>

    constructor (ledgerFile: Option<Text>)
      ensures this.ledgerFile == ledgerFile && log == []
    {
      this.ledgerFile := ledgerFile;
      log := [];
    }

    /** The file is opened in text mode, so its line endings are read as universal newlines. */
    method ReadLedger() returns (contents: Option<Text>)
      modifies this
      ensures ledgerFile == old(ledgerFile)
      ensures contents.None? <==> ledgerFile.None?
      ensures contents.Some? ==> contents.value == UniversalNewlines(ledgerFile.value)
      ensures log == old(log) + [LedgerReadCall]
    {
      if ledgerFile.Some? {
        contents := Some(UniversalNewlines(ledgerFile.value));
      } else {
        contents := None;
      }
      log := log + [LedgerReadCall];
    }

    /**
     * Opening the file in append mode creates it if missing. The text is then
     * encoded with the strict UTF-8 encoder: a lone surrogate makes the write
     * raise (`ok` false) and nothing of `written` reaches the file.
     */
    method AppendLedger(written: Text) returns (ok: bool)
      modifies this
      ensures ok == Clean(written)
      ensures ledgerFile == if ok then Some(FileText(old(ledgerFile)) + written) else Some(FileText(old(ledgerFile)))
      ensures log == old(log) + [LedgerAppendCall(written)]
    {
      ok := Clean(written);
      if ok {
        ledgerFile := Some(FileText(ledgerFile) + written);
      } else {
        ledgerFile := Some(FileText(ledgerFile));
      }
      log := log + [LedgerAppendCall(written)];
    }

    method LoadPdf(path: Text)
      modifies this
      ensures ledgerFile == old(ledgerFile)
      ensures log == old(log) + [LoadCall(path)]
    {
      log := log + [LoadCall(path)];
    }

    method Embed(inputs: seq<Text>, inputType: Text)
      modifies this
      ensures ledgerFile == old(ledgerFile)
      ensures log == old(log) + [EmbedCall(inputs, inputType)]
    {
      log := log + [EmbedCall(inputs, inputType)];
    }

    method Upsert(vectors: seq<UpsertRecord>)
      modifies this
      ensures ledgerFile == old(ledgerFile)
      ensures log == old(log) + [UpsertCall(vectors)]
    {
      log := log + [UpsertCall(vectors)];
    }

    method Query(topK: int)
      modifies this
      ensures ledgerFile == old(ledgerFile)
      ensures log == old(log) + [QueryCall(topK)]
    {
      log := log + [QueryCall(topK)];
    }
  }
}
