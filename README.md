# summerizer ingestion and reconstruction, in Dafny

This project models the two pipelines of the summerizer retrieval system and
proves what they promise.

**Ingestion** (`ingestion.py`):
- A directory scan picks the `.pdf` files and derives each document id from
  the file name without its extension.
- For each document, a processed-document ledger file is consulted. A
  document already recorded there is skipped.
- Any other document is loaded, split into chunks and embedded. Its chunks
  go to a vector index in batches of 96. Only then is its id appended to the
  ledger.

**Reconstruction** (`retrieval.py`):
- The query is embedded and the index is asked for the top-k matches.
- Each match's metadata becomes a chunk again.
- The chunks are stably sorted by start offset and their texts concatenated.

Python strings are sequences of code points (`Unicode.Text`), surrogates
included. A chunk's text sanitising, `text.encode('utf-8', 'ignore').decode('utf-8')`,
is modelled byte for byte: a UTF-8 encoder that drops unencodable code
points, and a strict decoder. It is proved to amount to deleting the
surrogates.

The external collaborators are the methods of one class,
`Services.Environment`:
- the ledger file;
- the PDF loader;
- the embedding service;
- the vector index.

Each call is recorded in a ghost log. The ledger file's contents are state
(`None` while no file exists).

What those services compute is an input to the pipelines:
- the splitter's fragments;
- the directory listing;
- the query matches.

The state-changing operations are methods. Each is specified by a function
on the old state:
- `ProcessDocumentEffect` for `ProcessDocument`;
- `RunAll` for the directory scan;
- `StoreCalls` for `StoreEmbeddings`.

The properties are proved as lemmas about those functions.

Modules and files:
- `Wrappers` (`wrappers.dfy`): Option and Result.
- `Unicode` (`unicode.dfy`): code points, UTF-8, the sanitiser.
- `PyStr` (`pystr.dfy`): `str.split`, `str.endswith`, the integer formatting used in vector ids.
- `PyPath` (`pypath.dfy`): POSIX `os.path.join` and `os.path.splitext`.
- `Chunking` (`chunking.dfy`): `DocumentChunkWithMetadata`, `split_document_with_metadata`, vector ids and metadata.
- `Services` (`services.dfy`): the environment class and its call log.
- `Ledger` (`ledger.dfy`): `load_processed_document_record`, `save_processed_document_record`.
- `Batching` (`batching.dfy`): `store_embeddings`.
- `Ingestion` (`ingestion.dfy`): `process_document`, `process_all_documents_in_directory`.
- `Retrieval` (`retrieval.dfy`): `reconstruct_document`, `retieve_and_reconstruct`.

A chunk's `end` is `start` plus the length of the raw splitter fragment,
measured before sanitising, not plus the length of the stored text
(`ingestion.py:68`).

The ledger file is opened in text mode with UTF-8 as its encoding:
- a read turns every "\r\n" and every other "\r" into "\n" (universal
  newlines) before the text is split at "\n";
- a write encodes strictly, so an id holding a lone surrogate makes the
  save raise after the document's chunks have been upserted, and the scan
  ends there.

The model keeps both behaviours: an id with a carriage return is read back
as the pieces around it, and an id with a surrogate is never recorded.

## Model

| member | source | states |
|---|---|---|
| Unicode.Sanitize | ingestion.py:43 | the sanitised text holds no surrogate, keeps exactly the non-surrogate code points, is never longer, and is the text itself when it has no surrogate |
| Unicode.SanitizeIdempotent | ingestion.py:43 | sanitising twice is sanitising once |
| Unicode.EncodeChar | ingestion.py:43 | UTF-8 encoding with 'ignore' drops a code point exactly when it is a surrogate, and uses at most four bytes |
| Unicode.Decode | ingestion.py:43 | a strict UTF-8 decode that succeeds yields text without surrogates |
| Unicode.DecodeFirstOfEncoded | ingestion.py:43 | the decoder reads back exactly the code point the encoder wrote, and its byte count |
| Unicode.DecodeEncodeIgnore | ingestion.py:43 | `encode('utf-8', 'ignore')` followed by `decode('utf-8')` never fails and equals removing the surrogates |
| PyStr.Split | ingestion.py:87 | `str.split(sep)` yields at least one piece, and no piece contains the separator |
| PyStr.JoinSplit | ingestion.py:87 | joining the pieces of a split with the separator gives back the text |
| PyStr.SplitJoin | ingestion.py:87 | splitting separator-free pieces joined by the separator gives back the pieces |
| PyStr.SplitAround | ingestion.py:87 | the split of `x + sep + y` is the split of `x` followed by the split of `y` |
| PyStr.SplitWithoutSep | ingestion.py:87 | a text without the separator splits into itself alone |
| PyStr.LastIndexOf | ingestion.py:174 | the index of the last occurrence of a character, or -1 when there is none |
| PyStr.NatText | ingestion.py:116 | the decimal text of a natural number is non-empty, all digits, without a leading zero |
| PyStr.ParseNatText | ingestion.py:116 | reading the decimal text of a number gives the number back |
| PyStr.IntText | ingestion.py:116 | the text of an integer is digits, optionally after a minus sign |
| PyStr.IntTextInjective | ingestion.py:116 | different integers format to different texts |
| PyPath.Join | ingestion.py:172 | the joined path ends with the file name |
| PyPath.SplitextRoot | ingestion.py:174 | the root of `os.path.splitext` is a prefix of the path |
| PyPath.JoinEndsWith | ingestion.py:172-173 | the joined path ends with ".pdf" exactly when the file name does |
| PyPath.RootOfExtension | ingestion.py:174 | the document id is the file name without its final extension, or the whole name when only dots precede the extension |
| Chunking.MakeChunk | ingestion.py:42-47 | a chunk's text is sanitised (clean, never longer, unchanged when already clean); id, number and offsets are kept as given |
| Chunking.MakeChunkIdempotent | ingestion.py:42-47 | rebuilding a chunk from its own fields gives the same chunk |
| Chunking.SplitDocumentWithMetadata | ingestion.py:65-76 | one chunk per fragment in splitter order; chunk k has id k, the caller's document id, start k * (size - overlap), end - start the raw fragment length, and the sanitised fragment as text |
| Chunking.StartsOrdered | ingestion.py:67 | starts never decrease along chunk ids when overlap <= size, and strictly increase when overlap < size |
| Chunking.RecordIdInjective | ingestion.py:116 | the vector id `f"{document_id}_{chunk_id}"` determines both the document id and the chunk id |
| Chunking.SplitRecordIdsDistinct | ingestion.py:114-116 | the chunks of one document are written under pairwise distinct vector ids |
| Services.Environment.ReadLedger | ingestion.py:85-87 | reading the ledger returns its contents with universal newlines applied (None without a file) and changes nothing but the call log |
| Services.Environment.AppendLedger | ingestion.py:98-99 | appending creates the file if missing; it adds the text at the end exactly when the text has no surrogate, and otherwise raises leaving the (possibly new, empty) file unchanged |
| Services.UniversalNewlines | ingestion.py:86-87 | a text-mode read leaves no carriage return, never lengthens the text, and yields a newline whenever the text has one |
| Services.UniversalNewlinesCarriageReturn | ingestion.py:86-87 | a "\r\n", and a "\r" not followed by "\n", each read as one "\n", and the rest of the text reads as it would alone |
| Services.UniversalNewlinesAppend | ingestion.py:86-87 | the translation is local: a text not ending in "\r" translates independently of what follows it |
| Services.UniversalNewlinesEndsInNewline | ingestion.py:86-87 | a text ending in "\n" reads as a text ending in "\n" |
| Services.UniversalNewlinesKeeps | ingestion.py:86-87 | a text without carriage returns reads back unchanged |
| Services.Environment.LoadPdf | ingestion.py:155-156 | loading a PDF is a logged call that leaves the ledger alone |
| Services.Environment.Embed | ingestion.py:125-131 | an embedding call is logged with its inputs and input type |
| Services.Environment.Upsert | ingestion.py:139 | an upsert call is logged with its records |
| Services.Environment.Query | retrieval.py:52-57 | an index query is logged with its top_k |
| Ledger.SavedWellFormed | ingestion.py:91-99 | every save, whatever the id and whether or not it raises, leaves a newline-terminated ledger newline-terminated |
| Ledger.EntriesAfterSave | ingestion.py:85-99 | on a newline-terminated ledger, saving an id without line breaks or surrogates makes a load hold every earlier entry, the id, and the empty line after the final newline, and nothing else; the file stays newline-terminated |
| Ledger.ReadAfterAppend | ingestion.py:86-99 | reading the ledger after an id line is appended gives the earlier read followed by the id line, and the earlier read ends in a newline |
| Ledger.LinesAfterAppend | ingestion.py:87-99 | appending an id line to newline-terminated text adds exactly the id (and keeps the final empty line) to its set of lines |
| Ledger.CarriageReturnIdIsSplit | ingestion.py:85-99 | saving "a\rb" to a new ledger makes a load return "a", "b" and the empty line, and not "a\rb" |
| Ledger.CleanLine | ingestion.py:99 | the written line is encodable exactly when the id is |
| Ledger.LoadProcessedDocumentRecord | ingestion.py:78-89 | the record is the set of lines of the file as read in text mode, and the empty set without a file |
| Ledger.SaveProcessedDocumentRecord | ingestion.py:91-99 | the file becomes its old contents followed by the id and a newline; an id with a surrogate raises and leaves the file as it was (created empty if missing) |
| Batching.BatchesAreSlices | ingestion.py:111-114 | there are ceil(n / 96) windows, and window k is the slice from 96k to 96k + 96, cut at the end |
| Batching.BatchesCover | ingestion.py:111-140 | the windows are non-empty, hold at most 96 chunks, and concatenate back to the chunk list |
| Batching.CallsForShape | ingestion.py:125-139 | per window, one embedding of its texts as passages, then one upsert of its records |
| Batching.CallsForPayloads | ingestion.py:125-139 | in order, the upsert calls write the windows' records and the embedding calls embed the windows' texts |
| Batching.StoreUpserts | ingestion.py:111-140 | store_embeddings makes ceil(n / 96) upserts and as many embedding calls, none for no chunks; together the upserts write every chunk's record exactly once, in order; upsert k and embedding k are window k's |
| Batching.NinetySevenChunks | ingestion.py:111-140 | 97 chunks are written by two upserts, of 96 and 1 records |
| Batching.BatchRecords | ingestion.py:113-124 | record k has id `document_id_chunk_id` and metadata equal to chunk k's five fields |
| Batching.StoreEmbeddings | ingestion.py:101-140 | the calls made are exactly the per-window embed/upsert pairs, and the ledger is untouched |
| Ingestion.ProcessDocument | ingestion.py:142-162 | the ledger, the calls and whether it raises are those of `ProcessDocumentEffect`: skip a recorded id, otherwise load, store the chunks, then append the id, raising when the id cannot be encoded |
| Ingestion.StoreCallsWriteNoLedger | ingestion.py:101-140 | storing embeddings never writes the ledger |
| Ingestion.ProcessDocumentRecordsOnce | ingestion.py:153-161 | a recorded document costs one ledger read and nothing else; an unrecorded one is appended exactly once, as the very last call, after all of its upserts |
| Ingestion.ProcessDocumentTwice | ingestion.py:153-161 | for an id without line breaks or surrogates, processing the same document again only reads the ledger and changes nothing |
| Ingestion.ProcessDocumentGrowsLedger | ingestion.py:153-161 | for an id without line breaks or surrogates, processing does not raise, the ledger stays well formed, keeps every entry and gains the document's id |
| Ingestion.ProcessDocumentSurrogateId | ingestion.py:153-161 | a new document whose id holds a surrogate has all its chunks upserted, then raises at the ledger write, and its id is still not recorded |
| Ingestion.CarriageReturnIdSkipsAnother | ingestion.py:153-161 | after ingesting "a\rb" into a new ledger, document "a" is skipped without being processed, while "a\rb" is processed again |
| Ingestion.TargetsArePdfNames | ingestion.py:171-176 | process_document is called for exactly the names ending in ".pdf", in listing order, with the joined path and the name without its extension |
| Ingestion.ProcessAllDocumentsInDirectory | ingestion.py:164-176 | the ledger, the calls and whether it raises are those of processing each target of the listing in order, up to the first document that raises |
| Ingestion.RunAllStopsAtFailure | ingestion.py:171-176 | once a document raises, the remaining targets change neither the ledger nor the calls |
| Ingestion.TargetsAppend | ingestion.py:171-176 | the targets of a listing are those of any prefix followed by those of the rest |
| Ingestion.RunAllRecords | ingestion.py:171-176 | after a scan whose ids have no line breaks or surrogates, nothing raised, every processed id is recorded and no earlier entry is lost |
| Ingestion.RunAllWellFormed | ingestion.py:171-176 | every scan, over any ids, leaves a newline-terminated ledger newline-terminated |
| Ingestion.RunAllSkipsRecorded | ingestion.py:171-176 | a scan whose ids are all recorded makes one ledger read per document and nothing else |
| Ingestion.RunAllTwice | ingestion.py:164-176 | after a scan whose ids have no line breaks or surrogates, a second scan of the same directory only reads the ledger and changes nothing |
| Retrieval.InsertPermutes | retrieval.py:84 | insertion adds exactly the inserted chunk |
| Retrieval.InsertSorted | retrieval.py:84 | insertion into a start-ordered list keeps it ordered |
| Retrieval.InsertKeyFilter | retrieval.py:84 | the inserted chunk precedes every chunk of the list with the same start |
| Retrieval.SortByStartIsStableSort | retrieval.py:84 | `sorted(..., key=start)` is ordered by start, a permutation of its input, and keeps chunks of equal start in input order |
| Retrieval.SortedUnique | retrieval.py:84 | a stable sort has one result: two ordered lists with the same chunks per start, in the same order, are equal |
| Retrieval.SortSortedIsIdentity | retrieval.py:84 | sorting chunks already in start order leaves them as they are |
| Retrieval.SortOrderIndependent | retrieval.py:84 | with distinct starts, any rearrangement of the chunks sorts to the same list |
| Retrieval.ReconstructIsSortedConcatenation | retrieval.py:84-85 | the reconstructed document is the concatenation of the texts of the input stably sorted by start |
| Retrieval.ReconstructLength | retrieval.py:84-86 | the document's length is the sum of the chunk text lengths (overlap neither removed nor merged); no chunks give the empty document |
| Retrieval.IngestedDocumentReconstructs | retrieval.py:72-86 | the chunks of one ingested document with overlap below the chunk size, retrieved in any order, reconstruct to its sanitised fragments in splitter order |
| Retrieval.FirstMissing | retrieval.py:61-67 | the first key of the lookup order that the metadata lacks, or none when all are present |
| Retrieval.ChunkFromMatch | retrieval.py:60-67 | a match without metadata fails; the first missing key fails with that key; a built chunk has the sanitised text and exactly the document id, chunk id, start and end of the metadata |
| Retrieval.MetadataRoundTrip | retrieval.py:60-67 | the metadata stored for a chunk maps back to that very chunk |
| Retrieval.ChunksFromMatches | retrieval.py:58-68 | success exactly when every match maps, giving one chunk per match in match order; otherwise the error of the first failing match |
| Retrieval.RetrieveAndReconstruct | retrieval.py:30-70 | one query embedding and one index query are made; the result is the reconstruction of the mapped matches, or else the error of the first match that does not map |
| Retrieval.RetrieveAndReconstructDefault | retrieval.py:30 | without k, the index is asked for 8 matches, with the same result as RetrieveAndReconstruct |

`reconstruct_document`, `sorted(..., key=start)` and the 96-chunk windows
of `store_embeddings` are modelled by `Retrieval.ReconstructDocument`,
`Retrieval.SortByStart` and `Batching.Batches`. Their properties are the
lemmas `ReconstructIsSortedConcatenation` and `ReconstructLength`,
`SortByStartIsStableSort` and `SortedUnique`, and `BatchesAreSlices` and
`BatchesCover`.

## Left out

- The PDF loader and the recursive text splitter are foreign library calls. The splitter's fragments are an input. The error the splitter raises when the overlap exceeds the chunk size is not modelled.
- Embedding vectors are floats and are not modelled. The `zip` of records with embeddings, which would truncate if the service returned fewer vectors, is modelled as passing the records through unchanged.
- The Pinecone client setup, environment variables and the `__main__` entry point are configuration.
- The `print` calls are output only. If standard output encodes strictly, the print at `ingestion.py:175` already raises for an id with a surrogate, before that document's ledger read; the model follows the configuration where only the ledger write raises.
- The real file system is not modelled. `os.listdir` is an input listing, and `os.path.exists` plus the read become the `None`/`Some` state of the ledger file.
- question_answer.py, summerizer.py, embedding.py, main.py and document_indexing.py are not part of this model.
- Ledger.EntriesAfterSave: holds only for an id without newline, carriage return or surrogate. It also needs a newline-terminated ledger, but that condition costs nothing: every ledger the program writes is one (Ledger.SavedWellFormed, Ingestion.RunAllWellFormed). An id with a line break is read back as the pieces around it (Ledger.CarriageReturnIdIsSplit). An id with a surrogate is never written (Ingestion.ProcessDocumentSurrogateId).
- Ingestion.ProcessDocumentTwice: holds only for such ids. A document whose id has a line break or a surrogate is ingested again on every run (Ingestion.CarriageReturnIdSkipsAnother, Ingestion.ProcessDocumentSurrogateId).
- Ingestion.ProcessDocumentGrowsLedger: holds only for such ids, for the same reason.
- Ingestion.RunAllRecords: holds only when every listed id is such an id. Otherwise an id may be missing afterwards, another id may be reported as recorded, or the scan may stop at a surrogate.
- Ingestion.RunAllTwice: holds only when every listed id is such an id, for the same reason.
- The ledger's encoding is taken to be UTF-8. A ledger file edited by hand so that it no longer decodes is not modelled: the ledger is kept as text.
- Ledger.LoadProcessedDocumentRecord: the empty string that the final newline contributes is kept in the set, as Python does. A document whose id is empty would therefore be skipped after the first save.
- Retrieval.ChunkFromMatch: metadata values are typed (text or integer). A value of the wrong type is a failure at mapping time. Python would instead keep any value in the chunk, and fail only at `.encode` for a non-string text. The index's numeric metadata may also come back as floats, which this model does not represent.
- Retrieval.RetrieveAndReconstruct: the matches are an input. That the index returns at most `k` of them, ranked by similarity, is not enforced.
- Chunks of different documents retrieved together are interleaved by start offset, exactly as the code does. No per-document grouping is modelled.
- The loader, embedding, upsert and query calls are modelled as always returning. When one of them raises in the source, the upserts already made stay in the index, no ledger entry is written, and the scan is abandoned. The model does not represent that outcome. Ingestion.ProcessDocumentRecordsOnce shows that the ledger append is the last call of a document, so no failure earlier in it can leave a ledger entry behind. The one raise the model does represent is the ledger write refusing a surrogate.
- A match that does not map ends the reconstruction with that match's error. No match is skipped and nothing is recovered.
