/**
 * DocumentChunkWithMetadata, split_document_with_metadata and the id and
 * metadata under which store_embeddings writes a chunk to the vector index.
 * The text splitter is not modelled: its fragments, in order, are the input.
 */
module Chunking {
  import opened Unicode
  import opened PyStr

  /** A chunk of a document with the metadata the index stores beside its vector. */
  datatype Chunk = Chunk(text: Text, documentId: Text, chunkId: int, start: int, end: int)

  /** `DocumentChunkWithMetadata(text, document_id, chunk_id, start, end)`: the text is sanitised, the rest kept. */
  function MakeChunk(text: Text, documentId: Text, chunkId: int, start: int, end: int): (c: Chunk)
    ensures Clean(c.text) && |c.text| <= |text|
    ensures Clean(text) ==> c.text == text
    ensures c.documentId == documentId && c.chunkId == chunkId && c.start == start && c.end == end
  {
    Chunk(Sanitize(text), documentId, chunkId, start, end)
  }

  /** Building a chunk again from a chunk's own fields gives the same chunk. */
  lemma MakeChunkIdempotent(text: Text, documentId: Text, chunkId: int, start: int, end: int)
    ensures var c := MakeChunk(text, documentId, chunkId, start, end);
            MakeChunk(c.text, c.documentId, c.chunkId, c.start, c.end) == c
  {
  }

  /** The chunks split_document_with_metadata builds from the splitter's fragments. */
  function ChunksOf(fragments: seq<Text>, documentId: Text, chunkSize: int, chunkOverlap: int): seq<Chunk> {
    seq(|fragments|, k requires 0 <= k < |fragments| =>
      MakeChunk(fragments[k], documentId, k, k * (chunkSize - chunkOverlap),
                k * (chunkSize - chunkOverlap) + |fragments[k]|))
  }

  /**
   * split_document_with_metadata: one chunk per fragment, in splitter order,
   * numbered from 0, placed at the arithmetic offset chunk_id * (chunk_size -
   * chunk_overlap) and ending the raw fragment's length later.
   */
  method SplitDocumentWithMetadata(fragments: seq<Text>, documentId: Text, chunkSize: int, chunkOverlap: int)
    returns (chunks: seq<Chunk>)
    ensures |chunks| == |fragments|
    ensures forall k :: 0 <= k < |chunks| ==>
              && chunks[k].chunkId == k
              && chunks[k].documentId == documentId
              && chunks[k].start == k * (chunkSize - chunkOverlap)
              && chunks[k].end - chunks[k].start == |fragments[k]|
              && chunks[k].text == Sanitize(fragments[k])
    ensures chunks == ChunksOf(fragments, documentId, chunkSize, chunkOverlap)
  {
    chunks := [];
    for chunkId := 0 to |fragments|
      invariant |chunks| == chunkId
      invariant chunks == ChunksOf(fragments[..chunkId], documentId, chunkSize, chunkOverlap)
    {
      var start := chunkId * (chunkSize - chunkOverlap);
      var end := start + |fragments[chunkId]|;
      chunks := chunks + [MakeChunk(fragments[chunkId], documentId, chunkId, start, end)];
    }
    assert fragments[..|fragments|] == fragments;
  }

  /**
   * Offsets follow chunk ids: they never decrease when the overlap is at most
   * the chunk size, and strictly increase when it is smaller.
   */
  lemma StartsOrdered(fragments: seq<Text>, documentId: Text, chunkSize: int, chunkOverlap: int, i: int, j: int)
    requires 0 <= i < j < |fragments|
    ensures var cs := ChunksOf(fragments, documentId, chunkSize, chunkOverlap);
            && (chunkOverlap <= chunkSize ==> cs[i].start <= cs[j].start)
            && (chunkOverlap < chunkSize ==> cs[i].start < cs[j].start)
  {
    var cs := ChunksOf(fragments, documentId, chunkSize, chunkOverlap);
    var step := chunkSize - chunkOverlap;
    assert cs[i].start == i * step && cs[j].start == j * step;
    MultiplesOrdered(i, j, step);
  }

  lemma MultiplesOrdered(i: int, j: int, step: int)
    requires i < j
    ensures step >= 0 ==> i * step <= j * step
    ensures step > 0 ==> i * step < j * step
  {
    assert j * step - i * step == (j - i) * step;
  }

  const Underscore: CodePoint := 0x5F

  /** The vector id `f"{document_id}_{chunk_id}"`. */
  function RecordId(documentId: Text, chunkId: int): Text {
    documentId + [Underscore] + IntText(chunkId)
  }

  /**
   * No two (document, chunk) pairs share a vector id: the id's last
   * underscore separates the document id from a number without underscores.
   */
  lemma RecordIdInjective(d1: Text, n1: int, d2: Text, n2: int)
    requires RecordId(d1, n1) == RecordId(d2, n2)
    ensures d1 == d2 && n1 == n2
  {
    var x := RecordId(d1, n1);
    var s1, s2 := IntText(n1), IntText(n2);
    assert Underscore !in s1 && Underscore !in s2;
    LastUnderscore(d1, s1);
    LastUnderscore(d2, s2);
    assert d1 == x[..|d1|] == d2;
    assert s1 == x[|x| - |s1|..] == s2;
    IntTextInjective(n1, n2);
  }

  lemma LastUnderscore(d: Text, s: Text)
    requires Underscore !in s
    ensures LastIndexOf(d + [Underscore] + s, Underscore) == |d|
  {
    var x := d + [Underscore] + s;
    assert x[|d|] == Underscore;
  }

  /** A metadata value as the index stores it. */
  datatype MetaValue = MText(text: Text) | MInt(number: int)

  type Metadata = map<Text, MetaValue>

  const DocumentIdKey: Text := Str("document_id")
  const ChunkIdKey: Text := Str("chunk_id")
  const StartKey: Text := Str("start")
  const EndKey: Text := Str("end")
  const TextKey: Text := Str("text")

  /** One vector of an upsert call; its embedding values are not modelled. */
  datatype UpsertRecord = UpsertRecord(id: Text, metadata: Metadata)

  /** The id and metadata store_embeddings writes for a chunk. */
  function RecordOf(c: Chunk): UpsertRecord {
    UpsertRecord(RecordId(c.documentId, c.chunkId), MetadataOf(c))
  }

  /** The metadata dictionary stored with a chunk's vector: all five fields of the chunk. */
  function MetadataOf(c: Chunk): Metadata {
    map[DocumentIdKey := MText(c.documentId), ChunkIdKey := MInt(c.chunkId),
        StartKey := MInt(c.start), EndKey := MInt(c.end), TextKey := MText(c.text)]
  }

  function Records(cs: seq<Chunk>): seq<UpsertRecord> {
    seq(|cs|, k requires 0 <= k < |cs| => RecordOf(cs[k]))
  }

  function Texts(cs: seq<Chunk>): seq<Text> {
    seq(|cs|, k requires 0 <= k < |cs| => cs[k].text)
  }

  /** The chunks of one split document are written under pairwise distinct vector ids. */
  lemma SplitRecordIdsDistinct(fragments: seq<Text>, documentId: Text, chunkSize: int, chunkOverlap: int, i: int, j: int)
    requires 0 <= i < |fragments| && 0 <= j < |fragments| && i != j
    ensures var cs := ChunksOf(fragments, documentId, chunkSize, chunkOverlap);
            RecordOf(cs[i]).id != RecordOf(cs[j]).id
  {
    var cs := ChunksOf(fragments, documentId, chunkSize, chunkOverlap);
    assert RecordOf(cs[i]).id == RecordId(documentId, i);
    assert RecordOf(cs[j]).id == RecordId(documentId, j);
    if RecordId(documentId, i) == RecordId(documentId, j) {
      RecordIdInjective(documentId, i, documentId, j);
    }
  }
}
