/**
 * retieve_and_reconstruct and reconstruct_document: each match the vector
 * index returns is turned back into a chunk from its metadata, and the
 * chunks are stably sorted by start offset and their texts concatenated.
 * The matches themselves (what the similarity search finds) are an input.
 */
module Retrieval {
  import opened Wrappers
  import opened Unicode
  import opened Chunking
  import opened Services

  /** The default number of matches retieve_and_reconstruct asks for. */
  const DefaultTopK: int := 8

  /** Chunks in non-decreasing order of start offset. */
  predicate SortedByStart(s: seq<Chunk>) {
    forall i, j :: 0 <= i < j < |s| ==> s[i].start <= s[j].start
  }

  /** No two chunks share a start offset. */
  predicate DistinctStarts(s: seq<Chunk>) {
    forall i, j :: 0 <= i < j < |s| ==> s[i].start != s[j].start
  }

  /** The chunks of `s` whose start is `key`, in their order in `s`. */
  function KeyFilter(s: seq<Chunk>, key: int): seq<Chunk> {
    if s == [] then [] else Keep(s[0], key) + KeyFilter(s[1..], key)
  }

  function Keep(c: Chunk, key: int): seq<Chunk> {
    if c.start == key then [c] else []
  }

  /**
   * `sorted(chunks, key=lambda x: x.start)` as an insertion sort: `x` goes
   * before the first chunk whose start is not smaller than its own, so it
   * stays ahead of every later chunk with the same start.
   */
  function Insert(x: Chunk, t: seq<Chunk>): seq<Chunk> {
    if t == [] || x.start <= t[0].start then [x] + t else [t[0]] + Insert(x, t[1..])
  }

  function SortByStart(s: seq<Chunk>): seq<Chunk> {
    if s == [] then [] else Insert(s[0], SortByStart(s[1..]))
  }

  /** `"".join(texts)`. */
  function Concat(texts: seq<Text>): Text {
    if texts == [] then [] else texts[0] + Concat(texts[1..])
  }

  /** The total length of the chunks' texts. */
  function TextLength(s: seq<Chunk>): nat {
    if s == [] then 0 else |s[0].text| + TextLength(s[1..])
  }

  /** reconstruct_document. */
  function ReconstructDocument(chunks: seq<Chunk>): Text {
    Concat(Texts(SortByStart(chunks)))
  }

  lemma KeyFilterCons(x: Chunk, t: seq<Chunk>, key: int)
    ensures KeyFilter([x] + t, key) == Keep(x, key) + KeyFilter(t, key)
  {
    assert ([x] + t)[0] == x && ([x] + t)[1..] == t;
  }

  /** A chunk is in the filter for `key` exactly when it is in the sequence and starts at `key`. */
  lemma {:induction false} KeyFilterMembers(s: seq<Chunk>, key: int)
    ensures forall x :: x in KeyFilter(s, key) <==> x in s && x.start == key
  {
    if s != [] {
      KeyFilterMembers(s[1..], key);
      assert s == [s[0]] + s[1..];
    }
  }

  /** The filter for `key` holds every chunk starting at `key`, as often as the sequence does, and nothing else. */
  lemma {:induction false} KeyFilterMultiset(s: seq<Chunk>, key: int)
    ensures forall x :: multiset(KeyFilter(s, key))[x] == if x.start == key then multiset(s)[x] else 0
  {
    if s != [] {
      KeyFilterMultiset(s[1..], key);
      assert s == [s[0]] + s[1..];
    }
  }

  lemma {:induction false} InsertPermutes(x: Chunk, t: seq<Chunk>)
    ensures multiset(Insert(x, t)) == multiset(t) + multiset{x}
  {
    if t != [] && x.start > t[0].start {
      InsertPermutes(x, t[1..]);
      assert t == [t[0]] + t[1..];
    }
  }

  lemma {:induction false} InsertSorted(x: Chunk, t: seq<Chunk>)
    requires SortedByStart(t)
    ensures SortedByStart(Insert(x, t))
  {
    if t == [] || x.start <= t[0].start {
      ConsSorted(x, t);
    } else {
      var t1 := t[1..];
      InsertSorted(x, t1);
      InsertKeepsBound(x, t1, t[0].start);
      ConsSorted(t[0], Insert(x, t1));
    }
  }

  /** Every chunk of `s` starts at `bound` or later. */
  predicate StartsFrom(s: seq<Chunk>, bound: int) {
    forall i :: 0 <= i < |s| ==> bound <= s[i].start
  }

  lemma ConsSorted(h: Chunk, r: seq<Chunk>)
    requires SortedByStart(r) && StartsFrom(r, h.start)
    ensures SortedByStart([h] + r)
  {
    var s := [h] + r;
    forall i, j | 0 <= i < j < |s|
      ensures s[i].start <= s[j].start
    {
      assert s[j] == r[j - 1];
      if i > 0 {
        assert s[i] == r[i - 1];
      }
    }
  }

  lemma {:induction false} InsertKeepsBound(x: Chunk, t: seq<Chunk>, bound: int)
    requires StartsFrom(t, bound) && bound <= x.start
    ensures StartsFrom(Insert(x, t), bound)
  {
    if t != [] && x.start > t[0].start {
      InsertKeepsBound(x, t[1..], bound);
    }
  }

  /** Insertion keeps the relative order of equal starts: `x` comes before the chunks of `t` with its start. */
  lemma {:induction false} InsertKeyFilter(x: Chunk, t: seq<Chunk>, key: int)
    ensures KeyFilter(Insert(x, t), key) == KeyFilter([x] + t, key)
  {
    if t != [] && x.start > t[0].start {
      var t0, t1 := t[0], t[1..];
      var before, mine, after := Keep(t0, key), Keep(x, key), KeyFilter(t1, key);
      calc {
        KeyFilter(Insert(x, t), key);
        { assert Insert(x, t) == [t0] + Insert(x, t1); KeyFilterCons(t0, Insert(x, t1), key); }
        before + KeyFilter(Insert(x, t1), key);
        { InsertKeyFilter(x, t1, key); KeyFilterCons(x, t1, key); }
        before + (mine + after);
        { assert before == [] || mine == []; }
        mine + (before + after);
        { assert t == [t0] + t1; KeyFilterCons(t0, t1, key); KeyFilterCons(x, t, key); }
        KeyFilter([x] + t, key);
      }
    }
  }

  lemma {:induction false} InsertTextLength(x: Chunk, t: seq<Chunk>)
    ensures TextLength(Insert(x, t)) == |x.text| + TextLength(t)
  {
    if t != [] && x.start > t[0].start {
      InsertTextLength(x, t[1..]);
      assert ([t[0]] + Insert(x, t[1..]))[1..] == Insert(x, t[1..]);
    } else {
      assert ([x] + t)[1..] == t;
    }
  }

  /**
   * SortByStart is a stable sort: its result is ordered by start, is a
   * permutation of the input, and lists the chunks of each start in their
   * input order.
   */
  lemma {:induction false} SortByStartIsStableSort(s: seq<Chunk>)
    ensures SortedByStart(SortByStart(s))
    ensures multiset(SortByStart(s)) == multiset(s)
    ensures forall key :: KeyFilter(SortByStart(s), key) == KeyFilter(s, key)
  {
    if s != [] {
      var rest := SortByStart(s[1..]);
      SortByStartIsStableSort(s[1..]);
      InsertSorted(s[0], rest);
      InsertPermutes(s[0], rest);
      assert s == [s[0]] + s[1..];
      forall key
        ensures KeyFilter(SortByStart(s), key) == KeyFilter(s, key)
      {
        InsertKeyFilter(s[0], rest, key);
        KeyFilterCons(s[0], rest, key);
        KeyFilterCons(s[0], s[1..], key);
      }
    }
  }

  lemma NonEmptyFilter(s: seq<Chunk>)
    requires s != []
    ensures KeyFilter(s, s[0].start) == [s[0]] + KeyFilter(s[1..], s[0].start)
  {
  }

  /** The first chunk of an ordered list has the least start, so it heads the filter of that start. */
  lemma HeadLeads(a: seq<Chunk>, b: seq<Chunk>)
    requires SortedByStart(b) && a != []
    requires KeyFilter(a, a[0].start) == KeyFilter(b, a[0].start)
    ensures b != [] && b[0].start <= a[0].start
  {
    NonEmptyFilter(a);
    KeyFilterMembers(b, a[0].start);
    assert a[0] in KeyFilter(b, a[0].start);
  }

  lemma TailFilter(a: seq<Chunk>, b: seq<Chunk>, key: int)
    requires a != [] && b != [] && a[0] == b[0]
    requires KeyFilter(a, key) == KeyFilter(b, key)
    ensures KeyFilter(a[1..], key) == KeyFilter(b[1..], key)
  {
    var fa, fb := KeyFilter(a, key), KeyFilter(b, key);
    assert fa == Keep(a[0], key) + KeyFilter(a[1..], key);
    assert fb == Keep(b[0], key) + KeyFilter(b[1..], key);
    assert KeyFilter(a[1..], key) == fa[|Keep(a[0], key)|..];
    assert KeyFilter(b[1..], key) == fb[|Keep(b[0], key)|..];
  }

  /**
   * A stable sort by start has only one possible result: two ordered
   * sequences that list the chunks of every start in the same order are
   * equal.
   */
  lemma {:induction false} SortedUnique(a: seq<Chunk>, b: seq<Chunk>)
    requires SortedByStart(a) && SortedByStart(b)
    requires forall key :: KeyFilter(a, key) == KeyFilter(b, key)
    ensures a == b
  {
    if a != [] {
      HeadLeads(a, b);
    }
    if b != [] {
      HeadLeads(b, a);
    }
    if a != [] && b != [] {
      var m := a[0].start;
      NonEmptyFilter(a);
      NonEmptyFilter(b);
      assert a[0] == KeyFilter(a, m)[0] == KeyFilter(b, m)[0] == b[0];
      forall key
        ensures KeyFilter(a[1..], key) == KeyFilter(b[1..], key)
      {
        TailFilter(a, b, key);
      }
      SortedUnique(a[1..], b[1..]);
      assert a == [a[0]] + a[1..] && b == [b[0]] + b[1..];
    }
  }

  /** Sorting chunks that are already in start order leaves them as they are. */
  lemma SortSortedIsIdentity(s: seq<Chunk>)
    requires SortedByStart(s)
    ensures SortByStart(s) == s
  {
    SortByStartIsStableSort(s);
    SortedUnique(SortByStart(s), s);
  }

  lemma {:induction false} KeyFilterEmpty(s: seq<Chunk>, key: int)
    requires forall i :: 0 <= i < |s| ==> s[i].start != key
    ensures KeyFilter(s, key) == []
  {
    if s != [] {
      KeyFilterEmpty(s[1..], key);
    }
  }

  /** With distinct starts each filter holds at most one chunk. */
  lemma {:induction false} DistinctFilterAtMostOne(s: seq<Chunk>, key: int)
    requires DistinctStarts(s)
    ensures |KeyFilter(s, key)| <= 1
  {
    if s != [] {
      assert DistinctStarts(s[1..]);
      DistinctFilterAtMostOne(s[1..], key);
      if s[0].start == key {
        forall i | 0 <= i < |s[1..]|
          ensures s[1..][i].start != key
        {
          assert s[1..][i] == s[i + 1];
        }
        KeyFilterEmpty(s[1..], key);
      }
    }
  }

  lemma FilterPermutes(a: seq<Chunk>, b: seq<Chunk>, key: int)
    requires multiset(a) == multiset(b)
    ensures multiset(KeyFilter(a, key)) == multiset(KeyFilter(b, key))
  {
    KeyFilterMultiset(a, key);
    KeyFilterMultiset(b, key);
    assert forall x :: multiset(KeyFilter(a, key))[x] == multiset(KeyFilter(b, key))[x];
  }

  lemma ShortPermutationEqual(s: seq<Chunk>, t: seq<Chunk>)
    requires |s| <= 1
    requires multiset(s) == multiset(t)
    ensures s == t
  {
    assert |s| == |multiset(s)| == |multiset(t)| == |t|;
    if |s| == 1 {
      assert s[0] in multiset(t);
    }
  }

  lemma PermutedFiltersEqual(a: seq<Chunk>, b: seq<Chunk>, key: int)
    requires DistinctStarts(a)
    requires multiset(a) == multiset(b)
    ensures KeyFilter(a, key) == KeyFilter(b, key)
  {
    FilterPermutes(a, b, key);
    DistinctFilterAtMostOne(a, key);
    ShortPermutationEqual(KeyFilter(a, key), KeyFilter(b, key));
  }

  /**
   * When all starts are distinct, the order in which the chunks arrive does
   * not matter: any rearrangement of them sorts to the same sequence.
   */
  lemma SortOrderIndependent(a: seq<Chunk>, b: seq<Chunk>)
    requires DistinctStarts(a)
    requires multiset(a) == multiset(b)
    ensures SortByStart(a) == SortByStart(b)
  {
    SortByStartIsStableSort(a);
    SortByStartIsStableSort(b);
    forall key
      ensures KeyFilter(a, key) == KeyFilter(b, key)
    {
      PermutedFiltersEqual(a, b, key);
    }
    SortedUnique(SortByStart(a), SortByStart(b));
  }

  lemma {:induction false} ConcatLength(s: seq<Chunk>)
    ensures |Concat(Texts(s))| == TextLength(s)
  {
    if s != [] {
      ConcatLength(s[1..]);
      assert Texts(s)[1..] == Texts(s[1..]);
    }
  }

  lemma {:induction false} SortTextLength(s: seq<Chunk>)
    ensures TextLength(SortByStart(s)) == TextLength(s)
  {
    if s != [] {
      SortTextLength(s[1..]);
      InsertTextLength(s[0], SortByStart(s[1..]));
    }
  }

  /**
   * The reconstructed document is exactly as long as all chunk texts
   * together: overlapping text is neither removed nor merged, and no chunks
   * give the empty document.
   */
  lemma ReconstructLength(chunks: seq<Chunk>)
    ensures |ReconstructDocument(chunks)| == TextLength(chunks)
    ensures chunks == [] ==> ReconstructDocument(chunks) == []
  {
    ConcatLength(SortByStart(chunks));
    SortTextLength(chunks);
  }

  /**
   * reconstruct_document is the concatenation of the texts of the input
   * stably sorted by start: of any ordering `s` of the input by start that
   * keeps equal starts in input order.
   */
  lemma ReconstructIsSortedConcatenation(chunks: seq<Chunk>, s: seq<Chunk>)
    requires SortedByStart(s)
    requires forall key :: KeyFilter(s, key) == KeyFilter(chunks, key)
    ensures ReconstructDocument(chunks) == Concat(Texts(s))
  {
    SortByStartIsStableSort(chunks);
    SortedUnique(SortByStart(chunks), s);
  }

  /**
   * The chunks of one ingested document (overlap below the chunk size),
   * retrieved in any order, reconstruct to its sanitised fragments in
   * splitter order, overlaps included.
   */
  lemma IngestedDocumentReconstructs(fragments: seq<Text>, documentId: Text, chunkSize: int, chunkOverlap: int,
                                     retrieved: seq<Chunk>)
    requires chunkOverlap < chunkSize
    requires multiset(retrieved) == multiset(ChunksOf(fragments, documentId, chunkSize, chunkOverlap))
    ensures ReconstructDocument(retrieved)
         == Concat(seq(|fragments|, k requires 0 <= k < |fragments| => Sanitize(fragments[k])))
  {
    var cs := ChunksOf(fragments, documentId, chunkSize, chunkOverlap);
    ChunksOfInStartOrder(fragments, documentId, chunkSize, chunkOverlap);
    SortOrderIndependent(cs, retrieved);
    SortSortedIsIdentity(cs);
    TextsOfChunksOf(fragments, documentId, chunkSize, chunkOverlap);
  }

  lemma ChunksOfInStartOrder(fragments: seq<Text>, documentId: Text, chunkSize: int, chunkOverlap: int)
    requires chunkOverlap < chunkSize
    ensures SortedByStart(ChunksOf(fragments, documentId, chunkSize, chunkOverlap))
    ensures DistinctStarts(ChunksOf(fragments, documentId, chunkSize, chunkOverlap))
  {
    var cs := ChunksOf(fragments, documentId, chunkSize, chunkOverlap);
    forall i, j | 0 <= i < j < |cs|
      ensures cs[i].start < cs[j].start
    {
      StartsOrdered(fragments, documentId, chunkSize, chunkOverlap, i, j);
    }
  }

  lemma TextsOfChunksOf(fragments: seq<Text>, documentId: Text, chunkSize: int, chunkOverlap: int)
    ensures Texts(ChunksOf(fragments, documentId, chunkSize, chunkOverlap))
         == seq(|fragments|, k requires 0 <= k < |fragments| => Sanitize(fragments[k]))
  {
  }

  /** A match as the index returns it; only its metadata is used (None: stored without metadata). */
  datatype Match = Match(metadata: Option<Metadata>)

  /** Why a match cannot be turned into a chunk. */
  datatype MatchError =
    | NoMetadata           // `None[...]`: the match carries no metadata
    | MissingKey(key: Text) // `metadata[key]` raises KeyError
    | TextNotString         // `text.encode(...)` on a non-string
    | WrongType(key: Text)  // a number where text is expected, or the reverse

  /** The keys retieve_and_reconstruct looks up, in lookup order. */
  const FieldKeys: seq<Text> := [TextKey, DocumentIdKey, ChunkIdKey, StartKey, EndKey]

  predicate HasFields(md: Metadata) {
    TextKey in md && DocumentIdKey in md && ChunkIdKey in md && StartKey in md && EndKey in md
  }

  /** The first key of `keys` that `md` lacks. */
  function FirstMissing(md: Metadata, keys: seq<Text>): (r: Option<Text>)
    ensures r.None? <==> forall i :: 0 <= i < |keys| ==> keys[i] in md
    ensures r.Some? ==> exists i :: 0 <= i < |keys| && keys[i] == r.value && r.value !in md
                                    && forall j :: 0 <= j < i ==> keys[j] in md
  {
    if keys == [] then None
    else if keys[0] !in md then Some(keys[0])
    else
      var r := FirstMissing(md, keys[1..]);
      if r.Some? then
        assert exists i :: 1 <= i < |keys| && keys[i] == r.value && r.value !in md
                           && forall j :: 1 <= j < i ==> keys[j] in md;
        r
      else r
  }

  /**
   * The chunk a match's metadata describes, built as
   * `DocumentChunkWithMetadata(text=..., document_id=..., chunk_id=...,
   * start=..., end=...)`: the five lookups in that order, the first missing
   * key failing; then the text is sanitised.
   */
  function ChunkFromMatch(m: Match): (r: Result<Chunk, MatchError>)
    ensures m.metadata.None? ==> r == Failure(NoMetadata)
    ensures m.metadata.Some? && FirstMissing(m.metadata.value, FieldKeys).Some? ==>
              r == Failure(MissingKey(FirstMissing(m.metadata.value, FieldKeys).value))
    ensures r.Success? ==>
              var md := m.metadata.value;
              && HasFields(md)
              && Clean(r.value.text)
              && md[TextKey].MText? && r.value.text == Sanitize(md[TextKey].text)
              && md[DocumentIdKey] == MText(r.value.documentId)
              && md[ChunkIdKey] == MInt(r.value.chunkId)
              && md[StartKey] == MInt(r.value.start)
              && md[EndKey] == MInt(r.value.end)
  {
    if m.metadata.None? then Failure(NoMetadata)
    else
      var md := m.metadata.value;
      var missing := FirstMissing(md, FieldKeys);
      if missing.Some? then Failure(MissingKey(missing.value))
      else
      assert FieldKeys[0] in md && FieldKeys[1] in md && FieldKeys[2] in md && FieldKeys[3] in md && FieldKeys[4] in md;
      if !md[TextKey].MText? then Failure(TextNotString)
      else if !md[DocumentIdKey].MText? then Failure(WrongType(DocumentIdKey))
      else if !md[ChunkIdKey].MInt? then Failure(WrongType(ChunkIdKey))
      else if !md[StartKey].MInt? then Failure(WrongType(StartKey))
      else if !md[EndKey].MInt? then Failure(WrongType(EndKey))
      else
        Success(MakeChunk(md[TextKey].text, md[DocumentIdKey].text, md[ChunkIdKey].number,
                          md[StartKey].number, md[EndKey].number))
  }

  /**
   * A match carrying the metadata store_embeddings wrote for a chunk gives
   * that chunk back.
   */
  lemma MetadataRoundTrip(c: Chunk)
    requires Clean(c.text)
    ensures ChunkFromMatch(Match(Some(MetadataOf(c)))) == Success(c)
  {
    var md := MetadataOf(c);
    assert |TextKey| == 4 && |DocumentIdKey| == 11 && |ChunkIdKey| == 8 && |StartKey| == 5 && |EndKey| == 3;
    assert forall i :: 0 <= i < |FieldKeys| ==> FieldKeys[i] in md;
  }

  /** The metadata-to-chunk loop of retieve_and_reconstruct: the first failing match aborts it. */
  method ChunksFromMatches(matches: seq<Match>) returns (r: Result<seq<Chunk>, MatchError>)
    ensures r.Success? <==> forall i :: 0 <= i < |matches| ==> ChunkFromMatch(matches[i]).Success?
    ensures r.Success? ==> |r.value| == |matches|
                           && forall i :: 0 <= i < |matches| ==> r.value[i] == ChunkFromMatch(matches[i]).value
    ensures r.Failure? ==> exists i :: 0 <= i < |matches| && ChunkFromMatch(matches[i]) == Failure(r.error)
                                       && forall j :: 0 <= j < i ==> ChunkFromMatch(matches[j]).Success?
  {
    var chunksWithMetadata: seq<Chunk> := [];
    for i := 0 to |matches|
      invariant |chunksWithMetadata| == i
      invariant forall j :: 0 <= j < i ==> ChunkFromMatch(matches[j]).Success?
      invariant forall j :: 0 <= j < i ==> chunksWithMetadata[j] == ChunkFromMatch(matches[j]).value
    {
      var chunk := ChunkFromMatch(matches[i]);
      if chunk.Failure? {
        return Failure(chunk.error);
      }
      chunksWithMetadata := chunksWithMetadata + [chunk.value];
    }
    return Success(chunksWithMetadata);
  }

  /**
   * retieve_and_reconstruct(query, k): embed the query, ask the index for
   * the top k matches (here `matches`), map them to chunks and reconstruct.
   */
  method RetrieveAndReconstruct(env: Environment, query: Text, k: int, matches: seq<Match>)
    returns (r: Result<Text, MatchError>)
    modifies env
    ensures env.ledgerFile == old(env.ledgerFile)
    ensures env.log == old(env.log) + [EmbedCall([query], QueryType), QueryCall(k)]
    ensures r.Success? <==> forall i :: 0 <= i < |matches| ==> ChunkFromMatch(matches[i]).Success?
    ensures r.Success? ==>
              r.value == ReconstructDocument(seq(|matches|, i requires 0 <= i < |matches| => ChunkFromMatch(matches[i]).value))
    ensures r.Failure? ==>
              exists i :: 0 <= i < |matches| && ChunkFromMatch(matches[i]) == Failure(r.error)
                          && forall j :: 0 <= j < i ==> ChunkFromMatch(matches[j]).Success?
  {
    env.Embed([query], QueryType);
    env.Query(k);
    var chunksWithMetadata := ChunksFromMatches(matches);
    if chunksWithMetadata.Failure? {
      return Failure(chunksWithMetadata.error);
    }
    assert chunksWithMetadata.value
        == seq(|matches|, i requires 0 <= i < |matches| => ChunkFromMatch(matches[i]).value);
    var reconstructedDocument := ReconstructDocument(chunksWithMetadata.value);
    return Success(reconstructedDocument);
  }

  /** retieve_and_reconstruct(query) with its default k: the index is asked for DefaultTopK matches. */
  method RetrieveAndReconstructDefault(env: Environment, query: Text, matches: seq<Match>)
    returns (r: Result<Text, MatchError>)
    modifies env
    ensures env.ledgerFile == old(env.ledgerFile)
    ensures env.log == old(env.log) + [EmbedCall([query], QueryType), QueryCall(8)]
    ensures r.Success? <==> forall i :: 0 <= i < |matches| ==> ChunkFromMatch(matches[i]).Success?
    ensures r.Success? ==>
              r.value == ReconstructDocument(seq(|matches|, i requires 0 <= i < |matches| => ChunkFromMatch(matches[i]).value))
    ensures r.Failure? ==>
              exists i :: 0 <= i < |matches| && ChunkFromMatch(matches[i]) == Failure(r.error)
                          && forall j :: 0 <= j < i ==> ChunkFromMatch(matches[j]).Success?
  {
    r := RetrieveAndReconstruct(env, query, DefaultTopK, matches);
  }
}
