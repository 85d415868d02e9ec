/**
 * store_embeddings: the chunk list is walked in consecutive windows of 96;
 * each window is embedded with one call and written with one upsert call.
 */
module Batching {
  import opened Unicode
  import opened Chunking
  import opened Services

  const BatchSize: nat := 96

  function Min(a: int, b: int): int {
    if a <= b then a else b
  }

  /** The windows `s[i:i+96]` for i = 0, 96, 192, ... while i < len(s). */
  function Batches<T>(s: seq<T>): seq<seq<T>>
    decreases |s|
  {
    if s == [] then [] else [s[..Min(BatchSize, |s|)]] + Batches(s[Min(BatchSize, |s|)..])
  }

  function Flatten<T>(ss: seq<seq<T>>): seq<T> {
    if ss == [] then [] else ss[0] + Flatten(ss[1..])
  }

  /**
   * There are ceil(n / 96) windows, none for an empty list, and window k is
   * exactly the slice from 96 * k to 96 * k + 96, cut at the end of the list.
   */
  lemma {:induction false} BatchesAreSlices<T>(s: seq<T>)
    ensures |Batches(s)| == (|s| + BatchSize - 1) / BatchSize
    ensures forall k :: 0 <= k < |Batches(s)| ==>
              Batches(s)[k] == s[BatchSize * k..Min(BatchSize * k + BatchSize, |s|)]
  {
    if s != [] {
      var n := Min(BatchSize, |s|);
      var rest := s[n..];
      BatchesAreSlices(rest);
      forall k | 0 <= k < |Batches(s)|
        ensures Batches(s)[k] == s[BatchSize * k..Min(BatchSize * k + BatchSize, |s|)]
      {
        if k > 0 {
          assert Batches(s)[k] == Batches(rest)[k - 1];
          SliceOfRest(s, k);
        }
      }
    }
  }

  /** Window k - 1 of what follows the first window is window k of the whole list. */
  lemma SliceOfRest<T>(s: seq<T>, k: int)
    requires |s| > BatchSize && 1 <= k && BatchSize * (k - 1) < |s| - BatchSize
    ensures s[BatchSize..][BatchSize * (k - 1)..Min(BatchSize * (k - 1) + BatchSize, |s| - BatchSize)]
         == s[BatchSize * k..Min(BatchSize * k + BatchSize, |s|)]
  {
    var lo, hi := BatchSize * k, Min(BatchSize * k + BatchSize, |s|);
    assert BatchSize * (k - 1) == lo - BatchSize;
    assert Min(BatchSize * (k - 1) + BatchSize, |s| - BatchSize) == hi - BatchSize;
  }

  /** The windows are non-empty, hold at most 96 elements, and concatenate back to the list. */
  lemma {:induction false} BatchesCover<T>(s: seq<T>)
    ensures Flatten(Batches(s)) == s
    ensures forall k :: 0 <= k < |Batches(s)| ==> 0 < |Batches(s)[k]| <= BatchSize
  {
    if s != [] {
      var n := Min(BatchSize, |s|);
      BatchesCover(s[n..]);
      assert Batches(s)[1..] == Batches(s[n..]);
      assert s[..n] + s[n..] == s;
    }
  }

  /** The two calls made for one window: embed its texts as passages, then upsert its records. */
  function BatchCalls(batch: seq<Chunk>): seq<Call> {
    [EmbedCall(Texts(batch), PassageType), UpsertCall(Records(batch))]
  }

  function CallsFor(batches: seq<seq<Chunk>>): seq<Call> {
    if batches == [] then [] else BatchCalls(batches[0]) + CallsFor(batches[1..])
  }

  /** The calls store_embeddings makes for a chunk list. */
  function StoreCalls(chunks: seq<Chunk>): seq<Call> {
    CallsFor(Batches(chunks))
  }

  /** The vector lists of the upsert calls in a call sequence, in order. */
  function Upserts(calls: seq<Call>): seq<seq<UpsertRecord>> {
    if calls == [] then []
    else (if calls[0].UpsertCall? then [calls[0].vectors] else []) + Upserts(calls[1..])
  }

  /** The inputs of the embedding calls in a call sequence, in order. */
  function Embeds(calls: seq<Call>): seq<seq<Text>> {
    if calls == [] then []
    else (if calls[0].EmbedCall? then [calls[0].inputs] else []) + Embeds(calls[1..])
  }

  lemma {:induction false} UpsertsAppend(a: seq<Call>, b: seq<Call>)
    ensures Upserts(a + b) == Upserts(a) + Upserts(b)
    ensures Embeds(a + b) == Embeds(a) + Embeds(b)
  {
    if a != [] {
      assert (a + b)[0] == a[0] && (a + b)[1..] == a[1..] + b;
      UpsertsAppend(a[1..], b);
    } else {
      assert a + b == b;
    }
  }

  /** Window by window, the calls are one embedding of the window's texts and one upsert of its records. */
  lemma {:induction false} CallsForShape(batches: seq<seq<Chunk>>)
    ensures |CallsFor(batches)| == 2 * |batches|
    ensures forall k :: 0 <= k < |batches| ==>
              && CallsFor(batches)[2 * k] == EmbedCall(Texts(batches[k]), PassageType)
              && CallsFor(batches)[2 * k + 1] == UpsertCall(Records(batches[k]))
  {
    if batches != [] {
      var rest := CallsFor(batches[1..]);
      CallsForShape(batches[1..]);
      forall k | 1 <= k < |batches|
        ensures CallsFor(batches)[2 * k] == EmbedCall(Texts(batches[k]), PassageType)
        ensures CallsFor(batches)[2 * k + 1] == UpsertCall(Records(batches[k]))
      {
        assert CallsFor(batches)[2 * k] == rest[2 * (k - 1)];
        assert CallsFor(batches)[2 * k + 1] == rest[2 * (k - 1) + 1];
      }
    }
  }

  /** In order, the upserts write the windows' records and the embedding calls embed the windows' texts. */
  lemma CallsForPayloads(batches: seq<seq<Chunk>>)
    ensures Upserts(CallsFor(batches)) == seq(|batches|, k requires 0 <= k < |batches| => Records(batches[k]))
    ensures Embeds(CallsFor(batches)) == seq(|batches|, k requires 0 <= k < |batches| => Texts(batches[k]))
  {
    CallsForUpserts(batches);
    CallsForEmbeds(batches);
  }

  lemma {:induction false} CallsForUpserts(batches: seq<seq<Chunk>>)
    ensures Upserts(CallsFor(batches)) == seq(|batches|, k requires 0 <= k < |batches| => Records(batches[k]))
  {
    if batches != [] {
      var first := BatchCalls(batches[0]);
      CallsForUpserts(batches[1..]);
      UpsertsAppend(first, CallsFor(batches[1..]));
      assert first[1..][1..] == [];
      assert Upserts(first) == [Records(batches[0])];
    }
  }

  lemma {:induction false} CallsForEmbeds(batches: seq<seq<Chunk>>)
    ensures Embeds(CallsFor(batches)) == seq(|batches|, k requires 0 <= k < |batches| => Texts(batches[k]))
  {
    if batches != [] {
      var first := BatchCalls(batches[0]);
      CallsForEmbeds(batches[1..]);
      UpsertsAppend(first, CallsFor(batches[1..]));
      assert first[1..][1..] == [];
      assert Embeds(first) == [Texts(batches[0])];
    }
  }

  lemma {:induction false} RecordsAppend(a: seq<Chunk>, b: seq<Chunk>)
    ensures Records(a + b) == Records(a) + Records(b)
  {
  }

  lemma {:induction false} FlattenRecords(batches: seq<seq<Chunk>>)
    ensures Flatten(seq(|batches|, k requires 0 <= k < |batches| => Records(batches[k]))) == Records(Flatten(batches))
  {
    if batches != [] {
      var mapped := seq(|batches|, k requires 0 <= k < |batches| => Records(batches[k]));
      FlattenRecords(batches[1..]);
      assert mapped[1..] == seq(|batches[1..]|, k requires 0 <= k < |batches[1..]| => Records(batches[1..][k]));
      RecordsAppend(batches[0], Flatten(batches[1..]));
    }
  }

  /**
   * store_embeddings makes exactly ceil(n / 96) upsert calls (none for an
   * empty list); their vectors, in order, are the records of all chunks,
   * each written exactly once; the k-th upsert writes window k and the k-th
   * embedding call embeds exactly that window's texts.
   */
  lemma StoreUpserts(chunks: seq<Chunk>)
    ensures |Upserts(StoreCalls(chunks))| == |Embeds(StoreCalls(chunks))| == |Batches(chunks)|
    ensures |Upserts(StoreCalls(chunks))| == (|chunks| + BatchSize - 1) / BatchSize
    ensures chunks == [] ==> StoreCalls(chunks) == []
    ensures Flatten(Upserts(StoreCalls(chunks))) == Records(chunks)
    ensures forall k :: 0 <= k < |Batches(chunks)| ==>
              && Upserts(StoreCalls(chunks))[k] == Records(Batches(chunks)[k])
              && Embeds(StoreCalls(chunks))[k] == Texts(Batches(chunks)[k])
  {
    BatchesAreSlices(chunks);
    BatchesCover(chunks);
    CallsForShape(Batches(chunks));
    CallsForPayloads(Batches(chunks));
    FlattenRecords(Batches(chunks));
  }

  /** The boundary case: 97 chunks are written by two upserts, of 96 and of 1. */
  lemma NinetySevenChunks(chunks: seq<Chunk>)
    requires |chunks| == 97
    ensures |Upserts(StoreCalls(chunks))| == 2
    ensures |Upserts(StoreCalls(chunks))[0]| == 96 && |Upserts(StoreCalls(chunks))[1]| == 1
  {
    StoreUpserts(chunks);
    BatchesAreSlices(chunks);
  }

  /** The id/metadata records store_embeddings builds for one window. */
  method BatchRecords(batch: seq<Chunk>) returns (data: seq<UpsertRecord>)
    ensures |data| == |batch|
    ensures forall k :: 0 <= k < |batch| ==>
              && data[k].id == RecordId(batch[k].documentId, batch[k].chunkId)
              && data[k].metadata == MetadataOf(batch[k])
    ensures data == Records(batch)
  {
    data := [];
    for k := 0 to |batch|
      invariant data == Records(batch[..k])
    {
      data := data + [RecordOf(batch[k])];
    }
    assert batch[..|batch|] == batch;
  }

  /** store_embeddings: one embedding call and one upsert call per window, in order; the ledger is untouched. */
  method StoreEmbeddings(env: Environment, chunks: seq<Chunk>)
    modifies env
    ensures env.ledgerFile == old(env.ledgerFile)
    ensures env.log == old(env.log) + StoreCalls(chunks)
  {
    var i := 0;
    while i < |chunks|
      invariant 0 <= i
      invariant env.ledgerFile == old(env.ledgerFile)
      invariant env.log + StoreCalls(chunks[Min(i, |chunks|)..]) == old(env.log) + StoreCalls(chunks)
    {
      var batch := chunks[i..Min(i + BatchSize, |chunks|)];
      var data := BatchRecords(batch);
      env.Embed(Texts(batch), PassageType);
      var toIndex := data;
      env.Upsert(toIndex);
      ghost var rest := chunks[i..];
      assert rest[..Min(BatchSize, |rest|)] == batch;
      assert rest[Min(BatchSize, |rest|)..] == chunks[Min(i + BatchSize, |chunks|)..];
      assert StoreCalls(rest) == BatchCalls(batch) + StoreCalls(chunks[Min(i + BatchSize, |chunks|)..]);
      i := i + BatchSize;
    }
  }
}
