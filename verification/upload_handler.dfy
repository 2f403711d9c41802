/** The `/upload-pdf` handler as the loops it runs (backend/main.py lines
    94-162). Each step is proved to compute what the functions of
    `Ingestion` describe, so everything proved about `Ingestion.Ingest`
    holds of `UploadPdf`. */
module UploadHandler {
  import opened Services
  import opened PyText
  import opened Batching
  import opened Ingestion
  import opened IngestionProperties

  /** The page loop: appends one marked block per page whose text is
      non-empty. */
  method ExtractText(pages: seq<string>) returns (text: string)
    ensures text == DocumentText(pages)
  {
    text := "";
    var i := 0;
    while i < |pages|
      invariant 0 <= i <= |pages|
      invariant text == DocumentText(pages[..i])
    {
      var pageText := pages[i];
      if pageText != "" {
        text := text + ("\n--- Page " + DecimalString(i + 1) + " ---\n" + pageText + "\n");
      }
      assert pages[..i + 1][..i] == pages[..i];
      i := i + 1;
    }
    assert pages[..|pages|] == pages;
  }

  /** The embedding loop: for `i` in `range(0, len(chunks), 50)` it embeds
      `chunks[i : i + 50]` and extends the vectors; a call that raises ends
      it with that error. */
  method EmbedChunks<V>(embed: seq<string> -> Result<seq<V>>, chunks: seq<string>)
    returns (result: Result<seq<V>>, calls: seq<Call<V>>)
    ensures (result, calls) == EmbedPhase(embed, Batches(chunks, EmbedBatchSize))
  {
    var vectors: seq<V> := [];
    calls := [];
    var i := 0;
    ghost var done: seq<seq<string>> := [];
    while i < |chunks|
      invariant done + Batches(From(chunks, i), EmbedBatchSize) == Batches(chunks, EmbedBatchSize)
      invariant EmbedPhase(embed, done) == (Ok(vectors), calls)
      decreases |chunks| - i
    {
      var end := if i + EmbedBatchSize < |chunks| then i + EmbedBatchSize else |chunks|;
      var batch := chunks[i..end];
      BatchesNext(chunks, EmbedBatchSize, i, done);
      EmbedPhaseNext(embed, done, batch);
      ghost var rest := Batches(From(chunks, i + EmbedBatchSize), EmbedBatchSize);
      calls := calls + [EmbedDocuments(batch)];
      var batchVectors := embed(batch);
      done := done + [batch];
      if batchVectors.Err? {
        result := Err(batchVectors.message);
        EmbedPhaseStops(embed, done, rest);
        return;
      }
      vectors := vectors + batchVectors.value;
      i := i + EmbedBatchSize;
    }
    result := Ok(vectors);
    assert done + [] == done;
  }

  /** The point-building loop over `enumerate(zip(chunks, vectors))`. */
  method BuildPoints<V>(chunks: seq<string>, vectors: seq<V>, filename: string) returns (points: seq<Point<V>>)
    ensures points == Points(chunks, vectors, filename)
  {
    points := [];
    var idx := 0;
    while idx < |chunks| && idx < |vectors|
      invariant idx <= |chunks| && idx <= |vectors|
      invariant |points| == idx
      invariant forall k :: 0 <= k < idx ==> points[k] == Point(vectors[k], Payload(chunks[k], filename, k))
    {
      points := points + [Point(vectors[idx], Payload(chunks[idx], filename, idx))];
      idx := idx + 1;
    }
  }

  /** The upsert loop: for `i` in `range(0, len(points), 64)` it writes
      `points[i : i + 64]`; a call that raises ends it with that error. */
  method UpsertAll<V>(upsert: seq<Point<V>> -> Option<string>, points: seq<Point<V>>)
    returns (failure: Option<string>, calls: seq<Call<V>>)
    ensures (failure, calls) == UpsertPhase(upsert, Batches(points, UpsertBatchSize))
  {
    calls := [];
    var i := 0;
    ghost var done: seq<seq<Point<V>>> := [];
    while i < |points|
      invariant done + Batches(From(points, i), UpsertBatchSize) == Batches(points, UpsertBatchSize)
      invariant UpsertPhase(upsert, done) == (None, calls)
      decreases |points| - i
    {
      var end := if i + UpsertBatchSize < |points| then i + UpsertBatchSize else |points|;
      var batch := points[i..end];
      BatchesNext(points, UpsertBatchSize, i, done);
      UpsertPhaseNext(upsert, done, batch);
      ghost var rest := Batches(From(points, i + UpsertBatchSize), UpsertBatchSize);
      calls := calls + [UpsertPoints(batch)];
      var outcome := upsert(batch);
      done := done + [batch];
      if outcome.Some? {
        failure := outcome;
        UpsertPhaseStops(upsert, done, rest);
        return;
      }
      i := i + UpsertBatchSize;
    }
    failure := None;
    assert done + [] == done;
  }

  /** The handler: its response and the calls it made, in order, are those
      `Ingest` describes. */
  method UploadPdf<V>(env: Services<V>, file: UploadFile) returns (response: UploadResponse, calls: seq<Call<V>>)
    ensures (response, calls) == Ingest(env, file)
  {
    if |file.contents| > MaxFileSize {
      return UploadError(TooLargeMessage), [];
    }
    calls := [ReadPdf(file.contents)];
    var read := env.readPdf(file.contents);
    if read.Err? {
      return UploadError(ProcessingError(read.message)), calls;
    }
    var pages := read.value;
    var text := ExtractText(pages);
    if Strip(text) == "" {
      return UploadError(NoTextMessage), calls;
    }
    var chunks := env.split(text);
    calls := [ReadPdf(file.contents), SplitText(text)];
    if chunks == [] {
      return UploadError(NoChunksMessage), calls;
    }
    IngestStages(env, file, pages);
    var embedded, embedCalls := EmbedChunks(env.embedDocuments, chunks);
    if embedded.Err? {
      return UploadError(ProcessingError(embedded.message)), calls + embedCalls;
    }
    var points := BuildPoints(chunks, embedded.value, file.filename);
    var failure, upsertCalls := UpsertAll(env.upsert, points);
    assert embedCalls + upsertCalls == Store(env, file.filename, chunks).2;
    calls := calls + (embedCalls + upsertCalls);
    if failure.Some? {
      return UploadError(ProcessingError(failure.value)), calls;
    }
    response := UploadSuccess(|points|, file.filename, |text|, |pages|);
  }
}
