/** Properties of the `/upload-pdf` handler, stated about `Ingestion.Ingest`:
    which guard answers which upload, which calls each path makes, and what
    reaches the vector database. */
module IngestionProperties {
  import opened Services
  import opened PyText
  import opened Batching
  import opened Ingestion

  /** A trace that reaches neither the embedding provider nor the vector
      database. */
  predicate Offline<V>(calls: seq<Call<V>>) {
    && NoUpserts(calls)
    && forall i :: 0 <= i < |calls| ==> !calls[i].EmbedDocuments?
  }

  /** The four kinds of error message the handler returns differ from one
      another, so a message says which check failed. */
  lemma MessagesDiffer(e: string)
    ensures ProcessingError(e) != TooLargeMessage
    ensures ProcessingError(e) != NoTextMessage
    ensures ProcessingError(e) != NoChunksMessage
    ensures TooLargeMessage != NoTextMessage && TooLargeMessage != NoChunksMessage
    ensures NoTextMessage != NoChunksMessage
  {
    assert ProcessingError(e)[0] == 'E';
    assert TooLargeMessage[0] == 'F';
    assert NoTextMessage[0] == 'N' && NoTextMessage[3] == 't';
    assert NoChunksMessage[0] == 'N' && NoChunksMessage[3] == 'c';
  }

  /** The upload is answered "File too large" exactly when it has more than
      10 MiB, and then the PDF is not even read. */
  lemma TooLargeExactly<V>(env: Services<V>, file: UploadFile)
    ensures Ingest(env, file).0 == UploadError(TooLargeMessage) <==> |file.contents| > MaxFileSize
    ensures |file.contents| > MaxFileSize ==> Ingest(env, file).1 == []
  {
    IngestErrorMessages(env, file);
  }

  /** The upload is answered "No text extracted" exactly when it is small
      enough, the PDF reads, and every page's text is empty; the splitter,
      the embedder and the database are then never called. */
  lemma NoTextExactly<V>(env: Services<V>, file: UploadFile)
    ensures Ingest(env, file).0 == UploadError(NoTextMessage) <==>
      && |file.contents| <= MaxFileSize
      && env.readPdf(file.contents).Ok?
      && forall i :: 0 <= i < |env.readPdf(file.contents).value| ==> env.readPdf(file.contents).value[i] == ""
    ensures Ingest(env, file).0 == UploadError(NoTextMessage) ==> Ingest(env, file).1 == [ReadPdf(file.contents)]
  {
    IngestErrorMessages(env, file);
    var read := env.readPdf(file.contents);
    if read.Ok? {
      NoTextIffAllPagesEmpty(read.value);
    }
  }

  /** The upload is answered "No chunks" exactly when the text passed the
      whitespace guard but the splitter returned nothing; only the reader
      and the splitter have been called. */
  lemma NoChunksExactly<V>(env: Services<V>, file: UploadFile)
    ensures Ingest(env, file).0 == UploadError(NoChunksMessage) <==>
      && |file.contents| <= MaxFileSize
      && env.readPdf(file.contents).Ok?
      && Strip(DocumentText(env.readPdf(file.contents).value)) != ""
      && env.split(DocumentText(env.readPdf(file.contents).value)) == []
    ensures Ingest(env, file).0 == UploadError(NoChunksMessage) ==>
      Ingest(env, file).1 == [ReadPdf(file.contents), SplitText(DocumentText(env.readPdf(file.contents).value))]
  {
    IngestErrorMessages(env, file);
  }

  /** An error answer that is not one of the guards' comes from the
      catch-all clause. */
  lemma IngestErrorMessages<V>(env: Services<V>, file: UploadFile)
    ensures Ingest(env, file).0.UploadError? ==>
      || (Ingest(env, file).0.message == TooLargeMessage && |file.contents| > MaxFileSize)
      || (Ingest(env, file).0.message == NoTextMessage && |file.contents| <= MaxFileSize
            && env.readPdf(file.contents).Ok? && Strip(DocumentText(env.readPdf(file.contents).value)) == "")
      || (Ingest(env, file).0.message == NoChunksMessage && |file.contents| <= MaxFileSize
            && env.readPdf(file.contents).Ok? && Strip(DocumentText(env.readPdf(file.contents).value)) != ""
            && env.split(DocumentText(env.readPdf(file.contents).value)) == [])
      || (exists e :: Ingest(env, file).0.message == ProcessingError(e)
            && ProcessingError(e) != TooLargeMessage && ProcessingError(e) != NoTextMessage
            && ProcessingError(e) != NoChunksMessage)
    ensures TooLargeMessage != NoTextMessage && TooLargeMessage != NoChunksMessage
    ensures NoTextMessage != NoChunksMessage
  {
    MessagesDiffer("");
    var read := env.readPdf(file.contents);
    if |file.contents| <= MaxFileSize {
      if read.Err? {
        MessagesDiffer(read.message);
      } else {
        var text := DocumentText(read.value);
        var chunks := env.split(text);
        if Strip(text) != "" && chunks != [] {
          var stored := Store(env, file.filename, chunks);
          if stored.0.Some? {
            MessagesDiffer(stored.0.value);
          }
        }
      }
    }
  }

  /** The traces of the three guard paths call neither the embedder nor the
      database, so they are trivially well batched. */
  lemma GuardTraces<V>(contents: seq<Byte>, text: string)
    ensures Offline<V>([]) && WellBatched<V>([])
    ensures Offline<V>([ReadPdf(contents)]) && WellBatched<V>([ReadPdf(contents)])
    ensures Offline<V>([ReadPdf(contents), SplitText(text)]) && WellBatched<V>([ReadPdf(contents), SplitText(text)])
  {
  }

  /** Every upload the guards reject, and every upload whose PDF cannot be
      read, is answered without a call to the embedder or the database. */
  lemma GuardsStayOffline<V>(env: Services<V>, file: UploadFile)
    requires || |file.contents| > MaxFileSize
             || env.readPdf(file.contents).Err?
             || Strip(DocumentText(env.readPdf(file.contents).value)) == ""
             || env.split(DocumentText(env.readPdf(file.contents).value)) == []
    ensures Offline(Ingest(env, file).1)
    ensures Ingest(env, file).0.UploadError?
    ensures |file.contents| <= MaxFileSize && env.readPdf(file.contents).Err? ==>
      Ingest(env, file) == (UploadError(ProcessingError(env.readPdf(file.contents).message)), [ReadPdf(file.contents)])
  {
    var read := env.readPdf(file.contents);
    GuardTraces<V>(file.contents, if read.Ok? then DocumentText(read.value) else "");
  }

  /** On an upload that passes the size guard and both empty-text guards,
      the handler reads, splits, and answers with what `Store` reports. */
  lemma IngestStages<V>(env: Services<V>, file: UploadFile, pages: seq<string>)
    requires |file.contents| <= MaxFileSize
    requires env.readPdf(file.contents) == Ok(pages)
    requires Strip(DocumentText(pages)) != ""
    requires env.split(DocumentText(pages)) != []
    ensures var text := DocumentText(pages);
      var stored := Store(env, file.filename, env.split(text));
      && Ingest(env, file).1 == [ReadPdf(file.contents), SplitText(text)] + stored.2
      && Ingest(env, file).0 == if stored.0.Some? then UploadError(ProcessingError(stored.0.value))
                                else UploadSuccess(stored.1, file.filename, |text|, |pages|)
  {
  }

  /** Every embedding call carries between 1 and 50 texts, every upsert
      between 1 and 64 points, and no embedding call follows an upsert. */
  predicate WellBatched<V>(calls: seq<Call<V>>) {
    && (forall i :: 0 <= i < |calls| && calls[i].EmbedDocuments? ==> 0 < |calls[i].texts| <= EmbedBatchSize)
    && (forall i :: 0 <= i < |calls| && calls[i].UpsertPoints? ==> 0 < |calls[i].points| <= UpsertBatchSize)
    && (forall i, j :: 0 <= i < j < |calls| && calls[i].UpsertPoints? ==> !calls[j].EmbedDocuments?)
  }

  /** Putting a well-batched trace without upserts in front of a
      well-batched trace keeps it well batched. */
  lemma AppendWellBatched<V>(a: seq<Call<V>>, b: seq<Call<V>>)
    requires WellBatched(a) && WellBatched(b) && NoUpserts(a)
    ensures WellBatched(a + b)
    ensures NoUpserts(b) ==> NoUpserts(a + b)
  {
    var c := a + b;
    forall i | 0 <= i < |c|
      ensures c[i] == if i < |a| then a[i] else b[i - |a|]
    {
    }
  }

  /** One embedding call per batch of 1 to 50 texts is well batched. */
  lemma EmbedRequestsWellBatched<V>(batches: seq<seq<string>>)
    requires forall k :: 0 <= k < |batches| ==> 0 < |batches[k]| <= EmbedBatchSize
    ensures WellBatched(EmbedRequests<V>(batches)) && NoUpserts(EmbedRequests<V>(batches))
  {
  }

  /** One upsert per batch of 1 to 64 points is well batched. */
  lemma UpsertRequestsWellBatched<V>(batches: seq<seq<Point<V>>>)
    requires forall k :: 0 <= k < |batches| ==> 0 < |batches[k]| <= UpsertBatchSize
    ensures WellBatched(UpsertRequests(batches))
  {
  }

  /** The calls `Store` makes are well batched: its embedding calls come
      first, one per batch of at most 50 chunks, then its upserts, one per
      batch of at most 64 points. */
  lemma StoreWellBatched<V>(env: Services<V>, filename: string, chunks: seq<string>)
    ensures WellBatched(Store(env, filename, chunks).2)
  {
    var embedBatches := Batches(chunks, EmbedBatchSize);
    EmbedPhaseCalls(env.embedDocuments, embedBatches);
    var embedded := EmbedPhase(env.embedDocuments, embedBatches);
    var n := |embedded.1|;
    assert forall k :: 0 <= k < n ==> embedBatches[..n][k] == embedBatches[k];
    EmbedRequestsWellBatched<V>(embedBatches[..n]);
    if embedded.0.Ok? {
      var upsertBatches := Batches(Points(chunks, embedded.0.value, filename), UpsertBatchSize);
      UpsertPhaseCalls(env.upsert, upsertBatches);
      var m := |UpsertPhase(env.upsert, upsertBatches).1|;
      assert forall k :: 0 <= k < m ==> upsertBatches[..m][k] == upsertBatches[k];
      UpsertRequestsWellBatched(upsertBatches[..m]);
      AppendWellBatched(embedded.1, UpsertPhase(env.upsert, upsertBatches).1);
    }
  }

  /** Whatever the services do, the upload handler sends the embedder
      batches of at most 50 texts and the database batches of at most 64
      points, never an empty batch, and finishes embedding before it
      writes. */
  lemma UploadBatchSizes<V>(env: Services<V>, file: UploadFile)
    ensures WellBatched(Ingest(env, file).1)
  {
    var read := env.readPdf(file.contents);
    var text := if read.Ok? then DocumentText(read.value) else "";
    GuardTraces<V>(file.contents, text);
    if |file.contents| <= MaxFileSize && read.Ok? && Strip(text) != "" && env.split(text) != [] {
      IngestStages(env, file, read.value);
      StoreWellBatched(env, file.filename, env.split(text));
      AppendWellBatched([ReadPdf(file.contents), SplitText(text)], Store(env, file.filename, env.split(text)).2);
    }
  }

  /** The reader and splitter calls at the head of a trace write nothing:
      the points written, the last call, and the points written before it
      are those of the rest of the trace. */
  lemma AfterReadAndSplit<V>(contents: seq<Byte>, text: string, tail: seq<Call<V>>)
    ensures UpsertedPoints([ReadPdf(contents), SplitText(text)] + tail) == UpsertedPoints(tail)
    ensures NoUpserts(tail) ==> NoUpserts([ReadPdf(contents), SplitText(text)] + tail)
    ensures tail != [] ==>
      var calls := [ReadPdf(contents), SplitText(text)] + tail;
      && calls[|calls| - 1] == tail[|tail| - 1]
      && UpsertedPoints(calls[..|calls| - 1]) == UpsertedPoints(tail[..|tail| - 1])
  {
    var head: seq<Call<V>> := [ReadPdf(contents), SplitText(text)];
    UpsertedPointsAppend(head, tail);
    NoUpsertNoPoints(head);
    if tail != [] {
      WritesBeforeLastCall(head, tail);
    }
    if NoUpserts(tail) {
      forall i | 0 <= i < |head + tail|
        ensures !(head + tail)[i].UpsertPoints?
      {
        if i >= 2 {
          assert (head + tail)[i] == tail[i - 2];
        }
      }
    }
  }

  /** Calls that write nothing, put in front of a trace, change neither its
      last call nor what was written before it. */
  lemma WritesBeforeLastCall<V>(head: seq<Call<V>>, tail: seq<Call<V>>)
    requires NoUpserts(head)
    requires tail != []
    ensures var calls := head + tail;
      && calls[|calls| - 1] == tail[|tail| - 1]
      && UpsertedPoints(calls[..|calls| - 1]) == UpsertedPoints(tail[..|tail| - 1])
  {
    var calls := head + tail;
    assert calls[..|calls| - 1] == head + tail[..|tail| - 1];
    UpsertedPointsAppend(head, tail[..|tail| - 1]);
    NoUpsertNoPoints(head);
  }

  /** What `Store` did when every batch was embedded: one embedding call per
      batch, then one upsert per batch of the points of
      `zip(chunks, vectors)`, until the first upsert that raised. */
  lemma StoreAfterEmbedding<V>(env: Services<V>, filename: string, chunks: seq<string>, vectors: seq<V>)
    requires EmbedPhase(env.embedDocuments, Batches(chunks, EmbedBatchSize)).0 == Ok(vectors)
    ensures var points := Points(chunks, vectors, filename);
      var upserted := UpsertPhase(env.upsert, Batches(points, UpsertBatchSize));
      && Store(env, filename, chunks) == (upserted.0, |points|, EmbedRequests(Batches(chunks, EmbedBatchSize)) + upserted.1)
      && UpsertedPoints(Store(env, filename, chunks).2) == UpsertedPoints(upserted.1)
  {
    var embedBatches := Batches(chunks, EmbedBatchSize);
    EmbedPhaseCalls(env.embedDocuments, embedBatches);
    assert embedBatches[..|embedBatches|] == embedBatches;
    var embedCalls: seq<Call<V>> := EmbedRequests(embedBatches);
    var upserted := UpsertPhase(env.upsert, Batches(Points(chunks, vectors, filename), UpsertBatchSize));
    UpsertedPointsAppend(embedCalls, upserted.1);
    NoUpsertNoPoints(embedCalls);
  }

  /** `Store` when an embedding call raised: it reports that error, has
      built no point, and has written nothing. */
  lemma StoreEmbeddingFailure<V>(env: Services<V>, filename: string, chunks: seq<string>)
    requires EmbedPhase(env.embedDocuments, Batches(chunks, EmbedBatchSize)).0.Err?
    ensures var stored := Store(env, filename, chunks);
      && stored.0 == Some(EmbedPhase(env.embedDocuments, Batches(chunks, EmbedBatchSize)).0.message)
      && stored.1 == 0
      && NoUpserts(stored.2)
      && UpsertedPoints(stored.2) == []
  {
    var embedBatches := Batches(chunks, EmbedBatchSize);
    EmbedPhaseCalls(env.embedDocuments, embedBatches);
    var calls := EmbedPhase(env.embedDocuments, embedBatches).1;
    assert forall i :: 0 <= i < |calls| ==> calls[i] == EmbedDocuments(embedBatches[i]);
    NoUpsertNoPoints(calls);
  }

  /** `Store` when every batch was embedded and an upsert raised: it reports
      that error, its last call is the upsert that raised, and the calls
      before it wrote a proper prefix of the points. */
  lemma StoreUpsertFailure<V>(env: Services<V>, filename: string, chunks: seq<string>, vectors: seq<V>)
    requires EmbedPhase(env.embedDocuments, Batches(chunks, EmbedBatchSize)).0 == Ok(vectors)
    requires UpsertPhase(env.upsert, Batches(Points(chunks, vectors, filename), UpsertBatchSize)).0.Some?
    ensures var stored := Store(env, filename, chunks);
      && stored.0 == UpsertPhase(env.upsert, Batches(Points(chunks, vectors, filename), UpsertBatchSize)).0
      && 0 < |stored.2|
      && stored.2[|stored.2| - 1].UpsertPoints?
      && env.upsert(stored.2[|stored.2| - 1].points) == stored.0
      && UpsertedPoints(stored.2[..|stored.2| - 1]) < Points(chunks, vectors, filename)
  {
    var points := Points(chunks, vectors, filename);
    StoreAfterEmbedding(env, filename, chunks, vectors);
    UpsertPhaseFailureWritesPrefix(env.upsert, points, UpsertBatchSize);
    var head: seq<Call<V>> := EmbedRequests(Batches(chunks, EmbedBatchSize));
    assert NoUpserts(head);
    WritesBeforeLastCall(head, UpsertPhase(env.upsert, Batches(points, UpsertBatchSize)).1);
  }

  /** `Store` when every batch was embedded and every upsert succeeded: one
      embedding call per batch of 50 chunks, then one upsert per batch of
      64 points, which together carry every point in order. */
  lemma StoreSucceeded<V>(env: Services<V>, filename: string, chunks: seq<string>, vectors: seq<V>)
    requires EmbedPhase(env.embedDocuments, Batches(chunks, EmbedBatchSize)).0 == Ok(vectors)
    requires UpsertPhase(env.upsert, Batches(Points(chunks, vectors, filename), UpsertBatchSize)).0.None?
    ensures var points := Points(chunks, vectors, filename);
      && Store(env, filename, chunks) ==
           (None, |points|, EmbedRequests(Batches(chunks, EmbedBatchSize)) + UpsertRequests(Batches(points, UpsertBatchSize)))
      && UpsertedPoints(Store(env, filename, chunks).2) == points
  {
    var points := Points(chunks, vectors, filename);
    StoreAfterEmbedding(env, filename, chunks, vectors);
    var upsertBatches := Batches(points, UpsertBatchSize);
    UpsertPhaseCalls(env.upsert, upsertBatches);
    assert upsertBatches[..|upsertBatches|] == upsertBatches;
    UpsertedPointsOfRequests(upsertBatches);
    FlattenBatches(points, UpsertBatchSize);
  }

  /** Once every batch is embedded, the upload succeeds exactly when it
      passed the size and empty-text guards and every upsert succeeded. */
  lemma UploadSucceeds<V>(env: Services<V>, file: UploadFile, pages: seq<string>, vectors: seq<V>)
    requires env.readPdf(file.contents) == Ok(pages)
    requires env.split(DocumentText(pages)) != []
    requires EmbedPhase(env.embedDocuments, Batches(env.split(DocumentText(pages)), EmbedBatchSize)).0 == Ok(vectors)
    ensures Ingest(env, file).0.UploadSuccess? <==>
      && |file.contents| <= MaxFileSize
      && Strip(DocumentText(pages)) != ""
      && UpsertPhase(env.upsert, Batches(Points(env.split(DocumentText(pages)), vectors, file.filename), UpsertBatchSize)).0.None?
  {
    StoreAfterEmbedding(env, file.filename, env.split(DocumentText(pages)), vectors);
  }

  /** A successful upload made exactly these calls: read the PDF, split its
      text, embed each batch of 50 chunks, then upsert each batch of 64
      points. The database received the points of `zip(chunks, vectors)`
      in order, point `k` carrying chunk `k`, index `k` and the upload's
      filename, and `chunks_stored` is their number. */
  lemma SuccessfulUpload<V>(env: Services<V>, file: UploadFile, pages: seq<string>, vectors: seq<V>)
    requires env.readPdf(file.contents) == Ok(pages)
    requires env.split(DocumentText(pages)) != []
    requires EmbedPhase(env.embedDocuments, Batches(env.split(DocumentText(pages)), EmbedBatchSize)).0 == Ok(vectors)
    requires Ingest(env, file).0.UploadSuccess?
    ensures
      var text := DocumentText(pages);
      var chunks := env.split(text);
      var points := Points(chunks, vectors, file.filename);
      var calls := Ingest(env, file).1;
      && |file.contents| <= MaxFileSize
      && Strip(text) != ""
      && Ingest(env, file).0 == UploadSuccess(|points|, file.filename, |text|, |pages|)
      && calls == [ReadPdf(file.contents), SplitText(text)]
                  + (EmbedRequests(Batches(chunks, EmbedBatchSize))
                  + UpsertRequests(Batches(points, UpsertBatchSize)))
      && UpsertedPoints(calls) == points
      && |points| == (if |chunks| < |vectors| then |chunks| else |vectors|)
      && forall k :: 0 <= k < |points| ==> points[k] == Point(vectors[k], Payload(chunks[k], file.filename, k))
  {
    var text := DocumentText(pages);
    var chunks := env.split(text);
    UploadSucceeds(env, file, pages, vectors);
    IngestStages(env, file, pages);
    StoreSucceeded(env, file.filename, chunks, vectors);
    AfterReadAndSplit(file.contents, text, Store(env, file.filename, chunks).2);
  }

  /** When an embedding call raises, the upload is answered with its error
      and nothing has been sent to the database. */
  lemma EmbeddingFailureWritesNothing<V>(env: Services<V>, file: UploadFile, pages: seq<string>, e: string)
    requires |file.contents| <= MaxFileSize
    requires env.readPdf(file.contents) == Ok(pages)
    requires Strip(DocumentText(pages)) != ""
    requires env.split(DocumentText(pages)) != []
    requires EmbedPhase(env.embedDocuments, Batches(env.split(DocumentText(pages)), EmbedBatchSize)).0 == Err(e)
    ensures Ingest(env, file).0 == UploadError(ProcessingError(e))
    ensures NoUpserts(Ingest(env, file).1)
    ensures UpsertedPoints(Ingest(env, file).1) == []
  {
    var text := DocumentText(pages);
    var chunks := env.split(text);
    IngestStages(env, file, pages);
    StoreEmbeddingFailure(env, file.filename, chunks);
    AfterReadAndSplit(file.contents, text, Store(env, file.filename, chunks).2);
  }

  /** When an upsert call raises, the upload is answered with its error; the
      batches acknowledged before it stay written, and they are a proper
      prefix of the points: the upload is left half stored. */
  lemma UpsertFailureLeavesPrefix<V>(env: Services<V>, file: UploadFile, pages: seq<string>, vectors: seq<V>, e: string)
    requires |file.contents| <= MaxFileSize
    requires env.readPdf(file.contents) == Ok(pages)
    requires Strip(DocumentText(pages)) != ""
    requires env.split(DocumentText(pages)) != []
    requires EmbedPhase(env.embedDocuments, Batches(env.split(DocumentText(pages)), EmbedBatchSize)).0 == Ok(vectors)
    requires UpsertPhase(env.upsert, Batches(Points(env.split(DocumentText(pages)), vectors, file.filename), UpsertBatchSize)).0 == Some(e)
    ensures Ingest(env, file).0 == UploadError(ProcessingError(e))
    ensures var calls := Ingest(env, file).1;
      var points := Points(env.split(DocumentText(pages)), vectors, file.filename);
      && 0 < |calls|
      && calls[|calls| - 1].UpsertPoints?
      && env.upsert(calls[|calls| - 1].points) == Some(e)
      && UpsertedPoints(calls[..|calls| - 1]) < points
  {
    var text := DocumentText(pages);
    var chunks := env.split(text);
    IngestStages(env, file, pages);
    StoreUpsertFailure(env, file.filename, chunks, vectors);
    AfterReadAndSplit(file.contents, text, Store(env, file.filename, chunks).2);
  }

  /** When the embedder returns one vector per text and every upsert
      succeeds, every chunk the splitter produced is stored: `chunks_stored`
      is the number of chunks, and the stored chunk indices run 0, 1, ...
      in split order. */
  lemma EveryChunkStored<V>(env: Services<V>, file: UploadFile, pages: seq<string>)
    requires |file.contents| <= MaxFileSize
    requires env.readPdf(file.contents) == Ok(pages)
    requires Strip(DocumentText(pages)) != ""
    requires env.split(DocumentText(pages)) != []
    requires forall texts: seq<string> {:trigger env.embedDocuments(texts)} ::
      env.embedDocuments(texts).Ok? && |env.embedDocuments(texts).value| == |texts|
    requires forall points: seq<Point<V>> {:trigger env.upsert(points)} :: env.upsert(points).None?
    ensures
      var text := DocumentText(pages);
      var chunks := env.split(text);
      var stored := UpsertedPoints(Ingest(env, file).1);
      && Ingest(env, file).0 == UploadSuccess(|chunks|, file.filename, |text|, |pages|)
      && |stored| == |chunks|
      && forall k :: 0 <= k < |chunks| ==> stored[k].payload == Payload(chunks[k], file.filename, k)
  {
    var text := DocumentText(pages);
    var chunks := env.split(text);
    var embedBatches := Batches(chunks, EmbedBatchSize);
    EmbedPhaseOneVectorEach(env.embedDocuments, embedBatches);
    FlattenBatches(chunks, EmbedBatchSize);
    var vectors := EmbedPhase(env.embedDocuments, embedBatches).0.value;
    var points := Points(chunks, vectors, file.filename);
    UpsertPhaseCalls(env.upsert, Batches(points, UpsertBatchSize));
    assert UpsertPhase(env.upsert, Batches(points, UpsertBatchSize)).0.None?;
    IngestStages(env, file, pages);
    StoreAfterEmbedding(env, file.filename, chunks, vectors);
    assert Ingest(env, file).0 == UploadSuccess(|points|, file.filename, |text|, |pages|);
    SuccessfulUpload(env, file, pages, vectors);
  }
}
