/** What the `/upload-pdf` handler computes (backend/main.py lines 94-162),
    stated as functions: the size guard, the page-text assembly, the two
    empty-text guards, the embedding batches, the points and the upsert
    batches, together with the calls the handler makes on the way. The
    handler itself, with its loops, is `UploadHandler.UploadPdf`. */
module Ingestion {
  import opened Services
  import opened PyText
  import opened Batching

  const MaxFileSize: nat := 10 * 1024 * 1024
  const EmbedBatchSize: nat := 50
  const UpsertBatchSize: nat := 64

  const TooLargeMessage := "File too large. " + "Max allowed size is 10 MB."
  const NoTextMessage := "No text extracted from PDF. " + "Might be image-only or password-protected."
  const NoChunksMessage := "No chunks were created " + "from the extracted text."

  /** The message of the handler's catch-all `except` clause. */
  function ProcessingError(e: string): string {
    "Error processing PDF: " + e
  }

  /** The uploaded file: its multipart filename and its bytes. */
  datatype UploadFile = UploadFile(filename: string, contents: seq<Byte>)

  /** The JSON body the handler returns (always with HTTP status 200). */
  datatype UploadResponse =
    | UploadSuccess(chunksStored: nat, filename: string, textLength: nat, pagesProcessed: nat)
    | UploadError(message: string)

  /** The block one page contributes, `index` being its 0-based position. */
  function PageBlock(index: nat, pageText: string): string {
    "\n--- Page " + DecimalString(index + 1) + " ---\n" + pageText + "\n"
  }

  /** The text the page loop accumulates: one block per page whose text is
      non-empty, in page order; a page with empty text adds nothing. */
  function DocumentText(pages: seq<string>): string
    decreases |pages|
  {
    if pages == [] then ""
    else
      var i := |pages| - 1;
      DocumentText(pages[..i]) + (if pages[i] != "" then PageBlock(i, pages[i]) else "")
  }

  /** The same text described front to back: the blocks of `pages`, the
      first of them being page number `first + 1`. */
  function PageBlocks(pages: seq<string>, first: nat): string
    decreases |pages|
  {
    if pages == [] then ""
    else (if pages[0] != "" then PageBlock(first, pages[0]) else "") + PageBlocks(pages[1..], first + 1)
  }

  lemma {:induction false} PageBlocksSnoc(pages: seq<string>, first: nat, last: string)
    ensures PageBlocks(pages + [last], first) ==
      PageBlocks(pages, first) + (if last != "" then PageBlock(first + |pages|, last) else "")
    decreases |pages|
  {
    if pages == [] {
      assert [last][1..] == [];
    } else {
      assert (pages + [last])[1..] == pages[1..] + [last];
      PageBlocksSnoc(pages[1..], first + 1, last);
    }
  }

  /** The loop's accumulated text is the in-order concatenation of the
      blocks of the non-empty pages, numbered from 1. */
  lemma {:induction false} DocumentTextIsPageBlocks(pages: seq<string>)
    ensures DocumentText(pages) == PageBlocks(pages, 0)
    decreases |pages|
  {
    if pages != [] {
      var i := |pages| - 1;
      DocumentTextIsPageBlocks(pages[..i]);
      assert pages == pages[..i] + [pages[i]];
      PageBlocksSnoc(pages[..i], 0, pages[i]);
    }
  }

  /** The accumulated text is empty exactly when every page's text is. */
  lemma {:induction false} DocumentTextEmptyIff(pages: seq<string>)
    ensures DocumentText(pages) == "" <==> forall i :: 0 <= i < |pages| ==> pages[i] == ""
    decreases |pages|
  {
    if pages != [] {
      var i := |pages| - 1;
      DocumentTextEmptyIff(pages[..i]);
      if pages[i] == "" {
        forall j | 0 <= j < i ensures pages[j] == pages[..i][j] { }
      }
    }
  }

  /** Every page block holds the `-` of its marker, so the whitespace-only
      guard rejects exactly the documents whose every page text is empty:
      a page whose text is only whitespace still gets past it. */
  lemma {:induction false} NoTextIffAllPagesEmpty(pages: seq<string>)
    ensures Strip(DocumentText(pages)) == "" <==> forall i :: 0 <= i < |pages| ==> pages[i] == ""
    decreases |pages|
  {
    var text := DocumentText(pages);
    StripEmptyIff(text);
    DocumentTextEmptyIff(pages);
    if text != "" {
      var k := MarkerDash(pages);
      assert !IsSpace(text[k]);
    }
  }

  /** A position of a non-whitespace character in a non-empty document text. */
  lemma {:induction false} MarkerDash(pages: seq<string>) returns (k: nat)
    requires DocumentText(pages) != ""
    ensures k < |DocumentText(pages)| && DocumentText(pages)[k] == '-'
    decreases |pages|
  {
    var i := |pages| - 1;
    var before := DocumentText(pages[..i]);
    if pages[i] != "" {
      k := |before| + 1;
      assert PageBlock(i, pages[i])[1] == '-';
    } else {
      k := MarkerDash(pages[..i]);
    }
  }

  /** `enumerate(zip(chunks, vectors))`: one point per pair, as many as the
      shorter of the two lists, point `k` holding chunk `k` and vector `k`. */
  function Points<V>(chunks: seq<string>, vectors: seq<V>, filename: string): seq<Point<V>> {
    var m := if |chunks| < |vectors| then |chunks| else |vectors|;
    seq(m, k requires 0 <= k < m => Point(vectors[k], Payload(chunks[k], filename, k)))
  }

  /** The embedding loop: one `embed_documents` call per batch, in order,
      the vectors of each appended to those before; the first call that
      raises ends the loop with its error. */
  function EmbedPhase<V>(embed: seq<string> -> Result<seq<V>>, batches: seq<seq<string>>)
    : (Result<seq<V>>, seq<Call<V>>)
    decreases |batches|
  {
    if batches == [] then (Ok([]), [])
    else
      var last := batches[|batches| - 1];
      var sofar := EmbedPhase(embed, batches[..|batches| - 1]);
      if sofar.0.Err? then sofar
      else
        var calls := sofar.1 + [EmbedDocuments(last)];
        match embed(last)
        case Err(e) => (Err(e), calls)
        case Ok(more) => (Ok(sofar.0.value + more), calls)
  }

  /** The upsert loop: one `upsert` call per batch, in order; the first call
      that raises ends the loop with its error, and the batches written
      before it stay written. */
  function UpsertPhase<V>(upsert: seq<Point<V>> -> Option<string>, batches: seq<seq<Point<V>>>)
    : (Option<string>, seq<Call<V>>)
    decreases |batches|
  {
    if batches == [] then (None, [])
    else
      var last := batches[|batches| - 1];
      var sofar := UpsertPhase(upsert, batches[..|batches| - 1]);
      if sofar.0.Some? then sofar
      else (upsert(last), sofar.1 + [UpsertPoints(last)])
  }

  /** The whole handler: its response and the calls it makes, in order. */
  function Ingest<V>(env: Services<V>, file: UploadFile): (UploadResponse, seq<Call<V>>) {
    if |file.contents| > MaxFileSize then (UploadError(TooLargeMessage), [])
    else
      var read := [ReadPdf(file.contents)];
      match env.readPdf(file.contents)
      case Err(e) => (UploadError(ProcessingError(e)), read)
      case Ok(pages) =>
        var text := DocumentText(pages);
        if Strip(text) == "" then (UploadError(NoTextMessage), read)
        else
          var chunks := env.split(text);
          if chunks == [] then (UploadError(NoChunksMessage), [ReadPdf(file.contents), SplitText(text)])
          else
            var stored := Store(env, file.filename, chunks);
            var response :=
              if stored.0.Some? then UploadError(ProcessingError(stored.0.value))
              else UploadSuccess(stored.1, file.filename, |text|, |pages|);
            (response, [ReadPdf(file.contents), SplitText(text)] + stored.2)
  }

  /** The handler from the embedding loop on, for a non-empty list of
      chunks: the error that stopped it, if any, the number of points it
      built, and the calls it made. */
  function Store<V>(env: Services<V>, filename: string, chunks: seq<string>): (Option<string>, nat, seq<Call<V>>) {
    var embedded := EmbedPhase(env.embedDocuments, Batches(chunks, EmbedBatchSize));
    if embedded.0.Err? then (Some(embedded.0.message), 0, embedded.1)
    else
      var points := Points(chunks, embedded.0.value, filename);
      var upserted := UpsertPhase(env.upsert, Batches(points, UpsertBatchSize));
      (upserted.0, |points|, embedded.1 + upserted.1)
  }

  /** The calls `embed_documents` receives for `batches`, one per batch. */
  function EmbedRequests<V>(batches: seq<seq<string>>): seq<Call<V>> {
    seq(|batches|, k requires 0 <= k < |batches| => EmbedDocuments(batches[k]))
  }

  /** The calls `upsert` receives for `batches`, one per batch. */
  function UpsertRequests<V>(batches: seq<seq<Point<V>>>): seq<Call<V>> {
    seq(|batches|, k requires 0 <= k < |batches| => UpsertPoints(batches[k]))
  }

  /** The points a trace sends to the vector database, in order. */
  function UpsertedPoints<V>(calls: seq<Call<V>>): seq<Point<V>> {
    if calls == [] then []
    else (if calls[0].UpsertPoints? then calls[0].points else []) + UpsertedPoints(calls[1..])
  }

  lemma {:induction false} UpsertedPointsAppend<V>(a: seq<Call<V>>, b: seq<Call<V>>)
    ensures UpsertedPoints(a + b) == UpsertedPoints(a) + UpsertedPoints(b)
  {
    if a == [] {
      assert a + b == b;
    } else {
      assert (a + b)[1..] == a[1..] + b;
      UpsertedPointsAppend(a[1..], b);
    }
  }

  /** Sending the upsert batches sends their concatenation. */
  lemma {:induction false} UpsertedPointsOfRequests<V>(batches: seq<seq<Point<V>>>)
    ensures UpsertedPoints(UpsertRequests(batches)) == Flatten(batches)
  {
    if batches != [] {
      assert UpsertRequests(batches)[1..] == UpsertRequests(batches[1..]);
      UpsertedPointsOfRequests(batches[1..]);
    }
  }

  /** A trace that sends nothing to the vector database. */
  predicate NoUpserts<V>(calls: seq<Call<V>>) {
    forall i :: 0 <= i < |calls| ==> !calls[i].UpsertPoints?
  }

  /** A trace without upsert calls sends no points. */
  lemma {:induction false} NoUpsertNoPoints<V>(calls: seq<Call<V>>)
    requires NoUpserts(calls)
    ensures UpsertedPoints(calls) == []
  {
    if calls != [] {
      NoUpsertNoPoints(calls[1..]);
    }
  }

  /** The embedding loop calls `embed_documents` on the batches in order,
      stopping after the first call that raises: it succeeds exactly when
      every batch is embedded, and then it has made one call per batch. */
  lemma {:induction false} EmbedPhaseCalls<V>(embed: seq<string> -> Result<seq<V>>, batches: seq<seq<string>>)
    ensures var res, calls := EmbedPhase(embed, batches).0, EmbedPhase(embed, batches).1;
      && |calls| <= |batches|
      && calls == EmbedRequests(batches[..|calls|])
      && (res.Ok? <==> forall k :: 0 <= k < |batches| ==> embed(batches[k]).Ok?)
      && (res.Ok? ==> |calls| == |batches|)
      && (res.Err? ==>
            && 0 < |calls|
            && embed(batches[|calls| - 1]) == Err(res.message)
            && forall k :: 0 <= k < |calls| - 1 ==> embed(batches[k]).Ok?)
    decreases |batches|
  {
    if batches != [] {
      var n := |batches| - 1;
      var prefix := batches[..n];
      EmbedPhaseCalls(embed, prefix);
      var res, calls := EmbedPhase(embed, prefix).0, EmbedPhase(embed, prefix).1;
      assert forall k :: 0 <= k < n ==> prefix[k] == batches[k];
      assert batches[..|calls|] == prefix[..|calls|];
      if res.Ok? {
        assert batches[..n + 1] == prefix + [batches[n]];
        assert EmbedRequests<V>(batches[..n + 1]) == calls + [EmbedDocuments(batches[n])];
      }
    }
  }

  /** One more turn of the embedding loop after batches that all
      succeeded: it calls the embedder on the next batch and either appends
      its vectors or stops with its error. */
  lemma EmbedPhaseNext<V>(embed: seq<string> -> Result<seq<V>>, done: seq<seq<string>>, batch: seq<string>)
    requires EmbedPhase(embed, done).0.Ok?
    ensures var before := EmbedPhase(embed, done);
      EmbedPhase(embed, done + [batch]) ==
        if embed(batch).Err? then (Err(embed(batch).message), before.1 + [EmbedDocuments(batch)])
        else (Ok(before.0.value + embed(batch).value), before.1 + [EmbedDocuments(batch)])
  {
    assert (done + [batch])[..|done|] == done;
  }

  /** Once a batch has failed, later batches are never sent. */
  lemma {:induction false} EmbedPhaseStops<V>(embed: seq<string> -> Result<seq<V>>, done: seq<seq<string>>, rest: seq<seq<string>>)
    requires EmbedPhase(embed, done).0.Err?
    ensures EmbedPhase(embed, done + rest) == EmbedPhase(embed, done)
    decreases |rest|
  {
    if rest == [] {
      assert done + rest == done;
    } else {
      var n := |rest| - 1;
      assert (done + rest)[..|done + rest| - 1] == done + rest[..n];
      EmbedPhaseStops(embed, done, rest[..n]);
    }
  }

  /** When every batch comes back with one vector per text, the loop yields
      exactly one vector per chunk. */
  lemma {:induction false} EmbedPhaseOneVectorEach<V>(embed: seq<string> -> Result<seq<V>>, batches: seq<seq<string>>)
    requires forall k :: 0 <= k < |batches| ==> embed(batches[k]).Ok? && |embed(batches[k]).value| == |batches[k]|
    ensures EmbedPhase(embed, batches).0.Ok?
    ensures |EmbedPhase(embed, batches).0.value| == |Flatten(batches)|
    decreases |batches|
  {
    if batches != [] {
      var n := |batches| - 1;
      var prefix := batches[..n];
      assert forall k :: 0 <= k < n ==> prefix[k] == batches[k];
      EmbedPhaseOneVectorEach(embed, prefix);
      assert batches == prefix + [batches[n]];
      EmbedPhaseNext(embed, prefix, batches[n]);
      FlattenAppend(prefix, [batches[n]]);
      assert Flatten([batches[n]]) == batches[n];
    }
  }

  /** When every batch is embedded, the vectors are the embedder's results
      for the batches, joined in batch order, as `vectors.extend` builds
      them. */
  lemma {:induction false} EmbedPhaseVectors<V>(embed: seq<string> -> Result<seq<V>>, batches: seq<seq<string>>)
    requires forall k :: 0 <= k < |batches| ==> embed(batches[k]).Ok?
    ensures EmbedPhase(embed, batches).0 ==
      Ok(Flatten(seq(|batches|, k requires 0 <= k < |batches| => embed(batches[k]).value)))
    decreases |batches|
  {
    if batches != [] {
      var n := |batches| - 1;
      var prefix := batches[..n];
      assert forall k :: 0 <= k < n ==> prefix[k] == batches[k];
      EmbedPhaseVectors(embed, prefix);
      assert batches == prefix + [batches[n]];
      EmbedPhaseNext(embed, prefix, batches[n]);
      var last := embed(batches[n]).value;
      var before := seq(n, k requires 0 <= k < n => embed(prefix[k]).value);
      assert seq(|batches|, k requires 0 <= k < |batches| => embed(batches[k]).value) == before + [last];
      FlattenAppend(before, [last]);
      assert Flatten([last]) == last;
    }
  }

  /** The upsert loop calls `upsert` on the batches in order, stopping after
      the first call that raises: it succeeds exactly when every batch is
      written, and then it has made one call per batch. */
  lemma {:induction false} UpsertPhaseCalls<V>(upsert: seq<Point<V>> -> Option<string>, batches: seq<seq<Point<V>>>)
    ensures var failure, calls := UpsertPhase(upsert, batches).0, UpsertPhase(upsert, batches).1;
      && |calls| <= |batches|
      && calls == UpsertRequests(batches[..|calls|])
      && (failure.None? <==> forall k :: 0 <= k < |batches| ==> upsert(batches[k]).None?)
      && (failure.None? ==> |calls| == |batches|)
      && (failure.Some? ==>
            && 0 < |calls|
            && upsert(batches[|calls| - 1]) == failure
            && forall k :: 0 <= k < |calls| - 1 ==> upsert(batches[k]).None?)
    decreases |batches|
  {
    if batches != [] {
      var n := |batches| - 1;
      var prefix := batches[..n];
      UpsertPhaseCalls(upsert, prefix);
      var failure, calls := UpsertPhase(upsert, prefix).0, UpsertPhase(upsert, prefix).1;
      assert forall k :: 0 <= k < n ==> prefix[k] == batches[k];
      assert batches[..|calls|] == prefix[..|calls|];
      if failure.None? {
        assert batches[..n + 1] == prefix + [batches[n]];
        assert UpsertRequests<V>(batches[..n + 1]) == calls + [UpsertPoints(batches[n])];
      }
    }
  }

  /** When an upsert raises, the last call made is the one that raised, and
      the batches written before it hold a proper prefix of the points. */
  lemma UpsertPhaseFailureWritesPrefix<V>(upsert: seq<Point<V>> -> Option<string>, points: seq<Point<V>>, size: nat)
    requires size > 0
    requires UpsertPhase(upsert, Batches(points, size)).0.Some?
    ensures var failure, calls := UpsertPhase(upsert, Batches(points, size)).0, UpsertPhase(upsert, Batches(points, size)).1;
      && 0 < |calls|
      && calls[|calls| - 1].UpsertPoints?
      && upsert(calls[|calls| - 1].points) == failure
      && UpsertedPoints(calls[..|calls| - 1]) < points
  {
    var batches := Batches(points, size);
    UpsertPhaseCalls(upsert, batches);
    var calls := UpsertPhase(upsert, batches).1;
    var j := |calls| - 1;
    assert calls[j] == UpsertPoints(batches[j]);
    assert calls[..j] == UpsertRequests(batches[..j]);
    UpsertedPointsOfRequests(batches[..j]);
    BatchesBeforeArePrefix(points, size, j);
  }

  /** One more turn of the upsert loop after batches that were all
      written: it sends the next batch and stops if that call raised. */
  lemma UpsertPhaseNext<V>(upsert: seq<Point<V>> -> Option<string>, done: seq<seq<Point<V>>>, batch: seq<Point<V>>)
    requires UpsertPhase(upsert, done).0.None?
    ensures UpsertPhase(upsert, done + [batch]) == (upsert(batch), UpsertPhase(upsert, done).1 + [UpsertPoints(batch)])
  {
    assert (done + [batch])[..|done|] == done;
  }

  /** Once a batch has failed, later batches are never sent. */
  lemma {:induction false} UpsertPhaseStops<V>(upsert: seq<Point<V>> -> Option<string>, done: seq<seq<Point<V>>>, rest: seq<seq<Point<V>>>)
    requires UpsertPhase(upsert, done).0.Some?
    ensures UpsertPhase(upsert, done + rest) == UpsertPhase(upsert, done)
    decreases |rest|
  {
    if rest == [] {
      assert done + rest == done;
    } else {
      var n := |rest| - 1;
      assert (done + rest)[..|done + rest| - 1] == done + rest[..n];
      UpsertPhaseStops(upsert, done, rest[..n]);
    }
  }
}
