# PDF question answering backend: the two request handlers

This project models the two request handlers of the FastAPI backend in
`backend/main.py` and proves properties about them.

- `/upload-pdf` takes an uploaded PDF and checks its size. It reads the text
  of every page and rejects documents with no text. It splits the text into
  chunks, embeds the chunks in batches of 50 and writes one point per chunk
  that received a vector to the vector database in batches of 64.
- `/ask` embeds a question and searches the points of one uploaded file. It
  answers with the joined texts of the hits, cut to 2000 characters.

The handlers call several services: the PDF reader, the text splitter, the
embedding provider and the vector database. Each one is a function the
handlers receive in a `Services` value. The model does not compute them.
Each handler returns its JSON body together with the list of calls it made
to these services, in order. A property such as "nothing reached the
database" is then a statement about that list.

Files:

- `services.dfy`: the values exchanged with the services, the `Call` record
  and `Services`.
- `pytext.dfy`: the Python string behaviour the handlers rely on. This
  covers `str.strip()`, `str(n)`, `s[:n]` and `sep.join`.
- `batching.dfy`: the `range(0, len(xs), size)` / `xs[i : i + size]`
  batching and its properties.
- `ingestion.dfy`: `/upload-pdf` as functions. These are the guards, the
  page-text assembly, the embedding loop, the points, the upsert loop, and
  `Ingest`, the whole handler.
- `ingestion_properties.dfy`: what `Ingest` guarantees. This covers which
  answer each upload gets, the batch sizes, and what reaches the database on
  success and on failure.
- `upload_handler.dfy`: the handler as the loops it runs. `UploadPdf` is
  proved to compute exactly `Ingest`, so everything proved about `Ingest`
  holds of it.
- `ask.dfy`: `/ask` as a function, with its properties.

A page whose extracted text is empty adds nothing to the document text, not
even its `--- Page n ---` marker (`backend/main.py:107`).

Every non-empty page adds a marker containing `-`. The "no text extracted"
guard therefore fires exactly when every page's text is empty (`Ingestion.NoTextIffAllPagesEmpty`). A document
whose pages hold only whitespace passes the guard and reaches the splitter.

## Model

| member | source | states |
|---|---|---|
| UploadHandler.UploadPdf | backend/main.py:94-162 | The handler's response and its calls to the services are exactly those of `Ingestion.Ingest`, so every property below holds of it |
| UploadHandler.ExtractText | backend/main.py:104-108 | The page loop produces `DocumentText(pages)`: one marked block per page with non-empty text, in order |
| UploadHandler.EmbedChunks | backend/main.py:127-131 | The embedding loop embeds `chunks[i:i+50]` for each `i` in `range(0, len(chunks), 50)`, in order. It extends the vectors and stops at the first call that raises. It computes `EmbedPhase` over `Batches(chunks, 50)` |
| UploadHandler.BuildPoints | backend/main.py:133-142 | Builds one point per pair of `zip(chunks, vectors)`. Point `k` holds vector `k`, chunk `k`, the filename and index `k` |
| UploadHandler.UpsertAll | backend/main.py:144-147 | The upsert loop writes `points[i:i+64]` for each `i` in `range(0, len(points), 64)` and stops at the first call that raises. It computes `UpsertPhase` over `Batches(points, 64)` |
| IngestionProperties.TooLargeExactly | backend/main.py:97-99 | "File too large" is the answer exactly when the upload exceeds 10 MiB. The PDF is then never read |
| IngestionProperties.NoTextExactly | backend/main.py:110-111 | "No text extracted" is the answer exactly when the upload is small enough, the PDF reads, and every page's text is empty. Only the reader was called |
| IngestionProperties.NoChunksExactly | backend/main.py:120-122 | "No chunks" is the answer exactly when the text passed the whitespace guard and the splitter returned nothing. Only the reader and the splitter were called |
| IngestionProperties.IngestErrorMessages | backend/main.py:96-162 | Every error answer is one of the three guard messages under its guard's condition, or the catch-all `Error processing PDF: ...`. The four kinds of message are distinct |
| IngestionProperties.MessagesDiffer | backend/main.py:99-162 | The catch-all message never equals a guard message, and the three guard messages differ |
| IngestionProperties.GuardsStayOffline | backend/main.py:96-122 | An upload rejected by a guard, or whose PDF cannot be read, gets an error and never reaches the embedder or the database. When the reader raises, the answer is `Error processing PDF: <error>` with the reader's error, and the read is the only call |
| IngestionProperties.IngestStages | backend/main.py:120-158 | Past the guards, the handler reads, splits, and then answers with what the embed, points and upsert stage reports |
| IngestionProperties.UploadBatchSizes | backend/main.py:127-147 | For every behaviour of the services, each embedding call carries 1 to 50 texts and each upsert carries 1 to 64 points. No embedding call follows an upsert |
| IngestionProperties.StoreWellBatched | backend/main.py:127-147 | The embed/upsert stage alone makes well-batched calls |
| IngestionProperties.AppendWellBatched | backend/main.py:120-147 | Calls that write nothing, placed in front of well-batched calls, keep them well batched |
| IngestionProperties.EmbedRequestsWellBatched | backend/main.py:128-130 | One embedding call per batch of 1 to 50 texts is well batched and writes nothing |
| IngestionProperties.UpsertRequestsWellBatched | backend/main.py:145-147 | One upsert per batch of 1 to 64 points is well batched |
| IngestionProperties.StoreAfterEmbedding | backend/main.py:127-147 | Once every batch is embedded: one embedding call per batch, the points of `zip(chunks, vectors)`, then the upsert loop's calls and outcome |
| IngestionProperties.StoreEmbeddingFailure | backend/main.py:127-131 | An embedding error ends the stage with that error, no points and no upserts |
| IngestionProperties.StoreUpsertFailure | backend/main.py:144-147 | An upsert error ends the stage with that error. The last call is the failing upsert, and the calls before it wrote a proper prefix of the points |
| IngestionProperties.StoreSucceeded | backend/main.py:127-147 | When every upsert succeeds, the stage's calls are the embedding batches followed by the upsert batches. Together they write every point, in order |
| IngestionProperties.UploadSucceeds | backend/main.py:96-158 | Once the chunks are embedded, the upload succeeds exactly when it passed the size and text guards and every upsert succeeded |
| IngestionProperties.SuccessfulUpload | backend/main.py:94-158 | On success the calls are: read, split, embedding batches of 50, upsert batches of 64. The database received point `k` = (vector `k`, chunk `k`, filename, index `k`) for every `k` below `min(len(chunks), len(vectors))`. The body reports that count, the filename, the text length and the page count |
| IngestionProperties.EmbeddingFailureWritesNothing | backend/main.py:127-131 | An embedding error is answered with `Error processing PDF: <error>` and nothing was written to the database |
| IngestionProperties.UpsertFailureLeavesPrefix | backend/main.py:144-147 | An upsert error is answered with its message. The failing upsert is the last call, and the batches before it wrote a proper prefix of the points, so the file is left partly stored |
| IngestionProperties.EveryChunkStored | backend/main.py:127-158 | If the embedder returns one vector per text and no upsert fails, every chunk is stored with indices 0, 1, ... in split order, and `chunks_stored` is the number of chunks |
| IngestionProperties.AfterReadAndSplit | backend/main.py:102-120 | The reader and splitter calls at the head of the trace write nothing. The points written and the last call are those of the rest of the trace |
| IngestionProperties.WritesBeforeLastCall | backend/main.py:102-120 | Calls that write nothing, put in front, change neither the last call nor what was written before it |
| Ingestion.Ingest | backend/main.py:94-162 | Defines the whole upload handler, branch by branch: size guard, PDF read, page text, whitespace guard, split, no-chunks guard, then `Store`; a raising service gives `Error processing PDF: <error>`. Its properties are the `IngestionProperties` lemmas |
| Ingestion.Store | backend/main.py:127-147 | Defines the handler from the embedding loop on: embed the batches, build the points, upsert the batches; it reports the first error, the number of points and the calls |
| Ingestion.PageBlock | backend/main.py:108 | Defines the block one non-empty page adds: `"\n--- Page " + str(i+1) + " ---\n" + text + "\n"` |
| Ingestion.DocumentText | backend/main.py:104-108 | Defines the text the page loop accumulates. `DocumentTextIsPageBlocks`, `DocumentTextEmptyIff` and `NoTextIffAllPagesEmpty` state what it is |
| Ingestion.Points | backend/main.py:133-142 | Defines the points of `enumerate(zip(chunks, vectors))`; `BuildPoints` and `SuccessfulUpload` state their contents and count |
| Ingestion.EmbedPhase | backend/main.py:127-131 | Defines the embedding loop over a list of batches; `EmbedPhaseCalls` states its calls, `EmbedPhaseVectors` its vectors and `EmbedPhaseOneVectorEach` their number |
| Ingestion.UpsertPhase | backend/main.py:144-147 | Defines the upsert loop over a list of batches; `UpsertPhaseCalls` and `UpsertPhaseFailureWritesPrefix` state its calls and what it wrote |
| Ask.HitText | backend/main.py:192 | Defines `hit.payload.get("text", "")` |
| Ask.Context | backend/main.py:192-193 | Defines the context, the hit texts joined by a blank line; `ContextHoldsHits` states where each text lies and the length |
| Ask.FormatAnswer | backend/main.py:195 | Defines the answer text; `AnswerQuotesContext` states what it quotes and when it adds "..." |
| PyText.DecimalString | backend/main.py:108 | `str(n)` is a non-empty string of decimal digits with no leading zero unless `n` is 0; `DecimalRoundTrip` reads it back |
| PyText.Strip | backend/main.py:110 | Defines `str.strip()` as `rstrip` after `lstrip`; `StripEmptyIff` states when it is empty |
| PyText.Join | backend/main.py:193 | Defines `sep.join(parts)`; `JoinLength` and `JoinPartAt` state its length and where each part lies |
| Ingestion.DocumentTextIsPageBlocks | backend/main.py:104-108 | The accumulated text is the in-order concatenation of the blocks of the non-empty pages, numbered from 1 |
| Ingestion.PageBlocksSnoc | backend/main.py:105-108 | Adding a page at the end adds its block, if any, at the end of the text |
| Ingestion.DocumentTextEmptyIff | backend/main.py:104-108 | The accumulated text is empty exactly when every page's text is empty |
| Ingestion.NoTextIffAllPagesEmpty | backend/main.py:104-111 | The whitespace-only guard holds exactly when every page's text is empty |
| Ingestion.MarkerDash | backend/main.py:108-110 | A non-empty document text has a `-` from a page marker at a known position |
| Ingestion.EmbedPhaseCalls | backend/main.py:128-131 | The embedding loop calls the embedder on the batches in order. It succeeds exactly when every batch embeds, and then it made one call per batch. On failure, its last call is the failing one and every earlier one succeeded |
| Ingestion.EmbedPhaseNext | backend/main.py:128-131 | One more turn of the embedding loop after successful batches: embed the next batch, then append its vectors or stop with its error |
| Ingestion.EmbedPhaseStops | backend/main.py:128-131 | After a failed batch, no later batch is sent |
| Ingestion.EmbedPhaseVectors | backend/main.py:128-131 | When every batch is embedded, the vectors are the embedder's results for the batches joined in batch order, as `vectors.extend` builds them |
| Ingestion.EmbedPhaseOneVectorEach | backend/main.py:128-131 | If every batch returns one vector per text, the loop yields one vector per chunk |
| Ingestion.UpsertPhaseCalls | backend/main.py:145-147 | The upsert loop writes the batches in order. It succeeds exactly when every upsert succeeds, and then it made one call per batch. On failure, its last call is the failing one |
| Ingestion.UpsertPhaseNext | backend/main.py:145-147 | One more turn of the upsert loop after successful writes: send the next batch and stop if it raised |
| Ingestion.UpsertPhaseStops | backend/main.py:145-147 | After a failed upsert, no later batch is sent |
| Ingestion.UpsertPhaseFailureWritesPrefix | backend/main.py:145-147 | On an upsert failure, the batches written before the failing one form a proper prefix of the points |
| Ingestion.UpsertedPointsAppend | backend/main.py:145-147 | The points written by two traces in sequence are the points of each, concatenated |
| Ingestion.UpsertedPointsOfRequests | backend/main.py:145-147 | Sending the upsert batches writes their concatenation |
| Ingestion.NoUpsertNoPoints | backend/main.py:128-131 | A trace without upserts writes no point |
| Batching.Batches | backend/main.py:128-129 | Every batch of `xs[i:i+size]` over `range(0, len(xs), size)` holds between 1 and `size` elements |
| Batching.FlattenBatches | backend/main.py:128-129 | Concatenating the batches gives back the whole list, in order |
| Batching.FlattenAppend | backend/main.py:128-129 | Flattening distributes over concatenation of batch lists |
| Batching.BatchCount | backend/main.py:128-129 | There are `ceil(len(xs) / size)` batches |
| Batching.BatchAt | backend/main.py:128-129 | Batch `k` is `xs[k*size : k*size + size]`, clamped to the end |
| Batching.BatchesStep | backend/main.py:145-146 | The batching loop at position `i` takes `xs[i:i+size]` and resumes at `i + size` |
| Batching.BatchesNext | backend/main.py:145-146 | The batches taken so far plus those left from `i` are all the batches, before and after one turn |
| Batching.BatchesBeforeArePrefix | backend/main.py:145-146 | The batches before batch `j` concatenate to a proper prefix of the list |
| PyText.StripEmptyIff | backend/main.py:110 | `not text.strip()` holds exactly when the text is empty or all whitespace |
| PyText.LStrip | backend/main.py:110 | `lstrip` removes exactly the leading whitespace |
| PyText.RStrip | backend/main.py:110 | `rstrip` removes exactly the trailing whitespace |
| PyText.DecimalRoundTrip | backend/main.py:108 | The page number written into a marker reads back as that number |
| PyText.DigitChar | backend/main.py:108 | Each digit character denotes its digit |
| PyText.Prefix | backend/main.py:195 | `context[:2000]` has length `min(2000, len(context))` and is a prefix of the context |
| PyText.JoinLength | backend/main.py:193 | `sep.join(parts)` is as long as the parts plus one separator per gap |
| PyText.JoinPartAt | backend/main.py:193 | Each part appears verbatim at its offset in the joined string, followed by the separator unless it is the last |
| Ask.AskQuestion | backend/main.py:165-201 | A missing or empty filename gets the "No PDF filename" answer with no call, and only such a request gets that answer. At most two calls are made: first the embedding of the question; a second call is the search with that embedding, filtered by the given filename. Nothing is embedded as a document or written |
| Ask.NoResultsExactly | backend/main.py:188-189 | "No relevant information" is the answer exactly when a filename was given, embedding and search succeeded, and the search found nothing |
| Ask.AnswerFromHits | backend/main.py:191-197 | With hits, the answer formats their context. `sources_found` is the number of hits and `context_length` the full context length |
| Ask.AnswerQuotesContext | backend/main.py:195 | The answer starts with the preamble. A context of at most 2000 characters is quoted whole; a longer one is cut to 2000 characters followed by "...". The ellipsis is present exactly when the context exceeds 2000 characters. The answer is never longer than the preamble plus 2003 characters |
| Ask.ContextHoldsHits | backend/main.py:192-193 | Each hit's text appears verbatim in the context, in search order, at its offset. The context's length is the texts' total plus two characters per gap |
| Ask.AskErrors | backend/main.py:175-201 | Once a filename is given, the answer is an error body exactly when the query embedding or the search raised, and it carries `Error processing query: <error>` with that exception's text |

## Left out

- The PDF reader is not modelled. `PdfReader` and `page.extract_text()` are the `readPdf` service: a list of page texts, or the error they raise. A page whose text is `None` is given as `""`, which the `if page_text` test treats the same way.
- The text splitter's algorithm is not modelled. `RecursiveCharacterTextSplitter` with chunk size 800, overlap 100 and its separators is the `split` service. Only its result matters to the handler: the chunk list, empty or not.
- The embedding provider and the vector database are not modelled. The OpenAI embeddings and the Qdrant client are services. The search's `limit=5`, `score_threshold=0.1` and the filename filter are the database's business: the model records the filename passed to `search`, not which points it returns.
- Point identifiers are not modelled. The `uuid4` of each point is random.
- Vectors are an opaque type.
- `await file.read()` is modelled as always succeeding. The uploaded bytes are a field of the request.
- A multipart upload without a filename is not modelled. The filename is a string.
- Web framework details are not modelled: routing, CORS, async scheduling and the HTTP status. Every body is returned with status 200.
- The `print` logging is not modelled.
- Startup and the other endpoints are not modelled: collection setup and clearing, `/health` and `/`. They are outside this model.
- A search hit whose payload is `None` is not modelled. `hit.payload.get` would raise and be caught as an error. A hit's `"text"` entry is modelled as present or absent.
- An embedding provider that returns fewer vectors than texts is not ruled out. The `zip` truncation it causes is modelled, and `SuccessfulUpload` states the resulting count. Only `EveryChunkStored` assumes one vector per text.
- Text holding lone surrogates is not modelled. A Python `str` may hold code points U+D800 to U+DFFF, which a Dafny `char` cannot; `len(text)` (line 156) and `context[:2000]` (line 195) are modelled for text without them.
- A splitter that raises is not modelled. `split` is a total function, so the catch-all reply to an exception from `split_text` (lines 120 and 160-162) is not represented; the reader, the embedder and the database may raise.
- Services that answer differently to the same request are not modelled. Each service is a function, so two identical requests always get the same outcome; a one-time failure of the second of two identical embedding batches, for instance, cannot be represented.
