/** The `/ask` handler (backend/main.py lines 165-201): the filename guard,
    the query embedding, the filtered search, and the answer it formats
    from the texts of the hits. */
module Ask {
  import opened Services
  import opened PyText

  /** The request body: the question and the optional filename to search in. */
  datatype Query = Query(question: string, filename: Option<string>)

  /** The three JSON bodies the handler returns (always with HTTP status 200). */
  datatype AskResponse =
    | ShortAnswer(answer: string, sourcesFound: nat)
    | FullAnswer(answer: string, sourcesFound: nat, contextLength: nat)
    | AskError(message: string)

  const NoFilenameMessage := "No PDF filename provided. " + "Upload a PDF first (frontend should pass filename)."
  const NoResultsMessage := "No relevant information found " + "in that PDF."
  const AnswerPrefix := "Based on the PDF content, " + "here's what I found:\n\n"
  const ContextSeparator := "\n\n"
  const ContextLimit: nat := 2000
  const Ellipsis := "..."

  /** The message of the handler's catch-all `except` clause. */
  function QueryError(e: string): string {
    "Error processing query: " + e
  }

  /** `hit.payload.get("text", "")`. */
  function HitText(hit: Hit): string {
    hit.text.GetOr("")
  }

  /** `"\n\n".join(hit texts)`, in search order. */
  function Context(hits: seq<Hit>): string {
    Join(ContextSeparator, seq(|hits|, k requires 0 <= k < |hits| => HitText(hits[k])))
  }

  /** The answer text: the fixed preamble, the first 2000 characters of the
      context, and "..." when the context was longer. */
  function FormatAnswer(context: string): string {
    AnswerPrefix + Prefix(context, ContextLimit) + (if |context| > ContextLimit then Ellipsis else "")
  }

  /** The handler: its response and the calls it makes, in order. A missing
      or empty filename is answered at once with "No PDF filename" and no
      source, and no other request gets that answer. Otherwise the question
      is embedded, then searched for with the requested filename as filter;
      either call may raise, which the catch-all clause turns into an error
      body. The handler never embeds documents nor writes points. */
  function AskQuestion<V>(env: Services<V>, query: Query): (r: (AskResponse, seq<Call<V>>))
    ensures r == (ShortAnswer(NoFilenameMessage, 0), []) <==> query.filename.None? || query.filename.value == ""
    ensures r.0 == ShortAnswer(NoFilenameMessage, 0) ==> query.filename.None? || query.filename.value == ""
    ensures |r.1| <= 2
    ensures |r.1| == 2 ==>
      && query.filename.Some?
      && env.embedQuery(query.question).Ok?
      && r.1[1] == Search(env.embedQuery(query.question).value, query.filename.value)
    ensures forall i :: 0 <= i < |r.1| ==> !r.1[i].EmbedDocuments? && !r.1[i].UpsertPoints?
    ensures r.1 != [] ==> r.1[0] == EmbedQuery(query.question)
    ensures forall i :: 0 <= i < |r.1| && r.1[i].Search? ==>
      query.filename.Some? && r.1[i].filename == query.filename.value
  {
    if query.filename.None? || query.filename.value == "" then (ShortAnswer(NoFilenameMessage, 0), [])
    else
      var filename := query.filename.value;
      match env.embedQuery(query.question)
      case Err(e) => (AskError(QueryError(e)), [EmbedQuery(query.question)])
      case Ok(vector) =>
        var calls := [EmbedQuery(query.question), Search(vector, filename)];
        match env.search(vector, filename)
        case Err(e) => (AskError(QueryError(e)), calls)
        case Ok(hits) =>
          if hits == [] then (ShortAnswer(NoResultsMessage, 0), calls)
          else
            var context := Context(hits);
            (FullAnswer(FormatAnswer(context), |hits|, |context|), calls)
  }

  /** The text of the answer after the preamble. */
  function AnswerBody(answer: string): string {
    if AnswerPrefix <= answer then answer[|AnswerPrefix|..] else answer
  }

  /** A context of at most 2000 characters is quoted whole, and can be read
      back from the answer; a longer one is cut to its first 2000
      characters, followed by "...". The answer is longer than the preamble
      plus 2000 characters exactly when the context was cut, and never
      exceeds the preamble plus 2003 characters. */
  lemma AnswerQuotesContext(context: string)
    ensures AnswerPrefix <= FormatAnswer(context)
    ensures |context| <= ContextLimit ==> AnswerBody(FormatAnswer(context)) == context
    ensures |context| > ContextLimit ==>
      AnswerBody(FormatAnswer(context)) == context[..ContextLimit] + Ellipsis
    ensures |FormatAnswer(context)| <= |AnswerPrefix| + ContextLimit + |Ellipsis|
    ensures |context| > ContextLimit <==> |FormatAnswer(context)| > |AnswerPrefix| + ContextLimit
  {
    var answer := FormatAnswer(context);
    var body := Prefix(context, ContextLimit) + (if |context| > ContextLimit then Ellipsis else "");
    assert answer == AnswerPrefix + body;
    assert answer[..|AnswerPrefix|] == AnswerPrefix;
    assert answer[|AnswerPrefix|..] == body;
  }

  /** The context holds each hit's text verbatim, in search order, one
      blank line between neighbours; its length is the texts' total length
      plus two characters per gap. */
  lemma ContextHoldsHits(hits: seq<Hit>, k: nat)
    requires k < |hits|
    ensures var parts := seq(|hits|, i requires 0 <= i < |hits| => HitText(hits[i]));
      && |Context(hits)| == TotalLength(parts) + 2 * (|hits| - 1)
      && JoinOffset(ContextSeparator, parts, k) + |HitText(hits[k])| <= |Context(hits)|
      && Context(hits)[JoinOffset(ContextSeparator, parts, k)..JoinOffset(ContextSeparator, parts, k) + |HitText(hits[k])|]
           == HitText(hits[k])
  {
    var parts := seq(|hits|, i requires 0 <= i < |hits| => HitText(hits[i]));
    JoinLength(ContextSeparator, parts);
    JoinPartAt(ContextSeparator, parts, k);
  }

  /** The "No relevant information" answer, with no source, is given exactly
      when a filename was given, embedding and search succeeded, and the
      search found nothing. */
  lemma NoResultsExactly<V>(env: Services<V>, query: Query)
    ensures AskQuestion(env, query).0 == ShortAnswer(NoResultsMessage, 0) <==>
      && query.filename.Some? && query.filename.value != ""
      && env.embedQuery(query.question).Ok?
      && env.search(env.embedQuery(query.question).value, query.filename.value) == Ok([])
  {
    assert NoFilenameMessage[3] == 'P' && NoResultsMessage[3] == 'r';
  }

  /** When the search finds hits, the answer quotes their context and
      reports one source per hit and the context's full length. */
  lemma AnswerFromHits<V>(env: Services<V>, query: Query, vector: V, hits: seq<Hit>)
    requires query.filename.Some? && query.filename.value != ""
    requires env.embedQuery(query.question) == Ok(vector)
    requires env.search(vector, query.filename.value) == Ok(hits)
    requires hits != []
    ensures AskQuestion(env, query).0.FullAnswer?
    ensures AskQuestion(env, query).0.sourcesFound == |hits|
    ensures AskQuestion(env, query).0.contextLength == |Context(hits)|
    ensures AskQuestion(env, query).0.answer == FormatAnswer(Context(hits))
  {
  }

  /** Every failure of the embedder or the search is reported as an error
      body carrying the exception's text, and only such a failure is. */
  lemma AskErrors<V>(env: Services<V>, query: Query)
    requires query.filename.Some? && query.filename.value != ""
    ensures AskQuestion(env, query).0.AskError? <==>
      || env.embedQuery(query.question).Err?
      || env.search(env.embedQuery(query.question).value, query.filename.value).Err?
    ensures env.embedQuery(query.question).Err? ==>
      AskQuestion(env, query).0 == AskError(QueryError(env.embedQuery(query.question).message))
    ensures env.embedQuery(query.question).Ok? && env.search(env.embedQuery(query.question).value, query.filename.value).Err? ==>
      AskQuestion(env, query).0 ==
        AskError(QueryError(env.search(env.embedQuery(query.question).value, query.filename.value).message))
  {
  }
}
