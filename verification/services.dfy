/** The values the two request handlers exchange with the services they
    call: the PDF reader, the text splitter, the embedding provider and the
    vector database. Each service is a function the handler is given, and
    each call that leaves the process is recorded as a `Call`, so a model of
    a handler can say which calls it made and in what order. */
module Services {

  datatype Option<+T> = None | Some(value: T) {
    function GetOr(default: T): T {
      match this
      case Some(v) => v
      case None => default
    }
  }

  /** One byte of an uploaded file. */
  newtype Byte = b: int | 0 <= b < 256

  /** The outcome of a call that may raise; `Err` carries `str(e)`. */
  datatype Result<+T> = Ok(value: T) | Err(message: string)

  /** The payload stored with each vector (backend/main.py line 140). */
  datatype Payload = Payload(text: string, filename: string, chunkIndex: nat)

  /** A point sent to the vector database. Its `uuid4` identifier is not
      modelled; `V` is the embedding vector, kept opaque. */
  datatype Point<V> = Point(vector: V, payload: Payload)

  /** One search hit; `text` is the payload's `"text"` entry, if it has one. */
  datatype Hit = Hit(text: Option<string>)

  /** A call into code outside the handlers: the PDF reader, the text
      splitter, the embedding provider or the vector database. */
  datatype Call<V> =
    | ReadPdf(contents: seq<Byte>)
    | SplitText(text: string)
    | EmbedDocuments(texts: seq<string>)
    | UpsertPoints(points: seq<Point<V>>)
    | EmbedQuery(question: string)
    | Search(vector: V, filename: string)

  /** The services the handlers depend on, each as the function it computes.
      `readPdf` gives `page.extract_text()` for each page of
      `PdfReader(io.BytesIO(contents))`, in page order, with a missing text
      read as "", or the error either of them raises; `split` is
      `RecursiveCharacterTextSplitter.split_text` with the handler's
      settings; `upsert` yields the error text when the database call raises
      and `None` when it succeeds. */
  datatype Services<!V> = Services(
    readPdf: seq<Byte> -> Result<seq<string>>,
    split: string -> seq<string>,
    embedDocuments: seq<string> -> Result<seq<V>>,
    upsert: seq<Point<V>> -> Option<string>,
    embedQuery: string -> Result<V>,
    search: (V, string) -> Result<seq<Hit>>)
}
