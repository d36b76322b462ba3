/** The data the OCR.space node works on: workflow items with their JSON
    fields and binary attachments, the node's per-item parameters, the
    multipart form it uploads, the service's reply, and the records and
    errors it produces. */
module OcrTypes {
  import opened Wrappers

  newtype byte = x: int | 0 <= x < 256

  /** Defaults of the node's parameters. */
  const DefaultBinaryPropertyName: string := "data"
  const DefaultLanguage: string := "auto"
  const DefaultEngine: string := "2"

  /** The one endpoint every request is posted to, with the credential
      type the host authenticates it with. */
  const Endpoint: string := "https://api.ocr.space/parse/image"
  const HttpPost: string := "POST"
  const CredentialType: string := "ocrSpaceApi"

  /** One attachment of an item (n8n's IBinaryData); `content` is the buffer
      the host hands out for it. */
  datatype BinaryData = BinaryData(
    content: seq<byte>,
    fileName: Option<string>,
    fileExtension: Option<string>,
    mimeType: string)

  /** One unit of workflow data: JSON fields and, possibly, named attachments. */
  datatype Item = Item(json: map<string, Value>, binary: Option<map<string, BinaryData>>)

  /** The "Additional Options" collection; an option the user did not add
      reads as false. */
  datatype Options = Options(
    detectOrientation: bool,
    isOverlayRequired: bool,
    scale: bool,
    isTable: bool)

  /** The node parameters as evaluated for one item. */
  datatype Params = Params(
    binaryPropertyName: string,
    language: string,
    ocrEngine: string,
    options: Options)

  const DefaultOptions: Options := Options(false, false, false, false)
  const DefaultParams: Params :=
    Params(DefaultBinaryPropertyName, DefaultLanguage, DefaultEngine, DefaultOptions)

  /** The value of one multipart field: a plain string, or the uploaded file. */
  datatype FormPart = Plain(text: string) | Upload(content: seq<byte>, fileName: string)

  /** The multipart form as the ordered list of fields appended to it. */
  type Form = seq<(string, FormPart)>

  /** One word of the service's text overlay. */
  datatype Word = Word(wordText: string, left: int, top: int, height: int, width: int)

  /** One line of the service's text overlay. */
  datatype Line = Line(lineText: string, words: seq<Word>, maxHeight: int, minTop: int)

  /** `TextOverlay` of a page; its `Lines` may be missing. */
  datatype Overlay = Overlay(lines: Option<seq<Line>>)

  /** One entry of `ParsedResults`. */
  datatype Page = Page(
    parsedText: Option<string>,
    textOrientation: Option<string>,
    fileParseExitCode: Option<int>,
    textOverlay: Option<Overlay>)

  /** The parsed body of the service's reply, with the fields the node reads.
      An `OCRExitCode` that is missing or not a number is `None`. */
  datatype Response = Response(
    ocrExitCode: Option<int>,
    errorMessage: Option<seq<string>>,
    parsedResults: Option<seq<Page>>,
    processingTimeInMilliseconds: Option<string>)

  /** The `ocrResults` object added to a successful item. */
  datatype OcrResults = OcrResults(
    fullResponse: Response,
    processingTimeInMilliseconds: Option<string>,
    textOrientation: Option<string>,
    fileParseExitCode: Option<int>)

  /** A value stored under a key of an item's JSON: the JSON values upstream
      steps produce, plus the two structured values this node writes. */
  datatype Value =
    | Undefined
    | Null
    | Bool(b: bool)
    | Number(n: int)
    | Str(s: string)
    | Array(elements: seq<Value>)
    | Object(fields: map<string, Value>)
    | Summary(results: OcrResults)
    | Lines(lines: seq<Line>)

  /** One output item: JSON fields, attachments and the index of the input
      item it came from (`pairedItem.item`). */
  datatype Record = Record(
    json: map<string, Value>,
    binary: Option<map<string, BinaryData>>,
    pairedItem: nat)

  /** The `context` of an n8n error; `itemIndex` is the one entry the node
      sets, the others are carried along. */
  datatype ErrorContext = ErrorContext(itemIndex: Option<nat>, details: map<string, Value>)

  /** Which kind of error object was thrown. */
  datatype ErrorKind =
    | OperationError        // NodeOperationError, thrown by the node itself
    | HostError(name: string) // anything the host's helpers throw

  /** A thrown error; `context` is `None` for a plain error without one. */
  datatype NodeError = NodeError(kind: ErrorKind, message: string, context: Option<ErrorContext>)

  /** What the authenticated HTTP call gives back: the parsed body, or the
      error it throws (network failure, non-2xx status, unreadable body). */
  datatype Reply = Received(response: Response) | Failed(error: NodeError)

  /** One upload the node asked the host to perform: the item it was made
      for, the credential type, the HTTP method and URL, and the form. */
  datatype Request = Request(itemIndex: nat, credential: string, httpMethod: string, url: string, form: Form)

  /** The authenticated POST of `form` to the endpoint, made for item `i`. */
  function PostForm(i: nat, form: Form): (r: Request)
    ensures r.itemIndex == i && r.form == form
    ensures r.credential == CredentialType && r.httpMethod == HttpPost && r.url == Endpoint
  {
    Request(i, CredentialType, HttpPost, Endpoint, form)
  }

  /** What a run returns: the output list, or the error that aborted it. */
  datatype Outcome = Completed(records: seq<Record>) | Aborted(error: NodeError)
}
