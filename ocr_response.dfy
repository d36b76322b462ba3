/** Response interpretation: the embedded exit-code check, the error message,
    the extracted text, the `ocrResults` summary, the word coordinates and
    the output record of a successful item. */
module OcrResponse {
  import opened Wrappers
  import opened JsText
  import opened OcrTypes

  const ApiErrorPrefix: string := "OCR.space API error: "
  const UnknownOcrError: string := "Unknown OCR error"
  const PageSeparator: string := "\n\n"

  /** The service reports success inside a 200 body: `OCRExitCode` must be
      exactly 1; any other value, or none, is a failure. */
  predicate IsSuccess(resp: Response)
  {
    resp.ocrExitCode == Some(1)
  }

  /** `response.ErrorMessage?.join(', ') || 'Unknown OCR error'`. */
  function ErrorDetail(resp: Response): string
  {
    var joined := if resp.errorMessage.Some? then Some(Join(resp.errorMessage.value, ", ")) else None;
    OrElse(joined, UnknownOcrError)
  }

  /** The service's messages joined with ", ", or the fallback exactly when
      there are none: no list, an empty list, or one empty message. */
  lemma ErrorDetailCases(resp: Response)
    ensures resp.errorMessage.None? ==> ErrorDetail(resp) == UnknownOcrError
    ensures resp.errorMessage.Some? ==>
      var ms := resp.errorMessage.value;
      ErrorDetail(resp) == if ms == [] || ms == [""] then UnknownOcrError else Join(ms, ", ")
  {
    if resp.errorMessage.Some? {
      JoinEmptyIff(resp.errorMessage.value, ", ");
    }
  }

  /** The message of the error thrown for a failed exit code. */
  function ApiErrorMessage(resp: Response): (msg: string)
    ensures |msg| > |ApiErrorPrefix| && msg[..|ApiErrorPrefix|] == ApiErrorPrefix
    ensures msg[|ApiErrorPrefix|..] == ErrorDetail(resp)
  {
    ApiErrorPrefix + ErrorDetail(resp)
  }

  /** The error thrown for a failed exit code, tagged with the item index. */
  function ApiError(resp: Response, i: nat): (e: NodeError)
    ensures e.kind == OperationError && e.message == ApiErrorMessage(resp)
    ensures e.context == Some(ErrorContext(Some(i), map[]))
  {
    NodeError(OperationError, ApiErrorMessage(resp), Some(ErrorContext(Some(i), map[])))
  }

  /** `response.ParsedResults || []`. */
  function Pages(resp: Response): seq<Page>
  {
    if resp.parsedResults.Some? then resp.parsedResults.value else []
  }

  /** Each page's `ParsedText || ''`, in page order. */
  function PageTexts(pages: seq<Page>): (texts: seq<string>)
    ensures |texts| == |pages|
  {
    seq(|pages|, k requires 0 <= k < |pages| => OrElse(pages[k].parsedText, ""))
  }

  /** `extractedText`: the page texts joined with a blank line, trimmed. */
  function ExtractedText(resp: Response): string
  {
    Trim(Join(PageTexts(Pages(resp)), PageSeparator))
  }

  /** The text never starts or ends with whitespace, and is empty when the
      service returned no pages. */
  lemma ExtractedTextTrimmed(resp: Response)
    ensures IsTrimmed(ExtractedText(resp))
    ensures Pages(resp) == [] ==> ExtractedText(resp) == ""
  {
  }

  /** Only whitespace at both ends of the joined page texts is dropped. */
  lemma ExtractedTextIsTrimOfJoin(resp: Response)
    ensures IsTrimOf(Join(PageTexts(Pages(resp)), PageSeparator), ExtractedText(resp))
  {
    TrimIsTrimOf(Join(PageTexts(Pages(resp)), PageSeparator));
  }

  /** With a single page, the text is that page's text, trimmed. */
  lemma ExtractedTextSinglePage(resp: Response)
    requires |Pages(resp)| == 1
    ensures ExtractedText(resp) == Trim(OrElse(Pages(resp)[0].parsedText, ""))
  {
  }

  /** The pages before position k come first, then one blank line, then the
      pages from k on. */
  lemma ExtractedTextPageOrder(resp: Response, k: nat)
    requires 0 < k < |Pages(resp)|
    ensures var pages := Pages(resp);
      ExtractedText(resp)
      == Trim(Join(PageTexts(pages[..k]), PageSeparator) + PageSeparator
              + Join(PageTexts(pages[k..]), PageSeparator))
  {
    var pages := Pages(resp);
    var texts := PageTexts(pages);
    JoinSplit(texts, PageSeparator, k);
    assert texts[..k] == PageTexts(pages[..k]);
    assert texts[k..] == PageTexts(pages[k..]);
  }

  /** `parsedResults[0]`, if there is one. */
  function FirstPage(resp: Response): (r: Option<Page>)
    ensures r.Some? <==> |Pages(resp)| > 0
    ensures r.Some? ==> r.value == Pages(resp)[0]
  {
    if |Pages(resp)| > 0 then Some(Pages(resp)[0]) else None
  }

  /** The `ocrResults` object: the whole response, its processing time, and
      the orientation and parse exit code of the first page only. */
  function ResultsSummary(resp: Response): (r: OcrResults)
    ensures r.fullResponse == resp
    ensures r.processingTimeInMilliseconds == resp.processingTimeInMilliseconds
    ensures Pages(resp) == [] ==> r.textOrientation.None? && r.fileParseExitCode.None?
    ensures Pages(resp) != [] ==>
      r.textOrientation == Pages(resp)[0].textOrientation
      && r.fileParseExitCode == Pages(resp)[0].fileParseExitCode
  {
    var first := FirstPage(resp);
    OcrResults(
      resp,
      resp.processingTimeInMilliseconds,
      if first.Some? then first.value.textOrientation else None,
      if first.Some? then first.value.fileParseExitCode else None)
  }

  /** The value written to `wordCoordinates`, if that key is written at all:
      only when the overlay was requested and the first page has one. */
  function WordCoordinates(opts: Options, resp: Response): (r: Option<Value>)
    ensures r.Some? <==>
      opts.isOverlayRequired && Pages(resp) != [] && Pages(resp)[0].textOverlay.Some?
    ensures r.Some? ==>
      var lines := Pages(resp)[0].textOverlay.value.lines;
      r.value == if lines.Some? then Lines(lines.value) else Undefined
  {
    var first := FirstPage(resp);
    if opts.isOverlayRequired && first.Some? && first.value.textOverlay.Some? then
      var lines := first.value.textOverlay.value.lines;
      Some(if lines.Some? then Lines(lines.value) else Undefined)
    else None
  }

  /** The keys a successful item gets added or overwritten. */
  function AddedKeys(opts: Options, resp: Response): set<string>
  {
    {"extractedText", "ocrResults"} + (if WordCoordinates(opts, resp).Some? then {"wordCoordinates"} else {})
  }

  /** The output record of a successful item `i`. */
  function SuccessRecord(i: nat, item: Item, opts: Options, resp: Response): Record
  {
    var json := item.json["extractedText" := Str(ExtractedText(resp))]
                         ["ocrResults" := Summary(ResultsSummary(resp))];
    var coords := WordCoordinates(opts, resp);
    Record(if coords.Some? then json["wordCoordinates" := coords.value] else json, item.binary, i)
  }

  /** The success record is the item's JSON with exactly the added keys
      written, every other field and the attachments unchanged, and the
      record paired with item `i`. */
  lemma SuccessRecordShape(i: nat, item: Item, opts: Options, resp: Response)
    ensures var r := SuccessRecord(i, item, opts, resp);
      && r.pairedItem == i
      && r.binary == item.binary
      && r.json.Keys == item.json.Keys + AddedKeys(opts, resp)
      && r.json["extractedText"] == Str(ExtractedText(resp))
      && r.json["ocrResults"] == Summary(ResultsSummary(resp))
      && (WordCoordinates(opts, resp).Some? ==>
            r.json["wordCoordinates"] == WordCoordinates(opts, resp).value)
      && (forall k :: k in item.json && k !in AddedKeys(opts, resp) ==> r.json[k] == item.json[k])
  {
  }

  /** When the overlay is not requested, `wordCoordinates` is not written,
      even if the service returned overlay data. */
  lemma NoWordCoordinatesUnlessRequested(i: nat, item: Item, opts: Options, resp: Response)
    requires !opts.isOverlayRequired
    ensures var r := SuccessRecord(i, item, opts, resp);
      ("wordCoordinates" in r.json <==> "wordCoordinates" in item.json)
      && ("wordCoordinates" in item.json ==> r.json["wordCoordinates"] == item.json["wordCoordinates"])
  {
  }

  /** The response check and, on success, the output record. */
  function Interpret(i: nat, item: Item, opts: Options, resp: Response): (r: Result<Record, NodeError>)
    ensures r.Ok? <==> IsSuccess(resp)
    ensures r.Ok? ==> r.value == SuccessRecord(i, item, opts, resp)
    ensures r.Err? ==> r.error == ApiError(resp, i)
  {
    if !IsSuccess(resp) then Err(ApiError(resp, i)) else Ok(SuccessRecord(i, item, opts, resp))
  }
}
