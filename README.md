# OCR.space node — a verified model of `execute`

This project models the `execute` method of the n8n OCR.space community node
(`nodes/OcrSpace/OcrSpace.node.ts`). For every input item the node:

- looks up the item's binary attachment under the configured property name;
- names the upload, falling back to `document_<i>.<extension or jpg>`;
- fills a multipart form with four fixed fields and up to four option flags;
- posts the form to the OCR.space API and checks the `OCRExitCode` embedded in the reply;
- on success, writes `extractedText`, `ocrResults` and, when asked, `wordCoordinates` into a copy of the item's JSON.

Across items, the node either turns each failure into an error record, when
"continue on fail" is set, or aborts the run at the first failure. The
aborting error carries the failing item's index.

The modules follow that structure:

- `Wrappers`: `Option` and `Result`.
- `JsText`: the JavaScript string operations the node relies on: `||` on an optional string, `Array.prototype.join`, `String.prototype.trim` (with the ECMAScript whitespace set), and the decimal rendering of an index in a template literal.
- `OcrTypes`: items, attachments, node parameters, the form, the service's reply, output records and errors.
- `OcrRequest`: attachment lookup, the missing-attachment error, the file name, and the form. `BuildForm` builds the form by successive appends, as the node does.
- `OcrResponse`: the exit-code check, the error message, the extracted text, the `ocrResults` summary, the word coordinates and the success record.
- `OcrNode`:
  - `ProcessItem`: the try block, statement by statement.
  - `Attempt`: its specification.
  - `Tagged`: the catch block's tagging of the error.
  - `Execute`: the loop over the items.

The host's calls are inputs of the model:

- `params(i)` is the node parameters as evaluated for item `i`.
- `replies(i)` is what the authenticated HTTP call gives back for item `i`'s upload: the parsed body, or the error it throws.
- The attachment's buffer is its `content` bytes.

`Execute` also returns the list of uploads it asked the host to perform. Each
upload records its item, the credential type `ocrSpaceApi`, the method `POST`,
the URL `https://api.ocr.space/parse/image` and the form. This list shows
which items reached the network and in what order.

Two facts about the code that the model keeps:

- When continue-on-fail is off and the caught error has a context, line 323 overwrites any `itemIndex` already in it with the current index (`OcrNode.Tagged`).
- Under continue-on-fail, lines 309-320 turn a missing attachment into an error record like any other error (`OcrNode.Execute`, `OcrNode.MissingBinaryFails`).

## Model

| member | source | states |
|---|---|---|
| `JsText.SkipLeading` | nodes/OcrSpace/OcrSpace.node.ts:282 | the position reached by skipping whitespace from `i`: everything skipped is whitespace, and it stops at a non-whitespace character or at the end |
| `JsText.SkipTrailing` | nodes/OcrSpace/OcrSpace.node.ts:282 | the position reached by skipping whitespace backwards from `j`, not past `lo`: everything skipped is whitespace, and it stops after a non-whitespace character or at `lo` |
| `JsText.Trim` | nodes/OcrSpace/OcrSpace.node.ts:282 | `trim()` gives a string that neither starts nor ends with whitespace and is no longer than its input |
| `JsText.TrimIsTrimOf` | nodes/OcrSpace/OcrSpace.node.ts:282 | the trimmed string is a contiguous slice of the input, and only whitespace lies before and after it |
| `JsText.TrimAtUnique` | nodes/OcrSpace/OcrSpace.node.ts:282 | two slices that are both trims of the same string are equal |
| `JsText.TrimOfUnique` | nodes/OcrSpace/OcrSpace.node.ts:282 | at most one string is a trim of a given string, so the slice characterisation determines `trim()` completely |
| `JsText.TrimIdempotent` | nodes/OcrSpace/OcrSpace.node.ts:282 | trimming an already trimmed string changes nothing |
| `JsText.JoinSplit` | nodes/OcrSpace/OcrSpace.node.ts:281 | `join` keeps the parts in order: splitting the list at any inner position splits the joined string at exactly one separator |
| `JsText.JoinLength` | nodes/OcrSpace/OcrSpace.node.ts:271 | a join's length is the sum of the parts' lengths plus one separator between each pair of neighbours |
| `JsText.JoinEmptyIff` | nodes/OcrSpace/OcrSpace.node.ts:271 | with a non-empty separator, a join is empty exactly when the list is empty or holds a single empty string |
| `JsText.NatToString` | nodes/OcrSpace/OcrSpace.node.ts:236 | how `${i}` renders an index: a non-empty run of decimal digits with no leading zero, except for 0 itself |
| `JsText.ParseNatToString` | nodes/OcrSpace/OcrSpace.node.ts:236 | reading the rendered digits back gives the index again |
| `JsText.NatToStringInjective` | nodes/OcrSpace/OcrSpace.node.ts:236 | different indices render differently |
| `OcrRequest.LookupBinary` | nodes/OcrSpace/OcrSpace.node.ts:227 | an attachment is found exactly when the item has attachments and one is stored under the name; it is that entry |
| `OcrRequest.MissingBinaryError` | nodes/OcrSpace/OcrSpace.node.ts:228-234 | the missing-attachment error is a NodeOperationError with message `No binary data found in property: <name>` and context `itemIndex = i` |
| `OcrRequest.FileName` | nodes/OcrSpace/OcrSpace.node.ts:236 | the upload name is the attachment's own name when it is non-empty, otherwise `document_<i>.<extension>`, with `jpg` replacing a missing or empty extension; it is never empty |
| `OcrRequest.FileNameDefaults` | nodes/OcrSpace/OcrSpace.node.ts:236-240 | an attachment with neither a name nor an extension is sent as `document_<i>.jpg`, with an empty `filetype` |
| `OcrRequest.DigitsThenDotDistinct` | nodes/OcrSpace/OcrSpace.node.ts:236 | a prefix, a digit run, a `.` and an extension: different digit runs always give different strings, whatever the extensions |
| `OcrRequest.SynthesizedNamesDistinct` | nodes/OcrSpace/OcrSpace.node.ts:236 | two different items never get the same synthesised name, whatever their extensions |
| `OcrRequest.RequestOf` | nodes/OcrSpace/OcrSpace.node.ts:227-255 | a form is built, and so a request is made, exactly when the attachment is found |
| `OcrRequest.BuildForm` | nodes/OcrSpace/OcrSpace.node.ts:238-255 | the form built by the successive `append` calls is the fixed fields followed by the flag fields of the set options |
| `OcrRequest.FormStartsWithFixedFields` | nodes/OcrSpace/OcrSpace.node.ts:238-242 | the form starts with `file` (the buffer under the chosen name), `filetype` (the extension or ""), `language` and `OCREngine`, in this order |
| `OcrRequest.FlagFieldsShape` | nodes/OcrSpace/OcrSpace.node.ts:244-255 | every flag field is one of the four options, sent as "true", and the flags appear in the order of the `if` statements |
| `OcrRequest.FormFlagsShape` | nodes/OcrSpace/OcrSpace.node.ts:244-255 | every field after the first four is an option sent as "true", and the options keep their relative order |
| `OcrRequest.KeyNamesDistinct` | nodes/OcrSpace/OcrSpace.node.ts:239-255 | the eight field names the node can append are pairwise different |
| `OcrRequest.KeysDistinctConcat` | nodes/OcrSpace/OcrSpace.node.ts:238-255 | fixed fields followed by flags in rank order never repeat a key |
| `OcrRequest.FormKeysDistinct` | nodes/OcrSpace/OcrSpace.node.ts:238-255 | no field name occurs twice in a form |
| `OcrRequest.FlagFieldsCount` | nodes/OcrSpace/OcrSpace.node.ts:244-255 | among the flag fields, each option occurs once when it is set and not at all otherwise |
| `OcrRequest.FormFlagCount` | nodes/OcrSpace/OcrSpace.node.ts:244-255 | in the whole form, each option occurs exactly once when it is set and not at all otherwise |
| `OcrRequest.FormFlagSentIffEnabled` | nodes/OcrSpace/OcrSpace.node.ts:244-255 | an option is sent as "true" exactly when it is set, and never as "false" |
| `OcrResponse.ErrorDetailCases` | nodes/OcrSpace/OcrSpace.node.ts:271 | the detail is the service's messages joined with ", "; it falls back to `Unknown OCR error` exactly when there is no list, the list is empty, or it holds a single empty message |
| `OcrResponse.ApiErrorMessage` | nodes/OcrSpace/OcrSpace.node.ts:270-275 | the message is `OCR.space API error: ` followed by the detail, and is longer than the prefix |
| `OcrResponse.ApiError` | nodes/OcrSpace/OcrSpace.node.ts:272-274 | the error for a failed exit code is a NodeOperationError with that message and context `itemIndex = i` |
| `OcrResponse.PageTexts` | nodes/OcrSpace/OcrSpace.node.ts:280 | one text per page |
| `OcrResponse.ExtractedTextTrimmed` | nodes/OcrSpace/OcrSpace.node.ts:278-282 | `extractedText` never starts or ends with whitespace, and is "" when `ParsedResults` is absent or empty |
| `OcrResponse.ExtractedTextIsTrimOfJoin` | nodes/OcrSpace/OcrSpace.node.ts:278-282 | `extractedText` is the page texts joined with "\n\n", with whitespace, and only whitespace, removed at both ends |
| `OcrResponse.ExtractedTextSinglePage` | nodes/OcrSpace/OcrSpace.node.ts:279-282 | with one page, the text is that page's `ParsedText` (missing counts as ""), trimmed |
| `OcrResponse.ExtractedTextPageOrder` | nodes/OcrSpace/OcrSpace.node.ts:279-282 | the text of the earlier pages comes first, then a blank line, then the text of the later pages |
| `OcrResponse.FirstPage` | nodes/OcrSpace/OcrSpace.node.ts:292-293 | `parsedResults[0]` exists exactly when there is a page, and is the first one |
| `OcrResponse.ResultsSummary` | nodes/OcrSpace/OcrSpace.node.ts:289-294 | `ocrResults` holds the whole response and its processing time; its orientation and parse exit code come from the first page only, and are undefined when there are no pages |
| `OcrResponse.WordCoordinates` | nodes/OcrSpace/OcrSpace.node.ts:303-305 | `wordCoordinates` is written exactly when the overlay was requested and the first page has a `TextOverlay`; its value is that overlay's `Lines`, undefined if missing |
| `OcrResponse.SuccessRecordShape` | nodes/OcrSpace/OcrSpace.node.ts:285-305 | the success record's JSON has exactly the input's keys plus `extractedText`, `ocrResults` and (when written) `wordCoordinates`; every other field is unchanged; the attachments pass through; the record is paired with item `i` |
| `OcrResponse.NoWordCoordinatesUnlessRequested` | nodes/OcrSpace/OcrSpace.node.ts:303-305 | without the overlay option, `wordCoordinates` is present in the output only if it was already in the input, and is then unchanged |
| `OcrResponse.Interpret` | nodes/OcrSpace/OcrSpace.node.ts:270-305 | the reply is accepted exactly when `OCRExitCode` is 1, an absent code included as a failure; it then gives the success record, and otherwise the API error for item `i` |
| `OcrNode.Attempt` | nodes/OcrSpace/OcrSpace.node.ts:216-307 | an item goes through exactly when it has the attachment, its upload got a reply, and the reply's exit code is 1 |
| `OcrNode.Tagged` | nodes/OcrSpace/OcrSpace.node.ts:321-328 | the rethrown error keeps the caught message and has `itemIndex = i`; an error with a context keeps its kind and its other context entries, and one without a context becomes a NodeOperationError |
| `OcrNode.OutputsAt` | nodes/OcrSpace/OcrSpace.node.ts:307-320 | the k-th record pushed is item k's record |
| `OcrNode.OutputsMeans` | nodes/OcrSpace/OcrSpace.node.ts:307-320 | every pushed record is its item's record and is paired with that item |
| `OcrNode.OutputsStep` | nodes/OcrSpace/OcrSpace.node.ts:307-320 | one more item pushes the success record, or under continue-on-fail the error record |
| `OcrNode.SentStep` | nodes/OcrSpace/OcrSpace.node.ts:227-267 | one more item adds its upload to the uploads made so far, if it has an attachment |
| `OcrNode.AllSucceedMeans` | nodes/OcrSpace/OcrSpace.node.ts:215-307 | the recursive "all items so far went through" is the same as going through for every single one |
| `OcrNode.ProcessItem` | nodes/OcrSpace/OcrSpace.node.ts:216-307 | the try block's statements produce what `Attempt` specifies, after making exactly the upload `RequestOf` describes |
| `OcrNode.Execute` | nodes/OcrSpace/OcrSpace.node.ts:209-334 | under continue-on-fail the run completes with one record per item, in input order, record `k` paired with item `k`, and every item that has the attachment uploaded, in item order. Without it, the run completes exactly when every item goes through; otherwise it aborts with the first failing item's error tagged with its index, and no item after it is uploaded |
| `OcrNode.OutputRecordShape` | nodes/OcrSpace/OcrSpace.node.ts:307-320 | every record is paired with its item and carries the item's attachments; a failed item's record is its JSON with `error` set to the message |
| `OcrNode.MissingBinaryFails` | nodes/OcrSpace/OcrSpace.node.ts:227-234 | an item without the attachment fails with the missing-attachment error for its index, and no request is made for it |
| `OcrNode.FailedExitCodeReported` | nodes/OcrSpace/OcrSpace.node.ts:270-275 | a reply whose exit code is not 1 makes the item fail with the API error; under continue-on-fail the record's `error` is that non-empty message |
| `OcrNode.TransportErrorPassedThrough` | nodes/OcrSpace/OcrSpace.node.ts:259-267 | an error thrown by the HTTP call is the item's error unchanged; under continue-on-fail the record's JSON is the item's JSON with `error` set to its message |
| `OcrNode.SucceededExitCode` | nodes/OcrSpace/OcrSpace.node.ts:270-307 | a reply with exit code 1 gives the success record |
| `OcrNode.UploadsLast` | nodes/OcrSpace/OcrSpace.node.ts:215-267 | the uploads of a list of items are those of all items but the last, followed by the last item's upload, if it has one |
| `OcrNode.UploadIsForm` | nodes/OcrSpace/OcrSpace.node.ts:215-267 | every upload made is the form of an item that has one, posted with `POST` to the OCR.space endpoint under the `ocrSpaceApi` credential |
| `OcrNode.UploadsIncreasing` | nodes/OcrSpace/OcrSpace.node.ts:215-267 | uploads are made in strictly increasing item order |
| `OcrNode.UploadsComplete` | nodes/OcrSpace/OcrSpace.node.ts:215-267 | every item with a form is uploaded |
| `OcrNode.SentIsOrdered` | nodes/OcrSpace/OcrSpace.node.ts:215-267 | the uploads of the first n items are, in increasing item order, exactly the forms of the items that have an attachment, each posted with `POST` to the OCR.space endpoint under the `ocrSpaceApi` credential |

## Left out

- The node description and the property-panel definitions (lines 12-207) are static UI configuration. Only the defaults are kept, as constants: `data` (line 37), `auto` (line 147) and engine `2` (line 166).
- The logger calls (lines 213, 257) have no effect on the result.
- `getNodeParameter` (lines 217-225) is the input `params(i)`. Its own errors are not modelled, and neither are values that are not of the declared type.
- `getBinaryDataBuffer` (line 235) is modelled as the attachment's `content` bytes. A failure of that call is not modelled.
- `httpRequestWithAuthentication` (lines 259-267), with its network, status and parsing errors, is the input `replies(i)`. The model records the form that is sent, but the reply does not depend on it.
- The `FormData` library's multipart encoding is a foreign library. Only the ordered list of appended fields is modelled.
- The reply is modelled as the datatype of the fields the node reads.
  - `ErrorMessage` is taken to be a list of strings. A reply with a plain string there would make `join` throw; that case is not modelled.
  - A `ParsedResults` entry that is not an object is not modelled.
  - An `OCRExitCode` that is not a number reads as absent. Either way it is a failure.
- `fullResponse` is kept as the reply datatype, not as open JSON. Numbers are integers.
- The order of keys in the JSON objects is not modelled; JSON objects are maps.
- Object-spread details beyond copying own keys are not modelled.
- `NodeOperationError` is modelled by its kind, message and context only. Wrapping an error without a context is assumed to keep its message. Stack, description and the node reference are not modelled.
- `continueOnFail()` is read as one flag for the whole run.
- `async`/`await` is not modelled: there is no concurrency, and the loop is sequential.
- credentials/OcrSpaceApi.credentials.ts is declarative configuration evaluated by the host, and is not part of this model.
- OcrResponse.NoWordCoordinatesUnlessRequested: this is weaker than "the key is absent otherwise". The spread at line 287 copies a `wordCoordinates` key that the input JSON already had, so the code only guarantees that the node itself does not write the key.
