/** The node's `execute`: per item, look up the attachment, upload it, check
    the reply and build the output record; across items, either turn each
    failure into an error record (continue-on-fail) or abort the run at the
    first failure, tagged with the item's index. */
module OcrNode {
  import opened Wrappers
  import opened OcrTypes
  import opened OcrRequest
  import opened OcrResponse

  /** Item `i` goes through: it has an attachment under the configured
      name, the upload got a reply, and the reply's exit code is 1. */
  predicate Succeeds(i: nat, item: Item, p: Params, replies: nat -> Reply)
  {
    && LookupBinary(item, p.binaryPropertyName).Some?
    && replies(i).Received?
    && IsSuccess(replies(i).response)
  }

  /** The try block for item `i`: what it produces or the error it throws.
      `replies(i)` is what the host's authenticated HTTP call gives back for
      item `i`'s upload. */
  function Attempt(i: nat, item: Item, p: Params, replies: nat -> Reply): (r: Result<Record, NodeError>)
    ensures r.Ok? <==> Succeeds(i, item, p, replies)
  {
    match LookupBinary(item, p.binaryPropertyName)
    case None => Err(MissingBinaryError(p.binaryPropertyName, i))
    case Some(bin) =>
      match replies(i)
      case Failed(e) => Err(e)
      case Received(resp) => Interpret(i, item, p.options, resp)
  }

  /** The record continue-on-fail emits for a failed item: its JSON with
      `error` set to the message, its attachments, paired with item `i`. */
  function ErrorRecord(i: nat, item: Item, message: string): Record
  {
    Record(item.json["error" := Str(message)], item.binary, i)
  }

  /** The record emitted for item `i` under continue-on-fail. */
  function OutputRecord(i: nat, item: Item, p: Params, replies: nat -> Reply): Record
  {
    match Attempt(i, item, p, replies)
    case Ok(r) => r
    case Err(e) => ErrorRecord(i, item, e.message)
  }

  /** The error an aborted run throws: the caught error with its context's
      `itemIndex` set to `i` (other context entries kept), or, for an error
      without a context, a new NodeOperationError with the same message. */
  function Tagged(e: NodeError, i: nat): (r: NodeError)
    ensures r.message == e.message
    ensures r.context.Some? && r.context.value.itemIndex == Some(i)
    ensures e.context.Some? ==> r.kind == e.kind && r.context.value.details == e.context.value.details
    ensures e.context.None? ==> r.kind == OperationError
  {
    match e.context
    case Some(c) => e.(context := Some(c.(itemIndex := Some(i))))
    case None => NodeError(OperationError, e.message, Some(ErrorContext(Some(i), map[])))
  }

  /** The records emitted for items 0 .. n-1 under continue-on-fail. */
  function Outputs(items: seq<Item>, params: nat -> Params, replies: nat -> Reply, n: nat): (out: seq<Record>)
    requires n <= |items|
    ensures |out| == n
  {
    if n == 0 then [] else Outputs(items, params, replies, n - 1) + [OutputRecord(n - 1, items[n - 1], params(n - 1), replies)]
  }

  /** The k-th of the first n records is item k's record. */
  lemma {:induction false} OutputsAt(items: seq<Item>, params: nat -> Params, replies: nat -> Reply, n: nat, k: nat)
    requires k < n <= |items|
    ensures Outputs(items, params, replies, n)[k] == OutputRecord(k, items[k], params(k), replies)
  {
    if k < n - 1 {
      OutputsAt(items, params, replies, n - 1, k);
    }
  }

  /** Record k is item k's record, paired with item k. */
  lemma OutputsMeans(items: seq<Item>, params: nat -> Params, replies: nat -> Reply, n: nat)
    requires n <= |items|
    ensures var out := Outputs(items, params, replies, n);
      forall k :: 0 <= k < n ==> out[k] == OutputRecord(k, items[k], params(k), replies) && out[k].pairedItem == k
  {
    forall k | 0 <= k < n
      ensures Outputs(items, params, replies, n)[k] == OutputRecord(k, items[k], params(k), replies)
      ensures OutputRecord(k, items[k], params(k), replies).pairedItem == k
    {
      OutputsAt(items, params, replies, n, k);
      OutputRecordShape(k, items[k], params(k), replies);
    }
  }

  /** For each item, the form it is uploaded with, or None when it has no
      attachment and no request is made for it. */
  function Plan(items: seq<Item>, params: nat -> Params): (plan: seq<Option<Form>>)
    ensures |plan| == |items|
  {
    seq(|items|, k requires 0 <= k < |items| => RequestOf(k, items[k], params(k)))
  }

  /** The uploads a plan makes, in item order: one per item with a form. */
  function Uploads(plan: seq<Option<Form>>): seq<Request>
  {
    if plan == [] then []
    else
      var n := |plan| - 1;
      Uploads(plan[..n]) + (if plan[n].Some? then [PostForm(n, plan[n].value)] else [])
  }

  /** The uploads of items 0 .. n-1. */
  function Sent(items: seq<Item>, params: nat -> Params, n: nat): seq<Request>
    requires n <= |items|
  {
    Uploads(Plan(items, params)[..n])
  }

  /** One more item adds its upload, if it has one. */
  lemma SentStep(items: seq<Item>, params: nat -> Params, i: nat)
    requires i < |items|
    ensures Sent(items, params, i + 1) ==
      Sent(items, params, i) + match RequestOf(i, items[i], params(i))
        case None => []
        case Some(form) => [PostForm(i, form)]
  {
    assert Plan(items, params)[..i + 1][..i] == Plan(items, params)[..i];
  }

  /** One more item adds its record. */
  lemma OutputsStep(items: seq<Item>, params: nat -> Params, replies: nat -> Reply, i: nat,
                    result: Result<Record, NodeError>)
    requires i < |items|
    requires result == Attempt(i, items[i], params(i), replies)
    ensures Outputs(items, params, replies, i + 1) == Outputs(items, params, replies, i)
      + [if result.Ok? then result.value else ErrorRecord(i, items[i], result.error.message)]
  {
  }

  /** Items 0 .. n-1 all go through. */
  predicate AllSucceed(items: seq<Item>, params: nat -> Params, replies: nat -> Reply, n: nat)
    requires n <= |items|
  {
    n == 0 || (AllSucceed(items, params, replies, n - 1) && Succeeds(n - 1, items[n - 1], params(n - 1), replies))
  }

  /** `AllSucceed` says that every one of the first n items goes through. */
  lemma {:induction false} AllSucceedMeans(items: seq<Item>, params: nat -> Params, replies: nat -> Reply, n: nat)
    requires n <= |items|
    ensures AllSucceed(items, params, replies, n) <==>
      forall k :: 0 <= k < n ==> Succeeds(k, items[k], params(k), replies)
  {
    if n > 0 {
      AllSucceedMeans(items, params, replies, n - 1);
    }
  }

  /** Item `k` is the first one whose processing fails. */
  predicate FailsFirstAt(items: seq<Item>, params: nat -> Params, replies: nat -> Reply, k: nat)
  {
    && k < |items|
    && !Succeeds(k, items[k], params(k), replies)
    && forall j :: 0 <= j < k ==> Succeeds(j, items[j], params(j), replies)
  }

  /** The try block, statement by statement. `request` is the form handed to
      the host, if the block got that far. */
  method ProcessItem(i: nat, item: Item, p: Params, replies: nat -> Reply)
    returns (result: Result<Record, NodeError>, request: Option<Form>)
    ensures result == Attempt(i, item, p, replies)
    ensures request == RequestOf(i, item, p)
  {
    var binaryData := LookupBinary(item, p.binaryPropertyName);
    if binaryData.None? {
      return Err(MissingBinaryError(p.binaryPropertyName, i)), None;
    }
    var form := BuildForm(i, binaryData.value, p);
    request := Some(form);
    var reply := replies(i);
    if reply.Failed? {
      return Err(reply.error), request;
    }
    var response := reply.response;
    if response.ocrExitCode != Some(1) {
      return Err(ApiError(response, i)), request;
    }
    var json := item.json["extractedText" := Str(ExtractedText(response))];
    json := json["ocrResults" := Summary(ResultsSummary(response))];
    var first := FirstPage(response);
    if p.options.isOverlayRequired && first.Some? && first.value.textOverlay.Some? {
      var lines := first.value.textOverlay.value.lines;
      json := json["wordCoordinates" := if lines.Some? then Lines(lines.value) else Undefined];
    }
    result := Ok(Record(json, item.binary, i));
  }

  /** The loop over the items. `params(i)` is the node parameters evaluated
      for item `i`, `replies(i)` the host's reply to item `i`'s upload;
      `requests` lists the uploads made, in order. */
  method Execute(items: seq<Item>, params: nat -> Params, continueOnFail: bool, replies: nat -> Reply)
    returns (outcome: Outcome, requests: seq<Request>)
    ensures continueOnFail ==> outcome.Completed?
    ensures !continueOnFail ==>
      (outcome.Completed? <==> forall k :: 0 <= k < |items| ==> Succeeds(k, items[k], params(k), replies))
    ensures outcome.Completed? ==>
      && |outcome.records| == |items|
      && (forall k :: 0 <= k < |items| ==>
            outcome.records[k] == OutputRecord(k, items[k], params(k), replies)
            && outcome.records[k].pairedItem == k)
      && requests == Sent(items, params, |items|)
    ensures outcome.Aborted? ==> exists k: nat ::
      && FailsFirstAt(items, params, replies, k)
      && outcome.error == Tagged(Attempt(k, items[k], params(k), replies).error, k)
      && requests == Sent(items, params, k + 1)
  {
    var returnData: seq<Record> := [];
    requests := [];
    var i := 0;
    while i < |items|
      invariant 0 <= i <= |items|
      invariant |returnData| == i
      invariant returnData == Outputs(items, params, replies, i)
      invariant !continueOnFail ==> AllSucceed(items, params, replies, i)
      invariant requests == Sent(items, params, i)
    {
      var result, request := ProcessItem(i, items[i], params(i), replies);
      SentStep(items, params, i);
      if request.Some? {
        requests := requests + [PostForm(i, request.value)];
      }
      if result.Err? && !continueOnFail {
        AllSucceedMeans(items, params, replies, i);
        assert FailsFirstAt(items, params, replies, i);
        outcome := Aborted(Tagged(result.error, i));
        return;
      }
      var record := if result.Ok? then result.value else ErrorRecord(i, items[i], result.error.message);
      OutputsStep(items, params, replies, i, result);
      returnData := returnData + [record];
      i := i + 1;
    }
    OutputsMeans(items, params, replies, |items|);
    AllSucceedMeans(items, params, replies, |items|);
    outcome := Completed(returnData);
  }

  /** Every emitted record is paired with its item and carries the item's
      attachments; a failed item's record is its JSON plus `error`. */
  lemma OutputRecordShape(i: nat, item: Item, p: Params, replies: nat -> Reply)
    ensures var r := OutputRecord(i, item, p, replies);
      && r.pairedItem == i
      && r.binary == item.binary
      && (Attempt(i, item, p, replies).Err? ==>
            r.json == item.json["error" := Str(Attempt(i, item, p, replies).error.message)])
  {
    match LookupBinary(item, p.binaryPropertyName)
    case None =>
    case Some(bin) =>
      match replies(i)
      case Failed(e) =>
      case Received(resp) =>
        SuccessRecordShape(i, item, p.options, resp);
  }

  /** An item without an attachment under the configured name fails with
      the missing-binary error for its index, and no upload is made for it. */
  lemma MissingBinaryFails(i: nat, item: Item, p: Params, replies: nat -> Reply)
    requires item.binary.None? || p.binaryPropertyName !in item.binary.value
    ensures Attempt(i, item, p, replies)
      == Err(NodeError(OperationError, "No binary data found in property: " + p.binaryPropertyName,
                       Some(ErrorContext(Some(i), map[]))))
    ensures RequestOf(i, item, p).None?
  {
  }

  /** A reply whose exit code is not 1 makes the item fail with the API
      error; under continue-on-fail its record carries a non-empty `error`. */
  lemma FailedExitCodeReported(i: nat, item: Item, p: Params, replies: nat -> Reply, resp: Response)
    requires RequestOf(i, item, p).Some?
    requires replies(i) == Received(resp)
    requires resp.ocrExitCode != Some(1)
    ensures Attempt(i, item, p, replies) == Err(ApiError(resp, i))
    ensures var r := OutputRecord(i, item, p, replies);
      "error" in r.json && r.json["error"] == Str(ApiErrorMessage(resp)) && ApiErrorMessage(resp) != ""
  {
  }

  /** An error thrown by the HTTP call itself (network failure, non-2xx
      status, unreadable body) is the item's error as it is: under
      continue-on-fail its message becomes the record's `error`. */
  lemma TransportErrorPassedThrough(i: nat, item: Item, p: Params, replies: nat -> Reply, e: NodeError)
    requires RequestOf(i, item, p).Some?
    requires replies(i) == Failed(e)
    ensures Attempt(i, item, p, replies) == Err(e)
    ensures OutputRecord(i, item, p, replies).json == item.json["error" := Str(e.message)]
  {
  }

  /** A reply with exit code 1 gives the success record. */
  lemma SucceededExitCode(i: nat, item: Item, p: Params, replies: nat -> Reply, resp: Response)
    requires RequestOf(i, item, p).Some?
    requires replies(i) == Received(resp)
    requires resp.ocrExitCode == Some(1)
    ensures Attempt(i, item, p, replies) == Ok(SuccessRecord(i, item, p.options, resp))
  {
  }

  /** A plan's uploads without the last item's, and with it. */
  lemma UploadsLast(plan: seq<Option<Form>>)
    requires plan != []
    ensures var n := |plan| - 1;
      Uploads(plan) == Uploads(plan[..n]) + (if plan[n].Some? then [PostForm(n, plan[n].value)] else [])
  {
  }

  /** Every upload of a plan is an item's planned form, posted to the
      endpoint with the node's credential. */
  lemma {:induction false} UploadIsForm(plan: seq<Option<Form>>, a: nat)
    requires a < |Uploads(plan)|
    ensures var r := Uploads(plan)[a];
      && r.itemIndex < |plan| && plan[r.itemIndex] == Some(r.form)
      && r.credential == CredentialType && r.httpMethod == HttpPost && r.url == Endpoint
  {
    var n := |plan| - 1;
    var earlier := Uploads(plan[..n]);
    UploadsLast(plan);
    if a < |earlier| {
      UploadIsForm(plan[..n], a);
      assert Uploads(plan)[a] == earlier[a];
      assert plan[..n][earlier[a].itemIndex] == plan[earlier[a].itemIndex];
    }
  }

  /** A plan's uploads are in strictly increasing item order. */
  lemma {:induction false} UploadsIncreasing(plan: seq<Option<Form>>)
    ensures var s := Uploads(plan);
      forall a, b :: 0 <= a < b < |s| ==> s[a].itemIndex < s[b].itemIndex
  {
    if plan != [] {
      var n := |plan| - 1;
      var earlier := Uploads(plan[..n]);
      UploadsIncreasing(plan[..n]);
      UploadsLast(plan);
      var s := Uploads(plan);
      forall a, b | 0 <= a < b < |s|
        ensures s[a].itemIndex < s[b].itemIndex
      {
        assert s[a] == earlier[a];
        UploadIsForm(plan[..n], a);
        if b < |earlier| {
          assert s[b] == earlier[b];
        } else {
          assert s[b].itemIndex == n;
        }
      }
    }
  }

  /** Every item with a planned form is uploaded. */
  lemma {:induction false} UploadsComplete(plan: seq<Option<Form>>)
    ensures var s := Uploads(plan);
      forall k :: 0 <= k < |plan| && plan[k].Some? ==> exists a :: 0 <= a < |s| && s[a].itemIndex == k
  {
    if plan != [] {
      var n := |plan| - 1;
      var earlier := Uploads(plan[..n]);
      UploadsComplete(plan[..n]);
      UploadsLast(plan);
      var s := Uploads(plan);
      forall k | 0 <= k < |plan| && plan[k].Some?
        ensures exists a :: 0 <= a < |s| && s[a].itemIndex == k
      {
        if k == n {
          assert s[|s| - 1].itemIndex == k;
        } else {
          assert plan[..n][k] == plan[k];
          var a :| 0 <= a < |earlier| && earlier[a].itemIndex == k;
          assert s[a] == earlier[a];
        }
      }
    }
  }

  /** The uploads of the first n items are, in increasing item order, exactly
      the forms of the items that have an attachment, each an authenticated
      POST to the endpoint. */
  lemma SentIsOrdered(items: seq<Item>, params: nat -> Params, n: nat)
    requires n <= |items|
    ensures var s := Sent(items, params, n);
      && (forall a :: 0 <= a < |s| ==>
            s[a].itemIndex < n && RequestOf(s[a].itemIndex, items[s[a].itemIndex], params(s[a].itemIndex)) == Some(s[a].form))
      && (forall a :: 0 <= a < |s| ==>
            s[a].credential == CredentialType && s[a].httpMethod == HttpPost && s[a].url == Endpoint)
      && (forall a, b :: 0 <= a < b < |s| ==> s[a].itemIndex < s[b].itemIndex)
      && (forall k :: 0 <= k < n && RequestOf(k, items[k], params(k)).Some? ==>
            exists a :: 0 <= a < |s| && s[a].itemIndex == k)
  {
    var all := Plan(items, params);
    var plan := all[..n];
    UploadsIncreasing(plan);
    UploadsComplete(plan);
    var s := Uploads(plan);
    forall a | 0 <= a < |s|
      ensures s[a].itemIndex < n
      ensures RequestOf(s[a].itemIndex, items[s[a].itemIndex], params(s[a].itemIndex)) == Some(s[a].form)
      ensures s[a].credential == CredentialType && s[a].httpMethod == HttpPost && s[a].url == Endpoint
    {
      var k := s[a].itemIndex;
      UploadIsForm(plan, a);
      assert plan[k] == all[k] == RequestOf(k, items[k], params(k));
    }
    forall k | 0 <= k < n && RequestOf(k, items[k], params(k)).Some?
      ensures exists a :: 0 <= a < |s| && s[a].itemIndex == k
    {
      assert plan[k] == all[k] == RequestOf(k, items[k], params(k));
    }
  }
}
