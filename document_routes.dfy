/** The logic of the HTTP routes: the checks an upload must pass, the
    progress reported for a status, the element lookup behind the grounding
    route, and the application of human corrections to a stored result.
    Routing, file saving, background tasks and image cropping are left to the
    caller; what they produce enters as parameters. */
module DocumentRoutes {
  import opened Wrappers
  import opened Strings
  import opened Json
  import opened Document
  import opened Storage
  import opened DocumentProcessor

  /** A route's answer: its body, or the HTTP error it raises. */
  datatype Response<T> = Success(body: T) | HttpError(code: int, detail: string)

  // ---------------------------------------------------------------------
  // Upload checks
  // ---------------------------------------------------------------------

  /** `MAX_FILE_SIZE` when the variable is not set. */
  const DefaultMaxFileSize: int := 50000000

  /** Why an upload is refused, checked in this order. */
  datatype UploadRefusal = NoFile | UnsupportedFormat | TooLarge(maxSize: int)

  /** The checks at the top of `upload_document`. A missing or empty
      filename is refused first, then a filename whose extension is not
      supported; the size is checked only when it is known and not zero. */
  function CheckUpload(filename: Option<string>, size: Option<int>, maxSize: int): (r: Option<UploadRefusal>)
    ensures r == Some(NoFile) <==> filename.None? || filename.value == ""
    ensures r == Some(UnsupportedFormat) <==>
              filename.Some? && filename.value != "" && !IsSupportedFormat(filename.value)
    ensures r.Some? && r.value.TooLarge? ==> r.value.maxSize == maxSize
    ensures r.Some? && r.value.TooLarge? <==>
              && filename.Some? && filename.value != "" && IsSupportedFormat(filename.value)
              && size.Some? && size.value != 0 && size.value > maxSize
  {
    if filename.None? || filename.value == "" then Some(NoFile)
    else if !IsSupportedFormat(filename.value) then Some(UnsupportedFormat)
    else if size.Some? && size.value != 0 && size.value > maxSize then Some(TooLarge(maxSize))
    else None
  }

  /** The 400 error detail of a refusal; the size limit is shown in
      megabytes, whose formatting as a Python float is left to `megabytes`. */
  function RefusalDetail(refusal: UploadRefusal, megabytes: real -> string): string {
    match refusal
    case NoFile => "No file provided"
    case UnsupportedFormat => "Unsupported file format. Supported: PDF, PNG, JPEG"
    case TooLarge(maxSize) => "File too large. Maximum size: " + megabytes(maxSize as real / 1000000.0) + "MB"
  }

  /** An upload with a supported name and no size over the limit passes, and
      an empty file passes whatever the limit. */
  lemma UploadAccepted(filename: string, size: Option<int>, maxSize: int)
    requires filename != "" && IsSupportedFormat(filename)
    requires size.None? || size.value == 0 || size.value <= maxSize
    ensures CheckUpload(Some(filename), size, maxSize).None?
  {
  }

  // ---------------------------------------------------------------------
  // Status
  // ---------------------------------------------------------------------

  /** `progress_map`. */
  const ProgressMap: map<string, int> := map[
    "pending" := 0, "parsing" := 20, "structuring" := 40, "validating" := 60,
    "highlighting" := 80, "storing" := 90, "completed" := 100, "failed" := 0]

  /** `progress_map.get(result.status.value, 0)`. */
  function Progress(status: ProcessingStatus): (p: int)
    ensures 0 <= p <= 100
    ensures p == 100 <==> status == Completed
    ensures status == Failed || status == Pending ==> p == 0
  {
    var key := StatusValue(status);
    if key in ProgressMap then ProgressMap[key] else 0
  }

  /** The keys of `progress_map` are exactly the status values, so the
      default of `.get` never applies to a stored status. */
  lemma ProgressMapCoversStatuses()
    ensures forall v :: v in ProgressMap <==> StatusFromValue(v).Some?
    ensures forall s :: StatusValue(s) in ProgressMap
  {
    forall s: ProcessingStatus ensures StatusValue(s) in ProgressMap {
      StatusValueBijective(s, StatusValue(s));
    }
  }

  /** Progress rises strictly along the stages of a run, from pending to
      completed. */
  lemma ProgressAlongStages()
    ensures var order := [Pending, Parsing, Structuring, Validating, Highlighting, Storing, Completed];
      forall i, j :: 0 <= i < j < |order| ==> Progress(order[i]) < Progress(order[j])
  {
    var order := [Pending, Parsing, Structuring, Validating, Highlighting, Storing, Completed];
    assert Progress(Pending) == 0 && Progress(Parsing) == 20 && Progress(Structuring) == 40;
    assert Progress(Validating) == 60 && Progress(Highlighting) == 80 && Progress(Storing) == 90;
  }

  /** The `StatusResponse` for a stored result. */
  function StatusOf(transactionId: string, result: ProcessingResult): (r: StatusResponse)
    ensures r.transactionId == transactionId && r.status == result.status && r.error == result.errorMessage
    ensures r.progress == Progress(result.status) as real
    ensures r.message.Some? <==> result.processingLog != []
    ensures r.message.Some? ==> r.message.value == result.processingLog[|result.processingLog| - 1]
  {
    StatusResponse(transactionId, result.status, Progress(result.status) as real,
                   if result.processingLog != [] then Some(result.processingLog[|result.processingLog| - 1]) else None,
                   result.errorMessage)
  }

  /** `get_processing_status(transaction_id)`: 404 for an unknown id. */
  method GetProcessingStatus(store: InMemoryStorage, transactionId: string) returns (r: Response<StatusResponse>)
    ensures transactionId !in store.results <==> r == HttpError(404, "Transaction not found")
    ensures transactionId in store.results ==> r == Success(StatusOf(transactionId, store.results[transactionId]))
  {
    var result := store.GetResult(transactionId);
    if result.None? {
      return HttpError(404, "Transaction not found");
    }
    return Success(StatusOf(transactionId, result.value));
  }

  // ---------------------------------------------------------------------
  // Visual grounding
  // ---------------------------------------------------------------------

  /** The index of the first element with id `id`, as a loop with `break`
      finds it. */
  function FirstIndex(els: seq<ExtractedElement>, id: string): (r: Option<nat>)
    ensures r.Some? ==> r.value < |els| && els[r.value].id == id
    ensures r.Some? ==> forall k :: 0 <= k < r.value ==> els[k].id != id
    ensures r.None? ==> forall k :: 0 <= k < |els| ==> els[k].id != id
  {
    if els == [] then None
    else if els[0].id == id then Some(0)
    else
      var rest := FirstIndex(els[1..], id);
      if rest.None? then None else Some(rest.value + 1)
  }

  /** `str(element.content)`: a string content is itself, a dictionary goes
      through `repr`. */
  function ContentText(c: Content, repr: map<string, Json> -> string): string {
    match c
    case Text(s) => s
    case Structured(m) => repr(m)
  }

  predicate ContentTruthy(c: Content) {
    match c
    case Text(s) => s != ""
    case Structured(m) => m != map[]
  }

  /** The `GroundingResponse` of an element: its page and box, the cropped
      image, and up to 200 characters of its content when it has any. */
  function GroundingOf(chunkId: string, e: ExtractedElement, croppedImage: Option<string>,
                       repr: map<string, Json> -> string): (r: GroundingResponse)
    ensures r.chunkId == chunkId && r.pageNumber == e.grounding.pageNumber && r.boundingBox == e.grounding.boundingBox
    ensures r.croppedImageBase64 == croppedImage
    ensures r.context.Some? <==> ContentTruthy(e.content)
    ensures r.context.Some? ==>
              && |r.context.value| == (if |ContentText(e.content, repr)| < 200 then |ContentText(e.content, repr)| else 200)
              && r.context.value == ContentText(e.content, repr)[..|r.context.value|]
  {
    GroundingResponse(chunkId, e.grounding.pageNumber, e.grounding.boundingBox, croppedImage,
                      if ContentTruthy(e.content) then Some(Take(ContentText(e.content, repr), 200)) else None)
  }

  /** `get_visual_grounding(chunk_id, transaction_id)`. `originalFile` says
      whether a stored upload whose name starts with the transaction id was
      found, and `croppedImage` is what cropping it returns. */
  method GetVisualGrounding(store: InMemoryStorage, chunkId: string, transactionId: string, originalFile: bool,
                            croppedImage: Option<string>, repr: map<string, Json> -> string)
    returns (r: Response<GroundingResponse>)
    ensures transactionId !in store.results ==> r == HttpError(404, "Transaction not found")
    ensures transactionId in store.results ==>
              var els := store.results[transactionId].extractedElements;
              if FirstIndex(els, chunkId).None? then r == HttpError(404, "Element not found")
              else if !originalFile then r == HttpError(404, "Original file not found")
              else r == Success(GroundingOf(chunkId, els[FirstIndex(els, chunkId).value], croppedImage, repr))
  {
    var result := store.GetResult(transactionId);
    if result.None? {
      return HttpError(404, "Transaction not found");
    }
    var els := result.value.extractedElements;
    var element: Option<ExtractedElement> := None;
    var i := 0;
    while i < |els|
      invariant 0 <= i <= |els|
      invariant forall k :: 0 <= k < i ==> els[k].id != chunkId
      invariant element.None?
    {
      if els[i].id == chunkId {
        element := Some(els[i]);
        break;
      }
      i := i + 1;
    }
    if element.None? {
      return HttpError(404, "Element not found");
    }
    if !originalFile {
      return HttpError(404, "Original file not found");
    }
    return Success(GroundingOf(chunkId, element.value, croppedImage, repr));
  }

  // ---------------------------------------------------------------------
  // Corrections
  // ---------------------------------------------------------------------

  predicate CorrectionsTruthy(e: ExtractedElement) {
    e.corrections.Some? && e.corrections.value != map[]
  }

  /** One element after a correction at time `now`: the first correction of
      an element backs up its content under `original_content`; the content
      is replaced, the type only by a non-empty `corrected_type`, the time and
      notes are recorded and the element counts as validated. */
  function Corrected(e: ExtractedElement, c: CorrectionRequest, now: Timestamp): (r: ExtractedElement)
    ensures r.id == e.id && r.content == c.correctedContent && r.validated
    ensures r.kind == if c.correctedType.Some? && c.correctedType.value != "" then c.correctedType.value else e.kind
    ensures r == e.(content := r.content, kind := r.kind, validated := true, corrections := r.corrections)
    ensures r.corrections.Some? && "corrected_at" in r.corrections.value && "notes" in r.corrections.value
    ensures r.corrections.value["corrected_at"] == JStr(now) && r.corrections.value["notes"] == OptionToJson(c.notes)
    ensures !CorrectionsTruthy(e) ==>
              "original_content" in r.corrections.value && r.corrections.value["original_content"] == ContentToJson(e.content)
    ensures CorrectionsTruthy(e) ==> forall k :: k in e.corrections.value && k != "corrected_at" && k != "notes" ==>
              k in r.corrections.value && r.corrections.value[k] == e.corrections.value[k]
  {
    var backup := if CorrectionsTruthy(e) then e.corrections.value else map["original_content" := ContentToJson(e.content)];
    e.(content := c.correctedContent,
       kind := if c.correctedType.Some? && c.correctedType.value != "" then c.correctedType.value else e.kind,
       corrections := Some(backup["corrected_at" := JStr(now)]["notes" := OptionToJson(c.notes)]),
       validated := true)
  }

  /** However often an element is corrected, `original_content` keeps the
      content from before the first correction. */
  lemma BackupKeptAcrossCorrections(e: ExtractedElement, c1: CorrectionRequest, c2: CorrectionRequest,
                                    t1: Timestamp, t2: Timestamp)
    requires !CorrectionsTruthy(e)
    ensures var twice := Corrected(Corrected(e, c1, t1), c2, t2);
      "original_content" in twice.corrections.value
      && twice.corrections.value["original_content"] == ContentToJson(e.content)
  {
    var once := Corrected(e, c1, t1);
    assert "corrected_at" in once.corrections.value;
    assert CorrectionsTruthy(once);
  }

  /** The elements after the corrections so far and how many matched. */
  datatype CorrectionRun = CorrectionRun(elements: seq<ExtractedElement>, applied: nat)

  /** The correction loop: each correction edits the first element with its
      id, if any. */
  function ApplyCorrections(els: seq<ExtractedElement>, cs: seq<CorrectionRequest>, now: Timestamp): (r: CorrectionRun)
    ensures |r.elements| == |els|
  {
    if cs == [] then CorrectionRun(els, 0)
    else CorrectionStep(ApplyCorrections(els, cs[..|cs| - 1], now), cs[|cs| - 1], now)
  }

  /** One correction: the first element with its id is edited and counted. */
  function CorrectionStep(prev: CorrectionRun, c: CorrectionRequest, now: Timestamp): (r: CorrectionRun)
    ensures |r.elements| == |prev.elements|
  {
    match FirstIndex(prev.elements, c.elementId)
    case None => prev
    case Some(i) => CorrectionRun(prev.elements[i := Corrected(prev.elements[i], c, now)], prev.applied + 1)
  }

  lemma FirstIndexOfIds(a: seq<ExtractedElement>, b: seq<ExtractedElement>, id: string)
    requires Ids(a) == Ids(b)
    ensures FirstIndex(a, id) == FirstIndex(b, id)
  {
    assert |a| == |Ids(a)| == |Ids(b)| == |b|;
    assert forall k :: 0 <= k < |a| ==> a[k].id == Ids(a)[k] == Ids(b)[k] == b[k].id;
  }

  /** The number of corrections whose id some element has. */
  function Matching(els: seq<ExtractedElement>, cs: seq<CorrectionRequest>): nat {
    if cs == [] then 0
    else Matching(els, cs[..|cs| - 1]) + if FirstIndex(els, cs[|cs| - 1].elementId).Some? then 1 else 0
  }

  /** Corrections keep every element's id and position, and the count they
      report is the number of corrections that name an existing element. */
  lemma {:induction false} CorrectionsKeepIds(els: seq<ExtractedElement>, cs: seq<CorrectionRequest>, now: Timestamp)
    ensures Ids(ApplyCorrections(els, cs, now).elements) == Ids(els)
    ensures ApplyCorrections(els, cs, now).applied == Matching(els, cs)
  {
    if cs != [] {
      var pre := cs[..|cs| - 1];
      CorrectionsKeepIds(els, pre, now);
      var prev := ApplyCorrections(els, pre, now);
      var c := cs[|cs| - 1];
      FirstIndexOfIds(prev.elements, els, c.elementId);
      var r := ApplyCorrections(els, cs, now);
      assert Ids(r.elements) == Ids(els) by {
        assert forall k :: 0 <= k < |r.elements| ==> r.elements[k].id == prev.elements[k].id;
      }
    }
  }

  /** A correction naming no element changes nothing, and one naming an
      element changes that element's first occurrence only. */
  lemma OneCorrection(els: seq<ExtractedElement>, cs: seq<CorrectionRequest>, c: CorrectionRequest, now: Timestamp)
    ensures var prev := ApplyCorrections(els, cs, now); var r := ApplyCorrections(els, cs + [c], now);
      && (FirstIndex(els, c.elementId).None? ==> r == prev)
      && (FirstIndex(els, c.elementId).Some? ==>
            var i := FirstIndex(els, c.elementId).value;
            && r.elements[i] == Corrected(prev.elements[i], c, now)
            && forall k :: 0 <= k < |els| && k != i ==> r.elements[k] == prev.elements[k])
  {
    var all := cs + [c];
    assert all[..|all| - 1] == cs;
    CorrectionsKeepIds(els, cs, now);
    FirstIndexOfIds(ApplyCorrections(els, cs, now).elements, els, c.elementId);
  }

  /** The correction loop of `submit_corrections`, as written: for each
      correction, scan the elements and stop at the first match. */
  method CorrectElements(els: seq<ExtractedElement>, cs: seq<CorrectionRequest>, now: Timestamp)
    returns (updated: seq<ExtractedElement>, applied: nat)
    ensures CorrectionRun(updated, applied) == ApplyCorrections(els, cs, now)
  {
    updated, applied := els, 0;
    var i := 0;
    while i < |cs|
      invariant 0 <= i <= |cs|
      invariant CorrectionRun(updated, applied) == ApplyCorrections(els, cs[..i], now)
    {
      assert cs[..i + 1][..i] == cs[..i];
      updated, applied := CorrectOne(updated, applied, cs[i], now);
      i := i + 1;
    }
    assert cs[..i] == cs;
  }

  /** One turn of the correction loop: the search for the first element
      with the correction's id, which it edits. */
  method CorrectOne(els: seq<ExtractedElement>, applied: nat, c: CorrectionRequest, now: Timestamp)
    returns (updated: seq<ExtractedElement>, applied': nat)
    ensures CorrectionRun(updated, applied') == CorrectionStep(CorrectionRun(els, applied), c, now)
  {
    updated, applied' := els, applied;
    var j := 0;
    while j < |els|
      invariant 0 <= j <= |els|
      invariant forall k :: 0 <= k < j ==> els[k].id != c.elementId
    {
      if els[j].id == c.elementId {
        assert FirstIndex(els, c.elementId) == Some(j);
        updated := els[j := Corrected(els[j], c, now)];
        applied' := applied + 1;
        return;
      }
      j := j + 1;
    }
  }

  /** The body of the answer to `submit_corrections`. */
  datatype CorrectionReceipt = CorrectionReceipt(message: string, transactionId: string)

  function AppliedMessage(n: nat): string {
    "Applied " + NatToString(n) + " corrections"
  }

  /** The stored result after the corrections `cs` at time `now`: the
      corrected elements, one more log line and a new update time, whatever
      its status. */
  function AfterCorrections(result: ProcessingResult, cs: seq<CorrectionRequest>, now: Timestamp): (r: ProcessingResult)
    ensures r == result.(extractedElements := r.extractedElements, processingLog := r.processingLog, updatedAt := now)
    ensures Ids(r.extractedElements) == Ids(result.extractedElements)
    ensures r.processingLog == result.processingLog +
              [AppliedMessage(Matching(result.extractedElements, cs)) + " at " + now]
  {
    var run := ApplyCorrections(result.extractedElements, cs, now);
    CorrectionsKeepIds(result.extractedElements, cs, now);
    result.(extractedElements := run.elements,
            processingLog := result.processingLog + [AppliedMessage(run.applied) + " at " + now],
            updatedAt := now)
  }

  /** `submit_corrections(transaction_id, corrections)`: 404 and no change
      for an unknown id; otherwise the corrected result is stored again. */
  method SubmitCorrections(store: InMemoryStorage, transactionId: string, cs: seq<CorrectionRequest>,
                           now: Timestamp, persisted: bool)
    returns (r: Response<CorrectionReceipt>)
    requires store.Valid()
    modifies store
    ensures store.Valid()
    ensures transactionId !in old(store.results) ==>
              r == HttpError(404, "Transaction not found") && store.results == old(store.results)
    ensures transactionId in old(store.results) ==>
              var result := old(store.results)[transactionId];
              && store.results == old(store.results)[transactionId := AfterCorrections(result, cs, now)]
              && r == Success(CorrectionReceipt(AppliedMessage(Matching(result.extractedElements, cs)), transactionId))
  {
    var found := store.GetResult(transactionId);
    if found.None? {
      return HttpError(404, "Transaction not found");
    }
    var result := found.value;
    var updated, applied := CorrectElements(result.extractedElements, cs, now);
    CorrectionsKeepIds(result.extractedElements, cs, now);
    result := result.(extractedElements := updated,
                      processingLog := result.processingLog + [AppliedMessage(applied) + " at " + now],
                      updatedAt := now);
    var _ := store.StoreResult(result, persisted);
    return Success(CorrectionReceipt(AppliedMessage(applied), transactionId));
  }
}
