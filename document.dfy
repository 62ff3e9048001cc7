/** The records of the data model: processing status and document type
    enumerations, bounding boxes, visual grounding, extracted elements,
    document metadata, processing results and correction requests, with the
    defaults the model declares. */
module Document {
  import opened Wrappers
  import opened Json
  import opened Strings

  /** The text of a `datetime.utcnow()` reading; clock values are opaque inputs. */
  type Timestamp = string

  datatype DocumentType = Pdf | Png | Jpeg | Jpg

  /** The serialised value of each document type. */
  function DocumentTypeValue(t: DocumentType): string {
    match t
    case Pdf => "pdf"
    case Png => "png"
    case Jpeg => "jpeg"
    case Jpg => "jpg"
  }

  datatype ProcessingStatus =
    | Pending | Parsing | Structuring | Validating | Highlighting | Storing | Completed | Failed

  /** The serialised value of each status. */
  function StatusValue(s: ProcessingStatus): string {
    match s
    case Pending => "pending"
    case Parsing => "parsing"
    case Structuring => "structuring"
    case Validating => "validating"
    case Highlighting => "highlighting"
    case Storing => "storing"
    case Completed => "completed"
    case Failed => "failed"
  }

  /** `ProcessingStatus(v)`: the status whose serialised value is `v`, or
      `None` where the enumeration raises `ValueError`. */
  function StatusFromValue(v: string): (r: Option<ProcessingStatus>)
    ensures r.Some? ==> StatusValue(r.value) == v
  {
    if v == "pending" then Some(Pending)
    else if v == "parsing" then Some(Parsing)
    else if v == "structuring" then Some(Structuring)
    else if v == "validating" then Some(Validating)
    else if v == "highlighting" then Some(Highlighting)
    else if v == "storing" then Some(Storing)
    else if v == "completed" then Some(Completed)
    else if v == "failed" then Some(Failed)
    else None
  }

  /** Statuses and their serialised values correspond one to one: reading a
      value back gives the status exactly when it is that status's value. */
  lemma StatusValueBijective(s: ProcessingStatus, v: string)
    ensures StatusFromValue(v) == Some(s) <==> StatusValue(s) == v
  {
    if StatusValue(s) == v {
      match s
      case Pending => assert StatusFromValue("pending") == Some(Pending);
      case Parsing => assert StatusFromValue("parsing") == Some(Parsing);
      case Structuring => assert StatusFromValue("structuring") == Some(Structuring);
      case Validating => assert StatusFromValue("validating") == Some(Validating);
      case Highlighting => assert StatusFromValue("highlighting") == Some(Highlighting);
      case Storing => assert StatusFromValue("storing") == Some(Storing);
      case Completed => assert StatusFromValue("completed") == Some(Completed);
      case Failed => assert StatusFromValue("failed") == Some(Failed);
    }
  }

  /** Coordinates normalised to the page; they are not clamped to [0, 1]. */
  datatype BoundingBox = BoundingBox(x: real, y: real, width: real, height: real)

  datatype VisualGrounding = VisualGrounding(pageNumber: int, boundingBox: BoundingBox, confidence: real := 0.0)

  /** An element's content is a raw string or a structured dictionary. */
  datatype Content = Text(text: string) | Structured(fields: map<string, Json>)

  datatype ExtractedElement = ExtractedElement(
    id: string,
    kind: string,
    content: Content,
    grounding: VisualGrounding,
    parentId: Option<string> := None,
    childrenIds: seq<string> := [],
    metadata: map<string, Json> := map[],
    confidence: real := 0.0,
    validated: bool := false,
    corrections: Option<map<string, Json>> := None)

  /** The ids of a list of elements, in order. */
  function Ids(es: seq<ExtractedElement>): (ids: seq<string>)
    ensures |ids| == |es| && forall i :: 0 <= i < |es| ==> ids[i] == es[i].id
  {
    seq(|es|, i requires 0 <= i < |es| => es[i].id)
  }

  /** An element built from its required fields alone carries the declared defaults. */
  lemma ElementDefaults(id: string, kind: string, content: Content, grounding: VisualGrounding)
    ensures var e := ExtractedElement(id, kind, content, grounding);
      && e.parentId == None && e.childrenIds == [] && e.metadata == map[]
      && e.confidence == 0.0 && !e.validated && e.corrections == None
    ensures VisualGrounding(grounding.pageNumber, grounding.boundingBox).confidence == 0.0
  {
  }

  datatype DocumentMetadata = DocumentMetadata(
    filename: string,
    fileSize: int,
    documentType: DocumentType,
    pageCount: int,
    uploadTimestamp: Timestamp,
    processingStart: Option<Timestamp> := None,
    processingEnd: Option<Timestamp> := None,
    ocrLanguages: seq<string> := [],
    ocrModelsUsed: seq<string> := [])

  /** The counts that the storing stage writes under `summary`. */
  datatype Summary = Summary(
    totalElements: nat,
    pages: int,
    textElements: nat,
    tableElements: nat,
    validatedElements: nat)

  /** One entry of `elements_by_page`. */
  datatype PageEntry = PageEntry(id: string, kind: string, content: string, confidence: real, validated: bool)

  /** The `structured_data` dictionary the storing stage builds. */
  datatype StructuredData = StructuredData(summary: Summary, elementsByPage: map<int, seq<PageEntry>>)

  datatype ProcessingResult = ProcessingResult(
    transactionId: string,
    status: ProcessingStatus,
    metadata: DocumentMetadata,
    createdAt: Timestamp,
    updatedAt: Timestamp,
    extractedElements: seq<ExtractedElement> := [],
    rawText: Option<string> := None,
    structuredData: Option<StructuredData> := None,
    errorMessage: Option<string> := None,
    processingLog: seq<string> := [])

  /** A result built from its required fields alone carries the declared defaults. */
  lemma ResultDefaults(id: string, status: ProcessingStatus, metadata: DocumentMetadata, created: Timestamp, updated: Timestamp)
    ensures var r := ProcessingResult(id, status, metadata, created, updated);
      && r.extractedElements == [] && r.processingLog == []
      && r.rawText == None && r.structuredData == None && r.errorMessage == None
  {
  }

  datatype CorrectionRequest = CorrectionRequest(
    elementId: string,
    correctedContent: Content,
    correctedType: Option<string> := None,
    notes: Option<string> := None)

  datatype StatusResponse = StatusResponse(
    transactionId: string,
    status: ProcessingStatus,
    progress: real := 0.0,
    message: Option<string> := None,
    error: Option<string> := None)

  datatype GroundingResponse = GroundingResponse(
    chunkId: string,
    pageNumber: int,
    boundingBox: BoundingBox,
    croppedImageBase64: Option<string> := None,
    context: Option<string> := None)

  function ContentToJson(c: Content): Json {
    match c
    case Text(s) => JStr(s)
    case Structured(m) => JObj(m)
  }

  function OptionToJson(o: Option<string>): Json {
    match o
    case Some(s) => JStr(s)
    case None => JNull
  }

  function BoxToJson(b: BoundingBox): Json {
    JObj(map["x" := JNum(b.x), "y" := JNum(b.y), "width" := JNum(b.width), "height" := JNum(b.height)])
  }

  /** `element.dict()`: the element as the dictionary handed to the reasoning service. */
  function ElementToJson(e: ExtractedElement): (j: Json)
    ensures j.JObj? && "id" in j.fields && j.fields["id"] == JStr(e.id)
    ensures "grounding" in j.fields && j.fields["grounding"].JObj?
    ensures Get(j.fields["grounding"].fields, "page_number") == JNum(e.grounding.pageNumber as real)
  {
    JObj(map[
      "id" := JStr(e.id),
      "type" := JStr(e.kind),
      "content" := ContentToJson(e.content),
      "parent_id" := OptionToJson(e.parentId),
      "children_ids" := JList(seq(|e.childrenIds|, i requires 0 <= i < |e.childrenIds| => JStr(e.childrenIds[i]))),
      "grounding" := JObj(map[
        "page_number" := JNum(e.grounding.pageNumber as real),
        "bounding_box" := BoxToJson(e.grounding.boundingBox),
        "confidence" := JNum(e.grounding.confidence)]),
      "metadata" := JObj(e.metadata),
      "confidence" := JNum(e.confidence),
      "validated" := JBool(e.validated),
      "corrections" := match e.corrections case Some(m) => JObj(m) case None => JNull])
  }
}
