# Document highlighter pipeline, modelled in Dafny

The system takes in a PDF or an image and extracts positioned text and
tables from it. It builds a confidence-scored element tree from that
content and checks each element against fixed rules. It then adds highlight
metadata and stores the result under a transaction id. A reasoning service
can refine the structure and the scores, but only as an optional extra. An
HTTP layer sits on top. It accepts uploads, reports progress, returns the
location of one element and applies human corrections.

The project models the core of that pipeline, module by module:

| module | file | models |
|---|---|---|
| `Wrappers` | wrappers.dfy | `Option` and `Result` |
| `Strings` | strings.dfy | the `str` operations the code relies on: `strip`, `lower`, `split`, `join`, `str(int)`, slicing |
| `Json` | json.dfy | the dictionary, list and scalar values the pipeline passes around; Python truthiness and top-level `==` |
| `Document` | document.dfy | the pydantic records of `backend/models/document.py`, with their defaults |
| `TextChunking` | text_chunking.dfy | `chunk_text` and `chunk_elements` |
| `LlmService` | llm_service.dfy | the fallback extraction, the merge of extraction results, the validation combiner, and the interpretation and flattening of structure replies |
| `Storage` | storage.dfy | the in-memory result map of `InMemoryStorage` |
| `DocumentProcessor` | document_processor.dfy | `is_supported_format`, the OCR row filter, PDF words and tables as fragments, and the type dispatch of `process_document` |
| `Workflow` | workflow.dfy | `DocumentProcessingState` and the five steps of `SimpleDocumentWorkflow` with their failure handlers; highlight colours, the summary and grouping by page |
| `DocumentRoutes` | document_routes.dfy | upload checks, the progress map, the grounding lookup and the correction loop |

The code that changes state step by step is modelled as imperative Dafny:
- the splitters' loops;
- the workflow's steps, on a `ProcessingState` class;
- the store, as an `InMemoryStorage` class over a `map`;
- the correction loop and the extractors' loops.

Each such method is proved against a specification function. Lemmas then
prove what the code promises about that function.

Main results:
- **Text chunking.**
  - `ChunkText` returns `[text]` for a short text.
  - Otherwise every chunk is non-empty and within the limit.
  - The chunks always *tile* the text: each chunk is a contiguous piece of it, the chunks come in text order, and only runs of `"\n\n"` and `". "` separators between chunks are missing.
  - `ChunkElements` returns `[elements]` for a short list.
  - Otherwise the chunks concatenate to the input, and each chunk is non-empty and within the limit.
  - A chunk ends only when it is full, or when it is crowded (more than 0.8 of the limit) and the page changes.
- **Merging** (`_merge_extraction_results`).
  - An empty list gives the fallback, and a one-element list gives that element.
  - The merged keys are the union of all keys.
  - Lists concatenate in order, and dictionaries update with later results winning.
  - A settled first value (neither list, dictionary, `None` nor `""`) is never changed.
- **The validation combiner.**
  - `validated` is false exactly when some result rejects.
  - `confidence` is the sum of the confidences present divided by the number of results.
  - Elements and suggestions are concatenated in result order.
  - A reply that makes the combination raise gives the default verdict.
- **Structuring.**
  - The tree holds one page container per distinct page, in order of first appearance, with distinct ids.
  - Each container lists its children's ids.
  - Text elements are `text_<p>_<i>` and table elements are `table_<p>_<i>`, with the code's defaults.
- **Steps and runs.**
  - Every step method is proved equal to a step function.
  - A whole run ends `Completed` or `Failed`, and the store's copy always agrees with the state.
  - A run completes exactly when no stage faults and the document parses.
- **Storage and routes.**
  - The store keeps every result under its own id.
  - Progress rises strictly along the stages.
  - Each correction changes at most the first element with its id.
  - Corrections never change the ids of the elements.
  - The backup of the original content survives later corrections.

### Behaviours of the source that the model exposes

These are modelled as the code is written, and proved as such.

- **The LLM validation overlay never applies inside the workflow.**
  - `_validate_step` passes a *list* of element dictionaries to `validate_extraction` (backend/agents/simple_workflow.py:313-316).
  - There, `extracted_data.get(...)` raises on a list (backend/services/llm_service.py:154), so the default verdict is returned (252-254).
  - That verdict has no `"elements"`, so `updated_count` is never bound, and line 341 raises a `NameError` that is swallowed at 342-343.
  - `Workflow.OverlayInWorkflow` proves that the overlay then changes nothing and writes no log line.
  - The overlay itself is modelled as written (`Workflow.Overlay`). An element that no entry carrying a `"confidence"` names by id keeps its verdict (`Workflow.OverlayItemsUnnamed`).
- **A failed transaction's stored `error_message` stays `None`.**
  - A failure handler sets `state.error_message`, but it updates the store only through `update_status`, which leaves `error_message` alone.
  - So the failure message reaches the store only as its last log line (`Workflow.StageFailureRecorded`, `Workflow.RunOutcome` through `Tracked`).
- **The stored log lacks "Completed processing".** `_store_step` stores its result before it appends that line to the state's log (backend/agents/simple_workflow.py:437-440).
- **"Enhanced structure using LLM" is logged without a service key.** `enhance_document_structure` returns its input unchanged without a key. When the dictionaries convert back, the workflow logs that line for any non-empty tree (`Workflow.StructureWithoutService`).
- **Chunk text made only of separators.** `chunk_text` returns `[]` for a text longer than the limit that is made only of separators, such as `"\n\n"` repeated. `extract_structured_content` then merges no results and returns the fallback.
- **`chunk_elements` on an empty list** returns `[[]]`, a list holding one empty chunk, because 0 is within the limit.

### Details of the code worth knowing

- **Crowded chunks.** A chunk counts as crowded when it holds more than 0.8 of the limit.
- **Default table box.** It is `(0, 0, 0.8, 0.3)` when a table fragment has no box: `x` and `y` default to 0.
- **Chunk text.** The chunks do not rebuild the text exactly. Separator runs at chunk boundaries are lost (`TextChunking.ChunkText` states what is kept).
- **Non-list `elements` in validation.** A truthy dictionary or string under `"elements"` is chunked like a list: with at most twenty entries, the value itself is sent to the service; otherwise its keys or characters are sent in chunks. A number or boolean makes `len()` raise, which gives the default verdict.

## Model

| member | source | states |
|---|---|---|
| Document.StatusFromValue | backend/models/document.py:14-22 | looking a status up by its value gives a status with that value, or nothing for an unknown value |
| Document.StatusValueBijective | backend/models/document.py:14-22 | statuses and their string values correspond one to one: a value reads back as a status exactly when it is that status's value |
| Document.ElementDefaults | backend/models/document.py:32-48 | an element built from its four required fields has no parent, no children, empty metadata, confidence 0.0, is not validated and has no corrections; a grounding built without confidence has 0.0 |
| Document.ResultDefaults | backend/models/document.py:63-73 | a result built from its required fields has no elements, an empty log, and no raw text, structured data or error message |
| Document.ElementToJson | backend/agents/simple_workflow.py:232 | `elem.dict()` is a dictionary whose `id` is the element's id and whose `grounding` is a dictionary carrying the page number |
| Json.AsNumber | backend/agents/simple_workflow.py:331-336 | a value can be compared with the threshold exactly when it is a number or a boolean |
| Strings.TrimStart | backend/services/document_processor.py:113 | `lstrip` keeps a suffix of the string |
| Strings.TrimStartSpaces | backend/services/document_processor.py:113 | what `lstrip` drops is whitespace, and what it keeps does not start with whitespace |
| Strings.TrimEnd | backend/services/document_processor.py:113 | `rstrip` keeps a prefix of the string |
| Strings.TrimEndSpaces | backend/services/document_processor.py:113 | what `rstrip` drops is whitespace, and what it keeps does not end with whitespace |
| Strings.StripEmptyIffAllSpace | backend/agents/simple_workflow.py:280 | `s.strip()` is empty exactly when `s` is made only of whitespace |
| Strings.StripOfTrimmed | backend/services/document_processor.py:133 | a string with no whitespace at either end is its own strip |
| Strings.Lower | backend/services/document_processor.py:30 | lower-casing keeps the length and lowers each character |
| Strings.Take | backend/routers/document_routes.py:190 | `s[:n]` is the first `n` items, or all of `s` when it is shorter |
| Strings.NatToString | backend/agents/simple_workflow.py:175 | the rendering of a number is a non-empty string of digits |
| Strings.IntToString | backend/agents/simple_workflow.py:159 | the rendering of an integer is non-empty |
| Strings.NatToStringInjective | backend/agents/simple_workflow.py:175 | distinct numbers render differently |
| Strings.IntToStringInjective | backend/agents/simple_workflow.py:159 | distinct integers render differently, so `page_<n>` ids of distinct pages differ |
| Strings.IntToStringSign | backend/agents/simple_workflow.py:159 | a rendering starts with `-` exactly when the integer is negative |
| Strings.JoinCons | backend/utils/text_chunking.py:58 | joining `x` in front of a list adds `x` and one separator in front of its join |
| Strings.Split | backend/utils/text_chunking.py:30 | `split` always yields at least one piece |
| Strings.JoinSplit | backend/utils/text_chunking.py:30 | joining the pieces of `s.split(sep)` with `sep` gives back `s` |
| Strings.JoinSplitAtSep | backend/utils/text_chunking.py:30 | the round trip of `split` and `join`, for a text that starts with the separator |
| Strings.JoinSplitAtChar | backend/utils/text_chunking.py:30 | the round trip of `split` and `join`, for a text that starts with another character |
| Strings.JoinPrepend | backend/utils/text_chunking.py:30 | a character glued onto the first piece is glued onto the front of the join |
| TextChunking.ChunkText | backend/utils/text_chunking.py:13-73 | a short text gives `[text]`; a longer one gives chunks that are each non-empty and within the limit; in both cases the chunks tile the text, losing only separator runs between chunks |
| TextChunking.ChunkParagraphs | backend/utils/text_chunking.py:29-67 | after the paragraph loop, the paragraphs rejoined with `"\n\n"` are exactly the emitted chunks, the dropped separators and the open chunk |
| TextChunking.AddParagraph | backend/utils/text_chunking.py:34-67 | one paragraph turn keeps that accounting, with the paragraph and its separator added |
| TextChunking.SplitSentences | backend/utils/text_chunking.py:42-60 | splitting an oversized paragraph at `". "` keeps the accounting, with the whole paragraph consumed |
| TextChunking.AddSentence | backend/utils/text_chunking.py:44-60 | one sentence turn keeps the accounting, with the sentence and its separator added |
| TextChunking.SplitByCharacter | backend/utils/text_chunking.py:51-53 | the slices of an oversized sentence are emitted in order, and the sentence is consumed with no separator pending |
| TextChunking.AccountFlush | backend/utils/text_chunking.py:36-38 | emitting the non-empty open chunk keeps the accounting |
| TextChunking.AccountDrop | backend/utils/text_chunking.py:35-39 | a separator met with no chunk open is recorded as dropped |
| TextChunking.AccountExtend | backend/utils/text_chunking.py:57-58 | appending a separator and a piece to the open chunk within the limit keeps the accounting |
| TextChunking.AccountStart | backend/utils/text_chunking.py:60-62 | opening a chunk with a piece within the limit keeps the accounting |
| TextChunking.SeparatorsAppend | backend/utils/text_chunking.py:30-43 | a run of dropped separators stays a run of separators when one more is dropped |
| TextChunking.ChunkElements | backend/utils/text_chunking.py:75-120 | a short list gives `[elements]`; the chunks always concatenate to the input; for a positive limit and a longer list, each chunk is non-empty and within the limit, ends only when full or when crowded at a page change, and has no crowded page change inside |
| TextChunking.AddElement | backend/utils/text_chunking.py:94-114 | one element turn appends the element to what has been seen, remembers its page, and keeps the chunks' invariant |
| TextChunking.PlaceElement | backend/utils/text_chunking.py:103-109 | a crowded chunk is closed at a page change, then the element ends the open chunk, which keeps the invariant |
| TextChunking.CloseIfFull | backend/utils/text_chunking.py:111-114 | a full open chunk is emitted and a shorter one is kept, with the invariant restored |
| TextChunking.PageKey | backend/utils/text_chunking.py:96-101 | the page is read from `grounding.page_number` when `grounding` is a dictionary, and is `None` for a non-dictionary |
| TextChunking.CloseChunk | backend/utils/text_chunking.py:117-118 | emitting a chunk that ended for a forced reason keeps the emitted chunks well formed |
| TextChunking.ExtendChunk | backend/utils/text_chunking.py:108 | appending on the same page, or while the chunk is not crowded, adds no crowded page change |
| TextChunking.CloseCrowded | backend/utils/text_chunking.py:104-106 | closing a crowded chunk at a page change gives a well-formed state |
| TextChunking.Extend | backend/utils/text_chunking.py:108-109 | appending without closing gives a well-formed state |
| TextChunking.CloseFull | backend/utils/text_chunking.py:112-114 | closing a full chunk gives a well-formed state with an empty open chunk |
| LlmService.FallbackExtraction | backend/services/llm_service.py:356-377 | the result has exactly the schema's keys: a dictionary maps to `{}`, a list to `[]` and anything else to `None` |
| LlmService.MergeResultInto | backend/services/llm_service.py:125-133 | folding one later result into the accumulator gives the merge step, with its rules applied in order |
| LlmService.MergeExtractionResults | backend/services/llm_service.py:115-135 | no results give the fallback; one result is returned unchanged; otherwise the left fold of the merge step |
| LlmService.MergeAllKeys | backend/services/llm_service.py:124-133 | a key is in the merge exactly when some result has it |
| LlmService.ListsAtAbsent | backend/services/llm_service.py:128-129 | a key no result has contributes no list items |
| LlmService.MergeAllLists | backend/services/llm_service.py:128-129 | a key that holds only lists is merged to their concatenation, earlier results first |
| LlmService.FieldsAtAbsent | backend/services/llm_service.py:130-131 | a key no result has contributes no fields |
| LlmService.MergeAllDicts | backend/services/llm_service.py:130-131 | a key that holds only dictionaries is merged to their union, later results winning |
| LlmService.MergeAllKeepsSettled | backend/services/llm_service.py:132-133 | a settled first value is never replaced |
| LlmService.MergeFillsUnset | backend/services/llm_service.py:132-133 | a first value of `None` or `""` is replaced by the next result's value |
| LlmService.ExtendItems | backend/services/llm_service.py:240-244 | `list.extend` adds a list's items, or one item per character of a string, and raises on anything else |
| LlmService.Contributions | backend/services/llm_service.py:233-248 | reading the results raises exactly when reading one of them raises; otherwise each result contributes once |
| LlmService.ScaledConfidenceIsAverage | backend/services/llm_service.py:235-236 | adding `c / n` per result gives the sum of the confidences divided by `n` |
| LlmService.AccumulateSnoc | backend/services/llm_service.py:238-248 | one more result extends the elements and suggestions in order and can only turn `validated` false |
| LlmService.ContributionsSnoc | backend/services/llm_service.py:233-248 | one more readable result extends the contributions; an unreadable one makes the whole combination raise |
| LlmService.CombinedAfterLoop | backend/services/llm_service.py:226-250 | the dictionary the loop builds is the combined verdict |
| LlmService.ConfidenceShare | backend/services/llm_service.py:235-236 | one result's share is what the running confidence grows by |
| LlmService.CombineValidation | backend/services/llm_service.py:226-250 | the loop raises exactly when some result cannot be read; otherwise it returns the combined verdict |
| LlmService.IterationItems | backend/utils/text_chunking.py:94 | the items `for` visits: a list's items, a string's characters, or each key of a dictionary exactly once |
| LlmService.ValidateExtraction | backend/services/llm_service.py:137-254 | the default verdict with confidence 0.8 without a key, for a non-dictionary, for falsy elements, and for elements `len()` rejects; otherwise the elements are iterated, chunked as `chunk_elements(…, 20)` promises, and the replies to the requests are combined, a failed call or a raising combination giving the default |
| LlmService.ValidateRequests | backend/services/llm_service.py:217-254 | asking the service once per request, in order, gives the verdict ValidationOf defines: the default 0.8 verdict as soon as one call fails, otherwise the combination of every reply, or the default when combining raises |
| LlmService.InterpretStructureReply | backend/services/llm_service.py:312-323 | a list reply is kept; a dictionary with `elements` gives that value; any other reply, or one that did not parse, gives the chunk back; only a failed call has no value |
| LlmService.ConcatListsOfChunks | backend/services/llm_service.py:333-337 | flattening the chunks wrapped as lists gives back the elements in order |
| LlmService.FlattenLists | backend/services/llm_service.py:333-339 | the loop collects the items of the list results in order and skips every other value |
| LlmService.EnhanceDocumentStructure | backend/services/llm_service.py:256-343 | the input comes back without a key or on a failed call; with a key the chunks are those `chunk_elements(…, 20)` promises and the per-chunk readings are flattened; when every reply passes its chunk through, the result is the input |
| LlmService.FieldsOf | backend/services/llm_service.py:73 | the fields of dictionary results, one per result, in order |
| LlmService.ExtractStructuredContent | backend/services/llm_service.py:36-78 | the fallback without a key or on a failed call; with a key the chunks are those `chunk_text(…, 4000)` promises (the text itself when short, otherwise non-empty chunks of at most 4000 characters that tile the text); one chunk's reply is returned as it is, and several chunks' replies are merged |
| Storage.WithStatus | backend/services/storage.py:67-71 | the status and update time are replaced; exactly one log line `<now>: <message>` is appended when the message is non-empty; nothing else changes |
| Storage.InMemoryStorage.constructor | backend/services/storage.py:14-15 | the store starts empty |
| Storage.InMemoryStorage.StoreResult | backend/services/storage.py:19-38 | the result replaces any entry under its id, other ids are untouched, and the return is whether the file write succeeded |
| Storage.InMemoryStorage.GetResult | backend/services/storage.py:40-45 | the entry under the id, or `None` when there is none |
| Storage.InMemoryStorage.UpdateStatus | backend/services/storage.py:62-79 | an unknown id gives `False` and no change; a known id is re-stored with the new status and log line, and `True` is returned whatever the file write does |
| Storage.InMemoryStorage.DeleteResult | backend/services/storage.py:97-110 | the id is gone, everything else stays, and `True` is returned even for an absent id |
| Storage.InMemoryStorage.GetAllResults | backend/services/storage.py:81-91 | every stored result occurs exactly once |
| DocumentProcessor.LastIndexOf | backend/services/document_processor.py:30 | the last position of a character, or -1 when it does not occur |
| DocumentProcessor.Extension | backend/services/document_processor.py:30 | `splitext`'s extension is empty or a suffix that starts with a dot and holds no further dot or slash |
| DocumentProcessor.ExtensionAt | backend/services/document_processor.py:30 | the extension starts at the last dot of the last path component, when a non-dot character comes before it |
| DocumentProcessor.SupportedAreLower | backend/services/document_processor.py:26 | the supported extensions are lower case, start with a dot and hold no further dot or slash |
| DocumentProcessor.SupportedWithExtension | backend/services/document_processor.py:28-31 | any ordinary name with a supported extension, in any case, is supported |
| DocumentProcessor.NotSupported | backend/services/document_processor.py:26 | an extension whose second character is neither `p` nor `j` is not supported |
| DocumentProcessor.UnsupportedExtension | backend/services/document_processor.py:28-31 | names ending in `.txt` or `.docx` are refused |
| DocumentProcessor.UpperCaseExample | tests/unit/test_document_processor.py:39 | `test.PNG` is supported |
| DocumentProcessor.RefusedExamples | tests/unit/test_document_processor.py:42-43 | `test.txt` and `test.docx` are refused |
| DocumentProcessor.StripTrimmed | backend/services/document_processor.py:113 | a non-empty strip has no whitespace at either end |
| DocumentProcessor.Rows | backend/services/document_processor.py:112 | one outcome per OCR row |
| DocumentProcessor.CollectNone | backend/services/document_processor.py:112-137 | the scan of the rows raises exactly when some row raises |
| DocumentProcessor.CollectShape | backend/services/document_processor.py:114-129 | the scan keeps only fragments that kept rows produce |
| DocumentProcessor.CollectSnoc | backend/services/document_processor.py:112-131 | scanning one more row takes one more loop step |
| DocumentProcessor.OcrBlocksStep | backend/services/document_processor.py:112-131 | the blocks of the first `i + 1` rows are the loop step applied to those of the first `i` rows |
| DocumentProcessor.OcrBlocksShape | backend/services/document_processor.py:114-129 | every block is a text on page 1 with a trimmed, non-empty text and a confidence of at least 0.31 |
| DocumentProcessor.OcrRowShape | backend/services/document_processor.py:113-129 | a kept row yields a text block on page 1, trimmed, with confidence `conf / 100` above 0.3 |
| DocumentProcessor.OcrBlocksNoneSticks | backend/services/document_processor.py:135-137 | once a row raises, the extraction as a whole yields nothing |
| DocumentProcessor.SpaceTerminatedIsJoin | backend/services/document_processor.py:131 | the words each followed by a space are their join with single spaces plus one space |
| DocumentProcessor.StripSpaceTerminated | backend/services/document_processor.py:131-133 | stripping that accumulated text gives the kept words joined by single spaces |
| DocumentProcessor.ExtractFromImage | backend/services/document_processor.py:100-137 | no image, or a raising row, gives `("", [])`; otherwise the blocks of the kept rows in order, and the full text is their words joined by single spaces |
| DocumentProcessor.OcrRowKept | backend/services/document_processor.py:113-129 | a trimmed row with confidence above 30 is kept with its text, page 1, its box and `conf / 100` |
| DocumentProcessor.OcrAllKept | backend/services/document_processor.py:112-129 | when every row is trimmed and above 30, there is one block per row, in row order |
| DocumentProcessor.OcrExample | tests/unit/test_document_processor.py:77-91 | rows `Hello` (85) and `World` (90) give two blocks with confidences 0.85 and 0.9, and the text `Hello World` |
| DocumentProcessor.PageWords | backend/services/document_processor.py:49-60 | one text fragment per word of the page, in word order, each on that page with the word's box |
| DocumentProcessor.PdfWordsInPageOrder | backend/services/document_processor.py:40-60 | word fragments carry pages 1 to the page count, in non-decreasing page order |
| DocumentProcessor.AddPageWords | backend/services/document_processor.py:49-60 | the word loop appends exactly the page's word fragments |
| DocumentProcessor.ExtractTextFromPdf | backend/services/document_processor.py:33-66 | a file that cannot be read gives `("", [])`; otherwise the full text carries every page's banner and text, and the blocks are the words page by page |
| DocumentProcessor.PageTablesShape | backend/services/document_processor.py:77-92 | each table fragment holds a truthy table of the page under the id `table_<page>_<i>`, where `i` counts every table on the page |
| DocumentProcessor.AddPageTables | backend/services/document_processor.py:77-92 | the table loop appends exactly the page's truthy tables, numbered by position |
| DocumentProcessor.ExtractTablesFromPdf | backend/services/document_processor.py:68-98 | a file that cannot be read gives `[]`; otherwise the page tables, page by page |
| DocumentProcessor.TypeForExtension | backend/services/document_processor.py:146-160 | `.pdf` gives PDF, `.png` gives PNG and anything else gives JPEG, never JPG |
| DocumentProcessor.Parse | backend/services/document_processor.py:139-179 | a size error is re-raised; a PDF gives its words then its tables, the page count or its error, and its text; any other type gives the image extraction with one page; the metadata carries the name, size, time, `en` and `tesseract` |
| DocumentProcessor.ProcessDocument | backend/services/document_processor.py:139-179 | the method returns what the dispatch specifies |
| Workflow.PagesInOrderDistinct | backend/agents/simple_workflow.py:143-147 | the pages in order of first appearance are distinct, and they are exactly the pages the fragments have |
| Workflow.PagesInOrderPrefix | backend/agents/simple_workflow.py:143-147 | the pages of a prefix come first among the pages of the whole |
| Workflow.BucketMembers | backend/agents/simple_workflow.py:149-154 | a page's texts, tables and others are exactly the fragments of that page with that type |
| Workflow.PageIdInjective | backend/agents/simple_workflow.py:159 | distinct pages get distinct `page_<n>` ids |
| Workflow.Children | backend/agents/simple_workflow.py:173-224 | a page gets one child per text and one per table, and none for other fragments |
| Workflow.TextKids | backend/agents/simple_workflow.py:174-196 | one child per text fragment of the page |
| Workflow.TableKids | backend/agents/simple_workflow.py:199-224 | one child per table fragment of the page |
| Workflow.Groups | backend/agents/simple_workflow.py:157-224 | one group of elements per distinct page |
| Workflow.PageContainer | backend/agents/simple_workflow.py:158-171 | a page group starts with its container, `page_<n>` of type `page` with confidence 1.0, which lists the ids of the rest of the group |
| Workflow.PageTexts | backend/agents/simple_workflow.py:174-196 | the texts of a page follow its container, in order |
| Workflow.PageTables | backend/agents/simple_workflow.py:199-224 | the tables of a page follow its texts, in order |
| Workflow.TextElementFields | backend/agents/simple_workflow.py:175-194 | a text element is `text_<p>_<i>` on its page with the page as parent, the fragment's text, its box or `(0, 0, 0.1, 0.05)`, and its confidence or 0.8 |
| Workflow.TableElementFields | backend/agents/simple_workflow.py:200-222 | a table element is `table_<p>_<i>` with confidence 0.9, its box or `(0, 0, 0.8, 0.3)`, and `rows` holding the fragment's content or `[]` |
| Workflow.TreeContainers | backend/agents/simple_workflow.py:157-171 | every group starts with the container of its page |
| Workflow.TreeContainerIdsDistinct | backend/agents/simple_workflow.py:157-171 | no two page containers share an id |
| Workflow.TreeContainerForEveryPage | backend/agents/simple_workflow.py:143-171 | a container for page `p` exists exactly when some fragment is on `p` |
| Workflow.BucketOfUnseen | backend/agents/simple_workflow.py:146-147 | a page no fragment has is empty |
| Workflow.GroupStep | backend/agents/simple_workflow.py:144-154 | filing one more fragment keeps the grouping loop's state |
| Workflow.PagesInOrderSnoc | backend/agents/simple_workflow.py:145-147 | a new page is appended when first met, and an old one changes nothing |
| Workflow.BucketOfSnoc | backend/agents/simple_workflow.py:149-154 | one more fragment joins exactly one list of its own page |
| Workflow.BuildPage | backend/agents/simple_workflow.py:158-224 | the page loop builds the page's group |
| Workflow.AddTexts | backend/agents/simple_workflow.py:174-196 | the text loop builds the text children and records their ids |
| Workflow.AddTables | backend/agents/simple_workflow.py:199-224 | the table loop appends the table children and their ids |
| Workflow.StructureElements | backend/agents/simple_workflow.py:140-226 | the structuring loops build the element tree |
| Workflow.GroupByPage | backend/agents/simple_workflow.py:143-154 | the `pages` dictionary holds exactly the pages, in order of first appearance, each with its fragments |
| Workflow.GroupOne | backend/agents/simple_workflow.py:145-154 | one turn of the grouping loop keeps its state |
| Workflow.BuildPages | backend/agents/simple_workflow.py:157-224 | the loop over `pages.items()` concatenates the page groups in order |
| Workflow.GroupsOfGrouped | backend/agents/simple_workflow.py:143-224 | the groups built from the grouped dictionary are the page groups of the fragments |
| Workflow.BaseValidated | backend/agents/simple_workflow.py:277-300 | only confidence and `validated` change; valid means reaching 0.7; a text is valid iff its content is a non-blank string; a table is valid iff it has truthy `rows`; a page gets 1.0; other types keep their confidence |
| Workflow.BaseValidatedIdempotent | backend/agents/simple_workflow.py:276-300 | applying the rules twice is applying them once |
| Workflow.BaseValidateAll | backend/agents/simple_workflow.py:276-300 | the rules apply to each element in place |
| Workflow.ValidateElements | backend/agents/simple_workflow.py:276-300 | the validation loop applies the rules to every element |
| Workflow.IdIndex | backend/agents/simple_workflow.py:325 | the id map gives the last index with that id, or none |
| Workflow.OverlayItem | backend/agents/simple_workflow.py:327-337 | an entry changes an element only when it names a known id and carries a numeric confidence; then only that element is rescored |
| Workflow.OverlayItems | backend/agents/simple_workflow.py:327-337 | the overlay keeps the number of elements |
| Workflow.Overlay | backend/agents/simple_workflow.py:318-343 | a verdict without `elements` changes nothing and logs nothing; elements change only through an `elements` list |
| Workflow.OverlayItemsShape | backend/agents/simple_workflow.py:327-337 | the overlay changes only confidences and validation flags, counts at most one update per entry, and keeps `validated` in step with the threshold |
| Workflow.OverlayItemsUnnamed | backend/agents/simple_workflow.py:327-337 | an element that no dictionary entry carrying a `"confidence"` names by id keeps its local verdict |
| Workflow.OverlayInWorkflow | backend/agents/simple_workflow.py:308-343 | the list the workflow passes has no `elements` field, and the verdict that results changes none of the elements |
| Workflow.CountValidated | backend/agents/simple_workflow.py:346 | the validated count is at most the number of elements |
| Workflow.ReachingSnoc | backend/agents/simple_workflow.py:346 | one more element adds its own index to those reaching the threshold, or nothing |
| Workflow.CountValidatedThreshold | backend/agents/simple_workflow.py:346 | when the flags follow the threshold, the count is the number of elements reaching it |
| Workflow.HighlightColorsDistinguishKinds | backend/agents/simple_workflow.py:391-400 | the five named kinds get five distinct colours, none of them the gray default; any other kind gets gray |
| Workflow.Highlighted | backend/agents/simple_workflow.py:370-377 | a page is untouched; any other element gains exactly the three highlight keys with its kind's colour, keeps its other keys, and changes nowhere else |
| Workflow.HighlightedIdempotent | backend/agents/simple_workflow.py:370-377 | highlighting twice is highlighting once |
| Workflow.HighlightAll | backend/agents/simple_workflow.py:370-377 | highlighting applies to each element in place |
| Workflow.HighlightElements | backend/agents/simple_workflow.py:370-377 | the highlight loop highlights every element |
| Workflow.CountKindsBounded | backend/agents/simple_workflow.py:417-418 | texts and tables together are at most all elements |
| Workflow.SummaryOf | backend/agents/simple_workflow.py:413-420 | the total is the number of elements, the text, table and validated counts fit within it, and the pages are the page count or 1 |
| Workflow.Entry | backend/agents/simple_workflow.py:460-466 | an entry copies id, type, confidence and flag; string content is kept, other content is its rendering cut to 100 characters |
| Workflow.EntriesOnMembers | backend/agents/simple_workflow.py:452-468 | the entries of page `p` are exactly those of its elements |
| Workflow.EntriesOnAbsent | backend/agents/simple_workflow.py:457-458 | a page no element is on has no entries |
| Workflow.ByPageCovers | backend/agents/simple_workflow.py:452-468 | every element appears under its page, and every entry comes from an element on that page |
| Workflow.ByPageSnoc | backend/agents/simple_workflow.py:455-466 | one more element appends its entry under its own page only |
| Workflow.GroupElementsByPage | backend/agents/simple_workflow.py:452-468 | the grouping loop builds the map of pages to entries |
| Workflow.ProcessingState.constructor | backend/agents/simple_workflow.py:22-33 | a new state is empty and pending, with no metadata or error |
| Workflow.Dicts | backend/agents/simple_workflow.py:232 | one dictionary per element, in order |
| Workflow.ConvertAll | backend/agents/simple_workflow.py:237-242 | converting succeeds exactly when every entry converts, giving one element per entry |
| Workflow.ConvertElements | backend/agents/simple_workflow.py:237-242 | the conversion loop gives that result, raising at the first failure |
| Workflow.OpenStage | backend/agents/simple_workflow.py:104-108 | a stage opens: status set, a `Started …` line, the status reported to the store |
| Workflow.Fail | backend/agents/simple_workflow.py:123-128 | a failure handler keeps the message, sets `Failed`, and reports both to the store |
| Workflow.ParseStep | backend/agents/simple_workflow.py:100-128 | parsing fails exactly when the stage faults or the document does not parse; otherwise the state holds the parsed fragments |
| Workflow.ParseStepBody | backend/agents/simple_workflow.py:110-121 | the body of the parse stage after its opening lines |
| Workflow.StructureStep | backend/agents/simple_workflow.py:130-261 | structuring fails exactly when the stage faults; without a key, or with a service that passes everything through, the service returns the dictionaries of the tree; with a key, it returns the flattened readings of its replies about the tree's chunks |
| Workflow.StructureStepBody | backend/agents/simple_workflow.py:140-254 | the body of the structure stage after its opening lines, with what the service returns pinned down as in `Workflow.StructureStep` |
| Workflow.OverlayItemsRaisedSticks | backend/agents/simple_workflow.py:327-343 | once an entry raises, later entries change nothing |
| Workflow.CharNeverMentionsId | backend/agents/simple_workflow.py:328 | a one-character string never contains `"id"` |
| Workflow.OverlayList | backend/agents/simple_workflow.py:327-337 | the overlay loop computes the overlay of the entries |
| Workflow.ApplyValidationOverlay | backend/agents/simple_workflow.py:318-343 | the overlay block computes the overlay of the verdict |
| Workflow.ValidateStep | backend/agents/simple_workflow.py:263-357 | validation fails exactly when the stage faults |
| Workflow.ValidateStepBody | backend/agents/simple_workflow.py:273-350 | the body of the validate stage after its opening lines, with the default verdict |
| Workflow.HighlightStep | backend/agents/simple_workflow.py:359-389 | highlighting fails exactly when the stage faults |
| Workflow.HighlightStepBody | backend/agents/simple_workflow.py:369-382 | the body of the highlight stage after its opening lines |
| Workflow.StoreStep | backend/agents/simple_workflow.py:402-450 | storing fails exactly when the stage faults or there is no metadata |
| Workflow.StoreStepBody | backend/agents/simple_workflow.py:412-443 | the body of the store stage after its opening lines |
| Workflow.ProcessDocument | backend/agents/simple_workflow.py:40-98 | a size error is re-raised with the store unchanged; otherwise the transaction id is returned, the store ends as the run specifies, a fault-free run without a service gets the dictionaries of the tree back, and with a key the service's readings of the tree's chunks |
| Workflow.StageOutcome | backend/agents/simple_workflow.py:100-450 | a stage keeps the id and name and the store agrees on the status; it fails exactly when it faults, the document does not parse, or the store stage has no metadata; otherwise it reaches its own status |
| Workflow.StageFailureRecorded | backend/agents/simple_workflow.py:123-128 | a failed stage keeps the message in the state and, when the message is non-empty, logs it last in the store; the stored `error_message` stays as it was |
| Workflow.ThenStep | backend/agents/simple_workflow.py:75-91 | a stage after a failure changes nothing; the store keeps following the state |
| Workflow.RunOutcome | backend/agents/simple_workflow.py:40-98 | a run ends `Completed` or `Failed`, the store agreeing; it completes exactly when no stage faults and the document parses |
| Workflow.ConvertDictsBack | backend/agents/simple_workflow.py:232-242 | when converting each dictionary gives back its element, the whole list converts back |
| Workflow.ParseWithoutFault | backend/agents/simple_workflow.py:100-121 | a fault-free parse holds the parsed text, fragments and metadata |
| Workflow.StructureWithoutService | backend/agents/simple_workflow.py:130-254 | a fault-free structuring whose service returns the tree's own dictionaries holds the tree, and for a non-empty tree its last log line is `Enhanced structure using LLM: <n> elements` |
| Workflow.ValidateWithoutFault | backend/agents/simple_workflow.py:263-350 | a fault-free validation holds the elements checked by the rules |
| Workflow.HighlightWithoutFault | backend/agents/simple_workflow.py:359-382 | a fault-free highlighting holds the highlighted elements |
| Workflow.StoreWithoutFault | backend/agents/simple_workflow.py:402-443 | a fault-free store files a completed result with the state's elements, text, metadata and summary, and no error |
| Workflow.RunWithStructureKept | backend/agents/simple_workflow.py:40-98 | a fault-free run of a parseable document stores, completed, the page tree checked by the rules and highlighted, with its summary |
| DocumentRoutes.CheckUpload | backend/routers/document_routes.py:35-50 | a missing name is refused first, then an unsupported format, then a truthy size above the maximum |
| DocumentRoutes.UploadAccepted | backend/routers/document_routes.py:35-50 | a supported name with no size, size 0 or a size within the maximum is accepted |
| DocumentRoutes.Progress | backend/routers/document_routes.py:103-114 | progress is between 0 and 100, is 100 exactly when completed, and is 0 when pending or failed |
| DocumentRoutes.ProgressMapCoversStatuses | backend/routers/document_routes.py:103-114 | the keys of the progress map are exactly the status values, so the lookup's default never applies to a status |
| DocumentRoutes.ProgressAlongStages | backend/routers/document_routes.py:103-112 | progress rises strictly from pending to completed |
| DocumentRoutes.StatusOf | backend/routers/document_routes.py:114-122 | the response carries the status, its progress and the error; the message is the last log line, or none for an empty log |
| DocumentRoutes.GetProcessingStatus | backend/routers/document_routes.py:94-122 | 404 exactly for an unknown transaction; otherwise the status response |
| DocumentRoutes.FirstIndex | backend/routers/document_routes.py:159-163 | the first index with that id, or none |
| DocumentRoutes.GroundingOf | backend/routers/document_routes.py:185-191 | the response carries the page and box; the context exists exactly for truthy content and is its text cut to 200 characters |
| DocumentRoutes.GetVisualGrounding | backend/routers/document_routes.py:150-191 | 404 for an unknown transaction, a missing element or a missing file, checked in that order; otherwise the first element with the id |
| DocumentRoutes.Corrected | backend/routers/document_routes.py:212-228 | the content is replaced, the type is replaced only by a non-empty one, the element is validated, `corrected_at` and `notes` are set, the original content is recorded only when there were no corrections, and older keys stay |
| DocumentRoutes.BackupKeptAcrossCorrections | backend/routers/document_routes.py:215-216 | after two corrections the backup is still the content from before the first |
| DocumentRoutes.ApplyCorrections | backend/routers/document_routes.py:210-230 | the corrections keep the number of elements |
| DocumentRoutes.CorrectionStep | backend/routers/document_routes.py:211-230 | one correction keeps the number of elements |
| DocumentRoutes.FirstIndexOfIds | backend/routers/document_routes.py:212-213 | lists with the same ids have the same first match |
| DocumentRoutes.CorrectionsKeepIds | backend/routers/document_routes.py:210-230 | corrections keep every id, and the count is the number of corrections whose id matches some element |
| DocumentRoutes.OneCorrection | backend/routers/document_routes.py:211-230 | a correction that matches nothing changes nothing; otherwise it changes only the first matching element |
| DocumentRoutes.CorrectElements | backend/routers/document_routes.py:209-230 | the nested loop applies the corrections in order and counts the matches |
| DocumentRoutes.CorrectOne | backend/routers/document_routes.py:212-230 | the inner loop, stopping at the first match, is one correction step |
| DocumentRoutes.AfterCorrections | backend/routers/document_routes.py:209-236 | only the elements, the log and the update time change; ids stay; exactly one `Applied <n> corrections at <now>` line is appended |
| DocumentRoutes.SubmitCorrections | backend/routers/document_routes.py:200-246 | 404 and no change for an unknown transaction; otherwise the corrected result is stored and the count is reported |

## Left out

- The rate-limited scheduler `process_chunks_with_rate_limit` is left out: it concerns concurrency, semaphores and sleeps. The model takes the per-chunk results in submission order, not in completion order.
- The reasoning service's HTTP calls and the JSON parsing of its replies are parameters. A reply is a function of the chunk that says whether the call failed, the reply did not parse, or it parsed.
- Whether `OPENAI_API_KEY` is set is a boolean parameter.
- The image, PDF and OCR libraries are left out, and so are the page image and crop arithmetic. Their outputs (words, page text, tables, page count, OCR rows) are parameters, and the boxes are already normalised values.
- File persistence in the store is left out, and so is the file fallback of `get_result` and `get_all_results`. Whether a file write succeeds is a boolean parameter.
- The model passes results by value. Python's aliasing of the stored result, such as `update_status` mutating the object it stores or `merged` sharing the first result, is not modelled.
- pydantic is left out. `ExtractedElement(**elem)` is a conversion parameter that may fail. `str()` of structured content is a rendering parameter. The missing-metadata error message uses a placeholder wording.
- Float arithmetic is modelled as exact real arithmetic.
- OCR confidences are the integers `int()` yields.
- `LlmService.ExtendItems`: `list.extend` with a dictionary argument raises here. In Python it adds the dictionary's keys.
- Timestamps come from one clock reading `now`, used for every timestamp of a call. The uuid is a parameter.
- `Strings.Lower` lower-cases ASCII only. `str.lower()` also changes other letters.
- `Json.PyEquals` is Python's `==` at the top level only: nested numbers compare structurally.
- The overlay treats a non-numeric confidence as the end of the overlay loop. Python first assigns that value to the element's `confidence` (backend/agents/simple_workflow.py:331-332), and then the comparison raises. The model cannot hold a non-numeric confidence, so it leaves that element unchanged.
- An exception that a stage raises for reasons the model does not otherwise produce is an injected fault per stage. It occurs right after the stage's opening lines, with the given message.
- The HTTP plumbing is left out: routing, saving the upload, background tasks and the 500 handlers. So are the routes outside the upload checks, status, grounding and corrections.
- `GetVisualGrounding`: whether the original file exists, and the cropped image, are parameters.
