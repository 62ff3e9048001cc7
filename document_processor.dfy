/** The document processor: which files it accepts, how it dispatches on the
    extension, and how the rows its PDF and OCR libraries report become the
    raw fragments the workflow structures. The libraries themselves are
    inputs: a PDF is the list of its pages as the PDF library reports them,
    an image the parallel arrays the OCR engine reports, each `None` when the
    library raised. Box coordinates are taken as already normalised. */
module DocumentProcessor {
  import opened Wrappers
  import opened Strings
  import opened Json
  import opened Document

  // ---------------------------------------------------------------------
  // Supported formats
  // ---------------------------------------------------------------------

  const SupportedFormats: seq<string> := [".pdf", ".png", ".jpg", ".jpeg"]

  /** The index of the last occurrence of `c` in `s`, or -1. */
  function LastIndexOf(s: string, c: char): (r: int)
    ensures -1 <= r < |s|
    ensures r >= 0 ==> s[r] == c
    ensures forall k :: r < k < |s| ==> s[k] != c
  {
    if s == [] then -1
    else if s[|s| - 1] == c then |s| - 1
    else LastIndexOf(s[..|s| - 1], c)
  }

  /** `os.path.splitext(path)[1]` on POSIX paths: from the last dot of the
      last path component to the end, provided that dot is preceded by some
      character other than a dot within the component; otherwise empty. */
  function Extension(path: string): (ext: string)
    ensures ext == [] || (ext[0] == '.' && EndsWith(path, ext))
    ensures forall k :: 0 < k < |ext| ==> ext[k] != '.' && ext[k] != '/'
  {
    var dot := LastIndexOf(path, '.');
    var sep := LastIndexOf(path, '/');
    if dot > sep && exists k :: sep + 1 <= k < dot && path[k] != '.' then path[dot..] else ""
  }

  /** `is_supported_format(filename)`. */
  predicate IsSupportedFormat(filename: string) {
    Extension(Lower(filename)) in SupportedFormats
  }

  /** The extension of a string whose last dot sits at `d`, after an
      ordinary character and with no separator after it. */
  lemma ExtensionAt(s: string, d: nat)
    requires 0 < d < |s| && s[d] == '.' && s[d - 1] != '.' && s[d - 1] != '/'
    requires forall k :: d < k < |s| ==> s[k] != '.' && s[k] != '/'
    ensures Extension(s) == s[d..]
  {
    assert LastIndexOf(s, '.') == d;
    assert LastIndexOf(s, '/') < d - 1;
  }

  lemma LowerConcat(a: string, b: string)
    ensures Lower(a + b) == Lower(a) + Lower(b)
  {
  }

  lemma SupportedAreLower(ext: string)
    requires ext in SupportedFormats
    ensures Lower(ext) == ext && ext[0] == '.'
    ensures forall k :: 0 < k < |ext| ==> ext[k] != '.' && ext[k] != '/'
  {
    if ext == ".pdf" {
      assert Lower(ext) == ".pdf";
    } else if ext == ".png" {
      assert Lower(ext) == ".png";
    } else if ext == ".jpg" {
      assert Lower(ext) == ".jpg";
    } else {
      assert Lower(ext) == ".jpeg";
    }
  }

  /** A name made of a stem that ends in an ordinary character followed by
      a supported extension, in any letter case, is accepted. */
  lemma SupportedWithExtension(stem: string, ext: string)
    requires ext in SupportedFormats
    requires stem != [] && stem[|stem| - 1] != '.' && stem[|stem| - 1] != '/'
    ensures IsSupportedFormat(stem + ext)
  {
    var s := Lower(stem + ext);
    LowerConcat(stem, ext);
    SupportedAreLower(ext);
    assert s == Lower(stem) + ext;
    ExtensionAt(s, |stem|);
    assert s[|stem|..] == ext;
  }

  /** Every supported extension has a `p` or a `j` after its dot. */
  lemma NotSupported(ext: string)
    requires |ext| >= 2 && ext[1] != 'p' && ext[1] != 'j'
    ensures ext !in SupportedFormats
  {
    assert forall f :: f in SupportedFormats ==> f[1] == 'p' || f[1] == 'j';
  }

  /** A name whose lower-cased extension is not a supported one is refused. */
  lemma UnsupportedExtension(stem: string, ext: string)
    requires ext == ".txt" || ext == ".docx"
    requires stem != [] && stem[|stem| - 1] != '.' && stem[|stem| - 1] != '/'
    requires Lower(stem) == stem && Lower(ext) == ext
    ensures !IsSupportedFormat(stem + ext)
  {
    var s := stem + ext;
    LowerConcat(stem, ext);
    assert forall k :: 0 < k < |ext| ==> ext[k] != '.' && ext[k] != '/';
    ExtensionAt(s, |stem|);
    assert s[|stem|..] == ext;
    NotSupported(ext);
  }

  /** A name of the processor's unit tests with an upper-case extension is accepted. */
  lemma UpperCaseExample()
    ensures IsSupportedFormat("test.PNG")
  {
    assert "test.PNG" == "test" + ".PNG";
    LowerConcat("test", ".PNG");
    assert Lower(".PNG") == ".png" by {
      assert LowerChar('P') == 'p' && LowerChar('N') == 'n' && LowerChar('G') == 'g';
    }
    assert Lower("test") == "test";
    assert Lower("test.PNG") == Lower("test" + ".png") by {
      LowerConcat("test", ".png");
      SupportedAreLower(".png");
    }
    SupportedWithExtension("test", ".png");
  }

  /** Text without upper-case ASCII letters is its own lower-casing. */
  lemma LowerFixed(s: string)
    requires forall i :: 0 <= i < |s| ==> !('A' <= s[i] <= 'Z')
    ensures Lower(s) == s
  {
  }

  lemma TxtRefused()
    ensures !IsSupportedFormat("test.txt")
  {
    LowerFixed("test");
    LowerFixed(".txt");
    assert "test.txt" == "test" + ".txt";
    UnsupportedExtension("test", ".txt");
  }

  lemma DocxRefused()
    ensures !IsSupportedFormat("test.docx")
  {
    LowerFixed("test");
    LowerFixed(".docx");
    assert "test.docx" == "test" + ".docx";
    UnsupportedExtension("test", ".docx");
  }

  /** The names the processor's unit tests refuse. */
  lemma RefusedExamples()
    ensures !IsSupportedFormat("test.txt") && !IsSupportedFormat("test.docx")
  {
    TxtRefused();
    DocxRefused();
  }

  // ---------------------------------------------------------------------
  // Raw fragments
  // ---------------------------------------------------------------------

  /** One raw element dictionary as the processor builds it; a key the
      dictionary does not carry is `None`. */
  datatype Fragment = Fragment(
    kind: string,
    page: Option<int>,
    text: Option<string>,
    bbox: Option<BoundingBox>,
    confidence: Option<real>,
    content: Option<Json>,
    tableId: Option<string>)

  function TextFragment(text: string, page: int, bbox: BoundingBox, confidence: Option<real>): Fragment {
    Fragment("text", Some(page), Some(text), Some(bbox), confidence, None, None)
  }

  /** The fixed approximate box the processor gives every table. */
  const TableBox := BoundingBox(0.1, 0.1, 0.8, 0.3)

  function TableFragment(table: Json, page: int, tableId: string): Fragment {
    Fragment("table", Some(page), None, Some(TableBox), None, Some(table), Some(tableId))
  }

  // ---------------------------------------------------------------------
  // OCR rows
  // ---------------------------------------------------------------------

  /** The OCR engine's output: one entry per row in each array. `conf` holds
      the rows' confidences as the integers `int(conf)` gives (the OCR
      library already reports whole numbers); `boxes` are the rows' boxes
      already divided by the image size. */
  datatype OcrData = OcrData(text: seq<string>, conf: seq<int>, boxes: seq<BoundingBox>)

  /** A non-empty string with no whitespace at either end, as every kept row's
      text is. */
  predicate Trimmed(s: string) {
    s != "" && !IsSpace(s[0]) && !IsSpace(s[|s| - 1])
  }

  lemma StripTrimmed(s: string)
    requires Strip(s) != ""
    ensures Trimmed(Strip(s))
  {
    var t := TrimStart(s);
    TrimStartSpaces(s);
    TrimEndSpaces(t);
    assert Strip(s)[0] == t[0];
  }

  /** What one OCR row contributes: it raises (it reads past the end of a
      shorter array), it is skipped, or it is kept as a fragment. */
  datatype RowOutcome = Raises | Skipped | Kept(fragment: Fragment)

  function OcrRow(d: OcrData, i: nat): RowOutcome
    requires i < |d.text|
  {
    var t := Strip(d.text[i]);
    if t == "" then Skipped
    else if i >= |d.conf| then Raises
    else if d.conf[i] <= 30 then Skipped
    else if i >= |d.boxes| then Raises
    else Kept(TextFragment(t, 1, d.boxes[i], Some(d.conf[i] as real / 100.0)))
  }

  /** The outcome of every row, in row order. */
  function Rows(d: OcrData): (rows: seq<RowOutcome>)
    ensures |rows| == |d.text|
  {
    seq(|d.text|, i requires 0 <= i < |d.text| => OcrRow(d, i))
  }

  /** The loop's step: a raising row ends the extraction, a kept row adds its fragment. */
  function Extend(pre: Option<seq<Fragment>>, row: RowOutcome): Option<seq<Fragment>> {
    if pre.None? || row.Raises? then None
    else if row.Skipped? then pre
    else Some(pre.value + [row.fragment])
  }

  /** The fragments of the kept rows, or `None` when one of the rows raises. */
  function Collect(rows: seq<RowOutcome>): Option<seq<Fragment>> {
    if rows == [] then Some([]) else Extend(Collect(rows[..|rows| - 1]), rows[|rows| - 1])
  }

  /** The fragments of the first `n` rows. */
  function OcrBlocks(d: OcrData, n: nat): Option<seq<Fragment>>
    requires n <= |d.text|
  {
    Collect(Rows(d)[..n])
  }

  /** The extraction fails exactly when some row raises. */
  lemma {:induction false} CollectNone(rows: seq<RowOutcome>)
    ensures Collect(rows).None? <==> exists k :: 0 <= k < |rows| && rows[k].Raises?
  {
    if rows != [] {
      var pre := rows[..|rows| - 1];
      CollectNone(pre);
      assert forall k :: 0 <= k < |pre| ==> pre[k] == rows[k];
    }
  }

  /** When every kept row has a shape, so does every collected fragment. */
  lemma {:induction false} CollectShape(rows: seq<RowOutcome>)
    requires forall k :: 0 <= k < |rows| && rows[k].Kept? ==> KeptShape(rows[k].fragment)
    ensures Collect(rows).Some? ==> forall b :: b in Collect(rows).value ==> KeptShape(b)
  {
    if rows != [] {
      var pre := rows[..|rows| - 1];
      assert forall k :: 0 <= k < |pre| ==> pre[k] == rows[k];
      CollectShape(pre);
    }
  }

  lemma CollectSnoc(rows: seq<RowOutcome>, row: RowOutcome)
    ensures Collect(rows + [row]) == Extend(Collect(rows), row)
  {
    assert (rows + [row])[..|rows|] == rows;
  }

  lemma OcrBlocksStep(d: OcrData, i: nat)
    requires i < |d.text|
    ensures OcrBlocks(d, i + 1) == Extend(OcrBlocks(d, i), OcrRow(d, i))
  {
    var rows := Rows(d)[..i + 1];
    assert rows[..i] == Rows(d)[..i];
    assert rows[i] == OcrRow(d, i);
  }

  /** Every kept row is a text fragment of page 1 whose text is trimmed
      and whose confidence is at least 0.31. */
  lemma OcrBlocksShape(d: OcrData, n: nat)
    requires n <= |d.text|
    ensures var r := OcrBlocks(d, n);
            r.Some? ==> forall b :: b in r.value ==> KeptShape(b)
  {
    var rows := Rows(d)[..n];
    forall k | 0 <= k < |rows| && rows[k].Kept?
      ensures KeptShape(rows[k].fragment)
    {
      assert rows[k] == OcrRow(d, k);
      OcrRowShape(d, k);
    }
    CollectShape(rows);
  }

  predicate KeptShape(b: Fragment) {
    && b.kind == "text" && b.page == Some(1) && b.text.Some? && Trimmed(b.text.value)
    && b.confidence.Some? && b.confidence.value >= 0.31
  }

  lemma OcrRowShape(d: OcrData, i: nat)
    requires i < |d.text| && OcrRow(d, i).Kept?
    ensures KeptShape(OcrRow(d, i).fragment)
  {
    StripTrimmed(d.text[i]);
    var c := d.conf[i];
    assert c >= 31;
    assert c as real / 100.0 >= 0.31;
  }

  /** Once a row raises, the whole extraction does. */
  lemma OcrBlocksNoneSticks(d: OcrData, i: nat, n: nat)
    requires i <= n <= |d.text| && OcrBlocks(d, i).None?
    ensures OcrBlocks(d, n).None?
  {
    CollectNone(Rows(d)[..i]);
    CollectNone(Rows(d)[..n]);
    var k :| 0 <= k < i && Rows(d)[..i][k].Raises?;
    assert Rows(d)[..n][k] == Rows(d)[..i][k];
  }

  /** Each text with a space after it, as the extraction accumulates them. */
  function SpaceTerminated(ts: seq<string>): string {
    if ts == [] then "" else SpaceTerminated(ts[..|ts| - 1]) + ts[|ts| - 1] + " "
  }

  function TextsOf(blocks: seq<Fragment>): (ts: seq<string>)
    ensures |ts| == |blocks|
  {
    seq(|blocks|, i requires 0 <= i < |blocks| => blocks[i].text.GetOr(""))
  }

  lemma {:induction false} SpaceTerminatedIsJoin(ts: seq<string>)
    requires ts != []
    ensures SpaceTerminated(ts) == Join(ts, " ") + " "
  {
    if |ts| > 1 {
      SpaceTerminatedIsJoin(ts[..|ts| - 1]);
    }
  }

  lemma {:induction false} JoinFirstChar(ts: seq<string>, sep: string)
    requires ts != [] && ts[0] != ""
    ensures Join(ts, sep) != "" && Join(ts, sep)[0] == ts[0][0]
  {
    if |ts| > 1 {
      var pre := ts[..|ts| - 1];
      assert pre[0] == ts[0];
      JoinFirstChar(pre, sep);
    }
  }

  lemma JoinLastChar(ts: seq<string>, sep: string)
    requires ts != [] && ts[|ts| - 1] != ""
    ensures Join(ts, sep) != "" && Join(ts, sep)[|Join(ts, sep)| - 1] == ts[|ts| - 1][|ts[|ts| - 1]| - 1]
  {
  }

  /** Joining words the first and last of which are trimmed gives a trimmed string. */
  lemma JoinTrimmed(ts: seq<string>, sep: string)
    requires ts != [] && Trimmed(ts[0]) && Trimmed(ts[|ts| - 1])
    ensures Trimmed(Join(ts, sep))
  {
    var j := Join(ts, sep);
    var first, last := ts[0], ts[|ts| - 1];
    JoinFirstChar(ts, sep);
    JoinLastChar(ts, sep);
    assert j[0] == first[0] && j[|j| - 1] == last[|last| - 1];
  }

  lemma StripSpaced(s: string)
    requires Trimmed(s)
    ensures Strip(s + " ") == s
  {
    var t := s + " ";
    assert TrimStart(t) == t;
    assert t[..|s|] == s;
    assert TrimEnd(t) == TrimEnd(s);
  }

  /** Stripping the space-terminated words gives them joined by single spaces. */
  lemma StripSpaceTerminated(ts: seq<string>)
    requires forall k :: 0 <= k < |ts| ==> Trimmed(ts[k])
    ensures Strip(SpaceTerminated(ts)) == Join(ts, " ")
  {
    if ts != [] {
      SpaceTerminatedIsJoin(ts);
      JoinTrimmed(ts, " ");
      StripSpaced(Join(ts, " "));
    }
  }

  /** The OCR loop of `extract_from_image`: the kept rows and the full text,
      or `("", [])` when the OCR engine raised or a row read past an array. */
  method ExtractFromImage(ocr: Option<OcrData>) returns (fullText: string, blocks: seq<Fragment>)
    ensures ocr.None? ==> fullText == "" && blocks == []
    ensures ocr.Some? && OcrBlocks(ocr.value, |ocr.value.text|).None? ==> fullText == "" && blocks == []
    ensures ocr.Some? && OcrBlocks(ocr.value, |ocr.value.text|).Some? ==>
              blocks == OcrBlocks(ocr.value, |ocr.value.text|).value && fullText == Join(TextsOf(blocks), " ")
    ensures (fullText, blocks) == ImageExtraction(ocr)
  {
    if ocr.None? {
      return "", [];
    }
    var d := ocr.value;
    blocks := [];
    var text := "";
    var i := 0;
    while i < |d.text|
      invariant 0 <= i <= |d.text|
      invariant OcrBlocks(d, i) == Some(blocks)
      invariant text == SpaceTerminated(TextsOf(blocks))
    {
      var row := OcrRow(d, i);
      OcrBlocksStep(d, i);
      if row.Raises? {
        OcrBlocksNoneSticks(d, i + 1, |d.text|);
        return "", [];
      }
      if row.Kept? {
        OcrRowShape(d, i);
        TextsOfSnoc(blocks, row.fragment);
        blocks := blocks + [row.fragment];
        text := text + row.fragment.text.value + " ";
      }
      i := i + 1;
    }
    OcrBlocksShape(d, |d.text|);
    TextsOfTrimmed(blocks);
    StripSpaceTerminated(TextsOf(blocks));
    fullText := Strip(text);
  }

  lemma TextsOfSnoc(blocks: seq<Fragment>, b: Fragment)
    ensures TextsOf(blocks + [b]) == TextsOf(blocks) + [b.text.GetOr("")]
    ensures TextsOf(blocks + [b])[..|blocks|] == TextsOf(blocks)
  {
    assert TextsOf(blocks + [b]) == TextsOf(blocks) + [b.text.GetOr("")];
  }

  lemma TextsOfTrimmed(blocks: seq<Fragment>)
    requires forall b :: b in blocks ==> KeptShape(b)
    ensures forall k :: 0 <= k < |blocks| ==> Trimmed(TextsOf(blocks)[k])
  {
    forall k | 0 <= k < |blocks|
      ensures Trimmed(TextsOf(blocks)[k])
    {
      assert blocks[k] in blocks;
    }
  }

  /** What `extract_from_image` returns for what the OCR engine reported. */
  function ImageExtraction(ocr: Option<OcrData>): (string, seq<Fragment>) {
    if ocr.None? then ("", [])
    else
      var r := OcrBlocks(ocr.value, |ocr.value.text|);
      if r.None? then ("", []) else (Join(TextsOf(r.value), " "), r.value)
  }

  /** The fragment a row gives when nothing about it is dropped. */
  function KeptFragment(d: OcrData, i: nat): Fragment
    requires i < |d.text| && i < |d.conf| && i < |d.boxes|
  {
    TextFragment(d.text[i], 1, d.boxes[i], Some(d.conf[i] as real / 100.0))
  }

  /** A trimmed row with confidence above 30 and a box is kept as it is. */
  lemma OcrRowKept(d: OcrData, i: nat)
    requires i < |d.text| && i < |d.conf| && i < |d.boxes|
    requires Trimmed(d.text[i]) && d.conf[i] > 30
    ensures OcrRow(d, i) == Kept(KeptFragment(d, i))
  {
    StripOfTrimmed(d.text[i]);
  }

  /** When every one of the first `n` rows is already trimmed text with
      confidence above 30 and a box, each gives one fragment, in row order. */
  lemma OcrAllKept(d: OcrData, n: nat)
    requires n <= |d.text| && n <= |d.conf| && n <= |d.boxes|
    requires forall i :: 0 <= i < n ==> Trimmed(d.text[i]) && d.conf[i] > 30
    ensures OcrBlocks(d, n).Some? && |OcrBlocks(d, n).value| == n
    ensures forall i :: 0 <= i < n ==> OcrBlocks(d, n).value[i] == KeptFragment(d, i)
  {
    var rows := Rows(d)[..n];
    forall k | 0 <= k < n
      ensures rows[k] == Kept(KeptFragment(d, k))
    {
      OcrRowKept(d, k);
    }
    CollectAllKept(rows);
  }

  /** Rows that are all kept give their fragments, one each, in order. */
  lemma {:induction false} CollectAllKept(rows: seq<RowOutcome>)
    requires forall k :: 0 <= k < |rows| ==> rows[k].Kept?
    ensures Collect(rows).Some? && |Collect(rows).value| == |rows|
    ensures forall k :: 0 <= k < |rows| ==> Collect(rows).value[k] == rows[k].fragment
  {
    if rows != [] {
      var pre := rows[..|rows| - 1];
      assert forall k :: 0 <= k < |pre| ==> pre[k] == rows[k];
      CollectAllKept(pre);
    }
  }

  /** The rows of the processor's unit test: both kept, in order, at
      confidence 0.85 and 0.9, giving the text "Hello World". */
  lemma OcrExample()
    ensures var d := OcrData(["Hello", "World"], [85, 90],
                             [BoundingBox(0.1, 0.2, 0.4, 0.2), BoundingBox(0.6, 0.2, 0.5, 0.2)]);
            var r := OcrBlocks(d, 2);
            && r.Some? && |r.value| == 2
            && r.value[0].text == Some("Hello") && r.value[0].confidence == Some(0.85)
            && r.value[1].text == Some("World") && r.value[1].confidence == Some(0.9)
            && Join(TextsOf(r.value), " ") == "Hello World"
  {
    var b0, b1 := BoundingBox(0.1, 0.2, 0.4, 0.2), BoundingBox(0.6, 0.2, 0.5, 0.2);
    var d := OcrData(["Hello", "World"], [85, 90], [b0, b1]);
    assert Trimmed(d.text[0]) && Trimmed(d.text[1]);
    OcrAllKept(d, 2);
    var r := OcrBlocks(d, 2).value;
    assert r[0] == KeptFragment(d, 0) && r[1] == KeptFragment(d, 1);
    assert r[0].confidence == Some(85 as real / 100.0) == Some(0.85);
    assert r[1].confidence == Some(90 as real / 100.0) == Some(0.9);
    assert TextsOf(r) == ["Hello", "World"];
    HelloWorld();
  }

  lemma HelloWorld()
    ensures Join(["Hello", "World"], " ") == "Hello World"
  {
    assert ["Hello", "World"][..1] == ["Hello"];
  }

  // ---------------------------------------------------------------------
  // PDF words and tables
  // ---------------------------------------------------------------------

  /** A word as the PDF library reports it, its box divided by the page size. */
  datatype PdfWord = PdfWord(text: string, bbox: BoundingBox)

  /** A page as the PDF library reports it: its text (`None` when it has
      none), its words and its tables. */
  datatype PdfPage = PdfPage(text: Option<string>, words: seq<PdfWord>, tables: seq<Json>)

  /** The word fragments of one page. */
  function PageWords(words: seq<PdfWord>, page: int): (r: seq<Fragment>)
    ensures |r| == |words|
    ensures forall k :: 0 <= k < |r| ==> r[k] == TextFragment(words[k].text, page, words[k].bbox, None)
  {
    seq(|words|, k requires 0 <= k < |words| => TextFragment(words[k].text, page, words[k].bbox, None))
  }

  /** The full text: for every page, its numbered banner and its text. */
  function PdfText(pages: seq<PdfPage>): string {
    if pages == [] then ""
    else
      var n := |pages|;
      PdfText(pages[..n - 1]) + "\n--- Page " + NatToString(n) + " ---\n" + pages[n - 1].text.GetOr("") + "\n"
  }

  /** The word fragments of all pages, page by page, pages numbered from 1. */
  function PdfWords(pages: seq<PdfPage>): seq<Fragment> {
    if pages == [] then [] else PdfWords(pages[..|pages| - 1]) + PageWords(pages[|pages| - 1].words, |pages|)
  }

  /** Word fragments are numbered with pages 1 to the page count, in page order. */
  lemma {:induction false} PdfWordsInPageOrder(pages: seq<PdfPage>)
    ensures forall i :: 0 <= i < |PdfWords(pages)| ==>
              PdfWords(pages)[i].page.Some? && 1 <= PdfWords(pages)[i].page.value <= |pages|
    ensures forall i, j :: 0 <= i < j < |PdfWords(pages)| ==> PdfWords(pages)[i].page.value <= PdfWords(pages)[j].page.value
  {
    if pages != [] {
      PdfWordsInPageOrder(pages[..|pages| - 1]);
    }
  }

  /** The inner loop of `extract_text_from_pdf`: one page's words appended. */
  method AddPageWords(blocks: seq<Fragment>, words: seq<PdfWord>, page: int) returns (blocks': seq<Fragment>)
    ensures blocks' == blocks + PageWords(words, page)
  {
    blocks' := blocks;
    var w := 0;
    while w < |words|
      invariant 0 <= w <= |words|
      invariant |blocks'| == |blocks| + w
      invariant blocks'[..|blocks|] == blocks
      invariant forall k :: 0 <= k < w ==> blocks'[|blocks| + k] == TextFragment(words[k].text, page, words[k].bbox, None)
    {
      blocks' := blocks' + [TextFragment(words[w].text, page, words[w].bbox, None)];
      w := w + 1;
    }
    assert blocks' == blocks + PageWords(words, page);
  }

  /** `extract_text_from_pdf`. */
  method ExtractTextFromPdf(pdf: Option<seq<PdfPage>>) returns (fullText: string, blocks: seq<Fragment>)
    ensures pdf.None? ==> fullText == "" && blocks == []
    ensures pdf.Some? ==> fullText == PdfText(pdf.value) && blocks == PdfWords(pdf.value)
  {
    if pdf.None? {
      return "", [];
    }
    var pages := pdf.value;
    fullText, blocks := "", [];
    var p := 0;
    while p < |pages|
      invariant 0 <= p <= |pages|
      invariant fullText == PdfText(pages[..p]) && blocks == PdfWords(pages[..p])
    {
      var page := pages[p];
      assert pages[..p + 1][..p] == pages[..p];
      fullText := fullText + "\n--- Page " + NatToString(p + 1) + " ---\n" + page.text.GetOr("") + "\n";
      blocks := AddPageWords(blocks, page.words, p + 1);
      p := p + 1;
    }
    assert pages[..p] == pages;
  }

  /** The table fragments of one page: a falsy table is skipped but still
      counts in the numbering. */
  function PageTables(tables: seq<Json>, page: int): seq<Fragment> {
    if tables == [] then []
    else
      var i := |tables| - 1;
      PageTables(tables[..i], page) +
        (if Truthy(tables[i]) then [TableFragment(tables[i], page, "table_" + IntToString(page) + "_" + NatToString(i))] else [])
  }

  /** Every table fragment holds a truthy table of its page, under the id
      `table_<page>_<i>` of that table's position on the page. */
  lemma {:induction false} PageTablesShape(tables: seq<Json>, page: int)
    ensures forall f :: f in PageTables(tables, page) ==>
              exists i :: 0 <= i < |tables| && Truthy(tables[i])
                && f == TableFragment(tables[i], page, "table_" + IntToString(page) + "_" + NatToString(i))
    ensures |PageTables(tables, page)| <= |tables|
  {
    if tables != [] {
      var i := |tables| - 1;
      PageTablesShape(tables[..i], page);
      forall f | f in PageTables(tables, page)
        ensures exists j :: 0 <= j < |tables| && Truthy(tables[j])
                  && f == TableFragment(tables[j], page, "table_" + IntToString(page) + "_" + NatToString(j))
      {
        if f in PageTables(tables[..i], page) {
          var j :| 0 <= j < |tables[..i]| && Truthy(tables[..i][j])
                   && f == TableFragment(tables[..i][j], page, "table_" + IntToString(page) + "_" + NatToString(j));
          assert tables[..i][j] == tables[j];
        }
      }
    }
  }

  function PdfTables(pages: seq<PdfPage>): seq<Fragment> {
    if pages == [] then [] else PdfTables(pages[..|pages| - 1]) + PageTables(pages[|pages| - 1].tables, |pages|)
  }

  /** The inner loop of `extract_tables_from_pdf`: one page's tables appended. */
  method AddPageTables(tables: seq<Fragment>, pageTables: seq<Json>, page: int) returns (tables': seq<Fragment>)
    ensures tables' == tables + PageTables(pageTables, page)
  {
    tables' := tables;
    var i := 0;
    while i < |pageTables|
      invariant 0 <= i <= |pageTables|
      invariant tables' == tables + PageTables(pageTables[..i], page)
    {
      assert pageTables[..i + 1][..i] == pageTables[..i];
      if Truthy(pageTables[i]) {
        tables' := tables' + [TableFragment(pageTables[i], page, "table_" + IntToString(page) + "_" + NatToString(i))];
      }
      i := i + 1;
    }
    assert pageTables[..i] == pageTables;
  }

  /** `extract_tables_from_pdf`. */
  method ExtractTablesFromPdf(pdf: Option<seq<PdfPage>>) returns (tables: seq<Fragment>)
    ensures pdf.None? ==> tables == []
    ensures pdf.Some? ==> tables == PdfTables(pdf.value)
  {
    if pdf.None? {
      return [];
    }
    var pages := pdf.value;
    tables := [];
    var p := 0;
    while p < |pages|
      invariant 0 <= p <= |pages|
      invariant tables == PdfTables(pages[..p])
    {
      var page := pages[p];
      assert pages[..p + 1][..p] == pages[..p];
      tables := AddPageTables(tables, page.tables, p + 1);
      p := p + 1;
    }
    assert pages[..p] == pages;
  }

  // ---------------------------------------------------------------------
  // Dispatch
  // ---------------------------------------------------------------------

  /** What `process_document` returns: the full text, the raw fragments and
      the document's metadata. */
  datatype ParsedDocument = ParsedDocument(text: string, elements: seq<Fragment>, metadata: DocumentMetadata)

  /** The document type `process_document` assigns to an extension. */
  function TypeForExtension(ext: string): (t: DocumentType)
    ensures t == Pdf <==> ext == ".pdf"
    ensures t == Png <==> ext == ".png"
    ensures t != Jpg
  {
    if ext == ".pdf" then Pdf else if ext == ".png" then Png else Jpeg
  }

  /** What `process_document(file_path, filename)` returns. `fileSize` and
      `pdfPageCount` are what the size query and the page-count reader return,
      or the text of the exception they raise, which `process_document`
      re-raises. */
  function Parse(filename: string, fileSize: Result<nat>, pdf: Option<seq<PdfPage>>,
                 pdfPageCount: Result<nat>, ocr: Option<OcrData>, now: Timestamp): (r: Result<ParsedDocument>)
    ensures fileSize.Err? ==> r == Err(fileSize.message)
    ensures var ext := Extension(Lower(filename));
            fileSize.Ok? && ext == ".pdf" ==>
              if pdfPageCount.Err? then r == Err(pdfPageCount.message)
              else r.Ok? && r.value.metadata.documentType == Pdf && r.value.metadata.pageCount == pdfPageCount.value
                   && r.value.elements == (if pdf.Some? then PdfWords(pdf.value) + PdfTables(pdf.value) else [])
                   && r.value.text == (if pdf.Some? then PdfText(pdf.value) else "")
    ensures var ext := Extension(Lower(filename));
            fileSize.Ok? && ext != ".pdf" ==>
              && r.Ok? && r.value.metadata.documentType == (if ext == ".png" then Png else Jpeg)
              && r.value.metadata.pageCount == 1
              && (r.value.text, r.value.elements) == ImageExtraction(ocr)
    ensures r.Ok? ==> var m := r.value.metadata;
              && m.filename == filename && m.fileSize == fileSize.value && m.uploadTimestamp == now
              && m.ocrLanguages == ["en"] && m.ocrModelsUsed == ["tesseract"]
              && m.processingStart.None? && m.processingEnd.None?
  {
    var ext := Extension(Lower(filename));
    if fileSize.Err? then Err(fileSize.message)
    else if ext == ".pdf" then
      if pdfPageCount.Err? then Err(pdfPageCount.message)
      else
        var text := if pdf.Some? then PdfText(pdf.value) else "";
        var elements := if pdf.Some? then PdfWords(pdf.value) + PdfTables(pdf.value) else [];
        Ok(ParsedDocument(text, elements, DocumentMetadata(filename, fileSize.value, Pdf, pdfPageCount.value, now,
                                                           ocrLanguages := ["en"], ocrModelsUsed := ["tesseract"])))
    else
      var (text, elements) := ImageExtraction(ocr);
      Ok(ParsedDocument(text, elements, DocumentMetadata(filename, fileSize.value, TypeForExtension(ext), 1, now,
                                                         ocrLanguages := ["en"], ocrModelsUsed := ["tesseract"])))
  }

  /** `process_document(file_path, filename)`, calling the three extractors. */
  method ProcessDocument(filename: string, fileSize: Result<nat>, pdf: Option<seq<PdfPage>>,
                         pdfPageCount: Result<nat>, ocr: Option<OcrData>, now: Timestamp)
    returns (r: Result<ParsedDocument>)
    ensures r == Parse(filename, fileSize, pdf, pdfPageCount, ocr, now)
  {
    var ext := Extension(Lower(filename));
    if fileSize.Err? {
      return Err(fileSize.message);
    }
    var text: string;
    var elements: seq<Fragment>;
    var pageCount: nat;
    if ext == ".pdf" {
      text, elements := ExtractTextFromPdf(pdf);
      var tables := ExtractTablesFromPdf(pdf);
      assert pdf.None? ==> elements + tables == [];
      elements := elements + tables;
      if pdfPageCount.Err? {
        return Err(pdfPageCount.message);
      }
      pageCount := pdfPageCount.value;
    } else {
      text, elements := ExtractFromImage(ocr);
      pageCount := 1;
    }
    var metadata := DocumentMetadata(filename, fileSize.value, TypeForExtension(ext), pageCount, now,
                                     ocrLanguages := ["en"], ocrModelsUsed := ["tesseract"]);
    return Ok(ParsedDocument(text, elements, metadata));
  }
}
