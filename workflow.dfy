/** The document-processing workflow: a state object carried through five
    stages (parse, structure, validate, highlight, store) that stop at the
    first failure, with the stages' own data logic — the page tree built
    from raw fragments, the confidence rules, the highlight metadata and the
    summary. The extractor, the reasoning service's replies, the clock and
    the file system are inputs, gathered in `Environment`. */
module Workflow {
  import opened Wrappers
  import opened Strings
  import opened Json
  import opened Document
  import opened TextChunking
  import opened LlmService
  import opened Storage
  import opened DocumentProcessor

  // ---------------------------------------------------------------------
  // Structuring: fragments grouped by page
  // ---------------------------------------------------------------------

  /** `element.get('page', 1)`. */
  function PageOf(f: Fragment): int {
    f.page.GetOr(1)
  }

  /** The distinct pages of `raw`, in order of first appearance: the keys of
      the `pages` dictionary in insertion order. */
  function PagesInOrder(raw: seq<Fragment>): seq<int> {
    if raw == [] then []
    else
      var pre := PagesInOrder(raw[..|raw| - 1]);
      var p := PageOf(raw[|raw| - 1]);
      if p in pre then pre else pre + [p]
  }

  /** Every page appears once, and exactly the pages of the fragments appear. */
  lemma {:induction false} PagesInOrderDistinct(raw: seq<Fragment>)
    ensures forall i, j :: 0 <= i < j < |PagesInOrder(raw)| ==> PagesInOrder(raw)[i] != PagesInOrder(raw)[j]
    ensures forall p :: p in PagesInOrder(raw) <==> exists k :: 0 <= k < |raw| && PageOf(raw[k]) == p
  {
    if raw != [] {
      var pre := raw[..|raw| - 1];
      PagesInOrderDistinct(pre);
      forall p
        ensures p in PagesInOrder(raw) <==> exists k :: 0 <= k < |raw| && PageOf(raw[k]) == p
      {
        if p in PagesInOrder(raw) && p != PageOf(raw[|raw| - 1]) {
          var k :| 0 <= k < |pre| && PageOf(pre[k]) == p;
          assert raw[k] == pre[k];
        }
        if exists k :: 0 <= k < |raw| && PageOf(raw[k]) == p {
          var k :| 0 <= k < |raw| && PageOf(raw[k]) == p;
          if k < |pre| {
            assert pre[k] == raw[k];
          }
        }
      }
    }
  }

  /** A page that appears earlier in the fragments is listed no later: the
      pages of every prefix are a prefix of the pages of the whole. */
  lemma {:induction false} PagesInOrderPrefix(raw: seq<Fragment>, n: nat)
    requires n <= |raw|
    ensures |PagesInOrder(raw[..n])| <= |PagesInOrder(raw)|
    ensures PagesInOrder(raw[..n]) == PagesInOrder(raw)[..|PagesInOrder(raw[..n])|]
    decreases |raw| - n
  {
    if n < |raw| {
      PagesInOrderPrefix(raw, n + 1);
      assert raw[..n + 1][..n] == raw[..n];
    } else {
      assert raw[..n] == raw;
    }
  }

  /** The `{'text': [], 'tables': [], 'other': []}` bucket of one page. */
  datatype Bucket = Bucket(texts: seq<Fragment>, tables: seq<Fragment>, others: seq<Fragment>)

  /** The bucket of page `p` after the fragments of `raw`: a table goes to
      `tables`, a text to `text`, anything else to `other`. */
  function BucketOf(raw: seq<Fragment>, p: int): Bucket {
    if raw == [] then Bucket([], [], [])
    else
      var b := BucketOf(raw[..|raw| - 1], p);
      var f := raw[|raw| - 1];
      if PageOf(f) != p then b
      else if f.kind == "table" then b.(tables := b.tables + [f])
      else if f.kind == "text" then b.(texts := b.texts + [f])
      else b.(others := b.others + [f])
  }

  /** A page's bucket holds exactly that page's fragments of each kind. */
  lemma {:induction false} BucketMembers(raw: seq<Fragment>, p: int)
    ensures forall f :: f in BucketOf(raw, p).texts <==> f in raw && PageOf(f) == p && f.kind == "text"
    ensures forall f :: f in BucketOf(raw, p).tables <==> f in raw && PageOf(f) == p && f.kind == "table"
    ensures forall f :: f in BucketOf(raw, p).others <==>
              f in raw && PageOf(f) == p && f.kind != "text" && f.kind != "table"
  {
    if raw != [] {
      var pre := raw[..|raw| - 1];
      BucketMembers(pre, p);
      assert raw == pre + [raw[|raw| - 1]];
    }
  }

  function PageId(p: int): string {
    "page_" + IntToString(p)
  }

  /** Distinct pages get distinct container ids. */
  lemma PageIdInjective(p: int, q: int)
    requires PageId(p) == PageId(q)
    ensures p == q
  {
    assert PageId(p)[5..] == IntToString(p);
    assert PageId(q)[5..] == IntToString(q);
    IntToStringInjective(p, q);
  }

  const DefaultTextBox := BoundingBox(0.0, 0.0, 0.1, 0.05)
  const DefaultTableBox := BoundingBox(0.0, 0.0, 0.8, 0.3)

  /** The `i`-th text fragment of page `p` as an element. */
  function TextElement(p: int, i: nat, f: Fragment): ExtractedElement {
    var confidence := f.confidence.GetOr(0.8);
    ExtractedElement("text_" + IntToString(p) + "_" + NatToString(i), "text", Text(f.text.GetOr("")),
                     VisualGrounding(p, f.bbox.GetOr(DefaultTextBox), confidence),
                     parentId := Some(PageId(p)), confidence := confidence)
  }

  /** The `i`-th table fragment of page `p` as an element. */
  function TableElement(p: int, i: nat, f: Fragment): ExtractedElement {
    var id := "table_" + IntToString(p) + "_" + NatToString(i);
    ExtractedElement(id, "table",
                     Structured(map["rows" := f.content.GetOr(JList([])), "table_id" := JStr(f.tableId.GetOr(id))]),
                     VisualGrounding(p, f.bbox.GetOr(DefaultTableBox), 0.9),
                     parentId := Some(PageId(p)), confidence := 0.9)
  }

  /** A page's children: its texts, then its tables, numbered per kind. */
  function Children(p: int, b: Bucket): (kids: seq<ExtractedElement>)
    ensures |kids| == |b.texts| + |b.tables|
  {
    TextKids(p, b) + TableKids(p, b)
  }

  function TextKids(p: int, b: Bucket): (kids: seq<ExtractedElement>)
    ensures |kids| == |b.texts|
  {
    seq(|b.texts|, i requires 0 <= i < |b.texts| => TextElement(p, i, b.texts[i]))
  }

  function TableKids(p: int, b: Bucket): (kids: seq<ExtractedElement>)
    ensures |kids| == |b.tables|
  {
    seq(|b.tables|, i requires 0 <= i < |b.tables| => TableElement(p, i, b.tables[i]))
  }

  function PageElement(p: int, childrenIds: seq<string>): ExtractedElement {
    ExtractedElement(PageId(p), "page", Text("Page " + IntToString(p)),
                     VisualGrounding(p, BoundingBox(0.0, 0.0, 1.0, 1.0), 1.0),
                     childrenIds := childrenIds, confidence := 1.0)
  }

  /** The elements of one page: its container, then its children. */
  function PageGroup(p: int, b: Bucket): seq<ExtractedElement> {
    var kids := Children(p, b);
    [PageElement(p, Ids(kids))] + kids
  }

  function Groups(raw: seq<Fragment>): (gs: seq<seq<ExtractedElement>>)
    ensures |gs| == |PagesInOrder(raw)|
  {
    var pages := PagesInOrder(raw);
    seq(|pages|, j requires 0 <= j < |pages| => PageGroup(pages[j], BucketOf(raw, pages[j])))
  }

  /** The element tree built by the structuring stage, page group after page group. */
  function Tree(raw: seq<Fragment>): seq<ExtractedElement> {
    Flatten(Groups(raw))
  }

  /** A page group opens with its `page_<p>` container, which lists its
      children's ids in order. */
  lemma PageContainer(p: int, b: Bucket)
    ensures var g := PageGroup(p, b);
      && |g| == 1 + |b.texts| + |b.tables|
      && g[0] == PageElement(p, Ids(g[1..]))
      && g[0].id == PageId(p) && g[0].kind == "page" && g[0].grounding.pageNumber == p && g[0].confidence == 1.0
  {
    var g := PageGroup(p, b);
    assert g[1..] == Children(p, b);
  }

  /** After the container come the page's texts, in bucket order. */
  lemma PageTexts(p: int, b: Bucket)
    ensures var g := PageGroup(p, b);
      forall i :: 0 <= i < |b.texts| ==> g[1 + i] == TextElement(p, i, b.texts[i])
  {
    var kids := Children(p, b);
    var g := PageGroup(p, b);
    forall i | 0 <= i < |b.texts|
      ensures g[1 + i] == TextElement(p, i, b.texts[i])
    {
      assert g[1 + i] == kids[i];
      TextChildAt(p, b, i);
    }
  }

  /** Then come its tables, in bucket order. */
  lemma PageTables(p: int, b: Bucket)
    ensures var g := PageGroup(p, b);
      forall i :: 0 <= i < |b.tables| ==> g[1 + |b.texts| + i] == TableElement(p, i, b.tables[i])
  {
    var kids := Children(p, b);
    var g := PageGroup(p, b);
    forall i | 0 <= i < |b.tables|
      ensures g[1 + |b.texts| + i] == TableElement(p, i, b.tables[i])
    {
      assert g[1 + |b.texts| + i] == kids[|b.texts| + i];
      TableChildAt(p, b, i);
    }
  }

  /** The `i`-th text of page `p` is `text_<p>_<i>`, keeps the fragment's
      text, sits on page `p` and points back to `page_<p>`; without a box or
      confidence of its own it gets the default box and 0.8. */
  lemma TextElementFields(p: int, i: nat, f: Fragment)
    ensures var e := TextElement(p, i, f);
      && e.id == "text_" + IntToString(p) + "_" + NatToString(i) && e.kind == "text"
      && e.content == Text(f.text.GetOr(""))
      && e.parentId == Some(PageId(p)) && e.grounding.pageNumber == p
      && e.grounding.boundingBox == f.bbox.GetOr(DefaultTextBox)
      && e.confidence == e.grounding.confidence == f.confidence.GetOr(0.8)
  {
  }

  /** The `i`-th table of page `p` is `table_<p>_<i>` with confidence 0.9,
      sits on page `p` and points back to `page_<p>`; its content holds the
      fragment's rows and table id. */
  lemma TableElementFields(p: int, i: nat, f: Fragment)
    ensures var e := TableElement(p, i, f);
      && e.id == "table_" + IntToString(p) + "_" + NatToString(i) && e.kind == "table"
      && e.confidence == e.grounding.confidence == 0.9
      && e.parentId == Some(PageId(p)) && e.grounding.pageNumber == p
      && e.grounding.boundingBox == f.bbox.GetOr(DefaultTableBox)
      && e.content.Structured? && "rows" in e.content.fields && e.content.fields["rows"] == f.content.GetOr(JList([]))
  {
  }

  /** The `i`-th child of a page is its `i`-th text while the texts last. */
  lemma TextChildAt(p: int, b: Bucket, i: nat)
    requires i < |b.texts|
    ensures Children(p, b)[i] == TextElement(p, i, b.texts[i])
  {
    assert Children(p, b)[i] == TextKids(p, b)[i];
  }

  /** After the texts, the children are the page's tables. */
  lemma TableChildAt(p: int, b: Bucket, i: nat)
    requires i < |b.tables|
    ensures Children(p, b)[|b.texts| + i] == TableElement(p, i, b.tables[i])
  {
    assert Children(p, b)[|b.texts| + i] == TableKids(p, b)[i];
  }


  /** Structuring emits one container per distinct page, in order of first
      appearance. */
  lemma TreeContainers(raw: seq<Fragment>)
    ensures var gs := Groups(raw); var pages := PagesInOrder(raw);
      forall j :: 0 <= j < |gs| ==> gs[j][0] == PageElement(pages[j], Ids(gs[j][1..]))
  {
    var gs: seq<seq<ExtractedElement>> := Groups(raw);
    var pages := PagesInOrder(raw);
    forall j | 0 <= j < |gs|
      ensures gs[j][0] == PageElement(pages[j], Ids(gs[j][1..]))
    {
      PageContainer(pages[j], BucketOf(raw, pages[j]));
    }
  }

  /** No two page containers share an id. */
  lemma TreeContainerIdsDistinct(raw: seq<Fragment>)
    ensures var gs := Groups(raw);
      forall i, j :: 0 <= i < j < |gs| ==> gs[i][0].id != gs[j][0].id
  {
    var gs: seq<seq<ExtractedElement>> := Groups(raw);
    var pages := PagesInOrder(raw);
    PagesInOrderDistinct(raw);
    forall i, j | 0 <= i < j < |gs|
      ensures gs[i][0].id != gs[j][0].id
    {
      if gs[i][0].id == gs[j][0].id {
        assert gs[i][0].id == PageId(pages[i]);
        assert gs[j][0].id == PageId(pages[j]);
        PageIdInjective(pages[i], pages[j]);
      }
    }
  }

  /** A page has a container exactly when some fragment is on it. */
  lemma TreeContainerForEveryPage(raw: seq<Fragment>, p: int)
    ensures var gs := Groups(raw);
      (exists j :: 0 <= j < |gs| && gs[j][0].id == PageId(p)) <==> exists k :: 0 <= k < |raw| && PageOf(raw[k]) == p
  {
    var gs: seq<seq<ExtractedElement>> := Groups(raw);
    var pages := PagesInOrder(raw);
    PagesInOrderDistinct(raw);
    if exists j :: 0 <= j < |gs| && gs[j][0].id == PageId(p) {
      var j :| 0 <= j < |gs| && gs[j][0].id == PageId(p);
      assert gs[j][0].id == PageId(pages[j]);
      PageIdInjective(pages[j], p);
      assert pages[j] in pages;
    }
    if exists k :: 0 <= k < |raw| && PageOf(raw[k]) == p {
      assert p in pages;
      var j :| 0 <= j < |pages| && pages[j] == p;
      assert gs[j][0].id == PageId(p);
    }
  }

  /** A page no fragment is on has an empty bucket. */
  lemma {:induction false} BucketOfUnseen(raw: seq<Fragment>, p: int)
    requires p !in PagesInOrder(raw)
    ensures BucketOf(raw, p) == Bucket([], [], [])
  {
    if raw != [] {
      BucketOfUnseen(raw[..|raw| - 1], p);
    }
  }

  /** The method form of `BucketOf`'s step: file one fragment. */
  function File(buckets: map<int, Bucket>, f: Fragment): map<int, Bucket>
    requires PageOf(f) in buckets
  {
    var p := PageOf(f);
    var b := buckets[p];
    if f.kind == "table" then buckets[p := b.(tables := b.tables + [f])]
    else if f.kind == "text" then buckets[p := b.(texts := b.texts + [f])]
    else buckets[p := b.(others := b.others + [f])]
  }

  /** The state of the grouping loop after the fragments `done`. */
  ghost predicate Grouped(done: seq<Fragment>, order: seq<int>, buckets: map<int, Bucket>) {
    && order == PagesInOrder(done)
    && (forall p :: p in buckets <==> p in order)
    && (forall p :: p in buckets ==> buckets[p] == BucketOf(done, p))
  }

  lemma GroupStep(done: seq<Fragment>, order: seq<int>, buckets: map<int, Bucket>, f: Fragment)
    requires Grouped(done, order, buckets)
    ensures var order' := if PageOf(f) in buckets then order else order + [PageOf(f)];
            var withPage := if PageOf(f) in buckets then buckets else buckets[PageOf(f) := Bucket([], [], [])];
            Grouped(done + [f], order', File(withPage, f))
  {
    var p := PageOf(f);
    var withPage := if p in buckets then buckets else buckets[p := Bucket([], [], [])];
    if p !in buckets {
      BucketOfUnseen(done, p);
    }
    PagesInOrderSnoc(done, f);
    var filed := File(withPage, f);
    forall q | q in filed
      ensures filed[q] == BucketOf(done + [f], q)
    {
      BucketOfSnoc(done, f, q);
    }
  }

  lemma PagesInOrderSnoc(done: seq<Fragment>, f: Fragment)
    ensures PagesInOrder(done + [f]) ==
            if PageOf(f) in PagesInOrder(done) then PagesInOrder(done) else PagesInOrder(done) + [PageOf(f)]
  {
    assert (done + [f])[..|done|] == done;
  }

  lemma BucketOfSnoc(done: seq<Fragment>, f: Fragment, q: int)
    ensures var b := BucketOf(done, q);
            BucketOf(done + [f], q) ==
              if PageOf(f) != q then b
              else if f.kind == "table" then b.(tables := b.tables + [f])
              else if f.kind == "text" then b.(texts := b.texts + [f])
              else b.(others := b.others + [f])
  {
    assert (done + [f])[..|done|] == done;
  }

  /** The container and children of one page, as the second loop builds them:
      the container is created with no children and each child's id is
      appended to it as the child is added. */
  method BuildPage(p: int, b: Bucket) returns (group: seq<ExtractedElement>)
    ensures group == PageGroup(p, b)
  {
    var kids, childrenIds := AddTexts(p, b);
    kids, childrenIds := AddTables(p, b, kids, childrenIds);
    group := [PageElement(p, childrenIds)] + kids;
  }

  /** The loop over a page's texts: each becomes a child, its id appended. */
  method AddTexts(p: int, b: Bucket) returns (kids: seq<ExtractedElement>, childrenIds: seq<string>)
    ensures kids == TextKids(p, b) && childrenIds == Ids(kids)
  {
    ghost var want := TextKids(p, b);
    childrenIds, kids := [], [];
    var i := 0;
    while i < |b.texts|
      invariant 0 <= i <= |b.texts| && kids == want[..i] && childrenIds == Ids(kids)
    {
      var element := TextElement(p, i, b.texts[i]);
      IdsSnoc(kids, element);
      assert want[..i + 1] == want[..i] + [element];
      kids := kids + [element];
      childrenIds := childrenIds + [element.id];
      i := i + 1;
    }
    assert want[..i] == want;
  }

  /** The loop over a page's tables, after its texts. */
  method AddTables(p: int, b: Bucket, texts: seq<ExtractedElement>, textIds: seq<string>)
    returns (kids: seq<ExtractedElement>, childrenIds: seq<string>)
    requires texts == TextKids(p, b) && textIds == Ids(texts)
    ensures kids == Children(p, b) && childrenIds == Ids(kids)
  {
    ghost var want := TableKids(p, b);
    kids, childrenIds := texts, textIds;
    var i := 0;
    while i < |b.tables|
      invariant 0 <= i <= |b.tables| && kids == texts + want[..i] && childrenIds == Ids(kids)
    {
      var element := TableElement(p, i, b.tables[i]);
      IdsSnoc(kids, element);
      assert want[..i + 1] == want[..i] + [element];
      kids := kids + [element];
      childrenIds := childrenIds + [element.id];
      i := i + 1;
    }
    assert want[..i] == want;
  }

  lemma IdsSnoc(es: seq<ExtractedElement>, e: ExtractedElement)
    ensures Ids(es + [e]) == Ids(es) + [e.id]
  {
  }

  /** The tree-building part of `_structure_step`. */
  method StructureElements(raw: seq<Fragment>) returns (elements: seq<ExtractedElement>)
    ensures elements == Tree(raw)
  {
    var order, buckets := GroupByPage(raw);
    elements := BuildPages(order, buckets);
    GroupsOfGrouped(raw, order, buckets);
  }

  /** The first loop: fragments are filed into per-page buckets, pages
      numbered in order of first appearance. */
  method GroupByPage(raw: seq<Fragment>) returns (order: seq<int>, buckets: map<int, Bucket>)
    ensures order == PagesInOrder(raw)
    ensures forall p :: p in buckets <==> p in order
    ensures forall p :: p in buckets ==> buckets[p] == BucketOf(raw, p)
  {
    order, buckets := [], map[];
    var i := 0;
    while i < |raw|
      invariant 0 <= i <= |raw|
      invariant Grouped(raw[..i], order, buckets)
    {
      order, buckets := GroupOne(raw[..i], order, buckets, raw[i]);
      assert raw[..i + 1] == raw[..i] + [raw[i]];
      i := i + 1;
    }
    assert raw[..i] == raw;
  }

  /** One turn of the first loop: the fragment's page gets a bucket on first
      sight, and the fragment is filed into it. */
  method GroupOne(ghost done: seq<Fragment>, order: seq<int>, buckets: map<int, Bucket>, f: Fragment)
    returns (order': seq<int>, buckets': map<int, Bucket>)
    requires Grouped(done, order, buckets)
    ensures Grouped(done + [f], order', buckets')
  {
    GroupStep(done, order, buckets, f);
    var p := PageOf(f);
    order', buckets' := order, buckets;
    if p !in buckets {
      order' := order + [p];
      buckets' := buckets[p := Bucket([], [], [])];
    }
    buckets' := File(buckets', f);
  }

  /** The groups of the pages in `order`, each built from its bucket. */
  function GroupsOf(order: seq<int>, buckets: map<int, Bucket>): (gs: seq<seq<ExtractedElement>>)
    requires forall p :: p in order ==> p in buckets
    ensures |gs| == |order|
  {
    seq(|order|, j requires 0 <= j < |order| => PageGroup(order[j], buckets[order[j]]))
  }

  /** The second loop: each page's group, page after page. */
  method BuildPages(order: seq<int>, buckets: map<int, Bucket>) returns (elements: seq<ExtractedElement>)
    requires forall p :: p in order ==> p in buckets
    ensures elements == Flatten(GroupsOf(order, buckets))
  {
    elements := [];
    ghost var gs := GroupsOf(order, buckets);
    var j := 0;
    while j < |order|
      invariant 0 <= j <= |order|
      invariant elements == Flatten(gs[..j])
    {
      var group := BuildPage(order[j], buckets[order[j]]);
      assert group == gs[j];
      FlattenPrefix(gs, j);
      elements := elements + group;
      j := j + 1;
    }
    assert gs[..j] == gs;
  }

  lemma GroupsOfGrouped(raw: seq<Fragment>, order: seq<int>, buckets: map<int, Bucket>)
    requires order == PagesInOrder(raw)
    requires forall p :: p in buckets <==> p in order
    requires forall p :: p in buckets ==> buckets[p] == BucketOf(raw, p)
    ensures GroupsOf(order, buckets) == Groups(raw)
  {
    var gs, hs := GroupsOf(order, buckets), Groups(raw);
    forall j | 0 <= j < |order|
      ensures gs[j] == hs[j]
    {
      assert order[j] in order;
    }
  }

  // ---------------------------------------------------------------------
  // Validation
  // ---------------------------------------------------------------------

  /** `state.confidence_threshold`. */
  const ConfidenceThreshold: real := 0.7

  function Max(a: real, b: real): real {
    if a >= b then a else b
  }

  /** The rule-based check of one element: a text is confirmed when its
      content is a non-blank string, a table when its content holds truthy
      `rows`, and a page always; a confirmed element keeps at least the
      rule's floor confidence, an unconfirmed one gets the rule's penalty
      value, and any other kind keeps its confidence. The element is then
      marked validated exactly when its confidence reaches the threshold. */
  function BaseValidated(e: ExtractedElement): (r: ExtractedElement)
    ensures r == e.(confidence := r.confidence, validated := r.validated)
    ensures r.validated <==> r.confidence >= ConfidenceThreshold
    ensures e.kind == "text" ==> (r.validated <==> e.content.Text? && Strip(e.content.text) != "")
    ensures e.kind == "table" ==> (r.validated <==> e.content.Structured? && Truthy(Get(e.content.fields, "rows")))
    ensures e.kind == "page" ==> r.confidence == 1.0 && r.validated
    ensures e.kind != "text" && e.kind != "table" && e.kind != "page" ==> r.confidence == e.confidence
    ensures r.validated && e.kind != "page" ==> r.confidence >= e.confidence
  {
    var c :=
      if e.kind == "text" then
        (if e.content.Text? && |Strip(e.content.text)| > 0 then Max(e.confidence, 0.8) else 0.3)
      else if e.kind == "table" then
        (if e.content.Structured? && Truthy(Get(e.content.fields, "rows")) then Max(e.confidence, 0.9) else 0.4)
      else if e.kind == "page" then 1.0
      else e.confidence;
    e.(confidence := c, validated := c >= ConfidenceThreshold)
  }

  /** Running the rules twice gives what running them once gives. */
  lemma BaseValidatedIdempotent(e: ExtractedElement)
    ensures BaseValidated(BaseValidated(e)) == BaseValidated(e)
  {
  }

  function BaseValidateAll(els: seq<ExtractedElement>): (r: seq<ExtractedElement>)
    ensures |r| == |els| && forall i :: 0 <= i < |els| ==> r[i] == BaseValidated(els[i])
  {
    seq(|els|, i requires 0 <= i < |els| => BaseValidated(els[i]))
  }

  /** The rule-based loop of `_validate_step`. */
  method ValidateElements(els: seq<ExtractedElement>) returns (validated: seq<ExtractedElement>)
    ensures validated == BaseValidateAll(els)
  {
    validated := els;
    var i := 0;
    while i < |validated|
      invariant 0 <= i <= |validated| == |els|
      invariant forall k :: 0 <= k < i ==> validated[k] == BaseValidated(els[k])
      invariant forall k :: i <= k < |els| ==> validated[k] == els[k]
    {
      validated := validated[i := BaseValidated(validated[i])];
      i := i + 1;
    }
    assert forall k :: 0 <= k < |els| ==> validated[k] == BaseValidateAll(els)[k];
  }

  /** Every element marked validated reaches the threshold and every other
      does not. */
  predicate ThresholdConsistent(els: seq<ExtractedElement>) {
    forall i :: 0 <= i < |els| ==> (els[i].validated <==> els[i].confidence >= ConfidenceThreshold)
  }

  /** `element_id_map[id]`: the map from id to index is built left to right,
      so a repeated id maps to its last index. */
  function IdIndex(els: seq<ExtractedElement>, id: string): (r: Option<nat>)
    ensures r.Some? ==> r.value < |els| && els[r.value].id == id
    ensures r.Some? ==> forall k :: r.value < k < |els| ==> els[k].id != id
    ensures r.None? ==> forall k :: 0 <= k < |els| ==> els[k].id != id
  {
    if els == [] then None
    else if els[|els| - 1].id == id then Some(|els| - 1)
    else IdIndex(els[..|els| - 1], id)
  }

  /** The element `els[idx]` after the service's confidence `n` for it. */
  function Rescored(e: ExtractedElement, n: real): ExtractedElement {
    e.(confidence := n, validated := n >= ConfidenceThreshold)
  }

  /** What one entry of the service's `elements` does: `None` when Python
      raises on it (`in` on a value that is not a container, a string
      subscript on a list or string containing `"id"`, an unhashable id, a
      comparison with a non-number), otherwise the updated elements and
      whether one was updated. `ids` are the elements the id map was built
      from. */
  function OverlayItem(ids: seq<ExtractedElement>, els: seq<ExtractedElement>, item: Json)
    : (r: Option<(seq<ExtractedElement>, bool)>)
    requires |els| == |ids|
    ensures r.Some? ==> |r.value.0| == |els|
    ensures r.Some? && !r.value.1 ==> r.value.0 == els
    ensures r.Some? && r.value.1 ==>
              && item.JObj? && "id" in item.fields && item.fields["id"].JStr?
              && IdIndex(ids, item.fields["id"].s).Some? && "confidence" in item.fields
              && AsNumber(item.fields["confidence"]).Some?
              && var idx := IdIndex(ids, item.fields["id"].s).value;
                 r.value.0 == els[idx := Rescored(els[idx], AsNumber(item.fields["confidence"]).value)]
  {
    match ContainsKey(item, "id")
    case None => None
    case Some(false) => Some((els, false))
    case Some(true) =>
      if !item.JObj? then None
      else
        var v := item.fields["id"];
        if v.JList? || v.JObj? then None
        else if v.JStr? && IdIndex(ids, v.s).Some? then
          var idx := IdIndex(ids, v.s).value;
          if "confidence" !in item.fields then Some((els, false))
          else match AsNumber(item.fields["confidence"])
            case None => None
            case Some(n) => Some((els[idx := Rescored(els[idx], n)], true))
        else Some((els, false))
  }

  /** The loop over the service's `elements` so far: the elements, the
      number updated, and whether an entry raised (which ends the loop and
      keeps the updates already made). */
  datatype OverlayState = OverlayState(elements: seq<ExtractedElement>, count: nat, raised: bool)

  function OverlayItems(els: seq<ExtractedElement>, items: seq<Json>): (r: OverlayState)
    ensures |r.elements| == |els|
  {
    if items == [] then OverlayState(els, 0, false)
    else
      var prev := OverlayItems(els, items[..|items| - 1]);
      if prev.raised then prev
      else match OverlayItem(els, prev.elements, items[|items| - 1])
        case None => prev.(raised := true)
        case Some((updated, hit)) => OverlayState(updated, prev.count + (if hit then 1 else 0), false)
  }

  /** The result of the overlay: the elements and the log line, if any. */
  datatype OverlayOutcome = OverlayOutcome(elements: seq<ExtractedElement>, logLine: Option<string>)

  function UpdatedLine(n: nat): string {
    "Enhanced validation using LLM: updated " + NatToString(n) + " elements"
  }

  /** `IsSubstring("id", k)` for some key `k` of `m`. */
  predicate SomeKeyMentionsId(m: map<string, Json>) {
    exists k :: k in m && IsSubstring("id", k)
  }

  /** The part of `_validate_step` that applies the service's verdict. An
      empty verdict is skipped. A verdict without `"elements"` reaches the
      log line with `updated_count` unbound, so Python raises before logging
      and nothing changes. Iterating a string gives one-character strings,
      none of which contains `"id"`; iterating a dictionary gives its keys,
      and a key containing `"id"` is then subscripted with a string and
      raises; iterating anything else but a list raises. */
  function Overlay(els: seq<ExtractedElement>, verdict: map<string, Json>): (r: OverlayOutcome)
    ensures |r.elements| == |els|
    ensures "elements" !in verdict ==> r == OverlayOutcome(els, None)
    ensures r.logLine.Some? ==> "elements" in verdict
    ensures r.elements != els ==> "elements" in verdict && verdict["elements"].JList?
  {
    if verdict == map[] || "elements" !in verdict then OverlayOutcome(els, None)
    else match verdict["elements"]
      case JList(items) =>
        var run := OverlayItems(els, items);
        OverlayOutcome(run.elements, if run.raised then None else Some(UpdatedLine(run.count)))
      case JStr(_) => OverlayOutcome(els, Some(UpdatedLine(0)))
      case JObj(m) => OverlayOutcome(els, if SomeKeyMentionsId(m) then None else Some(UpdatedLine(0)))
      case _ => OverlayOutcome(els, None)
  }

  /** The overlay changes only confidences and validated flags, never
      updates more elements than the service listed, and keeps every flag in
      agreement with its confidence. */
  lemma {:induction false} OverlayItemsShape(els: seq<ExtractedElement>, items: seq<Json>)
    ensures var r := OverlayItems(els, items);
      && r.count <= |items|
      && (forall k :: 0 <= k < |els| ==>
            r.elements[k] == els[k].(confidence := r.elements[k].confidence, validated := r.elements[k].validated))
      && (ThresholdConsistent(els) ==> ThresholdConsistent(r.elements))
  {
    if items != [] {
      var pre := items[..|items| - 1];
      OverlayItemsShape(els, pre);
      var prev := OverlayItems(els, pre);
      var item := items[|items| - 1];
      if !prev.raised {
        var step := OverlayItem(els, prev.elements, item);
        if step.Some? && step.value.1 {
          var idx := IdIndex(els, item.fields["id"].s).value;
          assert step.value.0 == prev.elements[idx := Rescored(prev.elements[idx], AsNumber(item.fields["confidence"]).value)];
        }
      }
    }
  }

  /** An element that no dictionary entry carrying a `"confidence"` names
      by id keeps its confidence and flag. */
  lemma {:induction false} OverlayItemsUnnamed(els: seq<ExtractedElement>, items: seq<Json>, k: nat)
    requires k < |els|
    requires forall j ::
               (0 <= j < |items| && items[j].JObj? && "id" in items[j].fields && items[j].fields["id"] == JStr(els[k].id))
               ==> "confidence" !in items[j].fields
    ensures OverlayItems(els, items).elements[k] == els[k]
  {
    if items != [] {
      var pre := items[..|items| - 1];
      OverlayItemsUnnamed(els, pre, k);
      var prev := OverlayItems(els, pre);
      var item := items[|items| - 1];
      if !prev.raised {
        var step := OverlayItem(els, prev.elements, item);
        if step.Some? && step.value.1 {
          var idx := IdIndex(els, item.fields["id"].s).value;
          assert els[idx].id == item.fields["id"].s;
          assert item == items[|items| - 1] && "confidence" in item.fields;
          assert idx != k;
        }
      }
    }
  }

  /** The verdict `_validate_step` receives. It passes the element list
      itself as `extracted_data`, so `validate_extraction` cannot look up
      `"elements"` in it and returns its default verdict; that verdict has no
      `"elements"`, so the overlay never applies. */
  lemma OverlayInWorkflow(els: seq<ExtractedElement>)
    ensures ElementsField(JList(seq(|els|, i requires 0 <= i < |els| => ElementToJson(els[i])))).None?
    ensures Overlay(els, DefaultVerdict(0.8)) == OverlayOutcome(els, None)
  {
  }

  /** The number of elements marked validated. */
  function CountValidated(els: seq<ExtractedElement>): (n: nat)
    ensures n <= |els|
  {
    if els == [] then 0 else CountValidated(els[..|els| - 1]) + (if els[|els| - 1].validated then 1 else 0)
  }

  /** The indices of the elements that reach the threshold. */
  function Reaching(els: seq<ExtractedElement>): set<nat> {
    set i: nat | i < |els| && els[i].confidence >= ConfidenceThreshold
  }

  lemma ReachingSnoc(els: seq<ExtractedElement>)
    requires els != []
    ensures var n := |els| - 1;
            Reaching(els) == Reaching(els[..n]) + (if els[n].confidence >= ConfidenceThreshold then {n} else {})
            && n !in Reaching(els[..n])
  {
    var n := |els| - 1;
    assert forall i :: 0 <= i < n ==> els[..n][i] == els[i];
  }

  /** After the rule-based loop, the validated count is the number of
      elements that reach the threshold. */
  lemma {:induction false} CountValidatedThreshold(els: seq<ExtractedElement>)
    requires ThresholdConsistent(els)
    ensures CountValidated(els) == |Reaching(els)|
  {
    if els != [] {
      var n := |els| - 1;
      var pre := els[..n];
      assert forall i :: 0 <= i < n ==> pre[i] == els[i];
      CountValidatedThreshold(pre);
      ReachingSnoc(els);
    } else {
      assert Reaching(els) == {};
    }
  }

  // ---------------------------------------------------------------------
  // Highlighting
  // ---------------------------------------------------------------------

  /** `_get_highlight_color(element_type)`. */
  function HighlightColor(kind: string): string {
    if kind == "text" then "#3B82F6"
    else if kind == "table" then "#10B981"
    else if kind == "form_field" then "#F59E0B"
    else if kind == "image" then "#8B5CF6"
    else if kind == "header" then "#EF4444"
    else "#6B7280"
  }

  const HighlightedKinds: seq<string> := ["text", "table", "form_field", "image", "header"]

  /** Each of the five known kinds has a colour of its own, different from
      the grey every other kind gets. */
  lemma HighlightColorsDistinguishKinds(a: string, b: string)
    ensures a in HighlightedKinds && b in HighlightedKinds && a != b ==> HighlightColor(a) != HighlightColor(b)
    ensures a in HighlightedKinds ==> HighlightColor(a) != "#6B7280"
    ensures a !in HighlightedKinds ==> HighlightColor(a) == "#6B7280"
  {
  }

  function HighlightMetadata(kind: string): map<string, Json> {
    map["highlight_color" := JStr(HighlightColor(kind)), "border_width" := JNum(2.0), "opacity" := JNum(0.3)]
  }

  /** One element after the highlighting loop: every element except a page
      container gains the three rendering keys, overriding any it had, and
      keeps the rest of its metadata and all its other fields. */
  function Highlighted(e: ExtractedElement): (r: ExtractedElement)
    ensures e.kind == "page" ==> r == e
    ensures e.kind != "page" ==> r == e.(metadata := r.metadata)
    ensures e.kind != "page" ==> r.metadata.Keys == e.metadata.Keys + {"highlight_color", "border_width", "opacity"}
    ensures e.kind != "page" ==> r.metadata["highlight_color"] == JStr(HighlightColor(e.kind))
    ensures e.kind != "page" ==> forall k :: k in e.metadata && k !in HighlightMetadata(e.kind) ==> r.metadata[k] == e.metadata[k]
  {
    if e.kind == "page" then e else e.(metadata := e.metadata + HighlightMetadata(e.kind))
  }

  /** Highlighting twice gives what highlighting once gives. */
  lemma HighlightedIdempotent(e: ExtractedElement)
    ensures Highlighted(Highlighted(e)) == Highlighted(e)
  {
    if e.kind != "page" {
      var h := HighlightMetadata(e.kind);
      assert (e.metadata + h) + h == e.metadata + h;
    }
  }

  function HighlightAll(els: seq<ExtractedElement>): (r: seq<ExtractedElement>)
    ensures |r| == |els| && forall i :: 0 <= i < |els| ==> r[i] == Highlighted(els[i])
  {
    seq(|els|, i requires 0 <= i < |els| => Highlighted(els[i]))
  }

  /** The highlighting loop of `_highlight_step`. */
  method HighlightElements(els: seq<ExtractedElement>) returns (highlighted: seq<ExtractedElement>)
    ensures highlighted == HighlightAll(els)
  {
    highlighted := els;
    var i := 0;
    while i < |highlighted|
      invariant 0 <= i <= |highlighted| == |els|
      invariant forall k :: 0 <= k < i ==> highlighted[k] == Highlighted(els[k])
      invariant forall k :: i <= k < |els| ==> highlighted[k] == els[k]
    {
      var element := highlighted[i];
      if element.kind != "page" {
        highlighted := highlighted[i := element.(metadata := element.metadata + HighlightMetadata(element.kind))];
      }
      i := i + 1;
    }
    assert forall k :: 0 <= k < |els| ==> highlighted[k] == HighlightAll(els)[k];
  }

  // ---------------------------------------------------------------------
  // Storing: summary and page index
  // ---------------------------------------------------------------------

  /** The number of elements of one kind. */
  function CountKind(els: seq<ExtractedElement>, kind: string): nat {
    if els == [] then 0 else CountKind(els[..|els| - 1], kind) + (if els[|els| - 1].kind == kind then 1 else 0)
  }

  /** Texts and tables together are never more than all elements. */
  lemma {:induction false} CountKindsBounded(els: seq<ExtractedElement>)
    ensures CountKind(els, "text") + CountKind(els, "table") <= |els|
  {
    if els != [] {
      CountKindsBounded(els[..|els| - 1]);
    }
  }

  /** The `summary` of `structured_data`; a missing metadata record counts
      as one page. */
  function SummaryOf(els: seq<ExtractedElement>, metadata: Option<DocumentMetadata>): (r: Summary)
    ensures r.totalElements == |els|
    ensures r.textElements + r.tableElements <= r.totalElements && r.validatedElements <= r.totalElements
    ensures r.pages == (if metadata.Some? then metadata.value.pageCount else 1)
  {
    CountKindsBounded(els);
    Summary(|els|, if metadata.Some? then metadata.value.pageCount else 1,
            CountKind(els, "text"), CountKind(els, "table"), CountValidated(els))
  }

  /** One entry of `elements_by_page`: a structured content is shown through
      its `str()` rendering `repr`, cut to 100 characters. */
  function Entry(e: ExtractedElement, repr: map<string, Json> -> string): (r: PageEntry)
    ensures r.id == e.id && r.kind == e.kind && r.confidence == e.confidence && r.validated == e.validated
    ensures e.content.Text? ==> r.content == e.content.text
    ensures e.content.Structured? ==>
              && |r.content| == (if |repr(e.content.fields)| < 100 then |repr(e.content.fields)| else 100)
              && r.content == repr(e.content.fields)[..|r.content|]
  {
    PageEntry(e.id, e.kind, match e.content case Text(t) => t case Structured(m) => Take(repr(m), 100),
              e.confidence, e.validated)
  }

  function PageOfElement(e: ExtractedElement): int {
    e.grounding.pageNumber
  }

  /** The entries of the elements on page `p`, in element order. */
  function EntriesOn(els: seq<ExtractedElement>, p: int, repr: map<string, Json> -> string): seq<PageEntry> {
    if els == [] then []
    else
      var pre := EntriesOn(els[..|els| - 1], p, repr);
      if PageOfElement(els[|els| - 1]) == p then pre + [Entry(els[|els| - 1], repr)] else pre
  }

  function PageSet(els: seq<ExtractedElement>): set<int> {
    set i | 0 <= i < |els| :: PageOfElement(els[i])
  }

  /** `elements_by_page`: for every page some element is on, that page's entries. */
  function ByPage(els: seq<ExtractedElement>, repr: map<string, Json> -> string): map<int, seq<PageEntry>> {
    map p | p in PageSet(els) :: EntriesOn(els, p, repr)
  }

  /** Every element is listed under its own page and every listed entry
      comes from an element on that page. */
  lemma {:induction false} EntriesOnMembers(els: seq<ExtractedElement>, p: int, repr: map<string, Json> -> string)
    ensures forall x :: x in EntriesOn(els, p, repr) <==>
              exists k :: 0 <= k < |els| && PageOfElement(els[k]) == p && x == Entry(els[k], repr)
  {
    if els != [] {
      var pre := els[..|els| - 1];
      EntriesOnMembers(pre, p, repr);
      forall x
        ensures x in EntriesOn(els, p, repr) <==>
                exists k :: 0 <= k < |els| && PageOfElement(els[k]) == p && x == Entry(els[k], repr)
      {
        if x in EntriesOn(pre, p, repr) {
          var k :| 0 <= k < |pre| && PageOfElement(pre[k]) == p && x == Entry(pre[k], repr);
          assert els[k] == pre[k];
        }
        if exists k :: 0 <= k < |els| && PageOfElement(els[k]) == p && x == Entry(els[k], repr) {
          var k :| 0 <= k < |els| && PageOfElement(els[k]) == p && x == Entry(els[k], repr);
          if k < |pre| {
            assert pre[k] == els[k];
          }
        }
      }
    }
  }

  lemma {:induction false} EntriesOnAbsent(els: seq<ExtractedElement>, p: int, repr: map<string, Json> -> string)
    requires p !in PageSet(els)
    ensures EntriesOn(els, p, repr) == []
  {
    if els != [] {
      var pre := els[..|els| - 1];
      assert PageSet(pre) <= PageSet(els) by {
        forall q | q in PageSet(pre) ensures q in PageSet(els) {
          var i :| 0 <= i < |pre| && PageOfElement(pre[i]) == q;
          assert els[i] == pre[i];
        }
      }
      EntriesOnAbsent(pre, p, repr);
      assert PageOfElement(els[|els| - 1]) in PageSet(els);
    }
  }

  /** The page index covers every element, under its own page, and nothing else. */
  lemma ByPageCovers(els: seq<ExtractedElement>, repr: map<string, Json> -> string)
    ensures forall k :: 0 <= k < |els| ==>
              PageOfElement(els[k]) in ByPage(els, repr) && Entry(els[k], repr) in ByPage(els, repr)[PageOfElement(els[k])]
    ensures forall p, x :: p in ByPage(els, repr) && x in ByPage(els, repr)[p] ==>
              exists k :: 0 <= k < |els| && PageOfElement(els[k]) == p && x == Entry(els[k], repr)
  {
    forall k | 0 <= k < |els|
      ensures PageOfElement(els[k]) in ByPage(els, repr)
      ensures Entry(els[k], repr) in ByPage(els, repr)[PageOfElement(els[k])]
    {
      assert PageOfElement(els[k]) in PageSet(els);
      EntriesOnMembers(els, PageOfElement(els[k]), repr);
    }
    forall p, x | p in ByPage(els, repr) && x in ByPage(els, repr)[p]
      ensures exists k :: 0 <= k < |els| && PageOfElement(els[k]) == p && x == Entry(els[k], repr)
    {
      EntriesOnMembers(els, p, repr);
    }
  }

  /** One step of the grouping loop. */
  lemma ByPageSnoc(els: seq<ExtractedElement>, e: ExtractedElement, repr: map<string, Json> -> string)
    ensures var m := ByPage(els, repr); var p := PageOfElement(e);
      ByPage(els + [e], repr) == m[p := (if p in m then m[p] else []) + [Entry(e, repr)]]
  {
    var all := els + [e];
    var m := ByPage(els, repr);
    var p := PageOfElement(e);
    assert all[..|all| - 1] == els;
    assert PageSet(all) == PageSet(els) + {p} by {
      forall q | q in PageSet(all) ensures q in PageSet(els) + {p} {
        var i :| 0 <= i < |all| && PageOfElement(all[i]) == q;
        if i < |els| { assert all[i] == els[i]; }
      }
      forall q | q in PageSet(els) ensures q in PageSet(all) {
        var i :| 0 <= i < |els| && PageOfElement(els[i]) == q;
        assert all[i] == els[i];
      }
      assert PageOfElement(all[|els|]) == p;
    }
    if p !in m {
      EntriesOnAbsent(els, p, repr);
    }
  }

  /** `_group_elements_by_page(elements)`. */
  method GroupElementsByPage(els: seq<ExtractedElement>, repr: map<string, Json> -> string)
    returns (pages: map<int, seq<PageEntry>>)
    ensures pages == ByPage(els, repr)
  {
    pages := map[];
    var i := 0;
    assert ByPage(els[..0], repr) == map[];
    while i < |els|
      invariant 0 <= i <= |els|
      invariant pages == ByPage(els[..i], repr)
    {
      var element := els[i];
      var pageNum := element.grounding.pageNumber;
      if pageNum !in pages {
        pages := pages[pageNum := []];
      }
      pages := pages[pageNum := pages[pageNum] + [Entry(element, repr)]];
      ByPageSnoc(els[..i], element, repr);
      assert els[..i + 1] == els[..i] + [element];
      i := i + 1;
    }
    assert els[..i] == els;
  }

  // ---------------------------------------------------------------------
  // The state object and the stages
  // ---------------------------------------------------------------------

  datatype Stage = ParseStage | StructureStage | ValidateStage | HighlightStage | StoreStage

  /** The status a stage sets when it starts. */
  function StageStatus(stage: Stage): ProcessingStatus {
    match stage
    case ParseStage => Parsing
    case StructureStage => Structuring
    case ValidateStage => Validating
    case HighlightStage => Highlighting
    case StoreStage => Storing
  }

  /** The word in a stage's "Started …" log line. */
  function StageName(stage: Stage): string {
    match stage
    case ParseStage => "parsing"
    case StructureStage => "structuring"
    case ValidateStage => "validation"
    case HighlightStage => "highlighting"
    case StoreStage => "storing"
  }

  /** Everything outside the workflow's own logic. The file's size, its PDF
      pages and page count, and its OCR table are what the extractors read
      (see `DocumentProcessor.Parse`). Whether a service key is configured and
      the service's replies per chunk stand for the reasoning service.
      `convert` is `ExtractedElement(**elem)` on one entry the service
      returned, `repr` is `str()` of a structured content, `now` the one clock
      reading used for every timestamp, and `persisted` whether file writes
      succeed. `faults` names the stages whose body raises an exception the
      model does not otherwise produce, with its message; the exception is
      taken to occur right after the stage's opening lines. */
  datatype Environment = Environment(
    fileSize: Result<nat>,
    pdf: Option<seq<PdfPage>>,
    pdfPageCount: Result<nat>,
    ocr: Option<OcrData>,
    hasApiKey: bool,
    structureReply: (seq<Json>, nat) -> Reply,
    validationReply: (Json, nat) -> Reply,
    convert: Json -> Option<ExtractedElement>,
    repr: map<string, Json> -> string,
    now: Timestamp,
    persisted: bool,
    faults: map<Stage, string>)

  /** The fields of `DocumentProcessingState`; `structuredData` is `None`
      while it is still the initial empty dictionary. */
  datatype StateView = StateView(
    transactionId: string,
    filePath: string,
    filename: string,
    rawText: string,
    rawElements: seq<Fragment>,
    extractedElements: seq<ExtractedElement>,
    structuredData: Option<StructuredData>,
    metadata: Option<DocumentMetadata>,
    status: ProcessingStatus,
    errorMessage: Option<string>,
    processingLog: seq<string>)

  const InitialView := StateView("", "", "", "", [], [], None, None, Pending, None, [])

  class ProcessingState {
    var transactionId: string
    var filePath: string
    var filename: string
    var rawText: string
    var rawElements: seq<Fragment>
    var extractedElements: seq<ExtractedElement>
    var structuredData: Option<StructuredData>
    var metadata: Option<DocumentMetadata>
    var status: ProcessingStatus
    var errorMessage: Option<string>
    var processingLog: seq<string>

    function View(): StateView
      reads this
    {
      StateView(transactionId, filePath, filename, rawText, rawElements, extractedElements,
                structuredData, metadata, status, errorMessage, processingLog)
    }

    constructor ()
      ensures View() == InitialView
    {
      transactionId, filePath, filename, rawText := "", "", "", "";
      rawElements, extractedElements := [], [];
      structuredData, metadata := None, None;
      status, errorMessage, processingLog := Pending, None, [];
    }
  }

  /** The workflow's state together with what the store holds. */
  datatype Snapshot = Snapshot(state: StateView, stored: map<string, ProcessingResult>)

  /** The store after `update_status(id, status, message)`. */
  function Touch(stored: map<string, ProcessingResult>, id: string, status: ProcessingStatus,
                 message: Option<string>, now: Timestamp): map<string, ProcessingResult>
  {
    if id in stored then stored[id := WithStatus(stored[id], status, message, now)] else stored
  }

  function Log(v: StateView, line: string): StateView {
    v.(processingLog := v.processingLog + [line])
  }

  /** A stage's opening lines: status, "Started …" log line, status update in the store. */
  function Opened(s: Snapshot, stage: Stage, now: Timestamp): Snapshot {
    Snapshot(Log(s.state.(status := StageStatus(stage)), "Started " + StageName(stage) + ": " + now),
             Touch(s.stored, s.state.transactionId, StageStatus(stage), None, now))
  }

  /** A stage's exception handler: the message is kept in the state, and the
      store marks the result failed and logs the message. */
  function Failure(s: Snapshot, message: string, now: Timestamp): Snapshot {
    Snapshot(s.state.(errorMessage := Some(message), status := Failed),
             Touch(s.stored, s.state.transactionId, Failed, Some(message), now))
  }

  function ParseBody(s: Snapshot, env: Environment): Snapshot {
    match Parse(s.state.filename, env.fileSize, env.pdf, env.pdfPageCount, env.ocr, env.now)
    case Err(m) => Failure(s, m, env.now)
    case Ok(d) =>
      s.(state := Log(s.state.(rawText := d.text, rawElements := d.elements, metadata := Some(d.metadata)),
                      "Parsed " + NatToString(|d.elements|) + " elements"))
  }

  /** `[elem.dict() for elem in elements]`. */
  function Dicts(els: seq<ExtractedElement>): (r: seq<Json>)
    ensures |r| == |els| && forall i :: 0 <= i < |els| ==> r[i] == ElementToJson(els[i])
  {
    seq(|els|, i requires 0 <= i < |els| => ElementToJson(els[i]))
  }

  /** The service's elements converted back, or `None` when any conversion raises. */
  function ConvertAll(xs: seq<Json>, convert: Json -> Option<ExtractedElement>): (r: Option<seq<ExtractedElement>>)
    ensures r.Some? <==> forall i :: 0 <= i < |xs| ==> convert(xs[i]).Some?
    ensures r.Some? ==> |r.value| == |xs| && forall i :: 0 <= i < |xs| ==> convert(xs[i]) == Some(r.value[i])
  {
    if forall i :: 0 <= i < |xs| ==> convert(xs[i]).Some? then
      Some(seq(|xs|, i requires 0 <= i < |xs| => convert(xs[i]).value))
    else None
  }

  /** The conversion loop of `_structure_step`. */
  method ConvertElements(xs: seq<Json>, convert: Json -> Option<ExtractedElement>)
    returns (r: Option<seq<ExtractedElement>>)
    ensures r == ConvertAll(xs, convert)
  {
    var converted: seq<ExtractedElement> := [];
    var i := 0;
    while i < |xs|
      invariant 0 <= i <= |xs|
      invariant forall j :: 0 <= j < i ==> convert(xs[j]).Some?
      invariant converted == seq(i, j requires 0 <= j < i => convert(xs[j]).value)
    {
      var element := convert(xs[i]);
      if element.None? {
        return None;
      }
      converted := converted + [element.value];
      i := i + 1;
    }
    return Some(converted);
  }

  /** The structuring stage after its opening lines, given what the service
      returned for the element dictionaries. */
  function StructureBody(s: Snapshot, env: Environment, enhanced: seq<Json>): Snapshot {
    var tree := Tree(s.state.rawElements);
    var v := Log(s.state.(extractedElements := tree), "Structured into " + NatToString(|tree|) + " elements");
    var converted := ConvertAll(enhanced, env.convert);
    if enhanced != [] && converted.Some? then
      s.(state := Log(v.(extractedElements := converted.value),
                      "Enhanced structure using LLM: " + NatToString(|converted.value|) + " elements"))
    else s.(state := v)
  }

  /** The validation stage after its opening lines, given the service's verdict. */
  function ValidateBody(s: Snapshot, verdict: map<string, Json>): Snapshot {
    var outcome := Overlay(BaseValidateAll(s.state.extractedElements), verdict);
    var v := s.state.(extractedElements := outcome.elements);
    var v' := if outcome.logLine.Some? then Log(v, outcome.logLine.value) else v;
    s.(state := Log(v', "Validated " + NatToString(CountValidated(outcome.elements)) + " elements"))
  }

  function HighlightBody(s: Snapshot): Snapshot {
    s.(state := Log(s.state.(extractedElements := HighlightAll(s.state.extractedElements)), "Created visual highlights"))
  }

  /** The message of the exception `ProcessingResult(...)` raises when the
      metadata is missing (its wording is not modelled). */
  const MissingMetadata: string := "metadata: field required"

  function StructuredDataOf(els: seq<ExtractedElement>, metadata: Option<DocumentMetadata>,
                            repr: map<string, Json> -> string): StructuredData
  {
    StructuredData(SummaryOf(els, metadata), ByPage(els, repr))
  }

  /** The result the storing stage files. */
  function FinalResult(v: StateView, now: Timestamp): ProcessingResult
    requires v.metadata.Some?
  {
    ProcessingResult(v.transactionId, Completed, v.metadata.value, now, now, v.extractedElements,
                     Some(v.rawText), v.structuredData, None, v.processingLog)
  }

  function StoreBody(s: Snapshot, env: Environment): Snapshot {
    var v := s.state.(structuredData := Some(StructuredDataOf(s.state.extractedElements, s.state.metadata, env.repr)));
    if v.metadata.None? then Failure(Snapshot(v, s.stored), MissingMetadata, env.now)
    else Snapshot(Log(v.(status := Completed), "Completed processing: " + env.now),
                  s.stored[v.transactionId := FinalResult(v, env.now)])
  }

  /** One stage as a whole. */
  function StageSpec(stage: Stage, s: Snapshot, env: Environment, enhanced: seq<Json>): Snapshot {
    var o := Opened(s, stage, env.now);
    if stage in env.faults then Failure(o, env.faults[stage], env.now)
    else match stage
      case ParseStage => ParseBody(o, env)
      case StructureStage => StructureBody(o, env, enhanced)
      case ValidateStage => ValidateBody(o, DefaultVerdict(0.8))
      case HighlightStage => HighlightBody(o)
      case StoreStage => StoreBody(o, env)
  }

  /** The next stage, unless an earlier one failed. */
  function Then(s: Snapshot, stage: Stage, env: Environment, enhanced: seq<Json>): Snapshot {
    if s.state.status == Failed then s else StageSpec(stage, s, env, enhanced)
  }

  /** The five stages in order, stopping after the first that fails. */
  function Run(s0: Snapshot, env: Environment, enhanced: seq<Json>): Snapshot {
    var s1 := StageSpec(ParseStage, s0, env, []);
    var s2 := Then(s1, StructureStage, env, enhanced);
    var s3 := Then(s2, ValidateStage, env, []);
    var s4 := Then(s3, HighlightStage, env, []);
    Then(s4, StoreStage, env, [])
  }

  /** The metadata `process_document` files before the stages run. */
  function InitialMetadata(filename: string, fileSize: nat, now: Timestamp): DocumentMetadata {
    var lower := Lower(filename);
    DocumentMetadata(filename, fileSize,
                     if EndsWith(lower, ".pdf") then Pdf else if EndsWith(lower, ".png") then Png else Jpeg,
                     1, now, ocrLanguages := ["en"], ocrModelsUsed := ["tesseract"])
  }

  function InitialResult(transactionId: string, metadata: DocumentMetadata, now: Timestamp): ProcessingResult {
    ProcessingResult(transactionId, Pending, metadata, now, now, processingLog := ["Started processing: " + now])
  }

  /** The snapshot just before the parsing stage. */
  function Start(transactionId: string, filePath: string, filename: string, fileSize: nat, now: Timestamp,
                 stored: map<string, ProcessingResult>): Snapshot
  {
    Snapshot(InitialView.(transactionId := transactionId, filePath := filePath, filename := filename),
             stored[transactionId := InitialResult(transactionId, InitialMetadata(filename, fileSize, now), now)])
  }

  // ---------------------------------------------------------------------
  // The stage methods
  // ---------------------------------------------------------------------

  method OpenStage(state: ProcessingState, store: InMemoryStorage, stage: Stage, env: Environment)
    requires store.Valid()
    modifies state, store
    ensures store.Valid()
    ensures Snapshot(state.View(), store.results) == Opened(old(Snapshot(state.View(), store.results)), stage, env.now)
  {
    state.status := StageStatus(stage);
    state.processingLog := state.processingLog + ["Started " + StageName(stage) + ": " + env.now];
    var _ := store.UpdateStatus(state.transactionId, StageStatus(stage), None, env.now, env.persisted);
  }

  /** The `except` branch every stage shares. */
  method Fail(state: ProcessingState, store: InMemoryStorage, message: string, env: Environment)
    requires store.Valid()
    modifies state, store
    ensures store.Valid()
    ensures Snapshot(state.View(), store.results) == Failure(old(Snapshot(state.View(), store.results)), message, env.now)
  {
    state.errorMessage := Some(message);
    state.status := Failed;
    var _ := store.UpdateStatus(state.transactionId, Failed, Some(message), env.now, env.persisted);
  }

  /** `_parse_step`. */
  method ParseStep(state: ProcessingState, store: InMemoryStorage, env: Environment)
    requires store.Valid()
    modifies state, store
    ensures store.Valid()
    ensures Snapshot(state.View(), store.results) == StageSpec(ParseStage, old(Snapshot(state.View(), store.results)), env, [])
    ensures var parsed := Parse(old(state.filename), env.fileSize, env.pdf, env.pdfPageCount, env.ocr, env.now);
      && (state.status == Failed <==> ParseStage in env.faults || parsed.Err?)
      && (state.status != Failed ==> state.rawElements == parsed.value.elements)
  {
    OpenStage(state, store, ParseStage, env);
    if ParseStage in env.faults {
      Fail(state, store, env.faults[ParseStage], env);
      return;
    }
    ParseStepBody(state, store, env);
  }

  /** The `try` block of `_parse_step` after its opening lines. */
  method ParseStepBody(state: ProcessingState, store: InMemoryStorage, env: Environment)
    requires store.Valid()
    modifies state, store
    ensures store.Valid()
    ensures Snapshot(state.View(), store.results) == ParseBody(old(Snapshot(state.View(), store.results)), env)
  {
    var parsed := DocumentProcessor.ProcessDocument(state.filename, env.fileSize, env.pdf, env.pdfPageCount, env.ocr, env.now);
    if parsed.Err? {
      Fail(state, store, parsed.message, env);
      return;
    }
    state.rawText := parsed.value.text;
    state.rawElements := parsed.value.elements;
    state.metadata := Some(parsed.value.metadata);
    state.processingLog := state.processingLog + ["Parsed " + NatToString(|parsed.value.elements|) + " elements"];
  }

  /** A service whose every reply leaves its chunk as it was. */
  ghost predicate PassesEverythingThrough(reply: (seq<Json>, nat) -> Reply) {
    forall chunk, i :: PassThrough(reply(chunk, i))
  }

  /** `_structure_step`; `enhanced` is what the service returned for the
      element dictionaries. */
  method StructureStep(state: ProcessingState, store: InMemoryStorage, env: Environment)
    returns (ghost enhanced: seq<Json>, ghost chunks: seq<seq<Json>>)
    requires store.Valid()
    modifies state, store
    ensures store.Valid()
    ensures Snapshot(state.View(), store.results) == StageSpec(StructureStage, old(Snapshot(state.View(), store.results)), env, enhanced)
    ensures state.status == Failed <==> StructureStage in env.faults
    ensures StructureStage !in env.faults && (!env.hasApiKey || PassesEverythingThrough(env.structureReply)) ==>
              enhanced == Dicts(Tree(old(state.rawElements)))
    ensures StructureStage !in env.faults && env.hasApiKey ==>
              var dicts := Dicts(Tree(old(state.rawElements)));
              ElementChunks(dicts, 20, chunks) && enhanced == Enhanced(dicts, chunks, env.structureReply)
  {
    enhanced, chunks := [], [];
    OpenStage(state, store, StructureStage, env);
    if StructureStage in env.faults {
      Fail(state, store, env.faults[StructureStage], env);
      return;
    }
    enhanced, chunks := StructureStepBody(state, store, env);
  }

  /** The `try` block of `_structure_step` after its opening lines. */
  method StructureStepBody(state: ProcessingState, store: InMemoryStorage, env: Environment)
    returns (ghost enhanced: seq<Json>, ghost chunks: seq<seq<Json>>)
    requires store.Valid()
    modifies state
    ensures store.Valid()
    ensures Snapshot(state.View(), store.results) == StructureBody(old(Snapshot(state.View(), store.results)), env, enhanced)
    ensures !env.hasApiKey || PassesEverythingThrough(env.structureReply) ==> enhanced == Dicts(Tree(old(state.rawElements)))
    ensures env.hasApiKey ==>
              var dicts := Dicts(Tree(old(state.rawElements)));
              ElementChunks(dicts, 20, chunks) && enhanced == Enhanced(dicts, chunks, env.structureReply)
  {
    ghost var s0 := Snapshot(state.View(), store.results);
    var elements := StructureElements(state.rawElements);
    state.extractedElements := elements;
    state.processingLog := state.processingLog + ["Structured into " + NatToString(|elements|) + " elements"];
    ghost var v := Log(s0.state.(extractedElements := elements), "Structured into " + NatToString(|elements|) + " elements");
    assert state.View() == v;
    var replied: seq<Json>;
    replied, chunks := EnhanceDocumentStructure(env.hasApiKey, Dicts(elements), env.structureReply);
    enhanced := replied;
    if |replied| > 0 {
      var converted := ConvertElements(replied, env.convert);
      if converted.Some? {
        state.extractedElements := converted.value;
        state.processingLog := state.processingLog +
          ["Enhanced structure using LLM: " + NatToString(|converted.value|) + " elements"];
        assert state.View() == Log(v.(extractedElements := converted.value),
                                   "Enhanced structure using LLM: " + NatToString(|converted.value|) + " elements");
      }
    }
  }

  /** Once an entry raised, later entries are not looked at. */
  lemma {:induction false} OverlayItemsRaisedSticks(els: seq<ExtractedElement>, items: seq<Json>, i: nat)
    requires i <= |items| && OverlayItems(els, items[..i]).raised
    ensures OverlayItems(els, items) == OverlayItems(els, items[..i])
    decreases |items| - i
  {
    if i < |items| {
      assert items[..i + 1][..i] == items[..i];
      OverlayItemsRaisedSticks(els, items, i + 1);
    } else {
      assert items[..i] == items;
    }
  }

  /** A one-character string never contains `"id"`. */
  lemma CharNeverMentionsId(c: char)
    ensures ContainsKey(JStr([c]), "id") == Some(false)
  {
    assert !IsSubstring("id", [c]) by {
      forall i | 0 <= i <= 1 ensures !OccursAt("id", [c], i) {}
    }
  }

  /** The loop over a list of service entries. */
  method OverlayList(els: seq<ExtractedElement>, items: seq<Json>) returns (r: OverlayState)
    ensures r == OverlayItems(els, items)
  {
    var current := els;
    var count: nat := 0;
    var i := 0;
    while i < |items|
      invariant 0 <= i <= |items|
      invariant OverlayItems(els, items[..i]) == OverlayState(current, count, false)
    {
      assert items[..i + 1][..i] == items[..i];
      var step := OverlayItem(els, current, items[i]);
      if step.None? {
        OverlayItemsRaisedSticks(els, items, i + 1);
        return OverlayState(current, count, true);
      }
      current := step.value.0;
      count := count + if step.value.1 then 1 else 0;
      i := i + 1;
    }
    assert items[..i] == items;
    return OverlayState(current, count, false);
  }

  /** The part of `_validate_step` that applies the service's verdict,
      iterating `verdict["elements"]` whatever it is. */
  method ApplyValidationOverlay(els: seq<ExtractedElement>, verdict: map<string, Json>) returns (r: OverlayOutcome)
    ensures r == Overlay(els, verdict)
  {
    if verdict == map[] || "elements" !in verdict {
      return OverlayOutcome(els, None);
    }
    match verdict["elements"]
    case JList(items) =>
      var run := OverlayList(els, items);
      return OverlayOutcome(run.elements, if run.raised then None else Some(UpdatedLine(run.count)));
    case JStr(text) =>
      var i := 0;
      while i < |text|
        invariant 0 <= i <= |text|
      {
        CharNeverMentionsId(text[i]);
        i := i + 1;
      }
      return OverlayOutcome(els, Some(UpdatedLine(0)));
    case JObj(m) =>
      var keys := m.Keys;
      while keys != {}
        invariant keys <= m.Keys
        invariant forall k :: k in m && k !in keys ==> !IsSubstring("id", k)
        decreases keys
      {
        var key :| key in keys;
        if OverlayItem(els, els, JStr(key)).None? {
          return OverlayOutcome(els, None);
        }
        keys := keys - {key};
      }
      return OverlayOutcome(els, Some(UpdatedLine(0)));
    case _ =>
      return OverlayOutcome(els, None);
  }

  /** `_validate_step`. */
  method ValidateStep(state: ProcessingState, store: InMemoryStorage, env: Environment)
    requires store.Valid()
    modifies state, store
    ensures store.Valid()
    ensures Snapshot(state.View(), store.results) == StageSpec(ValidateStage, old(Snapshot(state.View(), store.results)), env, [])
    ensures state.status == Failed <==> ValidateStage in env.faults
  {
    OpenStage(state, store, ValidateStage, env);
    if ValidateStage in env.faults {
      Fail(state, store, env.faults[ValidateStage], env);
      return;
    }
    ValidateStepBody(state, store, env);
  }

  /** The `try` block of `_validate_step` after its opening lines. */
  method ValidateStepBody(state: ProcessingState, store: InMemoryStorage, env: Environment)
    requires store.Valid()
    modifies state
    ensures store.Valid()
    ensures Snapshot(state.View(), store.results) == ValidateBody(old(Snapshot(state.View(), store.results)), DefaultVerdict(0.8))
  {
    ghost var s0 := Snapshot(state.View(), store.results);
    var elements := ValidateElements(state.extractedElements);
    state.extractedElements := elements;
    var verdict: map<string, Json>;
    ghost var items: seq<Json>, chunks: seq<seq<Json>>;
    verdict, items, chunks := ValidateExtraction(env.hasApiKey, Take(state.rawText, 5000), JList(Dicts(elements)), env.validationReply);
    var outcome := ApplyValidationOverlay(elements, verdict);
    state.extractedElements := outcome.elements;
    if outcome.logLine.Some? {
      state.processingLog := state.processingLog + [outcome.logLine.value];
    }
    OverlayInWorkflow(elements);
    assert verdict == DefaultVerdict(0.8);
    assert state.View() == s0.state.(extractedElements := outcome.elements);
    state.processingLog := state.processingLog +
      ["Validated " + NatToString(CountValidated(state.extractedElements)) + " elements"];
  }

  /** `_highlight_step`. */
  method HighlightStep(state: ProcessingState, store: InMemoryStorage, env: Environment)
    requires store.Valid()
    modifies state, store
    ensures store.Valid()
    ensures Snapshot(state.View(), store.results) == StageSpec(HighlightStage, old(Snapshot(state.View(), store.results)), env, [])
    ensures state.status == Failed <==> HighlightStage in env.faults
  {
    OpenStage(state, store, HighlightStage, env);
    if HighlightStage in env.faults {
      Fail(state, store, env.faults[HighlightStage], env);
      return;
    }
    HighlightStepBody(state, store, env);
  }

  /** The `try` block of `_highlight_step` after its opening lines. */
  method HighlightStepBody(state: ProcessingState, store: InMemoryStorage, env: Environment)
    requires store.Valid()
    modifies state
    ensures store.Valid()
    ensures Snapshot(state.View(), store.results) == HighlightBody(old(Snapshot(state.View(), store.results)))
  {
    var elements := HighlightElements(state.extractedElements);
    state.extractedElements := elements;
    state.processingLog := state.processingLog + ["Created visual highlights"];
  }

  /** `_store_step`. */
  method StoreStep(state: ProcessingState, store: InMemoryStorage, env: Environment)
    requires store.Valid()
    modifies state, store
    ensures store.Valid()
    ensures Snapshot(state.View(), store.results) == StageSpec(StoreStage, old(Snapshot(state.View(), store.results)), env, [])
    ensures state.status == Failed <==> StoreStage in env.faults || old(state.metadata).None?
  {
    OpenStage(state, store, StoreStage, env);
    if StoreStage in env.faults {
      Fail(state, store, env.faults[StoreStage], env);
      return;
    }
    StoreStepBody(state, store, env);
  }

  /** The `try` block of `_store_step` after its opening lines. */
  method StoreStepBody(state: ProcessingState, store: InMemoryStorage, env: Environment)
    requires store.Valid()
    modifies state, store
    ensures store.Valid()
    ensures Snapshot(state.View(), store.results) == StoreBody(old(Snapshot(state.View(), store.results)), env)
  {
    var byPage := GroupElementsByPage(state.extractedElements, env.repr);
    state.structuredData := Some(StructuredData(SummaryOf(state.extractedElements, state.metadata), byPage));
    if state.metadata.None? {
      Fail(state, store, MissingMetadata, env);
      return;
    }
    var result := ProcessingResult(state.transactionId, Completed, state.metadata.value, env.now, env.now,
                                   state.extractedElements, Some(state.rawText), state.structuredData, None,
                                   state.processingLog);
    var _ := store.StoreResult(result, env.persisted);
    state.status := Completed;
    state.processingLog := state.processingLog + ["Completed processing: " + env.now];
  }

  /** `SimpleDocumentWorkflow.process_document(file_path, filename)`, with
      `transactionId` the fresh identifier it draws. When the file size
      cannot be read the exception propagates (`Err`) and nothing is
      stored; otherwise the initial result is filed and the stages run. */
  method ProcessDocument(filePath: string, filename: string, transactionId: string, env: Environment,
                         store: InMemoryStorage)
    returns (r: Result<string>, ghost enhanced: seq<Json>, ghost chunks: seq<seq<Json>>)
    requires store.Valid()
    modifies store
    ensures store.Valid()
    ensures env.fileSize.Err? ==> r == Err(env.fileSize.message) && store.results == old(store.results)
    ensures env.fileSize.Ok? ==> r == Ok(transactionId)
    ensures env.fileSize.Ok? ==>
              store.results == Run(Start(transactionId, filePath, filename, env.fileSize.value, env.now, old(store.results)),
                                   env, enhanced).stored
    ensures var parsed := Parse(filename, env.fileSize, env.pdf, env.pdfPageCount, env.ocr, env.now);
            && env.fileSize.Ok? && parsed.Ok? && env.faults == map[]
            && (!env.hasApiKey || PassesEverythingThrough(env.structureReply)) ==>
              enhanced == Dicts(Tree(parsed.value.elements))
    ensures var parsed := Parse(filename, env.fileSize, env.pdf, env.pdfPageCount, env.ocr, env.now);
            && env.fileSize.Ok? && parsed.Ok? && ParseStage !in env.faults && StructureStage !in env.faults
            && env.hasApiKey ==>
              var dicts := Dicts(Tree(parsed.value.elements));
              ElementChunks(dicts, 20, chunks) && enhanced == Enhanced(dicts, chunks, env.structureReply)
  {
    enhanced, chunks := [], [];
    if env.fileSize.Err? {
      return Err(env.fileSize.message), enhanced, chunks;
    }
    var state := new ProcessingState();
    state.transactionId := transactionId;
    state.filePath := filePath;
    state.filename := filename;
    var initialMetadata := InitialMetadata(filename, env.fileSize.value, env.now);
    var initialResult := ProcessingResult(transactionId, Pending, initialMetadata, env.now, env.now,
                                          processingLog := ["Started processing: " + env.now]);
    var _ := store.StoreResult(initialResult, env.persisted);
    ghost var s0 := Snapshot(state.View(), store.results);
    assert s0 == Start(transactionId, filePath, filename, env.fileSize.value, env.now, old(store.results));

    ParseStep(state, store, env);
    ghost var s1 := Snapshot(state.View(), store.results);
    assert s1 == StageSpec(ParseStage, s0, env, []);
    if state.status == Failed {
      return Ok(transactionId), enhanced, chunks;
    }
    enhanced, chunks := StructureStep(state, store, env);
    ghost var s2 := Snapshot(state.View(), store.results);
    assert s2 == StageSpec(StructureStage, s1, env, enhanced);
    if state.status == Failed {
      return Ok(transactionId), enhanced, chunks;
    }
    ValidateStep(state, store, env);
    ghost var s3 := Snapshot(state.View(), store.results);
    assert s3 == StageSpec(ValidateStage, s2, env, []);
    if state.status == Failed {
      return Ok(transactionId), enhanced, chunks;
    }
    HighlightStep(state, store, env);
    ghost var s4 := Snapshot(state.View(), store.results);
    assert s4 == StageSpec(HighlightStage, s3, env, []);
    if state.status == Failed {
      return Ok(transactionId), enhanced, chunks;
    }
    StoreStep(state, store, env);
    return Ok(transactionId), enhanced, chunks;
  }

  // ---------------------------------------------------------------------
  // What a run does
  // ---------------------------------------------------------------------

  /** How a stage ends: the stored status follows the state's, a stage fails
      only through an injected fault, parsing errors or missing metadata at
      storing time, and a stage that does not fail leaves its own status
      (`Completed` after storing). Parsing is the one stage that sets the
      metadata. */
  lemma StageOutcome(stage: Stage, s: Snapshot, env: Environment, enhanced: seq<Json>)
    requires s.state.transactionId in s.stored
    ensures var r := StageSpec(stage, s, env, enhanced); var id := s.state.transactionId;
      && r.state.transactionId == id && r.state.filename == s.state.filename
      && id in r.stored && r.stored[id].status == r.state.status
      && (r.state.status == Failed <==>
            || stage in env.faults
            || (stage == ParseStage && Parse(s.state.filename, env.fileSize, env.pdf, env.pdfPageCount, env.ocr, env.now).Err?)
            || (stage == StoreStage && s.state.metadata.None?))
      && (r.state.status != Failed ==> r.state.status == if stage == StoreStage then Completed else StageStatus(stage))
      && (r.state.status != Failed && stage != ParseStage ==> r.state.metadata == s.state.metadata)
      && (r.state.status != Failed && stage == ParseStage ==> r.state.metadata.Some?)
  {
    if stage !in env.faults {
      match stage
      case ParseStage =>
      case StructureStage =>
      case ValidateStage =>
      case HighlightStage =>
      case StoreStage =>
    }
  }

  /** A failing stage keeps its message in the state; the store logs it
      (when it is not empty) but its `error_message` stays what it was. */
  lemma StageFailureRecorded(stage: Stage, s: Snapshot, env: Environment, enhanced: seq<Json>)
    requires s.state.transactionId in s.stored
    ensures var r := StageSpec(stage, s, env, enhanced); var id := s.state.transactionId;
      r.state.status == Failed ==>
        && r.state.errorMessage.Some? && id in r.stored
        && r.stored[id].errorMessage == s.stored[id].errorMessage
        && var log := r.stored[id].processingLog;
           (r.state.errorMessage.value != "" ==> |log| > 0 && log[|log| - 1] == env.now + ": " + r.state.errorMessage.value)
  {
    if stage !in env.faults {
      match stage
      case ParseStage =>
      case StructureStage =>
      case ValidateStage =>
      case HighlightStage =>
      case StoreStage =>
    }
  }

  /** Whether every stage runs without an injected fault. */
  predicate Unfaulted(env: Environment) {
    forall stage: Stage :: stage !in env.faults
  }

  lemma UnfaultedIsEmpty(env: Environment)
    ensures Unfaulted(env) <==> env.faults == map[]
  {
    if env.faults != map[] {
      var stage :| stage in env.faults;
      assert !Unfaulted(env);
    }
    if !Unfaulted(env) {
      var stage: Stage :| stage in env.faults;
      assert env.faults != map[];
    }
  }

  /** Why a stage that starts fails. */
  predicate StageFails(stage: Stage, s: Snapshot, env: Environment) {
    || stage in env.faults
    || (stage == ParseStage && Parse(s.state.filename, env.fileSize, env.pdf, env.pdfPageCount, env.ocr, env.now).Err?)
    || (stage == StoreStage && s.state.metadata.None?)
  }

  /** What holds of a run's snapshot between stages: the store's copy
      follows the state's status and has no error message, and once failed,
      the failure message is the store's last log line. */
  predicate Tracked(s: Snapshot, id: string, filename: string) {
    && s.state.transactionId == id && s.state.filename == filename
    && id in s.stored && s.stored[id].status == s.state.status && s.stored[id].errorMessage.None?
    && (s.state.status == Failed ==>
          && s.state.errorMessage.Some?
          && var log := s.stored[id].processingLog;
             (s.state.errorMessage.value != "" ==> |log| > 0 && log[|log| - 1] == FailureLine(s, id)))
  }

  function FailureLine(s: Snapshot, id: string): string
    requires s.state.errorMessage.Some? && id in s.stored
  {
    s.stored[id].updatedAt + ": " + s.state.errorMessage.value
  }

  lemma ThenStep(s: Snapshot, stage: Stage, env: Environment, enhanced: seq<Json>, id: string, filename: string)
    requires Tracked(s, id, filename)
    ensures var r := Then(s, stage, env, enhanced);
      && Tracked(r, id, filename)
      && (r.state.status == Failed <==> s.state.status == Failed || StageFails(stage, s, env))
      && (r.state.status != Failed ==> r.state.status == if stage == StoreStage then Completed else StageStatus(stage))
      && (r.state.status != Failed && stage != ParseStage ==> r.state.metadata == s.state.metadata)
      && (r.state.status != Failed && stage == ParseStage ==> r.state.metadata.Some?)
  {
    if s.state.status != Failed {
      StageOutcome(stage, s, env, enhanced);
      StageFailureRecorded(stage, s, env, enhanced);
    }
  }

  /** A run ends `Completed` or `Failed`, with the store agreeing, and it
      completes exactly when no stage faults and the document parses. A
      failed run records its message in the store's log, yet the stored
      `error_message` stays unset. */
  lemma RunOutcome(transactionId: string, filePath: string, filename: string, env: Environment,
                   enhanced: seq<Json>, stored: map<string, ProcessingResult>)
    requires env.fileSize.Ok?
    ensures var r := Run(Start(transactionId, filePath, filename, env.fileSize.value, env.now, stored), env, enhanced);
      && Tracked(r, transactionId, filename)
      && (r.state.status == Completed || r.state.status == Failed)
      && (r.state.status == Completed <==>
            env.faults == map[] && Parse(filename, env.fileSize, env.pdf, env.pdfPageCount, env.ocr, env.now).Ok?)
  {
    UnfaultedIsEmpty(env);
    var s0 := Start(transactionId, filePath, filename, env.fileSize.value, env.now, stored);
    var s1 := StageSpec(ParseStage, s0, env, []);
    assert s1 == Then(s0, ParseStage, env, []);
    ThenStep(s0, ParseStage, env, [], transactionId, filename);
    var s2 := Then(s1, StructureStage, env, enhanced);
    ThenStep(s1, StructureStage, env, enhanced, transactionId, filename);
    var s3 := Then(s2, ValidateStage, env, []);
    ThenStep(s2, ValidateStage, env, [], transactionId, filename);
    var s4 := Then(s3, HighlightStage, env, []);
    ThenStep(s3, HighlightStage, env, [], transactionId, filename);
    var s5 := Then(s4, StoreStage, env, []);
    ThenStep(s4, StoreStage, env, [], transactionId, filename);
    assert Run(s0, env, enhanced) == s5;
    var parsed := Parse(filename, env.fileSize, env.pdf, env.pdfPageCount, env.ocr, env.now);
    if s5.state.status == Completed {
      assert s4.state.status != Failed && s4.state.metadata.Some?;
      assert s3.state.status != Failed && s2.state.status != Failed && s1.state.status != Failed;
      assert parsed.Ok?;
      assert Unfaulted(env) by {
        forall stage: Stage ensures stage !in env.faults {
          match stage
          case ParseStage =>
          case StructureStage =>
          case ValidateStage =>
          case HighlightStage =>
          case StoreStage =>
        }
      }
    }
    if env.faults == map[] && parsed.Ok? {
      assert s1.state.status != Failed && s1.state.metadata.Some?;
      assert s2.state.status != Failed && s2.state.metadata.Some?;
      assert s3.state.status != Failed && s3.state.metadata.Some?;
      assert s4.state.status != Failed && s4.state.metadata.Some?;
    }
  }

  /** The service's entries convert back to exactly the elements whose
      dictionaries they are. */
  predicate RoundTrips(convert: Json -> Option<ExtractedElement>, els: seq<ExtractedElement>) {
    forall i :: 0 <= i < |els| ==> convert(ElementToJson(els[i])) == Some(els[i])
  }

  lemma ConvertDictsBack(els: seq<ExtractedElement>, convert: Json -> Option<ExtractedElement>)
    requires RoundTrips(convert, els)
    ensures ConvertAll(Dicts(els), convert) == Some(els)
  {
    assert ConvertAll(Dicts(els), convert).value == els;
  }

  /** The elements a run stores without the reasoning service: the page
      tree of the parsed fragments, checked by the rules, highlighted. */
  function ReferenceElements(raw: seq<Fragment>): seq<ExtractedElement> {
    HighlightAll(BaseValidateAll(Tree(raw)))
  }

  lemma ParseWithoutFault(s: Snapshot, env: Environment)
    requires ParseStage !in env.faults
    requires Parse(s.state.filename, env.fileSize, env.pdf, env.pdfPageCount, env.ocr, env.now).Ok?
    ensures var d := Parse(s.state.filename, env.fileSize, env.pdf, env.pdfPageCount, env.ocr, env.now).value;
      var r := StageSpec(ParseStage, s, env, []);
      && r.state.status == Parsing && r.state.rawElements == d.elements && r.state.rawText == d.text
      && r.state.metadata == Some(d.metadata) && r.state.transactionId == s.state.transactionId
  {
  }

  lemma StructureWithoutService(s: Snapshot, env: Environment)
    requires s.state.status != Failed && StructureStage !in env.faults && RoundTrips(env.convert, Tree(s.state.rawElements))
    ensures var r := Then(s, StructureStage, env, Dicts(Tree(s.state.rawElements)));
      && r.state.status == Structuring && r.state.extractedElements == Tree(s.state.rawElements)
      && r.state.rawText == s.state.rawText && r.state.metadata == s.state.metadata
      && r.state.transactionId == s.state.transactionId
      && (Tree(s.state.rawElements) != [] ==>
            && |r.state.processingLog| > 0
            && r.state.processingLog[|r.state.processingLog| - 1] ==
                 "Enhanced structure using LLM: " + NatToString(|Tree(s.state.rawElements)|) + " elements")
  {
    ConvertDictsBack(Tree(s.state.rawElements), env.convert);
  }

  lemma ValidateWithoutFault(s: Snapshot, env: Environment)
    requires s.state.status != Failed && ValidateStage !in env.faults
    ensures var r := Then(s, ValidateStage, env, []);
      && r.state.status == Validating && r.state.extractedElements == BaseValidateAll(s.state.extractedElements)
      && r.state.rawText == s.state.rawText && r.state.metadata == s.state.metadata
      && r.state.transactionId == s.state.transactionId
  {
    OverlayInWorkflow(BaseValidateAll(s.state.extractedElements));
  }

  lemma HighlightWithoutFault(s: Snapshot, env: Environment)
    requires s.state.status != Failed && HighlightStage !in env.faults
    ensures var r := Then(s, HighlightStage, env, []);
      && r.state.status == Highlighting && r.state.extractedElements == HighlightAll(s.state.extractedElements)
      && r.state.rawText == s.state.rawText && r.state.metadata == s.state.metadata
      && r.state.transactionId == s.state.transactionId
  {
  }

  lemma StoreWithoutFault(s: Snapshot, env: Environment)
    requires s.state.status != Failed && StoreStage !in env.faults && s.state.metadata.Some?
    ensures var r := Then(s, StoreStage, env, []); var id := s.state.transactionId;
      && id in r.stored
      && var result := r.stored[id];
         && result.status == Completed && result.metadata == s.state.metadata.value
         && result.rawText == Some(s.state.rawText) && result.extractedElements == s.state.extractedElements
         && result.structuredData == Some(StructuredDataOf(s.state.extractedElements, s.state.metadata, env.repr))
         && result.errorMessage.None?
  {
  }

  /** When the service hands the element dictionaries back as they were
      (as it does without a key, see `ProcessDocument`), there are no faults
      and the conversion round-trips, a document that parses is stored as
      completed with its text, its metadata, the reference elements and
      their summary. */
  lemma RunWithStructureKept(transactionId: string, filePath: string, filename: string, env: Environment,
                             stored: map<string, ProcessingResult>)
    requires env.fileSize.Ok? && env.faults == map[]
    requires Parse(filename, env.fileSize, env.pdf, env.pdfPageCount, env.ocr, env.now).Ok?
    requires RoundTrips(env.convert, Tree(Parse(filename, env.fileSize, env.pdf, env.pdfPageCount, env.ocr, env.now).value.elements))
    ensures var d := Parse(filename, env.fileSize, env.pdf, env.pdfPageCount, env.ocr, env.now).value;
      var enhanced := Dicts(Tree(d.elements));
      var r := Run(Start(transactionId, filePath, filename, env.fileSize.value, env.now, stored), env, enhanced);
      var els := ReferenceElements(d.elements);
      && transactionId in r.stored
      && var result := r.stored[transactionId];
         && result.status == Completed && result.metadata == d.metadata && result.rawText == Some(d.text)
         && result.extractedElements == els
         && result.structuredData == Some(StructuredDataOf(els, Some(d.metadata), env.repr))
         && result.errorMessage.None?
  {
    var d := Parse(filename, env.fileSize, env.pdf, env.pdfPageCount, env.ocr, env.now).value;
    var enhanced := Dicts(Tree(d.elements));
    var s0 := Start(transactionId, filePath, filename, env.fileSize.value, env.now, stored);
    var s1 := StageSpec(ParseStage, s0, env, []);
    ParseWithoutFault(s0, env);
    var s2 := Then(s1, StructureStage, env, enhanced);
    StructureWithoutService(s1, env);
    var s3 := Then(s2, ValidateStage, env, []);
    ValidateWithoutFault(s2, env);
    var s4 := Then(s3, HighlightStage, env, []);
    HighlightWithoutFault(s3, env);
    var s5 := Then(s4, StoreStage, env, []);
    StoreWithoutFault(s4, env);
    assert Run(s0, env, enhanced) == s5;
  }
}
