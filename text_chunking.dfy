/** The two splitters that keep requests to the reasoning service under its
    size limits: `chunk_text` cuts text at paragraph, then sentence, then raw
    character boundaries; `chunk_elements` cuts a list of element
    dictionaries into bounded runs, preferring page boundaries. */
module TextChunking {
  import opened Strings
  import opened Json

  const ParagraphSep: string := "\n\n"
  const SentenceSep: string := ". "

  /** A run of the separators the text splitter drops at chunk boundaries. */
  predicate Separators(g: string)
    decreases |g|
  {
    g == [] || (|g| >= 2 && (g[..2] == ParagraphSep || g[..2] == SentenceSep) && Separators(g[2..]))
  }

  lemma {:induction false} SeparatorsAppend(g: string, sep: string)
    requires Separators(g)
    requires sep == "" || sep == ParagraphSep || sep == SentenceSep
    ensures Separators(g + sep)
    decreases |g|
  {
    if g == [] {
      if sep != "" {
        assert (g + sep)[..2] == sep && (g + sep)[2..] == [];
      }
    } else {
      SeparatorsAppend(g[2..], sep);
      assert (g + sep)[..2] == g[..2];
      assert (g + sep)[2..] == g[2..] + sep;
    }
  }

  /** `gaps[0] + chunks[0] + gaps[1] + chunks[1] + ...`. */
  function Interleave(gaps: seq<string>, chunks: seq<string>): string
    requires |gaps| == |chunks|
  {
    if |chunks| == 0 then ""
    else Interleave(gaps[..|gaps| - 1], chunks[..|chunks| - 1]) + gaps[|gaps| - 1] + chunks[|chunks| - 1]
  }

  lemma InterleaveSnoc(gaps: seq<string>, chunks: seq<string>, g: string, c: string)
    requires |gaps| == |chunks|
    ensures Interleave(gaps + [g], chunks + [c]) == Interleave(gaps, chunks) + g + c
  {
    assert (gaps + [g])[..|gaps|] == gaps;
    assert (chunks + [c])[..|chunks|] == chunks;
  }

  /** `text` is laid out as the chunks in order, each preceded by the run of
      separators in `gaps` dropped before it, followed by a final run `tail`. */
  ghost predicate TilesWith(text: string, chunks: seq<string>, gaps: seq<string>, tail: string) {
    && |gaps| == |chunks|
    && (forall k :: 0 <= k < |gaps| ==> Separators(gaps[k]))
    && Separators(tail)
    && text == Interleave(gaps, chunks) + tail
  }

  /** Each chunk is a contiguous piece of `text`, the chunks appear in text
      order, and only runs of `"\n\n"` and `". "` separators between them are
      missing: no other character is lost, duplicated or reordered. */
  ghost predicate Tiles(text: string, chunks: seq<string>) {
    exists gaps, tail :: TilesWith(text, chunks, gaps, tail)
  }

  /** `Join(xs[..i + 1])` extends `Join(xs[..i])` by the separator (none before
      the first piece) and the next piece. */
  lemma JoinPrefixSnoc(xs: seq<string>, i: nat, sep: string)
    requires i < |xs|
    ensures Join(xs[..i + 1], sep) == Join(xs[..i], sep) + (if i == 0 then "" else sep) + xs[i]
  {
    assert xs[..i + 1][..i] == xs[..i];
  }

  /** The same step, after some text consumed before the pieces. */
  lemma ConsumedPrefixSnoc(consumed: string, xs: seq<string>, i: nat, sep: string)
    requires i < |xs|
    ensures consumed + Join(xs[..i + 1], sep) == consumed + Join(xs[..i], sep) + (if i == 0 then "" else sep) + xs[i]
  {
    JoinPrefixSnoc(xs, i, sep);
  }

  /** The splitter's running state: the text consumed so far is the emitted
      chunks with their dropped separators, the separators dropped since the
      last chunk (`pending`) and the chunk being built (`current`). */
  ghost predicate Accounted(consumed: string, chunks: seq<string>, gaps: seq<string>, pending: string,
                           current: string, maxChunkSize: int)
  {
    && |gaps| == |chunks|
    && (forall k :: 0 <= k < |chunks| ==> 0 < |chunks[k]| <= maxChunkSize)
    && (forall k :: 0 <= k < |gaps| ==> Separators(gaps[k]))
    && Separators(pending)
    && |current| <= maxChunkSize
    && consumed == Interleave(gaps, chunks) + pending + current
  }

  /** Emitting a non-empty current chunk keeps the account. */
  lemma AccountFlush(consumed: string, chunks: seq<string>, gaps: seq<string>, pending: string,
                     current: string, maxChunkSize: int)
    requires Accounted(consumed, chunks, gaps, pending, current, maxChunkSize) && current != ""
    ensures Accounted(consumed, chunks + [current], gaps + [pending], "", "", maxChunkSize)
  {
    InterleaveSnoc(gaps, chunks, pending, current);
  }

  /** A separator met while no chunk is being built is dropped. */
  lemma AccountDrop(consumed: string, chunks: seq<string>, gaps: seq<string>, pending: string,
                    sep: string, maxChunkSize: int)
    requires Accounted(consumed, chunks, gaps, pending, "", maxChunkSize)
    requires sep == "" || sep == ParagraphSep || sep == SentenceSep
    ensures Accounted(consumed + sep, chunks, gaps, pending + sep, "", maxChunkSize)
  {
    SeparatorsAppend(pending, sep);
  }

  /** A piece that fits is glued onto the current chunk with its separator. */
  lemma AccountExtend(consumed: string, chunks: seq<string>, gaps: seq<string>, pending: string,
                      current: string, sep: string, piece: string, maxChunkSize: int)
    requires Accounted(consumed, chunks, gaps, pending, current, maxChunkSize)
    requires |current| + |sep| + |piece| <= maxChunkSize
    ensures Accounted(consumed + sep + piece, chunks, gaps, pending, current + sep + piece, maxChunkSize)
  {
  }

  /** A piece that fits starts the current chunk when none is being built. */
  lemma AccountStart(consumed: string, chunks: seq<string>, gaps: seq<string>, pending: string,
                     piece: string, maxChunkSize: int)
    requires Accounted(consumed, chunks, gaps, pending, "", maxChunkSize)
    requires |piece| <= maxChunkSize
    ensures Accounted(consumed + piece, chunks, gaps, pending, piece, maxChunkSize)
  {
    assert consumed + piece == Interleave(gaps, chunks) + pending + piece;
  }

  /** `sentence[i:i + max_chunk_size]` for each `i` in `range(0, len(sentence), max_chunk_size)`,
      appended to `chunks`. */
  method SplitByCharacter(sentence: string, maxChunkSize: int, chunks: seq<string>,
                          ghost gaps: seq<string>, ghost pending: string, ghost consumed: string)
    returns (chunks': seq<string>, ghost gaps': seq<string>)
    requires 0 < maxChunkSize < |sentence|
    requires Accounted(consumed, chunks, gaps, pending, "", maxChunkSize)
    ensures Accounted(consumed + sentence, chunks', gaps', "", "", maxChunkSize)
  {
    chunks', gaps' := chunks, gaps;
    ghost var pend := pending;
    var start := 0;
    while start < |sentence|
      invariant 0 <= start <= |sentence|
      invariant start == 0 ==> pend == pending && chunks' == chunks
      invariant start > 0 ==> pend == "" && |chunks'| > |chunks|
      invariant Accounted(consumed + sentence[..start], chunks', gaps', pend, "", maxChunkSize)
    {
      var end := if start + maxChunkSize < |sentence| then start + maxChunkSize else |sentence|;
      var piece := sentence[start..end];
      assert sentence[..end] == sentence[..start] + piece;
      AccountStart(consumed + sentence[..start], chunks', gaps', pend, piece, maxChunkSize);
      AccountFlush(consumed + sentence[..end], chunks', gaps', pend, piece, maxChunkSize);
      chunks', gaps' := chunks' + [piece], gaps' + [pend];
      pend := "";
      start := end;
    }
    assert sentence[..start] == sentence;
  }

  /** The sentence loop of `chunk_text` over one oversized paragraph, entered
      with no chunk being built. */
  method SplitSentences(paragraph: string, maxChunkSize: int, chunks: seq<string>,
                        ghost gaps: seq<string>, ghost pending: string, ghost consumed: string)
    returns (chunks': seq<string>, current: string, ghost gaps': seq<string>, ghost pending': string)
    requires maxChunkSize > 0
    requires Accounted(consumed, chunks, gaps, pending, "", maxChunkSize)
    ensures Accounted(consumed + paragraph, chunks', gaps', pending', current, maxChunkSize)
  {
    var sentences := Split(paragraph, SentenceSep);
    JoinSplit(paragraph, SentenceSep);
    chunks', current, gaps', pending' := chunks, "", gaps, pending;
    var j := 0;
    while j < |sentences|
      invariant 0 <= j <= |sentences|
      invariant j == 0 ==> current == ""
      invariant Accounted(consumed + Join(sentences[..j], SentenceSep), chunks', gaps', pending', current, maxChunkSize)
    {
      ghost var sep := if j == 0 then "" else SentenceSep;
      ghost var before := consumed + Join(sentences[..j], SentenceSep);
      ConsumedPrefixSnoc(consumed, sentences, j, SentenceSep);
      chunks', current, gaps', pending' := AddSentence(sentences[j], maxChunkSize, chunks', current, gaps', pending', before, sep);
      j := j + 1;
    }
    assert sentences[..j] == sentences;
  }

  /** One turn of the sentence loop: `sentence` follows the consumed text
      after `sep` (none before the first sentence). */
  method AddSentence(sentence: string, maxChunkSize: int, chunks: seq<string>, current: string,
                     ghost gaps: seq<string>, ghost pending: string, ghost before: string, ghost sep: string)
    returns (chunks': seq<string>, current': string, ghost gaps': seq<string>, ghost pending': string)
    requires maxChunkSize > 0
    requires sep == "" || sep == SentenceSep
    requires current != "" ==> sep == SentenceSep
    requires Accounted(before, chunks, gaps, pending, current, maxChunkSize)
    ensures Accounted(before + sep + sentence, chunks', gaps', pending', current', maxChunkSize)
  {
    chunks', current', gaps', pending' := chunks, current, gaps, pending;
    ghost var after := before + sep + sentence;
    if |current| + |sentence| + 2 > maxChunkSize {
      if current != "" {
        AccountFlush(before, chunks', gaps', pending', current, maxChunkSize);
        chunks', gaps' := chunks' + [current], gaps' + [pending'];
        current', pending' := "", "";
      }
      AccountDrop(before, chunks', gaps', pending', sep, maxChunkSize);
      pending' := pending' + sep;
      if |sentence| > maxChunkSize {
        chunks', gaps' := SplitByCharacter(sentence, maxChunkSize, chunks', gaps', pending', before + sep);
        pending' := "";
      } else {
        AccountStart(before + sep, chunks', gaps', pending', sentence, maxChunkSize);
        current' := sentence;
      }
    } else {
      if current != "" {
        AccountExtend(before, chunks', gaps', pending', current, SentenceSep, sentence, maxChunkSize);
        current' := current + SentenceSep + sentence;
      } else {
        AccountDrop(before, chunks', gaps', pending', sep, maxChunkSize);
        AccountStart(before + sep, chunks', gaps', pending' + sep, sentence, maxChunkSize);
        pending' := pending' + sep;
        current' := sentence;
      }
    }
  }

  /** One turn of `chunk_text`'s paragraph loop: `paragraph` follows the
      consumed text after `sep` (none before the first paragraph). */
  method AddParagraph(paragraph: string, maxChunkSize: int, chunks: seq<string>, current: string,
                      ghost gaps: seq<string>, ghost pending: string, ghost before: string, ghost sep: string)
    returns (chunks': seq<string>, current': string, ghost gaps': seq<string>, ghost pending': string)
    requires maxChunkSize > 0
    requires sep == "" || sep == ParagraphSep
    requires sep == "" ==> current == ""
    requires Accounted(before, chunks, gaps, pending, current, maxChunkSize)
    ensures Accounted(before + sep + paragraph, chunks', gaps', pending', current', maxChunkSize)
  {
    chunks', current', gaps', pending' := chunks, current, gaps, pending;
    if |current'| + |paragraph| + 2 > maxChunkSize {
      if current' != "" {
        AccountFlush(before, chunks', gaps', pending', current', maxChunkSize);
        chunks', gaps' := chunks' + [current'], gaps' + [pending'];
        current', pending' := "", "";
      }
      AccountDrop(before, chunks', gaps', pending', sep, maxChunkSize);
      pending' := pending' + sep;
      if |paragraph| > maxChunkSize {
        chunks', current', gaps', pending' := SplitSentences(paragraph, maxChunkSize, chunks', gaps', pending', before + sep);
      } else {
        AccountStart(before + sep, chunks', gaps', pending', paragraph, maxChunkSize);
        current' := paragraph;
      }
    } else {
      if current' != "" {
        AccountExtend(before, chunks', gaps', pending', current', ParagraphSep, paragraph, maxChunkSize);
        current' := current' + ParagraphSep + paragraph;
      } else {
        AccountDrop(before, chunks', gaps', pending', sep, maxChunkSize);
        AccountStart(before + sep, chunks', gaps', pending' + sep, paragraph, maxChunkSize);
        pending' := pending' + sep;
        current' := paragraph;
      }
    }
  }

  /** What `chunk_text(text, maxChunkSize)` promises of the chunks it returns
      (see `ChunkText`). */
  ghost predicate TextChunks(text: string, maxChunkSize: int, chunks: seq<string>) {
    && (|text| <= maxChunkSize ==> chunks == [text])
    && (|text| > maxChunkSize ==> forall k :: 0 <= k < |chunks| ==> 0 < |chunks[k]| <= maxChunkSize)
    && Tiles(text, chunks)
  }

  /** `chunk_text(text, max_chunk_size)`. */
  method ChunkText(text: string, maxChunkSize: int) returns (chunks: seq<string>)
    requires maxChunkSize > 0
    ensures |text| <= maxChunkSize ==> chunks == [text]
    ensures |text| > maxChunkSize ==> forall k :: 0 <= k < |chunks| ==> 0 < |chunks[k]| <= maxChunkSize
    ensures Tiles(text, chunks)
  {
    if |text| <= maxChunkSize {
      InterleaveSnoc([], [], "", text);
      assert TilesWith(text, [text], [""], "");
      return [text];
    }
    var paragraphs := Split(text, ParagraphSep);
    JoinSplit(text, ParagraphSep);
    var current;
    ghost var gaps, pending;
    chunks, current, gaps, pending := ChunkParagraphs(paragraphs, maxChunkSize);
    if current != "" {
      AccountFlush(text, chunks, gaps, pending, current, maxChunkSize);
      chunks, gaps := chunks + [current], gaps + [pending];
      current, pending := "", "";
    }
    assert TilesWith(text, chunks, gaps, pending);
  }

  /** The paragraph loop of `chunk_text`, over the pieces of the text
      between blank lines. */
  method ChunkParagraphs(paragraphs: seq<string>, maxChunkSize: int)
    returns (chunks: seq<string>, current: string, ghost gaps: seq<string>, ghost pending: string)
    requires maxChunkSize > 0
    ensures Accounted(Join(paragraphs, ParagraphSep), chunks, gaps, pending, current, maxChunkSize)
  {
    chunks, current, gaps, pending := [], "", [], "";
    var i := 0;
    while i < |paragraphs|
      invariant 0 <= i <= |paragraphs|
      invariant i == 0 ==> current == ""
      invariant Accounted(Join(paragraphs[..i], ParagraphSep), chunks, gaps, pending, current, maxChunkSize)
    {
      ghost var sep := if i == 0 then "" else ParagraphSep;
      ghost var before := Join(paragraphs[..i], ParagraphSep);
      JoinPrefixSnoc(paragraphs, i, ParagraphSep);
      chunks, current, gaps, pending := AddParagraph(paragraphs[i], maxChunkSize, chunks, current, gaps, pending, before, sep);
      i := i + 1;
    }
    assert paragraphs[..i] == paragraphs;
  }

  /** The concatenation of a list of lists. */
  function Flatten<T>(xss: seq<seq<T>>): seq<T> {
    if |xss| == 0 then [] else Flatten(xss[..|xss| - 1]) + xss[|xss| - 1]
  }

  lemma FlattenSnoc<T>(xss: seq<seq<T>>, xs: seq<T>)
    ensures Flatten(xss + [xs]) == Flatten(xss) + xs
  {
    assert (xss + [xs])[..|xss|] == xss;
  }

  lemma FlattenPrefix<T>(xss: seq<seq<T>>, j: nat)
    requires j < |xss|
    ensures Flatten(xss[..j + 1]) == Flatten(xss[..j]) + xss[j]
  {
    FlattenSnoc(xss[..j], xss[j]);
    assert xss[..j + 1] == xss[..j] + [xss[j]];
  }

  /** The page an element dictionary is on, as `chunk_elements` reads it: the
      grounding's `page_number` when the grounding is a dictionary, otherwise
      a top-level `page_number`, otherwise `None`. */
  function PageKey(element: Json): (r: Json)
    ensures element.JObj? && "grounding" in element.fields && element.fields["grounding"].JObj?
            ==> r == Get(element.fields["grounding"].fields, "page_number")
    ensures !element.JObj? ==> r == JNull
  {
    if !element.JObj? then JNull
    else if "grounding" in element.fields && element.fields["grounding"].JObj? then
      Get(element.fields["grounding"].fields, "page_number")
    else if "page_number" in element.fields then element.fields["page_number"]
    else JNull
  }

  /** `n > max_elements_per_chunk * 0.8`: the current chunk is large enough
      to be closed at a page change. */
  predicate Crowded(n: int, maxPerChunk: int) {
    (n as real) > (maxPerChunk as real) * 0.8
  }

  /** No page change inside `c` at a point where the chunk was already crowded. */
  predicate NoCrowdedPageBreak(c: seq<Json>, maxPerChunk: int) {
    forall j :: 0 < j < |c| && Crowded(j, maxPerChunk) ==> PyEquals(PageKey(c[j]), PageKey(c[j - 1]))
  }

  /** A chunk was closed either because it was full or because it was crowded
      and `next` begins on another page. */
  predicate ForcedBoundary(c: seq<Json>, next: seq<Json>, maxPerChunk: int)
    requires |c| > 0 && |next| > 0
  {
    |c| == maxPerChunk || (Crowded(|c|, maxPerChunk) && !PyEquals(PageKey(next[0]), PageKey(c[|c| - 1])))
  }

  /** The chunks emitted so far are each non-empty and within the limit, have
      no crowded page change inside, and each ended for a forced reason. */
  predicate ClosedChunks(chunks: seq<seq<Json>>, maxPerChunk: int) {
    && (forall k :: 0 <= k < |chunks| ==> 1 <= |chunks[k]| <= maxPerChunk)
    && (forall k :: 0 <= k < |chunks| ==> NoCrowdedPageBreak(chunks[k], maxPerChunk))
    && (forall k :: 0 <= k < |chunks| - 1 ==> ForcedBoundary(chunks[k], chunks[k + 1], maxPerChunk))
  }

  lemma CloseChunk(chunks: seq<seq<Json>>, c: seq<Json>, maxPerChunk: int)
    requires ClosedChunks(chunks, maxPerChunk)
    requires 1 <= |c| <= maxPerChunk && NoCrowdedPageBreak(c, maxPerChunk)
    requires |chunks| > 0 ==> ForcedBoundary(chunks[|chunks| - 1], c, maxPerChunk)
    ensures ClosedChunks(chunks + [c], maxPerChunk)
  {
    var cs := chunks + [c];
    forall k | 0 <= k < |cs| - 1
      ensures ForcedBoundary(cs[k], cs[k + 1], maxPerChunk)
    {
      if k < |chunks| - 1 {
        assert cs[k] == chunks[k] && cs[k + 1] == chunks[k + 1];
      }
    }
  }

  /** Appending an element keeps the chunk free of crowded page changes when
      it is on the same page as the last one or the chunk is not crowded. */
  lemma ExtendChunk(c: seq<Json>, element: Json, maxPerChunk: int)
    requires NoCrowdedPageBreak(c, maxPerChunk)
    requires c != [] ==> PyEquals(PageKey(element), PageKey(c[|c| - 1])) || !Crowded(|c|, maxPerChunk)
    ensures NoCrowdedPageBreak(c + [element], maxPerChunk)
  {
    var c' := c + [element];
    forall j | 0 < j < |c'| && Crowded(j, maxPerChunk)
      ensures PyEquals(PageKey(c'[j]), PageKey(c'[j - 1]))
    {
      if j < |c| {
        assert c'[j] == c[j] && c'[j - 1] == c[j - 1];
      }
    }
  }

  /** The state of `chunk_elements`'s loop for a positive limit, within an
      iteration: the emitted chunks are closed properly, the open chunk is
      within the limit and free of crowded page changes, the last emitted
      chunk ended for a forced reason, and `currentPage` is the page of the
      last element seen. */
  ghost predicate OpenState(chunks: seq<seq<Json>>, current: seq<Json>, currentPage: Json, maxPerChunk: int) {
    && |current| <= maxPerChunk
    && ClosedChunks(chunks, maxPerChunk)
    && NoCrowdedPageBreak(current, maxPerChunk)
    && (chunks != [] && current != [] ==> ForcedBoundary(chunks[|chunks| - 1], current, maxPerChunk))
    && (chunks != [] && current == [] ==> |chunks[|chunks| - 1]| == maxPerChunk)
    && (current != [] ==> PageKey(current[|current| - 1]) == currentPage)
    && (current == [] && chunks != [] ==> PageKey(chunks[|chunks| - 1][|chunks[|chunks| - 1]| - 1]) == currentPage)
  }

  /** The same between iterations, where the open chunk is below the limit. */
  ghost predicate ElementsState(chunks: seq<seq<Json>>, current: seq<Json>, currentPage: Json, maxPerChunk: int) {
    OpenState(chunks, current, currentPage, maxPerChunk) && |current| < maxPerChunk
  }

  /** Closing a crowded chunk at a page change and opening the next one with
      the new element. */
  lemma CloseCrowded(chunks: seq<seq<Json>>, current: seq<Json>, currentPage: Json, element: Json, maxPerChunk: int)
    requires maxPerChunk >= 1 && ElementsState(chunks, current, currentPage, maxPerChunk)
    requires Crowded(|current|, maxPerChunk) && !PyEquals(PageKey(element), currentPage)
    ensures OpenState(chunks + [current], [element], PageKey(element), maxPerChunk)
  {
    CloseChunk(chunks, current, maxPerChunk);
    assert ForcedBoundary(current, [element], maxPerChunk);
  }

  /** Appending the new element to the open chunk. */
  lemma Extend(chunks: seq<seq<Json>>, current: seq<Json>, currentPage: Json, element: Json, maxPerChunk: int)
    requires maxPerChunk >= 1 && ElementsState(chunks, current, currentPage, maxPerChunk)
    requires !(!PyEquals(PageKey(element), currentPage) && Crowded(|current|, maxPerChunk))
    ensures OpenState(chunks, current + [element], PageKey(element), maxPerChunk)
  {
    ExtendChunk(current, element, maxPerChunk);
    var c := current + [element];
    if chunks != [] && current != [] {
      assert c[0] == current[0];
      assert ForcedBoundary(chunks[|chunks| - 1], c, maxPerChunk);
    }
  }

  /** Closing a full chunk. */
  lemma CloseFull(chunks: seq<seq<Json>>, current: seq<Json>, currentPage: Json, maxPerChunk: int)
    requires maxPerChunk >= 1 && OpenState(chunks, current, currentPage, maxPerChunk)
    requires |current| == maxPerChunk
    ensures ElementsState(chunks + [current], [], currentPage, maxPerChunk)
  {
    CloseChunk(chunks, current, maxPerChunk);
  }

  /** One turn of `chunk_elements`'s loop. */
  method AddElement(element: Json, maxPerChunk: int, chunks: seq<seq<Json>>, current: seq<Json>, currentPage: Json)
    returns (chunks': seq<seq<Json>>, current': seq<Json>, currentPage': Json)
    requires maxPerChunk >= 1 ==> ElementsState(chunks, current, currentPage, maxPerChunk)
    ensures Flatten(chunks') + current' == Flatten(chunks) + current + [element]
    ensures currentPage' == PageKey(element)
    ensures maxPerChunk >= 1 ==> ElementsState(chunks', current', currentPage', maxPerChunk)
  {
    var placedChunks, placed := PlaceElement(element, maxPerChunk, chunks, current, currentPage);
    currentPage' := PageKey(element);
    chunks', current' := CloseIfFull(maxPerChunk, placedChunks, placed, currentPage');
  }

  /** The first half of the turn: a crowded chunk is closed at a page change,
      and the element joins the open chunk. */
  method PlaceElement(element: Json, maxPerChunk: int, chunks: seq<seq<Json>>, current: seq<Json>, currentPage: Json)
    returns (chunks': seq<seq<Json>>, current': seq<Json>)
    requires maxPerChunk >= 1 ==> ElementsState(chunks, current, currentPage, maxPerChunk)
    ensures Flatten(chunks') + current' == Flatten(chunks) + current + [element]
    ensures current' != [] && current'[|current'| - 1] == element
    ensures maxPerChunk >= 1 ==> OpenState(chunks', current', PageKey(element), maxPerChunk)
  {
    var page := PageKey(element);
    if !PyEquals(page, currentPage) && Crowded(|current|, maxPerChunk) {
      FlattenSnoc(chunks, current);
      if maxPerChunk >= 1 {
        CloseCrowded(chunks, current, currentPage, element, maxPerChunk);
      }
      chunks', current' := chunks + [current], [element];
    } else {
      if maxPerChunk >= 1 {
        Extend(chunks, current, currentPage, element, maxPerChunk);
      }
      chunks', current' := chunks, current + [element];
    }
  }

  /** The second half of the turn: a full chunk is closed. */
  method CloseIfFull(maxPerChunk: int, chunks: seq<seq<Json>>, current: seq<Json>, currentPage: Json)
    returns (chunks': seq<seq<Json>>, current': seq<Json>)
    requires |current| >= 1
    requires maxPerChunk >= 1 ==> OpenState(chunks, current, currentPage, maxPerChunk)
    ensures Flatten(chunks') + current' == Flatten(chunks) + current
    ensures |current| >= maxPerChunk ==> current' == [] && chunks' == chunks + [current]
    ensures |current| < maxPerChunk ==> current' == current && chunks' == chunks
    ensures maxPerChunk >= 1 ==> ElementsState(chunks', current', currentPage, maxPerChunk)
  {
    chunks', current' := chunks, current;
    if |current| >= maxPerChunk {
      FlattenSnoc(chunks, current);
      if maxPerChunk >= 1 {
        CloseFull(chunks, current, currentPage, maxPerChunk);
      }
      chunks', current' := chunks + [current], [];
    }
  }

  /** What `chunk_elements(elements, maxPerChunk)` promises of the chunks it
      returns (see `ChunkElements`). */
  ghost predicate ElementChunks(elements: seq<Json>, maxPerChunk: int, chunks: seq<seq<Json>>) {
    && (|elements| <= maxPerChunk ==> chunks == [elements])
    && Flatten(chunks) == elements
    && (maxPerChunk >= 1 && |elements| > maxPerChunk ==> ClosedChunks(chunks, maxPerChunk))
  }

  /** `chunk_elements(elements, max_elements_per_chunk)`: the chunks are the
      elements in order; for a positive limit and more elements than it, every
      chunk is non-empty and within the limit, a chunk ends only when it is
      full or crowded at a page change, and no chunk runs on past a page
      change once it is crowded. */
  method ChunkElements(elements: seq<Json>, maxPerChunk: int) returns (chunks: seq<seq<Json>>)
    ensures |elements| <= maxPerChunk ==> chunks == [elements]
    ensures Flatten(chunks) == elements
    ensures maxPerChunk >= 1 && |elements| > maxPerChunk ==> ClosedChunks(chunks, maxPerChunk)
  {
    if |elements| <= maxPerChunk {
      FlattenSnoc([], elements);
      return [elements];
    }
    chunks := [];
    var current: seq<Json> := [];
    var currentPage := JNull;
    var i := 0;
    while i < |elements|
      invariant 0 <= i <= |elements|
      invariant Flatten(chunks) + current == elements[..i]
      invariant maxPerChunk >= 1 ==> ElementsState(chunks, current, currentPage, maxPerChunk)
    {
      assert elements[..i + 1] == elements[..i] + [elements[i]];
      chunks, current, currentPage := AddElement(elements[i], maxPerChunk, chunks, current, currentPage);
      i := i + 1;
    }
    assert elements[..i] == elements;
    if current != [] {
      FlattenSnoc(chunks, current);
      if maxPerChunk >= 1 {
        CloseChunk(chunks, current, maxPerChunk);
      }
      chunks := chunks + [current];
    }
  }
}
