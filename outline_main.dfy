/** The top level of challenge-1a/app/main.py, `extract_universal_outline`: the
    title from the largest spans of the first page, falling back to the file name
    and then to the content title, and the outline from the bookmarks, falling back
    to the heading heuristics. */
module OutlineMain {
  import opened Seqs
  import opened Text
  import opened Layout
  import opened TitleFromContent
  import opened Toc
  import opened Headings

  /** The spans of the lines `lines`, in order. */
  function LinesSpans(lines: seq<Line>): seq<Span> {
    if lines == [] then [] else LinesSpans(lines[..|lines| - 1]) + lines[|lines| - 1].spans
  }

  /** The spans of the text blocks among `blocks`, in order. */
  function BlocksSpans(blocks: seq<Block>): seq<Span> {
    if blocks == [] then []
    else
      var b := blocks[|blocks| - 1];
      BlocksSpans(blocks[..|blocks| - 1]) + (if b.TextBlock? then LinesSpans(b.lines) else [])
  }

  /** `max(font_sizes)` */
  function MaxSize(spans: seq<Span>): (m: real)
    requires spans != []
    ensures forall i :: 0 <= i < |spans| ==> spans[i].size <= m
    ensures exists i :: 0 <= i < |spans| && spans[i].size == m
  {
    if |spans| == 1 then spans[0].size
    else
      var m := MaxSize(spans[..|spans| - 1]);
      assert forall i :: 0 <= i < |spans| - 1 ==> spans[..|spans| - 1][i] == spans[i];
      if spans[|spans| - 1].size > m then spans[|spans| - 1].size else m
  }

  /** The span is within 5% of the largest size: `abs(size - largest) < largest * 0.05`. */
  predicate NearLargest(s: Span, largest: real) {
    var d := s.size - largest;
    (if d < 0.0 then -d else d) < largest * 0.05
  }

  /** `title_texts`: the stripped texts of the spans near the largest size. */
  function TitleTexts(spans: seq<Span>, largest: real): seq<string> {
    if spans == [] then []
    else
      var s := spans[|spans| - 1];
      TitleTexts(spans[..|spans| - 1], largest) + (if NearLargest(s, largest) then [Strip(s.text)] else [])
  }

  /** The title the `try` block of `extract_universal_outline` computes from the first
      page, or None when that page has no span and the block raises. */
  function LargestSpansTitle(page: Page): Option<string> {
    var spans := BlocksSpans(page.sortedBlocks);
    if spans == [] then None
    else Some(Join(" ", Distinct(TitleTexts(spans, MaxSize(spans)))))
  }

  /** The title of `extract_universal_outline` for a document with pages: the
      largest spans' text, the file name when the first page has no span, and, when
      that is empty, the content title if it is at least four characters long. */
  function UniversalTitle(doc: Document, baseName: string): string
    requires doc.pages != []
  {
    var t := match LargestSpansTitle(doc.pages[0]) case None => baseName case Some(t) => t;
    if t != "" then t
    else
      var c := ContentTitle(doc);
      if c.Some? && |c.value| >= 4 then c.value else ""
  }

  /** The outline of `extract_universal_outline`: the bookmark outline when it is
      accepted, the heuristic one otherwise. */
  function UniversalOutline(doc: Document): seq<OutlineEntry> {
    match TocOutline(doc.toc)
    case Some(o) => o
    case None => HeuristicOutline(doc)
  }

  /** `{"title": ..., "outline": ...}` */
  datatype Extraction = Extraction(title: string, outline: seq<OutlineEntry>)

  /** What `extract_universal_outline(pdf_path)` returns, with `baseName` for
      `os.path.basename(pdf_path)`. */
  function UniversalExtraction(doc: Document, baseName: string): Extraction {
    if doc.pages == [] then Extraction("", [])
    else Extraction(UniversalTitle(doc, baseName), UniversalOutline(doc))
  }

  // ----- properties -----

  /** A document without pages gives an empty title and an empty outline. */
  lemma NoPages(doc: Document, baseName: string)
    requires doc.pages == []
    ensures UniversalExtraction(doc, baseName) == Extraction("", [])
  {
  }

  /** The near-largest texts are exactly the stripped texts of the spans near the
      largest size. */
  lemma {:induction false} TitleTextsSpec(spans: seq<Span>, largest: real, x: string)
    ensures x in TitleTexts(spans, largest) <==>
      exists i :: 0 <= i < |spans| && NearLargest(spans[i], largest) && Strip(spans[i].text) == x
  {
    if spans != [] {
      var init := spans[..|spans| - 1];
      TitleTextsSpec(init, largest, x);
      assert forall i :: 0 <= i < |init| ==> init[i] == spans[i];
      if x in TitleTexts(init, largest) {
        var i :| 0 <= i < |init| && NearLargest(init[i], largest) && Strip(init[i].text) == x;
        assert NearLargest(spans[i], largest) && Strip(spans[i].text) == x;
      }
    }
  }

  /** The title read from the largest spans is missing exactly when the first page
      has no span; otherwise it joins, with single spaces, the de-duplicated stripped
      texts of the spans within 5% of the largest size, each once, in the order they
      first appear. */
  lemma LargestSpansTitleSpec(page: Page)
    ensures LargestSpansTitle(page).None? <==> BlocksSpans(page.sortedBlocks) == []
    ensures LargestSpansTitle(page).Some? ==>
      var spans := BlocksSpans(page.sortedBlocks);
      var m := MaxSize(spans);
      var parts := Distinct(TitleTexts(spans, m));
      && LargestSpansTitle(page).value == Join(" ", parts)
      && NoDup(parts)
      && (forall i :: 0 <= i < |spans| ==> spans[i].size <= m)
      && (forall x :: x in parts <==> exists i :: 0 <= i < |spans| && NearLargest(spans[i], m) && Strip(spans[i].text) == x)
  {
    var spans := BlocksSpans(page.sortedBlocks);
    if spans != [] {
      var m := MaxSize(spans);
      forall x ensures x in Distinct(TitleTexts(spans, m)) <==> exists i :: 0 <= i < |spans| && NearLargest(spans[i], m) && Strip(spans[i].text) == x {
        InDistinct(TitleTexts(spans, m), x);
        TitleTextsSpec(spans, m, x);
      }
    }
  }

  /** Some span of the first page is near the largest size (the largest one itself
      when that size is positive), so the title pieces are not all missing. */
  lemma LargestSpanIsNear(spans: seq<Span>)
    requires spans != [] && MaxSize(spans) > 0.0
    ensures TitleTexts(spans, MaxSize(spans)) != []
  {
    var m := MaxSize(spans);
    var i :| 0 <= i < |spans| && spans[i].size == m;
    assert NearLargest(spans[i], m);
    TitleTextsSpec(spans, m, Strip(spans[i].text));
  }

  /** The title: a non-empty title from the largest spans is kept; without spans the
      file name stands in; the content title replaces an empty title only when it has
      at least four characters, and otherwise the title stays empty. */
  lemma TitleFallbacks(doc: Document, baseName: string)
    requires doc.pages != []
    ensures var first := LargestSpansTitle(doc.pages[0]);
      var t := if first.Some? then first.value else baseName;
      var c := ContentTitle(doc);
      && (t != "" ==> UniversalTitle(doc, baseName) == t)
      && (t == "" && c.Some? && |c.value| >= 4 ==> UniversalTitle(doc, baseName) == c.value)
      && (t == "" && !(c.Some? && |c.value| >= 4) ==> UniversalTitle(doc, baseName) == "")
    ensures UniversalTitle(doc, baseName) == "" || UniversalTitle(doc, baseName) == baseName
      || LargestSpansTitle(doc.pages[0]) == Some(UniversalTitle(doc, baseName))
      || (ContentTitle(doc) == Some(UniversalTitle(doc, baseName)) && |UniversalTitle(doc, baseName)| >= 4)
  {
  }

  /** The outline is the bookmark outline exactly when there are more than two
      bookmarks, and the heuristic outline otherwise. */
  lemma OutlineSelection(doc: Document)
    ensures |doc.toc| > 2 ==> UniversalOutline(doc) == TocEntries(doc.toc)
    ensures |doc.toc| <= 2 ==> UniversalOutline(doc) == HeuristicOutline(doc)
  {
  }
}
