/** The imperative functions of challenge-1a/app/pdf_utils.py, each proved equal to
    the specification function of its concern module. */
module PdfUtils {
  import opened Seqs
  import opened Text
  import opened Layout
  import opened BodyStyle
  import opened Zones
  import opened TitleFromContent
  import opened Toc
  import opened Headings
  import opened Sorting

  /** The innermost loop of `get_document_body_style`: one line's spans into the Counter. */
  method TallySpans(counts: map<StyleKey, nat>, order: seq<StyleKey>, ghost seen: seq<StyleKey>, spans: seq<Span>)
    returns (counts': map<StyleKey, nat>, order': seq<StyleKey>)
    requires counts == Tally(seen)
    requires order == Distinct(seen)
    ensures counts' == Tally(seen + SpanKeys(spans)) && order' == Distinct(seen + SpanKeys(spans))
  {
    counts', order' := counts, order;
    assert seen + SpanKeys(spans[..0]) == seen;
    for s := 0 to |spans|
      invariant counts' == Tally(seen + SpanKeys(spans[..s]))
      invariant order' == Distinct(seen + SpanKeys(spans[..s]))
    {
      ghost var before := seen + SpanKeys(spans[..s]);
      var key := SpanKey(spans[s]);
      TallyStep(before, key);
      if key in counts' {
        counts' := counts'[key := counts'[key] + 1];
      } else {
        counts' := counts'[key := 1];
        order' := order' + [key];
      }
      SpanKeysStep(seen, spans, s);
    }
    assert spans[..|spans|] == spans;
  }

  /** The loop over a text block's lines. */
  method TallyLines(counts: map<StyleKey, nat>, order: seq<StyleKey>, ghost seen: seq<StyleKey>, lines: seq<Line>)
    returns (counts': map<StyleKey, nat>, order': seq<StyleKey>)
    requires counts == Tally(seen)
    requires order == Distinct(seen)
    ensures counts' == Tally(seen + LineKeys(lines)) && order' == Distinct(seen + LineKeys(lines))
  {
    counts', order' := counts, order;
    assert seen + LineKeys(lines[..0]) == seen;
    for l := 0 to |lines|
      invariant counts' == Tally(seen + LineKeys(lines[..l]))
      invariant order' == Distinct(seen + LineKeys(lines[..l]))
    {
      ghost var before := seen + LineKeys(lines[..l]);
      counts', order' := TallySpans(counts', order', before, lines[l].spans);
      LineKeysStep(seen, lines, l);
    }
    assert lines[..|lines|] == lines;
  }

  /** The loop over a page's blocks; blocks without "lines" are skipped. */
  method TallyBlocks(counts: map<StyleKey, nat>, order: seq<StyleKey>, ghost seen: seq<StyleKey>, blocks: seq<Block>)
    returns (counts': map<StyleKey, nat>, order': seq<StyleKey>)
    requires counts == Tally(seen)
    requires order == Distinct(seen)
    ensures counts' == Tally(seen + BlockKeys(blocks)) && order' == Distinct(seen + BlockKeys(blocks))
  {
    counts', order' := counts, order;
    assert seen + BlockKeys(blocks[..0]) == seen;
    for b := 0 to |blocks|
      invariant counts' == Tally(seen + BlockKeys(blocks[..b]))
      invariant order' == Distinct(seen + BlockKeys(blocks[..b]))
    {
      ghost var before := seen + BlockKeys(blocks[..b]);
      BlockKeysStep(seen, blocks, b);
      if blocks[b].TextBlock? {
        counts', order' := TallyLines(counts', order', before, blocks[b].lines);
      }
    }
    assert blocks[..|blocks|] == blocks;
  }

  /** The loop over the pages of `get_document_body_style`: fills the Counter. */
  method TallyPages(pages: seq<Page>) returns (counts: map<StyleKey, nat>, order: seq<StyleKey>)
    ensures counts == Tally(DocKeys(pages)) && order == Distinct(DocKeys(pages))
  {
    counts, order := map[], [];
    for p := 0 to |pages|
      invariant counts == Tally(DocKeys(pages[..p]))
      invariant order == Distinct(DocKeys(pages[..p]))
    {
      DocKeysStep(pages, p);
      counts, order := TallyBlocks(counts, order, DocKeys(pages[..p]), pages[p].blocks);
    }
    assert pages[..|pages|] == pages;
  }

  /** `most_common(1)` of the Counter: the first key, in insertion order, with the
      highest count. */
  method MostCommonIndex(counts: map<StyleKey, nat>, order: seq<StyleKey>, ghost keys: seq<StyleKey>) returns (best: nat)
    requires order != []
    requires counts == Tally(keys) && order == Distinct(keys)
    ensures best == FirstMostCommonAt(order, keys)
  {
    best := 0;
    for i := 1 to |order|
      invariant best < i
      invariant best == FirstMostCommonAt(order[..i], keys)
    {
      assert order[..i + 1][..i] == order[..i];
      InDistinct(keys, order[i]);
      InDistinct(keys, order[best]);
      TallyCounts(keys, order[i]);
      TallyCounts(keys, order[best]);
      if counts[order[i]] > counts[order[best]] {
        best := i;
      }
    }
    assert order[..|order|] == order;
  }

  /** `get_document_body_style(doc)`: the loops over pages, blocks, lines and spans
      fill the Counter; then the most common key is read off it, or the default
      `(10, "default")` when the document has no span at all. */
  method GetDocumentBodyStyle(doc: Document) returns (size: int, font: string)
    ensures (size, font) == BodyStyleOf(DocKeys(doc.pages))
  {
    var counts, order := TallyPages(doc.pages);
    ghost var keys := DocKeys(doc.pages);
    if order == [] {
      assert keys == [] by {
        if keys != [] { InDistinct(keys, keys[0]); }
      }
      return DefaultBodyStyle.0, DefaultBodyStyle.1;
    }
    var best := MostCommonIndex(counts, order, keys);
    size, font := order[best].0, order[best].1;
  }

  /** The block loop of one sampled page: records its non-empty blocks in `page_texts`. */
  method RecordPage(pageTexts: map<ZoneKey, seq<Rect>>, order: seq<ZoneKey>, ghost seen: seq<Occurrence>, blocks: seq<PlainBlock>)
    returns (pageTexts': map<ZoneKey, seq<Rect>>, order': seq<ZoneKey>)
    requires pageTexts == Group(seen)
    requires order == Distinct(OccKeys(seen))
    ensures pageTexts' == Group(seen + PageOccurrences(blocks))
    ensures order' == Distinct(OccKeys(seen + PageOccurrences(blocks)))
  {
    pageTexts', order' := pageTexts, order;
    assert seen + PageOccurrences(blocks[..0]) == seen;
    for b := 0 to |blocks|
      invariant pageTexts' == Group(seen + PageOccurrences(blocks[..b]))
      invariant order' == Distinct(OccKeys(seen + PageOccurrences(blocks[..b])))
    {
      ghost var before := seen + PageOccurrences(blocks[..b]);
      PageOccurrencesStep(seen, blocks, b);
      var text := NormalizeLines(blocks[b].text);
      if text != "" {
        var key := (text, Round(blocks[b].bbox.y0 / 10.0));
        ghost var o := Occurrence(key, blocks[b].bbox);
        assert BlockKey(blocks[b]) == Some(key);
        GroupStep(before, o);
        if key in pageTexts' {
          pageTexts' := pageTexts'[key := pageTexts'[key] + [blocks[b].bbox]];
        } else {
          pageTexts' := pageTexts'[key := [blocks[b].bbox]];
          order' := order' + [key];
        }
        assert pageTexts' == Group(before + [o]);
        assert order' == Distinct(OccKeys(before + [o]));
      } else {
        assert BlockKey(blocks[b]) == None;
      }
    }
    assert blocks[..|blocks|] == blocks;
  }

  /** The loop over the sampled page numbers `idx`, filling `page_texts`. */
  method RecordPages(pages: seq<Page>, idx: seq<int>) returns (pageTexts: map<ZoneKey, seq<Rect>>, order: seq<ZoneKey>)
    requires forall j :: 0 <= j < |idx| ==> 0 <= idx[j] < |pages|
    ensures pageTexts == Group(SampleOccurrences(pages, idx))
    ensures order == Distinct(OccKeys(SampleOccurrences(pages, idx)))
  {
    pageTexts, order := map[], [];
    for j := 0 to |idx|
      invariant pageTexts == Group(SampleOccurrences(pages, idx[..j]))
      invariant order == Distinct(OccKeys(SampleOccurrences(pages, idx[..j])))
    {
      SampleOccurrencesStep(pages, idx, j);
      pageTexts, order := RecordPage(pageTexts, order, SampleOccurrences(pages, idx[..j]), pages[idx[j]].plainBlocks);
    }
    assert idx[..|idx|] == idx;
  }

  /** `page_texts` of the first, middle and last page. */
  method RecordSampled(doc: Document) returns (pageTexts: map<ZoneKey, seq<Rect>>, order: seq<ZoneKey>)
    requires |doc.pages| > 0
    ensures pageTexts == Group(Sampled(doc)) && order == Distinct(OccKeys(Sampled(doc)))
  {
    pageTexts, order := RecordPages(doc.pages, SampledPages(|doc.pages|));
  }

  /** The loop over `page_texts.items()`: one averaged rectangle per key recorded at
      least `threshold` times. */
  method CommonBoxes(pageTexts: map<ZoneKey, seq<Rect>>, order: seq<ZoneKey>, ghost occ: seq<Occurrence>, threshold: int)
    returns (zones: seq<Rect>)
    requires pageTexts == Group(occ)
    requires order == Distinct(OccKeys(occ))
    ensures zones == ZonesOf(order, occ, threshold)
  {
    zones := [];
    for i := 0 to |order|
      invariant zones == ZonesOf(order[..i], occ, threshold)
    {
      ZonesOfStep(order, occ, threshold, i);
      InDistinct(OccKeys(occ), order[i]);
      GroupRects(occ, order[i]);
      RectsOfNonEmpty(occ, order[i]);
      var bboxes := pageTexts[order[i]];
      if |bboxes| >= threshold {
        zones := zones + [MeanRect(bboxes)];
      }
    }
    assert order[..|order|] == order;
  }

  /** The zones of a document with more than `sample_pages` pages: those of its
      sampled pages for the threshold `sample_pages - 1`. */
  method SampledZones(doc: Document, samplePages: int) returns (zones: seq<Rect>)
    requires |doc.pages| > samplePages && |doc.pages| > 0
    ensures zones == HeaderFooterZones(doc, samplePages)
  {
    var pageTexts, order := RecordSampled(doc);
    zones := CommonBoxes(pageTexts, order, Sampled(doc), samplePages - 1);
    ZonesOfSampledPages(doc, samplePages);
  }

  /** `get_header_footer_zones(doc, sample_pages)`. A negative `sample_pages` on an
      empty document would make the source load a page of an empty document, hence the
      precondition. */
  method GetHeaderFooterZones(doc: Document, samplePages: int) returns (zones: seq<Rect>)
    requires samplePages >= 0 || |doc.pages| > 0
    ensures zones == HeaderFooterZones(doc, samplePages)
  {
    if |doc.pages| <= samplePages {
      FewPagesNoZones(doc, samplePages);
      zones := [];
    } else {
      zones := SampledZones(doc, samplePages);
    }
  }

  /** `extract_title_from_content(doc)`: the running maximum over the first page's
      sorted blocks. A missing first page or a text block without lines raises inside
      the `try`, which returns None. */
  method ExtractTitleFromContent(doc: Document) returns (title: Option<string>)
    ensures title == ContentTitle(doc)
  {
    if |doc.pages| == 0 {
      return None;
    }
    var firstPage := doc.pages[0];
    var blocks := firstPage.sortedBlocks;
    var largestFontSize := 0.0;
    var titleCandidate := "";
    for i := 0 to |blocks|
      invariant ScanTitle(blocks[..i], firstPage.height) == Scan(largestFontSize, titleCandidate)
    {
      ScanTitleStep(blocks, firstPage.height, i);
      var b := blocks[i];
      if b.bbox.y1 < firstPage.height * 0.6 {
        if b.TextBlock? {
          if b.lines == [] {
            CrashedStays(blocks, firstPage.height, i + 1);
            return None;
          }
          if b.lines[0].spans != [] {
            var size := b.lines[0].spans[0].size;
            if size > largestFontSize {
              largestFontSize := size;
              titleCandidate := Strip(LinesText(b.lines));
            }
          }
        }
      }
    }
    assert blocks[..|blocks|] == blocks;
    if titleCandidate != "" {
      return Some(titleCandidate);
    }
    return None;
  }

  /** One step of the `level_map` loop: the level of bookmark `i`, giving its depth
      the next level number on first sight. */
  method TocLevel(levelMap: map<int, nat>, ghost ds: seq<int>, i: nat, depth: int) returns (levelMap': map<int, nat>, level: nat)
    requires i < |ds| && depth == ds[i]
    requires levelMap == LevelMap(ds[..i])
    ensures levelMap' == LevelMap(ds[..i + 1]) && level == LevelOf(ds, i)
  {
    LevelMapSnoc(ds, i);
    LevelMapLevel(ds, i);
    levelMap' := levelMap;
    if depth !in levelMap' {
      levelMap' := levelMap'[depth := |levelMap'| + 1];
    }
    level := levelMap'[depth];
  }

  /** `extract_outline_from_toc(doc)` over the bookmarks `doc.get_toc()`. */
  method ExtractOutlineFromToc(toc: seq<TocEntry>) returns (outline: Option<seq<OutlineEntry>>)
    ensures outline == TocOutline(toc)
  {
    if toc == [] {
      return None;
    }
    ghost var ds := Depths(toc);
    var entries: seq<OutlineEntry> := [];
    var levelMap: map<int, nat> := map[];
    assert ds[..0] == [];
    for i := 0 to |toc|
      invariant levelMap == LevelMap(ds[..i])
      invariant |entries| == i
      invariant forall k :: 0 <= k < i ==> entries[k] == TocEntries(toc)[k]
    {
      var level;
      levelMap, level := TocLevel(levelMap, ds, i, toc[i].depth);
      entries := entries + [OutlineEntry(Strip(toc[i].title), level, toc[i].page)];
    }
    assert entries == TocEntries(toc);
    outline := if |entries| > 2 then Some(entries) else None;
  }

  /** One heading into `style_to_headings`. */
  method GroupOne(styleToHeadings: map<StyleKey, seq<Heading>>, order: seq<StyleKey>, ghost hs: seq<Heading>, h: Heading)
    returns (styleToHeadings': map<StyleKey, seq<Heading>>, order': seq<StyleKey>)
    requires styleToHeadings == GroupBy(hs) && order == Distinct(Styles(hs))
    ensures styleToHeadings' == GroupBy(hs + [h]) && order' == Distinct(Styles(hs + [h]))
  {
    assert (hs + [h])[..|hs|] == hs;
    assert Styles(hs + [h]) == Styles(hs) + [h.style];
    GroupBySpec(hs);
    InDistinct(Styles(hs), h.style);
    DistinctSnoc(Styles(hs), h.style);
    if h.style in styleToHeadings {
      styleToHeadings' := styleToHeadings[h.style := styleToHeadings[h.style] + [h]];
      order' := order;
    } else {
      styleToHeadings' := styleToHeadings[h.style := [h]];
      order' := order + [h.style];
    }
  }

  /** The grouping loop of `classify_and_sort_headings`: `style_to_headings` and its
      key order. */
  method GroupHeadings(headings: seq<Heading>) returns (styleToHeadings: map<StyleKey, seq<Heading>>, order: seq<StyleKey>)
    ensures styleToHeadings == GroupBy(headings)
    ensures order == StyleOrder(headings)
  {
    styleToHeadings, order := map[], [];
    assert headings[..0] == [];
    for i := 0 to |headings|
      invariant styleToHeadings == GroupBy(headings[..i])
      invariant order == Distinct(Styles(headings[..i]))
    {
      assert headings[..i + 1] == headings[..i] + [headings[i]];
      styleToHeadings, order := GroupOne(styleToHeadings, order, headings[..i], headings[i]);
    }
    assert headings[..|headings|] == headings;
  }

  /** The inner labelling loop: appends the headings `hs` with level `level`. */
  method AppendLabelled(classified: seq<OutlineEntry>, hs: seq<Heading>, level: nat) returns (classified': seq<OutlineEntry>)
    ensures classified' == classified + LabelAll(hs, level)
  {
    classified' := classified;
    assert hs[..0] == [];
    for k := 0 to |hs|
      invariant classified' == classified + LabelAll(hs[..k], level)
    {
      LabelAllStep(hs, level, k);
      classified' := classified' + [Label(hs[k], level)];
    }
    assert hs[..|hs|] == hs;
  }

  /** `classify_and_sort_headings(headings)` */
  method ClassifyAndSortHeadings(headings: seq<Heading>) returns (classified: seq<OutlineEntry>)
    ensures classified == ClassifyAndSort(headings)
  {
    var styleToHeadings, order := GroupHeadings(headings);
    GroupBySpec(headings);
    var sortedStyles := SortBy(order, StyleGe);
    classified := [];
    assert order[..0] == [];
    for j := 0 to |order|
      invariant classified == Classified(order[..j], headings, sortedStyles)
    {
      ClassifiedStep(order, headings, sortedStyles, j);
      var style := order[j];
      InDistinct(Styles(headings), style);
      var level := LevelFor(sortedStyles, style);
      classified := AppendLabelled(classified, styleToHeadings[style], level);
    }
    assert order[..|order|] == order;
    classified := SortBy(classified, PageLevelLe);
  }

  /** The block loop of one page of `extract_outline_with_heuristics`. */
  method AppendPageHeadings(potential: seq<Heading>, blocks: seq<Block>, page: int, bodySize: int, zones: seq<Rect>)
    returns (potential': seq<Heading>)
    ensures potential' == potential + PageCandidates(blocks, page, bodySize, zones)
  {
    potential' := potential;
    assert blocks[..0] == [];
    for b := 0 to |blocks|
      invariant potential' == potential + PageCandidates(blocks[..b], page, bodySize, zones)
    {
      PageCandidatesStep(blocks, page, bodySize, zones, b);
      var block := blocks[b];
      if HasFirstSpan(block) && !HitsZone(block.bbox, zones) {
        var size := FirstSpan(block).size;
        var font := FirstSpan(block).font;
        var text := BlockText(block);
        if text != "" && |text| <= 120 && size >= (bodySize + 1) as real
          && HasAsciiLetter(text) && !HasListPrefix(text)
        {
          potential' := potential' + [Heading(text, page, (Round(size), font))];
        }
      }
    }
    assert blocks[..|blocks|] == blocks;
  }

  /** The page loop of `extract_outline_with_heuristics`: `potential_headings`. */
  method CollectCandidates(pages: seq<Page>, bodySize: int, zones: seq<Rect>) returns (potential: seq<Heading>)
    ensures potential == Candidates(pages, bodySize, zones)
  {
    potential := [];
    assert pages[..0] == [];
    for p := 0 to |pages|
      invariant potential == Candidates(pages[..p], bodySize, zones)
    {
      CandidatesStep(pages, bodySize, zones, p);
      potential := AppendPageHeadings(potential, pages[p].sortedBlocks, p + 1, bodySize, zones);
    }
    assert pages[..|pages|] == pages;
  }

  /** `extract_outline_with_heuristics(doc)` */
  method ExtractOutlineWithHeuristics(doc: Document) returns (outline: seq<OutlineEntry>)
    ensures outline == HeuristicOutline(doc)
  {
    var bodySize, _ := GetDocumentBodyStyle(doc);
    var zones := GetHeaderFooterZones(doc, 3);
    var potential := CollectCandidates(doc.pages, bodySize, zones);
    outline := ClassifyAndSortHeadings(potential);
  }
}
