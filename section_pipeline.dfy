/** The loops of challenge-1b/src/main_1b.py, each proved to compute its
    specification: `get_section_text` (Segments), `create_diverse_section_pool`
    (Pool) and `perform_sub_section_analysis` (Refine). */
module SectionPipeline {
  import opened Seqs
  import opened Text
  import opened Layout
  import opened Segments
  import opened Analyst
  import opened Pool
  import opened Refine

  // ----- get_section_text -----

  /** The search loop over a page's blocks for the first one holding `text`. */
  method FindHolding(blocks: seq<Block>, text: string) returns (r: Option<nat>)
    ensures r == FirstHolding(blocks, text, 0)
  {
    var i := 0;
    while i < |blocks|
      invariant 0 <= i <= |blocks|
      invariant FirstHolding(blocks, text, i) == FirstHolding(blocks, text, 0)
    {
      if blocks[i].TextBlock? && Contains(BlockText(blocks[i]), text) {
        return Some(i);
      }
      i := i + 1;
    }
    return None;
  }

  /** `current_section_y0`: the search of the start page for the heading. */
  method FindBottom(blocks: seq<Block>, text: string) returns (y: real)
    ensures y == BottomOfFirst(blocks, text)
  {
    y := 0.0;
    var j := FindHolding(blocks, text);
    if j.Some? {
      y := blocks[j.value].bbox.y1;
    }
  }

  /** `next_section_start_y`: the search of the start page for the next heading. */
  method FindTop(blocks: seq<Block>, text: string) returns (y: Option<real>)
    ensures y == TopOfFirst(blocks, text)
  {
    y := None;
    var j := FindHolding(blocks, text);
    if j.Some? {
      y := Some(blocks[j.value].bbox.y0);
    }
  }

  /** The page range and the stop position of section `i`: `start_page`,
      `end_page` and `next_section_start_y`; `lower` is the `current_section_y0` the
      start page gets. */
  method FindWindow(doc: Document, outline: seq<OutlineEntry>, i: nat) returns (w: Window)
    requires PagesInRange(doc, outline) && i < |outline|
    ensures w == SectionWindow(doc, outline, i)
  {
    var section := outline[i];
    var start := section.page - 1;
    var end := |doc.pages| - 1;
    var stop: Option<real> := None;
    if i + 1 < |outline| {
      var next := outline[i + 1];
      if next.page > section.page {
        end := next.page - 1;
      } else {
        end := start;
        stop := FindTop(doc.pages[start].sortedBlocks, next.text);
      }
    }
    var lower := FindBottom(doc.pages[start].sortedBlocks, section.text);
    w := Window(start, end, lower, stop);
  }

  /** The block loop of one page: appends the texts of the taken blocks until the
      first block that ends collection. */
  method CollectPage(pages: seq<Page>, w: Window, p: nat, content: seq<string>, ghost picks: seq<Pick>)
    returns (content': seq<string>, ghost picks': seq<Pick>)
    requires w.start <= p < |pages|
    requires content == PickTexts(pages, picks)
    ensures picks' == picks + PicksOn(p, PagePicks(pages[p].sortedBlocks, LowerOn(w, p), StopOn(w, p)))
    ensures content' == PickTexts(pages, picks')
    ensures content' == content + PickTexts(pages, PicksOn(p, PagePicks(pages[p].sortedBlocks, LowerOn(w, p), StopOn(w, p))))
  {
    var blocks := pages[p].sortedBlocks;
    var lower, stop := LowerOn(w, p), StopOn(w, p);
    ghost var last := StopIndex(blocks, lower, stop, 0);
    content', picks' := content, picks;
    ghost var js: seq<nat> := [];
    var i := 0;
    while i < |blocks|
      invariant i <= last && StopIndex(blocks, lower, stop, i) == last
      invariant js == TakenUpTo(blocks, lower, i) && picks' == picks + PicksOn(p, js)
      invariant content' == PickTexts(pages, picks')
    {
      var b := blocks[i];
      TakenUpToSnoc(blocks, lower, i);
      if b.TextBlock? && (lower.None? || b.bbox.y0 >= lower.value) {
        if stop.Some? && b.bbox.y0 >= stop.value {
          break;
        }
        CollectOne(pages, p, i, picks');
        PicksOnSnoc(p, js, i);
        AppendAssoc(picks, PicksOn(p, js), Pick(p, i));
        content', picks', js := content' + [BlockText(b)], picks' + [Pick(p, i)], js + [i];
      }
      i := i + 1;
    }
    PickTextsAppend(pages, picks, PicksOn(p, PagePicks(blocks, lower, stop)));
  }

  lemma TakenUpToSnoc(blocks: seq<Block>, lower: Option<real>, i: nat)
    requires i < |blocks|
    ensures Taken(blocks[i], lower) ==> TakenUpTo(blocks, lower, i + 1) == TakenUpTo(blocks, lower, i) + [i]
    ensures !Taken(blocks[i], lower) ==> TakenUpTo(blocks, lower, i + 1) == TakenUpTo(blocks, lower, i)
  {
    assert TakenUpTo(blocks, lower, i) + [] == TakenUpTo(blocks, lower, i);
  }

  /** Taking one more text block appends its text. */
  lemma CollectOne(pages: seq<Page>, p: nat, i: nat, picks: seq<Pick>)
    requires p < |pages| && i < |pages[p].sortedBlocks| && pages[p].sortedBlocks[i].TextBlock?
    ensures PickTexts(pages, picks + [Pick(p, i)]) == PickTexts(pages, picks) + [BlockText(pages[p].sortedBlocks[i])]
  {
    assert (picks + [Pick(p, i)])[..|picks|] == picks;
  }

  lemma AppendAssoc<T>(a: seq<T>, b: seq<T>, x: T)
    ensures a + (b + [x]) == (a + b) + [x]
  {
  }

  lemma PicksOnSnoc(p: nat, js: seq<nat>, j: nat)
    ensures PicksOn(p, js + [j]) == PicksOn(p, js) + [Pick(p, j)]
  {
    assert (js + [j])[..|js|] == js;
  }

  /** The page loop of one section: the texts of the blocks collected from the
      pages of its window. */
  method CollectWindow(pages: seq<Page>, w: Window) returns (texts: seq<string>)
    requires 0 <= w.start <= w.end < |pages|
    ensures texts == PickTexts(pages, WindowPicks(pages, w, w.end + 1))
  {
    texts := [];
    ghost var picks: seq<Pick> := [];
    for p := w.start to w.end + 1
      invariant picks == WindowPicks(pages, w, p)
      invariant texts == PickTexts(pages, picks)
    {
      texts, picks := CollectPage(pages, w, p, texts, picks);
    }
  }

  /** The content of section `i`. */
  method SectionContentOf(doc: Document, outline: seq<OutlineEntry>, i: nat) returns (content: string)
    requires PagesInRange(doc, outline) && i < |outline|
    ensures content == SectionContent(doc, outline, i)
  {
    var w := FindWindow(doc, outline, i);
    var texts := CollectWindow(doc.pages, w);
    content := if texts == [] then outline[i].text else Join(" ", texts);
  }

  /** `get_section_text(doc, outline)`: every heading with its content. */
  method GetSectionText(doc: Document, outline: seq<OutlineEntry>) returns (sections: seq<Segment>)
    requires PagesInRange(doc, outline)
    ensures sections == SectionTexts(doc, outline)
  {
    sections := [];
    for i := 0 to |outline|
      invariant sections == SegmentsUpTo(doc, outline, i)
    {
      var content := SectionContentOf(doc, outline, i);
      sections := sections + [Segment(outline[i], content)];
    }
  }

  // ----- create_diverse_section_pool -----

  lemma TitleSetSnoc(pool: seq<Ranked<Section>>, r: Ranked<Section>)
    ensures TitleSet(pool + [r]) == TitleSet(pool) + {Title(r)}
  {
    var pool' := pool + [r];
    assert Title(pool'[|pool|]) == Title(r);
    forall t | t in TitleSet(pool) ensures t in TitleSet(pool') {
      var k :| 0 <= k < |pool| && Title(pool[k]) == t;
      assert pool'[k] == pool[k];
    }
  }

  /** The search of one category: the best-ranked eligible section joins. */
  method SearchCategory(ranked: seq<Ranked<Section>>, pool: seq<Ranked<Section>>, seen: set<string>, c: nat)
    returns (pool': seq<Ranked<Section>>, seen': set<string>)
    requires c < 4 && seen == TitleSet(pool)
    ensures pool' == AddCategory(ranked, pool, c) && seen' == TitleSet(pool')
  {
    var keywords := Categories()[c];
    pool', seen' := pool, seen;
    var j := 0;
    while j < |ranked|
      invariant 0 <= j <= |ranked|
      invariant FirstEligible(ranked, seen, keywords, j) == FirstEligible(ranked, seen, keywords, 0)
    {
      var title := Title(ranked[j]);
      if title !in seen {
        var titleLower := Lower(title);
        if exists k :: 0 <= k < |keywords| && Contains(titleLower, keywords[k]) {
          TitleSetSnoc(pool, ranked[j]);
          pool', seen' := pool + [ranked[j]], seen + {title};
          return;
        }
      }
      j := j + 1;
    }
  }

  /** `create_diverse_section_pool(ranked_sections)` */
  method CreateDiverseSectionPool(ranked: seq<Ranked<Section>>) returns (pool: seq<Ranked<Section>>)
    ensures pool == DiversePool(ranked)
  {
    pool := [];
    var seen: set<string> := {};
    if |ranked| > 0 {
      TitleSetSnoc([], ranked[0]);
      assert [] + [ranked[0]] == [ranked[0]];
      pool := [ranked[0]];
      seen := {Title(ranked[0])};
    }
    for c := 0 to 4
      invariant pool == PoolUpTo(ranked, c) && seen == TitleSet(pool)
    {
      pool, seen := SearchCategory(ranked, pool, seen, c);
    }
  }

  // ----- perform_sub_section_analysis -----

  /** The sentence loop of one section. */
  method SentencesOf(sec: Section) returns (sentences: seq<Sentence>)
    ensures sentences == SectionSentences(sec)
  {
    var pieces := SplitSentences(sec.content);
    sentences := [];
    for t := 0 to |pieces|
      invariant sentences == PieceSentences(pieces[..t], sec)
    {
      var clean := Strip(pieces[t]);
      PieceSentencesSnoc(pieces, t, sec);
      if clean != "" && |Words(clean)| > 3 && Lower(clean) != Lower(sec.sectionTitle) {
        sentences := sentences + [Sentence(clean, sec.document, sec.pageNumber)];
      }
    }
    assert pieces[..|pieces|] == pieces;
  }

  lemma PieceSentencesSnoc(pieces: seq<string>, t: nat, sec: Section)
    requires t < |pieces|
    ensures var clean := Strip(pieces[t]);
      PieceSentences(pieces[..t + 1], sec) == PieceSentences(pieces[..t], sec)
        + (if KeepSentence(clean, sec.sectionTitle) then [Sentence(clean, sec.document, sec.pageNumber)] else [])
  {
    assert pieces[..t + 1][..t] == pieces[..t];
  }

  /** `all_sentences` */
  method CollectSentences(pool: seq<Ranked<Section>>) returns (all: seq<Sentence>)
    ensures all == AllSentences(pool)
  {
    all := [];
    for s := 0 to |pool|
      invariant all == AllSentences(pool[..s])
    {
      assert pool[..s + 1][..s] == pool[..s];
      var more := SentencesOf(pool[s].item);
      all := all + more;
    }
    assert pool[..|pool|] == pool;
  }

  lemma SeenSnoc(rs: seq<Ranked<Sentence>>, n: nat)
    requires n < |rs|
    ensures SeenUpTo(rs, n + 1) == SeenUpTo(rs, n) + {rs[n].item.content}
  {
  }

  lemma KeptSnoc(rs: seq<Ranked<Sentence>>, n: nat)
    requires n < |rs|
    ensures rs[n].item.content in SeenUpTo(rs, n) ==> KeptUpTo(rs, n + 1) == KeptUpTo(rs, n)
    ensures rs[n].item.content !in SeenUpTo(rs, n) ==> KeptUpTo(rs, n + 1) == KeptUpTo(rs, n) + [n]
  {
    assert KeptUpTo(rs, n) + [] == KeptUpTo(rs, n);
  }

  lemma SnippetsSnoc(rs: seq<Ranked<Sentence>>, ks: seq<nat>, j: nat)
    requires forall k :: 0 <= k < |ks| ==> ks[k] < |rs|
    requires j < |rs|
    ensures Snippets(rs, ks + [j]) == Snippets(rs, ks) + [ToSubSection(rs[j])]
  {
    assert (ks + [j])[..|ks|] == ks;
  }

  /** The cap check after sentence `i`: the loop stops there exactly when the stop
      point is reached. */
  lemma StopStep(rs: seq<Ranked<Sentence>>, limit: int, i: nat)
    requires i < |rs|
    requires i >= 1 ==> |KeptUpTo(rs, i)| < limit && StopPoint(rs, limit) == StopFrom(rs, limit, i)
    ensures |KeptUpTo(rs, i + 1)| >= limit || i + 1 == |rs| ==> StopPoint(rs, limit) == i + 1
    ensures |KeptUpTo(rs, i + 1)| < limit && i + 1 < |rs| ==> StopPoint(rs, limit) == StopFrom(rs, limit, i + 1)
  {
  }

  /** One pass of the de-duplicating loop: a sentence whose content is new becomes
      a snippet. */
  method DedupStep(rs: seq<Ranked<Sentence>>, i: nat, results: seq<SubSection>, seen: set<string>)
    returns (results': seq<SubSection>, seen': set<string>)
    requires i < |rs| && seen == SeenUpTo(rs, i) && results == Snippets(rs, KeptUpTo(rs, i))
    ensures seen' == SeenUpTo(rs, i + 1) && results' == Snippets(rs, KeptUpTo(rs, i + 1))
  {
    var r := rs[i];
    SnippetsSnoc(rs, KeptUpTo(rs, i), i);
    SeenSnoc(rs, i);
    KeptSnoc(rs, i);
    results', seen' := results, seen;
    if r.item.content !in seen {
      results' := results + [ToSubSection(r)];
      seen' := seen + {r.item.content};
    }
  }

  /** The de-duplicating loop over the ranked sentences, with its stop once `limit`
      snippets are collected. */
  method Deduplicate(rs: seq<Ranked<Sentence>>, limit: int) returns (results: seq<SubSection>)
    ensures results == RefinedSnippets(rs, limit)
  {
    results := [];
    var seen: set<string> := {};
    var i := 0;
    while i < |rs|
      invariant 0 <= i <= |rs|
      invariant seen == SeenUpTo(rs, i) && results == Snippets(rs, KeptUpTo(rs, i))
      invariant i >= 1 ==> |results| < limit && StopPoint(rs, limit) == StopFrom(rs, limit, i)
      invariant i == |rs| ==> StopPoint(rs, limit) == i
    {
      StopStep(rs, limit, i);
      results, seen := DedupStep(rs, i, results, seen);
      i := i + 1;
      if |results| >= limit {
        break;
      }
    }
  }

  /** `perform_sub_section_analysis(sections_to_analyze, analyst, query_text,
      num_sub_sections)` */
  method PerformSubSectionAnalysis(pool: seq<Ranked<Section>>, analyst: DocumentAnalyst, query: string, limit: int)
    returns (results: seq<SubSection>)
    ensures results == SubSectionAnalysis(analyst.score, pool, query, limit)
  {
    var sentences := CollectSentences(pool);
    if |sentences| == 0 {
      return [];
    }
    var ranked := analyst.RankSections(query, sentences, SentenceContent);
    results := Deduplicate(ranked, limit);
  }
}
