/** The section segmenter `get_section_text` of challenge-1b/src/main_1b.py: the
    content of each outline heading is the text of the blocks between it and the
    next heading, found by page and by the vertical position of the blocks that
    contain the heading texts. */
module Segments {
  import opened Seqs
  import opened Text
  import opened Layout

  /** An outline entry with the `content` field `get_section_text` adds. */
  datatype Segment = Segment(heading: OutlineEntry, content: string)

  /** The block holds text (`"lines" in block`) and its stripped text contains `text`. */
  predicate HoldsText(b: Block, text: string) {
    b.TextBlock? && Contains(BlockText(b), text)
  }

  /** The index of the first block at or after `from` holding `text`, if any: the
      loops that search a page for a heading and `break` at the first hit. */
  function FirstHolding(blocks: seq<Block>, text: string, from: nat): (r: Option<nat>)
    requires from <= |blocks|
    ensures r.Some? ==> from <= r.value < |blocks|
    decreases |blocks| - from
  {
    if from == |blocks| then None
    else if HoldsText(blocks[from], text) then Some(from)
    else FirstHolding(blocks, text, from + 1)
  }

  /** The search finds the first block holding the text, and nothing only when no
      block holds it. */
  lemma {:induction false} FirstHoldingSpec(blocks: seq<Block>, text: string, from: nat)
    requires from <= |blocks|
    ensures var r := FirstHolding(blocks, text, from);
      && (r.None? ==> forall j :: from <= j < |blocks| ==> !HoldsText(blocks[j], text))
      && (r.Some? ==> HoldsText(blocks[r.value], text) && forall j :: from <= j < r.value ==> !HoldsText(blocks[j], text))
    decreases |blocks| - from
  {
    if from < |blocks| && !HoldsText(blocks[from], text) {
      FirstHoldingSpec(blocks, text, from + 1);
    }
  }

  /** Where a section's text is sought: pages `start..end` (0-based, inclusive), the
      lower bound on the start page, and the top at which collection stops on the end
      page (`None` for `float('inf')`). */
  datatype Window = Window(start: int, end: int, lower: real, stop: Option<real>)

  /** Every heading names a page of the document, as the outlines the program feeds
      in do. */
  predicate PagesInRange(doc: Document, outline: seq<OutlineEntry>) {
    forall i :: 0 <= i < |outline| ==> 1 <= outline[i].page <= |doc.pages|
  }

  /** The bottom of the first block holding `text`, or 0 without one:
      `current_section_y0`. */
  function BottomOfFirst(blocks: seq<Block>, text: string): real {
    match FirstHolding(blocks, text, 0)
    case Some(j) => blocks[j].bbox.y1
    case None => 0.0
  }

  /** The top of the first block holding `text`, or None (`float('inf')`) without one:
      `next_section_start_y`. */
  function TopOfFirst(blocks: seq<Block>, text: string): Option<real> {
    match FirstHolding(blocks, text, 0)
    case Some(j) => Some(blocks[j].bbox.y0)
    case None => None
  }

  /** The window of heading `i` of the outline. */
  function SectionWindow(doc: Document, outline: seq<OutlineEntry>, i: nat): (w: Window)
    requires PagesInRange(doc, outline) && i < |outline|
    ensures 0 <= w.start <= w.end < |doc.pages|
  {
    var section := outline[i];
    var start := section.page - 1;
    var startBlocks := doc.pages[start].sortedBlocks;
    var lower := BottomOfFirst(startBlocks, section.text);
    if i + 1 < |outline| then
      var next := outline[i + 1];
      if next.page > section.page then Window(start, next.page - 1, lower, None)
      else Window(start, start, lower, TopOfFirst(startBlocks, next.text))
    else Window(start, |doc.pages| - 1, lower, None)
  }

  /** A block of a page is taken: it holds text and, on the start page, its top is
      not above the lower bound. */
  predicate Taken(b: Block, lower: Option<real>) {
    b.TextBlock? && (lower.None? || b.bbox.y0 >= lower.value)
  }

  /** The block ends collection: it would be taken, but on the end page its top is
      at or below the next heading's. */
  predicate Stops(b: Block, lower: Option<real>, stop: Option<real>) {
    Taken(b, lower) && stop.Some? && b.bbox.y0 >= stop.value
  }

  /** The index of the first block at or after `from` that ends collection, or
      the number of blocks. */
  function StopIndex(blocks: seq<Block>, lower: Option<real>, stop: Option<real>, from: nat): (k: nat)
    requires from <= |blocks|
    ensures from <= k <= |blocks|
    decreases |blocks| - from
  {
    if from == |blocks| then from
    else if Stops(blocks[from], lower, stop) then from
    else StopIndex(blocks, lower, stop, from + 1)
  }

  /** No block before the stop index ends collection, and the block at it does. */
  lemma {:induction false} StopIndexSpec(blocks: seq<Block>, lower: Option<real>, stop: Option<real>, from: nat)
    requires from <= |blocks|
    ensures var k := StopIndex(blocks, lower, stop, from);
      && (forall j :: from <= j < k ==> !Stops(blocks[j], lower, stop))
      && (k < |blocks| ==> Stops(blocks[k], lower, stop))
    decreases |blocks| - from
  {
    if from < |blocks| && !Stops(blocks[from], lower, stop) {
      StopIndexSpec(blocks, lower, stop, from + 1);
    }
  }

  /** The indices of the taken blocks among the first `n`. */
  function TakenUpTo(blocks: seq<Block>, lower: Option<real>, n: nat): seq<nat>
    requires n <= |blocks|
  {
    if n == 0 then []
    else TakenUpTo(blocks, lower, n - 1) + (if Taken(blocks[n - 1], lower) then [n - 1] else [])
  }

  /** The taken indices increase, lie below `n` and name taken blocks. */
  lemma {:induction false} TakenUpToSpec(blocks: seq<Block>, lower: Option<real>, n: nat)
    requires n <= |blocks|
    ensures forall k :: 0 <= k < |TakenUpTo(blocks, lower, n)| ==>
      TakenUpTo(blocks, lower, n)[k] < n && Taken(blocks[TakenUpTo(blocks, lower, n)[k]], lower)
    ensures forall k, l :: 0 <= k < l < |TakenUpTo(blocks, lower, n)| ==>
      TakenUpTo(blocks, lower, n)[k] < TakenUpTo(blocks, lower, n)[l]
  {
    if n > 0 {
      TakenUpToSpec(blocks, lower, n - 1);
      var a := TakenUpTo(blocks, lower, n - 1);
      if Taken(blocks[n - 1], lower) {
        var js := a + [n - 1];
        assert TakenUpTo(blocks, lower, n) == js;
        forall k | 0 <= k < |js| ensures js[k] < n && Taken(blocks[js[k]], lower) {
          if k < |a| {
            assert js[k] == a[k];
          }
        }
        forall k, l | 0 <= k < l < |js| ensures js[k] < js[l] {
          assert js[k] == a[k];
          if l < |a| {
            assert js[l] == a[l];
          }
        }
      } else {
        assert TakenUpTo(blocks, lower, n) == a + [];
        assert a + [] == a;
      }
    }
  }

  /** The blocks a page contributes, by index: the taken ones before the first
      block that ends collection. */
  function PagePicks(blocks: seq<Block>, lower: Option<real>, stop: Option<real>): seq<nat> {
    TakenUpTo(blocks, lower, StopIndex(blocks, lower, stop, 0))
  }

  /** The lower bound and the stop of page `p` in window `w`. */
  function LowerOn(w: Window, p: int): Option<real> {
    if p == w.start then Some(w.lower) else None
  }

  function StopOn(w: Window, p: int): Option<real> {
    if p == w.end then w.stop else None
  }

  /** A collected block: page and index. */
  datatype Pick = Pick(page: nat, index: nat)

  /** Block `q.index` of page `q.page` is collected in window `w`: it is taken and
      comes before the first block of its page that ends collection. */
  predicate Collected(pages: seq<Page>, w: Window, q: Pick) {
    && q.page < |pages|
    && var blocks := pages[q.page].sortedBlocks;
    && q.index < StopIndex(blocks, LowerOn(w, q.page), StopOn(w, q.page), 0)
    && Taken(blocks[q.index], LowerOn(w, q.page))
  }

  /** `q` comes before `q'` in reading order. */
  predicate Before(q: Pick, q': Pick) {
    q.page < q'.page || (q.page == q'.page && q.index < q'.index)
  }

  function PicksOn(p: nat, js: seq<nat>): (r: seq<Pick>)
    ensures |r| == |js|
  {
    if js == [] then [] else PicksOn(p, js[..|js| - 1]) + [Pick(p, js[|js| - 1])]
  }

  lemma {:induction false} PicksOnSpec(p: nat, js: seq<nat>, k: nat)
    requires k < |js|
    ensures PicksOn(p, js)[k] == Pick(p, js[k])
  {
    var init := js[..|js| - 1];
    assert PicksOn(p, js) == PicksOn(p, init) + [Pick(p, js[|js| - 1])];
    if k < |init| {
      PicksOnSpec(p, init, k);
    }
  }

  /** The blocks collected from the pages `w.start .. upto - 1`. */
  function WindowPicks(pages: seq<Page>, w: Window, upto: int): seq<Pick>
    requires 0 <= w.start && upto <= |pages|
    decreases upto - w.start
  {
    if upto <= w.start then []
    else
      var p := upto - 1;
      WindowPicks(pages, w, p) + PicksOn(p, PagePicks(pages[p].sortedBlocks, LowerOn(w, p), StopOn(w, p)))
  }

  /** The text of a collected block. */
  function PickText(pages: seq<Page>, q: Pick): string {
    if q.page < |pages| && q.index < |pages[q.page].sortedBlocks| && pages[q.page].sortedBlocks[q.index].TextBlock?
    then BlockText(pages[q.page].sortedBlocks[q.index])
    else ""
  }

  /** The texts of the collected blocks: the `content` list. */
  function PickTexts(pages: seq<Page>, picks: seq<Pick>): (r: seq<string>)
    ensures |r| == |picks|
  {
    if picks == [] then [] else PickTexts(pages, picks[..|picks| - 1]) + [PickText(pages, picks[|picks| - 1])]
  }

  /** The texts of two runs of collected blocks, one after the other. */
  lemma {:induction false} PickTextsAppend(pages: seq<Page>, a: seq<Pick>, b: seq<Pick>)
    ensures PickTexts(pages, a + b) == PickTexts(pages, a) + PickTexts(pages, b)
    decreases |b|
  {
    if b == [] {
      assert a + b == a;
    } else {
      var c := b[..|b| - 1];
      assert (a + b)[..|a + b| - 1] == a + c;
      PickTextsAppend(pages, a, c);
    }
  }

  /** The collected blocks of heading `i`. */
  function SectionPicks(doc: Document, outline: seq<OutlineEntry>, i: nat): seq<Pick>
    requires PagesInRange(doc, outline) && i < |outline|
  {
    var w := SectionWindow(doc, outline, i);
    WindowPicks(doc.pages, w, w.end + 1)
  }

  /** The content of heading `i`: the collected texts joined by spaces, or the
      heading's own text when nothing was collected. */
  function SectionContent(doc: Document, outline: seq<OutlineEntry>, i: nat): string
    requires PagesInRange(doc, outline) && i < |outline|
  {
    var texts := PickTexts(doc.pages, SectionPicks(doc, outline, i));
    if texts == [] then outline[i].text else Join(" ", texts)
  }

  /** The first `n` sections with their content. */
  function SegmentsUpTo(doc: Document, outline: seq<OutlineEntry>, n: nat): seq<Segment>
    requires PagesInRange(doc, outline) && n <= |outline|
  {
    if n == 0 then []
    else SegmentsUpTo(doc, outline, n - 1) + [Segment(outline[n - 1], SectionContent(doc, outline, n - 1))]
  }

  /** What `get_section_text(doc, outline)` returns. */
  function SectionTexts(doc: Document, outline: seq<OutlineEntry>): seq<Segment>
    requires PagesInRange(doc, outline)
  {
    SegmentsUpTo(doc, outline, |outline|)
  }

  // ----- properties -----

  lemma {:induction false} SegmentsUpToLength(doc: Document, outline: seq<OutlineEntry>, n: nat)
    requires PagesInRange(doc, outline) && n <= |outline|
    ensures |SegmentsUpTo(doc, outline, n)| == n
  {
    if n > 0 {
      SegmentsUpToLength(doc, outline, n - 1);
    }
  }

  lemma {:induction false} SegmentsUpToAt(doc: Document, outline: seq<OutlineEntry>, n: nat, i: nat)
    requires PagesInRange(doc, outline) && i < n <= |outline|
    ensures |SegmentsUpTo(doc, outline, n)| == n
    ensures SegmentsUpTo(doc, outline, n)[i] == Segment(outline[i], SectionContent(doc, outline, i))
  {
    SegmentsUpToLength(doc, outline, n - 1);
    SegmentsUpToLength(doc, outline, n);
    var r := SegmentsUpTo(doc, outline, n - 1);
    assert SegmentsUpTo(doc, outline, n) == r + [Segment(outline[n - 1], SectionContent(doc, outline, n - 1))];
    if i < n - 1 {
      SegmentsUpToAt(doc, outline, n - 1, i);
    }
  }

  /** The sections keep their number and order and only gain their content. */
  lemma SectionTextsShape(doc: Document, outline: seq<OutlineEntry>)
    requires PagesInRange(doc, outline)
    ensures |SectionTexts(doc, outline)| == |outline|
    ensures forall i :: 0 <= i < |outline| ==>
      SectionTexts(doc, outline)[i].heading == outline[i] && SectionTexts(doc, outline)[i].content == SectionContent(doc, outline, i)
  {
    SegmentsUpToLength(doc, outline, |outline|);
    forall i | 0 <= i < |outline|
      ensures SectionTexts(doc, outline)[i] == Segment(outline[i], SectionContent(doc, outline, i))
    {
      SegmentsUpToAt(doc, outline, |outline|, i);
    }
  }

  /** Nothing collected: the content is the heading text; otherwise it is the
      collected texts, in reading order, joined by spaces. */
  lemma ContentFallback(doc: Document, outline: seq<OutlineEntry>, i: nat)
    requires PagesInRange(doc, outline) && i < |outline|
    ensures SectionPicks(doc, outline, i) == [] ==> SectionContent(doc, outline, i) == outline[i].text
    ensures SectionPicks(doc, outline, i) != [] ==>
      SectionContent(doc, outline, i) == Join(" ", PickTexts(doc.pages, SectionPicks(doc, outline, i)))
  {
  }

  /** The blocks one page contributes are collected there and in reading order. */
  lemma PageCollected(pages: seq<Page>, w: Window, p: nat, k: nat)
    requires p < |pages|
    requires k < |PagePicks(pages[p].sortedBlocks, LowerOn(w, p), StopOn(w, p))|
    ensures var qs := PicksOn(p, PagePicks(pages[p].sortedBlocks, LowerOn(w, p), StopOn(w, p)));
      && qs[k].page == p && Collected(pages, w, qs[k])
      && (forall l :: k < l < |qs| ==> qs[k].index < qs[l].index)
  {
    var blocks := pages[p].sortedBlocks;
    var lower, stop := LowerOn(w, p), StopOn(w, p);
    var last := StopIndex(blocks, lower, stop, 0);
    var js := TakenUpTo(blocks, lower, last);
    assert js == PagePicks(blocks, lower, stop);
    TakenUpToSpec(blocks, lower, last);
    PicksOnSpec(p, js, k);
    assert js[k] < last && Taken(blocks[js[k]], lower);
    assert Collected(pages, w, Pick(p, js[k]));
    forall l | k < l < |js| ensures PicksOn(p, js)[k].index < PicksOn(p, js)[l].index {
      PicksOnSpec(p, js, l);
    }
  }

  /** Every block collected from the pages `w.start .. upto - 1` lies on one of them
      and is collected. */
  lemma {:induction false} WindowPicksCollected(pages: seq<Page>, w: Window, upto: int, k: nat)
    requires 0 <= w.start && upto <= |pages|
    requires k < |WindowPicks(pages, w, upto)|
    ensures w.start <= WindowPicks(pages, w, upto)[k].page < upto
    ensures Collected(pages, w, WindowPicks(pages, w, upto)[k])
    decreases upto - w.start
  {
    var p := upto - 1;
    var a := WindowPicks(pages, w, p);
    var b := PicksOn(p, PagePicks(pages[p].sortedBlocks, LowerOn(w, p), StopOn(w, p)));
    assert WindowPicks(pages, w, upto) == a + b;
    if k < |a| {
      WindowPicksCollected(pages, w, p, k);
    } else {
      PageCollected(pages, w, p, k - |a|);
    }
  }

  /** The blocks collected from the pages `w.start .. upto - 1` come in reading order. */
  lemma {:induction false} WindowPicksOrdered(pages: seq<Page>, w: Window, upto: int, k: nat, l: nat)
    requires 0 <= w.start && upto <= |pages|
    requires k < l < |WindowPicks(pages, w, upto)|
    ensures Before(WindowPicks(pages, w, upto)[k], WindowPicks(pages, w, upto)[l])
    decreases upto - w.start
  {
    var p := upto - 1;
    var a := WindowPicks(pages, w, p);
    var b := PicksOn(p, PagePicks(pages[p].sortedBlocks, LowerOn(w, p), StopOn(w, p)));
    assert WindowPicks(pages, w, upto) == a + b;
    if l < |a| {
      WindowPicksOrdered(pages, w, p, k, l);
    } else if k < |a| {
      WindowPicksCollected(pages, w, p, k);
      PageCollected(pages, w, p, l - |a|);
    } else {
      PageCollected(pages, w, p, k - |a|);
      PageCollected(pages, w, p, l - |a|);
      assert (a + b)[k] == b[k - |a|] && (a + b)[l] == b[l - |a|];
    }
  }

  /** Every taken block among the first `n` has its index among the taken ones. */
  lemma {:induction false} TakenUpToComplete(blocks: seq<Block>, lower: Option<real>, n: nat, j: nat)
    requires j < n <= |blocks| && Taken(blocks[j], lower)
    ensures j in TakenUpTo(blocks, lower, n)
  {
    var a := TakenUpTo(blocks, lower, n - 1);
    assert TakenUpTo(blocks, lower, n) == a + (if Taken(blocks[n - 1], lower) then [n - 1] else []);
    if j < n - 1 {
      TakenUpToComplete(blocks, lower, n - 1, j);
    }
  }

  lemma {:induction false} PicksOnHas(p: nat, js: seq<nat>, j: nat)
    requires j in js
    ensures Pick(p, j) in PicksOn(p, js)
  {
    var k :| 0 <= k < |js| && js[k] == j;
    PicksOnSpec(p, js, k);
  }

  /** Every block collected on page `p` is among the blocks the page contributes. */
  lemma PageCollectedComplete(pages: seq<Page>, w: Window, q: Pick)
    requires Collected(pages, w, q)
    ensures q in PicksOn(q.page, PagePicks(pages[q.page].sortedBlocks, LowerOn(w, q.page), StopOn(w, q.page)))
  {
    var blocks := pages[q.page].sortedBlocks;
    var lower, stop := LowerOn(w, q.page), StopOn(w, q.page);
    TakenUpToComplete(blocks, lower, StopIndex(blocks, lower, stop, 0), q.index);
    PicksOnHas(q.page, PagePicks(blocks, lower, stop), q.index);
  }

  /** Every block collected on one of the pages `w.start .. upto - 1` is among the
      blocks collected from them. */
  lemma {:induction false} WindowPicksComplete(pages: seq<Page>, w: Window, upto: int, q: Pick)
    requires 0 <= w.start && upto <= |pages|
    requires w.start <= q.page < upto && Collected(pages, w, q)
    ensures q in WindowPicks(pages, w, upto)
    decreases upto - w.start
  {
    var p := upto - 1;
    var a := WindowPicks(pages, w, p);
    var b := PicksOn(p, PagePicks(pages[p].sortedBlocks, LowerOn(w, p), StopOn(w, p)));
    assert WindowPicks(pages, w, upto) == a + b;
    if q.page < p {
      WindowPicksComplete(pages, w, p, q);
      assert q in a;
    } else {
      assert q.page == p;
      PageCollectedComplete(pages, w, q);
      assert q in b;
    }
  }

  /** The pages of a section: from its own page up to the page before the next
      heading's (0-based; in 1-based numbers, up to and including the next heading's
      page) when that is later, only the start page when it is not, and up to the
      last page for the last heading. */
  lemma SectionWindowPages(doc: Document, outline: seq<OutlineEntry>, i: nat)
    requires PagesInRange(doc, outline) && i < |outline|
    ensures SectionWindow(doc, outline, i).start == outline[i].page - 1
    ensures i + 1 < |outline| && outline[i + 1].page > outline[i].page ==>
      SectionWindow(doc, outline, i).end == outline[i + 1].page - 1 && SectionWindow(doc, outline, i).stop.None?
    ensures i + 1 < |outline| && outline[i + 1].page <= outline[i].page ==>
      SectionWindow(doc, outline, i).end == SectionWindow(doc, outline, i).start
    ensures i + 1 == |outline| ==>
      SectionWindow(doc, outline, i).end == |doc.pages| - 1 && SectionWindow(doc, outline, i).stop.None?
  {
  }

  /** Every collected block lies in the window and is collected there, and the
      blocks come in reading order. */
  lemma PicksInWindow(doc: Document, outline: seq<OutlineEntry>, i: nat, k: nat, l: nat)
    requires PagesInRange(doc, outline) && i < |outline|
    requires k < l < |SectionPicks(doc, outline, i)|
    ensures var w := SectionWindow(doc, outline, i);
      var picks := SectionPicks(doc, outline, i);
      && w.start <= picks[k].page <= w.end && w.start <= picks[l].page <= w.end
      && Collected(doc.pages, w, picks[k]) && Collected(doc.pages, w, picks[l])
      && Before(picks[k], picks[l])
  {
    SectionPickCollected(doc, outline, i, k);
    SectionPickCollected(doc, outline, i, l);
    var w := SectionWindow(doc, outline, i);
    WindowPicksOrdered(doc.pages, w, w.end + 1, k, l);
  }

  lemma SectionPickCollected(doc: Document, outline: seq<OutlineEntry>, i: nat, k: nat)
    requires PagesInRange(doc, outline) && i < |outline|
    requires k < |SectionPicks(doc, outline, i)|
    ensures var w := SectionWindow(doc, outline, i);
      var q := SectionPicks(doc, outline, i)[k];
      w.start <= q.page <= w.end && Collected(doc.pages, w, q)
  {
    var w := SectionWindow(doc, outline, i);
    WindowPicksCollected(doc.pages, w, w.end + 1, k);
  }

  /** A block is collected for heading `i` exactly when it lies on a page of the
      window and is collected there: taken, and before the first block of its page
      that ends collection. */
  lemma SectionPicksExact(doc: Document, outline: seq<OutlineEntry>, i: nat, q: Pick)
    requires PagesInRange(doc, outline) && i < |outline|
    ensures var w := SectionWindow(doc, outline, i);
      q in SectionPicks(doc, outline, i) <==> (w.start <= q.page <= w.end && Collected(doc.pages, w, q))
  {
    var w := SectionWindow(doc, outline, i);
    var picks := SectionPicks(doc, outline, i);
    if q in picks {
      var k :| 0 <= k < |picks| && picks[k] == q;
      SectionPickCollected(doc, outline, i, k);
    }
    if w.start <= q.page <= w.end && Collected(doc.pages, w, q) {
      WindowPicksComplete(doc.pages, w, w.end + 1, q);
    }
  }

  /** On the start page only text blocks whose top is not above the bottom of the
      first block holding the heading text are collected, or, without such a block,
      not above 0. */
  lemma StartBound(doc: Document, outline: seq<OutlineEntry>, i: nat, k: nat)
    requires PagesInRange(doc, outline) && i < |outline|
    requires k < |SectionPicks(doc, outline, i)| && SectionPicks(doc, outline, i)[k].page == outline[i].page - 1
    ensures var q := SectionPicks(doc, outline, i)[k];
      var blocks := doc.pages[q.page].sortedBlocks;
      var first := FirstHolding(blocks, outline[i].text, 0);
      && q.index < |blocks| && blocks[q.index].TextBlock?
      && (first.Some? ==>
            (HoldsText(blocks[first.value], outline[i].text)
             && (forall j :: 0 <= j < first.value ==> !HoldsText(blocks[j], outline[i].text))
             && blocks[q.index].bbox.y0 >= blocks[first.value].bbox.y1))
      && (first.None? ==> blocks[q.index].bbox.y0 >= 0.0)
  {
    var w := SectionWindow(doc, outline, i);
    WindowPicksCollected(doc.pages, w, w.end + 1, k);
    FirstHoldingSpec(doc.pages[outline[i].page - 1].sortedBlocks, outline[i].text, 0);
  }

  /** With the next heading on the same or an earlier page, every collected block is
      on the start page and, when some block of that page holds the next heading's
      text, lies above the top of the first such block. */
  lemma SamePageStop(doc: Document, outline: seq<OutlineEntry>, i: nat, k: nat)
    requires PagesInRange(doc, outline) && i + 1 < |outline|
    requires outline[i + 1].page <= outline[i].page
    requires k < |SectionPicks(doc, outline, i)|
    ensures SectionPicks(doc, outline, i)[k].page == outline[i].page - 1
    ensures var q := SectionPicks(doc, outline, i)[k];
      var blocks := doc.pages[q.page].sortedBlocks;
      var next := FirstHolding(blocks, outline[i + 1].text, 0);
      && q.index < |blocks|
      && (next.Some? ==>
            (HoldsText(blocks[next.value], outline[i + 1].text)
             && (forall j :: 0 <= j < next.value ==> !HoldsText(blocks[j], outline[i + 1].text))
             && blocks[q.index].bbox.y0 < blocks[next.value].bbox.y0))
  {
    var w := SectionWindow(doc, outline, i);
    var q := SectionPicks(doc, outline, i)[k];
    WindowPicksCollected(doc.pages, w, w.end + 1, k);
    var blocks := doc.pages[q.page].sortedBlocks;
    FirstHoldingSpec(blocks, outline[i + 1].text, 0);
    StopIndexSpec(blocks, LowerOn(w, q.page), StopOn(w, q.page), 0);
    assert !Stops(blocks[q.index], LowerOn(w, q.page), StopOn(w, q.page));
  }
}
