/** The heading heuristics of challenge-1a/app/pdf_utils.py: the filter of
    `extract_outline_with_heuristics`, which keeps a block as a potential heading,
    and `classify_and_sort_headings`, which turns the styles of the potential
    headings into levels H1..H4 and orders the result by page and level. */
module Headings {
  import opened Seqs
  import opened Text
  import opened Sorting
  import opened Layout
  import opened BodyStyle
  import opened Zones

  /** A potential heading: `{"text": ..., "page": ..., "style_key": ...}`. */
  datatype Heading = Heading(text: string, page: int, style: StyleKey)

  // ----- the filter -----

  /** `any(block_rect.intersects(zone) for zone in header_footer_zones)` */
  predicate HitsZone(r: Rect, zones: seq<Rect>) {
    exists j :: 0 <= j < |zones| && Intersects(r, zones[j])
  }

  /** The filter of the heading loop: `None` is each `continue`. */
  function Candidate(b: Block, page: int, bodySize: int, zones: seq<Rect>): Option<Heading> {
    if !HasFirstSpan(b) then None
    else if HitsZone(b.bbox, zones) then None
    else
      var span := FirstSpan(b);
      var text := BlockText(b);
      if text == "" || |text| > 120 then None
      else if span.size < (bodySize + 1) as real then None
      else if !HasAsciiLetter(text) then None
      else if HasListPrefix(text) then None
      else Some(Heading(text, page, (Round(span.size), span.font)))
  }

  /** A block is kept exactly when it has a first span, meets no zone, its stripped
      text is non-empty, at most 120 characters long, holds an ASCII letter and has
      no list prefix, and its first span is at least one point above the body size;
      it then gives its text, the page, and its first span's rounded size and font. */
  lemma CandidateSpec(b: Block, page: int, bodySize: int, zones: seq<Rect>)
    ensures Candidate(b, page, bodySize, zones).Some? <==>
      && HasFirstSpan(b)
      && !HitsZone(b.bbox, zones)
      && 0 < |BlockText(b)| <= 120
      && FirstSpan(b).size >= (bodySize + 1) as real
      && HasAsciiLetter(BlockText(b))
      && !HasListPrefix(BlockText(b))
    ensures Candidate(b, page, bodySize, zones).Some? ==>
      Candidate(b, page, bodySize, zones).value == Heading(BlockText(b), page, SpanKey(FirstSpan(b)))
  {
  }

  /** The potential headings of one page, numbered `page`, in block order. */
  function PageCandidates(blocks: seq<Block>, page: int, bodySize: int, zones: seq<Rect>): seq<Heading> {
    if blocks == [] then []
    else
      var c := Candidate(blocks[|blocks| - 1], page, bodySize, zones);
      PageCandidates(blocks[..|blocks| - 1], page, bodySize, zones) + (if c.Some? then [c.value] else [])
  }

  /** `potential_headings` after the pages `pages`, numbered from 1. */
  function Candidates(pages: seq<Page>, bodySize: int, zones: seq<Rect>): seq<Heading> {
    if pages == [] then []
    else Candidates(pages[..|pages| - 1], bodySize, zones) + PageCandidates(pages[|pages| - 1].sortedBlocks, |pages|, bodySize, zones)
  }

  /** Heading `h` is what block `i` of page `p` gives. */
  predicate ComesFrom(pages: seq<Page>, bodySize: int, zones: seq<Rect>, h: Heading, p: int, i: int) {
    0 <= p < |pages| && 0 <= i < |pages[p].sortedBlocks|
    && Candidate(pages[p].sortedBlocks[i], p + 1, bodySize, zones) == Some(h)
  }

  /** Every potential heading of a page comes from one of its blocks. */
  lemma {:induction false} PageCandidatesSound(blocks: seq<Block>, page: int, bodySize: int, zones: seq<Rect>, k: nat)
    requires k < |PageCandidates(blocks, page, bodySize, zones)|
    ensures exists i :: 0 <= i < |blocks| && Candidate(blocks[i], page, bodySize, zones) == Some(PageCandidates(blocks, page, bodySize, zones)[k])
  {
    var init := blocks[..|blocks| - 1];
    var pc := PageCandidates(init, page, bodySize, zones);
    var c := Candidate(blocks[|blocks| - 1], page, bodySize, zones);
    var r := PageCandidates(blocks, page, bodySize, zones);
    assert r == pc + (if c.Some? then [c.value] else []);
    if k < |pc| {
      PageCandidatesSound(init, page, bodySize, zones, k);
      var i :| 0 <= i < |init| && Candidate(init[i], page, bodySize, zones) == Some(pc[k]);
      assert blocks[i] == init[i] && r[k] == pc[k];
    } else {
      assert Candidate(blocks[|blocks| - 1], page, bodySize, zones) == Some(r[k]);
    }
  }

  /** A source found among the first pages is a source in the whole document. */
  lemma ComesFromPrefix(pages: seq<Page>, bodySize: int, zones: seq<Rect>, h: Heading, p: int, i: int)
    requires pages != [] && ComesFrom(pages[..|pages| - 1], bodySize, zones, h, p, i)
    ensures ComesFrom(pages, bodySize, zones, h, p, i)
  {
    assert pages[..|pages| - 1][p] == pages[p];
  }

  /** Every potential heading comes from a block of some page `p` and carries the
      page number `p + 1`. */
  lemma {:induction false} CandidatesSound(pages: seq<Page>, bodySize: int, zones: seq<Rect>, k: nat)
    requires k < |Candidates(pages, bodySize, zones)|
    ensures exists p, i :: ComesFrom(pages, bodySize, zones, Candidates(pages, bodySize, zones)[k], p, i)
  {
    var init := pages[..|pages| - 1];
    var c := Candidates(init, bodySize, zones);
    var last := |pages| - 1;
    var pc := PageCandidates(pages[last].sortedBlocks, last + 1, bodySize, zones);
    assert Candidates(pages, bodySize, zones) == c + pc;
    var h := Candidates(pages, bodySize, zones)[k];
    var p: int, i: int;
    if k < |c| {
      assert h == c[k];
      CandidatesSound(init, bodySize, zones, k);
      p, i :| ComesFrom(init, bodySize, zones, h, p, i);
      ComesFromPrefix(pages, bodySize, zones, h, p, i);
    } else {
      assert h == pc[k - |c|];
      PageCandidatesSound(pages[last].sortedBlocks, last + 1, bodySize, zones, k - |c|);
      p := last;
      i :| 0 <= i < |pages[last].sortedBlocks| && Candidate(pages[last].sortedBlocks[i], last + 1, bodySize, zones) == Some(h);
    }
    assert ComesFrom(pages, bodySize, zones, h, p, i);
  }

  /** An element of the front, or the optional element added, is in the result. */
  lemma InSnocOption<T>(r: seq<T>, front: seq<T>, c: Option<T>, x: T)
    requires r == front + (if c.Some? then [c.value] else [])
    requires x in front || c == Some(x)
    ensures x in r
  {
  }

  /** The heading of a page's last block is among the page's potential headings. */
  lemma PageCandidatesLast(blocks: seq<Block>, page: int, bodySize: int, zones: seq<Rect>, i: nat, h: Heading)
    requires i + 1 == |blocks| && Candidate(blocks[i], page, bodySize, zones) == Some(h)
    ensures h in PageCandidates(blocks, page, bodySize, zones)
  {
    InSnocOption(PageCandidates(blocks, page, bodySize, zones), PageCandidates(blocks[..i], page, bodySize, zones), Candidate(blocks[i], page, bodySize, zones), h);
  }

  /** A potential heading of the first blocks stays one when a block follows. */
  lemma PageCandidatesGrow(blocks: seq<Block>, page: int, bodySize: int, zones: seq<Rect>, h: Heading)
    requires blocks != [] && h in PageCandidates(blocks[..|blocks| - 1], page, bodySize, zones)
    ensures h in PageCandidates(blocks, page, bodySize, zones)
  {
    var n := |blocks| - 1;
    InSnocOption(PageCandidates(blocks, page, bodySize, zones), PageCandidates(blocks[..n], page, bodySize, zones), Candidate(blocks[n], page, bodySize, zones), h);
  }

  /** The filter gives the same heading for block `i` of the first blocks. */
  lemma CandidateInPrefix(blocks: seq<Block>, page: int, bodySize: int, zones: seq<Rect>, i: nat, h: Heading)
    requires i + 1 < |blocks| && Candidate(blocks[i], page, bodySize, zones) == Some(h)
    ensures Candidate(blocks[..|blocks| - 1][i], page, bodySize, zones) == Some(h)
  {
    assert blocks[..|blocks| - 1][i] == blocks[i];
  }

  /** Every block of a page that passes the filter gives a potential heading. */
  lemma {:induction false} PageCandidatesComplete(blocks: seq<Block>, page: int, bodySize: int, zones: seq<Rect>, i: nat, h: Heading)
    requires i < |blocks| && Candidate(blocks[i], page, bodySize, zones) == Some(h)
    ensures h in PageCandidates(blocks, page, bodySize, zones)
  {
    if i + 1 < |blocks| {
      CandidateInPrefix(blocks, page, bodySize, zones, i, h);
      PageCandidatesComplete(blocks[..|blocks| - 1], page, bodySize, zones, i, h);
      PageCandidatesGrow(blocks, page, bodySize, zones, h);
    } else {
      PageCandidatesLast(blocks, page, bodySize, zones, i, h);
    }
  }

  /** An element of either part is in the concatenation. */
  lemma InConcat<T>(r: seq<T>, a: seq<T>, b: seq<T>, x: T)
    requires r == a + b && (x in a || x in b)
    ensures x in r
  {
  }

  /** A heading of the last page's blocks is a potential heading of the document. */
  lemma CandidatesLast(pages: seq<Page>, bodySize: int, zones: seq<Rect>, p: nat, i: nat, h: Heading)
    requires p + 1 == |pages| && i < |pages[p].sortedBlocks|
    requires Candidate(pages[p].sortedBlocks[i], p + 1, bodySize, zones) == Some(h)
    ensures h in Candidates(pages, bodySize, zones)
  {
    PageCandidatesComplete(pages[p].sortedBlocks, p + 1, bodySize, zones, i, h);
    InConcat(Candidates(pages, bodySize, zones), Candidates(pages[..p], bodySize, zones), PageCandidates(pages[p].sortedBlocks, p + 1, bodySize, zones), h);
  }

  /** A potential heading of the first pages stays one when a page follows. */
  lemma CandidatesGrow(pages: seq<Page>, bodySize: int, zones: seq<Rect>, h: Heading)
    requires pages != [] && h in Candidates(pages[..|pages| - 1], bodySize, zones)
    ensures h in Candidates(pages, bodySize, zones)
  {
    var n := |pages| - 1;
    InConcat(Candidates(pages, bodySize, zones), Candidates(pages[..n], bodySize, zones), PageCandidates(pages[n].sortedBlocks, n + 1, bodySize, zones), h);
  }

  /** The filter gives the same heading for block `i` of page `p` among the first pages. */
  lemma CandidateOnPrefix(pages: seq<Page>, bodySize: int, zones: seq<Rect>, p: nat, i: nat, h: Heading)
    requires p + 1 < |pages| && i < |pages[p].sortedBlocks|
    requires Candidate(pages[p].sortedBlocks[i], p + 1, bodySize, zones) == Some(h)
    ensures i < |pages[..|pages| - 1][p].sortedBlocks|
    ensures Candidate(pages[..|pages| - 1][p].sortedBlocks[i], p + 1, bodySize, zones) == Some(h)
  {
    assert pages[..|pages| - 1][p] == pages[p];
  }

  /** Every block of every page that passes the filter gives a potential heading,
      numbered with its 1-based page. */
  lemma {:induction false} CandidatesComplete(pages: seq<Page>, bodySize: int, zones: seq<Rect>, p: nat, i: nat, h: Heading)
    requires p < |pages| && i < |pages[p].sortedBlocks|
    requires Candidate(pages[p].sortedBlocks[i], p + 1, bodySize, zones) == Some(h)
    ensures h in Candidates(pages, bodySize, zones)
  {
    if p + 1 < |pages| {
      CandidateOnPrefix(pages, bodySize, zones, p, i, h);
      CandidatesComplete(pages[..|pages| - 1], bodySize, zones, p, i, h);
      CandidatesGrow(pages, bodySize, zones, h);
    } else {
      CandidatesLast(pages, bodySize, zones, p, i, h);
    }
  }

  /** A heading is a potential heading exactly when some block of some page gives it. */
  lemma CandidatesExact(pages: seq<Page>, bodySize: int, zones: seq<Rect>, h: Heading)
    ensures h in Candidates(pages, bodySize, zones) <==> exists p, i :: ComesFrom(pages, bodySize, zones, h, p, i)
  {
    if h in Candidates(pages, bodySize, zones) {
      var k :| 0 <= k < |Candidates(pages, bodySize, zones)| && Candidates(pages, bodySize, zones)[k] == h;
      CandidatesSound(pages, bodySize, zones, k);
    }
    if exists p, i :: ComesFrom(pages, bodySize, zones, h, p, i) {
      var p, i :| ComesFrom(pages, bodySize, zones, h, p, i);
      CandidatesComplete(pages, bodySize, zones, p, i, h);
    }
  }

  /** The six conditions of the heading loop that keep a block. */
  predicate PassesFilter(b: Block, bodySize: int, zones: seq<Rect>) {
    && HasFirstSpan(b)
    && !HitsZone(b.bbox, zones)
    && 0 < |BlockText(b)| <= 120
    && FirstSpan(b).size >= (bodySize + 1) as real
    && HasAsciiLetter(BlockText(b))
    && !HasListPrefix(BlockText(b))
  }

  /** What block `i` of page `p` gives when it is kept. */
  function BlockHeading(pages: seq<Page>, p: nat, i: nat): Heading
    requires p < |pages| && i < |pages[p].sortedBlocks| && HasFirstSpan(pages[p].sortedBlocks[i])
  {
    var b := pages[p].sortedBlocks[i];
    Heading(BlockText(b), p + 1, SpanKey(FirstSpan(b)))
  }

  /** `potential_headings` holds exactly the headings of the blocks that pass the
      filter, each with its text, 1-based page and style. */
  lemma CandidatesAreFilteredBlocks(pages: seq<Page>, bodySize: int, zones: seq<Rect>, h: Heading)
    ensures h in Candidates(pages, bodySize, zones) <==>
      exists p: nat, i: nat :: p < |pages| && i < |pages[p].sortedBlocks|
        && PassesFilter(pages[p].sortedBlocks[i], bodySize, zones) && h == BlockHeading(pages, p, i)
  {
    CandidatesExact(pages, bodySize, zones, h);
    if h in Candidates(pages, bodySize, zones) {
      var p, i :| ComesFrom(pages, bodySize, zones, h, p, i);
      CandidateSpec(pages[p].sortedBlocks[i], p + 1, bodySize, zones);
      assert PassesFilter(pages[p].sortedBlocks[i], bodySize, zones) && h == BlockHeading(pages, p, i);
    }
    if exists p: nat, i: nat :: p < |pages| && i < |pages[p].sortedBlocks|
        && PassesFilter(pages[p].sortedBlocks[i], bodySize, zones) && h == BlockHeading(pages, p, i) {
      var p: nat, i: nat :| p < |pages| && i < |pages[p].sortedBlocks|
        && PassesFilter(pages[p].sortedBlocks[i], bodySize, zones) && h == BlockHeading(pages, p, i);
      CandidateSpec(pages[p].sortedBlocks[i], p + 1, bodySize, zones);
      assert ComesFrom(pages, bodySize, zones, h, p, i);
    }
  }

  /** Every potential heading has non-empty text of at most 120 characters with an
      ASCII letter and no list prefix, a page number between 1 and the page count,
      and comes from a block of that page that has a first span at least one point
      above the body size and meets no zone. */
  lemma CandidateProperties(pages: seq<Page>, bodySize: int, zones: seq<Rect>, k: nat)
    requires k < |Candidates(pages, bodySize, zones)|
    ensures var h := Candidates(pages, bodySize, zones)[k];
      && 0 < |h.text| <= 120 && HasAsciiLetter(h.text) && !HasListPrefix(h.text)
      && 1 <= h.page <= |pages|
    ensures forall p, i :: ComesFrom(pages, bodySize, zones, Candidates(pages, bodySize, zones)[k], p, i) ==>
      var b := pages[p].sortedBlocks[i];
      && HasFirstSpan(b) && !HitsZone(b.bbox, zones) && FirstSpan(b).size >= (bodySize + 1) as real
      && Candidates(pages, bodySize, zones)[k] == Heading(BlockText(b), p + 1, SpanKey(FirstSpan(b)))
  {
    CandidatesSound(pages, bodySize, zones, k);
    var h := Candidates(pages, bodySize, zones)[k];
    var p, i :| ComesFrom(pages, bodySize, zones, h, p, i);
    CandidateSpec(pages[p].sortedBlocks[i], p + 1, bodySize, zones);
    forall p', i' | ComesFrom(pages, bodySize, zones, h, p', i')
      ensures var b := pages[p'].sortedBlocks[i'];
        && HasFirstSpan(b) && !HitsZone(b.bbox, zones) && FirstSpan(b).size >= (bodySize + 1) as real
        && h == Heading(BlockText(b), p' + 1, SpanKey(FirstSpan(b)))
    {
      CandidateSpec(pages[p'].sortedBlocks[i'], p' + 1, bodySize, zones);
    }
  }

  // ----- the classifier -----

  /** Python's `a <= b` on `(size, font)` tuples. */
  predicate StyleLe(a: StyleKey, b: StyleKey) {
    a.0 < b.0 || (a.0 == b.0 && (a.1 == b.1 || StrLess(a.1, b.1)))
  }

  /** The order of `sorted(..., reverse=True)`: `a` may come before `b` when `a >= b`. */
  predicate StyleGe(a: StyleKey, b: StyleKey) {
    StyleLe(b, a)
  }

  lemma StyleGeTotal()
    ensures TotalPreorder(StyleGe)
  {
    forall a: StyleKey, b: StyleKey ensures StyleGe(a, b) || StyleGe(b, a) {
      StrLessTrichotomy(a.1, b.1);
    }
    forall a: StyleKey, b: StyleKey, c: StyleKey | StyleGe(a, b) && StyleGe(b, c) ensures StyleGe(a, c) {
      if c.0 == b.0 && b.0 == a.0 && c.1 != b.1 && b.1 != a.1 {
        StrLessTransitive(c.1, b.1, a.1);
      }
    }
  }

  function Styles(hs: seq<Heading>): (r: seq<StyleKey>)
    ensures |r| == |hs|
    ensures forall i :: 0 <= i < |hs| ==> r[i] == hs[i].style
  {
    if hs == [] then [] else Styles(hs[..|hs| - 1]) + [hs[|hs| - 1].style]
  }

  /** The key order of `style_to_headings`: the styles by first appearance. */
  function StyleOrder(hs: seq<Heading>): seq<StyleKey> {
    Distinct(Styles(hs))
  }

  /** `sorted_styles`: the styles, largest `(size, font)` first. */
  function SortedStyles(hs: seq<Heading>): seq<StyleKey> {
    SortBy(StyleOrder(hs), StyleGe)
  }

  /** `level_map.get(style, 'H4')`: the first four sorted styles get 1..4, every
      other style 4. */
  function LevelFor(sorted: seq<StyleKey>, k: StyleKey): (level: nat)
    ensures 1 <= level <= 4
  {
    if k in sorted && IndexOf(sorted, k) < 4 then IndexOf(sorted, k) + 1 else 4
  }

  /** A heading with its level set and its style key deleted. */
  function Label(h: Heading, level: nat): OutlineEntry {
    OutlineEntry(h.text, level, h.page)
  }

  /** The headings of style `s`, in input order: `style_to_headings[s]`. */
  function Filter(hs: seq<Heading>, s: StyleKey): seq<Heading> {
    if hs == [] then []
    else Filter(hs[..|hs| - 1], s) + (if hs[|hs| - 1].style == s then [hs[|hs| - 1]] else [])
  }

  function LabelAll(hs: seq<Heading>, level: nat): (r: seq<OutlineEntry>)
    ensures |r| == |hs|
  {
    if hs == [] then [] else LabelAll(hs[..|hs| - 1], level) + [Label(hs[|hs| - 1], level)]
  }

  /** `classified_headings` before the final sort: style by style in `order`, the
      headings of that style with its level. */
  function Classified(order: seq<StyleKey>, hs: seq<Heading>, sorted: seq<StyleKey>): seq<OutlineEntry> {
    if order == [] then []
    else
      var s := order[|order| - 1];
      Classified(order[..|order| - 1], hs, sorted) + LabelAll(Filter(hs, s), LevelFor(sorted, s))
  }

  /** The key of the final sort, `(page, level)`, as a comparison. */
  predicate PageLevelLe(a: OutlineEntry, b: OutlineEntry) {
    a.page < b.page || (a.page == b.page && a.level <= b.level)
  }

  /** What `classify_and_sort_headings(headings)` returns. */
  function ClassifyAndSort(hs: seq<Heading>): seq<OutlineEntry> {
    SortBy(Classified(StyleOrder(hs), hs, SortedStyles(hs)), PageLevelLe)
  }

  /** Each input heading with the level of its style: the reference the output is a
      permutation of. */
  function Labels(hs: seq<Heading>, sorted: seq<StyleKey>): (r: seq<OutlineEntry>)
    ensures |r| == |hs|
    ensures forall i :: 0 <= i < |hs| ==> r[i] == Label(hs[i], LevelFor(sorted, hs[i].style))
  {
    if hs == [] then [] else Labels(hs[..|hs| - 1], sorted) + [Label(hs[|hs| - 1], LevelFor(sorted, hs[|hs| - 1].style))]
  }

  /** `style_to_headings` after the headings `hs`. */
  function GroupBy(hs: seq<Heading>): map<StyleKey, seq<Heading>> {
    if hs == [] then map[]
    else
      var m := GroupBy(hs[..|hs| - 1]);
      var h := hs[|hs| - 1];
      m[h.style := if h.style in m then m[h.style] + [h] else [h]]
  }

  /** `style_to_headings` has a key per style of the headings, and lists under it
      the headings of that style in input order. */
  lemma {:induction false} GroupBySpec(hs: seq<Heading>)
    ensures forall s :: s in GroupBy(hs) <==> s in Styles(hs)
    ensures forall s :: s in GroupBy(hs) ==> GroupBy(hs)[s] == Filter(hs, s)
  {
    if hs != [] {
      var init, h := hs[..|hs| - 1], hs[|hs| - 1];
      GroupBySpec(init);
      assert Styles(hs) == Styles(init) + [h.style];
      forall s | s in GroupBy(hs) ensures GroupBy(hs)[s] == Filter(hs, s) {
        if s == h.style {
          if s !in GroupBy(init) {
            FilterAbsent(init, s);
          }
          assert Filter(hs, s) == Filter(init, s) + [h];
        } else {
          assert Filter(hs, s) == Filter(init, s);
        }
      }
    }
  }

  /** A style no heading has selects nothing. */
  lemma {:induction false} FilterAbsent(hs: seq<Heading>, s: StyleKey)
    requires s !in Styles(hs)
    ensures Filter(hs, s) == []
  {
    if hs != [] {
      assert Styles(hs) == Styles(hs[..|hs| - 1]) + [hs[|hs| - 1].style];
      FilterAbsent(hs[..|hs| - 1], s);
    }
  }

  lemma ClassifiedStep(order: seq<StyleKey>, hs: seq<Heading>, sorted: seq<StyleKey>, j: nat)
    requires j < |order|
    ensures Classified(order[..j + 1], hs, sorted) ==
      Classified(order[..j], hs, sorted) + LabelAll(Filter(hs, order[j]), LevelFor(sorted, order[j]))
  {
    assert order[..j + 1][..j] == order[..j];
  }

  lemma LabelAllStep(hs: seq<Heading>, level: nat, k: nat)
    requires k < |hs|
    ensures LabelAll(hs[..k + 1], level) == LabelAll(hs[..k], level) + [Label(hs[k], level)]
  {
    assert hs[..k + 1][..k] == hs[..k];
  }

  lemma PageCandidatesStep(blocks: seq<Block>, page: int, bodySize: int, zones: seq<Rect>, b: nat)
    requires b < |blocks|
    ensures PageCandidates(blocks[..b + 1], page, bodySize, zones) ==
      var c := Candidate(blocks[b], page, bodySize, zones);
      PageCandidates(blocks[..b], page, bodySize, zones) + (if c.Some? then [c.value] else [])
  {
    assert blocks[..b + 1][..b] == blocks[..b];
  }

  lemma CandidatesStep(pages: seq<Page>, bodySize: int, zones: seq<Rect>, p: nat)
    requires p < |pages|
    ensures Candidates(pages[..p + 1], bodySize, zones) ==
      Candidates(pages[..p], bodySize, zones) + PageCandidates(pages[p].sortedBlocks, p + 1, bodySize, zones)
  {
    assert pages[..p + 1][..p] == pages[..p];
  }

  // ----- properties of the classifier -----

  lemma {:induction false} ClassifiedEmpty(order: seq<StyleKey>, sorted: seq<StyleKey>)
    ensures Classified(order, [], sorted) == []
  {
    if order != [] {
      ClassifiedEmpty(order[..|order| - 1], sorted);
    }
  }

  /** One more heading adds its label once, as its style occurs once in `order`. */
  lemma {:induction false} ClassifiedSnoc(order: seq<StyleKey>, hs: seq<Heading>, h: Heading, sorted: seq<StyleKey>)
    requires NoDup(order)
    ensures multiset(Classified(order, hs + [h], sorted)) ==
      multiset(Classified(order, hs, sorted)) + (if h.style in order then multiset{Label(h, LevelFor(sorted, h.style))} else multiset{})
  {
    if order != [] {
      var init, s := order[..|order| - 1], order[|order| - 1];
      assert NoDup(init);
      var lv := LevelFor(sorted, s);
      ClassifiedSnoc(init, hs, h, sorted);
      FilterLabelSnoc(hs, h, s, lv);
      var a, b := LabelAll(Filter(hs, s), lv), LabelAll(Filter(hs + [h], s), lv);
      var added := if h.style == s then [Label(h, lv)] else [];
      assert Classified(order, hs + [h], sorted) == Classified(init, hs + [h], sorted) + b;
      assert Classified(order, hs, sorted) == Classified(init, hs, sorted) + a;
      var x := if h.style in init then multiset{Label(h, LevelFor(sorted, h.style))} else multiset{};
      JoinGrowth(Classified(init, hs + [h], sorted), Classified(init, hs, sorted), b, a, x, multiset(added));
      if h.style == s {
        assert h.style !in init;
      } else {
        assert h.style in order <==> h.style in init;
      }
    }
  }

  lemma JoinGrowth<T>(c': seq<T>, c: seq<T>, b: seq<T>, a: seq<T>, x: multiset<T>, y: multiset<T>)
    requires multiset(c') == multiset(c) + x && multiset(b) == multiset(a) + y
    ensures multiset(c' + b) == multiset(c + a) + x + y
  {
  }

  /** One more heading adds its label to the headings of its own style only. */
  lemma FilterLabelSnoc(hs: seq<Heading>, h: Heading, s: StyleKey, lv: nat)
    ensures LabelAll(Filter(hs + [h], s), lv) ==
      LabelAll(Filter(hs, s), lv) + (if h.style == s then [Label(h, lv)] else [])
  {
    assert (hs + [h])[..|hs|] == hs;
    var f := Filter(hs, s);
    if h.style == s {
      assert Filter(hs + [h], s) == f + [h];
      assert (f + [h])[..|f|] == f;
    } else {
      assert Filter(hs + [h], s) == f;
    }
  }

  /** Grouping by style in `order` loses and adds nothing: the result is a
      permutation of the labelled input. */
  lemma {:induction false} ClassifiedPermutation(order: seq<StyleKey>, hs: seq<Heading>, sorted: seq<StyleKey>)
    requires NoDup(order)
    requires forall i :: 0 <= i < |hs| ==> hs[i].style in order
    ensures multiset(Classified(order, hs, sorted)) == multiset(Labels(hs, sorted))
  {
    if hs == [] {
      ClassifiedEmpty(order, sorted);
    } else {
      var init, h := hs[..|hs| - 1], hs[|hs| - 1];
      assert hs == init + [h];
      var l := Label(h, LevelFor(sorted, h.style));
      assert forall i :: 0 <= i < |init| ==> init[i] == hs[i];
      ClassifiedPermutation(order, init, sorted);
      ClassifiedSnoc(order, init, h, sorted);
      assert h.style in order;
      calc {
        multiset(Classified(order, hs, sorted));
        multiset(Classified(order, init, sorted)) + multiset{l};
        multiset(Labels(init, sorted)) + multiset{l};
        multiset(Labels(init, sorted) + [l]);
        multiset(Labels(hs, sorted));
      }
    }
  }

  /** `classify_and_sort_headings` returns its input, each heading with the level of
      its style: a permutation of the labelled input, so headings of the same style
      get the same level, and every level is one of H1..H4. */
  lemma ClassifyPermutation(hs: seq<Heading>)
    ensures multiset(ClassifyAndSort(hs)) == multiset(Labels(hs, SortedStyles(hs)))
    ensures |ClassifyAndSort(hs)| == |hs|
    ensures forall e :: e in ClassifyAndSort(hs) ==> 1 <= e.level <= 4
  {
    StylesInOrder(hs);
    ClassifiedPermutation(StyleOrder(hs), hs, SortedStyles(hs));
    LabelledLevels(ClassifyAndSort(hs), hs, SortedStyles(hs));
  }

  /** Every heading's style is a key of `style_to_headings`. */
  lemma StylesInOrder(hs: seq<Heading>)
    ensures NoDup(StyleOrder(hs))
    ensures forall i :: 0 <= i < |hs| ==> hs[i].style in StyleOrder(hs)
  {
    forall i | 0 <= i < |hs| ensures hs[i].style in StyleOrder(hs) {
      InDistinct(Styles(hs), hs[i].style);
      assert Styles(hs)[i] == hs[i].style;
    }
  }

  /** A rearrangement of the labelled headings has their length and levels H1..H4. */
  lemma LabelledLevels(r: seq<OutlineEntry>, hs: seq<Heading>, sorted: seq<StyleKey>)
    requires multiset(r) == multiset(Labels(hs, sorted))
    ensures |r| == |hs|
    ensures forall e :: e in r ==> 1 <= e.level <= 4
  {
    assert |r| == |hs| by {
      assert |multiset(r)| == |Labels(hs, sorted)|;
    }
    forall e | e in r ensures 1 <= e.level <= 4 {
      assert e in multiset(Labels(hs, sorted));
      var i :| 0 <= i < |hs| && Labels(hs, sorted)[i] == e;
    }
  }

  /** The final sort leaves the output ordered by `(page, level)`, and headings with
      the same page and level keep their order from the grouping. */
  lemma ClassifyOrdered(hs: seq<Heading>, c: OutlineEntry)
    ensures SortedBy(ClassifyAndSort(hs), PageLevelLe)
    ensures TiedWith(ClassifyAndSort(hs), PageLevelLe, c) == TiedWith(Classified(StyleOrder(hs), hs, SortedStyles(hs)), PageLevelLe, c)
  {
    var cl := Classified(StyleOrder(hs), hs, SortedStyles(hs));
    SortBySorted(cl, PageLevelLe);
    SortByStable(cl, PageLevelLe, c);
  }

  /** `sorted_styles` is ordered, holds each style once, and holds exactly the
      styles of the headings. */
  lemma SortedStylesSpec(hs: seq<Heading>)
    ensures SortedBy(SortedStyles(hs), StyleGe)
    ensures NoDup(SortedStyles(hs))
    ensures forall k :: k in SortedStyles(hs) <==> k in Styles(hs)
  {
    StyleGeTotal();
    SortBySorted(StyleOrder(hs), StyleGe);
    StyleOrderSorted(hs);
    forall k ensures k in SortedStyles(hs) <==> k in Styles(hs) {
      InDistinct(Styles(hs), k);
      assert k in SortedStyles(hs) <==> k in multiset(SortedStyles(hs));
    }
  }

  lemma StyleOrderSorted(hs: seq<Heading>)
    ensures NoDup(SortedStyles(hs))
  {
    NoDupPermutation(StyleOrder(hs), SortedStyles(hs));
  }

  /** A style ranked strictly higher by `(size, font)` never gets a larger level
      number. */
  lemma HigherStyleLowerLevel(hs: seq<Heading>, a: StyleKey, b: StyleKey)
    requires a in Styles(hs) && b in Styles(hs)
    requires StyleLe(b, a) && a != b
    ensures LevelFor(SortedStyles(hs), a) <= LevelFor(SortedStyles(hs), b)
  {
    SortedStylesSpec(hs);
    SortedLevels(SortedStyles(hs), a, b);
  }

  lemma SortedLevels(sorted: seq<StyleKey>, a: StyleKey, b: StyleKey)
    requires SortedBy(sorted, StyleGe) && a in sorted && b in sorted
    requires StyleLe(b, a) && a != b
    ensures LevelFor(sorted, a) <= LevelFor(sorted, b)
  {
    var ia, ib := IndexOf(sorted, a), IndexOf(sorted, b);
    if ib < ia {
      assert StyleGe(sorted[ib], sorted[ia]);
      StyleLeAntisymmetric(a, b);
    }
  }

  lemma StyleLeAntisymmetric(a: StyleKey, b: StyleKey)
    requires StyleLe(a, b) && StyleLe(b, a)
    ensures a == b
  {
    StrLessTrichotomy(a.1, b.1);
  }

  /** The four largest styles are H1..H4 in that order, every smaller one H4. */
  lemma TopFourLevels(hs: seq<Heading>, i: nat)
    requires i < |SortedStyles(hs)|
    ensures LevelFor(SortedStyles(hs), SortedStyles(hs)[i]) == if i < 4 then i + 1 else 4
  {
    StyleOrderSorted(hs);
    LevelForNoDup(SortedStyles(hs), i);
  }

  lemma LevelForNoDup(sorted: seq<StyleKey>, i: nat)
    requires NoDup(sorted) && i < |sorted|
    ensures LevelFor(sorted, sorted[i]) == if i < 4 then i + 1 else 4
  {
    IndexOfNoDup(sorted, i);
  }

  /** A rearrangement of a sequence without duplicates has none either. */
  lemma NoDupPermutation<T>(s: seq<T>, t: seq<T>)
    requires NoDup(s) && multiset(s) == multiset(t)
    ensures NoDup(t)
  {
    forall i, j | 0 <= i < j < |t| ensures t[i] != t[j] {
      if t[i] == t[j] {
        TwiceInMultiset(t, i, j);
        AtMostOnce(s, t[i]);
      }
    }
  }

  lemma TwiceInMultiset<T>(t: seq<T>, i: nat, j: nat)
    requires i < j < |t| && t[i] == t[j]
    ensures multiset(t)[t[i]] >= 2
  {
    assert t == t[..j] + t[j..];
    assert t[i] in t[..j];
    assert t[j] in t[j..];
    assert multiset(t) == multiset(t[..j]) + multiset(t[j..]);
  }

  lemma {:induction false} AtMostOnce<T>(s: seq<T>, x: T)
    requires NoDup(s)
    ensures multiset(s)[x] <= 1
  {
    if s != [] {
      var init := s[..|s| - 1];
      assert NoDup(init);
      AtMostOnce(init, x);
      assert s == init + [s[|s| - 1]];
      if x == s[|s| - 1] {
        assert x !in init;
      }
    }
  }

  /** For the levels the classifier hands out, the final sort's numeric comparison
      of levels agrees with Python's comparison of the strings "H1".."H4". */
  lemma PageLevelKey(a: OutlineEntry, b: OutlineEntry)
    requires 1 <= a.level <= 4 && 1 <= b.level <= 4
    ensures PageLevelLe(a, b) <==>
      a.page < b.page || (a.page == b.page && !StrLess(LevelName(b.level), LevelName(a.level)))
  {
    LevelNameOrder(b.level, a.level);
  }

  // ----- the heuristic outline -----

  /** What `extract_outline_with_heuristics(doc)` returns: the potential headings of
      all pages, with the document's body size and its zones for three sampled
      pages, classified and sorted. */
  function HeuristicOutline(doc: Document): seq<OutlineEntry> {
    var bodySize := BodyStyleOf(DocKeys(doc.pages)).0;
    var zones := HeaderFooterZones(doc, 3);
    ClassifyAndSort(Candidates(doc.pages, bodySize, zones))
  }
}
