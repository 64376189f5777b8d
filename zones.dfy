/** Header and footer zones (`get_header_footer_zones` in
    challenge-1a/app/pdf_utils.py): the rectangles of text that recurs at the same
    vertical band on the first, middle and last page. A block's text is
    normalised line by line, its band is `round(y0 / 10)`, and every
    `(text, band)` key met at least `sample_pages - 1` times yields the average
    of its rectangles. */
module Zones {
  import opened Seqs
  import opened Text
  import opened Layout

  /** `(normalised text, round(y0 / 10))` */
  type ZoneKey = (string, int)

  /** One recorded block: its key and its rectangle `block[0:4]`. */
  datatype Occurrence = Occurrence(key: ZoneKey, rect: Rect)

  /** `[0, doc.page_count // 2, doc.page_count - 1]`, whatever `sample_pages` is. */
  function SampledPages(n: nat): (idx: seq<int>)
    ensures |idx| == 3
    ensures n > 0 ==> forall j :: 0 <= j < |idx| ==> 0 <= idx[j] < n
  {
    [0, n / 2, n - 1]
  }

  /** The key a plain block is recorded under, or None when its normalised text is empty. */
  function BlockKey(b: PlainBlock): Option<ZoneKey> {
    var text := NormalizeLines(b.text);
    if text == "" then None else Some((text, Round(b.bbox.y0 / 10.0)))
  }

  /** The occurrences one page records, in block order. */
  function PageOccurrences(blocks: seq<PlainBlock>): seq<Occurrence> {
    if blocks == [] then []
    else
      var b := blocks[|blocks| - 1];
      PageOccurrences(blocks[..|blocks| - 1]) + (if BlockKey(b).Some? then [Occurrence(BlockKey(b).value, b.bbox)] else [])
  }

  /** The occurrences of the pages `idx` names, page after page. */
  function SampleOccurrences(pages: seq<Page>, idx: seq<int>): seq<Occurrence>
    requires forall j :: 0 <= j < |idx| ==> 0 <= idx[j] < |pages|
  {
    if idx == [] then []
    else SampleOccurrences(pages, idx[..|idx| - 1]) + PageOccurrences(pages[idx[|idx| - 1]].plainBlocks)
  }

  /** The keys of `occ`, with repetitions, in recording order. */
  function OccKeys(occ: seq<Occurrence>): (ks: seq<ZoneKey>)
    ensures |ks| == |occ|
  {
    if occ == [] then [] else OccKeys(occ[..|occ| - 1]) + [occ[|occ| - 1].key]
  }

  /** `page_texts[k]`: the rectangles recorded under `k`, in recording order. */
  function RectsOf(occ: seq<Occurrence>, k: ZoneKey): seq<Rect> {
    if occ == [] then []
    else RectsOf(occ[..|occ| - 1], k) + (if occ[|occ| - 1].key == k then [occ[|occ| - 1].rect] else [])
  }

  // ----- the average rectangle -----

  /** Coordinate `c` (0..3) of a rectangle: `b[c]`. */
  function Coord(r: Rect, c: nat): real {
    if c == 0 then r.x0 else if c == 1 then r.y0 else if c == 2 then r.x1 else r.y1
  }

  function Coords(rs: seq<Rect>, c: nat): (xs: seq<real>)
    ensures |xs| == |rs|
    ensures forall i :: 0 <= i < |rs| ==> xs[i] == Coord(rs[i], c)
  {
    if rs == [] then [] else Coords(rs[..|rs| - 1], c) + [Coord(rs[|rs| - 1], c)]
  }

  function Sum(xs: seq<real>): real {
    if xs == [] then 0.0 else Sum(xs[..|xs| - 1]) + xs[|xs| - 1]
  }

  function Mean(xs: seq<real>): real
    requires xs != []
  {
    Sum(xs) / (|xs| as real)
  }

  /** `fitz.Rect([sum(b[i] for b in bboxes) / len(bboxes) for i in range(4)])` */
  function MeanRect(rs: seq<Rect>): Rect
    requires rs != []
  {
    Rect(Mean(Coords(rs, 0)), Mean(Coords(rs, 1)), Mean(Coords(rs, 2)), Mean(Coords(rs, 3)))
  }

  // ----- the zones -----

  /** One zone per key of `order` recorded at least `th` times, in key order. */
  function ZonesOf(order: seq<ZoneKey>, occ: seq<Occurrence>, th: int): seq<Rect> {
    if order == [] then []
    else
      var rs := RectsOf(occ, order[|order| - 1]);
      ZonesOf(order[..|order| - 1], occ, th) + (if rs != [] && |rs| >= th then [MeanRect(rs)] else [])
  }

  /** The occurrences the three sampled pages record. */
  function Sampled(doc: Document): seq<Occurrence>
    requires |doc.pages| > 0
  {
    SampleOccurrences(doc.pages, SampledPages(|doc.pages|))
  }

  /** What `get_header_footer_zones(doc, sample_pages)` returns. */
  function HeaderFooterZones(doc: Document, samplePages: int): seq<Rect>
    requires samplePages >= 0 || |doc.pages| > 0
  {
    if |doc.pages| <= samplePages then []
    else
      var occ := Sampled(doc);
      ZonesOf(Distinct(OccKeys(occ)), occ, samplePages - 1)
  }

  /** A document of at most `sample_pages` pages has no zones. */
  lemma FewPagesNoZones(doc: Document, samplePages: int)
    requires |doc.pages| <= samplePages
    ensures HeaderFooterZones(doc, samplePages) == []
  {
  }

  /** Otherwise the zones are those of the keys of the sampled pages. */
  lemma ZonesOfSampledPages(doc: Document, samplePages: int)
    requires |doc.pages| > samplePages && (samplePages >= 0 || |doc.pages| > 0)
    ensures HeaderFooterZones(doc, samplePages) == ZonesOf(Distinct(OccKeys(Sampled(doc))), Sampled(doc), samplePages - 1)
  {
  }

  // ----- properties -----

  /** A key is recorded exactly when it has a rectangle. */
  lemma {:induction false} RectsOfNonEmpty(occ: seq<Occurrence>, k: ZoneKey)
    ensures RectsOf(occ, k) != [] <==> k in OccKeys(occ)
  {
    if occ != [] {
      RectsOfNonEmpty(occ[..|occ| - 1], k);
      assert OccKeys(occ) == OccKeys(occ[..|occ| - 1]) + [occ[|occ| - 1].key];
    }
  }

  /** Every rectangle recorded under `k` is the rectangle of an occurrence of `k`. */
  lemma {:induction false} RectsOfFrom(occ: seq<Occurrence>, k: ZoneKey, r: Rect)
    requires r in RectsOf(occ, k)
    ensures Occurrence(k, r) in occ
  {
    var init := occ[..|occ| - 1];
    if r in RectsOf(init, k) {
      RectsOfFrom(init, k, r);
      assert Occurrence(k, r) in init;
    } else {
      assert occ[|occ| - 1] == Occurrence(k, r);
    }
  }

  /** Every zone is the average of the rectangles of one key observed at least
      `th` times. */
  lemma {:induction false} ZonesOfFromKeys(order: seq<ZoneKey>, occ: seq<Occurrence>, th: int, z: Rect)
    requires z in ZonesOf(order, occ, th)
    ensures exists k :: k in order && RectsOf(occ, k) != [] && |RectsOf(occ, k)| >= th && z == MeanRect(RectsOf(occ, k))
  {
    var init, last := order[..|order| - 1], order[|order| - 1];
    if z in ZonesOf(init, occ, th) {
      ZonesOfFromKeys(init, occ, th, z);
      var k :| k in init && RectsOf(occ, k) != [] && |RectsOf(occ, k)| >= th && z == MeanRect(RectsOf(occ, k));
      assert k in order;
    } else {
      assert z == MeanRect(RectsOf(occ, last));
    }
  }

  /** Every key of `order` recorded at least `th` times yields its zone. */
  lemma {:induction false} KeysGiveZones(order: seq<ZoneKey>, occ: seq<Occurrence>, th: int, k: ZoneKey)
    requires k in order && RectsOf(occ, k) != [] && |RectsOf(occ, k)| >= th
    ensures MeanRect(RectsOf(occ, k)) in ZonesOf(order, occ, th)
  {
    var init, last := order[..|order| - 1], order[|order| - 1];
    if k != last {
      assert order == init + [last];
      KeysGiveZones(init, occ, th, k);
    }
  }

  /** A zone found with a higher threshold is found with a lower one too. */
  lemma {:induction false} ZonesOfThreshold(order: seq<ZoneKey>, occ: seq<Occurrence>, th: int, th': int, z: Rect)
    requires th <= th' && z in ZonesOf(order, occ, th')
    ensures z in ZonesOf(order, occ, th)
  {
    var init, last := order[..|order| - 1], order[|order| - 1];
    if z in ZonesOf(init, occ, th') {
      ZonesOfThreshold(init, occ, th, th', z);
    }
  }

  /** Each zone of a document with more than `sample_pages` pages is the average
      of the rectangles of a `(text, band)` key recorded on the sampled pages at
      least `sample_pages - 1` times. */
  lemma ZonesComeFromRecurringKeys(doc: Document, samplePages: int, z: Rect)
    requires samplePages >= 0 || |doc.pages| > 0
    requires z in HeaderFooterZones(doc, samplePages)
    ensures |doc.pages| > samplePages
    ensures exists k ::
      && k in OccKeys(Sampled(doc)) && RectsOf(Sampled(doc), k) != []
      && |RectsOf(Sampled(doc), k)| >= samplePages - 1 && z == MeanRect(RectsOf(Sampled(doc), k))
  {
    var occ := Sampled(doc);
    var order := Distinct(OccKeys(occ));
    ZonesOfFromKeys(order, occ, samplePages - 1, z);
    var k :| k in order && RectsOf(occ, k) != [] && |RectsOf(occ, k)| >= samplePages - 1 && z == MeanRect(RectsOf(occ, k));
    InDistinct(OccKeys(occ), k);
  }

  /** Conversely, in a document with more than `sample_pages` pages, every key
      recorded on the sampled pages at least `sample_pages - 1` times yields the
      average of its rectangles as a zone. */
  lemma RecurringKeysGiveZones(doc: Document, samplePages: int, k: ZoneKey)
    requires |doc.pages| > 0 && |doc.pages| > samplePages
    requires k in OccKeys(Sampled(doc)) && |RectsOf(Sampled(doc), k)| >= samplePages - 1
    ensures RectsOf(Sampled(doc), k) != []
    ensures MeanRect(RectsOf(Sampled(doc), k)) in HeaderFooterZones(doc, samplePages)
  {
    var occ := Sampled(doc);
    RectsOfNonEmpty(occ, k);
    InDistinct(OccKeys(occ), k);
    KeysGiveZones(Distinct(OccKeys(occ)), occ, samplePages - 1, k);
    ZonesOfSampledPages(doc, samplePages);
  }

  /** Raising `sample_pages` (while the document still has more pages) only removes zones. */
  lemma ZonesShrinkWithThreshold(doc: Document, samplePages: int, samplePages': int, z: Rect)
    requires 0 <= samplePages <= samplePages' < |doc.pages|
    requires z in HeaderFooterZones(doc, samplePages')
    ensures z in HeaderFooterZones(doc, samplePages)
  {
    var occ := Sampled(doc);
    var order := Distinct(OccKeys(occ));
    assert HeaderFooterZones(doc, samplePages') == ZonesOf(order, occ, samplePages' - 1);
    ZonesOfThreshold(order, occ, samplePages - 1, samplePages' - 1, z);
    assert HeaderFooterZones(doc, samplePages) == ZonesOf(order, occ, samplePages - 1);
  }

  function MinOf(xs: seq<real>): real
    requires xs != []
  {
    if |xs| == 1 then xs[0] else var m := MinOf(xs[..|xs| - 1]); if xs[|xs| - 1] < m then xs[|xs| - 1] else m
  }

  function MaxOf(xs: seq<real>): real
    requires xs != []
  {
    if |xs| == 1 then xs[0] else var m := MaxOf(xs[..|xs| - 1]); if xs[|xs| - 1] > m then xs[|xs| - 1] else m
  }

  lemma {:induction false} SumBounds(xs: seq<real>, lo: real, hi: real)
    requires forall i :: 0 <= i < |xs| ==> lo <= xs[i] <= hi
    ensures (|xs| as real) * lo <= Sum(xs) <= (|xs| as real) * hi
  {
    if xs != [] {
      SumBounds(xs[..|xs| - 1], lo, hi);
    }
  }

  lemma {:induction false} MinMaxBound(xs: seq<real>)
    requires xs != []
    ensures forall i :: 0 <= i < |xs| ==> MinOf(xs) <= xs[i] <= MaxOf(xs)
  {
    if |xs| > 1 {
      MinMaxBound(xs[..|xs| - 1]);
    }
  }

  lemma DivBounds(s: real, n: real, lo: real, hi: real)
    requires n > 0.0 && n * lo <= s <= n * hi
    ensures lo <= s / n <= hi
  {
    assert s / n * n == s;
  }

  /** The average of a list of numbers lies between its least and its greatest. */
  lemma MeanBetween(xs: seq<real>)
    requires xs != []
    ensures MinOf(xs) <= Mean(xs) <= MaxOf(xs)
  {
    MinMaxBound(xs);
    SumBounds(xs, MinOf(xs), MaxOf(xs));
    DivBounds(Sum(xs), |xs| as real, MinOf(xs), MaxOf(xs));
  }

  /** Each coordinate of an averaged zone lies between the least and the greatest
      value of that coordinate among the rectangles it averages. */
  lemma MeanRectBetween(rs: seq<Rect>, c: nat)
    requires rs != [] && c < 4
    ensures MinOf(Coords(rs, c)) <= Coord(MeanRect(rs), c) <= MaxOf(Coords(rs, c))
  {
    MeanBetween(Coords(rs, c));
  }

  // ----- the loops -----

  /** `page_texts`, as the loops fill it from `occ`. */
  function Group(occ: seq<Occurrence>): map<ZoneKey, seq<Rect>> {
    if occ == [] then map[]
    else
      var m := Group(occ[..|occ| - 1]);
      var o := occ[|occ| - 1];
      m[o.key := if o.key in m then m[o.key] + [o.rect] else [o.rect]]
  }

  /** `page_texts` holds each recorded key with its rectangles. */
  lemma {:induction false} GroupRects(occ: seq<Occurrence>, k: ZoneKey)
    ensures k in Group(occ) <==> k in OccKeys(occ)
    ensures k in Group(occ) ==> Group(occ)[k] == RectsOf(occ, k)
  {
    if occ != [] {
      var init := occ[..|occ| - 1];
      GroupRects(init, k);
      RectsOfNonEmpty(init, k);
      assert OccKeys(occ) == OccKeys(init) + [occ[|occ| - 1].key];
    }
  }

  lemma GroupStep(seen: seq<Occurrence>, o: Occurrence)
    ensures Group(seen + [o]) == var m := Group(seen); m[o.key := if o.key in m then m[o.key] + [o.rect] else [o.rect]]
    ensures OccKeys(seen + [o]) == OccKeys(seen) + [o.key]
    ensures Distinct(OccKeys(seen + [o])) == if o.key in Group(seen) then Distinct(OccKeys(seen)) else Distinct(OccKeys(seen)) + [o.key]
  {
    assert (seen + [o])[..|seen|] == seen;
    GroupRects(seen, o.key);
    InDistinct(OccKeys(seen), o.key);
    DistinctSnoc(OccKeys(seen), o.key);
  }

  lemma PageOccurrencesStep(seen: seq<Occurrence>, blocks: seq<PlainBlock>, b: nat)
    requires b < |blocks|
    ensures BlockKey(blocks[b]).Some? ==>
      seen + PageOccurrences(blocks[..b + 1]) == (seen + PageOccurrences(blocks[..b])) + [Occurrence(BlockKey(blocks[b]).value, blocks[b].bbox)]
    ensures BlockKey(blocks[b]).None? ==> seen + PageOccurrences(blocks[..b + 1]) == seen + PageOccurrences(blocks[..b])
  {
    assert blocks[..b + 1][..b] == blocks[..b];
  }

  lemma SampleOccurrencesStep(pages: seq<Page>, idx: seq<int>, j: nat)
    requires j < |idx| && forall i :: 0 <= i < |idx| ==> 0 <= idx[i] < |pages|
    ensures SampleOccurrences(pages, idx[..j + 1]) == SampleOccurrences(pages, idx[..j]) + PageOccurrences(pages[idx[j]].plainBlocks)
  {
    assert idx[..j + 1][..j] == idx[..j];
  }

  lemma ZonesOfStep(order: seq<ZoneKey>, occ: seq<Occurrence>, th: int, i: nat)
    requires i < |order|
    ensures ZonesOf(order[..i + 1], occ, th) == ZonesOf(order[..i], occ, th)
      + (if RectsOf(occ, order[i]) != [] && |RectsOf(occ, order[i])| >= th then [MeanRect(RectsOf(occ, order[i]))] else [])
  {
    assert order[..i + 1][..i] == order[..i];
  }
}
