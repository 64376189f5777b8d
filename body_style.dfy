/** The body-text style of a document (`get_document_body_style` in
    challenge-1a/app/pdf_utils.py): the most frequent `(round(size), font)` key over
    every span of every text block, with Counter's tie-break (the key seen first). */
module BodyStyle {
  import opened Seqs
  import opened Layout

  const DefaultBodyStyle: StyleKey := (10, "default")

  // ----- the keys in the order the nested loops meet them -----

  function SpanKeys(spans: seq<Span>): seq<StyleKey> {
    if spans == [] then [] else SpanKeys(spans[..|spans| - 1]) + [SpanKey(spans[|spans| - 1])]
  }

  function LineKeys(lines: seq<Line>): seq<StyleKey> {
    if lines == [] then [] else LineKeys(lines[..|lines| - 1]) + SpanKeys(lines[|lines| - 1].spans)
  }

  /** Only blocks that carry "lines" (text blocks) contribute. */
  function BlockKeys(blocks: seq<Block>): seq<StyleKey> {
    if blocks == [] then []
    else
      var b := blocks[|blocks| - 1];
      BlockKeys(blocks[..|blocks| - 1]) + (if b.TextBlock? then LineKeys(b.lines) else [])
  }

  /** Every span key of the document, page by page, over `get_text("dict")`. */
  function DocKeys(pages: seq<Page>): seq<StyleKey> {
    if pages == [] then [] else DocKeys(pages[..|pages| - 1]) + BlockKeys(pages[|pages| - 1].blocks)
  }

  function Count(keys: seq<StyleKey>, k: StyleKey): nat {
    multiset(keys)[k]
  }

  /** Position in `order` of the first key with the largest count: what
      `Counter.most_common(1)` picks (a `max` over the keys in insertion order). */
  function FirstMostCommonAt(order: seq<StyleKey>, keys: seq<StyleKey>): (j: nat)
    requires order != []
    ensures j < |order|
  {
    if |order| == 1 then 0
    else
      var j := FirstMostCommonAt(order[..|order| - 1], keys);
      if Count(keys, order[|order| - 1]) > Count(keys, order[j]) then |order| - 1 else j
  }

  /** The body style of a document whose span keys are `keys`. */
  function BodyStyleOf(keys: seq<StyleKey>): StyleKey {
    if keys == [] then DefaultBodyStyle
    else
      var order := Distinct(keys);
      order[FirstMostCommonAt(order, keys)]
  }

  lemma {:induction false} FirstMostCommonAtSpec(order: seq<StyleKey>, keys: seq<StyleKey>)
    requires order != []
    ensures var j := FirstMostCommonAt(order, keys);
      && (forall i :: 0 <= i < |order| ==> Count(keys, order[i]) <= Count(keys, order[j]))
      && (forall i :: 0 <= i < j ==> Count(keys, order[i]) < Count(keys, order[j]))
  {
    if |order| > 1 {
      var init := order[..|order| - 1];
      FirstMostCommonAtSpec(init, keys);
      var j := FirstMostCommonAt(init, keys);
      assert init[j] == order[j];
      forall i | 0 <= i < |order| - 1 ensures order[i] == init[i] { }
    }
  }

  /** The body style is the default exactly for a document without spans; otherwise
      it is a key of some span, no key is counted more often, and every key met
      before it (in first-occurrence order) is counted strictly less often. */
  lemma BodyStyleIsMostCommon(keys: seq<StyleKey>)
    ensures keys == [] ==> BodyStyleOf(keys) == DefaultBodyStyle
    ensures keys != [] ==>
      var b := BodyStyleOf(keys);
      var order := Distinct(keys);
      && b in keys
      && (forall k :: Count(keys, k) <= Count(keys, b))
      && (forall i :: 0 <= i < IndexOf(order, b) ==> Count(keys, order[i]) < Count(keys, b))
  {
    if keys != [] {
      var order := Distinct(keys);
      var j := FirstMostCommonAt(order, keys);
      var b := order[j];
      InDistinct(keys, b);
      FirstMostCommonAtSpec(order, keys);
      IndexOfNoDup(order, j);
      forall k ensures Count(keys, k) <= Count(keys, b) {
        InDistinct(keys, k);
        if k in keys {
          var t := IndexOf(order, k);
        }
      }
    }
  }

  /** A style that strictly outnumbers every other style is the body style, in
      whatever order the spans come. */
  lemma DominantStyleIsBody(keys: seq<StyleKey>, a: StyleKey)
    requires forall k :: k != a ==> Count(keys, k) < Count(keys, a)
    ensures BodyStyleOf(keys) == a
  {
    BodyStyleIsMostCommon(keys);
    if keys == [] {
      assert Count(keys, DefaultBodyStyle) == 0;
    }
  }

  // ----- the Counter the loops fill -----

  /** The Counter built by counting `keys` one at a time. */
  function Tally(keys: seq<StyleKey>): map<StyleKey, nat> {
    if keys == [] then map[]
    else
      var m := Tally(keys[..|keys| - 1]);
      var k := keys[|keys| - 1];
      m[k := if k in m then m[k] + 1 else 1]
  }

  /** The Counter holds exactly the keys seen, each with its number of occurrences. */
  lemma {:induction false} TallyCounts(keys: seq<StyleKey>, k: StyleKey)
    ensures k in Tally(keys) <==> k in keys
    ensures k in Tally(keys) ==> Tally(keys)[k] == Count(keys, k)
  {
    if keys != [] {
      var init := keys[..|keys| - 1];
      TallyCounts(init, k);
      assert keys == init + [keys[|keys| - 1]];
    }
  }

  /** Counting one more key extends the Counter and its insertion order. */
  lemma TallyStep(seen: seq<StyleKey>, key: StyleKey)
    ensures Tally(seen + [key]) == var m := Tally(seen); m[key := if key in m then m[key] + 1 else 1]
    ensures Distinct(seen + [key]) == if key in Tally(seen) then Distinct(seen) else Distinct(seen) + [key]
  {
    assert (seen + [key])[..|seen|] == seen;
    TallyCounts(seen, key);
    InDistinct(seen, key);
  }

  lemma SpanKeysStep(seen: seq<StyleKey>, spans: seq<Span>, s: nat)
    requires s < |spans|
    ensures seen + SpanKeys(spans[..s + 1]) == (seen + SpanKeys(spans[..s])) + [SpanKey(spans[s])]
  {
    assert spans[..s + 1][..s] == spans[..s];
  }

  lemma LineKeysStep(seen: seq<StyleKey>, lines: seq<Line>, l: nat)
    requires l < |lines|
    ensures seen + LineKeys(lines[..l + 1]) == (seen + LineKeys(lines[..l])) + SpanKeys(lines[l].spans)
  {
    assert lines[..l + 1][..l] == lines[..l];
  }

  lemma BlockKeysStep(seen: seq<StyleKey>, blocks: seq<Block>, b: nat)
    requires b < |blocks|
    ensures blocks[b].TextBlock? ==> seen + BlockKeys(blocks[..b + 1]) == (seen + BlockKeys(blocks[..b])) + LineKeys(blocks[b].lines)
    ensures !blocks[b].TextBlock? ==> seen + BlockKeys(blocks[..b + 1]) == seen + BlockKeys(blocks[..b])
  {
    assert blocks[..b + 1][..b] == blocks[..b];
  }

  lemma DocKeysStep(pages: seq<Page>, p: nat)
    requires p < |pages|
    ensures DocKeys(pages[..p + 1]) == DocKeys(pages[..p]) + BlockKeys(pages[p].blocks)
  {
    assert pages[..p + 1][..p] == pages[..p];
  }
}
