/** The document as the PDF layout parser hands it over: pages of blocks of lines of
    spans, each span with its text, font name, size and bounding box, plus the
    embedded bookmarks. The parser itself is not modelled; a `Document` value is
    its output. */
module Layout {
  import opened Text

  /** (x0, y0, x1, y1) with y growing downwards, as in PDF page space. */
  datatype Rect = Rect(x0: real, y0: real, x1: real, y1: real)

  datatype Span = Span(text: string, font: string, size: real, bbox: Rect)

  datatype Line = Line(spans: seq<Span>)

  /** An entry of `page.get_text("dict")["blocks"]`: a text block carries "lines",
      an image block does not. */
  datatype Block = TextBlock(bbox: Rect, lines: seq<Line>) | ImageBlock(bbox: Rect)

  /** An entry of `page.get_text("blocks")`: the block's rectangle and its text. */
  datatype PlainBlock = PlainBlock(bbox: Rect, text: string)

  /** One page in the three views the core reads: `blocks` is
      `get_text("dict")["blocks"]`, `sortedBlocks` the same with `sort=True`
      (top to bottom, then left to right), and `plainBlocks` is `get_text("blocks")`. */
  datatype Page = Page(height: real, blocks: seq<Block>, sortedBlocks: seq<Block>, plainBlocks: seq<PlainBlock>)

  /** One bookmark of `doc.get_toc()`: `[level, title, page]`. */
  datatype TocEntry = TocEntry(depth: int, title: string, page: int)

  datatype Document = Document(pages: seq<Page>, toc: seq<TocEntry>)

  /** A font-size/font-name pair: `(round(size), font)`. */
  type StyleKey = (int, string)

  /** Python's `round(x)` on a number: to the nearest integer, halves to the even one. */
  function Round(x: real): (r: int)
    ensures r as real - x <= 0.5 && x - r as real <= 0.5
    ensures x - x.Floor as real == 0.5 ==> r % 2 == 0
  {
    var f := x.Floor;
    var d := x - f as real;
    if d < 0.5 then f
    else if d > 0.5 then f + 1
    else if f % 2 == 0 then f
    else f + 1
  }

  function SpanKey(s: Span): StyleKey {
    (Round(s.size), s.font)
  }

  /** `"".join(s['text'] for s in line['spans'])` */
  function LineText(spans: seq<Span>): string {
    if spans == [] then "" else LineText(spans[..|spans| - 1]) + spans[|spans| - 1].text
  }

  /** `"".join(s['text'] for l in lines for s in l['spans'])` */
  function LinesText(lines: seq<Line>): string {
    if lines == [] then "" else LinesText(lines[..|lines| - 1]) + LineText(lines[|lines| - 1].spans)
  }

  /** The stripped text of a text block, as the segmenter and the heading filter
      compute it. */
  function BlockText(b: Block): string
    requires b.TextBlock?
  {
    Strip(LinesText(b.lines))
  }

  /** The block has a first line and that line has a first span. */
  predicate HasFirstSpan(b: Block) {
    b.TextBlock? && b.lines != [] && b.lines[0].spans != []
  }

  function FirstSpan(b: Block): Span
    requires HasFirstSpan(b)
  {
    b.lines[0].spans[0]
  }

  /** PyMuPDF's `Rect.is_empty`. */
  predicate IsEmptyRect(r: Rect) {
    r.x0 >= r.x1 || r.y0 >= r.y1
  }

  /** PyMuPDF's `Rect.intersects`: both rectangles are non-empty and their
      intersection is non-empty. */
  predicate Intersects(a: Rect, b: Rect) {
    && !IsEmptyRect(a) && !IsEmptyRect(b)
    && a.x0 < b.x1 && b.x0 < a.x1
    && a.y0 < b.y1 && b.y0 < a.y1
  }

  /** One outline entry `{"text": ..., "level": "H<level>", "page": ...}`; the level is
      kept as its number. */
  datatype OutlineEntry = OutlineEntry(text: string, level: nat, page: int)

  function DigitChar(d: nat): char
    requires d < 10
  {
    "0123456789"[d]
  }

  /** The decimal digits of `n`. */
  function Decimal(n: nat): (r: string)
    ensures r != []
    decreases n
  {
    if n < 10 then [DigitChar(n)] else Decimal(n / 10) + [DigitChar(n % 10)]
  }

  /** `f"H{n}"` */
  function LevelName(n: nat): string {
    "H" + Decimal(n)
  }

  /** For the four heading levels the classifier hands out, comparing the level
      strings `"H1"`..`"H4"` (as the final sort does) is comparing their numbers. */
  lemma LevelNameOrder(a: nat, b: nat)
    requires 1 <= a <= 4 && 1 <= b <= 4
    ensures StrLess(LevelName(a), LevelName(b)) <==> a < b
  {
    var x, y := DigitChar(a), DigitChar(b);
    assert x as int == '0' as int + a && y as int == '0' as int + b by {
      assert "0123456789"[1] == '1' && "0123456789"[2] == '2' && "0123456789"[3] == '3' && "0123456789"[4] == '4';
    }
    assert LevelName(a) == ['H', x] && LevelName(b) == ['H', y];
    assert StrLess(['H', x], ['H', y]) == StrLess([x], [y]) by {
      assert ['H', x][1..] == [x] && ['H', y][1..] == [y];
    }
    if x == y {
      assert [x][1..] == [] && [y][1..] == [];
      assert !StrLess([x], [y]);
    }
  }
}
