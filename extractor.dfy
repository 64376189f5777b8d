/** `extract_universal_outline` of challenge-1a/app/main.py as the program runs it:
    the title, then the outline, each with its fallbacks, over the operations of
    `PdfUtils`. */
module Extractor {
  import opened Seqs
  import opened Layout
  import opened TitleFromContent
  import opened Toc
  import opened Headings
  import opened OutlineMain
  import opened PdfUtils

  /** `extract_universal_outline(pdf_path)` on the parsed document, with `baseName`
      for `os.path.basename(pdf_path)`. */
  method ExtractUniversalOutline(doc: Document, baseName: string) returns (result: Extraction)
    ensures result == UniversalExtraction(doc, baseName)
  {
    if |doc.pages| == 0 {
      return Extraction("", []);
    }
    var title := "";
    var first := LargestSpansTitle(doc.pages[0]);
    if first.Some? {
      title := first.value;
    } else {
      title := baseName;
    }
    if title == "" {
      var contentTitle := ExtractTitleFromContent(doc);
      if contentTitle.Some? && |contentTitle.value| >= 4 {
        title := contentTitle.value;
      }
    }
    var outline := ExtractOutlineFromToc(doc.toc);
    var entries: seq<OutlineEntry>;
    if outline.None? || outline.value == [] {
      entries := ExtractOutlineWithHeuristics(doc);
    } else {
      entries := outline.value;
    }
    result := Extraction(title, entries);
  }
}
