# Outline extraction and section refinement, modelled in Dafny

This project models the layout and ranking logic of a hackathon PDF pipeline written
in Python. The pipeline has two stages.

- **Outline extraction** (challenge 1a) turns a parsed PDF into a title and a
  levelled outline. It uses:
  - the body font style (the most common `(round(size), font)` of all spans);
  - the header and footer zones (text that recurs at the same vertical band on
    the first, middle and last page);
  - a title from the largest first-page spans, with fallbacks to the file name and
    to the largest block near the top of page 1;
  - an outline from the embedded bookmarks, where depths become H1, H2, … in
    order of first appearance and the result needs more than two entries;
  - otherwise a heading filter followed by a style classifier: the four largest
    styles become H1 to H4 and every other style H4, sorted by `(page, level)`.
- **Section refinement** (challenge 1b) works on the outline:
  - it cuts the document into sections between consecutive headings, by page and
    by the vertical position of the blocks holding the heading texts;
  - it ranks sections against a query with a similarity score;
  - it picks a diverse pool: the best section plus at most one section per
    keyword category;
  - it splits the pool's content into sentences, filters, ranks and
    de-duplicates them, and keeps the top N.

The PDF parser's output is a `Layout.Document` value with:
- pages of blocks, lines and spans, in the three views the code reads;
- the bookmarks.

The sentence-embedding score is an opaque function `(query, content) -> real`.
Every loop of the source is a Dafny `method` with loop invariants. Each method is
proved equal to a specification function, and lemmas state what the source
promises about those functions.

Modules, following the source files:

| module | models |
|---|---|
| `Seqs`, `Text`, `Sorting`, `Layout` | first-occurrence de-duplication; Python's `strip`, `split`, `lower`, `in`, `join`, string `<`, `round`; the two regular expressions as hand-written matchers; `list.sort` as a stable insertion sort; the document datatypes and `Rect.intersects` |
| `BodyStyle`, `Zones`, `TitleFromContent`, `Toc`, `Headings` | the specification functions of challenge-1a/app/pdf_utils.py |
| `PdfUtils` | the loops of challenge-1a/app/pdf_utils.py, proved against them |
| `OutlineMain`, `Extractor` | `extract_universal_outline` of challenge-1a/app/main.py: specification and method |
| `Analyst` | `DocumentAnalyst.rank_sections` of challenge-1b/src/intelligence_core.py |
| `Segments`, `Pool`, `Refine` | the specification functions of challenge-1b/src/main_1b.py |
| `SectionPipeline` | the loops of challenge-1b/src/main_1b.py, proved against them |

What the code does in its edge cases, as modelled:
- The body style counts every span, whatever its size; no span of size 6 or
  below is skipped.
- The zones always sample pages `[0, n // 2, n - 1]`, whatever `sample_pages` is.
- A zone needs at least `sample_pages - 1` recorded occurrences of its key. These
  are counted per occurrence, not per page.
- The list-prefix pattern the code uses wants white space *before* the `.` or
  `)` (`\s[.\)]`). A prefix like `"1. "` followed by text is therefore not
  excluded.
- When the next heading is on a later page, `end_page` is the next heading's own
  page (0-based `next.page - 1`). That whole page is collected, with no stop
  position.
- When blocks were collected, a section's content is `""` only when exactly one
  block was collected and its stripped text is empty. When several blank blocks
  are collected, the content is made of the joining spaces alone.
- The title of `extract_universal_outline` can stay `""`, when the largest spans
  are blank and no content title of four or more characters exists.

## Model

| member | source | states |
|---|---|---|
| PdfUtils.GetDocumentBodyStyle | challenge-1a/app/pdf_utils.py:6-18 | the returned `(size, font)` is the body style of the span keys of all pages, in loop order |
| PdfUtils.TallyPages | challenge-1a/app/pdf_utils.py:8-14 | after the nested loops, the Counter holds exactly the number of spans per key, and its key order is the order of first appearance |
| PdfUtils.TallyBlocks | challenge-1a/app/pdf_utils.py:10-14 | one page's blocks add their span keys to the Counter; blocks without lines add nothing |
| PdfUtils.TallyLines | challenge-1a/app/pdf_utils.py:12-14 | one block's lines add their span keys to the Counter |
| PdfUtils.TallySpans | challenge-1a/app/pdf_utils.py:13-14 | one line's spans are counted, a new key entering the key order at its end |
| PdfUtils.MostCommonIndex | challenge-1a/app/pdf_utils.py:17 | `most_common(1)` picks the first key, in insertion order, with the highest count |
| BodyStyle.BodyStyleIsMostCommon | challenge-1a/app/pdf_utils.py:8-18 | the result is `(10, "default")` when there are no spans; otherwise it is the key of some span, no key is counted more often, and every key first seen before it is counted strictly less often |
| BodyStyle.DominantStyleIsBody | challenge-1a/app/pdf_utils.py:14-18 | a key that strictly outnumbers every other key is the body style, whatever the order of the spans |
| BodyStyle.FirstMostCommonAtSpec | challenge-1a/app/pdf_utils.py:17 | the chosen position has the highest count, and every earlier position a strictly lower one |
| BodyStyle.TallyCounts | challenge-1a/app/pdf_utils.py:14 | the Counter built one key at a time maps each key to its number of occurrences |
| PdfUtils.GetHeaderFooterZones | challenge-1a/app/pdf_utils.py:21-39 | the zones equal the specification: none for at most `sample_pages` pages, otherwise those of the three sampled pages |
| PdfUtils.SampledZones | challenge-1a/app/pdf_utils.py:25-39 | for a document with more pages than `sample_pages`, the zones are the averaged rectangles of the keys recorded on the sampled pages |
| PdfUtils.RecordSampled | challenge-1a/app/pdf_utils.py:25-33 | `page_texts` groups the rectangles of the blocks of pages `[0, n // 2, n - 1]` by key |
| PdfUtils.RecordPages | challenge-1a/app/pdf_utils.py:27-33 | the page loop groups the recorded rectangles of the given pages by key, keys in order of first appearance |
| PdfUtils.RecordPage | challenge-1a/app/pdf_utils.py:29-33 | one page's non-blank blocks are appended under `(normalised text, round(y0 / 10))` |
| PdfUtils.CommonBoxes | challenge-1a/app/pdf_utils.py:34-38 | one averaged rectangle per key with at least `threshold` rectangles, in key order |
| Zones.SampledPages | challenge-1a/app/pdf_utils.py:25 | the sampled pages are always three valid page indices, whatever `sample_pages` is |
| Zones.FewPagesNoZones | challenge-1a/app/pdf_utils.py:23-24 | a document of at most `sample_pages` pages has no zones |
| Zones.ZonesOfSampledPages | challenge-1a/app/pdf_utils.py:25-39 | otherwise the zones are those of the sampled pages' keys for the threshold `sample_pages - 1` |
| Zones.ZonesComeFromRecurringKeys | challenge-1a/app/pdf_utils.py:32-38 | every zone is the average of the rectangles of one key recorded on the sampled pages at least `sample_pages - 1` times, and zones exist only for documents with more than `sample_pages` pages (the converse is Zones.RecurringKeysGiveZones) |
| Zones.RecurringKeysGiveZones | challenge-1a/app/pdf_utils.py:25-38 | conversely, for a document with more than `sample_pages` pages, every key recorded on the sampled pages at least `sample_pages - 1` times gives the average of its rectangles as a zone |
| Zones.ZonesShrinkWithThreshold | challenge-1a/app/pdf_utils.py:36 | raising `sample_pages` only removes zones |
| Zones.MeanRectBetween | challenge-1a/app/pdf_utils.py:37 | each coordinate of an averaged zone lies between the least and the greatest value of that coordinate among its rectangles |
| Zones.MeanBetween | challenge-1a/app/pdf_utils.py:37 | a mean lies between the minimum and the maximum |
| Zones.GroupRects | challenge-1a/app/pdf_utils.py:26-33 | `page_texts` has a key exactly for each recorded key, listing its rectangles in recording order |
| Zones.RectsOfNonEmpty | challenge-1a/app/pdf_utils.py:31-33 | a key has rectangles exactly when it was recorded |
| Zones.RectsOfFrom | challenge-1a/app/pdf_utils.py:33 | every rectangle listed under a key comes from an occurrence of that key |
| Zones.ZonesOfFromKeys | challenge-1a/app/pdf_utils.py:35-38 | every zone is the mean of the rectangles of one key reaching the threshold (the converse is Zones.KeysGiveZones) |
| Zones.KeysGiveZones | challenge-1a/app/pdf_utils.py:35-38 | conversely, every key of the recording order whose rectangles reach the threshold gives the mean of its rectangles as a zone |
| Zones.ZonesOfThreshold | challenge-1a/app/pdf_utils.py:36 | a zone found with a higher threshold is found with a lower one |
| Text.SplitOn | challenge-1a/app/pdf_utils.py:30 | `split('\n')` gives at least one piece, none holding the separator; Text.SplitOnJoin completes the characterization |
| Text.SplitOnJoin | challenge-1a/app/pdf_utils.py:30 | joining the pieces of `split(c)` with `c` gives back the string |
| Text.NormalizeLinesJoin | challenge-1a/app/pdf_utils.py:30 | the line-by-line trimming equals `"".join` of the stripped pieces of `text.split('\n')` |
| PdfUtils.ExtractTitleFromContent | challenge-1a/app/pdf_utils.py:42-62 | the running maximum over the first page's sorted blocks returns the content title: None without pages or after the exception |
| TitleFromContent.BlocksTitleSpec | challenge-1a/app/pdf_utils.py:49-60 | the result is never `""`; it exists exactly when no block raises and the title block has non-empty text, and then it is that text |
| TitleFromContent.ContentTitleSpec | challenge-1a/app/pdf_utils.py:46-62 | None without pages, otherwise the first page's title, never `Some("")` |
| TitleFromContent.CrashNoTitle | challenge-1a/app/pdf_utils.py:54 | a text block without lines in the top 60% makes the function return None |
| TitleFromContent.NothingNoTitle | challenge-1a/app/pdf_utils.py:52-60 | with no eligible block of positive first-span size there is no title block and no title |
| TitleFromContent.PositiveTitle | challenge-1a/app/pdf_utils.py:52-60 | otherwise the result is the text of the earliest block with the strictly largest first-span size, or None when that text is empty |
| TitleFromContent.ScanCrashes | challenge-1a/app/pdf_utils.py:54 | the loop ends in the exception exactly when some block in the top 60% is a text block without lines |
| TitleFromContent.ScanFindsTitle | challenge-1a/app/pdf_utils.py:52-59 | without the exception and with some positive size, the loop ends holding the title block's size and text |
| TitleFromContent.TitleBlockUnique | challenge-1a/app/pdf_utils.py:56 | there is at most one title block |
| PdfUtils.ExtractOutlineFromToc | challenge-1a/app/main.py:16-35 | the loop returns the bookmark outline: None for at most two bookmarks, otherwise one entry per bookmark |
| PdfUtils.TocLevel | challenge-1a/app/main.py:26-28 | a depth seen for the first time gets the next level number, and each bookmark gets its depth's level |
| Toc.TocOutlineSize | challenge-1a/app/pdf_utils.py:68-81 | the outline exists exactly for more than two bookmarks, and then has one entry per bookmark |
| Toc.LevelMapSpec | challenge-1a/app/pdf_utils.py:71-75 | `level_map` has one key per distinct depth and gives each depth its position, from 1, in order of first appearance |
| Toc.FirstIsH1 | challenge-1a/app/pdf_utils.py:73-78 | the first entry is H1 |
| Toc.LevelBounds | challenge-1a/app/pdf_utils.py:73-78 | a level is at least 1 and at most the number of distinct depths seen so far |
| Toc.SameLevelSameDepth | challenge-1a/app/pdf_utils.py:72-78 | two entries share a level exactly when their bookmarks share a depth |
| Toc.LevelOfWhole | challenge-1a/app/pdf_utils.py:73-78 | a bookmark's level is its depth's position among all distinct depths: later bookmarks do not change it |
| Toc.TocExample | challenge-1a/app/pdf_utils.py:72-81 | four bookmarks of depths 1, 2, 2, 1 give an outline with levels H1, H2, H2, H1 |
| PdfUtils.ExtractOutlineWithHeuristics | challenge-1a/app/pdf_utils.py:84-115 | the result is the heuristic outline: the candidates of all pages, with the body size and the zones for three sampled pages, classified and sorted |
| PdfUtils.CollectCandidates | challenge-1a/app/pdf_utils.py:90-114 | `potential_headings` holds the candidates of every page, pages numbered from 1 |
| PdfUtils.AppendPageHeadings | challenge-1a/app/pdf_utils.py:92-114 | one page's blocks append their candidates in block order |
| Headings.CandidateSpec | challenge-1a/app/pdf_utils.py:93-114 | a block is kept exactly when it has a first span and meets no zone, its stripped text is non-empty, at most 120 characters, holds an ASCII letter and has no list prefix, and its first span is at least `body_size + 1`; it then gives its text, the page and `(round(size), font)` |
| Headings.PageCandidatesSound | challenge-1a/app/pdf_utils.py:92-114 | every candidate of a page comes from one of its blocks |
| Headings.CandidatesSound | challenge-1a/app/pdf_utils.py:90-114 | every candidate comes from a block of some page (the converse is Headings.CandidatesComplete) |
| Headings.PageCandidatesComplete | challenge-1a/app/pdf_utils.py:92-114 | conversely, every block of a page that passes the filters gives its heading among that page's candidates |
| Headings.CandidatesComplete | challenge-1a/app/pdf_utils.py:90-114 | conversely, every block of any page that passes the filters gives its heading, with its 1-based page, among the candidates |
| Headings.CandidatesExact | challenge-1a/app/pdf_utils.py:90-114 | a heading is a candidate exactly when some block of some page yields it |
| Headings.CandidatesAreFilteredBlocks | challenge-1a/app/pdf_utils.py:90-114 | a heading is a candidate exactly when it is the text, 1-based page and style of a block that has a first span, meets no zone, has stripped text of 1 to 120 characters with an ASCII letter and no list prefix, and whose first span is at least `body_size + 1` |
| Headings.CandidateProperties | challenge-1a/app/pdf_utils.py:94-112 | every candidate has non-empty text of at most 120 characters with an ASCII letter and no list prefix, and a 1-based page within the document; its block has a first span of size at least `body_size + 1` and meets no zone (Headings.CandidatesAreFilteredBlocks states the exact set) |
| PdfUtils.ClassifyAndSortHeadings | challenge-1a/app/pdf_utils.py:118-140 | the result is the classified headings sorted by `(page, level)` |
| PdfUtils.GroupHeadings | challenge-1a/app/pdf_utils.py:121-123 | `style_to_headings` lists each style's headings in input order, styles in order of first appearance |
| PdfUtils.GroupOne | challenge-1a/app/pdf_utils.py:123 | one heading is appended under its style |
| PdfUtils.AppendLabelled | challenge-1a/app/pdf_utils.py:130-134 | the headings of one style are appended, each labelled with that style's level |
| Headings.GroupBySpec | challenge-1a/app/pdf_utils.py:121-123 | there is a key for each style of the headings, and under it that style's headings in input order |
| Headings.ClassifyPermutation | challenge-1a/app/pdf_utils.py:118-135 | the output is a permutation of the input headings, each labelled with its style's level, and every level is H1..H4 |
| Headings.ClassifiedPermutation | challenge-1a/app/pdf_utils.py:128-134 | grouping style by style loses and adds no heading |
| Headings.ClassifyOrdered | challenge-1a/app/pdf_utils.py:135 | the output is non-decreasing by `(page, level)`, and entries with the same page and level keep their order from the grouping |
| Headings.SortedStylesSpec | challenge-1a/app/pdf_utils.py:124 | `sorted_styles` is in descending `(size, font)` order, holds each style once, and holds exactly the headings' styles |
| Headings.HigherStyleLowerLevel | challenge-1a/app/pdf_utils.py:124-129 | a style ranked strictly higher by `(size, font)` never gets a larger level number |
| Headings.TopFourLevels | challenge-1a/app/pdf_utils.py:125-129 | the four largest styles are H1..H4 in order, and every smaller style is H4 |
| Headings.StyleGeTotal | challenge-1a/app/pdf_utils.py:124 | Python's tuple comparison on `(size, font)` is a total preorder |
| Headings.PageLevelKey | challenge-1a/app/pdf_utils.py:135 | for levels 1..4, comparing level numbers is comparing the strings "H1".."H4" as Python does |
| Layout.LevelNameOrder | challenge-1a/app/pdf_utils.py:125 | `"H<a>" < "H<b>"` exactly when `a < b`, for 1..4 |
| Layout.Round | challenge-1a/app/pdf_utils.py:14 | `round` gives the nearest integer, and the even one for halves |
| Text.StrLessTrichotomy | challenge-1a/app/pdf_utils.py:124 | Python's string `<` is a strict total order: trichotomy and asymmetry |
| Text.StrLessTransitive | challenge-1a/app/pdf_utils.py:124 | Python's string `<` is transitive |
| Text.Strip | challenge-1a/app/pdf_utils.py:59 | `strip()` does not lengthen its input, is empty exactly for white space, and otherwise starts and ends with a character that is not white space; with Text.StripSpec and Text.StripUnique this determines it |
| Text.StripUnique | challenge-1a/app/pdf_utils.py:59 | `strip()` of white space, then a string with no white space at either end, then white space, is that middle string |
| Text.StripSpec | challenge-1a/app/pdf_utils.py:59 | every string is white space, then its `strip()`, then white space |
| Extractor.ExtractUniversalOutline | challenge-1a/app/main.py:63-110 | the program returns the specified title and outline |
| OutlineMain.NoPages | challenge-1a/app/main.py:66-67 | a document without pages gives an empty title and an empty outline |
| OutlineMain.LargestSpansTitleSpec | challenge-1a/app/main.py:78-91 | no title exactly when page 1 has no span; otherwise the space-join of the stripped texts of the spans within 5% of the largest size, each once, in order of first appearance |
| OutlineMain.TitleTextsSpec | challenge-1a/app/main.py:84-90 | a text is a title piece exactly when some span near the largest size has it as its stripped text |
| OutlineMain.LargestSpanIsNear | challenge-1a/app/main.py:82-90 | with a positive largest size, the title pieces are not empty |
| OutlineMain.MaxSize | challenge-1a/app/main.py:82 | `max(font_sizes)` is at least every size and is one of them |
| OutlineMain.TitleFallbacks | challenge-1a/app/main.py:79-104 | a non-empty first title is kept; the file name stands in without spans; an empty title is replaced by the content title only when that has at least four characters, and otherwise stays empty |
| OutlineMain.OutlineSelection | challenge-1a/app/main.py:105-108 | the outline is the bookmark outline for more than two bookmarks, and the heuristic outline otherwise |
| SectionPipeline.GetSectionText | challenge-1b/src/main_1b.py:9-56 | the loop returns every heading with its specified content |
| SectionPipeline.SectionContentOf | challenge-1b/src/main_1b.py:14-54 | the content of one section is the specified one |
| SectionPipeline.FindWindow | challenge-1b/src/main_1b.py:14-29 | `start_page`, `end_page`, `next_section_start_y` and `current_section_y0` are those of the section's window |
| SectionPipeline.FindHolding | challenge-1b/src/main_1b.py:24-29 | the search loop finds the first block holding the text |
| SectionPipeline.FindBottom | challenge-1b/src/main_1b.py:36-41 | `current_section_y0` is the bottom of the first block holding the heading, or 0 |
| SectionPipeline.FindTop | challenge-1b/src/main_1b.py:24-29 | `next_section_start_y` is the top of the first block holding the next heading, or none (infinity) |
| SectionPipeline.CollectWindow | challenge-1b/src/main_1b.py:32-52 | the page loop collects the texts of the blocks picked in the window, in reading order |
| SectionPipeline.CollectPage | challenge-1b/src/main_1b.py:43-52 | one page appends the texts of its taken blocks up to the first block that ends collection: the new content is the old one followed by the texts of the page's contributions |
| Segments.PickTextsAppend | challenge-1b/src/main_1b.py:51 | the `content` list of two runs of collected blocks is the list of the first followed by that of the second |
| SectionPipeline.CollectOne | challenge-1b/src/main_1b.py:51-52 | taking one more text block appends its stripped text |
| Segments.SectionWindow | challenge-1b/src/main_1b.py:14-29 | the window's start and end pages are pages of the document, the start not after the end |
| Segments.FirstHoldingSpec | challenge-1b/src/main_1b.py:24-29 | the search finds the first holding block, and finds nothing only when no block holds the text |
| Segments.StopIndexSpec | challenge-1b/src/main_1b.py:44-49 | no block before the stop ends collection, and the block at the stop does |
| Segments.TakenUpToSpec | challenge-1b/src/main_1b.py:44-47 | the taken indices increase and name taken blocks |
| Segments.SectionTextsShape | challenge-1b/src/main_1b.py:13-56 | the sections keep their number and order and only gain their content |
| Segments.SegmentsUpToAt | challenge-1b/src/main_1b.py:13-54 | after `n` headings, entry `i` is heading `i` with its content |
| Segments.ContentFallback | challenge-1b/src/main_1b.py:54 | with nothing collected the content is the heading text; otherwise it is the collected texts joined by spaces |
| Segments.SectionWindowPages | challenge-1b/src/main_1b.py:14-23 | the window starts at the heading's page; it runs to the next heading's page when that is later, covers only the start page when it is not, and runs to the last page for the last heading |
| Segments.PicksInWindow | challenge-1b/src/main_1b.py:31-52 | every collected block lies in the window and is collected there, and the blocks come in reading order (Segments.SectionPicksExact gives the converse) |
| Segments.StartBound | challenge-1b/src/main_1b.py:34-47 | on the start page only text blocks at or below the bottom of the first block holding the heading are taken, or at or below 0 without one |
| Segments.SamePageStop | challenge-1b/src/main_1b.py:22-29 | with the next heading on the same or an earlier page, only the start page is used, and collection stops above the top of the first block holding the next heading |
| Segments.PageCollected | challenge-1b/src/main_1b.py:43-52 | the blocks one page contributes are collected there, in increasing order |
| Segments.WindowPicksCollected | challenge-1b/src/main_1b.py:32-52 | every block collected from the pages so far lies on one of them and is collected (the converse is Segments.WindowPicksComplete) |
| Segments.WindowPicksOrdered | challenge-1b/src/main_1b.py:32-52 | the collected blocks come in reading order |
| Segments.TakenUpToComplete | challenge-1b/src/main_1b.py:44-47 | every taken block before the bound is among the taken indices |
| Segments.PageCollectedComplete | challenge-1b/src/main_1b.py:43-52 | every block collected on a page is among that page's contributions |
| Segments.WindowPicksComplete | challenge-1b/src/main_1b.py:32-52 | conversely, every block collected on one of the pages so far is among the collected blocks |
| Segments.SectionPickCollected | challenge-1b/src/main_1b.py:31-52 | each collected block of a section lies in its window and is collected there |
| Segments.SectionPicksExact | challenge-1b/src/main_1b.py:31-52 | a block is collected for a section exactly when it lies in the section's window and is collected there |
| SectionPipeline.CreateDiverseSectionPool | challenge-1b/src/main_1b.py:107-141 | the loop returns the specified pool |
| SectionPipeline.SearchCategory | challenge-1b/src/main_1b.py:132-138 | one category's search adds its best-ranked eligible section, and `seen_titles` stays the pool's titles |
| Pool.FirstEligible | challenge-1b/src/main_1b.py:132-138 | the inner loop finds the first section with an unseen title matching a keyword, or reports that none exists |
| Pool.DiversePoolSpec | challenge-1b/src/main_1b.py:113-138 | empty for an empty ranking; otherwise it starts with the top section and has at most five entries, all from the ranking, with pairwise distinct titles |
| Pool.PoolUpToSpec | challenge-1b/src/main_1b.py:124-138 | after each category: at most one more entry, the top section first, entries from the ranking, distinct titles |
| Pool.CategoryStep | challenge-1b/src/main_1b.py:131-138 | a category adds nothing when no section is eligible, and otherwise exactly the earliest-ranked section whose title is unseen and contains one of its keywords |
| Pool.UnmatchedOnlyOnTop | challenge-1b/src/main_1b.py:124-138 | every entry after the first matches some category's keywords |
| SectionPipeline.PerformSubSectionAnalysis | challenge-1b/src/main_1b.py:59-104 | the loops return the specified refined snippets |
| SectionPipeline.CollectSentences | challenge-1b/src/main_1b.py:67-77 | `all_sentences` holds the kept sentences of the pool, section by section |
| SectionPipeline.SentencesOf | challenge-1b/src/main_1b.py:68-77 | one section's kept sentences, in order |
| SectionPipeline.Deduplicate | challenge-1b/src/main_1b.py:87-101 | the de-duplicating loop with its cap returns the specified snippets |
| SectionPipeline.DedupStep | challenge-1b/src/main_1b.py:91-98 | a sentence with new content becomes a snippet and enters `seen_sentences` |
| SectionPipeline.StopStep | challenge-1b/src/main_1b.py:99-101 | the cap check stops the loop exactly at the stop point |
| Refine.PieceSentences | challenge-1b/src/main_1b.py:69-77 | every candidate is non-empty, has more than three words, differs from the section title in lower case, and carries its section's document and page |
| Refine.AllSentencesSpec | challenge-1b/src/main_1b.py:67-77 | every candidate comes from a section of the pool, passes that section's filter and carries its document and page |
| Refine.AllSentencesFrom | challenge-1b/src/main_1b.py:67-77 | every candidate is a candidate of some section of the pool |
| Refine.SectionSentenceKept | challenge-1b/src/main_1b.py:68-77 | a candidate of a section passes its filter and carries its document and page |
| Refine.KeptFirstOccurrences | challenge-1b/src/main_1b.py:89-98 | a ranked sentence is kept exactly when its content did not appear earlier |
| Refine.KeptDistinct | challenge-1b/src/main_1b.py:91-98 | the kept sentences have pairwise distinct contents |
| Refine.KeptIncreasing | challenge-1b/src/main_1b.py:89-98 | the kept sentences follow the ranking order |
| Refine.SnippetsOrder | challenge-1b/src/main_1b.py:87-101 | the snippets follow the ranking, have no two equal texts, and are exactly the first occurrences among the sentences looked at |
| Refine.SnippetsCount | challenge-1b/src/main_1b.py:99-101 | at most `N` snippets for `N >= 1`; exactly one for `N <= 0` with any ranked sentence; fewer than `N` only when every sentence was looked at |
| Refine.StopFrom | challenge-1b/src/main_1b.py:99-101 | the loop stops at the first count whose snippets reach `N`, or after all sentences |
| Refine.AnalysisSpec | challenge-1b/src/main_1b.py:79-96 | without candidate sentences the result is empty; each snippet carries the score of its own text, is a sentence the filter keeps for the title of some section of the pool, and carries that section's document and page |
| Text.SplitSentences | challenge-1b/src/main_1b.py:68 | `re.split(r'(?<=[.?!])\s+', s)` gives at least one piece, and every piece but the last is non-empty and ends with `.`, `?` or `!`; Text.SplitSentencesNoSplit, Text.SplitSentencesLast and Text.SplitSentencesNext characterize the pieces |
| Text.SplitSentencesNoSplit | challenge-1b/src/main_1b.py:68 | no piece holds a match of the pattern: no white space after a `.`, `?` or `!` inside a piece |
| Text.SplitSentencesLast | challenge-1b/src/main_1b.py:68 | a string without a match is its own only piece |
| Text.SplitSentencesNext | challenge-1b/src/main_1b.py:68 | at the first match, a maximal white-space run after a `.`, `?` or `!`, the split gives the text up to the punctuation and then the split of what follows the run |
| Text.NextSplit | challenge-1b/src/main_1b.py:68 | the next match of the pattern is the first white space after a `.`, `?` or `!`, or none |
| Text.Words | challenge-1b/src/main_1b.py:72 | `split()` gives non-empty words without white space, and no word exactly for an all-blank string; Text.WordsNext and Text.WordsConcat characterize the words |
| Text.WordsNext | challenge-1b/src/main_1b.py:72 | after leading white space, a word followed by white space or the end is the first word, and the rest splits on its own |
| Text.WordsConcat | challenge-1b/src/main_1b.py:72 | the words, concatenated, are the string's characters other than white space, in order |
| Text.Lower | challenge-1b/src/main_1b.py:72 | `lower()` keeps the length and maps each character by the ASCII case mapping |
| Analyst.DocumentAnalyst.RankSections | challenge-1b/src/intelligence_core.py:10-47 | the loop and the sort return the ranked sections |
| Analyst.DocumentAnalyst.constructor | challenge-1b/src/intelligence_core.py:6-8 | the analyst holds the score that its model stands for |
| Analyst.RankEmpty | challenge-1b/src/intelligence_core.py:22-23 | no sections or an empty query give `[]` |
| Analyst.RankSpec | challenge-1b/src/intelligence_core.py:39-45 | otherwise the result is a permutation of the scored input; each entry has the score of its own content; scores do not increase; equal scores keep input order |
| Analyst.RankedFromInput | challenge-1b/src/intelligence_core.py:39-45 | every ranked entry is one of the input sections and carries the score of its own content |
| Analyst.Scored | challenge-1b/src/intelligence_core.py:39-42 | each section, in input order, gets the score of the query against its content |
| Analyst.PermutedScores | challenge-1b/src/intelligence_core.py:40-42 | any rearrangement of the scored sections keeps each section's score |
| Analyst.ScoreByContent | challenge-1b/src/intelligence_core.py:27-36 | two sections with the same content get the same score |
| Seqs.Distinct | challenge-1a/app/main.py:91 | `dict.fromkeys` keeps each value once and does not lengthen the list |
| Sorting.SortBy | challenge-1b/src/intelligence_core.py:45 | `list.sort` returns a permutation of its input |
| Sorting.SortBySorted | challenge-1b/src/intelligence_core.py:45 | the sort's result is ordered by a total preorder |
| Sorting.SortByStable | challenge-1b/src/intelligence_core.py:45 | elements that compare equal keep their relative order |
| Sorting.InsertKeepsTies | challenge-1b/src/intelligence_core.py:45 | inserting keeps the order of the elements tied with any element, the new one last |

## Left out

- The PDF parser (PyMuPDF): `fitz.open`, `get_text`, `get_toc`, `load_page` and `page.rect`. A `Layout.Document` value stands for their output. The three views of a page (`blocks`, `sortedBlocks`, `plainBlocks`) are not related to each other by the model.
- The sentence-embedding model, `encode`, `util.cos_sim` and `round(..., 4)`. They are one opaque score function.
- All file and console I/O: `print`, `logging`, argparse, JSON, paths, timestamps, and the batch drivers (`main()` of challenge-1b/src/main_1b.py and the `__main__` block of challenge-1a/app/main.py). `os.path.basename(pdf_path)` is a parameter.
- challenge-1b/downloa_models.py only downloads a model and is not part of this model.
- challenge-1a/app/main.py:16-35 redefines `extract_outline_from_toc` with the same body as the pdf_utils.py version, so one definition models both.
- The `classify_and_sort_headings` of challenge-1a/app/main.py:41-61 is never called (it would also fail on the missing `defaultdict` import). The version in pdf_utils.py is modelled.
- Exception handlers beyond the paths the core reaches. The modelled paths are:
  - a text block without lines in `extract_title_from_content`;
  - a first page without spans in `extract_universal_outline`.
  Other exceptions (a corrupt file, a missing dict key) cannot arise in the model's data.
- Floating point: sizes and coordinates are `real`. `round` is exact half-to-even on reals.
- Text.Lower: models the ASCII case mapping only, not Unicode `str.lower()`.
- Text.IsDigit: `\d` of the list-prefix pattern is ASCII digits only, not every Unicode decimal digit.
- Segments.SectionWindow: requires every heading's page to be a page of the document (`PagesInRange`). An out-of-range page makes the source index outside the document, and that error path is not modelled.
- PdfUtils.GetHeaderFooterZones: requires `sample_pages >= 0` or a non-empty document. The other case would make the source load a page of an empty document.
- In-place mutation of the source's dicts: `section['content']`, `h['level']`, the deletion of `style_key` on the headings, and the `importance_rank` key written into each input section (intelligence_core.py:41). Each record is a value, and the functions return the enriched records, so aliasing between the caller's list and the result is not modelled.
- The default `num_sub_sections=5` and `sample_pages=3`. They are explicit parameters; `extract_outline_with_heuristics` passes 3.
