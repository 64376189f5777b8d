/** `perform_sub_section_analysis` of challenge-1b/src/main_1b.py: the sections of the
    pool are split into sentences, the sentences worth keeping are ranked against
    the query, and the best distinct ones become the refined snippets. */
module Refine {
  import opened Seqs
  import opened Text
  import opened Analyst
  import opened Pool

  /** A candidate sentence with the document and page of its section. */
  datatype Sentence = Sentence(content: string, document: string, pageNumber: int)

  function SentenceContent(s: Sentence): string {
    s.content
  }

  /** An entry of `sub_section_results`. */
  datatype SubSection = SubSection(document: string, pageNumber: int, refinedText: string, importanceRank: real)

  /** The stripped piece is kept: non-empty, more than three words, and not the
      section title up to (ASCII) case. */
  predicate KeepSentence(clean: string, title: string) {
    clean != "" && |Words(clean)| > 3 && Lower(clean) != Lower(title)
  }

  /** The kept sentences among the first pieces `pieces` of a section's content. */
  function PieceSentences(pieces: seq<string>, sec: Section): (r: seq<Sentence>)
    ensures forall k :: 0 <= k < |r| ==> (KeepSentence(r[k].content, sec.sectionTitle)
      && r[k].document == sec.document && r[k].pageNumber == sec.pageNumber)
  {
    if pieces == [] then []
    else
      var clean := Strip(pieces[|pieces| - 1]);
      PieceSentences(pieces[..|pieces| - 1], sec)
        + (if KeepSentence(clean, sec.sectionTitle) then [Sentence(clean, sec.document, sec.pageNumber)] else [])
  }

  /** The candidate sentences of one section. */
  function SectionSentences(sec: Section): seq<Sentence> {
    PieceSentences(SplitSentences(sec.content), sec)
  }

  /** `all_sentences`: the candidates of the sections of the pool, section by section. */
  function AllSentences(pool: seq<Ranked<Section>>): seq<Sentence> {
    if pool == [] then []
    else AllSentences(pool[..|pool| - 1]) + SectionSentences(pool[|pool| - 1].item)
  }

  /** The contents of the first `n` ranked sentences: `seen_sentences` once they
      have been looked at. */
  function SeenUpTo(rs: seq<Ranked<Sentence>>, n: nat): set<string>
    requires n <= |rs|
  {
    set j | 0 <= j < n :: rs[j].item.content
  }

  /** The indices of the ranked sentences kept among the first `n`: those whose
      content has not appeared before. */
  function KeptUpTo(rs: seq<Ranked<Sentence>>, n: nat): (ks: seq<nat>)
    requires n <= |rs|
    ensures forall k :: 0 <= k < |ks| ==> ks[k] < n
  {
    if n == 0 then []
    else KeptUpTo(rs, n - 1) + (if rs[n - 1].item.content in SeenUpTo(rs, n - 1) then [] else [n - 1])
  }

  /** The number of ranked sentences looked at before the loop stops: the first
      count at or after `n` whose kept snippets reach `limit`, or all of them. */
  function StopFrom(rs: seq<Ranked<Sentence>>, limit: int, n: nat): (m: nat)
    requires 1 <= n <= |rs|
    ensures n <= m <= |rs|
    ensures m < |rs| ==> |KeptUpTo(rs, m)| >= limit
    ensures forall i :: n <= i < m ==> |KeptUpTo(rs, i)| < limit
    decreases |rs| - n
  {
    if |KeptUpTo(rs, n)| >= limit || n == |rs| then n else StopFrom(rs, limit, n + 1)
  }

  function StopPoint(rs: seq<Ranked<Sentence>>, limit: int): (m: nat)
    ensures m <= |rs|
  {
    if rs == [] then 0 else StopFrom(rs, limit, 1)
  }

  function ToSubSection(r: Ranked<Sentence>): SubSection {
    SubSection(r.item.document, r.item.pageNumber, r.item.content, r.importanceRank)
  }

  function Snippets(rs: seq<Ranked<Sentence>>, ks: seq<nat>): (r: seq<SubSection>)
    requires forall k :: 0 <= k < |ks| ==> ks[k] < |rs|
    ensures |r| == |ks|
    ensures forall k :: 0 <= k < |ks| ==> r[k] == ToSubSection(rs[ks[k]])
  {
    if ks == [] then [] else Snippets(rs, ks[..|ks| - 1]) + [ToSubSection(rs[ks[|ks| - 1]])]
  }

  /** The refined snippets of a ranking: the kept sentences up to the stop point. */
  function RefinedSnippets(rs: seq<Ranked<Sentence>>, limit: int): seq<SubSection> {
    Snippets(rs, KeptUpTo(rs, StopPoint(rs, limit)))
  }

  /** What `perform_sub_section_analysis(pool, analyst, query, limit)` returns, with
      `score` the analyst's scoring. */
  function SubSectionAnalysis(score: (string, string) -> real, pool: seq<Ranked<Section>>, query: string, limit: int): seq<SubSection> {
    var sentences := AllSentences(pool);
    if sentences == [] then []
    else RefinedSnippets(RankedSections(score, query, sentences, SentenceContent), limit)
  }

  // ----- properties -----

  /** Every candidate sentence is a candidate of some section of the pool. */
  lemma {:induction false} AllSentencesFrom(pool: seq<Ranked<Section>>, s: Sentence)
    requires s in AllSentences(pool)
    ensures exists k :: 0 <= k < |pool| && s in SectionSentences(pool[k].item)
  {
    var init := pool[..|pool| - 1];
    if s in AllSentences(init) {
      AllSentencesFrom(init, s);
      var k :| 0 <= k < |init| && s in SectionSentences(init[k].item);
      assert pool[k] == init[k];
    } else {
      assert s in SectionSentences(pool[|pool| - 1].item);
    }
  }

  /** Every candidate sentence is kept by the filter and comes from a section of the
      pool, whose document and page it carries. */
  lemma AllSentencesSpec(pool: seq<Ranked<Section>>, s: Sentence)
    requires s in AllSentences(pool)
    ensures exists k :: 0 <= k < |pool| && s in SectionSentences(pool[k].item)
    ensures exists k :: (0 <= k < |pool| && KeepSentence(s.content, pool[k].item.sectionTitle)
      && s.document == pool[k].item.document && s.pageNumber == pool[k].item.pageNumber)
  {
    AllSentencesFrom(pool, s);
    var k :| 0 <= k < |pool| && s in SectionSentences(pool[k].item);
    SectionSentenceKept(pool[k].item, s);
  }

  /** A candidate of a section passes that section's filter and carries its
      document and page. */
  lemma SectionSentenceKept(sec: Section, s: Sentence)
    requires s in SectionSentences(sec)
    ensures KeepSentence(s.content, sec.sectionTitle) && s.document == sec.document && s.pageNumber == sec.pageNumber
  {
    var r := SectionSentences(sec);
    var i :| 0 <= i < |r| && r[i] == s;
    assert KeepSentence(r[i].content, sec.sectionTitle);
  }

  /** The kept indices increase. */
  lemma {:induction false} KeptIncreasing(rs: seq<Ranked<Sentence>>, n: nat)
    requires n <= |rs|
    ensures forall k, l :: 0 <= k < l < |KeptUpTo(rs, n)| ==> KeptUpTo(rs, n)[k] < KeptUpTo(rs, n)[l]
  {
    if n > 0 {
      KeptIncreasing(rs, n - 1);
    }
  }

  /** The kept indices are exactly the first occurrences of each content among the
      first `n`. */
  lemma {:induction false} KeptFirstOccurrences(rs: seq<Ranked<Sentence>>, n: nat, j: nat)
    requires j < n <= |rs|
    ensures j in KeptUpTo(rs, n) <==> rs[j].item.content !in SeenUpTo(rs, j)
  {
    var ks := KeptUpTo(rs, n - 1);
    assert KeptUpTo(rs, n) == ks + (if rs[n - 1].item.content in SeenUpTo(rs, n - 1) then [] else [n - 1]);
    if j < n - 1 {
      KeptFirstOccurrences(rs, n - 1, j);
    } else {
      assert n - 1 !in ks;
    }
  }

  /** The contents of the kept sentences are pairwise distinct. */
  lemma {:induction false} KeptDistinct(rs: seq<Ranked<Sentence>>, n: nat)
    requires n <= |rs|
    ensures forall k, l :: 0 <= k < l < |KeptUpTo(rs, n)| ==>
      rs[KeptUpTo(rs, n)[k]].item.content != rs[KeptUpTo(rs, n)[l]].item.content
  {
    if n > 0 {
      KeptDistinct(rs, n - 1);
      var ks, ks' := KeptUpTo(rs, n - 1), KeptUpTo(rs, n);
      assert ks' == ks + (if rs[n - 1].item.content in SeenUpTo(rs, n - 1) then [] else [n - 1]);
      forall k, l | 0 <= k < l < |ks'| ensures rs[ks'[k]].item.content != rs[ks'[l]].item.content {
        if l == |ks| {
          assert ks'[l] == n - 1 && ks'[k] == ks[k] < n - 1;
          assert rs[ks[k]].item.content in SeenUpTo(rs, n - 1);
        }
      }
    }
  }

  /** The snippets: no two with the same text, in the order of the ranking, and
      among the sentences looked at, the first occurrence of each text and nothing
      else. */
  lemma SnippetsOrder(rs: seq<Ranked<Sentence>>, limit: int)
    ensures var ks := KeptUpTo(rs, StopPoint(rs, limit));
      && RefinedSnippets(rs, limit) == Snippets(rs, ks)
      && (forall k, l :: 0 <= k < l < |ks| ==> ks[k] < ks[l])
      && (forall k, l :: 0 <= k < l < |ks| ==> RefinedSnippets(rs, limit)[k].refinedText != RefinedSnippets(rs, limit)[l].refinedText)
      && (forall j :: 0 <= j < StopPoint(rs, limit) ==> (j in ks <==> rs[j].item.content !in SeenUpTo(rs, j)))
  {
    var m := StopPoint(rs, limit);
    KeptDistinct(rs, m);
    KeptIncreasing(rs, m);
    forall j | 0 <= j < m ensures j in KeptUpTo(rs, m) <==> rs[j].item.content !in SeenUpTo(rs, j) {
      KeptFirstOccurrences(rs, m, j);
    }
  }

  /** The snippet count: at most `limit` for a positive limit; exactly one for a
      limit of zero or below when some sentence is ranked, because the check comes
      after the first snippet is added; and when fewer than `limit` are returned,
      every ranked sentence was looked at. */
  lemma SnippetsCount(rs: seq<Ranked<Sentence>>, limit: int)
    ensures limit >= 1 ==> |RefinedSnippets(rs, limit)| <= limit
    ensures limit <= 0 && rs != [] ==> |RefinedSnippets(rs, limit)| == 1
    ensures |RefinedSnippets(rs, limit)| < limit ==> StopPoint(rs, limit) == |rs|
  {
    var m := StopPoint(rs, limit);
    if limit >= 1 && m > 0 {
      KeptGrowth(rs, m - 1);
      if m > 1 {
        assert |KeptUpTo(rs, m - 1)| < limit;
      }
    }
    if limit <= 0 && rs != [] {
      assert SeenUpTo(rs, 0) == {};
      assert KeptUpTo(rs, 1) == [0];
      assert m == 1;
    }
  }

  /** Each sentence looked at adds at most one snippet. */
  lemma KeptGrowth(rs: seq<Ranked<Sentence>>, n: nat)
    requires n < |rs|
    ensures |KeptUpTo(rs, n + 1)| <= |KeptUpTo(rs, n)| + 1
  {
  }

  /** Without candidate sentences the result is empty; otherwise every snippet is a
      sentence the filter kept from some section of the pool, carries that section's
      document and page, and has the rank the analyst gave its text. */
  lemma AnalysisSpec(score: (string, string) -> real, pool: seq<Ranked<Section>>, query: string, limit: int, k: nat)
    requires k < |SubSectionAnalysis(score, pool, query, limit)|
    ensures AllSentences(pool) != []
    ensures var r := SubSectionAnalysis(score, pool, query, limit)[k];
      r.importanceRank == score(query, r.refinedText)
    ensures var r := SubSectionAnalysis(score, pool, query, limit)[k];
      exists s :: 0 <= s < |pool| && KeepSentence(r.refinedText, pool[s].item.sectionTitle)
        && r.document == pool[s].item.document && r.pageNumber == pool[s].item.pageNumber
  {
    var sentences := AllSentences(pool);
    var rs := RankedSections(score, query, sentences, SentenceContent);
    var ks := KeptUpTo(rs, StopPoint(rs, limit));
    var e := rs[ks[k]];
    RankedFromInput(score, query, sentences, SentenceContent, e);
    AllSentencesSpec(pool, e.item);
  }
}
