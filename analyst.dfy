/** `DocumentAnalyst` of challenge-1b/src/intelligence_core.py. The sentence
    embedding model, the cosine similarity and the rounding to four places are one
    opaque score: a function from the query and a section's content to a number.
    `rank_sections` attaches that score to every section and sorts the sections by
    it, highest first, keeping ties in input order. */
module Analyst {
  import opened Sorting

  /** A section with its `importance_rank` attached. */
  datatype Ranked<T> = Ranked(item: T, importanceRank: real)

  /** The comparison of the descending sort on `importance_rank`. */
  predicate RankGe<T>(a: Ranked<T>, b: Ranked<T>) {
    a.importanceRank >= b.importanceRank
  }

  /** The sections, in input order, each with its score. */
  function Scored<T>(score: (string, string) -> real, query: string, sections: seq<T>, content: T -> string): (r: seq<Ranked<T>>)
    ensures |r| == |sections|
    ensures forall i :: 0 <= i < |sections| ==> r[i] == Ranked(sections[i], score(query, content(sections[i])))
  {
    if sections == [] then []
    else
      var s := sections[|sections| - 1];
      Scored(score, query, sections[..|sections| - 1], content) + [Ranked(s, score(query, content(s)))]
  }

  /** What `rank_sections(query, sections)` returns, `content` reading a section's
      `'content'` field. */
  function RankedSections<T>(score: (string, string) -> real, query: string, sections: seq<T>, content: T -> string): seq<Ranked<T>> {
    if sections == [] || query == "" then []
    else SortBy(Scored(score, query, sections, content), RankGe)
  }

  lemma RankGeTotal<T(!new)>()
    ensures TotalPreorder(RankGe<T>)
  {
  }

  /** No section or no query: nothing is ranked. */
  lemma RankEmpty<T>(score: (string, string) -> real, query: string, sections: seq<T>, content: T -> string)
    requires sections == [] || query == ""
    ensures RankedSections(score, query, sections, content) == []
  {
  }

  /** Otherwise the result holds exactly the input sections, each once per
      occurrence, each with the score of the query against its own content; it is
      ordered by non-increasing score, and sections with equal scores keep their
      input order. */
  lemma RankSpec<T(!new)>(score: (string, string) -> real, query: string, sections: seq<T>, content: T -> string, c: Ranked<T>)
    requires sections != [] && query != ""
    ensures var r := RankedSections(score, query, sections, content);
      && |r| == |sections|
      && multiset(r) == multiset(Scored(score, query, sections, content))
      && (forall e :: e in r ==> e.importanceRank == score(query, content(e.item)))
      && (forall i, j :: 0 <= i < j < |r| ==> r[i].importanceRank >= r[j].importanceRank)
      && TiedWith(r, RankGe, c) == TiedWith(Scored(score, query, sections, content), RankGe, c)
  {
    var sc := Scored(score, query, sections, content);
    var r := RankedSections(score, query, sections, content);
    RankGeTotal<T>();
    SortBySorted(sc, RankGe);
    SortByStable(sc, RankGe, c);
    PermutedScores(score, query, sections, content, r);
  }

  /** Every ranked entry is one of the input sections, with the score of its own
      content. */
  lemma RankedFromInput<T(!new)>(score: (string, string) -> real, query: string, sections: seq<T>, content: T -> string, e: Ranked<T>)
    requires e in RankedSections(score, query, sections, content)
    ensures e.item in sections && e.importanceRank == score(query, content(e.item))
  {
    RankSpec(score, query, sections, content, e);
    var sc := Scored(score, query, sections, content);
    assert e in multiset(sc);
    var i :| 0 <= i < |sc| && sc[i] == e;
  }

  /** A rearrangement of the scored sections carries the score of each one's content. */
  lemma PermutedScores<T>(score: (string, string) -> real, query: string, sections: seq<T>, content: T -> string, r: seq<Ranked<T>>)
    requires multiset(r) == multiset(Scored(score, query, sections, content))
    ensures forall e :: e in r ==> e.importanceRank == score(query, content(e.item))
  {
    var sc := Scored(score, query, sections, content);
    forall e | e in r ensures e.importanceRank == score(query, content(e.item)) {
      assert e in multiset(sc);
      var i :| 0 <= i < |sc| && sc[i] == e;
    }
  }

  /** The score of a section depends on the query and its content alone. */
  lemma ScoreByContent<T>(score: (string, string) -> real, query: string, sections: seq<T>, content: T -> string, i: nat, j: nat)
    requires i < |sections| && j < |sections| && content(sections[i]) == content(sections[j])
    ensures Scored(score, query, sections, content)[i].importanceRank == Scored(score, query, sections, content)[j].importanceRank
  {
  }

  /** The analyst; `score` stands for the sentence-embedding model it loads. */
  class DocumentAnalyst {
    const score: (string, string) -> real

    constructor (score: (string, string) -> real)
      ensures this.score == score
    {
      this.score := score;
    }

    /** `rank_sections(persona_job_text, document_sections)` */
    method RankSections<T>(query: string, sections: seq<T>, content: T -> string) returns (ranked: seq<Ranked<T>>)
      ensures ranked == RankedSections(score, query, sections, content)
    {
      if |sections| == 0 || query == "" {
        return [];
      }
      ranked := [];
      assert sections[..0] == [];
      for i := 0 to |sections|
        invariant ranked == Scored(score, query, sections[..i], content)
      {
        assert sections[..i + 1][..i] == sections[..i];
        ranked := ranked + [Ranked(sections[i], score(query, content(sections[i])))];
      }
      assert sections[..|sections|] == sections;
      ranked := SortBy(ranked, RankGe);
    }
  }
}
