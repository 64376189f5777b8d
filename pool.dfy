/** `create_diverse_section_pool` of challenge-1b/src/main_1b.py: the best-ranked
    section, then for each keyword category in turn the best-ranked section not yet
    chosen whose lower-cased title contains one of the category's keywords. */
module Pool {
  import opened Seqs
  import opened Text
  import opened Analyst

  /** A record of `all_sections`: document name, 1-based page, heading text and the
      section's content. */
  datatype Section = Section(document: string, pageNumber: int, sectionTitle: string, content: string)

  function Content(s: Section): string {
    s.content
  }

  function Title(r: Ranked<Section>): string {
    r.item.sectionTitle
  }

  /** The keywords of `category_keywords`, in its order: activity, food, place,
      logistics. */
  function Categories(): (cs: seq<seq<string>>)
    ensures |cs| == 4
  {
    [ ["tours", "things to do", "adventures", "sports", "nightlife", "hiking", "shopping", "experiences"],
      ["cuisine", "restaurants", "dishes", "culinary", "wine", "food"],
      ["cities", "city", "marseille", "nice", "avignon", "history", "sites"],
      ["tips", "packing", "hotels", "guide", "introduction", "conclusion", "planning"] ]
  }

  /** `any(keyword in title_lower for keyword in keywords)` */
  predicate Matches(title: string, keywords: seq<string>) {
    exists k :: 0 <= k < |keywords| && Contains(Lower(title), keywords[k])
  }

  /** The titles of the pool: `seen_titles`. */
  function TitleSet(pool: seq<Ranked<Section>>): set<string> {
    set k | 0 <= k < |pool| :: Title(pool[k])
  }

  /** The section may join for `keywords`: its title is unseen and matches. */
  predicate Eligible(r: Ranked<Section>, seen: set<string>, keywords: seq<string>) {
    Title(r) !in seen && Matches(Title(r), keywords)
  }

  /** The index of the first eligible section at or after `from`: the inner loop
      with its `break`. */
  function FirstEligible(ranked: seq<Ranked<Section>>, seen: set<string>, keywords: seq<string>, from: nat): (r: Option<nat>)
    requires from <= |ranked|
    ensures r.None? ==> forall j :: from <= j < |ranked| ==> !Eligible(ranked[j], seen, keywords)
    ensures r.Some? ==> (from <= r.value < |ranked| && Eligible(ranked[r.value], seen, keywords)
      && forall j :: from <= j < r.value ==> !Eligible(ranked[j], seen, keywords))
    decreases |ranked| - from
  {
    if from == |ranked| then None
    else if Eligible(ranked[from], seen, keywords) then Some(from)
    else FirstEligible(ranked, seen, keywords, from + 1)
  }

  /** The pool before the category loop. */
  function TopSection(ranked: seq<Ranked<Section>>): seq<Ranked<Section>> {
    if ranked == [] then [] else [ranked[0]]
  }

  /** The pool once category `c` has been searched. */
  function AddCategory(ranked: seq<Ranked<Section>>, pool: seq<Ranked<Section>>, c: nat): seq<Ranked<Section>>
    requires c < 4
  {
    match FirstEligible(ranked, TitleSet(pool), Categories()[c], 0)
    case None => pool
    case Some(j) => pool + [ranked[j]]
  }

  /** The pool after the first `n` categories. */
  function PoolUpTo(ranked: seq<Ranked<Section>>, n: nat): seq<Ranked<Section>>
    requires n <= 4
  {
    if n == 0 then TopSection(ranked) else AddCategory(ranked, PoolUpTo(ranked, n - 1), n - 1)
  }

  /** What `create_diverse_section_pool(ranked_sections)` returns. */
  function DiversePool(ranked: seq<Ranked<Section>>): seq<Ranked<Section>> {
    PoolUpTo(ranked, 4)
  }

  // ----- properties -----

  /** The pool titles are pairwise distinct. */
  predicate DistinctTitles(pool: seq<Ranked<Section>>) {
    forall k, l :: 0 <= k < l < |pool| ==> Title(pool[k]) != Title(pool[l])
  }

  /** Every entry of the pool is a section of the ranking. */
  predicate FromRanking(pool: seq<Ranked<Section>>, ranked: seq<Ranked<Section>>) {
    forall k :: 0 <= k < |pool| ==> pool[k] in ranked
  }

  /** Invariants of the category loop: at most one entry per category searched, the
      top section first, entries from the ranking with distinct titles. */
  lemma {:induction false} PoolUpToSpec(ranked: seq<Ranked<Section>>, n: nat)
    requires n <= 4
    ensures ranked == [] ==> PoolUpTo(ranked, n) == []
    ensures ranked != [] ==> 1 <= |PoolUpTo(ranked, n)| <= n + 1 && PoolUpTo(ranked, n)[0] == ranked[0]
    ensures DistinctTitles(PoolUpTo(ranked, n))
    ensures FromRanking(PoolUpTo(ranked, n), ranked)
  {
    if n > 0 {
      var pool := PoolUpTo(ranked, n - 1);
      PoolUpToSpec(ranked, n - 1);
      match FirstEligible(ranked, TitleSet(pool), Categories()[n - 1], 0)
      case None =>
      case Some(j) =>
        var pool' := pool + [ranked[j]];
        assert Title(ranked[j]) !in TitleSet(pool);
        forall k, l | 0 <= k < l < |pool'| ensures Title(pool'[k]) != Title(pool'[l]) {
          if l == |pool| {
            assert Title(pool[k]) in TitleSet(pool);
          }
        }
    }
  }

  /** The pool: empty for an empty ranking; otherwise it starts with the best-ranked
      section, has at most five entries, all from the ranking, with pairwise
      distinct titles. */
  lemma DiversePoolSpec(ranked: seq<Ranked<Section>>)
    ensures ranked == [] ==> DiversePool(ranked) == []
    ensures ranked != [] ==> 1 <= |DiversePool(ranked)| <= 5 && DiversePool(ranked)[0] == ranked[0]
    ensures DistinctTitles(DiversePool(ranked))
    ensures FromRanking(DiversePool(ranked), ranked)
  {
    PoolUpToSpec(ranked, 4);
  }

  /** Category `c` adds nothing when no section is eligible, and otherwise exactly
      the best-ranked eligible section: its title is unseen and contains one of the
      category's keywords, and every section ranked above it is seen or matches
      none. */
  lemma CategoryStep(ranked: seq<Ranked<Section>>, c: nat)
    requires c < 4
    ensures var before := PoolUpTo(ranked, c);
      var after := PoolUpTo(ranked, c + 1);
      && ((forall j :: 0 <= j < |ranked| ==> !Eligible(ranked[j], TitleSet(before), Categories()[c])) ==> after == before)
      && (after != before ==> exists j :: (0 <= j < |ranked| && after == before + [ranked[j]]
            && Title(ranked[j]) !in TitleSet(before) && Matches(Title(ranked[j]), Categories()[c])
            && forall i :: 0 <= i < j ==> !Eligible(ranked[i], TitleSet(before), Categories()[c])))
  {
    var before := PoolUpTo(ranked, c);
    match FirstEligible(ranked, TitleSet(before), Categories()[c], 0)
    case None =>
    case Some(j) =>
      assert PoolUpTo(ranked, c + 1) == before + [ranked[j]];
  }

  /** A section whose title contains no keyword joins only as the best-ranked one. */
  lemma UnmatchedOnlyOnTop(ranked: seq<Ranked<Section>>, k: nat)
    requires 1 <= k < |DiversePool(ranked)|
    ensures exists c :: 0 <= c < 4 && Matches(Title(DiversePool(ranked)[k]), Categories()[c])
  {
    PoolEntryMatches(ranked, 4, k);
  }

  lemma {:induction false} PoolEntryMatches(ranked: seq<Ranked<Section>>, n: nat, k: nat)
    requires n <= 4 && 1 <= k < |PoolUpTo(ranked, n)|
    ensures exists c :: 0 <= c < n && Matches(Title(PoolUpTo(ranked, n)[k]), Categories()[c])
  {
    var before := PoolUpTo(ranked, n - 1);
    match FirstEligible(ranked, TitleSet(before), Categories()[n - 1], 0)
    case None =>
      PoolEntryMatches(ranked, n - 1, k);
    case Some(j) =>
      if k < |before| {
        PoolEntryMatches(ranked, n - 1, k);
      } else {
        assert Matches(Title(PoolUpTo(ranked, n)[k]), Categories()[n - 1]);
      }
  }
}
