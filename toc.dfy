/** The outline read from the embedded bookmarks (`extract_outline_from_toc`, in
    challenge-1a/app/pdf_utils.py and in the copy challenge-1a/app/main.py uses):
    bookmark depths become H1, H2, ... in the order the depths first appear, and the
    outline is kept only when it has more than two entries. */
module Toc {
  import opened Seqs
  import opened Text
  import opened Layout

  /** The depths of the bookmarks, in order. */
  function Depths(toc: seq<TocEntry>): (ds: seq<int>)
    ensures |ds| == |toc|
    ensures forall i :: 0 <= i < |toc| ==> ds[i] == toc[i].depth
  {
    if toc == [] then [] else Depths(toc[..|toc| - 1]) + [toc[|toc| - 1].depth]
  }

  /** `level_map` after the depths `ds`: each depth, on first sight, gets the next
      level number `len(level_map) + 1`. */
  function LevelMap(ds: seq<int>): map<int, nat> {
    if ds == [] then map[]
    else
      var m := LevelMap(ds[..|ds| - 1]);
      var d := ds[|ds| - 1];
      if d in m then m else m[d := |m| + 1]
  }

  /** The level map gives every depth seen its position, counting from 1, in the
      order of first appearance, and it has one key per distinct depth. */
  lemma {:induction false} LevelMapSpec(ds: seq<int>)
    ensures |LevelMap(ds)| == |Distinct(ds)|
    ensures forall d :: d in LevelMap(ds) <==> d in ds
    ensures forall d :: d in ds ==> d in Distinct(ds) && LevelMap(ds)[d] == IndexOf(Distinct(ds), d) + 1
  {
    if ds != [] {
      var init, d := ds[..|ds| - 1], ds[|ds| - 1];
      LevelMapSpec(init);
      assert ds == init + [d];
      DistinctSnoc(init, d);
      InDistinct(init, d);
      forall e | e in ds ensures e in Distinct(ds) && LevelMap(ds)[e] == IndexOf(Distinct(ds), e) + 1 {
        InDistinct(ds, e);
        if e in init {
          InDistinct(init, e);
          IndexOfPrefix(Distinct(init), Distinct(ds), e);
        } else {
          assert e == d;
          IndexOfNoDup(Distinct(ds), |Distinct(ds)| - 1);
        }
      }
    }
  }

  /** Extending a sequence does not move an element already in it. */
  lemma IndexOfPrefix<T>(s: seq<T>, t: seq<T>, x: T)
    requires x in s && s <= t
    ensures x in t && IndexOf(t, x) == IndexOf(s, x)
  {
    var i := IndexOf(s, x);
    assert t[i] == x;
    assert x !in t[..i] by {
      assert t[..i] == s[..i];
    }
  }

  /** One step of the `level_map` loop over the depths: the map grows by the new
      depth on first sight. */
  lemma LevelMapSnoc(ds: seq<int>, i: nat)
    requires i < |ds|
    ensures LevelMap(ds[..i + 1]) ==
      var m := LevelMap(ds[..i]); if ds[i] in m then m else m[ds[i] := |m| + 1]
  {
    assert ds[..i + 1][..i] == ds[..i];
  }

  /** After that step, the map gives bookmark `i` its level. */
  lemma LevelMapLevel(ds: seq<int>, i: nat)
    requires i < |ds|
    ensures ds[i] in LevelMap(ds[..i + 1]) && LevelMap(ds[..i + 1])[ds[i]] == LevelOf(ds, i)
  {
    assert ds[..i + 1][i] == ds[i];
    LevelMapSpec(ds[..i + 1]);
  }

  /** The level of bookmark `i`: 1 + the position of its depth among the distinct
      depths of the bookmarks up to it, in their order of first appearance. */
  function LevelOf(ds: seq<int>, i: nat): nat
    requires i < |ds|
  {
    InDistinct(ds[..i + 1], ds[i]);
    IndexOf(Distinct(ds[..i + 1]), ds[i]) + 1
  }

  /** One outline entry per bookmark, in order: stripped title, level, page unchanged. */
  function TocEntries(toc: seq<TocEntry>): (r: seq<OutlineEntry>)
    ensures |r| == |toc|
  {
    seq(|toc|, i requires 0 <= i < |toc| => OutlineEntry(Strip(toc[i].title), LevelOf(Depths(toc), i), toc[i].page))
  }

  /** What `extract_outline_from_toc(doc)` returns: None for at most two bookmarks,
      otherwise the entries. */
  function TocOutline(toc: seq<TocEntry>): Option<seq<OutlineEntry>> {
    if |toc| <= 2 then None else Some(TocEntries(toc))
  }

  // ----- properties of the levels -----

  /** A bookmark's level is its depth's position among all distinct depths: later
      bookmarks do not change it. */
  lemma LevelOfWhole(ds: seq<int>, i: nat)
    requires i < |ds|
    ensures ds[i] in Distinct(ds)
    ensures LevelOf(ds, i) == IndexOf(Distinct(ds), ds[i]) + 1
  {
    assert ds[..i + 1][i] == ds[i];
    DistinctIndexStable(ds, i + 1, ds[i]);
  }

  /** The first bookmark is H1. */
  lemma FirstIsH1(toc: seq<TocEntry>)
    requires toc != []
    ensures TocEntries(toc)[0].level == 1
  {
    var ds := Depths(toc);
    assert ds[..1] == [ds[0]];
    assert Distinct(ds[..1]) == [ds[0]] by {
      assert ds[..1][..0] == [];
    }
  }

  /** Every level is at least 1 and at most the number of distinct depths seen up
      to that bookmark. */
  lemma LevelBounds(toc: seq<TocEntry>, i: nat)
    requires i < |toc|
    ensures 1 <= TocEntries(toc)[i].level <= |Distinct(Depths(toc)[..i + 1])|
  {
  }

  /** Two bookmarks share a level exactly when they share a depth. */
  lemma SameLevelSameDepth(toc: seq<TocEntry>, i: nat, j: nat)
    requires i < |toc| && j < |toc|
    ensures TocEntries(toc)[i].level == TocEntries(toc)[j].level <==> toc[i].depth == toc[j].depth
  {
    var ds := Depths(toc);
    LevelOfWhole(ds, i);
    LevelOfWhole(ds, j);
    var d := Distinct(ds);
    if IndexOf(d, ds[i]) == IndexOf(d, ds[j]) {
      assert d[IndexOf(d, ds[i])] == ds[i];
    }
  }

  /** The outline is kept exactly when there are more than two bookmarks, and then
      has one entry per bookmark. */
  lemma TocOutlineSize(toc: seq<TocEntry>)
    ensures TocOutline(toc).Some? <==> |toc| > 2
    ensures TocOutline(toc).Some? ==> |TocOutline(toc).value| == |toc|
  {
  }

  /** The levels of the depths 1, 2, 2, 1. */
  lemma ExampleLevels()
    ensures LevelOf([1, 2, 2, 1], 0) == 1 && LevelOf([1, 2, 2, 1], 1) == 2
    ensures LevelOf([1, 2, 2, 1], 2) == 2 && LevelOf([1, 2, 2, 1], 3) == 1
  {
    var ds := [1, 2, 2, 1];
    assert Distinct([1]) == [1] by { assert [1][..0] == []; }
    assert Distinct([1, 2]) == [1, 2] by { assert [1, 2][..1] == [1]; }
    assert Distinct([1, 2, 2]) == [1, 2] by { assert [1, 2, 2][..2] == [1, 2]; }
    assert Distinct([1, 2, 2, 1]) == [1, 2] by { assert [1, 2, 2, 1][..3] == [1, 2, 2]; }
    assert IndexOf([1], 1) == 0 && IndexOf([1, 2], 1) == 0 && IndexOf([1, 2], 2) == 1;
    assert ds[..1] == [1] && ds[..2] == [1, 2] && ds[..3] == [1, 2, 2] && ds[..4] == ds;
  }

  /** A worked example: bookmark depths 1, 2, 2, 1 give H1, H2, H2, H1. */
  lemma TocExample(toc: seq<TocEntry>)
    requires |toc| == 4 && toc[0].depth == 1 && toc[1].depth == 2 && toc[2].depth == 2 && toc[3].depth == 1
    ensures TocOutline(toc).Some?
    ensures var r := TocOutline(toc).value;
      r[0].level == 1 && r[1].level == 2 && r[2].level == 2 && r[3].level == 1
  {
    var ds := Depths(toc);
    SeqOfFour(ds, 1, 2, 2, 1);
    ExampleLevels();
  }

  lemma SeqOfFour<T>(r: seq<T>, a: T, b: T, c: T, d: T)
    requires |r| == 4 && r[0] == a && r[1] == b && r[2] == c && r[3] == d
    ensures r == [a, b, c, d]
  {
  }
}
