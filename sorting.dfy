/** Python's `list.sort(key=..., reverse=...)` and `sorted(...)`: a stable sort.
    Here it is a stable insertion sort under a comparison `le` (`le(a, b)`: `a` may
    stand before `b`), with the three facts that pin its result down: the output is
    ordered, it is a permutation of the input, and elements that compare equal keep
    their input order. A descending sort with `reverse=True` is the same sort under
    the reversed comparison; Python keeps it stable too. */
module Sorting {

  /** `le` is total and transitive, as every sort key of the core is. */
  ghost predicate TotalPreorder<T(!new)>(le: (T, T) -> bool) {
    && (forall a, b :: le(a, b) || le(b, a))
    && (forall a, b, c :: le(a, b) && le(b, c) ==> le(a, c))
  }

  predicate SortedBy<T>(s: seq<T>, le: (T, T) -> bool) {
    forall i, j :: 0 <= i < j < |s| ==> le(s[i], s[j])
  }

  /** `a` and `b` have equal sort keys. */
  predicate Tied<T>(le: (T, T) -> bool, a: T, b: T) {
    le(a, b) && le(b, a)
  }

  /** Puts `x` after every element of `s` that `x` does not strictly precede. */
  function Insert<T>(s: seq<T>, x: T, le: (T, T) -> bool): (r: seq<T>)
    ensures |r| == |s| + 1
    ensures multiset(r) == multiset(s) + multiset{x}
  {
    if s == [] || le(s[|s| - 1], x) then s + [x]
    else
      assert s == s[..|s| - 1] + [s[|s| - 1]];
      Insert(s[..|s| - 1], x, le) + [s[|s| - 1]]
  }

  /** The stable sort of `s` under `le`. */
  function SortBy<T>(s: seq<T>, le: (T, T) -> bool): (r: seq<T>)
    ensures |r| == |s|
    ensures multiset(r) == multiset(s)
  {
    if s == [] then []
    else
      assert s == s[..|s| - 1] + [s[|s| - 1]];
      Insert(SortBy(s[..|s| - 1], le), s[|s| - 1], le)
  }

  /** The elements of `s` tied with `c`, in their order in `s`. */
  function TiedWith<T>(s: seq<T>, le: (T, T) -> bool, c: T): seq<T> {
    if s == [] then []
    else TiedWith(s[..|s| - 1], le, c) + (if Tied(le, s[|s| - 1], c) then [s[|s| - 1]] else [])
  }

  lemma SortedAppend<T>(s: seq<T>, x: T, le: (T, T) -> bool)
    requires SortedBy(s, le)
    requires forall i :: 0 <= i < |s| ==> le(s[i], x)
    ensures SortedBy(s + [x], le)
  {
  }

  lemma {:induction false} InsertSorted<T(!new)>(s: seq<T>, x: T, le: (T, T) -> bool)
    requires TotalPreorder(le) && SortedBy(s, le)
    ensures SortedBy(Insert(s, x, le), le)
  {
    if s == [] {
    } else if le(s[|s| - 1], x) {
      SortedAppend(s, x, le);
    } else {
      var init, last := s[..|s| - 1], s[|s| - 1];
      InsertSorted(init, x, le);
      var r := Insert(init, x, le);
      forall i | 0 <= i < |r| ensures le(r[i], last) {
        assert r[i] in multiset(init) + multiset{x} by {
          assert r[i] in multiset(r);
        }
        if r[i] != x {
          assert r[i] in init;
          var k :| 0 <= k < |init| && init[k] == r[i];
          assert s[k] == init[k];
        }
      }
      SortedAppend(r, last, le);
    }
  }

  /** Python's sort leaves its list ordered. */
  lemma {:induction false} SortBySorted<T(!new)>(s: seq<T>, le: (T, T) -> bool)
    requires TotalPreorder(le)
    ensures SortedBy(SortBy(s, le), le)
  {
    if s != [] {
      SortBySorted(s[..|s| - 1], le);
      InsertSorted(SortBy(s[..|s| - 1], le), s[|s| - 1], le);
    }
  }

  lemma {:induction false} InsertKeepsTies<T(!new)>(s: seq<T>, x: T, le: (T, T) -> bool, c: T)
    requires TotalPreorder(le) && SortedBy(s, le)
    ensures TiedWith(Insert(s, x, le), le, c) == TiedWith(s, le, c) + (if Tied(le, x, c) then [x] else [])
  {
    if s == [] || le(s[|s| - 1], x) {
      assert (s + [x])[..|s|] == s;
    } else {
      var init, last := s[..|s| - 1], s[|s| - 1];
      assert SortedBy(init, le);
      InsertKeepsTies(init, x, le, c);
      var r := Insert(init, x, le);
      assert (r + [last])[..|r|] == r;
      assert s[..|s| - 1] == init;
      // x and last cannot both be tied with c: that would put last before x.
      if Tied(le, x, c) && Tied(le, last, c) {
        assert false;
      }
      var tx := if Tied(le, x, c) then [x] else [];
      var tl := if Tied(le, last, c) then [last] else [];
      calc {
        TiedWith(Insert(s, x, le), le, c);
        TiedWith(r + [last], le, c);
        TiedWith(r, le, c) + tl;
        TiedWith(init, le, c) + tx + tl;
        { assert tx == [] || tl == []; }
        TiedWith(init, le, c) + tl + tx;
        TiedWith(s, le, c) + tx;
      }
    }
  }

  /** Stability: elements with equal keys come out in the order they went in. */
  lemma {:induction false} SortByStable<T(!new)>(s: seq<T>, le: (T, T) -> bool, c: T)
    requires TotalPreorder(le)
    ensures TiedWith(SortBy(s, le), le, c) == TiedWith(s, le, c)
  {
    if s != [] {
      var init := s[..|s| - 1];
      SortByStable(init, le, c);
      SortBySorted(init, le);
      InsertKeepsTies(SortBy(init, le), s[|s| - 1], le, c);
    }
  }
}
