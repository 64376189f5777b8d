/** Sequence helpers shared by the whole model: first-occurrence de-duplication
    (the key order of a Python dict or Counter), positions and prefixes. */
module Seqs {

  /** A Python value that may be `None`. */
  datatype Option<T> = None | Some(value: T)

  /** No element occurs twice. */
  predicate NoDup<T(==)>(s: seq<T>) {
    forall i, j :: 0 <= i < j < |s| ==> s[i] != s[j]
  }

  /** The distinct elements of `s`, in the order of their first occurrence
      (what `dict.fromkeys(s)` and the key order of a Counter built from `s` give). */
  function Distinct<T(==)>(s: seq<T>): (d: seq<T>)
    ensures NoDup(d)
    ensures |d| <= |s|
  {
    if s == [] then []
    else
      var d := Distinct(s[..|s| - 1]);
      if s[|s| - 1] in d then d else d + [s[|s| - 1]]
  }

  /** Appending an element adds it to the first-occurrence order when it is new. */
  lemma DistinctSnoc<T>(s: seq<T>, x: T)
    ensures Distinct(s + [x]) == if x in Distinct(s) then Distinct(s) else Distinct(s) + [x]
  {
    assert (s + [x])[..|s|] == s;
  }

  /** De-duplication keeps exactly the elements of `s`. */
  lemma {:induction false} InDistinct<T>(s: seq<T>, x: T)
    ensures x in Distinct(s) <==> x in s
  {
    if s != [] {
      InDistinct(s[..|s| - 1], x);
      assert s == s[..|s| - 1] + [s[|s| - 1]];
    }
  }

  /** Position of the first occurrence of `x` in `s`. */
  function IndexOf<T(==)>(s: seq<T>, x: T): (i: nat)
    requires x in s
    ensures i < |s| && s[i] == x && x !in s[..i]
  {
    if s[0] == x then 0 else 1 + IndexOf(s[1..], x)
  }

  /** In a sequence without duplicates an element's position is its only one. */
  lemma IndexOfNoDup<T>(s: seq<T>, i: nat)
    requires NoDup(s) && i < |s|
    ensures IndexOf(s, s[i]) == i
  {
  }

  /** The first-occurrence order of a prefix is a prefix of the first-occurrence order. */
  lemma {:induction false} DistinctPrefix<T>(s: seq<T>, n: nat)
    requires n <= |s|
    ensures |Distinct(s[..n])| <= |Distinct(s)|
    ensures Distinct(s[..n]) == Distinct(s)[..|Distinct(s[..n])|]
    decreases |s| - n
  {
    if n < |s| {
      DistinctPrefix(s, n + 1);
      assert s[..n + 1][..n] == s[..n];
    } else {
      assert s[..n] == s;
    }
  }

  /** Keeping the first occurrence of each element never moves a kept element ahead
      of an earlier one: the position of `x` in the de-duplicated sequence does not
      depend on what follows its first occurrence. */
  lemma DistinctIndexStable<T>(s: seq<T>, n: nat, x: T)
    requires n <= |s| && x in s[..n]
    ensures x in Distinct(s) && x in Distinct(s[..n])
    ensures IndexOf(Distinct(s[..n]), x) == IndexOf(Distinct(s), x)
  {
    DistinctPrefix(s, n);
    InDistinct(s[..n], x);
    var d, dn := Distinct(s), Distinct(s[..n]);
    var k := IndexOf(dn, x);
    assert d[k] == x;
    IndexOfNoDup(d, k);
  }
}
