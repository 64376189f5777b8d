/** The Python string operations the core relies on: `str.strip`, `str.split`,
    `str.lower`, `in` on strings, `str.join`, and the two regular expressions of
    the core (the list-item prefix of the heading filter and the sentence splitter),
    written out as hand-made matchers. */
module Text {

  /** Python's `str.isspace()` for one character: the ASCII controls 9-13 and 28-31,
      the space, and the Unicode white-space characters. */
  predicate IsSpace(c: char) {
    var n := c as int;
    (9 <= n <= 13) || (28 <= n <= 32) || n == 0x85 || n == 0xA0 || n == 0x1680
    || (0x2000 <= n <= 0x200A) || n == 0x2028 || n == 0x2029 || n == 0x202F
    || n == 0x205F || n == 0x3000
  }

  predicate AllSpace(s: string) {
    forall k :: 0 <= k < |s| ==> IsSpace(s[k])
  }

  /** Number of white-space characters at the start of `s`. */
  function SpaceRun(s: string): (n: nat)
    ensures n <= |s|
    ensures forall i :: 0 <= i < n ==> IsSpace(s[i])
    ensures n < |s| ==> !IsSpace(s[n])
  {
    if s != [] && IsSpace(s[0]) then 1 + SpaceRun(s[1..]) else 0
  }

  /** Number of white-space characters at the end of `s`. */
  function TrailRun(s: string): (n: nat)
    ensures n <= |s|
    ensures forall i :: |s| - n <= i < |s| ==> IsSpace(s[i])
    ensures n < |s| ==> !IsSpace(s[|s| - n - 1])
  {
    if s != [] && IsSpace(s[|s| - 1]) then 1 + TrailRun(s[..|s| - 1]) else 0
  }

  /** `s.lstrip()` */
  function StripLeft(s: string): (r: string)
    ensures r == [] || !IsSpace(r[0])
  {
    s[SpaceRun(s)..]
  }

  /** `s.strip()`: the result is empty exactly when `s` is all white space, and
      otherwise starts and ends with a character that is not white space. */
  function Strip(s: string): (r: string)
    ensures |r| <= |s|
    ensures r == [] <==> AllSpace(s)
    ensures r != [] ==> !IsSpace(r[0]) && !IsSpace(r[|r| - 1])
  {
    var a := SpaceRun(s);
    if a == |s| then []
    else
      var z := TrailRun(s);
      s[a..|s| - z]
  }

  /** White space before a string that does not start with white space is exactly
      the leading run. */
  lemma {:induction false} SpaceRunAt(p: string, t: string)
    requires AllSpace(p) && (t == [] || !IsSpace(t[0]))
    ensures SpaceRun(p + t) == |p|
  {
    if p != [] {
      assert (p + t)[1..] == p[1..] + t;
      SpaceRunAt(p[1..], t);
    }
  }

  /** White space after a string that does not end with white space is exactly the
      trailing run. */
  lemma {:induction false} TrailRunAt(t: string, q: string)
    requires AllSpace(q) && (t == [] || !IsSpace(t[|t| - 1]))
    ensures TrailRun(t + q) == |q|
  {
    if q != [] {
      assert (t + q)[..|t + q| - 1] == t + q[..|q| - 1];
      TrailRunAt(t, q[..|q| - 1]);
    }
  }

  /** `strip()` removes exactly the white space around a string: whatever white space
      surrounds `r`, when `r` itself is empty or has no white space at either end,
      stripping gives back `r`. */
  lemma StripUnique(p: string, r: string, q: string)
    requires AllSpace(p) && AllSpace(q)
    requires r == [] || (!IsSpace(r[0]) && !IsSpace(r[|r| - 1]))
    ensures Strip(p + r + q) == r
  {
    var s := p + r + q;
    if r != [] {
      assert p + r + q == p + (r + q);
      SpaceRunAt(p, r + q);
      TrailRunAt(p + r, q);
      assert s[|p|..|s| - |q|] == r;
    } else {
      assert AllSpace(s) by {
        forall k | 0 <= k < |s| ensures IsSpace(s[k]) {
          if k >= |p| { assert s[k] == q[k - |p|]; }
        }
      }
    }
  }

  /** Every string is its `strip()` with white space on either side. */
  lemma StripSpec(s: string)
    ensures exists a, e :: 0 <= a <= e <= |s| && AllSpace(s[..a]) && s[a..e] == Strip(s) && AllSpace(s[e..])
  {
    var a := SpaceRun(s);
    LeadingSpace(s, a);
    if a < |s| {
      var z := TrailRun(s);
      RunsApart(s, a, z);
      StripBody(s, a, z);
      TrailingSpace(s, z);
    } else {
      assert s[..a] == s;
      assert s[a..a] == [] == Strip(s);
    }
  }

  /** Unless `s` is all white space, its leading and trailing runs do not meet. */
  lemma RunsApart(s: string, a: nat, z: nat)
    requires a == SpaceRun(s) && a < |s| && z == TrailRun(s)
    ensures a + z < |s|
  {
  }

  lemma StripBody(s: string, a: nat, z: nat)
    requires a == SpaceRun(s) && a < |s| && z == TrailRun(s) && a + z < |s|
    ensures Strip(s) == s[a..|s| - z]
  {
  }

  lemma LeadingSpace(s: string, a: nat)
    requires a == SpaceRun(s)
    ensures AllSpace(s[..a])
  {
    forall k | 0 <= k < a ensures IsSpace(s[..a][k]) {
      assert s[..a][k] == s[k];
    }
  }

  lemma TrailingSpace(s: string, z: nat)
    requires z == TrailRun(s)
    ensures AllSpace(s[|s| - z..])
  {
    var tail := s[|s| - z..];
    forall k | 0 <= k < z ensures IsSpace(tail[k]) {
      assert tail[k] == s[|s| - z + k];
    }
  }

  /** Python's `a < b` on strings: code-point lexicographic order, a proper prefix
      first. */
  predicate StrLess(a: string, b: string) {
    if a == [] then b != []
    else if b == [] then false
    else if a[0] != b[0] then a[0] < b[0]
    else StrLess(a[1..], b[1..])
  }

  lemma {:induction false} StrLessIrreflexive(a: string)
    ensures !StrLess(a, a)
  {
    if a != [] { StrLessIrreflexive(a[1..]); }
  }

  lemma {:induction false} StrLessTrichotomy(a: string, b: string)
    ensures a == b || StrLess(a, b) || StrLess(b, a)
    ensures !(StrLess(a, b) && StrLess(b, a))
  {
    if a != [] && b != [] && a[0] == b[0] {
      StrLessTrichotomy(a[1..], b[1..]);
      if a[1..] == b[1..] {
        assert a == [a[0]] + a[1..] && b == [b[0]] + b[1..];
      }
    }
  }

  lemma {:induction false} StrLessTransitive(a: string, b: string, c: string)
    requires StrLess(a, b) && StrLess(b, c)
    ensures StrLess(a, c)
  {
    if a != [] && b != [] && c != [] && a[0] == b[0] && b[0] == c[0] {
      StrLessTransitive(a[1..], b[1..], c[1..]);
    }
  }

  predicate IsAsciiLetter(c: char) {
    ('a' <= c <= 'z') || ('A' <= c <= 'Z')
  }

  /** `re.search(r'[a-zA-Z]', s)` succeeds. */
  predicate HasAsciiLetter(s: string) {
    exists k :: 0 <= k < |s| && IsAsciiLetter(s[k])
  }

  function LowerChar(c: char): char {
    if 'A' <= c <= 'Z' then (c as int + 32) as char else c
  }

  /** `s.lower()`, for the ASCII letters. */
  function Lower(s: string): (r: string)
    ensures |r| == |s|
    ensures forall k :: 0 <= k < |s| ==> r[k] == LowerChar(s[k])
  {
    seq(|s|, k requires 0 <= k < |s| => LowerChar(s[k]))
  }

  /** `needle in hay` for strings: some suffix of `hay` starts with `needle`. */
  predicate Contains(hay: string, needle: string) {
    needle <= hay || (hay != [] && Contains(hay[1..], needle))
  }

  /** Index of the first white-space character of `s`, or `|s|` when there is none. */
  function FirstSpace(s: string): (k: nat)
    ensures k <= |s|
    ensures forall i :: 0 <= i < k ==> !IsSpace(s[i])
    ensures k < |s| ==> IsSpace(s[k])
  {
    if s == [] || IsSpace(s[0]) then 0 else 1 + FirstSpace(s[1..])
  }

  predicate NoSpace(w: string) {
    forall k :: 0 <= k < |w| ==> !IsSpace(w[k])
  }

  /** The characters before the first white space hold none. */
  lemma FirstWordNoSpace(t: string, k: nat)
    requires k == FirstSpace(t)
    ensures NoSpace(t[..k])
  {
    forall i | 0 <= i < k ensures !IsSpace(t[..k][i]) {
      assert t[..k][i] == t[i];
    }
  }

  lemma StripLeftEmpty(s: string)
    ensures StripLeft(s) == [] <==> AllSpace(s)
  {
    var a := SpaceRun(s);
    if a < |s| {
      assert !IsSpace(s[a]);
    }
  }

  lemma PrependWord(w: string, ws: seq<string>)
    requires w != [] && NoSpace(w)
    requires forall i :: 0 <= i < |ws| ==> ws[i] != [] && NoSpace(ws[i])
    ensures forall i :: 0 <= i < |[w] + ws| ==> ([w] + ws)[i] != [] && NoSpace(([w] + ws)[i])
  {
    forall i | 0 <= i < |[w] + ws| ensures ([w] + ws)[i] != [] && NoSpace(([w] + ws)[i]) {
      if i > 0 { assert ([w] + ws)[i] == ws[i - 1]; }
    }
  }

  /** `s.split()` with no separator: the maximal runs of non-white-space characters. */
  function Words(s: string): (ws: seq<string>)
    ensures forall i :: 0 <= i < |ws| ==> ws[i] != [] && NoSpace(ws[i])
    ensures ws == [] <==> AllSpace(s)
    decreases |s|
  {
    var t := StripLeft(s);
    StripLeftEmpty(s);
    if t == [] then []
    else
      var k := FirstSpace(t);
      assert k > 0;
      FirstWordNoSpace(t, k);
      PrependWord(t[..k], Words(t[k..]));
      [t[..k]] + Words(t[k..])
  }

  /** The first white space after a run without white space ends the run. */
  lemma {:induction false} FirstSpaceAt(w: string, q: string)
    requires NoSpace(w) && (q == [] || IsSpace(q[0]))
    ensures FirstSpace(w + q) == |w|
  {
    if w != [] {
      assert (w + q)[1..] == w[1..] + q;
      FirstSpaceAt(w[1..], q);
    }
  }

  /** The first word of `s.split()` is the first maximal run without white space,
      and the rest comes from what follows that run. With `ws == [] <==> AllSpace(s)`
      this determines the words of every string. */
  lemma WordsNext(p: string, w: string, q: string)
    requires AllSpace(p) && w != [] && NoSpace(w) && (q == [] || IsSpace(q[0]))
    ensures Words(p + w + q) == [w] + Words(q)
  {
    var s := p + w + q;
    assert s == p + (w + q);
    SpaceRunAt(p, w + q);
    assert StripLeft(s) == w + q;
    FirstSpaceAt(w, q);
    assert (w + q)[..|w|] == w && (w + q)[|w|..] == q;
  }

  /** The characters of `s` that are not white space, in order. */
  function NonSpace(s: string): (r: string)
    ensures NoSpace(r)
  {
    if s == [] then []
    else (if IsSpace(s[0]) then [] else [s[0]]) + NonSpace(s[1..])
  }

  lemma {:induction false} NonSpaceAppend(a: string, b: string)
    ensures NonSpace(a + b) == NonSpace(a) + NonSpace(b)
  {
    if a != [] {
      var h := if IsSpace(a[0]) then [] else [a[0]];
      assert (a + b)[0] == a[0] && (a + b)[1..] == a[1..] + b;
      assert NonSpace(a + b) == h + NonSpace(a[1..] + b);
      NonSpaceAppend(a[1..], b);
      assert NonSpace(a) == h + NonSpace(a[1..]);
    } else {
      assert a + b == b;
    }
  }

  lemma {:induction false} NonSpaceOfRuns(s: string)
    ensures AllSpace(s) ==> NonSpace(s) == []
    ensures NoSpace(s) ==> NonSpace(s) == s
  {
    if s != [] {
      NonSpaceOfRuns(s[1..]);
    }
  }

  lemma NonSpaceStripLeft(s: string)
    ensures NonSpace(StripLeft(s)) == NonSpace(s)
  {
    var a := SpaceRun(s);
    assert s == s[..a] + s[a..];
    assert AllSpace(s[..a]) by {
      forall k | 0 <= k < a ensures IsSpace(s[..a][k]) {
        assert s[..a][k] == s[k];
      }
    }
    NonSpaceAppend(s[..a], s[a..]);
    NonSpaceOfRuns(s[..a]);
  }

  lemma NonSpaceFirstWord(t: string, k: nat)
    requires k == FirstSpace(t)
    ensures NonSpace(t) == t[..k] + NonSpace(t[k..])
  {
    assert t == t[..k] + t[k..];
    FirstWordNoSpace(t, k);
    NonSpaceAppend(t[..k], t[k..]);
    NonSpaceOfRuns(t[..k]);
  }

  /** Nothing but white space is lost: the words run together are the characters of
      `s` that are not white space, in their order. */
  lemma {:induction false} WordsConcat(s: string)
    ensures Concat(Words(s)) == NonSpace(s)
    decreases |s|
  {
    var t := StripLeft(s);
    NonSpaceStripLeft(s);
    if t != [] {
      var k := FirstSpace(t);
      assert k > 0;
      assert Words(s) == [t[..k]] + Words(t[k..]);
      NonSpaceFirstWord(t, k);
      WordsConcat(t[k..]);
      ConcatCons(t[..k], Words(t[k..]));
    }
  }

  /** `sep.join(parts)` */
  function Join(sep: string, parts: seq<string>): string {
    if |parts| == 0 then ""
    else if |parts| == 1 then parts[0]
    else Join(sep, parts[..|parts| - 1]) + sep + parts[|parts| - 1]
  }

  /** `"".join(parts)` */
  function Concat(parts: seq<string>): (r: string)
    ensures |parts| == 0 ==> r == ""
  {
    if |parts| == 0 then "" else Concat(parts[..|parts| - 1]) + parts[|parts| - 1]
  }

  /** `s.split(c)` for a one-character separator: one more piece than there are
      occurrences of `c`, and no piece contains `c`. */
  function SplitOn(s: string, c: char): (pieces: seq<string>)
    ensures |pieces| >= 1
    ensures forall i :: 0 <= i < |pieces| ==> c !in pieces[i]
  {
    if c !in s then [s]
    else
      var i := FirstIndex(s, c);
      [s[..i]] + SplitOn(s[i + 1..], c)
  }

  function FirstIndex(s: string, c: char): (i: nat)
    requires c in s
    ensures i < |s| && s[i] == c && c !in s[..i]
  {
    if s[0] == c then 0 else 1 + FirstIndex(s[1..], c)
  }

  /** `Join` adds the separator between its first part and the join of the rest. */
  lemma {:induction false} JoinFront(sep: string, x: string, ps: seq<string>)
    requires ps != []
    ensures Join(sep, [x] + ps) == x + sep + Join(sep, ps)
    decreases |ps|
  {
    var n := |ps|;
    if n > 1 {
      var init := ps[..n - 1];
      assert ([x] + ps)[..n] == [x] + init;
      JoinFront(sep, x, init);
    } else {
      assert [x] + ps == [x, ps[0]];
    }
  }

  /** Splitting on `c` and joining with `c` gives back the string. */
  lemma {:induction false} SplitOnJoin(s: string, c: char)
    ensures Join([c], SplitOn(s, c)) == s
    decreases |s|
  {
    if c in s {
      var i := FirstIndex(s, c);
      SplitOnStep(s, c, i);
      SplitOnJoin(s[i + 1..], c);
      JoinFront([c], s[..i], SplitOn(s[i + 1..], c));
      assert s == s[..i] + [c] + s[i + 1..];
    }
  }

  function StripAll(parts: seq<string>): (r: seq<string>)
    ensures |r| == |parts|
    ensures forall i :: 0 <= i < |r| ==> r[i] == Strip(parts[i])
  {
    seq(|parts|, i requires 0 <= i < |parts| => Strip(parts[i]))
  }

  /** The text of a plain block with every line trimmed and the lines run
      together, line by line; `NormalizeLinesJoin` shows it is
      `"".join(line.strip() for line in s.split('\n'))`. */
  function NormalizeLines(s: string): string
    decreases |s|
  {
    if '\n' !in s then Strip(s)
    else
      var i := FirstIndex(s, '\n');
      Strip(s[..i]) + NormalizeLines(s[i + 1..])
  }

  lemma {:induction false} ConcatCons(x: string, parts: seq<string>)
    ensures Concat([x] + parts) == x + Concat(parts)
  {
    if parts == [] {
      assert [x] + parts == [x];
      assert Concat([x]) == Concat([]) + x;
    } else {
      var init := parts[..|parts| - 1];
      ConcatCons(x, init);
      assert ([x] + parts)[..|parts|] == [x] + init;
    }
  }

  lemma StripAllCons(x: string, parts: seq<string>)
    ensures StripAll([x] + parts) == [Strip(x)] + StripAll(parts)
  {
    assert forall i :: 1 <= i < |parts| + 1 ==> ([x] + parts)[i] == parts[i - 1];
  }

  lemma NormalizeLinesStep(s: string, i: nat)
    requires '\n' in s && i == FirstIndex(s, '\n')
    ensures NormalizeLines(s) == Strip(s[..i]) + NormalizeLines(s[i + 1..])
  {
  }

  lemma SplitOnStep(s: string, c: char, i: nat)
    requires c in s && i == FirstIndex(s, c)
    ensures SplitOn(s, c) == [s[..i]] + SplitOn(s[i + 1..], c)
  {
  }

  lemma JoinCons(first: string, pieces: seq<string>, tail: string)
    requires tail == Concat(StripAll(pieces))
    ensures Strip(first) + tail == Concat(StripAll([first] + pieces))
  {
    StripAllCons(first, pieces);
    ConcatCons(Strip(first), StripAll(pieces));
  }

  /** The line-by-line trimming is the join of the stripped pieces of
      `s.split('\n')`. */
  lemma {:induction false} NormalizeLinesJoin(s: string)
    ensures NormalizeLines(s) == Concat(StripAll(SplitOn(s, '\n')))
    decreases |s|
  {
    if '\n' !in s {
      assert Concat([Strip(s)]) == Concat([]) + Strip(s);
    } else {
      var i := FirstIndex(s, '\n');
      NormalizeLinesStep(s, i);
      SplitOnStep(s, '\n', i);
      NormalizeLinesJoin(s[i + 1..]);
      JoinCons(s[..i], SplitOn(s[i + 1..], '\n'), NormalizeLines(s[i + 1..]));
    }
  }

  // ----- the sentence splitter re.split(r'(?<=[.?!])\s+', s) -----

  predicate IsSentenceEnd(c: char) {
    c == '.' || c == '?' || c == '!'
  }

  /** Index `i` starts a match of `(?<=[.?!])\s+`: a white-space character right
      after sentence-ending punctuation. */
  predicate SplitsAt(s: string, i: int) {
    1 <= i < |s| && IsSentenceEnd(s[i - 1]) && IsSpace(s[i])
  }

  /** The first index at or after `from` where the pattern matches, if any. */
  function NextSplit(s: string, from: nat): (r: int)
    requires 1 <= from <= |s|
    ensures r == -1 ==> forall i :: from <= i < |s| ==> !SplitsAt(s, i)
    ensures r != -1 ==> from <= r < |s| && SplitsAt(s, r) && forall i :: from <= i < r ==> !SplitsAt(s, i)
    decreases |s| - from
  {
    if from == |s| then -1
    else if SplitsAt(s, from) then from
    else NextSplit(s, from + 1)
  }

  /** The pattern matches nowhere in `s`. */
  predicate NoSplit(s: string) {
    forall m :: 1 <= m < |s| ==> !SplitsAt(s, m)
  }

  /** `re.split(r'(?<=[.?!])\s+', s)`: the pieces between the white-space runs that
      follow a '.', '?' or '!'. Each match consumes its whole run, so the search
      resumes after it. Every piece but the last ends with the punctuation. */
  function SplitSentences(s: string): (pieces: seq<string>)
    ensures |pieces| >= 1
    ensures forall k :: 0 <= k < |pieces| - 1 ==> pieces[k] != [] && IsSentenceEnd(pieces[k][|pieces[k]| - 1])
    decreases |s|, 1
  {
    if |s| < 1 || NextSplit(s, 1) == -1 then [s]
    else SplitAround(s, NextSplit(s, 1))
  }

  /** The pieces when the first match starts at `i`: the text before it, then the
      pieces of what follows the white-space run starting there. */
  function SplitAround(s: string, i: nat): (pieces: seq<string>)
    requires SplitsAt(s, i)
    ensures |pieces| >= 2
    ensures forall k :: 0 <= k < |pieces| - 1 ==> pieces[k] != [] && IsSentenceEnd(pieces[k][|pieces[k]| - 1])
    decreases |s|, 0
  {
    [s[..i]] + SplitSentences(s[i + SpaceRun(s[i..])..])
  }

  lemma PrefixNoSplit(s: string, i: nat)
    requires i <= |s| && forall m :: 1 <= m < i ==> !SplitsAt(s, m)
    ensures NoSplit(s[..i])
  {
    forall m | 1 <= m < i ensures !SplitsAt(s[..i], m) {
      assert !SplitsAt(s, m);
      assert s[..i][m - 1] == s[m - 1] && s[..i][m] == s[m];
    }
  }

  /** The pattern matches inside no piece. */
  lemma {:induction false} SplitSentencesNoSplit(s: string)
    ensures forall k :: 0 <= k < |SplitSentences(s)| ==> NoSplit(SplitSentences(s)[k])
    decreases |s|
  {
    if |s| >= 1 {
      var i := NextSplit(s, 1);
      if i != -1 {
        var n := SpaceRun(s[i..]);
        SplitSentencesStep(s, i, n);
        PrefixNoSplit(s, i);
        SplitSentencesNoSplit(s[i + n..]);
      }
    }
  }

  lemma {:induction false} NextSplitIs(s: string, from: nat, i: nat)
    requires 1 <= from <= i < |s| && SplitsAt(s, i)
    requires forall m :: from <= m < i ==> !SplitsAt(s, m)
    ensures NextSplit(s, from) == i
    decreases i - from
  {
    if from < i {
      NextSplitIs(s, from + 1, i);
    }
  }

  lemma {:induction false} NextSplitNone(s: string, from: nat)
    requires 1 <= from <= |s| && NoSplit(s)
    ensures NextSplit(s, from) == -1
    decreases |s| - from
  {
    if from < |s| {
      NextSplitNone(s, from + 1);
    }
  }

  /** A string in which the pattern matches nowhere is one piece. */
  lemma SplitSentencesLast(s: string)
    requires NoSplit(s)
    ensures SplitSentences(s) == [s]
  {
    if |s| >= 1 {
      NextSplitNone(s, 1);
    }
  }

  /** When the first match is at `i` (a '.', '?' or '!' at `i - 1` followed by
      white space, with no match before) and the white-space run there has length
      `n`, the first piece is `s[..i]`, the run is consumed, and the other pieces
      are those of `s[i + n..]`. With `SplitSentencesLast` this determines the
      pieces of every string. */
  lemma SplitSentencesNext(s: string, i: nat, n: nat)
    requires 1 <= i && 0 < n && i + n <= |s| && IsSentenceEnd(s[i - 1])
    requires forall m :: 1 <= m < i ==> !SplitsAt(s, m)
    requires forall m :: i <= m < i + n ==> IsSpace(s[m])
    requires i + n < |s| ==> !IsSpace(s[i + n])
    ensures SplitSentences(s) == [s[..i]] + SplitSentences(s[i + n..])
  {
    assert SplitsAt(s, i);
    NextSplitIs(s, 1, i);
    SpaceRunFrom(s, i, n);
    SplitSentencesStep(s, i, n);
  }

  /** The white-space run starting at `i` has length `n`. */
  lemma {:induction false} SpaceRunFrom(s: string, i: nat, n: nat)
    requires i + n <= |s| && (forall m :: i <= m < i + n ==> IsSpace(s[m]))
    requires i + n < |s| ==> !IsSpace(s[i + n])
    ensures SpaceRun(s[i..]) == n
    decreases n
  {
    if n > 0 {
      assert s[i..][0] == s[i];
      assert s[i..][1..] == s[i + 1..];
      SpaceRunFrom(s, i + 1, n - 1);
    } else if i < |s| {
      assert s[i..][0] == s[i];
    }
  }

  lemma SplitSentencesStep(s: string, i: nat, n: nat)
    requires |s| >= 1 && NextSplit(s, 1) == i && n == SpaceRun(s[i..])
    ensures SplitSentences(s) == [s[..i]] + SplitSentences(s[i + n..])
  {
    SplitFirst(s, i);
    SplitAroundStep(s, i, n);
  }

  lemma SplitFirst(s: string, i: nat)
    requires |s| >= 1 && NextSplit(s, 1) == i
    ensures SplitSentences(s) == SplitAround(s, i)
  {
  }

  lemma SplitAroundStep(s: string, i: nat, n: nat)
    requires SplitsAt(s, i) && n == SpaceRun(s[i..])
    ensures SplitAround(s, i) == [s[..i]] + SplitSentences(s[i + n..])
  {
  }

  // ----- the list-item prefix ^\s*((?:[IVXLCDM]+\b)|(?:[A-Z]\b)|(?:\d+(?:\.\d+)))\s[.\)] -----

  /** `[IVXLCDM]` under `re.IGNORECASE`: the Roman-numeral letters in either case,
      and the two non-ASCII letters that fold to 'i'. */
  predicate IsRomanLetter(c: char) {
    c in "IVXLCDMivxlcdm" || c as int == 0x130 || c as int == 0x131
  }

  /** `[A-Z]` under `re.IGNORECASE`: the 52 ASCII letters and the four non-ASCII
      letters that Python folds onto them. */
  predicate IsFoldedLetter(c: char) {
    IsAsciiLetter(c) || c as int == 0x130 || c as int == 0x131 || c as int == 0x17F || c as int == 0x212A
  }

  predicate IsDigit(c: char) {
    '0' <= c <= '9'
  }

  predicate AllDigits(s: string) {
    forall k :: 0 <= k < |s| ==> IsDigit(s[k])
  }

  /** The word matches one alternative of the group: Roman letters, one letter, or
      a decimal number `\d+\.\d+`. */
  predicate IsListMarker(w: string) {
    (w != [] && forall k :: 0 <= k < |w| ==> IsRomanLetter(w[k]))
    || (|w| == 1 && IsFoldedLetter(w[0]))
    || (exists k :: 0 < k < |w| - 1 && w[k] == '.' && AllDigits(w[..k]) && AllDigits(w[k + 1..]))
  }

  /** `prefix_regex.match(text)` succeeds. After the leading white space the group
      can only end where the first white-space character starts (the group holds no
      white space and must be followed by one), and then '.' or ')' must follow.
      The word boundary after a letter is then always met. */
  predicate HasListPrefix(text: string) {
    var t := StripLeft(text);
    var k := FirstSpace(t);
    k + 1 < |t| && (t[k + 1] == '.' || t[k + 1] == ')') && IsListMarker(t[..k])
  }
}
