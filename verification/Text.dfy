/**
 The string operations that the Go and TypeScript sources share, over ASCII text: trimming, lower-casing,
 searching, splitting and joining.
 */
module Text {

  predicate IsSpace(c: char) {
    c == ' ' || '\t' <= c <= '\r'
  }

  ghost predicate AllSpace(s: string) {
    forall i :: 0 <= i < |s| ==> IsSpace(s[i])
  }

  /** Neither end of `s` is white space. */
  ghost predicate Trimmed(s: string) {
    s == [] || (!IsSpace(s[0]) && !IsSpace(s[|s| - 1]))
  }

  /** The first position at or after `from` that is not white space. */
  function SkipSpaces(s: string, from: nat): (n: nat)
    requires from <= |s|
    ensures from <= n <= |s| && (n < |s| ==> !IsSpace(s[n]))
    ensures forall i :: from <= i < n ==> IsSpace(s[i])
    decreases |s| - from
  {
    if from < |s| && IsSpace(s[from]) then SkipSpaces(s, from + 1) else from
  }

  /** The end of `s[..to]` once trailing white space is dropped. */
  function DropSpaces(s: string, to: nat): (n: nat)
    requires to <= |s|
    ensures n <= to && (n > 0 ==> !IsSpace(s[n - 1]))
    ensures forall i :: n <= i < to ==> IsSpace(s[i])
  {
    if to > 0 && IsSpace(s[to - 1]) then DropSpaces(s, to - 1) else to
  }

  function Trim(s: string): (r: string)
    ensures Trimmed(r) && |r| <= |s|
  {
    var first, last := SkipSpaces(s, 0), DropSpaces(s, |s|);
    if first < last then s[first..last] else ""
  }

  /** Trimming is determined by its result: strip spaces on both sides until neither end is a space. */
  lemma TrimIs(left: string, core: string, right: string)
    requires AllSpace(left) && AllSpace(right) && Trimmed(core)
    ensures Trim(left + core + right) == core
  {
    var s := left + core + right;
    var first, last := SkipSpaces(s, 0), DropSpaces(s, |s|);
    if core != [] {
      assert s[|left|] == core[0] && s[|left| + |core| - 1] == core[|core| - 1];
      assert first == |left| && last == |left| + |core|;
      assert s[first..last] == core;
    }
  }

  /** What trimming removes: white space on either side. */
  lemma TrimSplits(s: string) returns (left: string, right: string)
    ensures s == left + Trim(s) + right && AllSpace(left) && AllSpace(right)
  {
    hide IsSpace, SkipSpaces, DropSpaces;
    var first, last := SkipSpaces(s, 0), DropSpaces(s, |s|);
    if first < last {
      left, right := s[..first], s[last..];
    } else {
      left, right := s, "";
    }
  }

  lemma TrimOfTrimmed(s: string)
    requires Trimmed(s)
    ensures Trim(s) == s
  {
    TrimIs([], s, []);
    assert [] + s + [] == s;
  }

  function LowerChar(c: char): char {
    if 'A' <= c <= 'Z' then (c as int + 32) as char else c
  }

  function ToLower(s: string): (r: string)
    ensures |r| == |s| && forall i :: 0 <= i < |s| ==> r[i] == LowerChar(s[i])
  {
    seq(|s|, i requires 0 <= i < |s| => LowerChar(s[i]))
  }

  /** White space is the space, tab, line feed, vertical tab, form feed and carriage return; only capitals change. */
  lemma CharClasses(c: char)
    ensures IsSpace(c) <==> c == ' ' || c == '\t' || c == '\n' || c as int == 11 || c as int == 12 || c == '\r'
    ensures 'A' <= c <= 'Z' ==> LowerChar(c) as int == c as int + 32
    ensures !('A' <= c <= 'Z') ==> LowerChar(c) == c
  {
  }

  predicate HasPrefix(s: string, p: string) {
    |p| <= |s| && s[..|p|] == p
  }

  predicate HasSuffix(s: string, p: string) {
    |p| <= |s| && s[|s| - |p|..] == p
  }

  predicate OccursAt(s: string, pat: string, i: nat) {
    i + |pat| <= |s| && s[i..i + |pat|] == pat
  }

  ghost predicate Contains(s: string, pat: string) {
    exists i: nat :: OccursAt(s, pat, i)
  }

  /** The first position at or after `from` where `pat` occurs in `s`, or -1. */
  function Index(s: string, pat: string, from: nat): (r: int)
    requires from <= |s|
    ensures r < 0 ==> r == -1 && forall j: nat :: from <= j ==> !OccursAt(s, pat, j)
    ensures r >= 0 ==> from <= r && OccursAt(s, pat, r) && forall j: nat :: from <= j < r ==> !OccursAt(s, pat, j)
    decreases |s| - from
  {
    if OccursAt(s, pat, from) then from
    else if from == |s| then -1
    else Index(s, pat, from + 1)
  }

  /** The pieces of `s` between the non-overlapping occurrences of `sep`, found from the left. */
  function Split(s: string, sep: string): (parts: seq<string>)
    requires sep != []
    ensures |parts| >= 1
  {
    var i := Index(s, sep, 0);
    if i < 0 then [s] else [s[..i]] + Split(s[i + |sep|..], sep)
  }

  function Join(parts: seq<string>, sep: string): string
    requires |parts| >= 1
  {
    if |parts| == 1 then parts[0] else parts[0] + sep + Join(parts[1..], sep)
  }

  lemma {:induction false} JoinCons(head: string, tail: seq<string>, sep: string)
    requires |tail| >= 1
    ensures Join([head] + tail, sep) == head + sep + Join(tail, sep)
  {
    assert ([head] + tail)[1..] == tail;
  }

  lemma Found(s: string, pat: string, i: nat)
    requires OccursAt(s, pat, i) && forall j: nat :: j < i ==> !OccursAt(s, pat, j)
    ensures Index(s, pat, 0) == i
  {
  }

  lemma ShiftedOccurs(a: string, s: string, pat: string, j: nat)
    ensures OccursAt(a + s, pat, |a| + j) <==> OccursAt(s, pat, j)
  {
    if j + |pat| <= |s| {
      assert (a + s)[|a| + j..|a| + j + |pat|] == s[j..j + |pat|];
    }
  }

  lemma OccursInFront(s: string, tail: string, pat: string, j: nat)
    requires j + |pat| <= |s|
    ensures OccursAt(s + tail, pat, j) <==> OccursAt(s, pat, j)
  {
    assert (s + tail)[j..j + |pat|] == s[j..j + |pat|];
  }

  lemma OccursFits(s: string, pat: string, i: nat)
    requires OccursAt(s, pat, i)
    ensures i + |pat| <= |s| && s == s[..i] + pat + s[i + |pat|..]
  {
  }

  /** One differing character rules out an occurrence. */
  lemma DiffersAt(s: string, pat: string, j: nat, k: nat)
    requires k < |pat| && (j + |pat| <= |s| ==> s[j + k] != pat[k])
    ensures !OccursAt(s, pat, j)
  {
    if j + |pat| <= |s| {
      assert s[j..j + |pat|][k] == s[j + k];
    }
  }

  /** The first occurrence behind text that cannot hold its beginning. */
  lemma IndexBehind(a: string, s: string, pat: string)
    requires pat != "" && pat[0] !in a && Index(s, pat, 0) >= 0
    ensures Index(a + s, pat, 0) == |a| + Index(s, pat, 0)
  {
    hide OccursAt;
    var i := Index(s, pat, 0);
    forall j: nat | j < |a| + i
      ensures !OccursAt(a + s, pat, j)
    {
      if j < |a| {
        DiffersAt(a + s, pat, j, 0);
      } else {
        ShiftedOccurs(a, s, pat, j - |a|);
      }
    }
    ShiftedOccurs(a, s, pat, i);
    Found(a + s, pat, |a| + i);
  }

  /** The first occurrence stays the first when text is added behind. */
  lemma IndexInFront(s: string, tail: string, pat: string)
    requires Index(s, pat, 0) >= 0
    ensures Index(s + tail, pat, 0) == Index(s, pat, 0)
  {
    hide OccursAt;
    var i := Index(s, pat, 0);
    OccursFits(s, pat, i);
    forall j: nat | j < i
      ensures !OccursAt(s + tail, pat, j)
    {
      OccursInFront(s, tail, pat, j);
    }
    OccursInFront(s, tail, pat, i);
    Found(s + tail, pat, i);
  }

  lemma NotInPrefix(s: string, sep: string, i: nat)
    requires i <= |s| && forall j: nat :: j < i ==> !OccursAt(s, sep, j)
    requires sep != []
    ensures !Contains(s[..i], sep)
  {
    forall j: nat
      ensures !OccursAt(s[..i], sep, j)
    {
      if j + |sep| <= i {
        assert s[..i][j..j + |sep|] == s[j..j + |sep|];
        assert !OccursAt(s, sep, j);
      }
    }
  }

  lemma SplitUnfold(s: string, sep: string)
    requires sep != [] && Index(s, sep, 0) >= 0
    ensures var i := Index(s, sep, 0); Split(s, sep) == [s[..i]] + Split(s[i + |sep|..], sep)
  {
  }

  /** Joining the pieces with the separator gives the text back. */
  lemma {:induction false} SplitJoin(s: string, sep: string)
    requires sep != []
    ensures Join(Split(s, sep), sep) == s
  {
    var i := Index(s, sep, 0);
    if i >= 0 {
      hide Split, Join, OccursAt;
      OccursFits(s, sep, i);
      var head, rest := s[..i], s[i + |sep|..];
      SplitUnfold(s, sep);
      JoinCons(head, Split(rest, sep), sep);
      SplitJoin(rest, sep);
    }
  }

  /** No piece holds the separator. */
  lemma {:induction false} SplitPieces(s: string, sep: string, piece: string)
    requires sep != [] && piece in Split(s, sep)
    ensures !Contains(piece, sep)
  {
    var i := Index(s, sep, 0);
    if i >= 0 {
      if piece == s[..i] {
        NotInPrefix(s, sep, i);
      } else {
        SplitPieces(s[i + |sep|..], sep, piece);
      }
    }
  }

  lemma SplitWithout(s: string, sep: string)
    requires sep != [] && !Contains(s, sep)
    ensures Split(s, sep) == [s]
  {
    assert Index(s, sep, 0) < 0 || Contains(s, sep);
  }

  /** A piece that does not hold the separator, nor meets it half way, is split off first. */
  lemma SplitHead(a: string, sep: string, b: string)
    requires sep != []
    requires forall j: nat :: j < |a| ==> !OccursAt(a + sep + b, sep, j)
    ensures Split(a + sep + b, sep) == [a] + Split(b, sep)
  {
    var s := a + sep + b;
    assert s[|a|..|a| + |sep|] == sep;
    assert OccursAt(s, sep, |a|);
    var i := Index(s, sep, 0);
    assert i == |a|;
    assert s[..i] == a;
    assert s[i + |sep|..] == b;
  }

  /** Replacing every occurrence, written as the sources write it: split, then join. */
  function ReplaceAll(s: string, pat: string, with: string): string
    requires pat != []
  {
    Join(Split(s, pat), with)
  }

  lemma ReplaceNone(s: string, pat: string, with: string)
    requires pat != [] && !Contains(s, pat)
    ensures ReplaceAll(s, pat, with) == s
  {
    SplitWithout(s, pat);
  }

  lemma ReplaceOnce(a: string, pat: string, b: string, with: string)
    requires pat != [] && !Contains(b, pat)
    requires forall j: nat :: j < |a| ==> !OccursAt(a + pat + b, pat, j)
    ensures ReplaceAll(a + pat + b, pat, with) == a + with + b
  {
    SplitHead(a, pat, b);
    SplitWithout(b, pat);
    JoinCons(a, [b], with);
  }
}
