/**
 * The JavaScript string and array operations the asset code relies on:
 * `indexOf`, `split` and `join` with a literal separator, `replace` with a
 * string pattern (first occurrence only) and a global one-character `replace`.
 * `split` is modelled as JavaScript runs it: a scan of one string by
 * position, each search starting where the last separator ended.
 */
module JsString {
  import opened Options

  /** `pat` occurs in `s` starting at index `i`, character by character. */
  predicate OccursAt(s: string, pat: string, i: int)
  {
    0 <= i && i + |pat| <= |s| && forall k :: 0 <= k < |pat| ==> s[i + k] == pat[k]
  }

  /** An occurrence is the slice of `s` at that index. */
  lemma OccursAtSlice(s: string, pat: string, i: int)
    requires 0 <= i && i + |pat| <= |s|
    ensures OccursAt(s, pat, i) <==> s[i..i + |pat|] == pat
  {
    if OccursAt(s, pat, i) {
      assert forall k :: 0 <= k < |pat| ==> s[i..i + |pat|][k] == pat[k];
    }
  }

  predicate Contains(s: string, pat: string)
  {
    exists i :: 0 <= i <= |s| && OccursAt(s, pat, i)
  }

  /** `r` is a suffix of `s`. */
  predicate IsSuffix(r: string, s: string)
  {
    |r| <= |s| && s[|s| - |r|..] == r
  }

  lemma SuffixOfSuffix(a: string, b: string, c: string)
    requires IsSuffix(a, b) && IsSuffix(b, c)
    ensures IsSuffix(a, c)
  {
    assert c[|c| - |a|..] == c[|c| - |b|..][|b| - |a|..];
  }

  /** A character absent from `s` is absent from each of its suffixes. */
  lemma SuffixKeepsAbsent(r: string, s: string, c: char)
    requires IsSuffix(r, s) && c !in s
    ensures c !in r
  {
    forall i | 0 <= i < |r|
      ensures r[i] != c
    {
      assert r[i] == s[|s| - |r| + i];
    }
  }

  /** `s.indexOf(pat, from)`: the first occurrence of `pat` at or after `from`. */
  function IndexOfFrom(s: string, pat: string, from: nat): (r: Option<nat>)
    ensures r.Some? ==> from <= r.value && OccursAt(s, pat, r.value)
    decreases |s| - from
  {
    if |s| < from + |pat| then None
    else if OccursAt(s, pat, from) then Some(from)
    else IndexOfFrom(s, pat, from + 1)
  }

  /** The search finds the first occurrence at or after `from`, and finds none only when there is none. */
  lemma {:induction false} IndexOfFromFirst(s: string, pat: string, from: nat)
    ensures var r := IndexOfFrom(s, pat, from);
            forall j :: from <= j && (r.None? || j < r.value) ==> !OccursAt(s, pat, j)
    decreases |s| - from
  {
    if |s| >= from + |pat| && !OccursAt(s, pat, from) {
      IndexOfFromFirst(s, pat, from + 1);
    }
  }

  /** `s.indexOf(pat)`: the first occurrence of `pat`, or none at all. */
  function IndexOf(s: string, pat: string): (r: Option<nat>)
    ensures r.Some? ==> OccursAt(s, pat, r.value)
  {
    IndexOfFrom(s, pat, 0)
  }

  /**
   * `indexOf` finds the first occurrence: none comes before the index it
   * returns, and it finds nothing exactly when the pattern does not occur.
   */
  lemma IndexOfFirst(s: string, pat: string)
    ensures IndexOf(s, pat).Some? ==> forall j :: 0 <= j < IndexOf(s, pat).value ==> !OccursAt(s, pat, j)
    ensures IndexOf(s, pat).None? <==> !Contains(s, pat)
  {
    IndexOfFromFirst(s, pat, 0);
    if IndexOf(s, pat).None? {
      assert forall j :: 0 <= j ==> !OccursAt(s, pat, j);
    }
  }

  /** An occurrence in a suffix `s[k..]` is an occurrence in `s`, shifted by `k`. */
  lemma OccursAtShift(s: string, pat: string, k: nat, p: int)
    requires k <= |s| && OccursAt(s[k..], pat, p)
    ensures OccursAt(s, pat, k + p)
  {
    assert s[k + p..k + p + |pat|] == s[k..][p..p + |pat|];
  }

  /** A suffix that starts where `s` holds no more occurrences holds none at all. */
  lemma NoneInTail(s: string, pat: string, k: nat)
    requires k <= |s|
    requires forall j :: k <= j ==> !OccursAt(s, pat, j)
    ensures !Contains(s[k..], pat)
  {
    forall p | 0 <= p <= |s[k..]|
      ensures !OccursAt(s[k..], pat, p)
    {
      if OccursAt(s[k..], pat, p) {
        OccursAtShift(s, pat, k, p);
      }
    }
  }

  /** The pieces of `s.split(sep)` from index `from` on. */
  function SplitFrom(s: string, sep: string, from: nat): (parts: seq<string>)
    requires sep != "" && from <= |s|
    ensures |parts| >= 1
    decreases |s| - from
  {
    match IndexOfFrom(s, sep, from)
    case None => [s[from..]]
    case Some(i) => [s[from..i]] + SplitFrom(s, sep, i + |sep|)
  }

  /**
   * `s.split(sep)` for a non-empty literal separator: the pieces between
   * successive non-overlapping occurrences, scanned from the left.
   */
  function Split(s: string, sep: string): (parts: seq<string>)
    requires sep != ""
    ensures |parts| >= 1
  {
    SplitFrom(s, sep, 0)
  }

  /** `parts.join(sep)`; joining no parts gives the empty string. */
  function Join(parts: seq<string>, sep: string): string
  {
    if |parts| == 0 then ""
    else if |parts| == 1 then parts[0]
    else parts[0] + sep + Join(parts[1..], sep)
  }

  /** `parts.pop()` on a non-empty array: its last element. */
  function Last(parts: seq<string>): string
    requires |parts| >= 1
  {
    parts[|parts| - 1]
  }

  /** Joining a head and a non-empty tail puts the separator between them. */
  lemma JoinCons(parts: seq<string>, head: string, tail: seq<string>, sep: string, rest: string)
    requires |tail| >= 1 && parts == [head] + tail && Join(tail, sep) == rest
    ensures Join(parts, sep) == head + sep + rest
  {
    assert parts[1..] == tail;
  }

  /** Joining the pieces from `from` on with the separator gives back `s[from..]`. */
  lemma {:induction false} JoinSplitFrom(s: string, sep: string, from: nat)
    requires sep != "" && from <= |s|
    ensures Join(SplitFrom(s, sep, from), sep) == s[from..]
    decreases |s| - from
  {
    match IndexOfFrom(s, sep, from)
    case None =>
      assert SplitFrom(s, sep, from) == [s[from..]];
    case Some(i) =>
      var parts, head, tail := SplitFrom(s, sep, from), s[from..i], SplitFrom(s, sep, i + |sep|);
      assert parts == [head] + tail;
      JoinSplitFrom(s, sep, i + |sep|);
      JoinCons(parts, head, tail, sep, s[i + |sep|..]);
      GlueAround(s, sep, from, i);
  }

  /** The text before an occurrence, the occurrence and the text after it make up the whole. */
  lemma GlueAround(s: string, sep: string, a: nat, b: nat)
    requires a <= b && OccursAt(s, sep, b)
    ensures s[a..b] + sep + s[b + |sep|..] == s[a..]
  {
    OccursAtSlice(s, sep, b);
    assert s[a..] == s[a..b] + s[b..b + |sep|] + s[b + |sep|..];
  }

  /** Splitting on a separator and joining with it again gives back the string. */
  lemma JoinSplit(s: string, sep: string)
    requires sep != ""
    ensures Join(Split(s, sep), sep) == s
  {
    JoinSplitFrom(s, sep, 0);
    assert s[0..] == s;
  }

  /** Where the last piece of the split from `from` on begins. */
  function LastStart(s: string, sep: string, from: nat): (k: nat)
    requires sep != "" && from <= |s|
    ensures from <= k <= |s|
    decreases |s| - from
  {
    match IndexOfFrom(s, sep, from)
    case None => from
    case Some(i) => LastStart(s, sep, i + |sep|)
  }

  /** The last piece of the split from `from` on runs from LastStart to the end. */
  lemma {:induction false} LastPieceFrom(s: string, sep: string, from: nat)
    requires sep != "" && from <= |s|
    ensures Last(SplitFrom(s, sep, from)) == s[LastStart(s, sep, from)..]
    decreases |s| - from
  {
    match IndexOfFrom(s, sep, from)
    case None =>
      assert SplitFrom(s, sep, from) == [s[from..]];
    case Some(i) =>
      var tail := SplitFrom(s, sep, i + |sep|);
      assert SplitFrom(s, sep, from) == [s[from..i]] + tail;
      assert Last([s[from..i]] + tail) == Last(tail);
      assert LastStart(s, sep, from) == LastStart(s, sep, i + |sep|);
      LastPieceFrom(s, sep, i + |sep|);
  }

  /** No occurrence of the separator starts at or after LastStart. */
  lemma {:induction false} NoSepAfterLastStart(s: string, sep: string, from: nat)
    requires sep != "" && from <= |s|
    ensures forall j :: LastStart(s, sep, from) <= j ==> !OccursAt(s, sep, j)
    decreases |s| - from
  {
    match IndexOfFrom(s, sep, from)
    case None =>
      assert LastStart(s, sep, from) == from;
      IndexOfFromFirst(s, sep, from);
    case Some(i) =>
      assert LastStart(s, sep, from) == LastStart(s, sep, i + |sep|);
      NoSepAfterLastStart(s, sep, i + |sep|);
  }

  /**
   * LastStart is where the scan began exactly when no separator follows
   * `from`, and otherwise it directly follows an occurrence of the separator.
   */
  lemma {:induction false} LastStartFollowsSep(s: string, sep: string, from: nat)
    requires sep != "" && from <= |s|
    ensures LastStart(s, sep, from) == from <==> IndexOfFrom(s, sep, from).None?
    ensures LastStart(s, sep, from) != from ==>
              from + |sep| <= LastStart(s, sep, from) && OccursAt(s, sep, LastStart(s, sep, from) - |sep|)
    decreases |s| - from
  {
    match IndexOfFrom(s, sep, from)
    case None =>
    case Some(i) =>
      var k := LastStart(s, sep, i + |sep|);
      assert LastStart(s, sep, from) == k;
      LastStartFollowsSep(s, sep, i + |sep|);
      if k == i + |sep| {
        assert OccursAt(s, sep, i);
      }
  }

  /**
   * `s.split(sep).pop()`: when `sep` does not occur it is all of `s`;
   * otherwise `s` is some text, then `sep`, then the piece, and the piece
   * holds no `sep`.
   */
  lemma LastOfSplit(s: string, sep: string)
    requires sep != ""
    ensures var k := LastStart(s, sep, 0);
            Last(Split(s, sep)) == s[k..] && !Contains(s[k..], sep) &&
            (!Contains(s, sep) ==> k == 0) &&
            (Contains(s, sep) ==> |sep| <= k && OccursAt(s, sep, k - |sep|))
  {
    LastPieceFrom(s, sep, 0);
    NoSepAfterLastStart(s, sep, 0);
    LastStartFollowsSep(s, sep, 0);
    IndexOfFirst(s, sep);
    NoneInTail(s, sep, LastStart(s, sep, 0));
  }

  /**
   * `s.split(sep)` with its first piece dropped (`shift`) and the rest joined
   * back with `sep`: everything after the first occurrence, or nothing when
   * there is none.
   */
  lemma SplitDropFirst(s: string, sep: string)
    requires sep != ""
    ensures IndexOf(s, sep).None? ==> Join(Split(s, sep)[1..], sep) == ""
    ensures IndexOf(s, sep).Some? ==>
              Join(Split(s, sep)[1..], sep) == s[IndexOf(s, sep).value + |sep|..]
  {
    match IndexOfFrom(s, sep, 0)
    case None =>
      assert Split(s, sep)[1..] == [];
    case Some(i) =>
      SplitFromStep(s, sep, 0);
      JoinSplitFrom(s, sep, i + |sep|);
  }

  /** One step of the scan: the piece before the next separator, then the pieces after it. */
  lemma SplitFromStep(s: string, sep: string, from: nat)
    requires sep != "" && from <= |s| && IndexOfFrom(s, sep, from).Some?
    ensures var i := IndexOfFrom(s, sep, from).value;
            SplitFrom(s, sep, from)[0] == s[from..i] &&
            SplitFrom(s, sep, from)[1..] == SplitFrom(s, sep, i + |sep|)
  {
  }

  /**
   * When the last character of `sep` occurs nowhere else in it, no occurrence
   * of `sep` can start after an occurrence at `p` that is followed by no
   * further occurrence: the occurrence at `p` is the last one.
   */
  lemma NoLaterOccurrence(s: string, sep: string, p: int)
    requires sep != ""
    requires forall k :: 0 <= k < |sep| - 1 ==> sep[k] != sep[|sep| - 1]
    requires OccursAt(s, sep, p)
    requires forall j :: p + |sep| <= j ==> !OccursAt(s, sep, j)
    ensures forall j :: p < j ==> !OccursAt(s, sep, j)
  {
    forall j | p < j < p + |sep|
      ensures !OccursAt(s, sep, j)
    {
      if j + |sep| <= |s| {
        var k := p + |sep| - 1 - j;
        assert s[j..j + |sep|][k] == s[p..p + |sep|][|sep| - 1];
        assert s[j..j + |sep|][k] != sep[k];
      }
    }
  }

  /** `s.replace(c, '')` with a one-character string pattern: only the first `c` goes. */
  function RemoveFirst(s: string, c: char): (r: string)
    ensures c !in s ==> r == s
    ensures s != "" && s[0] == c ==> r == s[1..]
    ensures c in s ==> |r| == |s| - 1
  {
    if s == "" then ""
    else if s[0] == c then s[1..]
    else [s[0]] + RemoveFirst(s[1..], c)
  }

  /**
   * The character `replace` drops is the first `c` of `s`: given the index
   * of the first `c`, the result is `s` without exactly that character.
   */
  lemma {:induction false} RemoveFirstDropsFirst(s: string, c: char, i: nat)
    requires i < |s| && s[i] == c
    requires forall k :: 0 <= k < i ==> s[k] != c
    ensures RemoveFirst(s, c) == s[..i] + s[i + 1..]
    decreases i
  {
    if i == 0 {
      assert s[..0] + s[1..] == s[1..];
    } else {
      var t := s[1..];
      RemoveFirstDropsFirst(t, c, i - 1);
      assert s[..i] == [s[0]] + t[..i - 1];
      assert s[i + 1..] == t[i..];
      assert [s[0]] + (t[..i - 1] + t[i..]) == ([s[0]] + t[..i - 1]) + t[i..];
    }
  }

  /** `s.replace(/x/g, y)` for single characters `x` and `y`. */
  function ReplaceAll(s: string, x: char, y: char): string
  {
    if s == "" then ""
    else [if s[0] == x then y else s[0]] + ReplaceAll(s[1..], x, y)
  }

  /** Every `x` becomes `y` and every other character stays where it was. */
  lemma {:induction false} ReplaceAllFacts(s: string, x: char, y: char)
    ensures |ReplaceAll(s, x, y)| == |s|
    ensures forall i :: 0 <= i < |s| ==> ReplaceAll(s, x, y)[i] == (if s[i] == x then y else s[i])
  {
    if s != "" {
      ReplaceAllFacts(s[1..], x, y);
    }
  }
}
