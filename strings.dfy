/** The JavaScript string operations the core relies on (`split`, `join`,
    `indexOf`, `startsWith`, `replace`), with the JavaScript semantics
    for a non-empty separator. */
module Strings {

  /** `pat` occurs in `s` starting at index `k`. */
  predicate OccursAt(s: string, pat: string, k: int) {
    0 <= k && k + |pat| <= |s| && s[k..k + |pat|] == pat
  }

  lemma OccursAtTail(s: string, pat: string, k: nat)
    requires |s| > 0
    ensures OccursAt(s, pat, k + 1) <==> OccursAt(s[1..], pat, k)
  {
    if k + 1 + |pat| <= |s| {
      assert s[1..][k..k + |pat|] == s[k + 1..k + 1 + |pat|];
    }
  }

  /** Index of the first occurrence of `pat` in `s`, or -1 (`s.indexOf(pat)`). */
  function IndexOf(s: string, pat: string): (r: int)
    requires |pat| > 0
    ensures r >= -1
    ensures r >= 0 ==> OccursAt(s, pat, r)
    ensures forall k :: 0 <= k && (r < 0 || k < r) ==> !OccursAt(s, pat, k)
  {
    if |s| < |pat| then -1
    else if s[..|pat|] == pat then 0
    else
      var r := IndexOf(s[1..], pat);
      assert forall k :: 1 <= k ==> (OccursAt(s, pat, k) <==> OccursAt(s[1..], pat, k - 1)) by {
        forall k | 1 <= k ensures OccursAt(s, pat, k) <==> OccursAt(s[1..], pat, k - 1) {
          OccursAtTail(s, pat, k - 1);
        }
      }
      assert !OccursAt(s, pat, 0);
      if r < 0 then -1 else r + 1
  }

  predicate Contains(s: string, pat: string)
    requires |pat| > 0
  {
    IndexOf(s, pat) >= 0
  }

  predicate StartsWith(s: string, prefix: string) {
    |prefix| <= |s| && s[..|prefix|] == prefix
  }

  /** `parts.join(sep)`. */
  function Join(parts: seq<string>, sep: string): string {
    if |parts| == 0 then ""
    else if |parts| == 1 then parts[0]
    else parts[0] + sep + Join(parts[1..], sep)
  }

  /** `s.split(sep)` for a non-empty separator: the pieces between the
      occurrences of `sep`, scanning left to right. */
  function Split(s: string, sep: string): (r: seq<string>)
    requires |sep| > 0
    ensures |r| >= 1
    ensures forall t <- r :: |t| <= |s|
    decreases |s|
  {
    var i := IndexOf(s, sep);
    if i < 0 then [s]
    else [s[..i]] + Split(s[i + |sep|..], sep)
  }

  /** `s.replace(c, "")` with a one-character string pattern: only the
      first occurrence is removed. */
  function RemoveFirst(s: string, c: char): (r: string)
    ensures c !in s ==> r == s
    ensures c in s ==> |r| == |s| - 1
  {
    if |s| == 0 then s
    else if s[0] == c then s[1..]
    else [s[0]] + RemoveFirst(s[1..], c)
  }

  /** `s.replace(new RegExp(c, "g"), "")`: every occurrence is removed. */
  function RemoveAll(s: string, c: char): (r: string)
    ensures c !in r
    ensures |r| <= |s|
  {
    if |s| == 0 then s
    else if s[0] == c then RemoveAll(s[1..], c)
    else [s[0]] + RemoveAll(s[1..], c)
  }

  /** Decimal text of a natural number, as a template literal prints it. */
  function NatToString(n: nat): (r: string)
    ensures |r| >= 1
    ensures forall c <- r :: '0' <= c <= '9'
  {
    var d := "0123456789"[n % 10];
    if n < 10 then [d] else NatToString(n / 10) + [d]
  }

  /** Splitting and joining again with the same separator gives back the string. */
  lemma {:induction false} JoinSplit(s: string, sep: string)
    requires |sep| > 0
    ensures Join(Split(s, sep), sep) == s
    decreases |s|
  {
    var i := IndexOf(s, sep);
    if i >= 0 {
      var rest := s[i + |sep|..];
      JoinSplit(rest, sep);
      SplitFirst(s, sep, i);
      JoinCons(s[..i], Split(rest, sep), sep);
    }
  }

  /** The first piece, the separator found after it, and the rest. */
  lemma SplitFirst(s: string, sep: string, i: int)
    requires |sep| > 0 && i == IndexOf(s, sep) && i >= 0
    ensures i + |sep| <= |s|
    ensures Split(s, sep) == [s[..i]] + Split(s[i + |sep|..], sep)
    ensures s == s[..i] + sep + s[i + |sep|..]
  {
    assert OccursAt(s, sep, i);
    assert s[i..i + |sep|] == sep;
    assert s == s[..i] + s[i..i + |sep|] + s[i + |sep|..];
  }

  lemma JoinCons(head: string, tail: seq<string>, sep: string)
    requires |tail| >= 1
    ensures Join([head] + tail, sep) == head + sep + Join(tail, sep)
  {
    assert ([head] + tail)[1..] == tail;
  }

  /** A string without the separator is a single piece. */
  lemma SplitWithout(s: string, sep: string)
    requires |sep| > 0 && !Contains(s, sep)
    ensures Split(s, sep) == [s]
  {
  }

  /** No proper suffix of `sep` is also a prefix of it (true of "->" and of
      every one-character separator), so an occurrence cannot straddle a
      boundary where `sep` was inserted. */
  predicate Borderless(sep: string) {
    forall m :: 0 < m < |sep| ==> sep[m..] != sep[..|sep| - m]
  }

  /** Two occurrences of `sep` less than `|sep|` apart overlap in a border of `sep`. */
  lemma StraddleIsBorder(s: string, sep: string, i: int, j: int)
    requires OccursAt(s, sep, i) && OccursAt(s, sep, j) && i < j < i + |sep|
    ensures sep[j - i..] == sep[..|sep| - (j - i)]
  {
    var m := j - i;
    assert s[i..i + |sep|][m..] == s[j..i + |sep|];
    assert s[j..j + |sep|][..|sep| - m] == s[j..i + |sep|];
  }

  /** `a + sep + b` with `sep` absent from `a` splits at that occurrence first. */
  lemma {:induction false} SplitAt(a: string, sep: string, b: string)
    requires |sep| > 0 && Borderless(sep) && !Contains(a, sep)
    ensures Split(a + sep + b, sep) == [a] + Split(b, sep)
  {
    var s := a + sep + b;
    assert OccursAt(s, sep, |a|);
    var i := IndexOf(s, sep);
    assert 0 <= i <= |a|;
    if i < |a| {
      assert s[i..i + |sep|] == sep;
      if i + |sep| <= |a| {
        assert a[i..i + |sep|] == s[i..i + |sep|];
        assert OccursAt(a, sep, i);
        assert false;
      } else {
        // the occurrence straddles the end of `a`: `sep` would have a border
        StraddleIsBorder(s, sep, i, |a|);
        assert false;
      }
    }
    assert s[..i] == a;
    assert s[i + |sep|..] == b;
  }
  /** No piece of a split contains the separator. */
  lemma {:induction false} SplitPieces(s: string, sep: string)
    requires |sep| > 0
    ensures forall t <- Split(s, sep) :: !Contains(t, sep)
    decreases |s|
  {
    var i := IndexOf(s, sep);
    if i >= 0 {
      SplitPieces(s[i + |sep|..], sep);
      SplitFirst(s, sep, i);
      HeadHasNoSeparator(s, sep, i);
    }
  }

  /** The text before the first occurrence has no occurrence of its own. */
  lemma HeadHasNoSeparator(s: string, sep: string, i: int)
    requires |sep| > 0 && i == IndexOf(s, sep) && i >= 0
    ensures !Contains(s[..i], sep)
  {
    var head := s[..i];
    var k := IndexOf(head, sep);
    if k >= 0 {
      EarlierOccurrence(s, sep, i, k);
      assert false;
    }
  }

  lemma EarlierOccurrence(s: string, sep: string, i: int, k: int)
    requires |sep| > 0 && 0 <= i <= |s| && OccursAt(s[..i], sep, k)
    ensures OccursAt(s, sep, k) && k < i
  {
    assert s[..i][k..k + |sep|] == s[k..k + |sep|];
  }

  /** A one-character separator is absent from a string without that character. */
  lemma NoCharNoOccurrence(s: string, c: char)
    requires c !in s
    ensures !Contains(s, [c])
  {
    var k := IndexOf(s, [c]);
    if k >= 0 {
      CharAt(s, c, k);
      assert false;
    }
  }

  lemma CharAt(s: string, c: char, k: int)
    requires OccursAt(s, [c], k)
    ensures 0 <= k < |s| && s[k] == c
  {
    assert s[k..k + 1][0] == s[k];
  }

  /** One-character separators have no border. */
  lemma CharBorderless(c: char)
    ensures Borderless([c])
  {
  }

  /** `a + [c] + b` with `c` absent from `a` splits at that `c` first. */
  lemma SplitAtChar(a: string, c: char, b: string)
    requires c !in a
    ensures Split(a + [c] + b, [c]) == [a] + Split(b, [c])
  {
    NoCharNoOccurrence(a, c);
    CharBorderless(c);
    SplitAt(a, [c], b);
  }

  /** A string without the character `c` splits on it into itself. */
  lemma SplitNoChar(s: string, c: char)
    requires c !in s
    ensures Split(s, [c]) == [s]
  {
    NoCharNoOccurrence(s, c);
    SplitWithout(s, [c]);
  }
}
