/**
 * The parts of JavaScript's String.prototype that the parser relies on:
 * `substring` (clamping and swapping its indices) and `split` with a
 * non-empty string separator.
 */
module JsString {
  import opened Wrappers

  /** Clamps an index into [0, n], as `substring` does with its arguments. */
  function Clamp(x: int, n: nat): (r: nat)
    ensures r <= n
    ensures 0 <= x <= n ==> r == x
  {
    if x < 0 then 0 else if x > n then n else x
  }

  /**
   * `s.substring(a, b)`: both indices are clamped to [0, |s|] and swapped
   * when the first exceeds the second.
   */
  function Substring(s: string, a: int, b: int): (r: string)
    ensures 0 <= a <= b <= |s| ==> r == s[a..b]
    ensures 0 <= b <= a <= |s| ==> r == s[b..a]
  {
    var lo, hi := Clamp(a, |s|), Clamp(b, |s|);
    if lo <= hi then s[lo..hi] else s[hi..lo]
  }

  /** The order of the two indices never matters to `substring`. */
  lemma SubstringSymmetric(s: string, a: int, b: int)
    ensures Substring(s, a, b) == Substring(s, b, a)
  {
  }

  /** `sep` occurs in `s` starting at position `i`. */
  predicate OccursAt(s: string, sep: string, i: int)
  {
    0 <= i && i + |sep| <= |s| && s[i..i + |sep|] == sep
  }

  /** `sep` occurs somewhere in `s`. */
  ghost predicate Contains(s: string, sep: string)
  {
    exists i :: OccursAt(s, sep, i)
  }

  /** The first position at or after `from` where `sep` occurs, if any. */
  function IndexOf(s: string, sep: string, from: nat): (r: Option<nat>)
    decreases |s| - from
    ensures r.Some? ==> from <= r.value && OccursAt(s, sep, r.value)
    ensures r.Some? ==> forall j :: from <= j < r.value ==> !OccursAt(s, sep, j)
    ensures r.None? ==> forall j :: from <= j ==> !OccursAt(s, sep, j)
  {
    if from + |sep| > |s| then None
    else if s[from..from + |sep|] == sep then Some(from)
    else IndexOf(s, sep, from + 1)
  }

  /** An occurrence inside a prefix is an occurrence in the whole string. */
  lemma OccursInPrefix(s: string, sep: string, i: nat, j: int)
    requires i <= |s| && OccursAt(s[..i], sep, j)
    ensures OccursAt(s, sep, j)
  {
    assert s[..i][j..j + |sep|] == s[j..j + |sep|];
  }

  /** An occurrence inside a suffix is an occurrence in the whole string. */
  lemma OccursInSuffix(s: string, sep: string, i: nat, j: int)
    requires i <= |s| && OccursAt(s[i..], sep, j)
    ensures OccursAt(s, sep, i + j)
  {
    assert s[i..][j..j + |sep|] == s[i + j..i + j + |sep|];
  }

  /**
   * `s.split(sep)` for a non-empty separator: the pieces between the
   * non-overlapping occurrences of `sep`, found left to right. The empty
   * string splits into one empty piece.
   */
  function Split(s: string, sep: string): (parts: seq<string>)
    requires |sep| > 0
    decreases |s|
    ensures |parts| >= 1
  {
    match IndexOf(s, sep, 0)
    case None => [s]
    case Some(i) => [s[..i]] + Split(s[i + |sep|..], sep)
  }

  /** No piece of a split contains the separator. */
  lemma {:induction false} SplitPiecesFree(s: string, sep: string)
    requires |sep| > 0
    decreases |s|
    ensures forall k :: 0 <= k < |Split(s, sep)| ==> !Contains(Split(s, sep)[k], sep)
  {
    match IndexOf(s, sep, 0)
    case None =>
    case Some(i) =>
      var rest := Split(s[i + |sep|..], sep);
      SplitPiecesFree(s[i + |sep|..], sep);
      assert !Contains(s[..i], sep) by {
        forall j | OccursAt(s[..i], sep, j) ensures false {
          OccursInPrefix(s, sep, i, j);
        }
      }
      assert Split(s, sep) == [s[..i]] + rest;
      forall k | 0 < k < |Split(s, sep)| ensures !Contains(Split(s, sep)[k], sep) {
        assert Split(s, sep)[k] == rest[k - 1];
      }
  }

  /** `parts.join(sep)`. */
  function Join(parts: seq<string>, sep: string): string
    requires |parts| >= 1
  {
    if |parts| == 1 then parts[0] else parts[0] + sep + Join(parts[1..], sep)
  }

  /** Splitting loses nothing: joining the pieces back gives the original. */
  lemma {:induction false} JoinSplit(s: string, sep: string)
    requires |sep| > 0
    decreases |s|
    ensures Join(Split(s, sep), sep) == s
  {
    match IndexOf(s, sep, 0)
    case None =>
    case Some(i) =>
      var rest := Split(s[i + |sep|..], sep);
      JoinSplit(s[i + |sep|..], sep);
      assert Split(s, sep) == [s[..i]] + rest;
      assert ([s[..i]] + rest)[1..] == rest;
      assert s[i..i + |sep|] == sep;
      assert s == s[..i] + s[i..i + |sep|] + s[i + |sep|..];
  }

  /** The number of occurrences of character `c` in `s`. */
  function Count(s: string, c: char): nat
  {
    if s == [] then 0 else (if s[0] == c then 1 else 0) + Count(s[1..], c)
  }

  /** Counting is additive over concatenation. */
  lemma {:induction false} CountAppend(a: string, b: string, c: char)
    ensures Count(a + b, c) == Count(a, c) + Count(b, c)
  {
    if a == [] {
      assert a + b == b;
    } else {
      assert (a + b)[1..] == a[1..] + b;
      CountAppend(a[1..], b, c);
    }
  }

  /** A string in which the one-character separator never occurs has no such character. */
  lemma {:induction false} CountNone(s: string, c: char)
    requires forall j :: !OccursAt(s, [c], j)
    ensures Count(s, c) == 0
  {
    if s != [] {
      assert !OccursAt(s, [c], 0);
      assert s[0..1] == [s[0]];
      forall j ensures !OccursAt(s[1..], [c], j) {
        if OccursAt(s[1..], [c], j) { OccursInSuffix(s, [c], 1, j); }
      }
      CountNone(s[1..], c);
    }
  }

  /** Splitting on a single character yields one more piece than there are such characters. */
  lemma {:induction false} SplitCharCount(s: string, c: char)
    decreases |s|
    ensures |Split(s, [c])| == Count(s, c) + 1
  {
    match IndexOf(s, [c], 0)
    case None =>
      CountNone(s, c);
    case Some(i) =>
      var rest := s[i + 1..];
      SplitCharCount(rest, c);
      assert s[i..i + 1] == [c];
      assert s == s[..i] + [c] + rest;
      CountAppend(s[..i] + [c], rest, c);
      CountAppend(s[..i], [c], c);
      forall j ensures !OccursAt(s[..i], [c], j) {
        if OccursAt(s[..i], [c], j) { OccursInPrefix(s, [c], i, j); }
      }
      CountNone(s[..i], c);
  }
}
