/**
 * The input normalisation done before parsing: every run of spaces is
 * collapsed into a single space. Only the space character is affected;
 * tabs and newlines are kept as they are.
 */
module Whitespace {

  /** No two adjacent characters of `s` are both spaces. */
  predicate NoDoubleSpace(s: string)
  {
    forall i :: 0 < i < |s| ==> !(s[i - 1] == ' ' && s[i] == ' ')
  }

  /**
   * The effect of replacing `/ +(?= )/g` with the empty string: a space is
   * removed exactly when the next character is also a space, so each run
   * keeps its last space.
   */
  function CollapseSpaces(s: string): (r: string)
    decreases |s|
    ensures |r| <= |s|
    ensures |s| > 0 ==> |r| > 0 && r[0] == s[0]
    ensures NoDoubleSpace(r)
  {
    if |s| <= 1 then s
    else if s[0] == ' ' && s[1] == ' ' then CollapseSpaces(s[1..])
    else [s[0]] + CollapseSpaces(s[1..])
  }

  /** `s` without its leading spaces. */
  function DropSpaces(s: string): (r: string)
    decreases |s|
    ensures |r| <= |s| && (r == [] || r[0] != ' ')
    ensures s != [] && s[0] == ' ' ==> |r| < |s|
  {
    if s != [] && s[0] == ' ' then DropSpaces(s[1..]) else s
  }

  /** Each maximal run of spaces replaced by a single space, read left to right. */
  function Squeeze(s: string): string
    decreases |s|
  {
    if s == [] then []
    else if s[0] == ' ' then [' '] + Squeeze(DropSpaces(s))
    else [s[0]] + Squeeze(s[1..])
  }

  /** A string starting with a space collapses to one space followed by what comes after the run. */
  lemma {:induction false} CollapseSpaceRun(s: string)
    requires s != [] && s[0] == ' '
    decreases |s|
    ensures CollapseSpaces(s) == [' '] + CollapseSpaces(DropSpaces(s))
  {
    if |s| > 1 && s[1] == ' ' {
      CollapseSpaceRun(s[1..]);
    }
  }

  /** Collapsing keeps exactly one space of each run of spaces and every other character. */
  lemma {:induction false} CollapseIsSqueeze(s: string)
    decreases |s|
    ensures CollapseSpaces(s) == Squeeze(s)
  {
    if s != [] {
      if s[0] == ' ' {
        CollapseSpaceRun(s);
        CollapseIsSqueeze(DropSpaces(s));
      } else {
        CollapseIsSqueeze(s[1..]);
      }
    }
  }

  /** The characters of `s` other than spaces, in order. */
  function NonSpaces(s: string): string
  {
    if s == [] then [] else (if s[0] == ' ' then [] else [s[0]]) + NonSpaces(s[1..])
  }

  /** `a` can be obtained from `b` by deleting characters. */
  predicate IsSubsequence(a: string, b: string)
    decreases |b|
  {
    if a == [] then true
    else if b == [] then false
    else if a[0] == b[0] then IsSubsequence(a[1..], b[1..])
    else IsSubsequence(a, b[1..])
  }

  /** Collapsing keeps every non-space character, in order. */
  lemma {:induction false} CollapseKeepsNonSpaces(s: string)
    decreases |s|
    ensures NonSpaces(CollapseSpaces(s)) == NonSpaces(s)
  {
    if |s| > 1 {
      CollapseKeepsNonSpaces(s[1..]);
      if !(s[0] == ' ' && s[1] == ' ') {
        var r := [s[0]] + CollapseSpaces(s[1..]);
        assert r[1..] == CollapseSpaces(s[1..]);
      }
    }
  }

  /** Collapsing only deletes characters: the result is a subsequence of the input. */
  lemma {:induction false} CollapseIsSubsequence(s: string)
    decreases |s|
    ensures IsSubsequence(CollapseSpaces(s), s)
  {
    if |s| <= 1 {
      SubsequenceReflexive(s);
    } else {
      CollapseIsSubsequence(s[1..]);
      var t := CollapseSpaces(s[1..]);
      if s[0] == ' ' && s[1] == ' ' {
        SubsequenceWeaken(t, s[1..], s[0]);
        assert [s[0]] + s[1..] == s;
      } else {
        assert ([s[0]] + t)[1..] == t;
      }
    }
  }

  /** Every string is a subsequence of itself. */
  lemma {:induction false} SubsequenceReflexive(s: string)
    decreases |s|
    ensures IsSubsequence(s, s)
  {
    if s != [] { SubsequenceReflexive(s[1..]); }
  }

  /** A subsequence of `b` is a subsequence of `b` with one more character in front. */
  lemma {:induction false} SubsequenceWeaken(a: string, b: string, c: char)
    requires IsSubsequence(a, b)
    decreases |b|, 1
    ensures IsSubsequence(a, [c] + b)
  {
    assert ([c] + b)[1..] == b;
    if a != [] && a[0] == c {
      SubsequenceDropFirst(a, b);
    }
  }

  /** Dropping the head of a subsequence leaves a subsequence. */
  lemma {:induction false} SubsequenceDropFirst(a: string, b: string)
    requires a != [] && IsSubsequence(a, b)
    decreases |b|, 0
    ensures IsSubsequence(a[1..], b)
  {
    assert [b[0]] + b[1..] == b;
    if a[0] != b[0] {
      SubsequenceDropFirst(a, b[1..]);
    }
    SubsequenceWeaken(a[1..], b[1..], b[0]);
  }

  /** A string is left unchanged exactly when it has no two adjacent spaces. */
  lemma {:induction false} CollapseFixedPoint(s: string)
    decreases |s|
    ensures CollapseSpaces(s) == s <==> NoDoubleSpace(s)
  {
    if |s| > 1 {
      CollapseFixedPoint(s[1..]);
      if s[0] == ' ' && s[1] == ' ' {
        assert |CollapseSpaces(s)| < |s|;
      } else if NoDoubleSpace(s) {
        assert NoDoubleSpace(s[1..]) by {
          forall i | 0 < i < |s[1..]| ensures !(s[1..][i - 1] == ' ' && s[1..][i] == ' ') {
            assert s[1..][i - 1] == s[i] && s[1..][i] == s[i + 1];
          }
        }
      }
    }
  }

  /** Collapsing twice is the same as collapsing once. */
  lemma CollapseIdempotent(s: string)
    ensures CollapseSpaces(CollapseSpaces(s)) == CollapseSpaces(s)
  {
    CollapseFixedPoint(CollapseSpaces(s));
  }
}
