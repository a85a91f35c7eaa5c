/**
 * What the closest-breakpoint scanner computes, for any breakpoint list
 * `bps` (the parser's own is `Breakpoints.Table`). An occurrence `s[p..q]`
 * is visible to the scanner only when `q <= |s| - 1`: the count-down over
 * the end index starts at the last index, so a keyword that ends on the
 * last character of the string is never seen.
 */
module Scanner {
  import opened Wrappers
  import opened Breakpoints

  /** The scanner's answer: the span `[start, end)` of a keyword, or none. */
  datatype Span = NotFound | Found(start: nat, end: nat)

  /** A breakpoint occupies `s[p..q]` and the scanner can see it. */
  predicate Visible(bps: seq<string>, s: string, p: int, q: int)
  {
    0 <= p <= q <= |s| - 1 && s[p..q] in bps
  }

  /**
   * The smallest end index `q` in `[e, |s| - 1]` such that `s[i..q]` is a
   * keyword. The scanner's inner loop counts `len` down and keeps the last
   * hit, which is this smallest one.
   */
  function FirstEnd(bps: seq<string>, s: string, i: nat, e: nat): (r: Option<nat>)
    requires i <= e
    decreases |s| - e
    ensures r.Some? ==> e <= r.value <= |s| - 1
  {
    if e > |s| - 1 then None
    else if s[i..e] in bps then Some(e)
    else FirstEnd(bps, s, i, e + 1)
  }

  /** `FirstEnd` finds a keyword, and no shorter one, or reports that there is none. */
  lemma {:induction false} FirstEndSpec(bps: seq<string>, s: string, i: nat, e: nat)
    requires i <= e
    decreases |s| - e
    ensures var r := FirstEnd(bps, s, i, e);
      && (r.Some? ==> s[i..r.value] in bps)
      && (r.Some? ==> forall q :: e <= q < r.value ==> s[i..q] !in bps)
      && (r.None? ==> forall q :: e <= q <= |s| - 1 ==> s[i..q] !in bps)
  {
    if e <= |s| - 1 && s[i..e] !in bps {
      FirstEndSpec(bps, s, i, e + 1);
      var r := FirstEnd(bps, s, i, e + 1);
      assert FirstEnd(bps, s, i, e) == r;
      forall q | e <= q <= |s| - 1 && (r.None? || q < r.value) ensures s[i..q] !in bps {
        if q > e {
          assert e + 1 <= q;
        }
      }
    }
  }

  /**
   * The closest visible keyword at or after position `i`: the earliest start,
   * and among keywords at that start the shortest.
   */
  function Scan(bps: seq<string>, s: string, i: nat): (r: Span)
    decreases |s| - i
    ensures r.Found? ==> i <= r.start <= r.end <= |s| - 1
  {
    if i > |s| - 1 then NotFound
    else match FirstEnd(bps, s, i, i)
      case Some(q) => Found(i, q)
      case None => Scan(bps, s, i + 1)
  }

  /**
   * What `Scan` promises: a found span is a visible keyword, nothing visible
   * starts earlier (from `i`), and no shorter keyword starts at the same
   * place; `NotFound` means no keyword is visible at or after `i`.
   */
  lemma {:induction false} ScanSpec(bps: seq<string>, s: string, i: nat)
    decreases |s| - i
    ensures var r := Scan(bps, s, i);
      && (r.Found? ==> Visible(bps, s, r.start, r.end))
      && (r.Found? ==> forall p, q :: i <= p < r.start && p <= q <= |s| - 1 ==> s[p..q] !in bps)
      && (r.Found? ==> forall q :: r.start <= q < r.end ==> s[r.start..q] !in bps)
      && (r.NotFound? ==> forall p, q :: i <= p <= q <= |s| - 1 ==> s[p..q] !in bps)
  {
    if i <= |s| - 1 {
      FirstEndSpec(bps, s, i, i);
      if FirstEnd(bps, s, i, i).None? {
        ScanSpec(bps, s, i + 1);
        var r := Scan(bps, s, i + 1);
        assert Scan(bps, s, i) == r;
        forall p, q | i <= p <= q <= |s| - 1 && (r.NotFound? || p < r.start)
          ensures s[p..q] !in bps
        {
        }
      }
    }
  }

  /** Every visible occurrence is found: the scanner answers `NotFound` only when there is none. */
  lemma ScanComplete(bps: seq<string>, s: string, i: nat, p: nat, q: nat)
    requires i <= p && Visible(bps, s, p, q)
    ensures Scan(bps, s, i).Found? && Scan(bps, s, i).start <= p
  {
    ScanSpec(bps, s, i);
  }

  /**
   * The answer is unique: a visible occurrence at or after `i` with nothing
   * visible before it and no shorter keyword at its start is what `Scan` returns.
   */
  lemma {:induction false} ScanUnique(bps: seq<string>, s: string, i: nat, p: nat, q: nat)
    requires i <= p && Visible(bps, s, p, q)
    requires forall p', q' :: i <= p' < p && p' <= q' <= |s| - 1 ==> s[p'..q'] !in bps
    requires forall q' :: p <= q' < q ==> s[p..q'] !in bps
    ensures Scan(bps, s, i) == Found(p, q)
  {
    ScanSpec(bps, s, i);
    var r := Scan(bps, s, i);
    assert r.Found?;
  }

  /** Once nothing is found from `i`, nothing is found from any later position. */
  lemma ScanNotFoundLater(bps: seq<string>, s: string, i: nat, j: nat)
    requires Scan(bps, s, i) == NotFound && i <= j
    ensures Scan(bps, s, j) == NotFound
  {
    ScanSpec(bps, s, i);
    ScanSpec(bps, s, j);
  }

  /**
   * There is no word-boundary test: with the parser's own table, the scanner
   * finds `FROM` as the first four letters of the word `FROMAGE`. A keyword
   * followed by a space is not itself a keyword, so the match never takes in
   * the character after the word either.
   */
  lemma NoWordBoundary()
    ensures Scan(Table, "FROMAGE x", 0) == Found(0, 4)
    ensures !IsBreakPoint("FROM ")
  {
    var s := "FROMAGE x";
    assert s[0..4] == "FROM";
    BreakPointIsKeyword("FROM");
    forall q | 0 <= q < 4 ensures s[0..q] !in Table {
      if s[0..q] in Table {
        BreakPointIsKeyword(s[0..q]);
        SingleInitials(s[0..q]);
      }
    }
    ScanUnique(Table, s, 0, 0, 4);
    BreakPointIsKeyword("FROM ");
  }
}
