/**
 * What the segmenter (`createExpression`) does with a normalised string: the
 * clauses it dispatches, in order, and the expression that results.
 */
module Segmenter {
  import opened Wrappers
  import opened JsString
  import opened Breakpoints
  import opened Scanner
  import opened Expression

  /** A dispatched clause: the keyword at `s[start..end]` and the content handed to it. */
  datatype Clause = Clause(start: nat, end: nat, keyword: string, content: string)

  /**
   * Where a dispatched clause lies in the string: its keyword is
   * `substring(start, end)` and its content `substring(end + 1, stop)`.
   */
  datatype Cut = Cut(start: nat, end: nat, stop: int)

  /** The clause a cut of `s` stands for, read with `substring` as the loop reads it. */
  function ClauseAt(s: string, c: Cut): Clause
  {
    Clause(c.start, c.end, Substring(s, c.start, c.end), Substring(s, c.end + 1, c.stop))
  }

  /** The clauses a list of cuts of `s` stands for, in the same order. */
  function Materialize(s: string, cuts: seq<Cut>): (cs: seq<Clause>)
    decreases |cuts|
    ensures |cs| == |cuts|
  {
    if cuts == [] then [] else [ClauseAt(s, cuts[0])] + Materialize(s, cuts[1..])
  }

  /** The `k`-th clause is the one the `k`-th cut stands for. */
  lemma {:induction false} MaterializeIndex(s: string, cuts: seq<Cut>)
    decreases |cuts|
    ensures forall k :: 0 <= k < |cuts| ==> Materialize(s, cuts)[k] == ClauseAt(s, cuts[k])
  {
    if cuts != [] {
      MaterializeIndex(s, cuts[1..]);
    }
  }

  /** Reading two runs of cuts one after the other reads them together. */
  lemma {:induction false} MaterializeAppend(s: string, a: seq<Cut>, b: seq<Cut>)
    decreases |a|
    ensures Materialize(s, a + b) == Materialize(s, a) + Materialize(s, b)
  {
    if a == [] {
      assert a + b == b;
    } else {
      assert (a + b)[1..] == a[1..] + b;
      MaterializeAppend(s, a[1..], b);
    }
  }

  /**
   * Where the content of a keyword ending at `q` stops: one before the next
   * keyword the scanner finds from `q + 1`, or the end of the string.
   */
  function StopAfter(bps: seq<string>, s: string, q: nat): int
  {
    match Scan(bps, s, q + 1)
    case Found(p2, _) => p2 - 1
    case NotFound => |s|
  }

  /**
   * The content handed to a keyword ending at `q`: `substring(q + 1, p2 - 1)`
   * when the scanner finds a next keyword at `p2` from `q + 1`, otherwise
   * `substring(q + 1, length)`.
   */
  function ContentAfter(bps: seq<string>, s: string, q: nat): string
  {
    Substring(s, q + 1, StopAfter(bps, s, q))
  }

  /** Each clause's keyword is visible at or after `idx` and is the text it spans. */
  predicate SpansFrom(bps: seq<string>, s: string, idx: nat, cs: seq<Clause>)
  {
    forall k :: 0 <= k < |cs| ==>
      && idx <= cs[k].start && Visible(bps, s, cs[k].start, cs[k].end)
      && cs[k].keyword == s[cs[k].start..cs[k].end]
      && cs[k].content == ContentAfter(bps, s, cs[k].end)
  }

  /** Each clause's keyword starts after the previous keyword ends. */
  predicate LeftToRight(cs: seq<Clause>)
  {
    forall j, k :: 0 <= j < k < |cs| ==> cs[j].end < cs[k].start
  }

  /**
   * The cuts the loop makes when its index is `idx`. A keyword at `[p, q)`
   * gets the content up to `p2 - 1`, where `p2` starts the next keyword the
   * scanner finds from `q + 1`, or everything from `q + 1` on when there is
   * none. After a non-final keyword the loop resumes at `q + 2` (the index
   * is set to `q + 1`, then the `for` loop increments it).
   */
  function Cuts(bps: seq<string>, s: string, idx: nat): (cuts: seq<Cut>)
    decreases |s| + 2 - idx
    ensures cuts == [] <==> Scan(bps, s, idx) == NotFound
    ensures cuts != [] ==> Scan(bps, s, idx) == Found(cuts[0].start, cuts[0].end)
  {
    if idx >= |s| then []
    else match Scan(bps, s, idx)
      case NotFound => []
      case Found(p, q) => [Cut(p, q, StopAfter(bps, s, q))] + Rest(bps, s, q)
  }

  /** The cuts after a keyword ending at `q`: those from `q + 2` when the scanner finds another keyword from `q + 1`, else none. */
  function Rest(bps: seq<string>, s: string, q: nat): seq<Cut>
    decreases |s| + 1 - q
  {
    if q + 1 < |s| && Scan(bps, s, q + 1).Found? then Cuts(bps, s, q + 2) else []
  }

  /** The clauses dispatched when the loop index is `idx`. */
  function Clauses(bps: seq<string>, s: string, idx: nat): (cs: seq<Clause>)
    ensures cs == [] <==> Scan(bps, s, idx) == NotFound
    ensures cs != [] ==> Scan(bps, s, idx) == Found(cs[0].start, cs[0].end)
  {
    Materialize(s, Cuts(bps, s, idx))
  }

  /** Each cut is a visible keyword at or after `idx`, with its content stopping where the loop stops it. */
  predicate CutsFrom(bps: seq<string>, s: string, idx: nat, cuts: seq<Cut>)
  {
    forall k :: 0 <= k < |cuts| ==>
      idx <= cuts[k].start && Visible(bps, s, cuts[k].start, cuts[k].end) && cuts[k].stop == StopAfter(bps, s, cuts[k].end)
  }

  /** Each cut's keyword starts after the previous keyword ends. */
  predicate CutsOrdered(cuts: seq<Cut>)
  {
    forall j, k :: 0 <= j < k < |cuts| ==> cuts[j].end < cuts[k].start
  }

  /** Every cut the loop makes is a visible keyword at or after `idx`, and the cuts come left to right. */
  lemma {:induction false} CutsSpec(bps: seq<string>, s: string, idx: nat)
    decreases |s| - idx
    ensures CutsFrom(bps, s, idx, Cuts(bps, s, idx)) && CutsOrdered(Cuts(bps, s, idx))
  {
    if Scan(bps, s, idx).Found? {
      var p, q := Scan(bps, s, idx).start, Scan(bps, s, idx).end;
      ScanSpec(bps, s, idx);
      CutsStep(bps, s, idx, p, q);
      var rest := Rest(bps, s, q);
      if Scan(bps, s, q + 1).Found? {
        CutsSpec(bps, s, q + 2);
      }
      PrependCut(bps, s, idx, Cut(p, q, StopAfter(bps, s, q)), rest);
    }
  }

  /** A keyword found at `[p, q)` is cut with its content, and the cuts after it follow. */
  lemma CutsStep(bps: seq<string>, s: string, idx: nat, p: nat, q: nat)
    requires Scan(bps, s, idx) == Found(p, q)
    ensures Cuts(bps, s, idx) == [Cut(p, q, StopAfter(bps, s, q))] + Rest(bps, s, q)
  {
    assert idx < |s|;
  }

  /** A cut put in front of later ones that start past its keyword. */
  lemma PrependCut(bps: seq<string>, s: string, idx: nat, c: Cut, rest: seq<Cut>)
    requires idx <= c.start && Visible(bps, s, c.start, c.end) && c.stop == StopAfter(bps, s, c.end)
    requires CutsFrom(bps, s, c.end + 2, rest) && CutsOrdered(rest)
    ensures CutsFrom(bps, s, idx, [c] + rest) && CutsOrdered([c] + rest)
  {
    var cuts := [c] + rest;
    forall k | 0 < k < |cuts| ensures cuts[k] == rest[k - 1] {
    }
  }

  /** The scanner's answer that a list of cuts starts with: its first keyword, or nothing when it is empty. */
  function Head(cuts: seq<Cut>): Span
  {
    if cuts == [] then NotFound else Found(cuts[0].start, cuts[0].end)
  }

  /** From each cut's end plus two, the scanner finds the next cut, and nothing after the last one. */
  predicate Chained(bps: seq<string>, s: string, cuts: seq<Cut>)
    decreases |cuts|
  {
    cuts != [] ==> Scan(bps, s, cuts[0].end + 2) == Head(cuts[1..]) && Chained(bps, s, cuts[1..])
  }

  /**
   * Which keywords are cut: the first is the scanner's answer from `idx`
   * (see `Cuts`), and after the cut at `[start, end)` the next one is what
   * the scanner finds from `end + 2`, and after the last one it finds nothing.
   */
  lemma {:induction false} CutsNext(bps: seq<string>, s: string, idx: nat)
    decreases |s| - idx
    ensures Chained(bps, s, Cuts(bps, s, idx))
  {
    if Scan(bps, s, idx).Found? {
      var p, q := Scan(bps, s, idx).start, Scan(bps, s, idx).end;
      CutsStep(bps, s, idx, p, q);
      if Scan(bps, s, q + 1).Found? {
        CutsNext(bps, s, q + 2);
      }
      ChainStep(bps, s, q);
      assert ([Cut(p, q, StopAfter(bps, s, q))] + Rest(bps, s, q))[1..] == Rest(bps, s, q);
    }
  }

  /** The cuts after a keyword ending at `q` start where the scanner lands from `q + 2`. */
  lemma ChainStep(bps: seq<string>, s: string, q: nat)
    ensures Scan(bps, s, q + 2) == Head(Rest(bps, s, q))
  {
    if Scan(bps, s, q + 1).NotFound? {
      ScanNotFoundLater(bps, s, q + 1, q + 2);
    }
  }

  /** Position `p` starts inside one of the cut keywords or in the two characters right after it. */
  predicate Covered(cuts: seq<Cut>, p: nat)
  {
    exists k :: 0 <= k < |cuts| && cuts[k].start <= p < cuts[k].end + 2
  }

  /**
   * No visible keyword is skipped unless it starts inside a cut keyword or
   * in the two characters right after one (the loop resumes at `end + 2`).
   */
  lemma {:induction false} CutsComplete(bps: seq<string>, s: string, idx: nat, p: nat, q: nat)
    requires idx <= p && Visible(bps, s, p, q)
    decreases |s| + 2 - idx
    ensures Covered(Cuts(bps, s, idx), p)
  {
    ScanComplete(bps, s, idx, p, q);
    var p0, q0 := Scan(bps, s, idx).start, Scan(bps, s, idx).end;
    CutsStep(bps, s, idx, p0, q0);
    if p >= q0 + 2 {
      RestCovered(bps, s, q0, p, q);
    }
    PrependCovered(Cut(p0, q0, StopAfter(bps, s, q0)), Rest(bps, s, q0), p);
  }

  /** A visible keyword from `q + 2` on is covered by the cuts after a keyword ending at `q`. */
  lemma {:induction false} RestCovered(bps: seq<string>, s: string, q0: nat, p: nat, q: nat)
    requires q0 + 2 <= p && Visible(bps, s, p, q)
    decreases |s| + 1 - q0
    ensures Covered(Rest(bps, s, q0), p)
  {
    ScanComplete(bps, s, q0 + 1, p, q);
    CutsComplete(bps, s, q0 + 2, p, q);
  }

  /** A cut put in front keeps covered what the later cuts cover, and covers its own span. */
  lemma PrependCovered(c: Cut, rest: seq<Cut>, p: nat)
    requires c.start <= p
    requires p >= c.end + 2 ==> Covered(rest, p)
    ensures Covered([c] + rest, p)
  {
    var cuts := [c] + rest;
    if p < c.end + 2 {
      assert cuts[0] == c;
    } else {
      var k :| 0 <= k < |rest| && rest[k].start <= p < rest[k].end + 2;
      assert cuts[k + 1] == rest[k];
    }
  }

  /**
   * Every dispatched clause is a visible keyword at or after `idx`, with the
   * content the segmenter hands it, and the clauses come left to right.
   */
  lemma ClausesSpec(bps: seq<string>, s: string, idx: nat)
    ensures SpansFrom(bps, s, idx, Clauses(bps, s, idx)) && LeftToRight(Clauses(bps, s, idx))
  {
    var cuts := Cuts(bps, s, idx);
    var cs := Clauses(bps, s, idx);
    CutsSpec(bps, s, idx);
    MaterializeIndex(s, cuts);
    forall k | 0 <= k < |cs|
      ensures cs[k].start == cuts[k].start && cs[k].end == cuts[k].end
      ensures cs[k].keyword == s[cs[k].start..cs[k].end] && cs[k].content == ContentAfter(bps, s, cs[k].end)
    {
      assert cs[k] == ClauseAt(s, cuts[k]);
    }
  }

  /** The scanner's answer that a list of clauses starts with: its first keyword, or nothing when it is empty. */
  function HeadClause(cs: seq<Clause>): Span
  {
    if cs == [] then NotFound else Found(cs[0].start, cs[0].end)
  }

  /** From each clause's keyword end plus two, the scanner finds the next clause's keyword, and nothing after the last one. */
  predicate ClausesChained(bps: seq<string>, s: string, cs: seq<Clause>)
    decreases |cs|
  {
    cs != [] ==> Scan(bps, s, cs[0].end + 2) == HeadClause(cs[1..]) && ClausesChained(bps, s, cs[1..])
  }

  /**
   * Which clauses are dispatched: the first is the scanner's answer from
   * `idx` (see `Clauses`); each next one is its answer from the previous
   * keyword's `end + 2`, and after the last one the scanner finds nothing.
   */
  lemma ClausesNext(bps: seq<string>, s: string, idx: nat)
    ensures ClausesChained(bps, s, Clauses(bps, s, idx))
  {
    CutsNext(bps, s, idx);
    MaterializeChained(bps, s, Cuts(bps, s, idx));
  }

  /** `Chained` cuts stand for `ClausesChained` clauses. */
  lemma {:induction false} MaterializeChained(bps: seq<string>, s: string, cuts: seq<Cut>)
    requires Chained(bps, s, cuts)
    decreases |cuts|
    ensures ClausesChained(bps, s, Materialize(s, cuts))
  {
    if cuts != [] {
      MaterializeChained(bps, s, cuts[1..]);
      var cs := Materialize(s, cuts);
      assert cs[1..] == Materialize(s, cuts[1..]);
      assert HeadClause(cs[1..]) == Head(cuts[1..]);
    }
  }

  /**
   * Every keyword the scanner can see at or after `idx` is dispatched, unless
   * it starts inside a dispatched keyword or in the two characters right
   * after one.
   */
  lemma ClausesComplete(bps: seq<string>, s: string, idx: nat, p: nat, q: nat)
    requires idx <= p && Visible(bps, s, p, q)
    ensures exists k :: 0 <= k < |Clauses(bps, s, idx)| && Clauses(bps, s, idx)[k].start <= p < Clauses(bps, s, idx)[k].end + 2
  {
    var cuts := Cuts(bps, s, idx);
    CutsComplete(bps, s, idx, p, q);
    MaterializeIndex(s, cuts);
    var k :| 0 <= k < |cuts| && cuts[k].start <= p < cuts[k].end + 2;
    assert Clauses(bps, s, idx)[k] == ClauseAt(s, cuts[k]);
  }

  /** Dispatching one clause: its keyword and content go through `populateByBreakpoint`. */
  function Apply(e: Expr, c: Clause): Expr
  {
    Populate(e, c.keyword, c.content)
  }

  /** Dispatch the clauses one after the other, left to right. */
  function ApplyAll(e: Expr, cs: seq<Clause>): Expr
    decreases |cs|
  {
    if cs == [] then e else ApplyAll(Apply(e, cs[0]), cs[1..])
  }

  /**
   * One pass of the loop from `idx`: the cut it makes, if the scanner finds
   * a keyword, and the index the next pass starts from.
   */
  function Pass(bps: seq<string>, s: string, idx: nat): (r: (Option<Cut>, nat))
    ensures idx < |s| ==> idx < r.1 <= |s| + 1
  {
    match Scan(bps, s, idx)
    case NotFound => (None, idx + 1)
    case Found(p, q) => PassAt(bps, s, p, q)
  }

  /**
   * The rest of a pass once a keyword is found at `[p, q)`: its content runs
   * up to the next keyword the scanner finds from `q + 1`, and the next pass
   * starts at `q + 2`; it runs to the end of the string when there is none,
   * and the loop ends.
   */
  function PassAt(bps: seq<string>, s: string, p: nat, q: nat): (r: (Option<Cut>, nat))
    requires q < |s|
    ensures r.0.Some? && r.0.value.start == p && r.0.value.end == q && q < r.1 <= |s| + 1
  {
    match Scan(bps, s, q + 1)
    case Found(p2, _) => (Some(Cut(p, q, p2 - 1)), q + 2)
    case NotFound => (Some(Cut(p, q, |s|)), |s| + 1)
  }

  /** The cuts an optional cut stands for. */
  function Emitted(c: Option<Cut>): (cuts: seq<Cut>)
    ensures |cuts| == (if c.Some? then 1 else 0)
  {
    match c
    case None => []
    case Some(c) => [c]
  }

  /** The cuts from `idx` are those of one pass followed by those from where the next pass starts. */
  lemma PassSpec(bps: seq<string>, s: string, idx: nat)
    requires idx < |s|
    ensures Cuts(bps, s, idx) == Emitted(Pass(bps, s, idx).0) + Cuts(bps, s, Pass(bps, s, idx).1)
  {
    match Scan(bps, s, idx)
    case NotFound =>
      ScanNotFoundLater(bps, s, idx, idx + 1);
    case Found(p, q) =>
      CutsStep(bps, s, idx, p, q);
      if Scan(bps, s, q + 1).NotFound? {
        assert Cuts(bps, s, |s| + 1) == [];
      }
  }

  /** Dispatching a one-pass result: the clause it cuts, if any, goes through `populateByBreakpoint`. */
  function Dispatch(s: string, e: Expr, c: Option<Cut>): (r: Expr)
    ensures c.None? ==> r == e
  {
    match c
    case None => e
    case Some(c) => Apply(e, ClauseAt(s, c))
  }

  /** Dispatching two runs of clauses one after the other is dispatching them together. */
  lemma {:induction false} ApplyAllAppend(e: Expr, a: seq<Clause>, b: seq<Clause>)
    decreases |a|
    ensures ApplyAll(e, a + b) == ApplyAll(ApplyAll(e, a), b)
  {
    if a != [] {
      assert (a + b)[1..] == a[1..] + b;
      ApplyAllAppend(Apply(e, a[0]), a[1..], b);
    } else {
      assert a + b == b;
    }
  }

  /** Dispatching what one pass emits is dispatching the clauses it stands for. */
  lemma DispatchIsApplyAll(s: string, e: Expr, c: Option<Cut>)
    ensures Dispatch(s, e, c) == ApplyAll(e, Materialize(s, Emitted(c)))
  {
    if c.Some? {
      assert Materialize(s, Emitted(c))[1..] == [];
    }
  }

  /** The loop of `createExpression` from index `idx`, pass after pass, starting from `e`. */
  function Walk(bps: seq<string>, s: string, idx: nat, e: Expr): Expr
    decreases |s| + 1 - idx
  {
    if idx >= |s| then e
    else Walk(bps, s, Pass(bps, s, idx).1, Dispatch(s, e, Pass(bps, s, idx).0))
  }

  /** The loop dispatches exactly the clauses from `idx`, in order. */
  lemma {:induction false} WalkIsApplyAll(bps: seq<string>, s: string, idx: nat, e: Expr)
    decreases |s| + 1 - idx
    ensures Walk(bps, s, idx, e) == ApplyAll(e, Clauses(bps, s, idx))
  {
    if idx < |s| {
      var (c, next) := Pass(bps, s, idx);
      WalkIsApplyAll(bps, s, next, Dispatch(s, e, c));
      PassSpec(bps, s, idx);
      MaterializeAppend(s, Emitted(c), Cuts(bps, s, next));
      DispatchIsApplyAll(s, e, c);
      ApplyAllAppend(e, Materialize(s, Emitted(c)), Clauses(bps, s, next));
    }
  }

  /** The expression built from a (normalised) string, starting from `{}`. */
  function Build(s: string): Expr
  {
    ApplyAll(map[], Clauses(Table, s, 0))
  }

  /**
   * The content a keyword ending at `q` receives: the text up to the next
   * keyword with one character dropped on each side; the single character
   * after the keyword when the next keyword follows with no gap (the
   * `substring` indices are swapped); or the rest of the string after the last one.
   */
  lemma ClauseContent(bps: seq<string>, s: string, q: nat)
    requires q < |s|
    ensures match Scan(bps, s, q + 1)
      case NotFound => ContentAfter(bps, s, q) == s[q + 1..]
      case Found(p2, _) =>
        (p2 >= q + 2 ==> ContentAfter(bps, s, q) == s[q + 1..p2 - 1]) &&
        (p2 == q + 1 ==> ContentAfter(bps, s, q) == s[q..q + 1])
  {
  }

  /**
   * Text before the first visible keyword is never dispatched: every clause
   * starts at or after it. A string with no visible keyword yields no clause.
   */
  lemma PreambleIgnored(bps: seq<string>, s: string)
    ensures Scan(bps, s, 0) == NotFound ==> Clauses(bps, s, 0) == []
    ensures Scan(bps, s, 0).Found? ==>
      Clauses(bps, s, 0) != [] && Clauses(bps, s, 0)[0].start == Scan(bps, s, 0).start &&
      forall k :: 0 <= k < |Clauses(bps, s, 0)| ==> Scan(bps, s, 0).start <= Clauses(bps, s, 0)[k].start
  {
    ClausesSpec(bps, s, 0);
  }

  /** Dispatch never removes a key, and adds the key of every dispatched keyword. */
  lemma {:induction false} ApplyAllKeys(e: Expr, cs: seq<Clause>)
    decreases |cs|
    ensures ApplyAll(e, cs).Keys == e.Keys + set c | c in cs :: KeyOf(c.keyword)
  {
    if cs != [] {
      PopulateDispatch(e, cs[0].keyword, cs[0].content);
      ApplyAllKeys(Populate(e, cs[0].keyword, cs[0].content), cs[1..]);
      assert forall c :: c in cs <==> c == cs[0] || c in cs[1..];
    }
  }

  /** The expression is empty exactly when the string has no keyword the scanner can see. */
  lemma BuildEmpty(s: string)
    ensures Build(s) == map[] <==> Scan(Table, s, 0) == NotFound
  {
    var cs := Clauses(Table, s, 0);
    ApplyAllKeys(map[], cs);
    if cs != [] {
      assert KeyOf(cs[0].keyword) in Build(s).Keys;
    }
  }

  /** The empty string yields the empty expression. */
  lemma BuildEmptyString()
    ensures Build("") == map[]
  {
  }

  /** Every dispatched keyword is a breakpoint. */
  predicate AllKeywords(cs: seq<Clause>)
  {
    forall k :: 0 <= k < |cs| ==> IsBreakPoint(cs[k].keyword)
  }

  /** Dispatching keyword clauses keeps the expression's shape. */
  lemma {:induction false} ApplyAllKeepsShape(e: Expr, cs: seq<Clause>)
    decreases |cs|
    requires WellTyped(e) && AllKeywords(cs)
    ensures WellTyped(ApplyAll(e, cs))
  {
    if cs != [] {
      PopulateKeepsShape(e, cs[0].keyword, cs[0].content);
      ApplyAllKeepsShape(Populate(e, cs[0].keyword, cs[0].content), cs[1..]);
    }
  }

  /** Every clause the parser dispatches is headed by one of its own keywords. */
  lemma BuildKeywords(s: string)
    ensures AllKeywords(Clauses(Table, s, 0))
  {
    var cs := Clauses(Table, s, 0);
    ClausesSpec(Table, s, 0);
    forall k | 0 <= k < |cs| ensures IsBreakPoint(cs[k].keyword) {
      BreakPointIsKeyword(cs[k].keyword);
    }
  }

  /** Every built expression has lists exactly under `select`, `where` and `leftJoin`. */
  lemma BuildWellTyped(s: string)
    ensures WellTyped(Build(s))
  {
    BuildKeywords(s);
    ApplyAllKeepsShape(map[], Clauses(Table, s, 0));
  }

  /** What the clauses of one accumulating keyword append, in order. */
  function Contributions(cs: seq<Clause>, breakpoint: string): seq<Item>
  {
    if cs == [] then []
    else
      Own(cs[0], breakpoint) + Contributions(cs[1..], breakpoint)
  }

  /** What one clause appends to the list of `breakpoint`: something only when it is that keyword's own. */
  function Own(c: Clause, breakpoint: string): seq<Item>
  {
    if c.keyword == breakpoint then Added(breakpoint, c.content) else []
  }

  /** One dispatch extends an accumulating keyword's list only when it is that keyword's own. */
  lemma PopulateListAt(e: Expr, keyword: string, content: string, breakpoint: string)
    requires IsBreakPoint(keyword) && IsBreakPoint(breakpoint) && Accumulates(breakpoint)
    ensures ListAt(Populate(e, keyword, content), KeyOf(breakpoint)) ==
      ListAt(e, KeyOf(breakpoint)) + (if keyword == breakpoint then Added(breakpoint, content) else [])
  {
    PopulateDispatch(e, keyword, content);
    if keyword != breakpoint {
      if KeyOf(keyword) == KeyOf(breakpoint) { KeyOfInjective(keyword, breakpoint); }
      assert ListAt(e, KeyOf(breakpoint)) + [] == ListAt(e, KeyOf(breakpoint));
    }
  }

  /**
   * Repeated SELECT, WHERE or LEFT JOIN clauses append: the final list is the
   * list already there followed by each clause's entries, in source order.
   */
  lemma {:induction false} ApplyAllAccumulates(e: Expr, cs: seq<Clause>, breakpoint: string)
    decreases |cs|
    requires IsBreakPoint(breakpoint) && Accumulates(breakpoint) && AllKeywords(cs)
    ensures ListAt(ApplyAll(e, cs), KeyOf(breakpoint)) == ListAt(e, KeyOf(breakpoint)) + Contributions(cs, breakpoint)
  {
    if cs != [] {
      var e' := Populate(e, cs[0].keyword, cs[0].content);
      PopulateListAt(e, cs[0].keyword, cs[0].content, breakpoint);
      AllKeywordsTail(cs);
      ApplyAllAccumulates(e', cs[1..], breakpoint);
      AppendStep(ListAt(e, KeyOf(breakpoint)), ListAt(e', KeyOf(breakpoint)), ListAt(ApplyAll(e', cs[1..]), KeyOf(breakpoint)),
        Own(cs[0], breakpoint), Contributions(cs[1..], breakpoint));
    }
  }

  /**
   * Two appends in a row are one append of both (kept apart so that the
   * step is proved outside the context of `ApplyAll`).
   */
  lemma AppendStep<T>(l0: seq<T>, l1: seq<T>, l2: seq<T>, own: seq<T>, rest: seq<T>)
    requires l1 == l0 + own && l2 == l1 + rest
    ensures l2 == l0 + (own + rest)
  {
  }

  /** Keyword clauses stay keyword clauses after the first is dispatched. */
  lemma AllKeywordsTail(cs: seq<Clause>)
    requires cs != [] && AllKeywords(cs)
    ensures IsBreakPoint(cs[0].keyword) && AllKeywords(cs[1..])
  {
    forall k | 0 <= k < |cs[1..]| ensures IsBreakPoint(cs[1..][k].keyword) {
      assert cs[1..][k] == cs[k + 1];
    }
  }

  /** The content of the last clause of a keyword, if any. */
  function LastContent(cs: seq<Clause>, breakpoint: string): Option<string>
  {
    if cs == [] then None
    else match LastContent(cs[1..], breakpoint)
      case Some(c) => Some(c)
      case None => if cs[0].keyword == breakpoint then Some(cs[0].content) else None
  }

  /**
   * Every other keyword overwrites: the final value under its key is the
   * content of its last clause, and it is untouched when there is none.
   */
  lemma {:induction false} ApplyAllOverwrites(e: Expr, cs: seq<Clause>, breakpoint: string)
    decreases |cs|
    requires IsBreakPoint(breakpoint) && !Accumulates(breakpoint) && AllKeywords(cs)
    ensures var r := ApplyAll(e, cs); var key := KeyOf(breakpoint);
      match LastContent(cs, breakpoint)
      case Some(c) => key in r && r[key] == Scalar(c)
      case None => (key in r <==> key in e) && (key in e ==> r[key] == e[key])
  {
    if cs != [] {
      var e' := Populate(e, cs[0].keyword, cs[0].content);
      PopulateDispatch(e, cs[0].keyword, cs[0].content);
      ApplyAllOverwrites(e', cs[1..], breakpoint);
      if cs[0].keyword != breakpoint && KeyOf(cs[0].keyword) == KeyOf(breakpoint) {
        KeyOfInjective(cs[0].keyword, breakpoint);
      }
    }
  }

  /** Keys that no dispatched keyword maps to keep their value. */
  lemma {:induction false} ApplyAllFrame(e: Expr, cs: seq<Clause>, key: string)
    decreases |cs|
    requires forall k :: 0 <= k < |cs| ==> KeyOf(cs[k].keyword) != key
    ensures (key in ApplyAll(e, cs) <==> key in e) && (key in e ==> ApplyAll(e, cs)[key] == e[key])
  {
    if cs != [] {
      PopulateDispatch(e, cs[0].keyword, cs[0].content);
      ApplyAllFrame(Populate(e, cs[0].keyword, cs[0].content), cs[1..], key);
    }
  }

  /**
   * In a built expression, the list of SELECT, WHERE or LEFT JOIN holds the
   * entries of all that keyword's clauses, in source order, and nothing else.
   */
  lemma BuildAccumulates(s: string, breakpoint: string)
    requires IsBreakPoint(breakpoint) && Accumulates(breakpoint)
    ensures ListAt(Build(s), KeyOf(breakpoint)) == Contributions(Clauses(Table, s, 0), breakpoint)
  {
    BuildKeywords(s);
    ApplyAllAccumulates(map[], Clauses(Table, s, 0), breakpoint);
    assert ListAt(map[], KeyOf(breakpoint)) == [];
  }

  /**
   * In a built expression, any other keyword's key holds the content of its
   * last clause, and is absent when the keyword was never dispatched.
   */
  lemma BuildOverwrites(s: string, breakpoint: string)
    requires IsBreakPoint(breakpoint) && !Accumulates(breakpoint)
    ensures var r := Build(s); var key := KeyOf(breakpoint);
      match LastContent(Clauses(Table, s, 0), breakpoint)
      case Some(c) => key in r && r[key] == Scalar(c)
      case None => key !in r
  {
    BuildKeywords(s);
    ApplyAllOverwrites(map[], Clauses(Table, s, 0), breakpoint);
  }
}
