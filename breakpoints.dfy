/**
 * The breakpoint table: the clause keywords the parser recognises, and the
 * test for membership in it.
 */
module Breakpoints {

  /** The seventeen keywords, in the order the parser lists them. */
  const Table: seq<string> := [
    "SELECT", "FROM", "WHERE",
    "UPDATE", "INSERT", "TO", "VALUES",
    "LEFT JOIN", "RIGHT JOIN", "INNER JOIN", "JOIN",
    "GROUP BY", "ORDER BY", "LIMIT",
    "DESCRIBE",
    "(", ")"
  ]

  /** Exact, case-sensitive membership in the table (`indexOf(w) > -1`). */
  predicate IsBreakPoint(w: string)
  {
    OccursFrom(w, 0)
  }

  /** `w` is at position `i` of the table or later, searched front to back as `indexOf` does. */
  predicate OccursFrom(w: string, i: nat)
    decreases |Table| - i
  {
    i < |Table| && (Table[i] == w || OccursFrom(w, i + 1))
  }

  /** The front-to-back search from `i` finds `w` exactly when it is in the rest of the table. */
  lemma {:induction false} OccursFromIsMembership(w: string, i: nat)
    decreases |Table| - i
    ensures OccursFrom(w, i) <==> i <= |Table| && w in Table[i..]
  {
    if i < |Table| {
      OccursFromIsMembership(w, i + 1);
      assert Table[i..] == [Table[i]] + Table[i + 1..];
    }
  }

  /** A string is a breakpoint exactly when it equals one of the seventeen keywords. */
  lemma BreakPointIsKeyword(w: string)
    ensures IsBreakPoint(w) <==> w in Table
  {
    OccursFromIsMembership(w, 0);
    assert Table[0..] == Table;
  }

  /** The characters a keyword can start with. */
  const Initials: seq<char> := "SFWUITVLRJGOD()"

  /** Every keyword is non-empty, at most ten characters long, and starts with one of `Initials`. */
  lemma KeywordShape(w: string)
    requires IsBreakPoint(w)
    ensures 1 <= |w| <= 10 && w[0] in Initials
  {
    BreakPointIsKeyword(w);
  }

  /**
   * No keyword is a proper prefix of another, so at most one keyword can
   * start at any position of a string.
   */
  lemma NoKeywordIsPrefixOfAnother(a: string, b: string)
    requires IsBreakPoint(a) && IsBreakPoint(b) && a <= b
    ensures a == b
  {
    KeywordShape(a);
    KeywordShape(b);
    SharedInitials(a);
    SharedInitials(b);
    SingleInitials(a);
    SingleInitials(b);
    SymbolInitials(a);
    SymbolInitials(b);
    assert a[0] == b[0];
    // the keywords sharing an initial already differ by their third character
    if |a| > 2 { assert a[1] == b[1] && a[2] == b[2]; }
  }

  /** `I` and `L` each start two keywords; `J` and `R` start one each. */
  lemma SharedInitials(w: string)
    requires IsBreakPoint(w)
    ensures |w| > 0
    ensures w[0] == 'I' ==> w == "INSERT" || w == "INNER JOIN"
    ensures w[0] == 'L' ==> w == "LEFT JOIN" || w == "LIMIT"
    ensures w[0] == 'J' ==> w == "JOIN"
    ensures w[0] == 'R' ==> w == "RIGHT JOIN"
  {
    BreakPointIsKeyword(w);
  }

  /** Initials that start exactly one keyword. */
  lemma SingleInitials(w: string)
    requires IsBreakPoint(w)
    ensures |w| > 0
    ensures w[0] == 'S' ==> w == "SELECT"
    ensures w[0] == 'F' ==> w == "FROM"
    ensures w[0] == 'W' ==> w == "WHERE"
    ensures w[0] == 'U' ==> w == "UPDATE"
    ensures w[0] == 'T' ==> w == "TO"
    ensures w[0] == 'V' ==> w == "VALUES"
  {
    BreakPointIsKeyword(w);
  }

  /** The remaining initials, each starting exactly one keyword. */
  lemma SymbolInitials(w: string)
    requires IsBreakPoint(w)
    ensures |w| > 0
    ensures w[0] == 'G' ==> w == "GROUP BY"
    ensures w[0] == 'O' ==> w == "ORDER BY"
    ensures w[0] == 'D' ==> w == "DESCRIBE"
    ensures w[0] == '(' ==> w == "("
    ensures w[0] == ')' ==> w == ")"
  {
    BreakPointIsKeyword(w);
  }

  /** Matching is case-sensitive: lower- or mixed-case spellings are not keywords. */
  lemma CaseSensitive()
    ensures !IsBreakPoint("select") && !IsBreakPoint("Select") && !IsBreakPoint("left join")
  {
    if IsBreakPoint("select") { KeywordShape("select"); }
    if IsBreakPoint("Select") { SingleInitials("Select"); }
    if IsBreakPoint("left join") { KeywordShape("left join"); }
  }
}
