# sql-to-expression, modelled in Dafny

This is a model of the `sqlToExpression` class of the sql-to-expression library
(`src/lib-sql-to-expression.js`). The class turns an SQL-like string into a keyed
"expression" map such as `{select: [...], from: "...", where: [...]}`. The model covers:

- **The breakpoint table and `isBreakPoint`** (module `Breakpoints`). These are the
  seventeen clause keywords, matched by exact, case-sensitive membership.
- **The space collapse `run` performs** (module `Whitespace`). `replace(/ +(?= )/g, '')`
  is stated by its effect.
- **`returnIndexOfClosestBreakpoint`** (module `Scanner` and class method
  `ReturnIndexOfClosestBreakpoint`). The nested-loop search for the closest keyword.
  `Scan` specifies it, and the method's loops are proved against it.
- **`createExpression`** (module `Segmenter` and class method `CreateExpression`). The
  walk that cuts the string into clauses and dispatches them.
  - `Cuts` and `Clauses` give the clauses it dispatches, in order.
  - `Walk` is the loop, pass by pass. `WalkIsApplyAll` proves the loop dispatches exactly
    those clauses.
  - The loop body is split into the methods `DispatchFrom` and `DispatchKeyword`.
- **`populateByBreakpoint`, `fieldsList`, `conditionsStatement`, `joinStatement` and
  `joinArrays`** (module `Expression` and the class methods). How one clause changes the
  expression.
- **The `substring` and `split` semantics of JavaScript strings that these rely on**
  (module `JsString`). `substring` clamps its indices and swaps them when the first is
  larger. `split` takes a non-empty separator.

The class `LibSqlToExpression.SqlToExpression` keeps the source's mutable state as fields:
- `sql`, which is `None` while it is `undefined`;
- `expression`;
- `breakpoints`;
- `initialized`, which records whether `init` has run.

`Run` is proved to leave `expression == Build(CollapseSpaces(sql))`. `Build` is the pure
specification of the segmenter followed by the dispatcher, and its properties are lemmas
in `Segmenter`.

The model follows the code as written, including where it does not do what its keyword names suggest:

- **No word-boundary test.** `FROM` is found as the first four letters of `FROMAGE` (`Scanner.NoWordBoundary`).
- **Shortest match at the earliest start.** The count-down loop keeps the last hit, which
  is the shortest. No keyword is a prefix of another, so this never has to choose
  (`NoKeywordIsPrefixOfAnother`).
- **A keyword ending on the last character is never found.** The end index starts at
  `length - 1`, so such a keyword is invisible (`Scanner.Visible`).
- **Content is not trimmed.** It is `substring(end + 1, nextStart - 1)`: one character is
  dropped on each side. When the next keyword follows with no gap, the indices swap and the
  content is the one character after the keyword (`ClauseContent`).
- **After a non-final keyword the loop resumes at `end + 2`.** A keyword starting inside
  the previous keyword, or at `end` or `end + 1`, is therefore never dispatched. Each next
  keyword is the scanner's answer from `end + 2` (`ClausesNext`). Every other visible
  keyword is dispatched (`ClausesComplete`).
- **Only SELECT, WHERE and LEFT JOIN accumulate into lists.** Every other keyword
  overwrites a string stored under its own text (`GROUP BY`, not a camel-cased key).
  FROM and ORDER BY go under `from` and `orderBy`.
- **WHERE content is split only on the literal `AND,OR`.** `split` converts the array
  `["AND", "OR"]` to that string, so `age>18 AND active=1` stays one fragment
  (`ConditionsUnsplit`).
- **Join targets and field pieces are not trimmed or re-tokenised.** The join content is
  appended whole. An empty content appends nothing, because the empty string is falsy.
- **`run` throws when the string was never set.** The model returns
  `Failure(SqlUndefined)` after the reset that `init` performs.

## Model

| member | source | states |
|---|---|---|
| Breakpoints.IsBreakPoint | src/lib-sql-to-expression.js:148-150 | `isBreakPoint`: the front-to-back `indexOf` search of the table; `BreakPointIsKeyword` states it is exact membership |
| Breakpoints.BreakPointIsKeyword | src/lib-sql-to-expression.js:148-150 | `isBreakPoint(w)` holds exactly when `w` is one of the seventeen keywords of the table |
| Breakpoints.OccursFromIsMembership | src/lib-sql-to-expression.js:148-150 | the front-to-back `indexOf` search from position `i` finds `w` exactly when `w` is in the rest of the table |
| Breakpoints.KeywordShape | src/lib-sql-to-expression.js:15-22 | every keyword is non-empty, at most ten characters long, and starts with one of `SFWUITVLRJGOD()` |
| Breakpoints.SharedInitials | src/lib-sql-to-expression.js:15-22 | `I`, `L`, `J` and `R` start only the keywords listed for them |
| Breakpoints.SingleInitials | src/lib-sql-to-expression.js:15-22 | each of `S F W U T V` starts exactly one keyword |
| Breakpoints.SymbolInitials | src/lib-sql-to-expression.js:15-22 | each of `G O D ( )` starts exactly one keyword |
| Breakpoints.NoKeywordIsPrefixOfAnother | src/lib-sql-to-expression.js:15-22 | a keyword that is a prefix of a keyword is that keyword, so at most one keyword starts at any position |
| Breakpoints.CaseSensitive | src/lib-sql-to-expression.js:148-150 | matching is exact: `select`, `Select` and `left join` are not breakpoints |
| JsString.Substring | src/lib-sql-to-expression.js:91 | in-range indices give the slice between them, in either order |
| JsString.SubstringSymmetric | src/lib-sql-to-expression.js:91 | swapping the two arguments of `substring` never changes the result |
| JsString.IndexOf | src/lib-sql-to-expression.js:204 | the search `split` uses returns the first occurrence at or after `from`, or none when there is no occurrence |
| JsString.Split | src/lib-sql-to-expression.js:204 | `split` with a non-empty separator always yields at least one piece |
| JsString.SplitPiecesFree | src/lib-sql-to-expression.js:209 | no piece of a split contains the separator |
| JsString.JoinSplit | src/lib-sql-to-expression.js:204 | joining the pieces with the separator gives the original string back |
| JsString.SplitCharCount | src/lib-sql-to-expression.js:209-210 | splitting on one character yields one more piece than there are occurrences of that character |
| Whitespace.CollapseSpaces | src/lib-sql-to-expression.js:56 | the collapsed string has no two adjacent spaces, is no longer than the input, and keeps its first character |
| Whitespace.CollapseIsSqueeze | src/lib-sql-to-expression.js:56 | the collapse equals `Squeeze`, written independently: each maximal run of spaces becomes exactly one space and every other character is kept, in order |
| Whitespace.CollapseKeepsNonSpaces | src/lib-sql-to-expression.js:56 | every non-space character is kept, in order |
| Whitespace.CollapseIsSubsequence | src/lib-sql-to-expression.js:56 | the collapse only deletes characters: the result is a subsequence of the input, so the relative order of the kept characters is preserved |
| Whitespace.CollapseFixedPoint | src/lib-sql-to-expression.js:56 | a string is unchanged exactly when it has no two adjacent spaces |
| Whitespace.CollapseIdempotent | src/lib-sql-to-expression.js:56 | collapsing twice is the same as collapsing once |
| Scanner.FirstEnd | src/lib-sql-to-expression.js:125-138 | the end the inner count-down loop settles on is at least `e` and at most the last index |
| Scanner.FirstEndSpec | src/lib-sql-to-expression.js:125-138 | that end gives a keyword and no smaller end does; when there is none, no end up to the last index gives a keyword |
| Scanner.Scan | src/lib-sql-to-expression.js:123-145 | a found span satisfies `i <= start <= end <= length - 1` |
| Scanner.ScanSpec | src/lib-sql-to-expression.js:115-146 | a found span is a visible keyword, nothing visible starts earlier from `i`, and no shorter keyword starts at the same place; `NotFound` means nothing visible at or after `i` |
| Scanner.ScanComplete | src/lib-sql-to-expression.js:115-146 | any visible keyword at or after `i` is found, or one starting before it is |
| Scanner.ScanUnique | src/lib-sql-to-expression.js:115-146 | an earliest, shortest visible keyword is exactly what the scan returns |
| Scanner.NoWordBoundary | src/lib-sql-to-expression.js:123-145 | there is no word-boundary test: the scanner, run with the parser's table on `FROMAGE x`, answers `FROM` at `[0, 4)`, the first four letters of the word; `FROM ` with a trailing space is not a keyword |
| Scanner.ScanNotFoundLater | src/lib-sql-to-expression.js:123-145 | once nothing is found from `i`, nothing is found from any later position |
| Expression.JoinArrays | src/lib-sql-to-expression.js:250-258 | the current list (or `[]`) is kept as a prefix; an array contributes its elements, a non-empty string one element, and the empty string nothing |
| Expression.ConditionsStatement | src/lib-sql-to-expression.js:239-242 | `conditionsStatement`: the content split on the literal `AND,OR`, appended after the current list; `ConditionsUnsplit` and `ConditionsRoundTrip` state its properties |
| Expression.JoinStatement | src/lib-sql-to-expression.js:230-232 | the join content is appended as a single entry after the current list, or nothing when it is empty |
| Expression.ConditionsUnsplit | src/lib-sql-to-expression.js:239-242 | a content without the literal `AND,OR` becomes one fragment, even when it contains `AND` or `OR` |
| Expression.ConditionsRoundTrip | src/lib-sql-to-expression.js:239-242 | the current list is kept as a prefix, the fragments follow it in order, and joined with `AND,OR` they give the content back |
| Expression.FieldOf | src/lib-sql-to-expression.js:209-214 | the rewrite of one comma piece by `split(".")`; `FieldOfByDots` states it by the number of dots |
| Expression.Fields | src/lib-sql-to-expression.js:204-216 | one entry per comma-separated piece, in order, each rewritten by `FieldOf`; `FieldsRoundTrip` states the count and the round trip |
| Expression.FieldOfByDots | src/lib-sql-to-expression.js:209-214 | a piece with no dot is kept as is; with one dot it becomes `{alias, field}`, whose dot-join is the piece and whose parts have no dot; with two or more it becomes the diagnostic string |
| Expression.FieldsRoundTrip | src/lib-sql-to-expression.js:204-218 | one entry per comma-separated piece, as many as commas plus one, and the pieces rejoin to the content |
| Expression.KeyOf | src/lib-sql-to-expression.js:165-191 | the key a keyword's clause is stored under: `select`, `from`, `where`, `orderBy`, `leftJoin`, or the keyword text itself; `KeyOfInjective` and `KeyOfListKey` state its properties |
| Expression.Populate | src/lib-sql-to-expression.js:165-191 | `populateByBreakpoint` on a value; `PopulateDispatch` states what it changes and what it keeps |
| Expression.PopulateDispatch | src/lib-sql-to-expression.js:165-191 | the clause lands under its keyword's key and no other key changes; SELECT, WHERE and LEFT JOIN extend their list by the clause's entries; every other keyword's value is overwritten by the content |
| Expression.KeyOfListKey | src/lib-sql-to-expression.js:165-191 | a keyword's key is `select`, `where` or `leftJoin` exactly when the keyword accumulates |
| Expression.KeyOfInjective | src/lib-sql-to-expression.js:165-191 | different keywords are stored under different keys |
| Expression.PopulateKeepsShape | src/lib-sql-to-expression.js:165-191 | after a dispatch, lists are still found exactly under the three list keys |
| Segmenter.Cuts | src/lib-sql-to-expression.js:76-105 | the walk from `idx` cuts nothing exactly when the scanner finds nothing from `idx`, and its first cut is the scanner's answer |
| Segmenter.Clauses | src/lib-sql-to-expression.js:76-105 | no clause is dispatched from `idx` exactly when the scanner finds nothing from `idx`, and the first clause's keyword is the span the scanner returns |
| Segmenter.CutsSpec | src/lib-sql-to-expression.js:76-105 | every cut is a visible keyword at or after `idx`, its content stops where the next keyword found from `end + 1` starts (less one) or at the end, and the cuts come left to right |
| Segmenter.CutsNext | src/lib-sql-to-expression.js:81-101 | after the cut at `[start, end)` the next cut is the scanner's answer from `end + 2`, and after the last one the scanner finds nothing from there |
| Segmenter.CutsComplete | src/lib-sql-to-expression.js:76-105 | every visible keyword at or after `idx` starts inside a cut keyword or in the two characters right after it |
| Segmenter.ClausesSpec | src/lib-sql-to-expression.js:76-105 | every dispatched keyword is visible, at or after `idx`, and is the text it spans; its content is the `substring` the loop computes; keywords come strictly left to right |
| Segmenter.ClausesNext | src/lib-sql-to-expression.js:81-101 | which keywords are dispatched: after each clause's keyword the next is the scanner's answer from its `end + 2`, and after the last one the scanner finds nothing |
| Segmenter.ClausesComplete | src/lib-sql-to-expression.js:76-105 | every keyword the scanner can see at or after `idx` is dispatched, unless it starts inside a dispatched keyword or in the two characters right after one |
| Segmenter.Pass | src/lib-sql-to-expression.js:81-101 | each pass of the loop strictly increases the index and stops at most one past the end, so the loop terminates |
| Segmenter.PassAt | src/lib-sql-to-expression.js:86-101 | a pass that found a keyword at `[p, q)` always dispatches it, and the next pass starts after `q` |
| Segmenter.PassSpec | src/lib-sql-to-expression.js:76-105 | the cuts from `idx` are the one a single pass makes followed by the cuts from where the next pass starts |
| Segmenter.Walk | src/lib-sql-to-expression.js:76-105 | the `for` loop of `createExpression`, pass by pass; `WalkIsApplyAll` states that it dispatches exactly `Clauses` |
| Segmenter.WalkIsApplyAll | src/lib-sql-to-expression.js:76-105 | the loop, pass by pass, dispatches exactly the clauses of `Clauses`, in order |
| Segmenter.Build | src/lib-sql-to-expression.js:73-107 | the expression `createExpression` builds from `{}`; `BuildEmpty`, `BuildWellTyped` and the `ApplyAll` lemmas state its properties |
| Segmenter.ClauseContent | src/lib-sql-to-expression.js:91-98 | a keyword's content is the text up to the next keyword with one character dropped on each side; it is the single character after the keyword when the next keyword follows with no gap, and the rest of the string for the last keyword |
| Segmenter.PreambleIgnored | src/lib-sql-to-expression.js:76-105 | text before the first visible keyword is never dispatched, and a string with no visible keyword yields no clause |
| Segmenter.BuildEmpty | src/lib-sql-to-expression.js:76-105 | the built expression is `{}` exactly when the string has no keyword the scanner can see |
| Segmenter.BuildEmptyString | src/lib-sql-to-expression.js:76 | the empty string yields `{}` |
| Segmenter.ApplyAllKeys | src/lib-sql-to-expression.js:165-191 | dispatching clauses never removes a key and adds the key of every dispatched keyword |
| Segmenter.ApplyAllKeepsShape | src/lib-sql-to-expression.js:165-191 | dispatching keyword clauses keeps lists exactly under the list keys |
| Segmenter.BuildWellTyped | src/lib-sql-to-expression.js:165-191 | every built expression holds lists exactly under `select`, `where` and `leftJoin`, and strings elsewhere |
| Segmenter.BuildKeywords | src/lib-sql-to-expression.js:76-105 | every clause the parser dispatches is headed by one of the seventeen keywords |
| Segmenter.PopulateListAt | src/lib-sql-to-expression.js:165-191 | a dispatch extends an accumulating keyword's list only when it is that keyword's own clause |
| Segmenter.ApplyAllAccumulates | src/lib-sql-to-expression.js:165-191 | repeated SELECT, WHERE or LEFT JOIN clauses append: the final list is the earlier list followed by each clause's entries in source order |
| Segmenter.ApplyAllOverwrites | src/lib-sql-to-expression.js:165-191 | any other keyword's final value is the content of its last clause, and its key is untouched when it has none |
| Segmenter.BuildAccumulates | src/lib-sql-to-expression.js:165-191 | in a built expression, the list under `select`, `where` or `leftJoin` is exactly the entries of that keyword's clauses, in source order |
| Segmenter.BuildOverwrites | src/lib-sql-to-expression.js:165-191 | in a built expression, any other keyword's key holds the content of its last clause, and is absent when it has none |
| Segmenter.ApplyAllFrame | src/lib-sql-to-expression.js:165-191 | keys that no dispatched keyword maps to keep their presence and value |
| LibSqlToExpression.SqlToExpression.constructor | src/lib-sql-to-expression.js:30-34 | a truthy (non-empty) string is stored; an empty or missing argument leaves `sql` undefined |
| LibSqlToExpression.SqlToExpression.Init | src/lib-sql-to-expression.js:10-24 | the expression becomes `{}` and the breakpoint list the seventeen keywords |
| LibSqlToExpression.SqlToExpression.SetSql | src/lib-sql-to-expression.js:40-42 | the string is replaced, whatever it is |
| LibSqlToExpression.SqlToExpression.Run | src/lib-sql-to-expression.js:48-62 | after `init`, an undefined string fails; otherwise the string is collapsed, the returned expression is `Build` of it, and it has lists exactly under the list keys |
| LibSqlToExpression.SqlToExpression.CreateExpression | src/lib-sql-to-expression.js:73-107 | the loop leaves the expression that `Walk` (hence `ApplyAll` of `Clauses`) gives from the old one |
| LibSqlToExpression.SqlToExpression.DispatchFrom | src/lib-sql-to-expression.js:81-102 | one pass of the loop body: it dispatches what `Pass` cuts and returns the index `Pass` resumes at |
| LibSqlToExpression.SqlToExpression.DispatchKeyword | src/lib-sql-to-expression.js:86-101 | the found keyword is dispatched with the content up to the next keyword or the end, and the index resumes as `PassAt` says |
| LibSqlToExpression.SqlToExpression.ReturnIndexOfClosestBreakpoint | src/lib-sql-to-expression.js:115-146 | returns the span `Scan` finds, which is a visible keyword, or `end == -1` exactly when there is none, with `start` where the search stopped |
| LibSqlToExpression.SqlToExpression.PopulateByBreakpoint | src/lib-sql-to-expression.js:165-191 | the switch on the keyword changes the expression as `Populate` does |
| LibSqlToExpression.SqlToExpression.FieldsList | src/lib-sql-to-expression.js:202-219 | rewriting the comma pieces in place gives the field entries appended after the current list, one per comma-separated piece |

## Left out

- The `console.log` in `run` (src/lib-sql-to-expression.js:53) is output only and is not modelled.
- `findProperties` (src/lib-sql-to-expression.js:153-157) is not modelled. Nothing calls it.
- src/lib-expression-to-sql.js is not part of this model. It is unfinished and never exported.
- JavaScript's dynamic typing is not modelled.
  - `sql` is a string or `undefined`. Non-string arguments to the constructor or `setSql` are not modelled.
  - Truthiness appears only where the code tests it: the constructor's argument, and `joinArrays`' two arguments.
- The regular expression at src/lib-sql-to-expression.js:56 is modelled by its effect (`CollapseSpaces`), not by a regex engine.
- The `optionalBreakPoint` variables are not modelled, because they are never read.
  - In `createExpression`, at src/lib-sql-to-expression.js:75 and 79.
  - Its reset in the scanner at src/lib-sql-to-expression.js:136.
- Until `init` runs, `expression` and `breakpoints` are `undefined`. The model records this with the `initialized` flag. The methods that touch these fields require it. Only `Run` reaches them, and it calls `Init` first.
- JavaScript numbers are doubles. The model uses unbounded integers. Indices stay far below 2^53, so no rounding can occur.
- Characters are Unicode scalar values here, while JavaScript strings index UTF-16 code units. The model agrees with the source only on strings without characters outside the Basic Multilingual Plane. Above it, the source's `length - 1`, the `±1` content bounds and the resume at `end + 2` count code units, and `substring` can split a surrogate pair.
- A JavaScript object keeps its keys in insertion order, which `Object.keys` or `JSON.stringify` of the returned expression would show. The model's `Expr` is a `map`, which has no key order. The parser itself never reads the order.
- The scanner's running time (cubic in the string length) is not modelled. Only its result is modelled.
