/**
 * The expression the parser builds, the per-clause content parsers
 * (`fieldsList`, `conditionsStatement`, `joinStatement`, `joinArrays`) and
 * the dispatch of one clause into the expression (`populateByBreakpoint`).
 */
module Expression {
  import opened Wrappers
  import opened JsString
  import opened Breakpoints

  /** An entry of a clause list: a plain string, or an `{alias, field}` object. */
  datatype Item = Str(text: string) | Aliased(alias: string, field: string)

  /** The value stored under a key: a string, or an array of entries. */
  datatype Val = Scalar(text: string) | List(items: seq<Item>)

  /** The expression: a keyed map built up clause by clause. */
  type Expr = map<string, Val>

  /**
   * The first argument of `joinArrays`: an array (spread by `concat`) or a
   * string (appended by `concat` as a single element).
   */
  datatype Arg = Array(elements: seq<Item>) | Text(text: string)

  /** The current list under a key, or `undefined` when the key holds none. */
  function Current(e: Expr, key: string): Option<seq<Item>>
  {
    if key in e && e[key].List? then Some(e[key].items) else None
  }

  /** The list under a key, with a missing list read as empty. */
  function ListAt(e: Expr, key: string): seq<Item>
  {
    Prior(Current(e, key))
  }

  /** `current || []`: an absent list counts as empty. */
  function Prior(current: Option<seq<Item>>): seq<Item>
  {
    if current.Some? then current.value else []
  }

  /**
   * `joinArrays(content, current)`: the current list (or `[]`) followed by the
   * content. An array is always truthy and contributes its elements; a
   * string is falsy only when empty, and otherwise is appended whole.
   */
  function JoinArrays(content: Arg, current: Option<seq<Item>>): (r: seq<Item>)
    ensures Prior(current) <= r
    ensures content.Array? ==> r[|Prior(current)|..] == content.elements
    ensures content.Text? && content.text == "" ==> r == Prior(current)
    ensures content.Text? && content.text != "" ==> r[|Prior(current)|..] == [Str(content.text)]
  {
    var c := if content.Text? && content.text == "" then Array([]) else content;
    var cur := if current.None? then [] else current.value;
    match c
    case Array(xs) => cur + xs
    case Text(t) => cur + [Str(t)]
  }

  /** `joinStatement`: the join target is appended as one string entry. */
  function JoinStatement(content: string, current: Option<seq<Item>>): (r: seq<Item>)
    ensures r == Prior(current) + (if content == "" then [] else [Str(content)])
  {
    JoinArrays(Text(content), current)
  }

  /** Strings as plain entries, in order. */
  function StrItems(parts: seq<string>): (r: seq<Item>)
    ensures |r| == |parts| && forall k :: 0 <= k < |r| ==> r[k] == Str(parts[k])
  {
    seq(|parts|, k requires 0 <= k < |parts| => Str(parts[k]))
  }

  /**
   * The separator `conditionsStatement` really splits on: `split` converts
   * its array argument `["AND", "OR"]` to the string "AND,OR".
   */
  const ConditionSeparator: string := "AND,OR"

  /** `conditionsStatement`: split on the literal separator and append the fragments. */
  function ConditionsStatement(content: string, current: Option<seq<Item>>): seq<Item>
  {
    JoinArrays(Array(StrItems(Split(content, ConditionSeparator))), current)
  }

  /** The text that replaces a field with more than one dot, after the field itself. */
  const InvalidSuffix: string := ") field can consist from only 1 alias, for example: `tableName`.`fieldName`"

  /** One comma-separated piece of a field list, classified by `split(".")`. */
  function FieldOf(piece: string): Item
  {
    var aliasTest := Split(piece, ".");
    if |aliasTest| > 2 then Str("invalid value (" + piece + InvalidSuffix)
    else if |aliasTest| > 1 then Aliased(aliasTest[0], aliasTest[1])
    else Str(piece)
  }

  /** The entries of a field list: one per comma-separated piece, untrimmed and in order. */
  function Fields(content: string): (r: seq<Item>)
    ensures |r| == |Split(content, ",")|
    ensures forall k :: 0 <= k < |r| ==> r[k] == FieldOf(Split(content, ",")[k])
  {
    var pieces := Split(content, ",");
    seq(|pieces|, k requires 0 <= k < |pieces| => FieldOf(pieces[k]))
  }

  /** The key a keyword's clause is stored under. */
  function KeyOf(breakpoint: string): string
  {
    if breakpoint == "SELECT" then "select"
    else if breakpoint == "FROM" then "from"
    else if breakpoint == "WHERE" then "where"
    else if breakpoint == "ORDER BY" then "orderBy"
    else if breakpoint == "LEFT JOIN" then "leftJoin"
    else breakpoint
  }

  /** The keywords whose clauses are appended to a list rather than overwriting a string. */
  predicate Accumulates(breakpoint: string)
  {
    breakpoint == "SELECT" || breakpoint == "WHERE" || breakpoint == "LEFT JOIN"
  }

  /** What one clause of an accumulating keyword appends to its list. */
  function Added(breakpoint: string, content: string): seq<Item>
  {
    if breakpoint == "SELECT" then Fields(content)
    else if breakpoint == "WHERE" then StrItems(Split(content, ConditionSeparator))
    else if content == "" then []
    else [Str(content)]
  }

  /**
   * `populateByBreakpoint(breakpoint, content)`: SELECT, WHERE and LEFT JOIN
   * extend the list under `select`, `where` and `leftJoin`; FROM and ORDER BY
   * overwrite `from` and `orderBy`; any other keyword overwrites the string
   * stored under its own text. No other key changes.
   */
  function Populate(e: Expr, breakpoint: string, content: string): Expr
  {
    if breakpoint == "SELECT" then
      e["select" := List(JoinArrays(Array(Fields(content)), Current(e, "select")))]
    else if breakpoint == "FROM" then
      e["from" := Scalar(content)]
    else if breakpoint == "WHERE" then
      e["where" := List(ConditionsStatement(content, Current(e, "where")))]
    else if breakpoint == "ORDER BY" then
      e["orderBy" := Scalar(content)]
    else if breakpoint == "LEFT JOIN" then
      e["leftJoin" := List(JoinStatement(content, Current(e, "leftJoin")))]
    else
      e[breakpoint := Scalar(content)]
  }

  /**
   * The dispatch table: the clause lands under `KeyOf(breakpoint)` and no
   * other key changes; an accumulating keyword's list is extended by what
   * the clause adds, any other keyword's value is overwritten by the content.
   */
  lemma PopulateDispatch(e: Expr, breakpoint: string, content: string)
    ensures var r := Populate(e, breakpoint, content);
      && r.Keys == e.Keys + {KeyOf(breakpoint)}
      && (forall k :: k in e && k != KeyOf(breakpoint) ==> r[k] == e[k])
      && (Accumulates(breakpoint) ==>
            r[KeyOf(breakpoint)] == List(ListAt(e, KeyOf(breakpoint)) + Added(breakpoint, content)))
      && (!Accumulates(breakpoint) ==> r[KeyOf(breakpoint)] == Scalar(content))
  {
  }

  /** The keys that hold lists. */
  const ListKeys: set<string> := {"select", "where", "leftJoin"}

  /** The shape every expression the parser builds has: lists exactly under the list keys. */
  predicate WellTyped(e: Expr)
  {
    forall k :: k in e ==> (e[k].List? <==> k in ListKeys)
  }

  /** For keywords, a clause's key is a list key exactly when the keyword accumulates. */
  lemma KeyOfListKey(breakpoint: string)
    requires IsBreakPoint(breakpoint)
    ensures KeyOf(breakpoint) in ListKeys <==> Accumulates(breakpoint)
  {
    BreakPointIsKeyword(breakpoint);
  }

  /** Distinct keywords are stored under distinct keys. */
  lemma KeyOfInjective(a: string, b: string)
    requires IsBreakPoint(a) && IsBreakPoint(b) && KeyOf(a) == KeyOf(b)
    ensures a == b
  {
    // the five renamed keys start with a lower-case letter, which no keyword does
    KeywordShape(a);
    KeywordShape(b);
    if Renamed(a) || Renamed(b) {
      assert Renamed(a) && Renamed(b);
    }
  }

  /** The keywords stored under a key other than their own text. */
  predicate Renamed(w: string)
  {
    w == "SELECT" || w == "FROM" || w == "WHERE" || w == "ORDER BY" || w == "LEFT JOIN"
  }

  /** Dispatching a keyword's clause keeps the expression's shape. */
  lemma PopulateKeepsShape(e: Expr, breakpoint: string, content: string)
    requires WellTyped(e) && IsBreakPoint(breakpoint)
    ensures WellTyped(Populate(e, breakpoint, content))
  {
    KeyOfListKey(breakpoint);
    PopulateDispatch(e, breakpoint, content);
  }

  /** A content without the literal "AND,OR" is one fragment, even when it contains AND or OR. */
  lemma ConditionsUnsplit(content: string, current: Option<seq<Item>>)
    requires !Contains(content, ConditionSeparator)
    ensures ConditionsStatement(content, current) == Prior(current) + [Str(content)]
  {
    var r := IndexOf(content, ConditionSeparator, 0);
    assert r.None?;
  }

  /** Condition fragments lose nothing: joined back with the separator they give the content. */
  lemma ConditionsRoundTrip(content: string, current: Option<seq<Item>>)
    ensures var r := ConditionsStatement(content, current);
      var parts := Split(content, ConditionSeparator);
      Prior(current) <= r &&
      |r| == |Prior(current)| + |parts| &&
      (forall k :: 0 <= k < |parts| ==> r[|Prior(current)| + k] == Str(parts[k])) &&
      Join(parts, ConditionSeparator) == content
  {
    JoinSplit(content, ConditionSeparator);
  }

  /**
   * A field-list piece is classified by its number of dots: none keeps the
   * piece as it is; exactly one splits it into an alias and a field that,
   * joined by the dot, give the piece back; two or more give the diagnostic.
   */
  lemma {:induction false} FieldOfByDots(piece: string)
    ensures Count(piece, '.') == 0 ==> FieldOf(piece) == Str(piece)
    ensures Count(piece, '.') == 1 ==>
      FieldOf(piece).Aliased? && FieldOf(piece).alias + "." + FieldOf(piece).field == piece &&
      !Contains(FieldOf(piece).alias, ".") && !Contains(FieldOf(piece).field, ".")
    ensures Count(piece, '.') >= 2 ==> FieldOf(piece) == Str("invalid value (" + piece + InvalidSuffix)
  {
    var parts := Split(piece, ".");
    SplitPiecesFree(piece, ".");
    SplitCharCount(piece, '.');
    assert "." == ['.'];
    if |parts| == 2 {
      JoinSplit(piece, ".");
      assert parts[1..] == [parts[1]];
    }
  }

  /** The field list keeps every comma-separated piece: one entry per piece, and the pieces rejoin to the content. */
  lemma FieldsRoundTrip(content: string)
    ensures |Fields(content)| == Count(content, ',') + 1
    ensures Join(Split(content, ","), ",") == content
  {
    assert "," == [','];
    SplitCharCount(content, ',');
    JoinSplit(content, ",");
  }
}
