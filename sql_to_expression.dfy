/**
 * The `sqlToExpression` class: the SQL string it holds, the expression it
 * builds, and the methods that build it step by step.
 */
module LibSqlToExpression {
  import opened Wrappers
  import opened JsString
  import opened Breakpoints
  import opened Scanner
  import opened Whitespace
  import opened Expression
  import opened Segmenter

  /** Why `run` fails: it reads `this.sql` while the string was never set. */
  datatype RunError = SqlUndefined

  class SqlToExpression {
    /** The SQL string, `undefined` (`None`) until it is set. */
    var sql: Option<string>
    /** The expression under construction. */
    var expression: Expr
    /** The keywords that open a clause, set by `init`. */
    var breakpoints: seq<string>
    /**
     * Whether `init` has run. Before it, `expression` and `breakpoints`
     * are `undefined`, and every method that touches them throws.
     */
    var initialized: bool

    /** `new sqlToExpression(sql)`: a truthy argument is stored, anything else is ignored. */
    constructor(arg: Option<string>)
      ensures arg.Some? && arg.value != "" ==> sql == arg
      ensures arg.None? || arg.value == "" ==> sql.None?
      ensures !initialized
    {
      sql := if arg.Some? && arg.value != "" then arg else None;
      expression := map[];
      breakpoints := [];
      initialized := false;
    }

    /** `init`: the expression is reset to `{}` and the breakpoint list to the seventeen keywords. */
    method Init()
      modifies this`expression, this`breakpoints, this`initialized
      ensures expression == map[] && breakpoints == Table && initialized
    {
      expression := map[];
      breakpoints := Table;
      initialized := true;
    }

    /** `setSql`: replaces the string, whatever it is. */
    method SetSql(s: string)
      modifies this`sql
      ensures sql == Some(s)
    {
      sql := Some(s);
    }

    /**
     * `run`: reset the expression, collapse runs of spaces in the string,
     * then build the expression from it. Reading an undefined string throws
     * after the reset.
     */
    method Run() returns (r: Result<Expr, RunError>)
      modifies this
      ensures initialized && breakpoints == Table
      ensures old(sql).None? ==> r == Failure(SqlUndefined) && sql.None? && expression == map[]
      ensures old(sql).Some? ==>
        && sql == Some(CollapseSpaces(old(sql).value))
        && expression == Build(sql.value)
        && r == Success(expression)
      ensures WellTyped(expression)
    {
      Init();
      if sql.None? {
        return Failure(SqlUndefined);
      }
      sql := Some(CollapseSpaces(sql.value));
      CreateExpression();
      WalkIsApplyAll(breakpoints, sql.value, 0, map[]);
      BuildWellTyped(sql.value);
      r := Success(expression);
    }

    /**
     * `createExpression`: walk the string, dispatching each keyword the
     * scanner finds together with the text up to the next one.
     */
    method CreateExpression()
      requires sql.Some? && initialized
      modifies this`expression
      ensures expression == Walk(breakpoints, sql.value, 0, old(expression))
    {
      var s := sql.value;
      var idx := 0;
      while idx < |s|
        invariant 0 <= idx <= |s| + 1
        invariant sql == Some(s) && initialized
        invariant Walk(breakpoints, s, idx, expression) == Walk(breakpoints, s, 0, old(expression))
        decreases |s| + 1 - idx
      {
        idx := DispatchFrom(idx);
      }
    }

    /**
     * One pass of the loop in `createExpression`: find the keyword closest to
     * `idx` and dispatch it, and return where the search resumes (see `Pass`).
     */
    method DispatchFrom(idx: nat) returns (next: nat)
      requires sql.Some? && initialized
      modifies this`expression
      ensures next == Pass(breakpoints, sql.value, idx).1
      ensures expression == Dispatch(sql.value, old(expression), Pass(breakpoints, sql.value, idx).0)
    {
      var start, end := ReturnIndexOfClosestBreakpoint(idx);
      if end >= idx {
        next := DispatchKeyword(start, end);
      } else {
        next := idx + 1;
      }
    }

    /**
     * The rest of a pass once a keyword is found at `[start, end)`: find the
     * keyword after it, and dispatch the first one with the text between
     * them (see `PassAt`).
     */
    method DispatchKeyword(start: nat, end: nat) returns (next: nat)
      requires sql.Some? && initialized && start <= end < |sql.value|
      modifies this`expression
      ensures next == PassAt(breakpoints, sql.value, start, end).1
      ensures expression == Dispatch(sql.value, old(expression), PassAt(breakpoints, sql.value, start, end).0)
    {
      var s := sql.value;
      var keyword := Substring(s, start, end);
      var nextStart, nextEnd := ReturnIndexOfClosestBreakpoint(end + 1);
      if nextEnd >= end {
        var content := Substring(s, end + 1, nextStart - 1);
        PopulateByBreakpoint(keyword, content);
        next := end + 2;
      } else {
        var content := Substring(s, end + 1, |s|);
        PopulateByBreakpoint(keyword, content);
        next := |s| + 1;
      }
    }

    /**
     * `returnIndexOfClosestBreakpoint(from)`: `[start, end]` of the closest
     * keyword at or after `from` (see `Scan`), or `end == -1` when there is
     * none, with `start` where the search stopped.
     */
    method ReturnIndexOfClosestBreakpoint(from: nat) returns (start: int, end: int)
      requires sql.Some? && initialized
      ensures end == -1 <==> Scan(breakpoints, sql.value, from) == NotFound
      ensures end != -1 ==>
        && 0 <= start <= end
        && Scan(breakpoints, sql.value, from) == Found(start, end)
        && Visible(breakpoints, sql.value, start, end)
      ensures end == -1 ==> start == (if from <= |sql.value| - 1 then |sql.value| else from)
    {
      var s := sql.value;
      var closestIndex := -1;
      var idx := from;
      while closestIndex < idx && idx <= |s| - 1
        invariant from <= idx
        invariant idx <= |s| || idx == from
        invariant closestIndex == -1 ==> Scan(breakpoints, s, from) == Scan(breakpoints, s, idx)
        invariant closestIndex != -1 ==> Scan(breakpoints, s, from) == Found(idx, closestIndex)
        decreases (if closestIndex == -1 then 1 else 0) + |s| - idx
      {
        var len := |s| - 1;
        while idx <= len
          invariant idx - 1 <= len <= |s| - 1
          invariant closestIndex == (match FirstEnd(breakpoints, s, idx, len + 1) case Some(q) => q case None => -1)
        {
          if Substring(s, idx, len) in breakpoints {
            closestIndex := len;
          }
          len := len - 1;
        }
        if closestIndex < idx {
          idx := idx + 1;
        }
      }
      start, end := idx, closestIndex;
      ScanSpec(breakpoints, s, from);
    }

    /**
     * `populateByBreakpoint(breakpoint, content)`: the switch on the keyword
     * (see `Populate`).
     */
    method PopulateByBreakpoint(breakpoint: string, content: string)
      requires initialized
      modifies this`expression
      ensures expression == Populate(old(expression), breakpoint, content)
    {
      if breakpoint == "SELECT" {
        var list := FieldsList(content, Current(expression, "select"));
        expression := expression["select" := List(list)];
      } else if breakpoint == "FROM" {
        expression := expression["from" := Scalar(content)];
      } else if breakpoint == "WHERE" {
        expression := expression["where" := List(ConditionsStatement(content, Current(expression, "where")))];
      } else if breakpoint == "ORDER BY" {
        expression := expression["orderBy" := Scalar(content)];
      } else if breakpoint == "LEFT JOIN" {
        expression := expression["leftJoin" := List(JoinStatement(content, Current(expression, "leftJoin")))];
      } else {
        expression := expression[breakpoint := Scalar(content)];
      }
    }

    /**
     * `fieldsList(content, current)`: split the content on commas into an
     * array, rewrite each piece in place by its number of dots, and append
     * the array to the current list.
     */
    method FieldsList(content: string, current: Option<seq<Item>>) returns (r: seq<Item>)
      ensures r == JoinArrays(Array(Fields(content)), current)
      ensures |r| == |Prior(current)| + Count(content, ',') + 1
    {
      var pieces := Split(content, ",");
      var a := new Item[|pieces|](k requires 0 <= k < |pieces| => Str(pieces[k]));
      var idx := 0;
      while idx < a.Length
        invariant 0 <= idx <= a.Length
        invariant forall k :: 0 <= k < idx ==> a[k] == FieldOf(pieces[k])
        invariant forall k :: idx <= k < a.Length ==> a[k] == Str(pieces[k])
      {
        var piece := a[idx].text;
        var aliasTest := Split(piece, ".");
        if |aliasTest| > 2 {
          a[idx] := Str("invalid value (" + piece + InvalidSuffix);
        } else if |aliasTest| > 1 {
          a[idx] := Aliased(aliasTest[0], aliasTest[1]);
        }
        idx := idx + 1;
      }
      assert a[..] == Fields(content);
      FieldsRoundTrip(content);
      r := JoinArrays(Array(a[..]), current);
    }
  }
}
