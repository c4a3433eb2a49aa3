/** The WHERE operator, and the rewriter seen through it. */
module Filter {
  import opened Values
  import opened Expressions
  import opened Operators
  import opened Rewriter

  /** What evaluation needs besides the row. */
  datatype Setting = Setting(
    text: Text,
    scalar: (string, seq<Value>) -> Option<Value>,
    run: Query -> Option<seq<Value>>)

  // ---------- The row context ----------

  /** The part of a column name after its first dot, if it has one. */
  function ShortName(name: string): Option<string> {
    if name == "" then None
    else if name[0] == '.' then Some(name[1..])
    else ShortName(name[1..])
  }

  function AddColumn(context: map<string, Value>, name: string, v: Value): map<string, Value> {
    var context' := context[name := v];
    match ShortName(name)
    case None => context'
    case Some(short) => if short in context' then context' else context'[short := v]
  }

  /** The context after the first n columns: each full name, and its short form where that
      is still free. */
  function ContextUpTo(names: seq<string>, row: Row, n: nat): map<string, Value>
    requires n <= |names| && n <= |row|
  {
    if n == 0 then map[] else AddColumn(ContextUpTo(names, row, n - 1), names[n - 1], row[n - 1])
  }

  function ContextOf(names: seq<string>, row: Row): map<string, Value> {
    ContextUpTo(names, row, if |names| < |row| then |names| else |row|)
  }

  method BuildRowContext(names: seq<string>, row: Row) returns (context: map<string, Value>)
    ensures context == ContextOf(names, row)
  {
    context := map[];
    var i := 0;
    while i < |names| && i < |row|
      invariant i <= |names| && i <= |row| && context == ContextUpTo(names, row, i)
    {
      context := context[names[i] := row[i]];
      var short := ShortName(names[i]);
      if short.Some? && short.value !in context {
        context := context[short.value := row[i]];
      }
      i := i + 1;
    }
  }

  function JudgeRow(e: Expr, names: seq<string>, row: Row, setting: Setting): Verdict {
    Judge(e, Env(ContextOf(names, row), setting.text, setting.scalar, setting.run))
  }

  // ---------- Draining ----------

  /** The rows on which the condition is true, up to the first on which it fails. */
  function FilterRun(rows: seq<Row>, failsAtEnd: bool, e: Expr, names: seq<string>, setting: Setting): Run {
    if rows == [] then Run([], failsAtEnd)
    else
      match JudgeRow(e, names, rows[0], setting)
      case Fails => Run([], true)
      case Drop => FilterRun(rows[1..], failsAtEnd, e, names, setting)
      case Keep =>
        var rest := FilterRun(rows[1..], failsAtEnd, e, names, setting);
        Run([rows[0]] + rest.rows, rest.failed)
  }

  class FilterOperator {
    const child: RowSource
    const condition: Expr
    const names: seq<string>
    const setting: Setting
    var isOpen: bool

    ghost predicate Valid()
      reads this, child
    {
      child.Valid()
    }

    /** What draining from here gives. */
    ghost function Pending(): Run
      reads this, child
      requires Valid()
    {
      FilterRun(child.Pending().rows, child.failsAtEnd, condition, names, setting)
    }

    constructor (child: RowSource, condition: Expr, names: seq<string>, setting: Setting)
      requires child.Valid()
      ensures Valid() && !isOpen && this.child == child && this.condition == condition
      ensures this.names == names && this.setting == setting
    {
      this.child, this.condition, this.names, this.setting := child, condition, names, setting;
      isOpen := false;
    }

    method Open()
      requires Valid()
      modifies this
      ensures Valid() && isOpen && Pending() == old(Pending())
    {
      isOpen := true;
    }

    /** The next row on which the condition is true. */
    method Next() returns (r: Fetched)
      requires Valid()
      modifies child
      ensures Valid()
      ensures !isOpen ==> r == Error && Pending() == old(Pending())
      ensures isOpen && old(Pending().rows) != [] ==>
        r == Got(old(Pending().rows)[0]) && Pending() == Run(old(Pending().rows)[1..], old(Pending().failed))
      ensures isOpen && old(Pending().rows) == [] ==> r == (if old(Pending().failed) then Error else Eof)
    {
      if !isOpen {
        return Error;
      }
      while true
        invariant Valid() && Pending() == old(Pending())
        decreases |child.Pending().rows|
      {
        r := child.Next();
        if !r.Got? {
          return;
        }
        var context := BuildRowContext(names, r.row);
        var value := Eval(condition, Env(context, setting.text, setting.scalar, setting.run));
        if value.None? {
          return Error;
        }
        if value.value.Datum? {
          if GetBool(value.value) {
            return;
          }
        }
      }
    }

    /** Pulling until the end or the first error. */
    method Drain() returns (rows: seq<Row>, failed: bool)
      requires Valid() && isOpen
      modifies child
      ensures Run(rows, failed) == old(Pending())
    {
      rows := [];
      ghost var all := Pending();
      while true
        invariant Valid() && |rows| <= |all.rows| && rows == all.rows[..|rows|]
        invariant Pending() == Run(all.rows[|rows|..], all.failed)
        decreases |all.rows| - |rows|
      {
        if |rows| < |all.rows| {
          OneRowOn(all.rows, |rows|);
        }
        var r := Next();
        if !r.Got? {
          return rows, r.Error?;
        }
        rows := rows + [r.row];
      }
    }
  }

  // ---------- The rewritten WHERE ----------

  /** Wherever the original WHERE drains without error the rewritten one yields the same row
      sequence; and before an error of the original it has yielded the same rows. */
  lemma {:induction false} RewrittenWhereSameRows(rows: seq<Row>, failsAtEnd: bool, e: Expr, names: seq<string>,
                                                  setting: Setting)
    requires PrintsApart(e, setting.text) && FoldSafe(e)
    ensures var original := FilterRun(rows, failsAtEnd, e, names, setting);
      var rewritten := FilterRun(rows, failsAtEnd, Rewrite(e, setting.text), names, setting);
      original.rows <= rewritten.rows && (!original.failed ==> rewritten == original)
  {
    if rows != [] {
      RewrittenWhereSameRows(rows[1..], failsAtEnd, e, names, setting);
      var env := Env(ContextOf(names, rows[0]), setting.text, setting.scalar, setting.run);
      if Eval(e, env).Some? {
        RewriteKeepsTruth(e, env);
      }
    }
  }
}
