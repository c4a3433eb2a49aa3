/** The nested-loop join iterator: a resumable state machine whose whole run is the INNER,
    LEFT or RIGHT join of its inputs. */
module Join {
  import opened Values
  import opened Expressions
  import opened Operators

  datatype JoinType = INNER | LEFT | RIGHT

  /** What a join is about: its kind, the loaded right rows, the ON condition on a pair of
      rows, and the numbers of columns to pad with. */
  datatype Plan = Plan(kind: JoinType, rights: seq<Row>, on: (Row, Row) -> Verdict, leftWidth: nat, rightWidth: nat)

  function Nulls(n: nat): Row {
    seq(n, _ => NULL)
  }

  function Prepend(row: Row, run: Run): Run {
    Run([row] + run.rows, run.failed)
  }

  /** Only a RIGHT join remembers which right rows were matched. */
  function Mark(p: Plan, marks: seq<bool>, j: nat): (marks': seq<bool>)
    requires j < |marks|
    ensures |marks'| == |marks|
  {
    if p.kind == RIGHT then marks[j := true] else marks
  }

  /** r is what a next call must return when `before` is pending, and `after` what is then
      left; after the end or an error nothing is claimed. */
  predicate Delivers(before: Run, r: Fetched, after: Run) {
    if before.rows != [] then r == Got(before.rows[0]) && after == Run(before.rows[1..], before.failed)
    else r == if before.failed then Error else Eof
  }

  lemma {:induction false} DrainStep(done: seq<Row>, before: Run, r: Fetched, after: Run)
    requires Delivers(before, r, after) && r.Got?
    ensures done + before.rows == (done + [r.row]) + after.rows && before.failed == after.failed
    ensures |after.rows| < |before.rows|
  {}

  // ---------- The run, step by step ----------

  /** The rest of a run with left row l in hand, scanning right rows from j on. */
  function ScanRun(p: Plan, l: Row, j: nat, matched: bool, lefts: Run, marks: seq<bool>): Run
    requires j <= |p.rights| == |marks|
    decreases |lefts.rows|, 1, |p.rights| - j
  {
    if j < |p.rights| then
      match p.on(l, p.rights[j])
      case Fails => Run([], true)
      case Keep => Prepend(l + p.rights[j], ScanRun(p, l, j + 1, true, lefts, Mark(p, marks, j)))
      case Drop => ScanRun(p, l, j + 1, matched, lefts, marks)
    else if p.kind == LEFT && !matched then Prepend(l + Nulls(p.rightWidth), LeftsRun(p, lefts, marks))
    else LeftsRun(p, lefts, marks)
  }

  /** The rest of a run with the left rows still to come. */
  function LeftsRun(p: Plan, lefts: Run, marks: seq<bool>): Run
    requires |p.rights| == |marks|
    decreases |lefts.rows|, 0, 0
  {
    if lefts.rows != [] then ScanRun(p, lefts.rows[0], 0, false, Run(lefts.rows[1..], lefts.failed), marks)
    else if lefts.failed then Run([], true)
    else if p.kind == RIGHT then UnmatchedRun(p, 0, marks)
    else Run([], false)
  }

  /** The second phase of a RIGHT join, from right row k on. */
  function UnmatchedRun(p: Plan, k: nat, marks: seq<bool>): Run
    requires k <= |p.rights| == |marks|
    decreases |p.rights| - k
  {
    if k == |p.rights| then Run([], false)
    else if marks[k] then UnmatchedRun(p, k + 1, marks)
    else Prepend(Nulls(p.leftWidth) + p.rights[k], UnmatchedRun(p, k + 1, marks))
  }

  function NoMarks(p: Plan): (marks: seq<bool>)
    ensures |marks| == |p.rights|
  {
    seq(|p.rights|, _ => false)
  }

  /** The whole run of an opened join. */
  function JoinRun(p: Plan, lefts: Run): Run {
    LeftsRun(p, lefts, NoMarks(p))
  }

  /** vector::resize with false: flags from an earlier cycle stay. */
  function Resized(marks: seq<bool>, n: nat): (r: seq<bool>)
    ensures |r| == n
  {
    seq(n, i requires 0 <= i < n => i < |marks| && marks[i])
  }

  /** The run of a join opened with what an earlier cycle left behind: the flags, and whether
      and how far it had come in the second phase. */
  function OpenedRun(p: Plan, lefts: Run, marks: seq<bool>, inPhase2: bool, at: nat): Run {
    var n := |p.rights|;
    if inPhase2 then UnmatchedRun(p, if at < n then at else n, Resized(marks, n))
    else LeftsRun(p, lefts, if p.kind == RIGHT then Resized(marks, n) else NoMarks(p))
  }

  // ---------- The operator ----------

  class NestedLoopJoin {
    const left: RowSource
    const right: RowSource
    const kind: JoinType
    const on: (Row, Row) -> Verdict
    const leftWidth: nat
    const rightWidth: nat
    var isOpen: bool
    var currentLeftRow: Option<Row>
    var rightRows: seq<Row>
    var rightRowIndex: nat
    var leftRowMatched: bool
    var rightRowsMatched: seq<bool>
    var rightRowsIndex: nat
    var inRightJoinPhase2: bool

    ghost predicate Valid()
      reads this, left, right
    {
      && left != right && left.Valid() && right.Valid()
      && (inRightJoinPhase2 ==> kind == RIGHT)
      && (!isOpen ==> currentLeftRow.None?)
      && (isOpen ==>
           && (currentLeftRow.Some? ==> rightRowIndex <= |rightRows|)
           && (kind == RIGHT ==> |rightRowsMatched| == |rightRows|))
    }

    ghost function ThePlan(): Plan
      reads this
    {
      Plan(kind, rightRows, on, leftWidth, rightWidth)
    }

    /** The match flags, which only a RIGHT join keeps. */
    ghost function Marks(): (marks: seq<bool>)
      reads this, left, right
      requires Valid() && isOpen
      ensures |marks| == |rightRows|
    {
      if kind == RIGHT then rightRowsMatched else NoMarks(ThePlan())
    }

    /** What draining from here gives. */
    ghost function Pending(): Run
      reads this, left, right
      requires Valid() && isOpen
    {
      if inRightJoinPhase2 then
        UnmatchedRun(ThePlan(), if rightRowsIndex < |rightRows| then rightRowsIndex else |rightRows|, Marks())
      else if currentLeftRow.Some? then
        ScanRun(ThePlan(), currentLeftRow.value, rightRowIndex, leftRowMatched, left.Pending(), Marks())
      else LeftsRun(ThePlan(), left.Pending(), Marks())
    }

    constructor (left: RowSource, right: RowSource, kind: JoinType, on: (Row, Row) -> Verdict, leftWidth: nat,
                 rightWidth: nat)
      requires left != right && left.Valid() && right.Valid()
      ensures Valid() && !isOpen && this.left == left && this.right == right && this.kind == kind
      ensures this.on == on && this.leftWidth == leftWidth && this.rightWidth == rightWidth
      ensures New()
    {
      this.left, this.right, this.kind, this.on := left, right, kind, on;
      this.leftWidth, this.rightWidth := leftWidth, rightWidth;
      isOpen, currentLeftRow, rightRows, rightRowIndex := false, None, [], 0;
      leftRowMatched, rightRowsMatched, rightRowsIndex, inRightJoinPhase2 := false, [], 0, false;
    }

    /** As constructed: nothing loaded, nothing in hand. */
    ghost predicate New()
      reads this
    {
      && !isOpen && currentLeftRow.None? && rightRows == [] && rightRowsMatched == []
      && rightRowIndex == 0 && rightRowsIndex == 0 && !inRightJoinPhase2
    }

    /** The right input is loaded before anything is joined. */
    method LoadRightTable() returns (ok: bool)
      requires Valid() && !isOpen
      modifies this`rightRows, right
      ensures Valid() && ok == !right.failsAtEnd
      ensures rightRows == old(rightRows) + old(right.Pending().rows)
    {
      ghost var before, all, n := rightRows, right.Pending().rows, 0;
      assert all[0..] == all && before + all[..0] == before;
      while true
        invariant Valid() && !isOpen && n <= |all|
        invariant right.Pending().rows == all[n..] && rightRows == before + all[..n]
        decreases |all| - n
      {
        if n < |all| {
          OneRowOn(all, n);
        }
        var r := right.Next();
        match r
        case Error =>
          return false;
        case Eof =>
          return true;
        case Got(row) =>
          rightRows := rightRows + [row];
          n := n + 1;
      }
    }

    /** Opening: what is pending is the run that what is left of earlier cycles makes of the
        inputs; for a fresh join, the whole join.  A join that is open stays as it is. */
    method Open() returns (ok: bool)
      requires Valid()
      modifies this, right
      ensures Valid()
      ensures old(isOpen) ==> ok && isOpen && rightRows == old(rightRows) && Pending() == old(Pending())
      ensures !old(isOpen) ==> ok == isOpen == !right.failsAtEnd
      ensures !old(isOpen) ==> rightRows == old(rightRows) + old(right.Pending().rows)
      ensures !old(isOpen) && ok ==> Pending() == OpenedRun(
        ThePlan(), left.Pending(), old(rightRowsMatched), old(inRightJoinPhase2), old(rightRowsIndex))
      ensures old(New()) && ok ==>
        rightRows == old(right.Pending().rows) && Pending() == JoinRun(ThePlan(), left.Pending())
    {
      if isOpen { return true; }
      ok := LoadRightTable();
      if !ok {
        return;
      }
      if kind == RIGHT {
        rightRowsMatched := Resized(rightRowsMatched, |rightRows|);
      }
      isOpen := true;
      assert Resized([], |rightRows|) == NoMarks(ThePlan());
    }

    /** Closing drops the right rows and the row in hand, and nothing else. */
    method Close()
      requires Valid()
      modifies this
      ensures Valid() && !isOpen && (old(isOpen) ==> rightRows == [])
      ensures inRightJoinPhase2 == old(inRightJoinPhase2) && rightRowsIndex == old(rightRowsIndex)
      ensures rightRowsMatched == old(rightRowsMatched)
    {
      if isOpen {
        rightRows := [];
        currentLeftRow := None;
        isOpen := false;
      }
    }

    /** One call of next: the first row of what is pending, or its end or error.  The
        pending run moves on by that row, so every call terminates and a drain cannot lose
        or repeat a row. */
    method Next() returns (r: Fetched)
      requires Valid()
      modifies this, left
      ensures Valid() && isOpen == old(isOpen) && rightRows == old(rightRows)
      ensures if old(isOpen) then Delivers(old(Pending()), r, Pending()) else r == Error
      ensures r == Eof && kind == RIGHT ==> inRightJoinPhase2 && rightRowsIndex >= |rightRows|
    {
      if !isOpen {
        return Error;
      }
      if kind == RIGHT && inRightJoinPhase2 {
        r := NextUnmatched();
      } else {
        r := NextJoined();
      }
    }

    /** Second phase of a RIGHT join: the next right row that matched nothing. */
    method NextUnmatched() returns (r: Fetched)
      requires Valid() && isOpen && kind == RIGHT && inRightJoinPhase2
      modifies this`rightRowsIndex
      ensures Valid() && Delivers(old(Pending()), r, Pending())
      ensures r == Eof ==> rightRowsIndex >= |rightRows|
    {
      while rightRowsIndex < |rightRows|
        invariant Valid() && Pending() == old(Pending())
      {
        if !rightRowsMatched[rightRowsIndex] {
          var rightRow := rightRows[rightRowsIndex];
          rightRowsIndex := rightRowsIndex + 1;
          return Got(Nulls(leftWidth) + rightRow);
        }
        rightRowsIndex := rightRowsIndex + 1;
      }
      r := Eof;
    }

    /** The left row in hand against the right rows not yet tried: a joined row, an error,
        or Eof when none is left to match. */
    method ScanRights() returns (r: Fetched)
      requires Valid() && isOpen && !inRightJoinPhase2 && currentLeftRow.Some?
      modifies this`rightRowIndex, this`leftRowMatched, this`rightRowsMatched
      ensures Valid()
      ensures r != Eof ==> Delivers(old(Pending()), r, Pending())
      ensures r == Eof ==> rightRowIndex == |rightRows| && Pending() == old(Pending())
    {
      while rightRowIndex < |rightRows|
        invariant Valid() && Pending() == old(Pending())
      {
        var rightRow := rightRows[rightRowIndex];
        var verdict := on(currentLeftRow.value, rightRow);
        if verdict == Fails {
          return Error;
        }
        rightRowIndex := rightRowIndex + 1;
        if verdict == Keep {
          leftRowMatched := true;
          if kind == RIGHT {
            rightRowsMatched := rightRowsMatched[rightRowIndex - 1 := true];
          }
          return Got(currentLeftRow.value + rightRow);
        }
      }
      r := Eof;
    }

    /** The next left row into hand. */
    method NextLeft() returns (fetched: Fetched)
      requires Valid() && isOpen && !inRightJoinPhase2 && currentLeftRow.None?
      modifies this`currentLeftRow, this`rightRowIndex, this`leftRowMatched, left
      ensures Valid() && Pending() == old(Pending())
      ensures fetched.Got? ==> currentLeftRow.Some? && |left.Pending().rows| < |old(left.Pending().rows)|
      ensures !fetched.Got? ==>
        && currentLeftRow.None? && left.Pending() == old(left.Pending())
        && left.Pending() == Run([], fetched == Error)
    {
      fetched := left.Next();
      if fetched.Got? {
        currentLeftRow := Some(fetched.row);
        rightRowIndex := 0;
        leftRowMatched := false;
      }
    }

    /** First phase: the nested loops, resumed where the last call left off. */
    method NextJoined() returns (r: Fetched)
      requires Valid() && isOpen && !inRightJoinPhase2
      modifies this, left
      ensures Valid() && isOpen && rightRows == old(rightRows)
      ensures Delivers(old(Pending()), r, Pending())
      ensures r == Eof && kind == RIGHT ==> inRightJoinPhase2 && rightRowsIndex >= |rightRows|
    {
      while true
        invariant Valid() && isOpen && !inRightJoinPhase2
        invariant rightRows == old(rightRows) && Pending() == old(Pending())
        decreases |left.Pending().rows|, if currentLeftRow.Some? then 1 else 0
      {
        if currentLeftRow.None? {
          var fetched := NextLeft();
          if fetched == Error {
            return Error;
          }
          if fetched == Eof {
            if kind == RIGHT {
              inRightJoinPhase2 := true;
              rightRowsIndex := 0;
              r := NextUnmatched();
              return;
            }
            return Eof;
          }
        }
        r := ScanRights();
        if r != Eof {
          return;
        }
        if kind == LEFT && !leftRowMatched {
          r := Got(currentLeftRow.value + Nulls(rightWidth));
          currentLeftRow := None;
          leftRowMatched := false;
          return;
        }
        currentLeftRow := None;
      }
    }

    /** Pulling until the end or the first error. */
    method Drain() returns (rows: seq<Row>, failed: bool)
      requires Valid() && isOpen
      modifies this, left
      ensures Run(rows, failed) == old(Pending())
      ensures Valid() && isOpen && rightRows == old(rightRows)
      ensures kind == RIGHT && !failed ==> inRightJoinPhase2 && rightRowsIndex >= |rightRows|
    {
      rows := [];
      ghost var all := Pending();
      while true
        invariant Valid() && isOpen && rightRows == old(rightRows)
        invariant all.rows == rows + Pending().rows && all.failed == Pending().failed
        decreases |Pending().rows|
      {
        ghost var before := Pending();
        var r := Next();
        if !r.Got? {
          return rows, r.Error?;
        }
        DrainStep(rows, before, r, Pending());
        rows := rows + [r.row];
      }
    }
  }
}
