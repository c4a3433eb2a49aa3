/** The runs of the join iterator are the INNER, LEFT and RIGHT joins. */
module JoinLaws {
  import opened Values
  import opened Sequences
  import opened Expressions
  import opened Operators
  import opened Join

  // ---------- The joins, stated on whole inputs ----------

  predicate Pairs(p: Plan, l: Row, r: Row) {
    p.on(l, r) == Keep
  }

  /** l joined with each right row it pairs with, from the j-th on, in order. */
  function Partners(p: Plan, l: Row, j: nat): seq<Row>
    requires j <= |p.rights|
    decreases |p.rights| - j
  {
    if j == |p.rights| then []
    else (if Pairs(p, l, p.rights[j]) then [l + p.rights[j]] else []) + Partners(p, l, j + 1)
  }

  /** INNER JOIN: left by left, its partners. */
  function InnerJoin(p: Plan, lefts: seq<Row>): seq<Row> {
    if lefts == [] then [] else Partners(p, lefts[0], 0) + InnerJoin(p, lefts[1..])
  }

  /** LEFT JOIN: a left row without partners stands in its place, padded with NULLs. */
  function LeftJoin(p: Plan, lefts: seq<Row>): seq<Row> {
    if lefts == [] then []
    else
      var own := Partners(p, lefts[0], 0);
      (if own == [] then [lefts[0] + Nulls(p.rightWidth)] else own) + LeftJoin(p, lefts[1..])
  }

  predicate HasPartner(p: Plan, lefts: seq<Row>, r: Row) {
    exists i :: 0 <= i < |lefts| && Pairs(p, lefts[i], r)
  }

  /** The right rows from the k-th on that no left row pairs with, padded on the left. */
  function Lonely(p: Plan, lefts: seq<Row>, k: nat): seq<Row>
    requires k <= |p.rights|
    decreases |p.rights| - k
  {
    if k == |p.rights| then []
    else
      (if HasPartner(p, lefts, p.rights[k]) then [] else [Nulls(p.leftWidth) + p.rights[k]])
      + Lonely(p, lefts, k + 1)
  }

  /** RIGHT JOIN: the inner join, then the lonely right rows. */
  function RightJoin(p: Plan, lefts: seq<Row>): seq<Row> {
    InnerJoin(p, lefts) + Lonely(p, lefts, 0)
  }

  function JoinOf(p: Plan, lefts: seq<Row>): seq<Row> {
    match p.kind
    case INNER => InnerJoin(p, lefts)
    case LEFT => LeftJoin(p, lefts)
    case RIGHT => RightJoin(p, lefts)
  }

  /** Some pair on which the ON condition does not evaluate. */
  predicate SomeFails(p: Plan, lefts: seq<Row>) {
    exists i, j :: 0 <= i < |lefts| && 0 <= j < |p.rights| && p.on(lefts[i], p.rights[j]) == Fails
  }

  // ---------- Errors ----------

  predicate FailsFrom(p: Plan, l: Row, j: nat) {
    exists k :: j <= k < |p.rights| && p.on(l, p.rights[k]) == Fails
  }

  lemma {:induction false} ScanFails(p: Plan, l: Row, j: nat, matched: bool, lefts: Run, marks: seq<bool>)
    requires j <= |p.rights| == |marks|
    ensures ScanRun(p, l, j, matched, lefts, marks).failed
        <==> FailsFrom(p, l, j) || lefts.failed || SomeFails(p, lefts.rows)
    decreases |lefts.rows|, 1, |p.rights| - j
  {
    if j == |p.rights| {
      LeftsFail(p, lefts, marks);
    } else if p.on(l, p.rights[j]) != Fails {
      var keep := p.on(l, p.rights[j]) == Keep;
      ScanFails(p, l, j + 1, if keep then true else matched, lefts, if keep then Mark(p, marks, j) else marks);
    }
  }

  lemma {:induction false} LeftsFail(p: Plan, lefts: Run, marks: seq<bool>)
    requires |p.rights| == |marks|
    ensures LeftsRun(p, lefts, marks).failed <==> lefts.failed || SomeFails(p, lefts.rows)
    decreases |lefts.rows|, 0, 0
  {
    if lefts.rows != [] {
      var rest := Run(lefts.rows[1..], lefts.failed);
      ScanFails(p, lefts.rows[0], 0, false, rest, marks);
      if SomeFails(p, lefts.rows) && !FailsFrom(p, lefts.rows[0], 0) {
        var i, j :| 0 <= i < |lefts.rows| && 0 <= j < |p.rights| && p.on(lefts.rows[i], p.rights[j]) == Fails;
        assert p.on(rest.rows[i - 1], p.rights[j]) == Fails;
      }
      if SomeFails(p, rest.rows) {
        var i, j :| 0 <= i < |rest.rows| && 0 <= j < |p.rights| && p.on(rest.rows[i], p.rights[j]) == Fails;
        assert p.on(lefts.rows[i + 1], p.rights[j]) == Fails;
      }
    } else if !lefts.failed && p.kind == RIGHT {
      UnmatchedNeverFails(p, 0, marks);
    }
  }

  lemma {:induction false} UnmatchedNeverFails(p: Plan, k: nat, marks: seq<bool>)
    requires k <= |p.rights| == |marks|
    ensures !UnmatchedRun(p, k, marks).failed
    decreases |p.rights| - k
  {
    if k < |p.rights| { UnmatchedNeverFails(p, k + 1, marks); }
  }

  // ---------- Rows ----------

  /** The flags after left row l has been tried from right row j on. */
  function MarksAfter(p: Plan, l: Row, j: nat, marks: seq<bool>): (r: seq<bool>)
    requires j <= |p.rights| == |marks|
    ensures |r| == |marks|
    ensures p.kind == RIGHT ==> forall k :: 0 <= k < |r| ==> r[k] == (marks[k] || (j <= k && Pairs(p, l, p.rights[k])))
    ensures p.kind != RIGHT ==> r == marks
    decreases |p.rights| - j
  {
    if j == |p.rights| then marks
    else MarksAfter(p, l, j + 1, if Pairs(p, l, p.rights[j]) then Mark(p, marks, j) else marks)
  }

  lemma {:induction false} ScanRows(p: Plan, l: Row, j: nat, matched: bool, lefts: Run, marks: seq<bool>)
    requires j <= |p.rights| == |marks| && !FailsFrom(p, l, j)
    ensures var own := Partners(p, l, j);
      ScanRun(p, l, j, matched, lefts, marks).rows
        == own + (if p.kind == LEFT && !matched && own == [] then [l + Nulls(p.rightWidth)] else [])
         + LeftsRun(p, lefts, MarksAfter(p, l, j, marks)).rows
    decreases |p.rights| - j
  {
    if j < |p.rights| {
      assert p.on(l, p.rights[j]) != Fails;
      if Pairs(p, l, p.rights[j]) {
        ScanRows(p, l, j + 1, true, lefts, Mark(p, marks, j));
      } else {
        ScanRows(p, l, j + 1, matched, lefts, marks);
        assert Partners(p, l, j) == Partners(p, l, j + 1);
      }
    }
  }

  /** The rows of a run from a given state of the match flags on. */
  function JoinFrom(p: Plan, lefts: seq<Row>, marks: seq<bool>): seq<Row>
    requires |p.rights| == |marks|
  {
    match p.kind
    case INNER => InnerJoin(p, lefts)
    case LEFT => LeftJoin(p, lefts)
    case RIGHT => InnerJoin(p, lefts) + LonelyUnmarked(p, lefts, marks, 0)
  }

  function LonelyUnmarked(p: Plan, lefts: seq<Row>, marks: seq<bool>, k: nat): seq<Row>
    requires k <= |p.rights| == |marks|
    decreases |p.rights| - k
  {
    if k == |p.rights| then []
    else
      var rest := LonelyUnmarked(p, lefts, marks, k + 1);
      if marks[k] || HasPartner(p, lefts, p.rights[k]) then rest else [Nulls(p.leftWidth) + p.rights[k]] + rest
  }

  lemma {:induction false} UnmatchedRows(p: Plan, k: nat, marks: seq<bool>)
    requires k <= |p.rights| == |marks|
    ensures UnmatchedRun(p, k, marks).rows == LonelyUnmarked(p, [], marks, k)
    decreases |p.rights| - k
  {
    if k < |p.rights| { UnmatchedRows(p, k + 1, marks); }
  }

  /** Trying one more left row moves its partners from "to be found" to "marked". */
  lemma {:induction false} LonelyOneMore(p: Plan, lefts: seq<Row>, marks: seq<bool>, k: nat)
    requires lefts != [] && k <= |p.rights| == |marks| && p.kind == RIGHT
    ensures LonelyUnmarked(p, lefts, marks, k) == LonelyUnmarked(p, lefts[1..], MarksAfter(p, lefts[0], 0, marks), k)
    decreases |p.rights| - k
  {
    if k < |p.rights| {
      LonelyOneMore(p, lefts, marks, k + 1);
      var r := p.rights[k];
      if HasPartner(p, lefts, r) && !Pairs(p, lefts[0], r) {
        var i :| 0 <= i < |lefts| && Pairs(p, lefts[i], r);
        assert Pairs(p, lefts[1..][i - 1], r);
      }
      if HasPartner(p, lefts[1..], r) {
        var i :| 0 <= i < |lefts[1..]| && Pairs(p, lefts[1..][i], r);
        assert Pairs(p, lefts[i + 1], r);
      }
    }
  }

  lemma {:induction false} NoneFails(p: Plan, lefts: seq<Row>)
    requires lefts != [] && !SomeFails(p, lefts)
    ensures !FailsFrom(p, lefts[0], 0) && !SomeFails(p, lefts[1..])
  {
    assert forall i :: 0 <= i < |lefts| - 1 ==> lefts[1..][i] == lefts[i + 1];
  }

  lemma {:induction false} LeftsRows(p: Plan, lefts: seq<Row>, marks: seq<bool>)
    requires |p.rights| == |marks| && !SomeFails(p, lefts)
    ensures LeftsRun(p, Run(lefts, false), marks).rows == JoinFrom(p, lefts, marks)
    decreases |lefts|
  {
    if lefts == [] {
      UnmatchedRows(p, 0, marks);
    } else {
      var l, rest := lefts[0], lefts[1..];
      NoneFails(p, lefts);
      ScanRows(p, l, 0, false, Run(rest, false), marks);
      LeftsRows(p, rest, MarksAfter(p, l, 0, marks));
      JoinFromStep(p, lefts, marks);
    }
  }

  lemma {:induction false} JoinFromStep(p: Plan, lefts: seq<Row>, marks: seq<bool>)
    requires |p.rights| == |marks| && lefts != []
    ensures var own := Partners(p, lefts[0], 0);
      JoinFrom(p, lefts, marks)
        == own + (if p.kind == LEFT && own == [] then [lefts[0] + Nulls(p.rightWidth)] else [])
         + JoinFrom(p, lefts[1..], MarksAfter(p, lefts[0], 0, marks))
  {
    if p.kind == RIGHT { LonelyOneMore(p, lefts, marks, 0); }
  }

  lemma {:induction false} UnmarkedIsLonely(p: Plan, lefts: seq<Row>, k: nat)
    requires k <= |p.rights|
    ensures LonelyUnmarked(p, lefts, NoMarks(p), k) == Lonely(p, lefts, k)
    decreases |p.rights| - k
  {
    if k < |p.rights| { UnmarkedIsLonely(p, lefts, k + 1); }
  }

  /** Draining an opened join yields the INNER, LEFT or RIGHT join of its inputs; it ends in
      an error exactly when the left input does or some pair cannot be judged. */
  lemma {:induction false} JoinRunIsJoin(p: Plan, lefts: Run)
    ensures JoinRun(p, lefts).failed <==> lefts.failed || SomeFails(p, lefts.rows)
    ensures !JoinRun(p, lefts).failed ==> JoinRun(p, lefts).rows == JoinOf(p, lefts.rows)
  {
    LeftsFail(p, lefts, NoMarks(p));
    if !JoinRun(p, lefts).failed {
      LeftsRows(p, lefts.rows, NoMarks(p));
      UnmarkedIsLonely(p, lefts.rows, 0);
    }
  }

  // ---------- Which rows a join has ----------

  /** A left row and a right row that pair, side by side. */
  predicate IsPair(p: Plan, lefts: seq<Row>, row: Row) {
    exists i, j :: 0 <= i < |lefts| && 0 <= j < |p.rights| && Pairs(p, lefts[i], p.rights[j])
      && row == lefts[i] + p.rights[j]
  }

  predicate AllNull(row: Row) {
    forall i :: 0 <= i < |row| ==> row[i] == Null(NULL_TYPE)
  }

  /** A left row that pairs with no right row, and behind it a NULL for every right column. */
  predicate IsLeftAlone(p: Plan, lefts: seq<Row>, row: Row) {
    exists i :: 0 <= i < |lefts| && IsAloneFor(p, lefts[i], row)
  }

  predicate IsAloneFor(p: Plan, l: Row, row: Row) {
    && (forall j :: 0 <= j < |p.rights| ==> !Pairs(p, l, p.rights[j]))
    && l <= row && |row| == |l| + p.rightWidth && AllNull(row[|l|..])
  }

  /** A right row that no left row pairs with, and in front of it a NULL for every left column. */
  predicate IsRightAlone(p: Plan, lefts: seq<Row>, row: Row) {
    exists j :: 0 <= j < |p.rights| && RightAloneAt(p, lefts, j, row)
  }

  predicate RightAloneAt(p: Plan, lefts: seq<Row>, j: nat, row: Row)
    requires j < |p.rights|
  {
    && !HasPartner(p, lefts, p.rights[j])
    && |row| == p.leftWidth + |p.rights[j]| && row[p.leftWidth..] == p.rights[j] && AllNull(row[..p.leftWidth])
  }

  /** A drained join has exactly the pairs; a LEFT JOIN besides them the left rows that are alone,
      and a RIGHT JOIN the right rows that are alone. */
  lemma {:induction false} JoinHasRow(p: Plan, lefts: Run, row: Row)
    requires !JoinRun(p, lefts).failed
    ensures row in JoinRun(p, lefts).rows <==>
      || IsPair(p, lefts.rows, row)
      || (p.kind == LEFT && IsLeftAlone(p, lefts.rows, row))
      || (p.kind == RIGHT && IsRightAlone(p, lefts.rows, row))
  {
    JoinRunIsJoin(p, lefts);
    if p.kind == LEFT {
      LeftJoinHas(p, lefts.rows, row);
    } else {
      InnerJoinHas(p, lefts.rows, row);
      LonelyHas(p, lefts.rows, 0, row);
    }
  }

  predicate PairsFrom(p: Plan, l: Row, j: nat, row: Row) {
    exists k :: j <= k < |p.rights| && Pairs(p, l, p.rights[k]) && row == l + p.rights[k]
  }

  lemma {:induction false} PartnersHave(p: Plan, l: Row, j: nat, row: Row)
    requires j <= |p.rights|
    ensures row in Partners(p, l, j) <==> PairsFrom(p, l, j, row)
    ensures Partners(p, l, j) == [] <==> forall k :: j <= k < |p.rights| ==> !Pairs(p, l, p.rights[k])
    decreases |p.rights| - j
  {
    if j < |p.rights| {
      PartnersHave(p, l, j + 1, row);
    }
  }

  /** A row is a pair of the first left row or of a later one. */
  lemma {:induction false} PairOfFirst(p: Plan, lefts: seq<Row>, row: Row)
    requires lefts != []
    ensures IsPair(p, lefts, row) <==> PairsFrom(p, lefts[0], 0, row) || IsPair(p, lefts[1..], row)
  {
    if IsPair(p, lefts, row) {
      var i, j :| 0 <= i < |lefts| && 0 <= j < |p.rights| && Pairs(p, lefts[i], p.rights[j])
        && row == lefts[i] + p.rights[j];
      if i > 0 { assert Pairs(p, lefts[1..][i - 1], p.rights[j]); }
    }
    if IsPair(p, lefts[1..], row) {
      var i, j :| 0 <= i < |lefts| - 1 && 0 <= j < |p.rights| && Pairs(p, lefts[1..][i], p.rights[j])
        && row == lefts[1..][i] + p.rights[j];
      assert Pairs(p, lefts[i + 1], p.rights[j]);
    }
  }

  lemma {:induction false} InnerJoinHas(p: Plan, lefts: seq<Row>, row: Row)
    ensures row in InnerJoin(p, lefts) <==> IsPair(p, lefts, row)
  {
    if lefts != [] {
      InnerJoinHas(p, lefts[1..], row);
      PartnersHave(p, lefts[0], 0, row);
      PairOfFirst(p, lefts, row);
    }
  }

  lemma {:induction false} PaddedIsAlone(p: Plan, l: Row, row: Row)
    requires forall j :: 0 <= j < |p.rights| ==> !Pairs(p, l, p.rights[j])
    ensures row == l + Nulls(p.rightWidth) <==> IsAloneFor(p, l, row)
  {
    if IsAloneFor(p, l, row) {
      assert row[|l|..] == Nulls(p.rightWidth);
      assert row == row[..|l|] + row[|l|..];
    }
    if row == l + Nulls(p.rightWidth) {
      assert row[|l|..] == Nulls(p.rightWidth);
    }
  }

  lemma {:induction false} LeftJoinHas(p: Plan, lefts: seq<Row>, row: Row)
    ensures row in LeftJoin(p, lefts) <==> IsPair(p, lefts, row) || IsLeftAlone(p, lefts, row)
  {
    if lefts != [] {
      LeftJoinHas(p, lefts[1..], row);
      PartnersHave(p, lefts[0], 0, row);
      PairOfFirst(p, lefts, row);
      AloneOfFirst(p, lefts, row);
      if Partners(p, lefts[0], 0) == [] {
        PaddedIsAlone(p, lefts[0], row);
      }
    }
  }

  lemma {:induction false} AloneOfFirst(p: Plan, lefts: seq<Row>, row: Row)
    requires lefts != []
    ensures IsLeftAlone(p, lefts, row) <==> IsAloneFor(p, lefts[0], row) || IsLeftAlone(p, lefts[1..], row)
  {
    if IsLeftAlone(p, lefts, row) {
      var i :| 0 <= i < |lefts| && IsAloneFor(p, lefts[i], row);
      if i > 0 { assert IsAloneFor(p, lefts[1..][i - 1], row); }
    }
    if IsLeftAlone(p, lefts[1..], row) {
      var i :| 0 <= i < |lefts| - 1 && IsAloneFor(p, lefts[1..][i], row);
      assert IsAloneFor(p, lefts[i + 1], row);
    }
  }

  lemma {:induction false} LonelyHas(p: Plan, lefts: seq<Row>, k: nat, row: Row)
    requires k <= |p.rights|
    ensures row in Lonely(p, lefts, k) <==> exists j :: k <= j < |p.rights| && RightAloneAt(p, lefts, j, row)
    decreases |p.rights| - k
  {
    if k < |p.rights| {
      LonelyHas(p, lefts, k + 1, row);
      var r, pad := p.rights[k], Nulls(p.leftWidth);
      if row == pad + r {
        assert row[p.leftWidth..] == r && row[..p.leftWidth] == pad;
      }
      if RightAloneAt(p, lefts, k, row) {
        assert row == row[..p.leftWidth] + row[p.leftWidth..];
        assert row[..p.leftWidth] == pad;
      }
    }
  }

  // ---------- Opening again ----------

  /** An INNER or LEFT join opened again is the join again, whatever the earlier cycle left. */
  lemma {:induction false} ReopenedIsJoin(p: Plan, lefts: Run, marks: seq<bool>, at: nat)
    requires p.kind != RIGHT
    ensures OpenedRun(p, lefts, marks, false, at) == JoinRun(p, lefts)
  {
  }

  /** A RIGHT join that was drained to its end and closed yields nothing when opened again; that
      is the join exactly when the right input is empty and the left input does not fail. */
  lemma {:induction false} ReopenedRightJoinIff(p: Plan, lefts: Run, marks: seq<bool>, at: nat)
    requires p.kind == RIGHT && at >= |p.rights|
    ensures OpenedRun(p, lefts, marks, true, at) == Run([], false)
    ensures OpenedRun(p, lefts, marks, true, at) == JoinRun(p, lefts) <==> p.rights == [] && !lefts.failed
  {
    JoinRunIsJoin(p, lefts);
    if p.rights == [] {
      NoRightsNoRows(p, lefts.rows);
    } else if !JoinRun(p, lefts).failed {
      RightRowAppears(p, lefts.rows);
    }
  }

  lemma {:induction false} NoRightsNoRows(p: Plan, lefts: seq<Row>)
    requires p.kind == RIGHT && p.rights == []
    ensures RightJoin(p, lefts) == [] && !SomeFails(p, lefts)
  {
    if lefts != [] {
      NoRightsNoRows(p, lefts[1..]);
    }
  }

  lemma {:induction false} RightRowAppears(p: Plan, lefts: seq<Row>)
    requires p.kind == RIGHT && p.rights != []
    ensures RightJoin(p, lefts) != []
  {
    if HasPartner(p, lefts, p.rights[0]) {
      var i :| 0 <= i < |lefts| && Pairs(p, lefts[i], p.rights[0]);
      PartnerIsJoined(p, lefts, i);
    }
  }

  lemma {:induction false} PartnerIsJoined(p: Plan, lefts: seq<Row>, i: nat)
    requires p.rights != [] && i < |lefts| && Pairs(p, lefts[i], p.rights[0])
    ensures InnerJoin(p, lefts) != []
  {
    if i > 0 {
      PartnerIsJoined(p, lefts[1..], i - 1);
    }
  }

  // ---------- RIGHT JOIN is LEFT JOIN turned round ----------

  /** A row with its first n columns moved behind the others. */
  function SwapColumns(row: Row, n: nat): Row {
    if n <= |row| then row[n..] + row[..n] else row
  }

  function SwapAll(rows: seq<Row>, n: nat): seq<Row> {
    if rows == [] then [] else [SwapColumns(rows[0], n)] + SwapAll(rows[1..], n)
  }

  /** The LEFT JOIN of the right input with the left one. */
  function TurnedRound(p: Plan, lefts: seq<Row>): Plan {
    Plan(LEFT, lefts, (r, l) => p.on(l, r), p.rightWidth, p.leftWidth)
  }

  /** The joined rows of one right row, left by left. */
  function Column(p: Plan, lefts: seq<Row>, r: Row): seq<Row> {
    if lefts == [] then []
    else (if Pairs(p, lefts[0], r) then [lefts[0] + r] else []) + Column(p, lefts[1..], r)
  }

  function Columns(p: Plan, lefts: seq<Row>, k: nat): seq<Row>
    requires k <= |p.rights|
    decreases |p.rights| - k
  {
    if k == |p.rights| then [] else Column(p, lefts, p.rights[k]) + Columns(p, lefts, k + 1)
  }

  lemma {:induction false} SwapAllConcat(a: seq<Row>, b: seq<Row>, n: nat)
    ensures SwapAll(a + b, n) == SwapAll(a, n) + SwapAll(b, n)
  {
    if a == [] {
      assert a + b == b;
    } else {
      assert (a + b)[0] == a[0] && (a + b)[1..] == a[1..] + b;
      SwapAllConcat(a[1..], b, n);
    }
  }

  lemma {:induction false} SwapPartners(p: Plan, lefts: seq<Row>, r: Row, j: nat)
    requires j <= |lefts| && |r| == p.rightWidth
    ensures SwapAll(Partners(TurnedRound(p, lefts), r, j), p.rightWidth) == Column(p, lefts[j..], r)
    ensures Partners(TurnedRound(p, lefts), r, j) == [] <==> !HasPartner(p, lefts[j..], r)
    decreases |lefts| - j
  {
    var q := TurnedRound(p, lefts);
    if j < |lefts| {
      SwapPartners(p, lefts, r, j + 1);
      assert lefts[j..][1..] == lefts[j + 1..];
      if Pairs(q, r, lefts[j]) {
        assert Pairs(p, lefts[j..][0], r);
        SwapAllConcat([r + lefts[j]], Partners(q, r, j + 1), p.rightWidth);
        assert SwapColumns(r + lefts[j], p.rightWidth) == lefts[j] + r;
        assert [r + lefts[j]][1..] == [];
      } else {
        assert Partners(q, r, j) == Partners(q, r, j + 1);
        HasPartnerTail(p, lefts[j..], r);
      }
    }
  }

  lemma {:induction false} HasPartnerTail(p: Plan, lefts: seq<Row>, r: Row)
    requires lefts != [] && !Pairs(p, lefts[0], r)
    ensures HasPartner(p, lefts, r) <==> HasPartner(p, lefts[1..], r)
  {
    if HasPartner(p, lefts, r) {
      var i :| 0 <= i < |lefts| && Pairs(p, lefts[i], r);
      assert Pairs(p, lefts[1..][i - 1], r);
    }
    if HasPartner(p, lefts[1..], r) {
      var i :| 0 <= i < |lefts| - 1 && Pairs(p, lefts[1..][i], r);
      assert Pairs(p, lefts[i + 1], r);
    }
  }

  /** Counting the joined rows by columns or by rows gives the same bag. */
  lemma {:induction false} ColumnsOneMore(p: Plan, lefts: seq<Row>, k: nat)
    requires k <= |p.rights| && lefts != []
    ensures multiset(Columns(p, lefts, k)) == multiset(Partners(p, lefts[0], k)) + multiset(Columns(p, lefts[1..], k))
    decreases |p.rights| - k
  {
    if k < |p.rights| {
      ColumnsOneMore(p, lefts, k + 1);
      var r := p.rights[k];
      var own := if Pairs(p, lefts[0], r) then [lefts[0] + r] else [];
      assert Partners(p, lefts[0], k) == own + Partners(p, lefts[0], k + 1);
      Shuffle(own, Column(p, lefts[1..], r), Columns(p, lefts, k + 1), Partners(p, lefts[0], k + 1),
              Columns(p, lefts[1..], k + 1));
    }
  }

  lemma {:induction false} Shuffle(own: seq<Row>, column: seq<Row>, all: seq<Row>, partners: seq<Row>, others: seq<Row>)
    requires multiset(all) == multiset(partners) + multiset(others)
    ensures multiset(own + column + all) == multiset(own + partners) + multiset(column + others)
  {
  }

  lemma {:induction false} NoColumns(p: Plan, k: nat)
    requires k <= |p.rights|
    ensures Columns(p, [], k) == []
    decreases |p.rights| - k
  {
    if k < |p.rights| { NoColumns(p, k + 1); }
  }

  lemma {:induction false} ColumnsAreRows(p: Plan, lefts: seq<Row>)
    ensures multiset(Columns(p, lefts, 0)) == multiset(InnerJoin(p, lefts))
  {
    if lefts == [] {
      NoColumns(p, 0);
    } else {
      ColumnsAreRows(p, lefts[1..]);
      ColumnsOneMore(p, lefts, 0);
    }
  }

  /** The rows that one right row gives to the turned-round LEFT JOIN, turned back. */
  lemma {:induction false} TurnedRows(p: Plan, lefts: seq<Row>, k: nat)
    requires k < |p.rights| && |p.rights[k]| == p.rightWidth
    ensures var q, r := TurnedRound(p, lefts), p.rights[k];
      SwapAll(LeftJoin(q, p.rights[k..]), p.rightWidth)
      == (if HasPartner(p, lefts, r) then Column(p, lefts, r) else [Nulls(p.leftWidth) + r])
         + SwapAll(LeftJoin(q, p.rights[k + 1..]), p.rightWidth)
  {
    var q, r := TurnedRound(p, lefts), p.rights[k];
    assert p.rights[k..][1..] == p.rights[k + 1..];
    SwapPartners(p, lefts, r, 0);
    assert lefts[0..] == lefts;
    var own := Partners(q, r, 0);
    var padded := [r + Nulls(p.leftWidth)];
    SwapAllConcat(if own == [] then padded else own, LeftJoin(q, p.rights[k + 1..]), p.rightWidth);
    assert padded[1..] == [];
    assert SwapColumns(r + Nulls(p.leftWidth), p.rightWidth) == Nulls(p.leftWidth) + r;
  }

  lemma {:induction false} NoPartnerNoColumn(p: Plan, lefts: seq<Row>, r: Row)
    requires !HasPartner(p, lefts, r)
    ensures Column(p, lefts, r) == []
  {
    if lefts != [] {
      HasPartnerTail(p, lefts, r);
      NoPartnerNoColumn(p, lefts[1..], r);
    }
  }

  lemma {:induction false} ColumnsFrom(p: Plan, lefts: seq<Row>, k: nat)
    requires k < |p.rights|
    ensures var r := p.rights[k];
      multiset(Columns(p, lefts, k)) + multiset(Lonely(p, lefts, k))
      == multiset(if HasPartner(p, lefts, r) then Column(p, lefts, r) else [Nulls(p.leftWidth) + r])
         + (multiset(Columns(p, lefts, k + 1)) + multiset(Lonely(p, lefts, k + 1)))
  {
    var r := p.rights[k];
    if HasPartner(p, lefts, r) {
      assert Lonely(p, lefts, k) == Lonely(p, lefts, k + 1);
    } else {
      NoPartnerNoColumn(p, lefts, r);
      assert Columns(p, lefts, k) == Columns(p, lefts, k + 1);
    }
  }

  lemma {:induction false} BagsAddUp(whole: seq<Row>, own: seq<Row>, rest: seq<Row>, bag: multiset<Row>,
                                     restBag: multiset<Row>)
    requires whole == own + rest && multiset(rest) == restBag && bag == multiset(own) + restBag
    ensures multiset(whole) == bag
  {
    BagOfConcat(own, rest);
  }

  /** From right row k on: the swapped LEFT JOIN as a bag, */
  function TurnedBag(p: Plan, lefts: seq<Row>, k: nat): multiset<Row>
    requires k <= |p.rights|
  {
    multiset(SwapAll(LeftJoin(TurnedRound(p, lefts), p.rights[k..]), p.rightWidth))
  }

  /** and the columns and the lonely rows. */
  function ColumnBag(p: Plan, lefts: seq<Row>, k: nat): multiset<Row>
    requires k <= |p.rights|
  {
    multiset(Columns(p, lefts, k)) + multiset(Lonely(p, lefts, k))
  }

  lemma {:induction false} TurnedEnd(p: Plan, lefts: seq<Row>)
    ensures TurnedBag(p, lefts, |p.rights|) == ColumnBag(p, lefts, |p.rights|)
  {
    var q := TurnedRound(p, lefts);
    assert LeftJoin(q, p.rights[|p.rights|..]) == [];
    assert Columns(p, lefts, |p.rights|) == [] && Lonely(p, lefts, |p.rights|) == [];
  }

  lemma {:induction false} TurnedStep(p: Plan, lefts: seq<Row>, k: nat)
    requires k < |p.rights| && |p.rights[k]| == p.rightWidth && TurnedBag(p, lefts, k + 1) == ColumnBag(p, lefts, k + 1)
    ensures TurnedBag(p, lefts, k) == ColumnBag(p, lefts, k)
  {
    var r, q := p.rights[k], TurnedRound(p, lefts);
    var own := if HasPartner(p, lefts, r) then Column(p, lefts, r) else [Nulls(p.leftWidth) + r];
    TurnedRows(p, lefts, k);
    ColumnsFrom(p, lefts, k);
    BagsAddUp(SwapAll(LeftJoin(q, p.rights[k..]), p.rightWidth), own,
              SwapAll(LeftJoin(q, p.rights[k + 1..]), p.rightWidth),
              ColumnBag(p, lefts, k), ColumnBag(p, lefts, k + 1));
  }

  lemma {:induction false} TurnedLeftJoin(p: Plan, lefts: seq<Row>, k: nat)
    requires k <= |p.rights| && forall r :: r in p.rights ==> |r| == p.rightWidth
    ensures TurnedBag(p, lefts, k) == ColumnBag(p, lefts, k)
    decreases |p.rights| - k
  {
    if k == |p.rights| {
      TurnedEnd(p, lefts);
    } else {
      TurnedMiddle(p, lefts, k);
    }
  }

  lemma {:induction false} TurnedMiddle(p: Plan, lefts: seq<Row>, k: nat)
    requires k < |p.rights| && forall r :: r in p.rights ==> |r| == p.rightWidth
    ensures TurnedBag(p, lefts, k) == ColumnBag(p, lefts, k)
    decreases |p.rights| - k, 0
  {
    assert p.rights[k] in p.rights;
    TurnedLeftJoin(p, lefts, k + 1);
    TurnedStep(p, lefts, k);
  }

  /** As a bag of rows, the RIGHT JOIN is the LEFT JOIN of the swapped inputs with its
      columns swapped back. */
  lemma {:induction false} RightJoinIsTurnedLeftJoin(p: Plan, lefts: seq<Row>)
    requires forall r :: r in p.rights ==> |r| == p.rightWidth
    ensures multiset(RightJoin(p, lefts))
         == multiset(SwapAll(LeftJoin(TurnedRound(p, lefts), p.rights), p.rightWidth))
  {
    TurnedLeftJoin(p, lefts, 0);
    assert p.rights[0..] == p.rights;
    ColumnsAreRows(p, lefts);
  }
}
