/** GROUP BY: how rows are gathered into groups, and what the groups are. */
module Groups {
  import opened Values
  import opened Expressions
  import opened Operators
  import opened Filter
  import opened Aggregates

  datatype AggregateFunc = AggregateFunc(name: string, arg: Expr)

  /** What to group and aggregate, and what the hash of a key makes of the texts of its values that
      are not NULL. */
  datatype Grouping = Grouping(groupBy: seq<Expr>, aggregates: seq<AggregateFunc>, names: seq<string>,
                               setting: Setting, digest: seq<string> -> int)

  type Key = seq<Value>

  function EnvFor(g: Grouping, row: Row): Env {
    Env(ContextOf(g.names, row), g.setting.text, g.setting.scalar, g.setting.run)
  }

  function KeyOf(g: Grouping, row: Row): Option<Key> {
    EvalAll(g.groupBy, EnvFor(g, row))
  }

  function ArgOf(g: Grouping, i: nat, row: Row): Option<Value>
    requires i < |g.aggregates|
  {
    Eval(g.aggregates[i].arg, EnvFor(g, row))
  }

  /** Equality of group keys, value by value; None if a comparison throws. */
  function SameGroup(a: Key, b: Key, text: Text): Option<bool> {
    if |a| != |b| then Some(false)
    else if a == [] then Some(true)
    else
      match CompareTo(a[0], b[0], text)
      case None => None
      case Some(c) => if c != 0 then Some(false) else SameGroup(a[1..], b[1..], text)
  }

  function KeyTexts(k: Key, text: Text): seq<string> {
    if k == [] then []
    else (if k[0].Null? then [] else [GetString(k[0], text)]) + KeyTexts(k[1..], text)
  }

  /** GroupKeyHash. */
  function KeyHash(k: Key, g: Grouping): int {
    g.digest(KeyTexts(k, g.setting.text))
  }

  datatype Found = Place(j: nat) | Absent | Throws

  /** The first of the keys behind the first `from` that is the same group as k.  Only keys of one
      hash are compared. */
  function Find(order: seq<Key>, k: Key, from: nat, g: Grouping): (f: Found)
    requires from <= |order|
    ensures f.Place? ==> f.j < |order|
    decreases |order| - from
  {
    if from == |order| then Absent
    else if KeyHash(order[from], g) != KeyHash(k, g) then Find(order, k, from + 1, g)
    else
      match SameGroup(order[from], k, g.setting.text)
      case None => Throws
      case Some(same) => if same then Place(from) else Find(order, k, from + 1, g)
  }

  /** The groups so far: their keys in the order of appearance and, beside each, its states. */
  datatype Table = Table(order: seq<Key>, groups: seq<seq<Agg>>)

  predicate TableOk(g: Grouping, t: Table) {
    |t.groups| == |t.order| && forall j :: 0 <= j < |t.groups| ==> |t.groups[j]| == |g.aggregates|
  }

  /** The states once the first n aggregates have taken the row. */
  function AddToStates(g: Grouping, states: seq<Agg>, row: Row, n: nat): (r: Option<seq<Agg>>)
    requires n <= |g.aggregates| == |states|
    ensures r.Some? ==> |r.value| == |states|
  {
    if n == 0 then Some(states)
    else
      match (AddToStates(g, states, row, n - 1), ArgOf(g, n - 1, row))
      case (Some(done), Some(v)) =>
        (match AddValue(done[n - 1], g.aggregates[n - 1].name, v, g.setting.text)
         case None => None
         case Some(s) => Some(done[n - 1 := s]))
      case _ => None
  }

  function Fresh(g: Grouping): seq<Agg> {
    seq(|g.aggregates|, _ => EMPTY)
  }

  /** One row into the table; None if its key or an argument cannot be evaluated, or a
      comparison or a conversion throws. */
  function AddRow(g: Grouping, t: Table, row: Row): (r: Option<Table>)
    requires TableOk(g, t)
    ensures r.Some? ==> TableOk(g, r.value)
  {
    match KeyOf(g, row)
    case None => None
    case Some(k) =>
      match Find(t.order, k, 0, g)
      case Throws => None
      case Place(j) =>
        (match AddToStates(g, t.groups[j], row, |g.aggregates|)
         case None => None
         case Some(states) => Some(t.(groups := t.groups[j := states])))
      case Absent =>
        (match AddToStates(g, Fresh(g), row, |g.aggregates|)
         case None => None
         case Some(states) => Some(Table(t.order + [k], t.groups + [states])))
  }

  function AddRows(g: Grouping, rows: seq<Row>): (r: Option<Table>)
    ensures r.Some? ==> TableOk(g, r.value)
  {
    if rows == [] then Some(Table([], []))
    else
      match AddRows(g, rows[..|rows| - 1])
      case None => None
      case Some(t) => AddRow(g, t, rows[|rows| - 1])
  }

  /** The output row of a key and the states found for it. */
  function OutputRow(g: Grouping, k: Key, states: seq<Agg>): Row
    requires |states| == |g.aggregates|
  {
    k + seq(|g.aggregates|, i requires 0 <= i < |g.aggregates| => Compute(states[i], g.aggregates[i].name))
  }

  /** One row for each group from group j on.  Each key is looked up once more, and that can throw. */
  function OutputRun(g: Grouping, t: Table, j: nat): Run
    requires TableOk(g, t) && j <= |t.order|
    decreases |t.order| - j
  {
    if j == |t.order| then Run([], false)
    else
      match Find(t.order, t.order[j], 0, g)
      case Throws => Run([], true)
      case Absent => OutputRun(g, t, j + 1)
      case Place(at) =>
        var rest := OutputRun(g, t, j + 1);
        Run([OutputRow(g, t.order[j], t.groups[at])] + rest.rows, rest.failed)
  }

  /** What the operator gives in all. */
  function GroupRun(g: Grouping, rows: seq<Row>): Run {
    match AddRows(g, rows)
    case None => Run([], true)
    case Some(t) => OutputRun(g, t, 0)
  }

  function Output(g: Grouping, t: Table): seq<Row>
    requires TableOk(g, t)
  {
    seq(|t.order|, j requires 0 <= j < |t.order| => OutputRow(g, t.order[j], t.groups[j]))
  }

  // ---------- What the groups are ----------

  /** A key without its type tags. */
  function Norm(k: Key): seq<Option<Payload>> {
    seq(|k|, i requires 0 <= i < |k| => if k[i].Null? then None else Some(k[i].p))
  }

  /** NULL, a truth value in a BOOLEAN column, or a value of the type whose comparison is equality. */
  predicate KeyFits(v: Value, ty: DataType) {
    if ty.BOOLEAN? then v.Null? || v == BoolValue(true) || v == BoolValue(false) else Shaped(v, ty)
  }

  predicate KeyShaped(k: Key, types: seq<DataType>) {
    |k| == |types| && forall i :: 0 <= i < |k| ==> KeyFits(k[i], types[i])
  }

  /** The key can be evaluated on the row, and each of its values fits the type given. */
  ghost predicate KeyedRow(g: Grouping, row: Row, keyTypes: seq<DataType>) {
    KeyOf(g, row).Some? && KeyShaped(KeyOf(g, row).value, keyTypes)
  }

  ghost predicate KeyedRows(g: Grouping, rows: seq<Row>, keyTypes: seq<DataType>) {
    forall j :: 0 <= j < |rows| ==> KeyedRow(g, rows[j], keyTypes)
  }

  /** So can each argument, and its value fits its aggregate. */
  ghost predicate RegularRow(g: Grouping, row: Row, keyTypes: seq<DataType>, kinds: seq<Kind>) {
    && |kinds| == |g.aggregates| && KeyedRow(g, row, keyTypes)
    && forall i :: 0 <= i < |g.aggregates| ==>
         && ArgOf(g, i, row).Some?
         && ArgFits(g.aggregates[i].name, ArgOf(g, i, row).value, kinds[i], g.setting.text)
  }

  ghost predicate RegularRows(g: Grouping, rows: seq<Row>, keyTypes: seq<DataType>, kinds: seq<Kind>) {
    forall j :: 0 <= j < |rows| ==> RegularRow(g, rows[j], keyTypes, kinds)
  }

  predicate InGroup(g: Grouping, row: Row, nk: seq<Option<Payload>>) {
    KeyOf(g, row).Some? && Norm(KeyOf(g, row).value) == nk
  }

  /** The rows of one group, in order. */
  function GroupRows(g: Grouping, rows: seq<Row>, nk: seq<Option<Payload>>): seq<Row> {
    if rows == [] then []
    else
      var before := GroupRows(g, rows[..|rows| - 1], nk);
      if InGroup(g, rows[|rows| - 1], nk) then before + [rows[|rows| - 1]] else before
  }

  function ArgValues(g: Grouping, i: nat, rows: seq<Row>): seq<Value>
    requires i < |g.aggregates|
  {
    seq(|rows|, j requires 0 <= j < |rows| =>
      match ArgOf(g, i, rows[j])
      case None => NULL
      case Some(v) => v)
  }

  predicate HasKey(order: seq<Key>, nk: seq<Option<Payload>>) {
    exists j :: 0 <= j < |order| && Norm(order[j]) == nk
  }

  /** The key of each group's first row, in the order of those rows. */
  function FirstKeys(g: Grouping, rows: seq<Row>): seq<Key> {
    if rows == [] then []
    else
      var before := FirstKeys(g, rows[..|rows| - 1]);
      match KeyOf(g, rows[|rows| - 1])
      case None => before
      case Some(k) => if HasKey(before, Norm(k)) then before else before + [k]
  }

  /** Beside each key stand the streamed states of the rows of its group. */
  ghost predicate Holds(g: Grouping, rows: seq<Row>, t: Table) {
    && TableOk(g, t) && t.order == FirstKeys(g, rows)
    && forall j, i :: 0 <= j < |t.order| && 0 <= i < |g.aggregates| ==>
         Stream(g.aggregates[i].name, ArgValues(g, i, GroupRows(g, rows, Norm(t.order[j]))), g.setting.text)
         == Some(t.groups[j][i])
  }
}
