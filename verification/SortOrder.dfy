/** The comparator of ORDER BY, and when it orders rows. */
module SortOrder {
  import opened Values
  import opened Expressions
  import opened ExpressionLaws
  import opened Filter

  datatype SortItem = SortItem(expr: Expr, isAsc: bool)

  function KeyOf(item: SortItem, names: seq<string>, row: Row, setting: Setting): Option<Value> {
    Eval(item.expr, Env(ContextOf(names, row), setting.text, setting.scalar, setting.run))
  }

  /** What one sort item says: Some(true) or Some(false) decide, None leaves it to the next. */
  datatype Decision = Decides(less: bool) | Ties | Throws

  function Decide(l: Option<Value>, r: Option<Value>, isAsc: bool, text: Text): Decision {
    if l.None? || r.None? then Decides(false)
    else if l.value.Null? && !r.value.Null? then Decides(true)
    else if !l.value.Null? && r.value.Null? then Decides(false)
    else if l.value.Null? then Ties
    else
      match CompareTo(l.value, r.value, text)
      case None => Throws
      case Some(c) => if c == 0 then Ties else Decides(if isAsc then c < 0 else c > 0)
  }

  /** compareRows: whether left comes before right; None if a comparison throws. */
  function Less(left: Row, right: Row, items: seq<SortItem>, names: seq<string>, setting: Setting): Option<bool> {
    if items == [] then Some(false)
    else
      match Decide(KeyOf(items[0], names, left, setting), KeyOf(items[0], names, right, setting),
                   items[0].isAsc, setting.text)
      case Decides(less) => Some(less)
      case Ties => Less(left, right, items[1..], names, setting)
      case Throws => None
  }

  method CompareRows(left: Row, right: Row, items: seq<SortItem>, names: seq<string>, setting: Setting)
      returns (less: Option<bool>)
    ensures less == Less(left, right, items, names, setting)
  {
    var i := 0;
    assert items[0..] == items;
    while i < |items|
      invariant 0 <= i <= |items|
      invariant Less(left, right, items[i..], names, setting) == Less(left, right, items, names, setting)
    {
      assert items[i..][1..] == items[i + 1..];
      var leftContext := BuildRowContext(names, left);
      var rightContext := BuildRowContext(names, right);
      var l := Eval(items[i].expr, Env(leftContext, setting.text, setting.scalar, setting.run));
      if l.None? { return Some(false); }
      var r := Eval(items[i].expr, Env(rightContext, setting.text, setting.scalar, setting.run));
      if r.None? { return Some(false); }
      if l.value.Null? && !r.value.Null? { return Some(true); }
      if !l.value.Null? && r.value.Null? { return Some(false); }
      if !l.value.Null? {
        var cmp := CompareTo(l.value, r.value, setting.text);
        if cmp.None? { return None; }
        if cmp.value != 0 {
          return Some(if items[i].isAsc then cmp.value < 0 else cmp.value > 0);
        }
      }
      i := i + 1;
    }
    return Some(false);
  }

  // ---------- What the comparator says ----------

  /** By this key l stands before r: NULL before everything else, and otherwise the smaller value first,
      or the greater one in descending order. */
  ghost predicate KeyFirst(l: Value, r: Value, isAsc: bool, text: Text) {
    (l.Null? && r.Datum?) || Related(l, if isAsc then "<" else ">", r, text)
  }

  /** Both rows have keys that compare, for every item. */
  ghost predicate KeysCompare(left: Row, right: Row, items: seq<SortItem>, names: seq<string>, setting: Setting) {
    forall i :: 0 <= i < |items| ==>
      var l, r := KeyOf(items[i], names, left, setting), KeyOf(items[i], names, right, setting);
      l.Some? && r.Some? && Comparable(l.value, r.value, setting.text)
  }

  /** The item at k puts the left row first, and both rows are the same by those in front of it. */
  ghost predicate DecidedAt(left: Row, right: Row, items: seq<SortItem>, k: int, names: seq<string>, setting: Setting)
    requires KeysCompare(left, right, items, names, setting)
  {
    && 0 <= k < |items|
    && KeyFirst(KeyOf(items[k], names, left, setting).value, KeyOf(items[k], names, right, setting).value,
                items[k].isAsc, setting.text)
    && forall i :: 0 <= i < k ==>
         Same(KeyOf(items[i], names, left, setting).value, KeyOf(items[i], names, right, setting).value, setting.text)
  }

  /** The comparator puts the left row first exactly if the first key by which the rows differ does. */
  lemma {:induction false} LessMeans(left: Row, right: Row, items: seq<SortItem>, names: seq<string>, setting: Setting)
    requires KeysCompare(left, right, items, names, setting)
    ensures Less(left, right, items, names, setting) ==
      Some(exists k :: DecidedAt(left, right, items, k, names, setting))
  {
    if items != [] {
      var rest := items[1..];
      assert forall i :: 0 <= i < |rest| ==> rest[i] == items[i + 1];
      var l, r := KeyOf(items[0], names, left, setting).value, KeyOf(items[0], names, right, setting).value;
      DecideMeans(l, r, items[0].isAsc, setting.text);
      LessMeans(left, right, rest, names, setting);
      DecidedLater(left, right, items, names, setting);
    }
  }

  /** The first k keys of both rows are the same. */
  ghost predicate SameUpTo(left: Row, right: Row, items: seq<SortItem>, k: nat, names: seq<string>, setting: Setting)
    requires k <= |items|
  {
    forall i :: 0 <= i < k ==>
      var l, r := KeyOf(items[i], names, left, setting), KeyOf(items[i], names, right, setting);
      l.Some? && r.Some? && Same(l.value, r.value, setting.text)
  }

  /** If all keys before it are the same, a key that cannot be evaluated on one of the rows makes the
      comparator say no, and keys that do not compare make it throw. */
  lemma {:induction false} LessStops(left: Row, right: Row, items: seq<SortItem>, k: nat, names: seq<string>,
                                     setting: Setting)
    requires k < |items| && SameUpTo(left, right, items, k, names, setting)
    ensures var l, r := KeyOf(items[k], names, left, setting), KeyOf(items[k], names, right, setting);
      && (l.None? || r.None? ==> Less(left, right, items, names, setting) == Some(false))
      && (l.Some? && r.Some? && !Comparable(l.value, r.value, setting.text) ==>
            Less(left, right, items, names, setting) == None)
  {
    var l, r := KeyOf(items[0], names, left, setting), KeyOf(items[0], names, right, setting);
    if l.Some? && r.Some? {
      SameCompares(l.value, r.value, setting.text);
    }
    if k > 0 {
      assert forall i :: 0 <= i < k - 1 ==> items[1..][i] == items[i + 1];
      LessStops(left, right, items[1..], k - 1, names, setting);
    }
  }

  lemma {:induction false} DecideMeans(l: Value, r: Value, isAsc: bool, text: Text)
    requires Comparable(l, r, text)
    ensures Decide(Some(l), Some(r), isAsc, text) == Ties <==> Same(l, r, text)
    ensures Decide(Some(l), Some(r), isAsc, text) == Decides(true) <==> KeyFirst(l, r, isAsc, text)
    ensures !Decide(Some(l), Some(r), isAsc, text).Throws? && !(Same(l, r, text) && KeyFirst(l, r, isAsc, text))
  {
    SameCompares(l, r, text);
    if l.Datum? && r.Datum? {
      ComparesAs(l, "<", r, text);
      ComparesAs(l, ">", r, text);
      assert BoolValue(true) != BoolValue(false);
    }
  }

  lemma {:induction false} DecidedLater(left: Row, right: Row, items: seq<SortItem>, names: seq<string>,
                                        setting: Setting)
    requires items != [] && KeysCompare(left, right, items, names, setting)
    requires KeysCompare(left, right, items[1..], names, setting)
    ensures var l, r := KeyOf(items[0], names, left, setting).value, KeyOf(items[0], names, right, setting).value;
      (exists k :: DecidedAt(left, right, items, k, names, setting)) <==>
        || KeyFirst(l, r, items[0].isAsc, setting.text)
        || (Same(l, r, setting.text) && exists k :: DecidedAt(left, right, items[1..], k, names, setting))
  {
    var rest := items[1..];
    assert forall i :: 0 <= i < |rest| ==> rest[i] == items[i + 1];
    var l, r := KeyOf(items[0], names, left, setting).value, KeyOf(items[0], names, right, setting).value;
    if k :| DecidedAt(left, right, items, k, names, setting) && k > 0 {
      assert DecidedAt(left, right, rest, k - 1, names, setting);
    }
    if KeyFirst(l, r, items[0].isAsc, setting.text) {
      assert DecidedAt(left, right, items, 0, names, setting);
    }
    if Same(l, r, setting.text) {
      if k :| DecidedAt(left, right, rest, k, names, setting) {
        assert forall i :: 0 < i <= k ==> items[i] == rest[i - 1];
        assert DecidedAt(left, right, items, k + 1, names, setting);
      }
    }
  }

  // ---------- Keys of one kind ----------

  /** Every sort key can be evaluated on the row and is NULL or of the kind of its item. */
  predicate Regular(row: Row, items: seq<SortItem>, kinds: seq<Kind>, names: seq<string>, setting: Setting)
    requires |items| == |kinds|
  {
    forall i :: 0 <= i < |items| ==>
      var key := KeyOf(items[i], names, row, setting);
      key.Some? && OfKind(key.value, kinds[i], setting.text)
  }

  /** The comparison of keys as a sign: NULL first, whatever the direction. */
  function KeyOrder(l: Value, r: Value, isAsc: bool, text: Text): int {
    if l.Null? then if r.Null? then 0 else -1
    else if r.Null? then 1
    else
      var c := (match CompareTo(l, r, text) case None => 0 case Some(n) => n);
      if isAsc then c else -c
  }

  lemma {:induction false} KeyOrderFlips(a: Value, b: Value, kind: Kind, isAsc: bool, text: Text)
    requires OfKind(a, kind, text) && OfKind(b, kind, text)
    ensures KeyOrder(a, b, isAsc, text) < 0 <==> KeyOrder(b, a, isAsc, text) > 0
    ensures KeyOrder(a, b, isAsc, text) == 0 <==> KeyOrder(b, a, isAsc, text) == 0
  {
    if a.Datum? && b.Datum? {
      CompareFlips(a, b, kind, text);
    }
  }

  lemma {:induction false} KeyOrderChains(a: Value, b: Value, c: Value, kind: Kind, isAsc: bool, text: Text)
    requires OfKind(a, kind, text) && OfKind(b, kind, text) && OfKind(c, kind, text)
    requires KeyOrder(a, b, isAsc, text) <= 0 && KeyOrder(b, c, isAsc, text) <= 0
    ensures KeyOrder(a, c, isAsc, text) <= 0
    ensures KeyOrder(a, b, isAsc, text) < 0 || KeyOrder(b, c, isAsc, text) < 0 ==> KeyOrder(a, c, isAsc, text) < 0
  {
    if a.Datum? && b.Datum? && c.Datum? {
      if isAsc {
        CompareChains(a, b, c, kind, text);
      } else {
        CompareFlips(a, b, kind, text);
        CompareFlips(b, c, kind, text);
        CompareFlips(a, c, kind, text);
        CompareChains(c, b, a, kind, text);
      }
    }
  }

  /** The first key that differs decides. */
  function RowOrder(a: Row, b: Row, items: seq<SortItem>, names: seq<string>, setting: Setting): int {
    if items == [] then 0
    else
      match (KeyOf(items[0], names, a, setting), KeyOf(items[0], names, b, setting))
      case (Some(l), Some(r)) =>
        var c := KeyOrder(l, r, items[0].isAsc, setting.text);
        if c != 0 then c else RowOrder(a, b, items[1..], names, setting)
      case _ => 0
  }

  lemma {:induction false} RegularRest(row: Row, items: seq<SortItem>, kinds: seq<Kind>, names: seq<string>,
                                       setting: Setting)
    requires |items| == |kinds| > 0 && Regular(row, items, kinds, names, setting)
    ensures Regular(row, items[1..], kinds[1..], names, setting)
    ensures KeyOf(items[0], names, row, setting).Some?
    ensures OfKind(KeyOf(items[0], names, row, setting).value, kinds[0], setting.text)
  {
    forall i | 0 <= i < |items[1..]|
      ensures var key := KeyOf(items[1..][i], names, row, setting);
        key.Some? && OfKind(key.value, kinds[1..][i], setting.text)
    {
      assert items[1..][i] == items[i + 1] && kinds[1..][i] == kinds[i + 1];
    }
  }

  lemma {:induction false} LessIsRowOrder(a: Row, b: Row, items: seq<SortItem>, kinds: seq<Kind>,
                                          names: seq<string>, setting: Setting)
    requires |items| == |kinds|
    requires Regular(a, items, kinds, names, setting) && Regular(b, items, kinds, names, setting)
    ensures Less(a, b, items, names, setting) == Some(RowOrder(a, b, items, names, setting) < 0)
    decreases items
  {
    if items != [] {
      RegularRest(a, items, kinds, names, setting);
      RegularRest(b, items, kinds, names, setting);
      LessIsRowOrder(a, b, items[1..], kinds[1..], names, setting);
    }
  }

  lemma {:induction false} RowOrderFlips(a: Row, b: Row, items: seq<SortItem>, kinds: seq<Kind>,
                                         names: seq<string>, setting: Setting)
    requires |items| == |kinds|
    requires Regular(a, items, kinds, names, setting) && Regular(b, items, kinds, names, setting)
    ensures RowOrder(a, b, items, names, setting) < 0 <==> RowOrder(b, a, items, names, setting) > 0
    ensures RowOrder(a, b, items, names, setting) == 0 <==> RowOrder(b, a, items, names, setting) == 0
    decreases items
  {
    if items != [] {
      RegularRest(a, items, kinds, names, setting);
      RegularRest(b, items, kinds, names, setting);
      var l, r := KeyOf(items[0], names, a, setting).value, KeyOf(items[0], names, b, setting).value;
      KeyOrderFlips(l, r, kinds[0], items[0].isAsc, setting.text);
      RowOrderFlips(a, b, items[1..], kinds[1..], names, setting);
    }
  }

  lemma {:induction false} RowOrderChains(a: Row, b: Row, c: Row, items: seq<SortItem>, kinds: seq<Kind>,
                                          names: seq<string>, setting: Setting)
    requires |items| == |kinds| && Regular(a, items, kinds, names, setting)
    requires Regular(b, items, kinds, names, setting) && Regular(c, items, kinds, names, setting)
    requires RowOrder(a, b, items, names, setting) <= 0 && RowOrder(b, c, items, names, setting) <= 0
    ensures RowOrder(a, c, items, names, setting) <= 0
    ensures RowOrder(a, b, items, names, setting) < 0 || RowOrder(b, c, items, names, setting) < 0
        ==> RowOrder(a, c, items, names, setting) < 0
    decreases items
  {
    if items != [] {
      RegularRest(a, items, kinds, names, setting);
      RegularRest(b, items, kinds, names, setting);
      RegularRest(c, items, kinds, names, setting);
      var x, y, z := KeyOf(items[0], names, a, setting).value, KeyOf(items[0], names, b, setting).value,
                     KeyOf(items[0], names, c, setting).value;
      KeyOrderChains(x, y, z, kinds[0], items[0].isAsc, setting.text);
      if KeyOrder(x, y, items[0].isAsc, setting.text) == 0 && KeyOrder(y, z, items[0].isAsc, setting.text) == 0 {
        KeyOrderFlips(x, y, kinds[0], items[0].isAsc, setting.text);
        KeyOrderFlips(y, z, kinds[0], items[0].isAsc, setting.text);
        KeyOrderChains(z, y, x, kinds[0], items[0].isAsc, setting.text);
        KeyOrderFlips(x, z, kinds[0], items[0].isAsc, setting.text);
        RowOrderChains(a, b, c, items[1..], kinds[1..], names, setting);
      }
    }
  }

  // ---------- The laws std::sort asks for ----------

  predicate Before(a: Row, b: Row, items: seq<SortItem>, names: seq<string>, setting: Setting) {
    Less(a, b, items, names, setting) == Some(true)
  }

  predicate Level(a: Row, b: Row, items: seq<SortItem>, names: seq<string>, setting: Setting) {
    !Before(a, b, items, names, setting) && !Before(b, a, items, names, setting)
  }

  /** On rows whose keys can be evaluated and are NULL or of one kind per item, compareRows
      never throws and is a strict weak order: irreflexive, transitive, and "neither before
      the other" is transitive too. */
  lemma {:induction false} StrictWeakOrder(a: Row, b: Row, c: Row, items: seq<SortItem>, kinds: seq<Kind>,
                                           names: seq<string>, setting: Setting)
    requires |items| == |kinds| && Regular(a, items, kinds, names, setting)
    requires Regular(b, items, kinds, names, setting) && Regular(c, items, kinds, names, setting)
    ensures Less(a, b, items, names, setting).Some?
    ensures !Before(a, a, items, names, setting)
    ensures Before(a, b, items, names, setting) && Before(b, c, items, names, setting)
        ==> Before(a, c, items, names, setting)
    ensures Level(a, b, items, names, setting) && Level(b, c, items, names, setting)
        ==> Level(a, c, items, names, setting)
  {
    LessIsRowOrder(a, b, items, kinds, names, setting);
    LessIsRowOrder(b, c, items, kinds, names, setting);
    LessIsRowOrder(a, c, items, kinds, names, setting);
    LessIsRowOrder(a, a, items, kinds, names, setting);
    RowOrderFlips(a, a, items, kinds, names, setting);
    if Before(a, b, items, names, setting) && Before(b, c, items, names, setting) {
      RowOrderChains(a, b, c, items, kinds, names, setting);
    }
    if Level(a, b, items, names, setting) && Level(b, c, items, names, setting) {
      LevelIsZero(a, b, items, kinds, names, setting);
      LevelIsZero(b, c, items, kinds, names, setting);
      LevelIsZero(a, c, items, kinds, names, setting);
      RowOrderFlips(a, b, items, kinds, names, setting);
      RowOrderFlips(b, c, items, kinds, names, setting);
      RowOrderFlips(a, c, items, kinds, names, setting);
      RowOrderChains(a, b, c, items, kinds, names, setting);
      RowOrderChains(c, b, a, items, kinds, names, setting);
    }
  }

  lemma {:induction false} LevelIsZero(a: Row, b: Row, items: seq<SortItem>, kinds: seq<Kind>,
                                       names: seq<string>, setting: Setting)
    requires |items| == |kinds|
    requires Regular(a, items, kinds, names, setting) && Regular(b, items, kinds, names, setting)
    ensures Level(a, b, items, names, setting) <==> RowOrder(a, b, items, names, setting) == 0
  {
    LessIsRowOrder(a, b, items, kinds, names, setting);
    LessIsRowOrder(b, a, items, kinds, names, setting);
    RowOrderFlips(a, b, items, kinds, names, setting);
  }

  // ---------- Which columns can be sorted by ----------

  /** The payload a column of the value's type holds. */
  predicate Typed(v: Value) {
    v.Datum? ==>
      if IsInteger(v.ty) then v.p.I?
      else if IsReal(v.ty) then v.p.D?
      else if v.ty.BOOLEAN? then v == BoolValue(true) || v == BoolValue(false)
      else v.p.S?
  }

  /** Rows whose values are NULL or of one of their column's types. */
  predicate Admits(types: seq<set<DataType>>, row: Row) {
    |row| == |types| && forall i :: 0 <= i < |row| ==> Typed(row[i]) && (row[i].Datum? ==> row[i].ty in types[i])
  }

  /** ORDER BY over the columns themselves. */
  function ByColumns(names: seq<string>, dirs: seq<bool>): seq<SortItem>
    requires |names| == |dirs|
  {
    seq(|names|, i requires 0 <= i < |names| => SortItem(Col("", names[i]), dirs[i]))
  }

  ghost predicate PlainNames(names: seq<string>) {
    && (forall i :: 0 <= i < |names| ==> ShortName(names[i]) == None)
    && (forall i, j :: 0 <= i < j < |names| ==> names[i] != names[j])
  }

  lemma {:induction false} ColumnContext(names: seq<string>, row: Row, n: nat)
    requires PlainNames(names) && |row| == |names| && n <= |names|
    ensures var context := ContextUpTo(names, row, n);
      forall i :: 0 <= i < n ==> names[i] in context && context[names[i]] == row[i]
  {
    if n > 0 {
      ColumnContext(names, row, n - 1);
    }
  }

  lemma {:induction false} ColumnKey(names: seq<string>, dirs: seq<bool>, row: Row, i: nat, setting: Setting)
    requires PlainNames(names) && |row| == |names| == |dirs| && i < |names|
    ensures KeyOf(ByColumns(names, dirs)[i], names, row, setting) == Some(row[i])
  {
    ColumnContext(names, row, |names|);
  }

  /** The comparator is a strict weak order on all rows of these column types, and never throws. */
  ghost predicate OrdersRows(types: seq<set<DataType>>, names: seq<string>, dirs: seq<bool>, setting: Setting)
    requires |names| == |dirs|
  {
    forall a, b, c | Admits(types, a) && Admits(types, b) && Admits(types, c) ::
      OrdersThree(a, b, c, names, dirs, setting)
  }

  ghost predicate OrdersThree(a: Row, b: Row, c: Row, names: seq<string>, dirs: seq<bool>, setting: Setting)
    requires |names| == |dirs|
  {
    var items := ByColumns(names, dirs);
    && Less(a, b, items, names, setting).Some?
    && !Before(a, a, items, names, setting)
    && (Before(a, b, items, names, setting) && Before(b, c, items, names, setting)
        ==> Before(a, c, items, names, setting))
    && (Level(a, b, items, names, setting) && Level(b, c, items, names, setting)
        ==> Level(a, c, items, names, setting))
  }

  /** A column that is not BOOLEAN, and holds only numbers or only texts. */
  predicate Uniform(types: set<DataType>) {
    BOOLEAN !in types && forall s, t :: s in types && t in types ==> IsNumeric(s) == IsNumeric(t)
  }

  /** What the library does with the words and numbers the failing rows are made of. */
  predicate UsualText(text: Text) {
    && text.toReal("true") == None
    && text.ofReal(9.0) != "" && text.ofReal(9.0)[0] == '9'
    && text.ofReal(10.0) != "" && text.ofReal(10.0)[0] == '1'
  }

  /** ORDER BY columns is a strict weak order, as std::sort asks, exactly when each column is uniform. */
  lemma {:induction false} OrdersRowsIff(types: seq<set<DataType>>, names: seq<string>, dirs: seq<bool>,
                                         setting: Setting)
    requires |types| == |names| == |dirs| && PlainNames(names) && UsualText(setting.text)
    ensures OrdersRows(types, names, dirs, setting) <==> forall i :: 0 <= i < |types| ==> Uniform(types[i])
  {
    if forall i :: 0 <= i < |types| ==> Uniform(types[i]) {
      forall a, b, c | Admits(types, a) && Admits(types, b) && Admits(types, c)
        ensures OrdersThree(a, b, c, names, dirs, setting)
      {
        var kinds := KindsOf(types);
        UniformRowIsRegular(types, names, dirs, a, setting);
        UniformRowIsRegular(types, names, dirs, b, setting);
        UniformRowIsRegular(types, names, dirs, c, setting);
        StrictWeakOrder(a, b, c, ByColumns(names, dirs), kinds, names, setting);
      }
    } else {
      var i :| 0 <= i < |types| && !Uniform(types[i]);
      if BOOLEAN in types[i] {
        BooleanKeyThrows(types, names, dirs, i, setting);
      } else {
        var s, t :| s in types[i] && t in types[i] && IsNumeric(s) != IsNumeric(t);
        var number, words := if IsNumeric(s) then s else t, if IsNumeric(s) then t else s;
        CircleBreaksTheOrder(types, names, dirs, i, number, words, setting);
      }
    }
  }

  function KindsOf(types: seq<set<DataType>>): seq<Kind> {
    seq(|types|, i requires 0 <= i < |types| => if exists t :: t in types[i] && IsNumeric(t) then Numbers else Texts)
  }

  lemma {:induction false} UniformRowIsRegular(types: seq<set<DataType>>, names: seq<string>, dirs: seq<bool>, row: Row,
                                               setting: Setting)
    requires |types| == |names| == |dirs| && PlainNames(names)
    requires Admits(types, row) && forall i :: 0 <= i < |types| ==> Uniform(types[i])
    ensures Regular(row, ByColumns(names, dirs), KindsOf(types), names, setting)
  {
    var items, kinds := ByColumns(names, dirs), KindsOf(types);
    forall i | 0 <= i < |items|
      ensures KeyOf(items[i], names, row, setting) == Some(row[i]) && OfKind(row[i], kinds[i], setting.text)
    {
      ColumnKey(names, dirs, row, i, setting);
      assert Uniform(types[i]);
    }
  }

  /** NULL in every column but one. */
  function OnlyAt(n: nat, i: nat, v: Value): Row {
    seq(n, j => if j == i then v else NULL)
  }

  lemma {:induction false} OnlyAtAdmitted(types: seq<set<DataType>>, i: nat, v: Value)
    requires i < |types| && v.Datum? && v.ty in types[i] && Typed(v)
    ensures Admits(types, OnlyAt(|types|, i, v))
  {
  }

  /** Rows that are NULL elsewhere are compared by that column. */
  lemma {:induction false} LessAt(names: seq<string>, dirs: seq<bool>, i: nat, k: nat, v: Value, w: Value,
                                  setting: Setting)
    requires |names| == |dirs| && PlainNames(names) && k <= i < |names| && v.Datum? && w.Datum?
    ensures var a, b := OnlyAt(|names|, i, v), OnlyAt(|names|, i, w);
      var less := Less(a, b, ByColumns(names, dirs)[k..], names, setting);
      match CompareTo(v, w, setting.text)
      case None => less == None
      case Some(c) => c != 0 ==> less == Some(if dirs[i] then c < 0 else c > 0)
    decreases i - k
  {
    var a, b := OnlyAt(|names|, i, v), OnlyAt(|names|, i, w);
    var items := ByColumns(names, dirs);
    ColumnKey(names, dirs, a, k, setting);
    ColumnKey(names, dirs, b, k, setting);
    assert items[k..][0] == items[k] && items[k..][1..] == items[k + 1..];
    if k < i {
      LessAt(names, dirs, i, k + 1, v, w, setting);
    }
  }

  lemma {:induction false} BooleanKeyThrows(types: seq<set<DataType>>, names: seq<string>, dirs: seq<bool>, i: nat,
                                            setting: Setting)
    requires |types| == |names| == |dirs| && PlainNames(names) && UsualText(setting.text)
    requires i < |types| && BOOLEAN in types[i]
    ensures !OrdersRows(types, names, dirs, setting)
  {
    var yes := OnlyAt(|types|, i, BoolValue(true));
    OnlyAtAdmitted(types, i, BoolValue(true));
    LessAt(names, dirs, i, 0, BoolValue(true), BoolValue(true), setting);
    assert ByColumns(names, dirs)[0..] == ByColumns(names, dirs);
    assert !OrdersThree(yes, yes, yes, names, dirs, setting);
  }

  /** 9 or 10 as a value of a numeric type. */
  function Number(n: int, ty: DataType): Value {
    Datum(ty, if IsInteger(ty) then I(n) else D(n as real))
  }

  lemma {:induction false} NumberAndWords(number: DataType, words: DataType, text: Text)
    requires IsNumeric(number) && !number.BOOLEAN? && !IsNumeric(words) && UsualText(text)
    ensures var nine, ten, word := Number(9, number), Number(10, number), Datum(words, S("5x"));
      && CompareTo(nine, ten, text) == Some(-1) && CompareTo(ten, nine, text) == Some(1)
      && CompareTo(ten, word, text) == Some(-1) && CompareTo(word, ten, text) == Some(1)
      && CompareTo(word, nine, text) == Some(-1) && CompareTo(nine, word, text) == Some(1)
  {
    var nine, ten := Number(9, number), Number(10, number);
    if IsInteger(number) {
      assert NatText(10) == "10" by { assert NatText(1) == "1"; }
      assert NatText(9) == "9";
    }
    assert GetString(nine, text)[0] == '9' && GetString(ten, text)[0] == '1' && "5x"[0] == '5';
  }

  /** With numbers and texts in one column the comparator runs in a circle: 9 before 10, 10 before '5x'
      and '5x' before 9, or the other way round if the column is descending. */
  lemma {:induction false} MixedKindsRunInACircle(types: seq<set<DataType>>, names: seq<string>, dirs: seq<bool>,
                                                  i: nat, number: DataType, words: DataType, setting: Setting)
    requires |types| == |names| == |dirs| && PlainNames(names) && UsualText(setting.text) && i < |types|
    requires number in types[i] && IsNumeric(number) && !number.BOOLEAN? && words in types[i] && !IsNumeric(words)
    ensures var n, items := |types|, ByColumns(names, dirs);
      var nine, ten, word := OnlyAt(n, i, Number(9, number)), OnlyAt(n, i, Number(10, number)),
                             OnlyAt(n, i, Datum(words, S("5x")));
      && Admits(types, nine) && Admits(types, ten) && Admits(types, word)
      && (if dirs[i] then
            Before(nine, ten, items, names, setting) && Before(ten, word, items, names, setting)
            && Before(word, nine, items, names, setting)
          else
            Before(ten, nine, items, names, setting) && Before(nine, word, items, names, setting)
            && Before(word, ten, items, names, setting))
  {
    var nine, ten, word := Number(9, number), Number(10, number), Datum(words, S("5x"));
    NumberAndWords(number, words, setting.text);
    OnlyAtAdmitted(types, i, nine);
    OnlyAtAdmitted(types, i, ten);
    OnlyAtAdmitted(types, i, word);
    assert ByColumns(names, dirs)[0..] == ByColumns(names, dirs);
    if dirs[i] {
      LessAt(names, dirs, i, 0, nine, ten, setting);
      LessAt(names, dirs, i, 0, ten, word, setting);
      LessAt(names, dirs, i, 0, word, nine, setting);
    } else {
      LessAt(names, dirs, i, 0, ten, nine, setting);
      LessAt(names, dirs, i, 0, nine, word, setting);
      LessAt(names, dirs, i, 0, word, ten, setting);
    }
  }

  lemma {:induction false} CircleBreaksTheOrder(types: seq<set<DataType>>, names: seq<string>, dirs: seq<bool>, i: nat,
                                                number: DataType, words: DataType, setting: Setting)
    requires |types| == |names| == |dirs| && PlainNames(names) && UsualText(setting.text) && i < |types|
    requires number in types[i] && IsNumeric(number) && !number.BOOLEAN? && words in types[i] && !IsNumeric(words)
    ensures !OrdersRows(types, names, dirs, setting)
  {
    var n := |types|;
    var nine, ten, word := OnlyAt(n, i, Number(9, number)), OnlyAt(n, i, Number(10, number)),
                           OnlyAt(n, i, Datum(words, S("5x")));
    MixedKindsRunInACircle(types, names, dirs, i, number, words, setting);
    var a, b := if dirs[i] then nine else ten, if dirs[i] then ten else nine;
    NoCircle(a, b, word, names, dirs, setting);
  }

  lemma {:induction false} NoCircle(a: Row, b: Row, c: Row, names: seq<string>, dirs: seq<bool>, setting: Setting)
    requires |names| == |dirs|
    requires var items := ByColumns(names, dirs);
      Before(a, b, items, names, setting) && Before(b, c, items, names, setting) && Before(c, a, items, names, setting)
    ensures !OrdersThree(a, b, c, names, dirs, setting) || !OrdersThree(a, c, a, names, dirs, setting)
  {
  }
}
