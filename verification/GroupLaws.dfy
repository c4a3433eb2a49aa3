/** Streaming rows into groups computes each group's aggregates, whatever the order of rows. */
module GroupLaws {
  import opened Values
  import opened Expressions
  import opened Aggregates
  import opened Groups

  // ---------- Comparing keys ----------

  /** The words true and false do not read as numbers. */
  predicate TruthIsNoNumber(text: Text) {
    text.toReal("true") == None && text.toReal("false") == None
  }

  predicate Sensible(types: seq<DataType>, text: Text) {
    BOOLEAN in types ==> TruthIsNoNumber(text)
  }

  lemma {:induction false} BooleansDoNotCompare(a: bool, b: bool, text: Text)
    requires TruthIsNoNumber(text)
    ensures CompareTo(BoolValue(a), BoolValue(b), text) == None
  {
  }

  lemma {:induction false} FittingCompare(a: Value, b: Value, ty: DataType, text: Text)
    requires KeyFits(a, ty) && KeyFits(b, ty) && Sensible([ty], text)
    ensures var c := CompareTo(a, b, text);
      && (ty != BOOLEAN ==> c.Some?)
      && (c.Some? ==> (c.value == 0 <==> (a.Null? && b.Null?) || a == b))
  {
    if a.Datum? && b.Datum? {
      if ty.BOOLEAN? {
        BooleansDoNotCompare(a == BoolValue(true), b == BoolValue(true), text);
      } else {
        ShapedCompare(a, b, ty, text);
      }
    }
  }

  /** The hash of a key is made of the texts of its values in order, NULLs left out. */
  lemma {:induction false} KeyTextsMean(k: Key, l: Key, v: Value, text: Text)
    ensures KeyTexts([], text) == [] && KeyTexts(k + l, text) == KeyTexts(k, text) + KeyTexts(l, text)
    ensures KeyTexts([v], text) == if v.Null? then [] else [GetString(v, text)]
  {
    if k == [] {
      assert k + l == l;
    } else {
      assert (k + l)[1..] == k[1..] + l;
      KeyTextsMean(k[1..], l, v, text);
    }
  }

  /** Comparing keys of the same types tells whether they are equal up to type tags, or throws; without
      a BOOLEAN column it never throws. */
  lemma {:induction false} SameGroupIsSameNorm(a: Key, b: Key, types: seq<DataType>, text: Text)
    requires KeyShaped(a, types) && KeyShaped(b, types) && Sensible(types, text)
    ensures SameGroup(a, b, text).Some? ==> SameGroup(a, b, text).value == (Norm(a) == Norm(b))
    ensures BOOLEAN !in types ==> SameGroup(a, b, text).Some?
    decreases a
  {
    if a != [] {
      assert types[0] in types;
      FittingCompare(a[0], b[0], types[0], text);
      SameGroupIsSameNorm(a[1..], b[1..], types[1..], text);
      NormParts(a, b);
    }
  }

  lemma {:induction false} NormParts(a: Key, b: Key)
    requires a != [] && b != []
    ensures Norm(a) == Norm(b) <==> Norm(a[..1]) == Norm(b[..1]) && Norm(a[1..]) == Norm(b[1..])
    ensures Norm(a[..1]) == Norm(b[..1]) <==>
      (a[0].Null? && b[0].Null?) || (a[0].Datum? && b[0].Datum? && a[0].p == b[0].p)
  {
    NormSplit(a);
    NormSplit(b);
    var x, y := Norm(a[..1]), Norm(b[..1]);
    var s, t := Norm(a[1..]), Norm(b[1..]);
    assert (x + s)[1..] == s && (y + t)[1..] == t;
    assert (x + s)[..1] == x && (y + t)[..1] == y;
  }

  lemma {:induction false} NormSplit(k: Key)
    requires k != []
    ensures Norm(k) == Norm(k[..1]) + Norm(k[1..])
    ensures Norm(k[..1]) == [if k[0].Null? then None else Some(k[0].p)]
  {
  }

  /** Keys that are equal up to type tags compare alike with any third, */
  lemma {:induction false} SameByNorm(a: Key, a': Key, b: Key, types: seq<DataType>, text: Text)
    requires KeyShaped(a, types) && KeyShaped(a', types) && KeyShaped(b, types) && Norm(a) == Norm(a')
    ensures SameGroup(a, b, text) == SameGroup(a', b, text)
    decreases a
  {
    if a != [] {
      NormParts(a, a');
      SameByNorm(a[1..], a'[1..], b[1..], types[1..], text);
    }
  }

  /** and the comparison does not depend on the side. */
  lemma {:induction false} SameGroupFlips(a: Key, b: Key, types: seq<DataType>, text: Text)
    requires KeyShaped(a, types) && KeyShaped(b, types) && Sensible(types, text)
    ensures SameGroup(a, b, text) == SameGroup(b, a, text)
    decreases a
  {
    if a != [] {
      assert types[0] in types;
      FittingCompare(a[0], b[0], types[0], text);
      FittingCompare(b[0], a[0], types[0], text);
      BothThrow(a[0], b[0], text);
      SameGroupFlips(a[1..], b[1..], types[1..], text);
    }
  }

  lemma {:induction false} BothThrow(v: Value, w: Value, text: Text)
    ensures CompareTo(v, w, text).None? <==> CompareTo(w, v, text).None?
  {
  }

  /** They have one hash. */
  lemma {:induction false} HashByNorm(a: Key, a': Key, g: Grouping)
    requires Norm(a) == Norm(a')
    ensures KeyHash(a, g) == KeyHash(a', g)
  {
    TextsByNorm(a, a', g.setting.text);
  }

  lemma {:induction false} TextsByNorm(a: Key, a': Key, text: Text)
    requires Norm(a) == Norm(a')
    ensures KeyTexts(a, text) == KeyTexts(a', text)
  {
    if a != [] {
      SameParts(a, a');
      TextsByNorm(a[1..], a'[1..], text);
    } else {
      assert |Norm(a')| == 0;
    }
  }

  lemma {:induction false} SameParts(a: Key, a': Key)
    requires Norm(a) == Norm(a') && a != []
    ensures a' != [] && Norm(a[1..]) == Norm(a'[1..])
    ensures (a[0].Null? && a'[0].Null?) || (a[0].Datum? && a'[0].Datum? && a[0].p == a'[0].p)
  {
    assert |Norm(a)| == |a| && |Norm(a')| == |a'|;
    NormParts(a, a');
  }

  // ---------- Finding a group ----------

  /** Looking one key up among others meets the other and throws. */
  predicate Clash(a: Key, b: Key, g: Grouping) {
    KeyHash(a, g) == KeyHash(b, g) && SameGroup(a, b, g.setting.text) == None
  }

  lemma {:induction false} ClashByNorm(a: Key, a': Key, b: Key, g: Grouping, types: seq<DataType>)
    requires KeyShaped(a, types) && KeyShaped(a', types) && KeyShaped(b, types) && Norm(a) == Norm(a')
    requires Sensible(types, g.setting.text)
    ensures Clash(a, b, g) <==> Clash(a', b, g)
    ensures Clash(a, b, g) <==> Clash(b, a, g)
  {
    HashByNorm(a, a', g);
    SameByNorm(a, a', b, types, g.setting.text);
    SameGroupFlips(a, b, types, g.setting.text);
  }

  /** No two keys are of one group. */
  ghost predicate Distinct(order: seq<Key>) {
    forall i, j :: 0 <= i < j < |order| ==> Norm(order[i]) != Norm(order[j])
  }

  ghost predicate KeysShaped(order: seq<Key>, types: seq<DataType>) {
    forall j :: 0 <= j < |order| ==> KeyShaped(order[j], types)
  }

  predicate ClashesIn(order: seq<Key>, k: Key, from: nat, g: Grouping) {
    exists j :: from <= j < |order| && Clash(order[j], k, g)
  }

  /** No two of the keys clash. */
  ghost predicate Clear(order: seq<Key>, g: Grouping) {
    forall i, j :: 0 <= i < j < |order| ==> !Clash(order[i], order[j], g)
  }

  /** The lookup finds the group with the key, tells that there is none, or throws; and it throws
      exactly when the key clashes with one of the others, wherever that stands. */
  lemma {:induction false} FindIsNorm(order: seq<Key>, k: Key, from: nat, g: Grouping, types: seq<DataType>)
    requires from <= |order| && KeysShaped(order, types) && KeyShaped(k, types)
    requires Sensible(types, g.setting.text) && Clear(order, g)
    ensures var f := Find(order, k, from, g);
      && (f.Throws? <==> ClashesIn(order, k, from, g))
      && (f.Place? ==> from <= f.j && Norm(order[f.j]) == Norm(k))
      && (f.Absent? ==> forall j :: from <= j < |order| ==> Norm(order[j]) != Norm(k))
    decreases |order| - from
  {
    if from < |order| {
      SameGroupIsSameNorm(order[from], k, types, g.setting.text);
      FindIsNorm(order, k, from + 1, g, types);
      if Norm(order[from]) == Norm(k) {
        HashByNorm(order[from], k, g);
        forall j | from < j < |order|
          ensures !Clash(order[j], k, g)
        {
          ClashByNorm(order[from], k, order[j], g, types);
          assert !Clash(order[from], order[j], g);
          ClashByNorm(k, k, order[j], g, types);
        }
      }
    }
  }

  // ---------- The keys ----------

  lemma {:induction false} HasKeySnoc(order: seq<Key>, k: Key, nk: seq<Option<Payload>>)
    ensures HasKey(order + [k], nk) <==> HasKey(order, nk) || Norm(k) == nk
  {
    if HasKey(order, nk) {
      var i :| 0 <= i < |order| && Norm(order[i]) == nk;
      assert (order + [k])[i] == order[i];
    }
    if Norm(k) == nk {
      assert (order + [k])[|order|] == k;
    }
  }

  lemma {:induction false} FirstKeysSnoc(g: Grouping, rows: seq<Row>, row: Row)
    requires KeyOf(g, row).Some?
    ensures FirstKeys(g, rows + [row])
         == (if HasKey(FirstKeys(g, rows), Norm(KeyOf(g, row).value)) then FirstKeys(g, rows)
             else FirstKeys(g, rows) + [KeyOf(g, row).value])
  {
    assert (rows + [row])[..|rows|] == rows;
  }

  /** One key per group, each group among them, and each of them the key of some row. */
  lemma {:induction false} FirstKeysLaws(g: Grouping, rows: seq<Row>, keyTypes: seq<DataType>)
    requires KeyedRows(g, rows, keyTypes)
    ensures Distinct(FirstKeys(g, rows)) && KeysShaped(FirstKeys(g, rows), keyTypes)
    ensures forall j :: 0 <= j < |rows| ==> HasKey(FirstKeys(g, rows), Norm(KeyOf(g, rows[j]).value))
    ensures forall i :: 0 <= i < |FirstKeys(g, rows)| ==> Some(FirstKeys(g, rows)[i]) in RowKeys(g, rows)
  {
    KeysAreDistinct(g, rows, keyTypes);
    forall j | 0 <= j < |rows|
      ensures HasKey(FirstKeys(g, rows), Norm(KeyOf(g, rows[j]).value))
    {
      KeyIsAmongThem(g, rows, j);
    }
    KeysAreRowKeys(g, rows);
  }

  lemma {:induction false} KeysAreDistinct(g: Grouping, rows: seq<Row>, keyTypes: seq<DataType>)
    requires KeyedRows(g, rows, keyTypes)
    ensures Distinct(FirstKeys(g, rows)) && KeysShaped(FirstKeys(g, rows), keyTypes)
  {
    if rows != [] {
      var before, row := rows[..|rows| - 1], rows[|rows| - 1];
      assert rows == before + [row];
      KeysAreDistinct(g, before, keyTypes);
      FirstKeysSnoc(g, before, row);
    }
  }

  lemma {:induction false} KeyIsAmongThem(g: Grouping, rows: seq<Row>, j: nat)
    requires j < |rows| && KeyOf(g, rows[j]).Some?
    ensures HasKey(FirstKeys(g, rows), Norm(KeyOf(g, rows[j]).value))
  {
    var before, row := rows[..|rows| - 1], rows[|rows| - 1];
    assert rows == before + [row];
    var nk := Norm(KeyOf(g, rows[j]).value);
    if j < |before| {
      KeyIsAmongThem(g, before, j);
    }
    if KeyOf(g, row).Some? {
      FirstKeysSnoc(g, before, row);
      HasKeySnoc(FirstKeys(g, before), KeyOf(g, row).value, nk);
    }
  }

  lemma {:induction false} KeysAreRowKeys(g: Grouping, rows: seq<Row>)
    ensures forall i :: 0 <= i < |FirstKeys(g, rows)| ==> Some(FirstKeys(g, rows)[i]) in RowKeys(g, rows)
  {
    if rows != [] {
      var before, row := rows[..|rows| - 1], rows[|rows| - 1];
      KeysAreRowKeys(g, before);
      assert RowKeys(g, rows) == RowKeys(g, before) + [KeyOf(g, row)];
    }
  }

  function RowKeys(g: Grouping, rows: seq<Row>): seq<Option<Key>> {
    seq(|rows|, j requires 0 <= j < |rows| => KeyOf(g, rows[j]))
  }

  // ---------- One more row ----------

  lemma {:induction false} GroupRowsSnoc(g: Grouping, rows: seq<Row>, row: Row, nk: seq<Option<Payload>>)
    ensures GroupRows(g, rows + [row], nk)
         == if InGroup(g, row, nk) then GroupRows(g, rows, nk) + [row] else GroupRows(g, rows, nk)
  {
    assert (rows + [row])[..|rows|] == rows;
  }

  lemma {:induction false} NoKeyNoRows(g: Grouping, rows: seq<Row>, nk: seq<Option<Payload>>)
    requires !HasKey(FirstKeys(g, rows), nk)
    ensures GroupRows(g, rows, nk) == []
  {
    if rows != [] {
      var before, row := rows[..|rows| - 1], rows[|rows| - 1];
      var earlier := FirstKeys(g, before);
      if KeyOf(g, row).Some? {
        HasKeySnoc(earlier, KeyOf(g, row).value, nk);
      }
      NoKeyNoRows(g, before, nk);
    }
  }

  lemma {:induction false} ArgValuesSnoc(g: Grouping, i: nat, rows: seq<Row>, row: Row)
    requires i < |g.aggregates| && ArgOf(g, i, row).Some?
    ensures ArgValues(g, i, rows + [row]) == ArgValues(g, i, rows) + [ArgOf(g, i, row).value]
  {
  }

  lemma {:induction false} ArgValuesFit(g: Grouping, i: nat, rows: seq<Row>, nk: seq<Option<Payload>>,
                                           keyTypes: seq<DataType>, kinds: seq<Kind>)
    requires RegularRows(g, rows, keyTypes, kinds) && i < |g.aggregates| == |kinds|
    ensures AllFit(g.aggregates[i].name, ArgValues(g, i, GroupRows(g, rows, nk)), kinds[i], g.setting.text)
  {
    if rows != [] {
      var before, row := rows[..|rows| - 1], rows[|rows| - 1];
      ArgValuesFit(g, i, before, nk, keyTypes, kinds);
      if InGroup(g, row, nk) {
        ArgValuesSnoc(g, i, GroupRows(g, before, nk), row);
      }
    }
  }

  /** The state is that of aggregate i streamed over the rows. */
  ghost predicate Streams(g: Grouping, i: nat, rows: seq<Row>, state: Agg)
    requires i < |g.aggregates|
  {
    Stream(g.aggregates[i].name, ArgValues(g, i, rows), g.setting.text) == Some(state)
  }

  /** Taking a row into the states takes it into each of them. */
  lemma {:induction false} AddToStatesIff(g: Grouping, states: seq<Agg>, row: Row, n: nat)
    requires n <= |g.aggregates| == |states|
    ensures var r := AddToStates(g, states, row, n);
      && (r.Some? <==> forall i :: 0 <= i < n ==> Taking(g, states, row, i).Some?)
      && (r.Some? ==> forall i :: 0 <= i < |states| ==>
            if i < n then Taking(g, states, row, i) == Some(r.value[i]) else r.value[i] == states[i])
  {
    if n > 0 {
      AddToStatesIff(g, states, row, n - 1);
      var done := AddToStates(g, states, row, n - 1);
      var last := Taking(g, states, row, n - 1);
      assert AddToStates(g, states, row, n)
          == if done.None? || last.None? then None else Some(done.value[n - 1 := last.value]);
    }
  }

  function Taking(g: Grouping, states: seq<Agg>, row: Row, i: nat): Option<Agg>
    requires i < |g.aggregates| == |states|
  {
    match ArgOf(g, i, row)
    case None => None
    case Some(v) => AddValue(states[i], g.aggregates[i].name, v, g.setting.text)
  }

  lemma {:induction false} StreamsOn(g: Grouping, i: nat, seen: seq<Row>, state: Agg, row: Row)
    requires i < |g.aggregates| && Streams(g, i, seen, state) && ArgOf(g, i, row).Some?
    ensures Stream(g.aggregates[i].name, ArgValues(g, i, seen + [row]), g.setting.text)
         == AddValue(state, g.aggregates[i].name, ArgOf(g, i, row).value, g.setting.text)
  {
    ArgValuesSnoc(g, i, seen, row);
    var vs, v := ArgValues(g, i, seen), ArgOf(g, i, row).value;
    assert (vs + [v])[..|vs|] == vs;
  }

  ghost predicate GroupHolds(g: Grouping, rows: seq<Row>, k: Key, states: seq<Agg>) {
    && |states| == |g.aggregates|
    && forall i :: 0 <= i < |states| ==>
         Streams(g, i, GroupRows(g, rows, Norm(k)), states[i])
  }

  /** Each aggregate accepts all its arguments in that group. */
  ghost predicate Streamable(g: Grouping, rows: seq<Row>, nk: seq<Option<Payload>>) {
    forall i :: 0 <= i < |g.aggregates| ==>
      Stream(g.aggregates[i].name, ArgValues(g, i, GroupRows(g, rows, nk)), g.setting.text).Some?
  }

  ghost predicate ArgsEvaluate(g: Grouping, row: Row) {
    forall i :: 0 <= i < |g.aggregates| ==> ArgOf(g, i, row).Some?
  }

  /** The states of the row's group take it exactly when its arguments evaluate and each aggregate
      accepts them behind those before. */
  lemma {:induction false} OwnGroupTakesRow(g: Grouping, rows: seq<Row>, row: Row, k: Key, states: seq<Agg>)
    requires GroupHolds(g, rows, k, states) && InGroup(g, row, Norm(k))
    ensures var r := AddToStates(g, states, row, |g.aggregates|);
      && (r.Some? <==> ArgsEvaluate(g, row) && Streamable(g, rows + [row], Norm(k)))
      && (r.Some? ==> GroupHolds(g, rows + [row], k, r.value))
  {
    var seen := GroupRows(g, rows, Norm(k));
    GroupRowsSnoc(g, rows, row, Norm(k));
    AddToStatesIff(g, states, row, |g.aggregates|);
    forall i | 0 <= i < |states| && ArgOf(g, i, row).Some?
      ensures Stream(g.aggregates[i].name, ArgValues(g, i, seen + [row]), g.setting.text) == Taking(g, states, row, i)
    {
      assert Streams(g, i, seen, states[i]);
      StreamsOn(g, i, seen, states[i], row);
    }
    var r := AddToStates(g, states, row, |g.aggregates|);
    if r.Some? {
      forall i | 0 <= i < |states|
        ensures ArgOf(g, i, row).Some? && Streams(g, i, seen + [row], r.value[i])
      {
        assert Taking(g, states, row, i) == Some(r.value[i]);
      }
    }
  }

  lemma {:induction false} HoldsByGroup(g: Grouping, rows: seq<Row>, t: Table)
    ensures Holds(g, rows, t) <==> t.order == FirstKeys(g, rows) && AllHold(g, rows, t)
  {
  }

  ghost predicate AllHold(g: Grouping, rows: seq<Row>, t: Table) {
    |t.groups| == |t.order| && forall j :: 0 <= j < |t.order| ==> GroupHolds(g, rows, t.order[j], t.groups[j])
  }

  /** The row changes only the states of its own group. */
  lemma {:induction false} OtherGroupKept(g: Grouping, rows: seq<Row>, row: Row, k: Key, states: seq<Agg>)
    requires GroupHolds(g, rows, k, states) && !InGroup(g, row, Norm(k))
    ensures GroupHolds(g, rows + [row], k, states)
  {
    GroupRowsSnoc(g, rows, row, Norm(k));
  }

  lemma {:induction false} NewGroupHolds(g: Grouping, rows: seq<Row>, k: Key)
    requires !HasKey(FirstKeys(g, rows), Norm(k))
    ensures GroupHolds(g, rows, k, Fresh(g))
  {
    NoKeyNoRows(g, rows, Norm(k));
  }

  // ---------- Keys that clash ----------

  /** The keys of the two rows clash. */
  predicate RowsClash(g: Grouping, a: Row, b: Row) {
    match (KeyOf(g, a), KeyOf(g, b))
    case (Some(k), Some(l)) => Clash(k, l, g)
    case _ => false
  }

  predicate ClashesWithSome(g: Grouping, rows: seq<Row>, row: Row) {
    exists i :: 0 <= i < |rows| && RowsClash(g, rows[i], row)
  }

  predicate NoClash(g: Grouping, rows: seq<Row>) {
    forall i, j :: 0 <= i < j < |rows| ==> !RowsClash(g, rows[i], rows[j])
  }

  lemma {:induction false} NoClashSnoc(g: Grouping, rows: seq<Row>, row: Row)
    ensures NoClash(g, rows + [row]) <==> NoClash(g, rows) && !ClashesWithSome(g, rows, row)
  {
    var all := rows + [row];
    if NoClash(g, all) {
      forall i, j | 0 <= i < j < |rows| ensures !RowsClash(g, rows[i], rows[j]) {
        assert !RowsClash(g, all[i], all[j]);
      }
      forall i | 0 <= i < |rows| ensures !RowsClash(g, rows[i], row) {
        assert !RowsClash(g, all[i], all[|rows|]);
      }
    }
  }

  /** A key clashes with that of some row exactly when it clashes with that of some group. */
  lemma {:induction false} GroupClashIff(g: Grouping, rows: seq<Row>, row: Row, keyTypes: seq<DataType>)
    requires KeyedRows(g, rows, keyTypes) && KeyedRow(g, row, keyTypes) && Sensible(keyTypes, g.setting.text)
    ensures var order, k := FirstKeys(g, rows), KeyOf(g, row).value;
      ClashesIn(order, k, 0, g) <==> ClashesWithSome(g, rows, row)
  {
    var order, k := FirstKeys(g, rows), KeyOf(g, row).value;
    FirstKeysLaws(g, rows, keyTypes);
    if ClashesIn(order, k, 0, g) {
      var j :| 0 <= j < |order| && Clash(order[j], k, g);
      var i := RowOfKey(g, rows, order[j]);
      assert RowsClash(g, rows[i], row);
    }
    if ClashesWithSome(g, rows, row) {
      var i :| 0 <= i < |rows| && RowsClash(g, rows[i], row);
      assert KeyedRow(g, rows[i], keyTypes);
      var j := ClashingGroup(KeyOf(g, rows[i]).value, order, k, g, keyTypes);
      assert Clash(order[j], k, g);
    }
  }

  lemma {:induction false} RowOfKey(g: Grouping, rows: seq<Row>, k: Key) returns (i: nat)
    requires Some(k) in RowKeys(g, rows)
    ensures i < |rows| && KeyOf(g, rows[i]) == Some(k)
  {
    i :| 0 <= i < |rows| && RowKeys(g, rows)[i] == Some(k);
  }

  lemma {:induction false} ClashingGroup(own: Key, order: seq<Key>, k: Key, g: Grouping, types: seq<DataType>)
      returns (j: nat)
    requires KeyShaped(own, types) && KeysShaped(order, types) && KeyShaped(k, types) && HasKey(order, Norm(own))
    requires Sensible(types, g.setting.text) && Clash(own, k, g)
    ensures j < |order| && Clash(order[j], k, g)
  {
    j :| 0 <= j < |order| && Norm(order[j]) == Norm(own);
    ClashByNorm(own, order[j], k, g, types);
  }

  lemma {:induction false} GroupsAreClear(g: Grouping, rows: seq<Row>, keyTypes: seq<DataType>)
    requires KeyedRows(g, rows, keyTypes) && Sensible(keyTypes, g.setting.text) && NoClash(g, rows)
    ensures Clear(FirstKeys(g, rows), g)
  {
    if rows != [] {
      var before, row := rows[..|rows| - 1], rows[|rows| - 1];
      assert rows == before + [row];
      assert KeyedRow(g, row, keyTypes);
      NoClashSnoc(g, before, row);
      GroupsAreClear(g, before, keyTypes);
      GroupClashIff(g, before, row, keyTypes);
      FirstKeysSnoc(g, before, row);
    }
  }

  // ---------- One more row ----------

  /** The row goes in exactly when its key clashes with none before, its arguments evaluate and the
      aggregates of its group accept them; and it changes the states of its own group only. */
  lemma {:induction false} AddRowHolds(g: Grouping, rows: seq<Row>, t: Table, row: Row, keyTypes: seq<DataType>)
    requires KeyedRows(g, rows, keyTypes) && KeyedRow(g, row, keyTypes) && Sensible(keyTypes, g.setting.text)
    requires NoClash(g, rows) && Holds(g, rows, t)
    ensures var r := AddRow(g, t, row);
      && (r.Some? <==> !ClashesWithSome(g, rows, row) && ArgsEvaluate(g, row)
                       && Streamable(g, rows + [row], Norm(KeyOf(g, row).value)))
      && (r.Some? ==> Holds(g, rows + [row], r.value))
  {
    var k := KeyOf(g, row).value;
    HoldsByGroup(g, rows, t);
    FirstKeysLaws(g, rows, keyTypes);
    GroupsAreClear(g, rows, keyTypes);
    GroupClashIff(g, rows, row, keyTypes);
    FindIsNorm(t.order, k, 0, g, keyTypes);
    match Find(t.order, k, 0, g)
    case Throws =>
    case Place(j) => KnownGroupHolds(g, rows, t, row, j);
    case Absent => AbsentGroupHolds(g, rows, t, row);
  }

  lemma {:induction false} KnownGroupHolds(g: Grouping, rows: seq<Row>, t: Table, row: Row, own: nat)
    requires TableOk(g, t) && t.order == FirstKeys(g, rows) && AllHold(g, rows, t) && Distinct(t.order)
    requires KeyOf(g, row).Some? && Find(t.order, KeyOf(g, row).value, 0, g) == Place(own)
    requires Norm(t.order[own]) == Norm(KeyOf(g, row).value)
    ensures var r := AddRow(g, t, row);
      && (r.Some? <==> ArgsEvaluate(g, row) && Streamable(g, rows + [row], Norm(KeyOf(g, row).value)))
      && (r.Some? ==> Holds(g, rows + [row], r.value))
  {
    OwnGroupTakesRow(g, rows, row, t.order[own], t.groups[own]);
    var r := AddRow(g, t, row);
    if r.Some? {
      forall j | 0 <= j < |t.order| && j != own
        ensures GroupHolds(g, rows + [row], t.order[j], t.groups[j])
      {
        OtherGroupKept(g, rows, row, t.order[j], t.groups[j]);
      }
      FirstKeysSnoc(g, rows, row);
      assert HasKey(t.order, Norm(KeyOf(g, row).value));
      HoldsByGroup(g, rows + [row], r.value);
    }
  }

  lemma {:induction false} AbsentGroupHolds(g: Grouping, rows: seq<Row>, t: Table, row: Row)
    requires TableOk(g, t) && t.order == FirstKeys(g, rows) && AllHold(g, rows, t)
    requires KeyOf(g, row).Some? && Find(t.order, KeyOf(g, row).value, 0, g) == Absent
    requires forall j :: 0 <= j < |t.order| ==> Norm(t.order[j]) != Norm(KeyOf(g, row).value)
    ensures var r := AddRow(g, t, row);
      && (r.Some? <==> ArgsEvaluate(g, row) && Streamable(g, rows + [row], Norm(KeyOf(g, row).value)))
      && (r.Some? ==> Holds(g, rows + [row], r.value))
  {
    var k := KeyOf(g, row).value;
    NewGroupHolds(g, rows, k);
    OwnGroupTakesRow(g, rows, row, k, Fresh(g));
    var r := AddRow(g, t, row);
    if r.Some? {
      forall j | 0 <= j < |t.order|
        ensures GroupHolds(g, rows + [row], t.order[j], t.groups[j])
      {
        OtherGroupKept(g, rows, row, t.order[j], t.groups[j]);
      }
      FirstKeysSnoc(g, rows, row);
      HoldsByGroup(g, rows + [row], r.value);
    }
  }

  /** All arguments evaluate, and in each group each aggregate accepts them. */
  ghost predicate ArgsStream(g: Grouping, rows: seq<Row>) {
    forall j :: 0 <= j < |rows| ==>
      ArgsEvaluate(g, rows[j]) && KeyOf(g, rows[j]).Some? && Streamable(g, rows, Norm(KeyOf(g, rows[j]).value))
  }

  /** Fewer rows are accepted if more are. */
  lemma {:induction false} StreamableBefore(g: Grouping, rows: seq<Row>, row: Row, nk: seq<Option<Payload>>)
    requires Streamable(g, rows + [row], nk)
    ensures Streamable(g, rows, nk)
  {
    GroupRowsSnoc(g, rows, row, nk);
    if InGroup(g, row, nk) {
      var seen := GroupRows(g, rows, nk);
      forall i | 0 <= i < |g.aggregates|
        ensures Stream(g.aggregates[i].name, ArgValues(g, i, seen), g.setting.text).Some?
      {
        var all := ArgValues(g, i, seen + [row]);
        assert Stream(g.aggregates[i].name, all, g.setting.text).Some?;
        assert all[..|seen|] == ArgValues(g, i, seen);
      }
    }
  }

  lemma {:induction false} ArgsStreamSnoc(g: Grouping, rows: seq<Row>, row: Row)
    requires KeyOf(g, row).Some?
    ensures ArgsStream(g, rows + [row]) <==>
      ArgsStream(g, rows) && ArgsEvaluate(g, row) && Streamable(g, rows + [row], Norm(KeyOf(g, row).value))
  {
    var all, own := rows + [row], Norm(KeyOf(g, row).value);
    if ArgsStream(g, all) {
      assert all[|rows|] == row;
      forall j | 0 <= j < |rows|
        ensures ArgsEvaluate(g, rows[j]) && KeyOf(g, rows[j]).Some?
        ensures Streamable(g, rows, Norm(KeyOf(g, rows[j]).value))
      {
        assert all[j] == rows[j];
        StreamableBefore(g, rows, row, Norm(KeyOf(g, rows[j]).value));
      }
    }
    if ArgsStream(g, rows) && ArgsEvaluate(g, row) && Streamable(g, all, own) {
      forall j | 0 <= j < |all|
        ensures ArgsEvaluate(g, all[j]) && KeyOf(g, all[j]).Some?
        ensures Streamable(g, all, Norm(KeyOf(g, all[j]).value))
      {
        if j < |rows| && Norm(KeyOf(g, rows[j]).value) != own {
          GroupRowsSnoc(g, rows, row, Norm(KeyOf(g, rows[j]).value));
        }
      }
    }
  }

  /** Streaming all rows succeeds exactly when no two keys clash and the aggregates accept their
      arguments, and it then builds exactly the groups of the rows. */
  lemma {:induction false} AddRowsIff(g: Grouping, rows: seq<Row>, keyTypes: seq<DataType>)
    requires KeyedRows(g, rows, keyTypes) && Sensible(keyTypes, g.setting.text)
    ensures AddRows(g, rows).Some? <==> NoClash(g, rows) && ArgsStream(g, rows)
    ensures AddRows(g, rows).Some? ==> Holds(g, rows, AddRows(g, rows).value)
  {
    if rows != [] {
      var before, row := rows[..|rows| - 1], rows[|rows| - 1];
      assert rows == before + [row];
      assert KeyedRow(g, row, keyTypes);
      AddRowsIff(g, before, keyTypes);
      OneRowMore(g, before, row, keyTypes);
    }
  }

  lemma {:induction false} OneRowMore(g: Grouping, before: seq<Row>, row: Row, keyTypes: seq<DataType>)
    requires KeyedRows(g, before, keyTypes) && KeyedRow(g, row, keyTypes) && Sensible(keyTypes, g.setting.text)
    requires AddRows(g, before).Some? <==> NoClash(g, before) && ArgsStream(g, before)
    requires AddRows(g, before).Some? ==> Holds(g, before, AddRows(g, before).value)
    ensures AddRows(g, before + [row]).Some? <==> NoClash(g, before + [row]) && ArgsStream(g, before + [row])
    ensures AddRows(g, before + [row]).Some? ==> Holds(g, before + [row], AddRows(g, before + [row]).value)
  {
    assert (before + [row])[..|before|] == before;
    NoClashSnoc(g, before, row);
    ArgsStreamSnoc(g, before, row);
    if AddRows(g, before).Some? {
      AddRowHolds(g, before, AddRows(g, before).value, row, keyTypes);
    }
  }

  // ---------- When keys do not clash ----------

  /** Without a BOOLEAN column no keys clash. */
  lemma {:induction false} NoClashWithoutBooleans(g: Grouping, rows: seq<Row>, keyTypes: seq<DataType>)
    requires KeyedRows(g, rows, keyTypes) && BOOLEAN !in keyTypes
    ensures NoClash(g, rows)
    ensures forall row :: row in rows ==> !RowsClash(g, row, row)
  {
    forall i, j | 0 <= i <= j < |rows|
      ensures !RowsClash(g, rows[i], rows[j])
    {
      assert KeyedRow(g, rows[i], keyTypes) && KeyedRow(g, rows[j], keyTypes);
      SameGroupIsSameNorm(KeyOf(g, rows[i]).value, KeyOf(g, rows[j]).value, keyTypes, g.setting.text);
    }
  }

  /** Arguments that fit their aggregates are accepted. */
  lemma {:induction false} FittingArgsStream(g: Grouping, rows: seq<Row>, keyTypes: seq<DataType>, kinds: seq<Kind>)
    requires RegularRows(g, rows, keyTypes, kinds) && |kinds| == |g.aggregates|
    ensures ArgsStream(g, rows)
  {
    forall j | 0 <= j < |rows|
      ensures ArgsEvaluate(g, rows[j]) && KeyOf(g, rows[j]).Some?
      ensures Streamable(g, rows, Norm(KeyOf(g, rows[j]).value))
    {
      assert RegularRow(g, rows[j], keyTypes, kinds);
      var nk := Norm(KeyOf(g, rows[j]).value);
      forall i | 0 <= i < |g.aggregates|
        ensures Stream(g.aggregates[i].name, ArgValues(g, i, GroupRows(g, rows, nk)), g.setting.text).Some?
      {
        ArgValuesFit(g, i, rows, nk, keyTypes, kinds);
        StreamTracks(g.aggregates[i].name, ArgValues(g, i, GroupRows(g, rows, nk)), kinds[i], g.setting.text);
      }
    }
  }

  // ---------- What the output says ----------

  /** One output row per group in the order of first appearance: the group's key and, behind
      it, each aggregate of all the argument values of the group's rows. */
  ghost predicate IsGrouped(g: Grouping, rows: seq<Row>, out: seq<Row>) {
    var keys := FirstKeys(g, rows);
    && |out| == |keys|
    && forall j :: 0 <= j < |out| ==> IsGroupRow(g, rows, keys[j], out[j])
  }

  ghost predicate IsGroupRow(g: Grouping, rows: seq<Row>, k: Key, out: Row) {
    && |out| == |k| + |g.aggregates| && out[..|k|] == k
    && forall i :: 0 <= i < |g.aggregates| ==>
         Summarizes(g.aggregates[i].name, ArgValues(g, i, GroupRows(g, rows, Norm(k))), out[|k| + i], g.setting.text)
  }

  lemma {:induction false} OutputIsGrouped(g: Grouping, rows: seq<Row>, keyTypes: seq<DataType>, kinds: seq<Kind>)
    requires RegularRows(g, rows, keyTypes, kinds) && |kinds| == |g.aggregates|
    requires Sensible(keyTypes, g.setting.text) && NoClash(g, rows)
    ensures AddRows(g, rows).Some? && IsGrouped(g, rows, Output(g, AddRows(g, rows).value))
  {
    FittingArgsStream(g, rows, keyTypes, kinds);
    AddRowsIff(g, rows, keyTypes);
    var t := AddRows(g, rows).value;
    HoldsByGroup(g, rows, t);
    forall j | 0 <= j < |t.order|
      ensures IsGroupRow(g, rows, t.order[j], OutputRow(g, t.order[j], t.groups[j]))
    {
      GroupRowIsGrouped(g, rows, t, j, keyTypes, kinds);
    }
  }

  lemma {:induction false} GroupRowIsGrouped(g: Grouping, rows: seq<Row>, t: Table, j: nat,
                                             keyTypes: seq<DataType>, kinds: seq<Kind>)
    requires RegularRows(g, rows, keyTypes, kinds) && |kinds| == |g.aggregates|
    requires TableOk(g, t) && j < |t.order| && GroupHolds(g, rows, t.order[j], t.groups[j])
    ensures IsGroupRow(g, rows, t.order[j], OutputRow(g, t.order[j], t.groups[j]))
  {
    var nk := Norm(t.order[j]);
    forall i | 0 <= i < |g.aggregates|
      ensures Summarizes(g.aggregates[i].name, ArgValues(g, i, GroupRows(g, rows, nk)),
                          Compute(t.groups[j][i], g.aggregates[i].name), g.setting.text)
    {
      ArgValuesFit(g, i, rows, nk, keyTypes, kinds);
      StreamIsBatch(g.aggregates[i].name, ArgValues(g, i, GroupRows(g, rows, nk)), kinds[i], g.setting.text);
    }
  }

  // ---------- When the operator succeeds ----------

  /** The last lookup finds a group's own states, unless its key clashes with itself. */
  lemma {:induction false} FindsItself(order: seq<Key>, j: nat, g: Grouping, types: seq<DataType>)
    requires j < |order| && KeysShaped(order, types) && Distinct(order) && Clear(order, g)
    requires Sensible(types, g.setting.text)
    ensures Find(order, order[j], 0, g) == if Clash(order[j], order[j], g) then Throws else Place(j)
  {
    FindIsNorm(order, order[j], 0, g, types);
    forall i | 0 <= i < |order| && i != j
      ensures !Clash(order[i], order[j], g)
    {
      ClashByNorm(order[i], order[i], order[j], g, types);
      assert if i < j then !Clash(order[i], order[j], g) else !Clash(order[j], order[i], g);
    }
  }

  ghost predicate NoSelfClash(order: seq<Key>, from: nat, g: Grouping) {
    forall j :: from <= j < |order| ==> !Clash(order[j], order[j], g)
  }

  lemma {:induction false} OutputFrom(g: Grouping, t: Table, j: nat)
    requires TableOk(g, t) && j < |t.order|
    ensures Output(g, t)[j..] == [OutputRow(g, t.order[j], t.groups[j])] + Output(g, t)[j + 1..]
  {
  }

  /** All groups are handed out exactly when no key clashes with itself. */
  lemma {:induction false} OutputRunIff(g: Grouping, t: Table, j: nat, types: seq<DataType>)
    requires TableOk(g, t) && j <= |t.order| && KeysShaped(t.order, types) && Distinct(t.order) && Clear(t.order, g)
    requires Sensible(types, g.setting.text)
    ensures var out := OutputRun(g, t, j);
      && (out.failed <==> !NoSelfClash(t.order, j, g))
      && (!out.failed ==> out.rows == Output(g, t)[j..])
    decreases |t.order| - j
  {
    if j < |t.order| {
      FindsItself(t.order, j, g, types);
      OutputRunIff(g, t, j + 1, types);
      OutputFrom(g, t, j);
      assert NoSelfClash(t.order, j, g) <==> !Clash(t.order[j], t.order[j], g) && NoSelfClash(t.order, j + 1, g);
    }
  }

  predicate NoRowSelfClash(g: Grouping, rows: seq<Row>) {
    forall i :: 0 <= i < |rows| ==> !RowsClash(g, rows[i], rows[i])
  }

  lemma {:induction false} SelfClashIff(g: Grouping, rows: seq<Row>, keyTypes: seq<DataType>)
    requires KeyedRows(g, rows, keyTypes) && Sensible(keyTypes, g.setting.text)
    ensures NoSelfClash(FirstKeys(g, rows), 0, g) <==> NoRowSelfClash(g, rows)
  {
    var order := FirstKeys(g, rows);
    FirstKeysLaws(g, rows, keyTypes);
    if NoRowSelfClash(g, rows) {
      forall j | 0 <= j < |order|
        ensures !Clash(order[j], order[j], g)
      {
        assert Some(order[j]) in RowKeys(g, rows);
        var i :| 0 <= i < |rows| && KeyOf(g, rows[i]) == Some(order[j]);
        assert !RowsClash(g, rows[i], rows[i]);
      }
    }
    if NoSelfClash(order, 0, g) {
      forall i | 0 <= i < |rows|
        ensures !RowsClash(g, rows[i], rows[i])
      {
        assert KeyedRow(g, rows[i], keyTypes);
        var k := KeyOf(g, rows[i]).value;
        assert HasKey(order, Norm(k));
        var j :| 0 <= j < |order| && Norm(order[j]) == Norm(k);
        ClashByNorm(k, order[j], k, g, keyTypes);
        ClashByNorm(k, order[j], order[j], g, keyTypes);
      }
    }
  }

  /** The operator succeeds on the rows of its child exactly when no key clashes with another or with
      itself and the aggregates accept their arguments; it then gives one row per group. */
  lemma {:induction false} GroupRunSucceedsIff(g: Grouping, rows: seq<Row>, keyTypes: seq<DataType>)
    requires KeyedRows(g, rows, keyTypes) && Sensible(keyTypes, g.setting.text)
    ensures !GroupRun(g, rows).failed <==> NoClash(g, rows) && NoRowSelfClash(g, rows) && ArgsStream(g, rows)
    ensures !GroupRun(g, rows).failed ==>
      AddRows(g, rows).Some? && GroupRun(g, rows).rows == Output(g, AddRows(g, rows).value)
  {
    AddRowsIff(g, rows, keyTypes);
    if AddRows(g, rows).Some? {
      var t := AddRows(g, rows).value;
      FirstKeysLaws(g, rows, keyTypes);
      GroupsAreClear(g, rows, keyTypes);
      OutputRunIff(g, t, 0, keyTypes);
      SelfClashIff(g, rows, keyTypes);
      assert Output(g, t)[0..] == Output(g, t);
    }
  }

  /** Without a BOOLEAN column, and with arguments that fit, it always does. */
  lemma {:induction false} RegularRowsAreGrouped(g: Grouping, rows: seq<Row>, keyTypes: seq<DataType>,
                                                 kinds: seq<Kind>)
    requires RegularRows(g, rows, keyTypes, kinds) && |kinds| == |g.aggregates| && BOOLEAN !in keyTypes
    ensures !GroupRun(g, rows).failed && IsGrouped(g, rows, GroupRun(g, rows).rows)
  {
    NoClashWithoutBooleans(g, rows, keyTypes);
    FittingArgsStream(g, rows, keyTypes, kinds);
    GroupRunSucceedsIff(g, rows, keyTypes);
    OutputIsGrouped(g, rows, keyTypes, kinds);
  }

  // ---------- BOOLEAN keys ----------

  /** The key of the row is one truth value. */
  predicate TrueOrFalse(g: Grouping, row: Row) {
    KeyOf(g, row) == Some([BoolValue(true)]) || KeyOf(g, row) == Some([BoolValue(false)])
  }

  predicate TruthRepeats(g: Grouping, rows: seq<Row>) {
    exists i, j :: 0 <= i < j < |rows| && TrueOrFalse(g, rows[i]) && KeyOf(g, rows[i]) == KeyOf(g, rows[j])
  }

  lemma {:induction false} TruthClashIff(g: Grouping, a: Row, b: Row)
    requires KeyedRow(g, a, [BOOLEAN]) && KeyedRow(g, b, [BOOLEAN]) && TruthIsNoNumber(g.setting.text)
    requires g.digest(["true"]) != g.digest(["false"])
    ensures RowsClash(g, a, b) <==> TrueOrFalse(g, a) && KeyOf(g, a) == KeyOf(g, b)
  {
    var k, l := KeyOf(g, a).value, KeyOf(g, b).value;
    OneValueHash(k, g);
    OneValueHash(l, g);
    OneValueSame(k, l, g.setting.text);
    assert k == [k[0]] && l == [l[0]];
    assert KeyFits(k[0], BOOLEAN) && KeyFits(l[0], BOOLEAN);
    if k[0].Datum? && l[0].Datum? {
      BooleansDoNotCompare(k[0] == BoolValue(true), l[0] == BoolValue(true), g.setting.text);
    }
  }

  lemma {:induction false} OneValueHash(k: Key, g: Grouping)
    requires |k| == 1
    ensures KeyHash(k, g) == g.digest(if k[0].Null? then [] else [GetString(k[0], g.setting.text)])
  {
    var text := g.setting.text;
    assert KeyTexts(k[1..], text) == [];
    var first := if k[0].Null? then [] else [GetString(k[0], text)];
    assert KeyTexts(k, text) == first + KeyTexts(k[1..], text) == first;
  }

  lemma {:induction false} OneValueSame(k: Key, l: Key, text: Text)
    requires |k| == |l| == 1
    ensures var c := CompareTo(k[0], l[0], text);
      SameGroup(k, l, text) == if c.None? then None else Some(c.value == 0)
  {
    assert k[1..] == [] && l[1..] == [];
  }

  /** GROUP BY a BOOLEAN column: the rows are gathered exactly when no truth value repeats, and even
      then each group's last lookup throws, so the operator gives all its groups exactly when every
      key is NULL. */
  lemma {:induction false} BooleanKeysIff(g: Grouping, rows: seq<Row>)
    requires KeyedRows(g, rows, [BOOLEAN]) && TruthIsNoNumber(g.setting.text) && ArgsStream(g, rows)
    requires g.digest(["true"]) != g.digest(["false"])
    ensures AddRows(g, rows).Some? <==> !TruthRepeats(g, rows)
    ensures !GroupRun(g, rows).failed <==> forall i :: 0 <= i < |rows| ==> !TrueOrFalse(g, rows[i])
  {
    AddRowsIff(g, rows, [BOOLEAN]);
    GroupRunSucceedsIff(g, rows, [BOOLEAN]);
    forall i, j | 0 <= i <= j < |rows|
      ensures RowsClash(g, rows[i], rows[j]) <==> TrueOrFalse(g, rows[i]) && KeyOf(g, rows[i]) == KeyOf(g, rows[j])
    {
      assert KeyedRow(g, rows[i], [BOOLEAN]) && KeyedRow(g, rows[j], [BOOLEAN]);
      TruthClashIff(g, rows[i], rows[j]);
    }
  }

  // ---------- The groups share out the rows ----------

  /** The sizes of the groups of these keys, added up. */
  function TotalRows(g: Grouping, rows: seq<Row>, order: seq<Key>): nat {
    if order == [] then 0
    else TotalRows(g, rows, order[..|order| - 1]) + |GroupRows(g, rows, Norm(order[|order| - 1]))|
  }

  lemma {:induction false} LastKey(order: seq<Key>, nk: seq<Option<Payload>>)
    requires order != [] && Distinct(order)
    ensures var front, last := order[..|order| - 1], order[|order| - 1];
      Distinct(front) && (HasKey(order, nk) <==> HasKey(front, nk) != (Norm(last) == nk))
      && !(HasKey(front, nk) && Norm(last) == nk)
  {
    var front, last := order[..|order| - 1], order[|order| - 1];
    assert order == front + [last];
    HasKeySnoc(front, last, nk);
  }

  lemma {:induction false} TotalTakesRow(g: Grouping, rows: seq<Row>, row: Row, order: seq<Key>)
    requires KeyOf(g, row).Some? && Distinct(order)
    ensures TotalRows(g, rows + [row], order)
         == TotalRows(g, rows, order) + (if HasKey(order, Norm(KeyOf(g, row).value)) then 1 else 0)
  {
    if order != [] {
      var front, last := order[..|order| - 1], order[|order| - 1];
      var nk := Norm(KeyOf(g, row).value);
      TotalTakesRow(g, rows, row, front);
      GroupRowsSnoc(g, rows, row, Norm(last));
      LastKey(order, nk);
    }
  }

  lemma {:induction false} TotalOfNone(g: Grouping, order: seq<Key>)
    ensures TotalRows(g, [], order) == 0
  {
    if order != [] {
      TotalOfNone(g, order[..|order| - 1]);
    }
  }

  lemma {:induction false} TotalCovers(g: Grouping, rows: seq<Row>, order: seq<Key>)
    requires Distinct(order)
    requires forall j :: 0 <= j < |rows| ==> KeyOf(g, rows[j]).Some? && HasKey(order, Norm(KeyOf(g, rows[j]).value))
    ensures TotalRows(g, rows, order) == |rows|
  {
    if rows == [] {
      TotalOfNone(g, order);
    } else {
      var before, row := rows[..|rows| - 1], rows[|rows| - 1];
      assert rows == before + [row];
      TotalCovers(g, before, order);
      TotalTakesRow(g, before, row, order);
    }
  }

  /** What COUNT says of each group adds up to the number of input rows. */
  lemma {:induction false} CountsAddUp(g: Grouping, rows: seq<Row>, keyTypes: seq<DataType>)
    requires KeyedRows(g, rows, keyTypes)
    ensures TotalRows(g, rows, FirstKeys(g, rows)) == |rows|
  {
    FirstKeysLaws(g, rows, keyTypes);
    TotalCovers(g, rows, FirstKeys(g, rows));
  }

  // ---------- The order of the rows only orders the groups ----------

  lemma {:induction false} GroupRowsCount(g: Grouping, rows: seq<Row>, nk: seq<Option<Payload>>, row: Row)
    ensures multiset(GroupRows(g, rows, nk))[row] == if InGroup(g, row, nk) then multiset(rows)[row] else 0
  {
    if rows != [] {
      var before, last := rows[..|rows| - 1], rows[|rows| - 1];
      assert rows == before + [last];
      GroupRowsCount(g, before, nk, row);
    }
  }

  lemma {:induction false} GroupRowsPermuted(g: Grouping, rows: seq<Row>, other: seq<Row>, nk: seq<Option<Payload>>)
    requires multiset(rows) == multiset(other)
    ensures multiset(GroupRows(g, rows, nk)) == multiset(GroupRows(g, other, nk))
  {
    forall row
      ensures multiset(GroupRows(g, rows, nk))[row] == multiset(GroupRows(g, other, nk))[row]
    {
      GroupRowsCount(g, rows, nk, row);
      GroupRowsCount(g, other, nk, row);
    }
  }

  lemma {:induction false} ArgValuesConcat(g: Grouping, i: nat, a: seq<Row>, b: seq<Row>)
    requires i < |g.aggregates|
    ensures ArgValues(g, i, a + b) == ArgValues(g, i, a) + ArgValues(g, i, b)
  {
  }

  lemma {:induction false} ArgValuesPermuted(g: Grouping, i: nat, rows: seq<Row>, other: seq<Row>)
    requires i < |g.aggregates| && multiset(rows) == multiset(other)
    ensures multiset(ArgValues(g, i, rows)) == multiset(ArgValues(g, i, other))
    decreases |rows|
  {
    if rows == [] {
      assert |multiset(other)| == 0;
    } else {
      var front, x := rows[..|rows| - 1], rows[|rows| - 1];
      var a, b := TakeOut(rows, other);
      ArgValuesPermuted(g, i, front, a + b);
      assert rows == front + [x];
      ArgValuesConcat(g, i, front, [x]);
      ArgValuesWithout(g, i, a, x, b);
    }
  }

  lemma {:induction false} ArgValuesWithout(g: Grouping, i: nat, a: seq<Row>, x: Row, b: seq<Row>)
    requires i < |g.aggregates|
    ensures multiset(ArgValues(g, i, a + [x] + b)) == multiset(ArgValues(g, i, a + b)) + multiset(ArgValues(g, i, [x]))
  {
    ArgValuesConcat(g, i, a, b);
    ArgValuesConcat(g, i, a + [x], b);
    ArgValuesConcat(g, i, a, [x]);
  }

  /** Two output rows of one group: keys that differ in type tags only, and agreeing aggregates. */
  ghost predicate SameOutput(g: Grouping, k: Key, out: Row, k': Key, out': Row) {
    && Norm(k) == Norm(k') && |out| == |k| + |g.aggregates| && |out'| == |k'| + |g.aggregates|
    && forall i :: 0 <= i < |g.aggregates| ==>
         Agrees(g.aggregates[i].name, out[|k| + i], out'[|k'| + i], g.setting.text)
  }

  /** The group of the same key over permuted rows has the same aggregates. */
  lemma {:induction false} SameGroupSameAggregates(g: Grouping, rows: seq<Row>, other: seq<Row>, k: Key, k': Key,
                                                   out: Row, out': Row, keyTypes: seq<DataType>, kinds: seq<Kind>)
    requires multiset(rows) == multiset(other) && Norm(k) == Norm(k')
    requires RegularRows(g, rows, keyTypes, kinds) && |kinds| == |g.aggregates|
    requires IsGroupRow(g, rows, k, out) && IsGroupRow(g, other, k', out')
    ensures SameOutput(g, k, out, k', out')
  {
    forall i | 0 <= i < |g.aggregates|
      ensures Agrees(g.aggregates[i].name, out[|k| + i], out'[|k'| + i], g.setting.text)
    {
      var a, b := GroupRows(g, rows, Norm(k)), GroupRows(g, other, Norm(k));
      GroupRowsPermuted(g, rows, other, Norm(k));
      ArgValuesPermuted(g, i, a, b);
      ArgValuesFit(g, i, rows, Norm(k), keyTypes, kinds);
      AggregateOfPermuted(g.aggregates[i].name, ArgValues(g, i, a), ArgValues(g, i, b), out[|k| + i], out'[|k'| + i],
                          kinds[i], g.setting.text);
    }
  }

  /** Where each key of the first list stands in the second. */
  ghost predicate Pairs(pairing: seq<nat>, n: nat) {
    && |pairing| == n && (forall j :: 0 <= j < n ==> pairing[j] < n)
    && (forall i, j :: 0 <= i < j < n ==> pairing[i] != pairing[j])
    && (forall m :: 0 <= m < n ==> m in pairing)
  }

  lemma {:induction false} KeyIsInOther(g: Grouping, rows: seq<Row>, other: seq<Row>, keyTypes: seq<DataType>, j: nat)
    requires multiset(rows) == multiset(other) && KeyedRows(g, rows, keyTypes) && j < |FirstKeys(g, rows)|
    ensures HasKey(FirstKeys(g, other), Norm(FirstKeys(g, rows)[j]))
  {
    var keys := FirstKeys(g, rows);
    FirstKeysLaws(g, rows, keyTypes);
    assert Some(keys[j]) in RowKeys(g, rows);
    var r :| 0 <= r < |rows| && KeyOf(g, rows[r]) == Some(keys[j]);
    assert rows[r] in multiset(other);
    var i :| 0 <= i < |other| && other[i] == rows[r];
    KeyIsAmongThem(g, other, i);
  }

  lemma {:induction false} KeyedPermuted(g: Grouping, rows: seq<Row>, other: seq<Row>, keyTypes: seq<DataType>)
    requires multiset(rows) == multiset(other) && KeyedRows(g, rows, keyTypes)
    ensures KeyedRows(g, other, keyTypes)
  {
    forall i | 0 <= i < |other|
      ensures KeyedRow(g, other[i], keyTypes)
    {
      assert other[i] in multiset(rows);
    }
  }

  /** For keys of distinct groups that all occur among the other keys: the places there. */
  lemma {:induction false} PlacesOf(keys: seq<Key>, other: seq<Key>) returns (places: seq<nat>)
    requires Distinct(keys)
    requires forall j :: 0 <= j < |keys| ==> HasKey(other, Norm(keys[j]))
    ensures |places| == |keys|
    ensures forall j :: 0 <= j < |keys| ==> places[j] < |other| && Norm(other[places[j]]) == Norm(keys[j])
    ensures forall i, j :: 0 <= i < j < |keys| ==> places[i] != places[j]
  {
    places := [];
    while |places| < |keys|
      invariant |places| <= |keys|
      invariant forall j :: 0 <= j < |places| ==> places[j] < |other| && Norm(other[places[j]]) == Norm(keys[j])
    {
      assert HasKey(other, Norm(keys[|places|]));
      var m :| 0 <= m < |other| && Norm(other[m]) == Norm(keys[|places|]);
      places := places + [m];
    }
  }

  /** Distinct places below m are at most m, and if they are as many they are all of them. */
  lemma {:induction false} DistinctPlaces(places: seq<nat>, m: nat)
    requires forall j :: 0 <= j < |places| ==> places[j] < m
    requires forall i, j :: 0 <= i < j < |places| ==> places[i] != places[j]
    ensures |places| <= m
    ensures |places| == m ==> forall x :: 0 <= x < m ==> x in places
    decreases m
  {
    assert places == [] || places[0] < m;
    if m > 0 {
      if m - 1 in places {
        var k :| 0 <= k < |places| && places[k] == m - 1;
        var rest := places[..k] + places[k + 1..];
        assert forall j :: 0 <= j < |rest| ==> rest[j] == places[if j < k then j else j + 1];
        assert forall x :: x in places <==> x in rest || x == m - 1;
        DistinctPlaces(rest, m - 1);
      } else {
        assert forall j :: 0 <= j < |places| ==> places[j] in places;
        DistinctPlaces(places, m - 1);
      }
    }
  }

  /** Permuting the rows only reorders the output: as many groups, paired one to one, each with
      the same key and the same aggregates. */
  lemma {:induction false} PermutedRowsSameGroups(g: Grouping, rows: seq<Row>, other: seq<Row>, out: seq<Row>,
                                                  out': seq<Row>,
                                                  keyTypes: seq<DataType>, kinds: seq<Kind>)
      returns (pairing: seq<nat>)
    requires multiset(rows) == multiset(other)
    requires RegularRows(g, rows, keyTypes, kinds) && |kinds| == |g.aggregates|
    requires IsGrouped(g, rows, out) && IsGrouped(g, other, out')
    ensures |out| == |out'| && Pairs(pairing, |out|)
    ensures var keys, keys' := FirstKeys(g, rows), FirstKeys(g, other);
      forall j :: 0 <= j < |out| ==> SameOutput(g, keys[j], out[j], keys'[pairing[j]], out'[pairing[j]])
  {
    var keys, keys' := FirstKeys(g, rows), FirstKeys(g, other);
    pairing := KeyPairing(g, rows, other, keyTypes);
    forall j | 0 <= j < |out|
      ensures SameOutput(g, keys[j], out[j], keys'[pairing[j]], out'[pairing[j]])
    {
      SameGroupSameAggregates(g, rows, other, keys[j], keys'[pairing[j]], out[j], out'[pairing[j]], keyTypes, kinds);
    }
  }

  lemma {:induction false} KeyPairing(g: Grouping, rows: seq<Row>, other: seq<Row>, keyTypes: seq<DataType>)
      returns (pairing: seq<nat>)
    requires multiset(rows) == multiset(other) && KeyedRows(g, rows, keyTypes)
    ensures var keys, keys' := FirstKeys(g, rows), FirstKeys(g, other);
      && |keys| == |keys'| && Pairs(pairing, |keys|)
      && forall j :: 0 <= j < |keys| ==> Norm(keys[j]) == Norm(keys'[pairing[j]])
  {
    var keys, keys' := FirstKeys(g, rows), FirstKeys(g, other);
    KeyedPermuted(g, rows, other, keyTypes);
    FirstKeysLaws(g, rows, keyTypes);
    FirstKeysLaws(g, other, keyTypes);
    forall j | 0 <= j < |keys| ensures HasKey(keys', Norm(keys[j])) {
      KeyIsInOther(g, rows, other, keyTypes, j);
    }
    forall j | 0 <= j < |keys'| ensures HasKey(keys, Norm(keys'[j])) {
      KeyIsInOther(g, other, rows, keyTypes, j);
    }
    pairing := PlacesOf(keys, keys');
    DistinctPlaces(pairing, |keys'|);
    var back := PlacesOf(keys', keys);
    DistinctPlaces(back, |keys|);
  }
}
