/** Aggregate functions: the state each keeps while rows stream by, and what it means. */
module Aggregates {
  import opened Values

  /** The running state of one aggregate of one group. */
  datatype Agg = Agg(count: nat, sum: Option<real>, min: Option<Value>, max: Option<Value>)

  const EMPTY := Agg(0, None, None, None)

  /** What SUM and AVG add for a value that is not NULL: nothing for texts. */
  function Amount(v: Value, text: Text): Option<real> {
    if v.ty == INT || v.ty == BIGINT then
      match GetInt(v)
      case None => None
      case Some(n) => Some(n as real)
    else if v.ty == DOUBLE then GetDouble(v, text)
    else Some(0.0)
  }

  function Plus(sum: Option<real>, x: real): Option<real> {
    Some((if sum.None? then 0.0 else sum.value) + x)
  }

  /** addValue; None stands for a thrown exception. */
  function AddValue(s: Agg, name: string, v: Value, text: Text): Option<Agg> {
    if name == "COUNT" then Some(s.(count := s.count + 1))
    else if v.Null? then Some(s)
    else if name == "SUM" then
      match Amount(v, text)
      case None => None
      case Some(x) => Some(s.(sum := Plus(s.sum, x)))
    else if name == "AVG" then
      match Amount(v, text)
      case None => None
      case Some(x) => Some(s.(count := s.count + 1, sum := Plus(s.sum, x)))
    else if name == "MIN" then
      if s.min.None? then Some(s.(min := Some(v)))
      else
        match CompareTo(v, s.min.value, text)
        case None => None
        case Some(c) => Some(if c < 0 then s.(min := Some(v)) else s)
    else if name == "MAX" then
      if s.max.None? then Some(s.(max := Some(v)))
      else
        match CompareTo(v, s.max.value, text)
        case None => None
        case Some(c) => Some(if c > 0 then s.(max := Some(v)) else s)
    else Some(s)
  }

  function Compute(s: Agg, name: string): Value {
    if name == "COUNT" then BigValue(s.count)
    else if name == "SUM" then if s.sum.None? then NULL else DoubleValue(s.sum.value)
    else if name == "AVG" then
      if s.sum.None? || s.count == 0 then NULL else DoubleValue(s.sum.value / s.count as real)
    else if name == "MIN" then if s.min.None? then NULL else s.min.value
    else if name == "MAX" then if s.max.None? then NULL else s.max.value
    else NULL
  }

  /** The state after all of vs, the last one last. */
  function Stream(name: string, vs: seq<Value>, text: Text): Option<Agg> {
    if vs == [] then Some(EMPTY)
    else
      match Stream(name, vs[..|vs| - 1], text)
      case None => None
      case Some(s) => AddValue(s, name, vs[|vs| - 1], text)
  }

  // ---------- What an aggregate means ----------

  /** What an aggregate asks of its argument: COUNT nothing, SUM and AVG an amount that can be
      read, MIN and MAX a value of one kind. */
  predicate ArgFits(name: string, v: Value, kind: Kind, text: Text) {
    if name == "SUM" || name == "AVG" then v.Datum? ==> Amount(v, text).Some?
    else if name == "MIN" || name == "MAX" then OfKind(v, kind, text)
    else true
  }

  predicate AllFit(name: string, vs: seq<Value>, kind: Kind, text: Text) {
    forall i :: 0 <= i < |vs| ==> ArgFits(name, vs[i], kind, text)
  }

  function NonNull(vs: seq<Value>): seq<Value> {
    if vs == [] then []
    else NonNull(vs[..|vs| - 1]) + (if vs[|vs| - 1].Datum? then [vs[|vs| - 1]] else [])
  }

  /** The amounts added up; what cannot be read counts for nothing. */
  function Sum(vs: seq<Value>, text: Text): real {
    if vs == [] then 0.0 else Sum(vs[..|vs| - 1], text) + Number(vs[|vs| - 1], text)
  }

  /** What a value counts, by its payload: an INT or BIGINT its whole number, a DOUBLE its number, and a
      value of any other type nothing. */
  function Number(v: Value, text: Text): real {
    match v
    case Datum(DOUBLE, I(n)) => n as real
    case Datum(DOUBLE, D(x)) => x
    case Datum(DOUBLE, S(s)) => (match text.toReal(s) case None => 0.0 case Some(x) => x)
    case Datum(INT, p) => Whole(p)
    case Datum(BIGINT, p) => Whole(p)
    case _ => 0.0
  }

  function Whole(p: Payload): real {
    match p
    case I(n) => n as real
    case D(x) => Truncate(x) as real
    case S(s) => match ParseInt(s) case None => 0.0 case Some(n) => n as real
  }

  /** m is one of vs, and none of vs comes before it (after it, for a maximum). */
  ghost predicate IsExtreme(m: Value, vs: seq<Value>, sign: int, text: Text) {
    m in vs && forall v :: v in vs ==> CompareTo(v, m, text).Some? && sign * CompareTo(v, m, text).value >= 0
  }

  /** r is what the aggregate means over all of vs. */
  ghost predicate Summarizes(name: string, vs: seq<Value>, r: Value, text: Text) {
    var some := NonNull(vs);
    if name == "COUNT" then r == BigValue(|vs|)
    else if some == [] then r == NULL
    else if name == "SUM" then r == DoubleValue(Sum(some, text))
    else if name == "AVG" then r == DoubleValue(Sum(some, text) / |some| as real)
    else if name == "MIN" then IsExtreme(r, some, 1, text)
    else if name == "MAX" then IsExtreme(r, some, -1, text)
    else r == NULL
  }

  // ---------- Streaming computes the meaning ----------

  lemma {:induction false} NonNullIn(vs: seq<Value>)
    ensures |NonNull(vs)| <= |vs|
    ensures forall v :: v in NonNull(vs) ==> v.Datum? && v in vs
  {
    if vs != [] {
      NonNullIn(vs[..|vs| - 1]);
    }
  }

  function SumOf(some: seq<Value>, text: Text): Option<real> {
    if some == [] then None else Some(Sum(some, text))
  }

  ghost predicate ExtremeOf(m: Option<Value>, some: seq<Value>, sign: int, text: Text) {
    if some == [] then m.None? else m.Some? && IsExtreme(m.value, some, sign, text)
  }

  /** The state of each aggregate is the meaning of what it has seen. */
  ghost predicate Tracks(s: Agg, name: string, vs: seq<Value>, text: Text) {
    var some := NonNull(vs);
    if name == "COUNT" then s.count == |vs|
    else if name == "SUM" then s.sum == SumOf(some, text)
    else if name == "AVG" then s.sum == SumOf(some, text) && s.count == |some|
    else if name == "MIN" then ExtremeOf(s.min, some, 1, text)
    else if name == "MAX" then ExtremeOf(s.max, some, -1, text)
    else true
  }

  lemma {:induction false} StreamTracks(name: string, vs: seq<Value>, kind: Kind, text: Text)
    requires AllFit(name, vs, kind, text)
    ensures Stream(name, vs, text).Some? && Tracks(Stream(name, vs, text).value, name, vs, text)
  {
    if vs != [] {
      var before, v := vs[..|vs| - 1], vs[|vs| - 1];
      assert before + [v] == vs;
      StreamTracks(name, before, kind, text);
      AddTracks(Stream(name, before, text).value, name, before, v, kind, text);
    }
  }

  lemma {:induction false} NonNullSnoc(vs: seq<Value>, v: Value)
    ensures NonNull(vs + [v]) == if v.Datum? then NonNull(vs) + [v] else NonNull(vs)
  {
    assert (vs + [v])[..|vs|] == vs;
  }

  lemma {:induction false} SumSnoc(vs: seq<Value>, v: Value, text: Text)
    ensures Sum(vs + [v], text) == Sum(vs, text) + Number(v, text) && Sum([], text) == 0.0
  {
    assert (vs + [v])[..|vs|] == vs;
  }

  lemma {:induction false} AddTracks(s: Agg, name: string, vs: seq<Value>, v: Value, kind: Kind, text: Text)
    requires AllFit(name, vs, kind, text) && ArgFits(name, v, kind, text) && Tracks(s, name, vs, text)
    ensures AddValue(s, name, v, text).Some?
    ensures Tracks(AddValue(s, name, v, text).value, name, vs + [v], text)
  {
    if v.Null? {
      NonNullSnoc(vs, v);
    } else if name == "SUM" || name == "AVG" {
      AddAmount(s, name, vs, v, kind, text);
    } else if name == "MIN" {
      AddLeast(s, vs, v, kind, text);
    } else if name == "MAX" {
      AddGreatest(s, vs, v, kind, text);
    }
  }

  lemma {:induction false} AddAmount(s: Agg, name: string, vs: seq<Value>, v: Value, kind: Kind, text: Text)
    requires (name == "SUM" || name == "AVG") && ArgFits(name, v, kind, text) && v.Datum?
    requires Tracks(s, name, vs, text)
    ensures AddValue(s, name, v, text).Some?
    ensures Tracks(AddValue(s, name, v, text).value, name, vs + [v], text)
  {
    NonNullSnoc(vs, v);
    SumSnoc(NonNull(vs), v, text);
  }

  lemma {:induction false} SomeOfKind(name: string, vs: seq<Value>, kind: Kind, text: Text)
    requires (name == "MIN" || name == "MAX") && AllFit(name, vs, kind, text)
    ensures AllOfKind(NonNull(vs), kind, text)
  {
    NonNullIn(vs);
  }

  predicate AllOfKind(some: seq<Value>, kind: Kind, text: Text) {
    forall x :: x in some ==> x.Datum? && OfKind(x, kind, text)
  }

  lemma {:induction false} AddLeast(s: Agg, vs: seq<Value>, v: Value, kind: Kind, text: Text)
    requires AllFit("MIN", vs, kind, text) && OfKind(v, kind, text) && v.Datum?
    requires Tracks(s, "MIN", vs, text)
    ensures AddValue(s, "MIN", v, text).Some?
    ensures Tracks(AddValue(s, "MIN", v, text).value, "MIN", vs + [v], text)
  {
    NonNullSnoc(vs, v);
    SomeOfKind("MIN", vs, kind, text);
    AddExtreme(s.min, NonNull(vs), v, 1, kind, text);
  }

  lemma {:induction false} AddGreatest(s: Agg, vs: seq<Value>, v: Value, kind: Kind, text: Text)
    requires AllFit("MAX", vs, kind, text) && OfKind(v, kind, text) && v.Datum?
    requires Tracks(s, "MAX", vs, text)
    ensures AddValue(s, "MAX", v, text).Some?
    ensures Tracks(AddValue(s, "MAX", v, text).value, "MAX", vs + [v], text)
  {
    NonNullSnoc(vs, v);
    SomeOfKind("MAX", vs, kind, text);
    AddExtreme(s.max, NonNull(vs), v, -1, kind, text);
  }

  /** The value held, or the new one if that comes before it. */
  lemma {:induction false} AddExtreme(m: Option<Value>, some: seq<Value>, v: Value, sign: int, kind: Kind, text: Text)
    requires (sign == 1 || sign == -1) && v.Datum? && OfKind(v, kind, text)
    requires AllOfKind(some, kind, text) && ExtremeOf(m, some, sign, text)
    ensures m.Some? ==> CompareTo(v, m.value, text).Some?
    ensures var first := m.None? || sign * CompareTo(v, m.value, text).value < 0;
      ExtremeOf(if first then Some(v) else m, some + [v], sign, text)
  {
    if some == [] {
      CompareFlips(v, v, kind, text);
    } else {
      ExtremeOfMore(m.value, some, v, sign, kind, text);
    }
  }

  lemma {:induction false} ExtremeOfMore(m: Value, vs: seq<Value>, v: Value, sign: int, kind: Kind, text: Text)
    requires (sign == 1 || sign == -1) && IsExtreme(m, vs, sign, text)
    requires AllOfKind(vs, kind, text) && v.Datum? && OfKind(v, kind, text)
    ensures CompareTo(v, m, text).Some?
    ensures IsExtreme(if sign * CompareTo(v, m, text).value < 0 then v else m, vs + [v], sign, text)
  {
    CompareFlips(v, m, kind, text);
    CompareFlips(v, v, kind, text);
    if sign * CompareTo(v, m, text).value < 0 {
      forall x | x in vs
        ensures CompareTo(x, v, text).Some? && sign * CompareTo(x, v, text).value >= 0
      {
        ExtremeStep(m, v, x, sign, kind, text);
      }
    }
  }

  lemma {:induction false} ExtremeStep(m: Value, v: Value, x: Value, sign: int, kind: Kind, text: Text)
    requires (sign == 1 || sign == -1) && m.Datum? && v.Datum? && x.Datum?
    requires OfKind(m, kind, text) && OfKind(v, kind, text) && OfKind(x, kind, text)
    requires CompareTo(v, m, text).Some? && sign * CompareTo(v, m, text).value < 0
    requires CompareTo(x, m, text).Some? && sign * CompareTo(x, m, text).value >= 0
    ensures CompareTo(x, v, text).Some? && sign * CompareTo(x, v, text).value >= 0
  {
    CompareFlips(v, m, kind, text);
    CompareFlips(x, m, kind, text);
    CompareFlips(x, v, kind, text);
    if sign == 1 {
      CompareChains(v, m, x, kind, text);
    } else {
      CompareChains(x, m, v, kind, text);
    }
  }

  /** Adding values one by one and computing gives the aggregate of all of them. */
  lemma {:induction false} StreamIsBatch(name: string, vs: seq<Value>, kind: Kind, text: Text)
    requires AllFit(name, vs, kind, text)
    ensures Stream(name, vs, text).Some?
    ensures Summarizes(name, vs, Compute(Stream(name, vs, text).value, name), text)
  {
    StreamTracks(name, vs, kind, text);
  }

  /** The numbers in the payloads added up; NULL adds nothing. */
  function Total(vs: seq<Value>): real {
    if vs == [] then 0.0
    else
      Total(vs[..|vs| - 1]) +
        match vs[|vs| - 1]
        case Datum(_, I(n)) => n as real
        case Datum(_, D(x)) => x
        case _ => 0.0
  }

  predicate Regular(v: Value) {
    v.Datum? ==> ((v.ty == INT || v.ty == BIGINT) && v.p.I?) || (v.ty == DOUBLE && v.p.D?)
  }

  /** On integers, doubles and NULLs SUM is the total of the numbers and AVG their mean, NULLs left out
      of both; without a number both are NULL. */
  lemma {:induction false} SumAndAverage(vs: seq<Value>, text: Text)
    requires forall i :: 0 <= i < |vs| ==> Regular(vs[i])
    ensures var sum, avg, n := Stream("SUM", vs, text), Stream("AVG", vs, text), |NonNull(vs)|;
      && sum.Some? && avg.Some?
      && Compute(sum.value, "SUM") == (if n == 0 then NULL else DoubleValue(Total(vs)))
      && Compute(avg.value, "AVG") == (if n == 0 then NULL else DoubleValue(Total(vs) / n as real))
  {
    StreamIsBatch("SUM", vs, Numbers, text);
    StreamIsBatch("AVG", vs, Numbers, text);
    SumIsTotal(vs, text);
  }

  lemma {:induction false} SumIsTotal(vs: seq<Value>, text: Text)
    requires forall i :: 0 <= i < |vs| ==> Regular(vs[i])
    ensures Sum(NonNull(vs), text) == Total(vs)
  {
    if vs != [] {
      var before, v := vs[..|vs| - 1], vs[|vs| - 1];
      SumIsTotal(before, text);
      assert vs == before + [v];
      NonNullSnoc(before, v);
      SumSnoc(NonNull(before), v, text);
    }
  }

  /** For SUM and AVG the condition is exact: a single amount that cannot be read fails. */
  lemma {:induction false} SumStreamsIff(name: string, vs: seq<Value>, kind: Kind, text: Text)
    requires name == "SUM" || name == "AVG"
    ensures Stream(name, vs, text).Some? <==> AllFit(name, vs, kind, text)
  {
    if vs != [] {
      SumStreamsIff(name, vs[..|vs| - 1], kind, text);
    }
  }

  /** The value that MIN or MAX holds. */
  function Held(s: Agg, name: string): Option<Value> {
    if name == "MIN" then s.min else s.max
  }

  predicate AllReadable(vs: seq<Value>, text: Text) {
    forall v :: v in vs ==> GetDouble(v, text).Some?
  }

  predicate AllNumeric(vs: seq<Value>) {
    forall v :: v in vs && v.Datum? ==> IsNumeric(v.ty)
  }

  /** A further value that is not NULL is compared with the one held, if there is one. */
  lemma {:induction false} HeldNext(s: Agg, name: string, v: Value, text: Text)
    requires (name == "MIN" || name == "MAX") && v.Datum? && IsNumeric(v.ty)
    requires Held(s, name).Some? ==> Held(s, name).value.Datum? && IsNumeric(Held(s, name).value.ty)
    ensures var r := AddValue(s, name, v, text);
      && (Held(s, name).None? ==> r.Some? && Held(r.value, name) == Some(v))
      && (Held(s, name).Some? ==>
            (r.Some? <==> GetDouble(v, text).Some? && GetDouble(Held(s, name).value, text).Some?))
      && (Held(s, name).Some? && r.Some? ==>
            Held(r.value, name) == Some(v) || Held(r.value, name) == Held(s, name))
  {
  }

  /** MIN and MAX accept values of numeric types exactly when at most one of them is not NULL, so that
      nothing is compared, or each of those reads as a number. */
  lemma {:induction false} ExtremesStreamIff(name: string, vs: seq<Value>, text: Text)
    requires (name == "MIN" || name == "MAX") && AllNumeric(vs)
    ensures var s, some := Stream(name, vs, text), NonNull(vs);
      && (s.Some? <==> |some| <= 1 || AllReadable(some, text))
      && (s.Some? ==> (Held(s.value, name).None? <==> some == []))
      && (s.Some? && some != [] ==> Held(s.value, name).value in some)
  {
    if vs != [] {
      var before, v := vs[..|vs| - 1], vs[|vs| - 1];
      assert vs == before + [v];
      ExtremesStreamIff(name, before, text);
      NonNullSnoc(before, v);
      if v.Datum? && Stream(name, before, text).Some? {
        OneExtremeMore(Stream(name, before, text).value, name, before, v, text);
      }
    }
  }

  lemma {:induction false} OneExtremeMore(s: Agg, name: string, before: seq<Value>, v: Value, text: Text)
    requires (name == "MIN" || name == "MAX") && AllNumeric(before) && v.Datum? && IsNumeric(v.ty)
    requires |NonNull(before)| <= 1 || AllReadable(NonNull(before), text)
    requires Held(s, name).None? <==> NonNull(before) == []
    requires NonNull(before) != [] ==> Held(s, name).value in NonNull(before)
    ensures var r, some := AddValue(s, name, v, text), NonNull(before) + [v];
      && (r.Some? <==> |some| <= 1 || AllReadable(some, text))
      && (r.Some? ==> Held(r.value, name).Some? && Held(r.value, name).value in some)
  {
    NonNullIn(before);
    HeldNext(s, name, v, text);
    ReadableSnoc(NonNull(before), v, text);
  }

  lemma {:induction false} ReadableSnoc(some: seq<Value>, v: Value, text: Text)
    ensures AllReadable(some + [v], text) <==> AllReadable(some, text) && GetDouble(v, text).Some?
    ensures |some| == 1 ==> (AllReadable(some, text) <==> GetDouble(some[0], text).Some?)
  {
    if AllReadable(some + [v], text) {
      forall w | w in some ensures GetDouble(w, text).Some? { assert w in some + [v]; }
      assert v in some + [v];
    }
  }

  // ---------- The order of the values does not matter ----------

  lemma {:induction false} SumWithout(a: seq<Value>, x: Value, b: seq<Value>, text: Text)
    ensures Sum(a + [x] + b, text) == Sum(a + b, text) + Number(x, text)
    decreases |b|
  {
    if b == [] {
      SumSnoc(a, x, text);
      assert a + [x] + b == a + [x] && a + b == a;
    } else {
      var front, last := b[..|b| - 1], b[|b| - 1];
      SumWithout(a, x, front, text);
      SumSnoc(a + [x] + front, last, text);
      SumSnoc(a + front, last, text);
      assert a + [x] + b == a + [x] + front + [last] && a + b == a + front + [last];
    }
  }

  lemma {:induction false} SumPermuted(vs: seq<Value>, ws: seq<Value>, text: Text)
    requires multiset(vs) == multiset(ws)
    ensures Sum(vs, text) == Sum(ws, text)
    decreases |vs|
  {
    if vs == [] {
      assert |multiset(ws)| == 0;
    } else {
      var x := vs[|vs| - 1];
      var a, b := TakeOut(vs, ws);
      SumPermuted(vs[..|vs| - 1], a + b, text);
      SumWithout(a, x, b, text);
    }
  }

  /** The last of vs taken out of its permutation ws. */
  lemma {:induction false} TakeOut<T>(vs: seq<T>, ws: seq<T>) returns (a: seq<T>, b: seq<T>)
    requires vs != [] && multiset(vs) == multiset(ws)
    ensures ws == a + [vs[|vs| - 1]] + b && multiset(a + b) == multiset(vs[..|vs| - 1])
  {
    var front, x := vs[..|vs| - 1], vs[|vs| - 1];
    assert vs == front + [x];
    assert x in multiset(ws);
    var k :| 0 <= k < |ws| && ws[k] == x;
    a, b := ws[..k], ws[k + 1..];
    assert ws == a + [x] + b;
    assert multiset(a + b) == multiset(ws) - multiset{x};
  }

  lemma {:induction false} NonNullCount(vs: seq<Value>, v: Value)
    ensures multiset(NonNull(vs))[v] == if v.Datum? then multiset(vs)[v] else 0
  {
    if vs != [] {
      NonNullCount(vs[..|vs| - 1], v);
      assert vs == vs[..|vs| - 1] + [vs[|vs| - 1]];
    }
  }

  lemma {:induction false} NonNullPermuted(vs: seq<Value>, ws: seq<Value>)
    requires multiset(vs) == multiset(ws)
    ensures multiset(NonNull(vs)) == multiset(NonNull(ws)) && |NonNull(vs)| == |NonNull(ws)|
  {
    forall v
      ensures multiset(NonNull(vs))[v] == multiset(NonNull(ws))[v]
    {
      NonNullCount(vs, v);
      NonNullCount(ws, v);
    }
    assert |NonNull(vs)| == |multiset(NonNull(vs))|;
  }

  /** NULL, or a value of type ty whose comparison is equality; a BOOLEAN is not. */
  predicate Shaped(v: Value, ty: DataType) {
    v.Datum? ==>
      && v.ty == ty && !ty.BOOLEAN?
      && (if IsInteger(ty) then v.p.I? else if IsReal(ty) then v.p.D? else v.p.S?)
  }

  predicate AllShaped(vs: seq<Value>, ty: DataType) {
    forall i :: 0 <= i < |vs| ==> Shaped(vs[i], ty)
  }

  lemma {:induction false} ShapedCompare(a: Value, b: Value, ty: DataType, text: Text)
    requires a.Datum? && b.Datum? && Shaped(a, ty) && Shaped(b, ty)
    ensures CompareTo(a, b, text).Some? && (CompareTo(a, b, text).value == 0 <==> a == b)
  {
    if !IsNumeric(ty) {
      CompareTextAntisymmetric(a.p.s, b.p.s);
    }
  }

  /** The same result: equal, or for MIN and MAX at least level. */
  predicate Agrees(name: string, r: Value, q: Value, text: Text) {
    r == q || ((name == "MIN" || name == "MAX") && CompareTo(r, q, text) == Some(0))
  }

  lemma {:induction false} ExtremesAgree(m: Value, n: Value, vs: seq<Value>, ws: seq<Value>, sign: int, kind: Kind,
                                         text: Text)
    requires (sign == 1 || sign == -1) && multiset(vs) == multiset(ws)
    requires forall v :: v in vs ==> v.Datum? && OfKind(v, kind, text)
    requires IsExtreme(m, vs, sign, text) && IsExtreme(n, ws, sign, text)
    ensures CompareTo(m, n, text) == Some(0) && n in vs
  {
    assert n in multiset(ws) && m in multiset(vs);
    assert n in vs && m in ws;
    CompareFlips(m, n, kind, text);
  }

  /** The same values in any order have the same aggregate: MIN and MAX up to values that
      compare level, and exactly if all values are of one type. */
  lemma {:induction false} AggregateOfPermuted(name: string, vs: seq<Value>, ws: seq<Value>, r: Value, q: Value,
                                               kind: Kind, text: Text)
    requires multiset(vs) == multiset(ws) && AllFit(name, vs, kind, text)
    requires Summarizes(name, vs, r, text) && Summarizes(name, ws, q, text)
    ensures Agrees(name, r, q, text)
    ensures forall ty :: AllShaped(vs, ty) ==> r == q
  {
    var some, other := NonNull(vs), NonNull(ws);
    NonNullPermuted(vs, ws);
    SumPermuted(some, other, text);
    assert |multiset(vs)| == |vs| && |multiset(ws)| == |ws|;
    NonNullIn(vs);
    if some != [] && (name == "MIN" || name == "MAX") {
      ExtremesAgree(r, q, some, other, if name == "MIN" then 1 else -1, kind, text);
      forall ty | AllShaped(vs, ty)
        ensures r == q
      {
        ShapedCompare(r, q, ty, text);
      }
    }
  }
}
