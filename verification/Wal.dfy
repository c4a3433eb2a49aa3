/** The write-ahead log: records in little-endian bytes behind one another. */
module Wal {
  import opened Values
  import opened Sequences

  type Byte = n: nat | n < 256

  const TWO_TO_32 := 0x1_0000_0000
  const TWO_TO_64 := 0x1_0000_0000_0000_0000

  type U64 = n: nat | n < TWO_TO_64

  // The kinds of log record.
  const BEGIN: Byte := 0
  const INSERT: Byte := 1
  const UPDATE: Byte := 2
  const DELETE: Byte := 3
  const COMMIT: Byte := 4

  datatype Entry = Entry(txnId: U64, ty: Byte, table: seq<Byte>, key: seq<Byte>, value: seq<Byte>, lsn: U64)

  // ---------- Integers ----------

  /** The low k bytes of n, lowest first. */
  function ToBytes(n: nat, k: nat): (b: seq<Byte>)
    ensures |b| == k
  {
    if k == 0 then [] else [n % 256] + ToBytes(n / 256, k - 1)
  }

  function FromBytes(b: seq<Byte>): nat {
    if b == [] then 0 else b[0] + 256 * FromBytes(b[1..])
  }

  function Pow256(k: nat): (p: nat)
    ensures p > 0
  {
    if k == 0 then 1 else 256 * Pow256(k - 1)
  }

  /** k bytes hold a number modulo 256^k, which is what a narrowing cast keeps. */
  lemma {:induction false} BytesRoundTrip(n: nat, k: nat)
    ensures FromBytes(ToBytes(n, k)) == n % Pow256(k)
  {
    if k > 0 {
      BytesRoundTrip(n / 256, k - 1);
      assert ToBytes(n, k)[1..] == ToBytes(n / 256, k - 1);
      ModByDigit(n, Pow256(k - 1));
    }
  }

  lemma {:induction false} ModByDigit(n: nat, p: nat)
    requires p > 0
    ensures n % (256 * p) == n % 256 + 256 * (n / 256 % p)
  {
    var q, r := n / 256 / p, n / 256 % p;
    assert n / 256 == p * q + r;
    assert n == (256 * p) * q + (256 * r + n % 256);
    ModUnique(n, 256 * p, q, 256 * r + n % 256);
  }

  lemma {:induction false} ModUnique(n: nat, m: nat, q: nat, r: nat)
    requires 0 <= r < m && n == m * q + r
    ensures n % m == r && n / m == q
  {
    var d := n / m - q;
    assert m * d == r - n % m;
  }

  lemma {:induction false} FromBytesBound(b: seq<Byte>)
    ensures FromBytes(b) < Pow256(|b|)
  {
    if b != [] {
      FromBytesBound(b[1..]);
    }
  }

  lemma {:induction false} Widths()
    ensures Pow256(4) == TWO_TO_32 && Pow256(8) == TWO_TO_64
  {
    assert Pow256(1) == 256;
    assert Pow256(2) == 0x1_0000;
    assert Pow256(3) == 0x100_0000;
    assert Pow256(5) == 0x100_0000_0000;
    assert Pow256(6) == 0x1_0000_0000_0000;
    assert Pow256(7) == 0x100_0000_0000_0000;
  }

  // ---------- Records ----------

  /** A record: LSN, transaction and kind, three lengths cut to 32 bits, then the three fields. */
  function Record(e: Entry): seq<Byte> {
    ToBytes(e.lsn, 8) + (ToBytes(e.txnId, 8) + ([e.ty]
    + (ToBytes(|e.table|, 4) + (ToBytes(|e.key|, 4) + (ToBytes(|e.value|, 4)
    + (e.table + (e.key + e.value)))))))
  }

  function Records(es: seq<Entry>): seq<Byte> {
    if es == [] then [] else Record(es[0]) + Records(es[1..])
  }

  /** Byte i of a number, from the low end. */
  lemma {:induction false} LowByteFirst(n: nat, k: nat, i: nat)
    requires i < k
    ensures ToBytes(n, k)[i] == n / Pow256(i) % 256
  {
    if i > 0 {
      LowByteFirst(n / 256, k - 1, i - 1);
      DivideTwice(n, Pow256(i - 1));
    }
  }

  lemma {:induction false} DivideTwice(n: nat, p: nat)
    requires p > 0
    ensures n / 256 / p == n / (256 * p)
  {
    var q, r := n / 256 / p, n / 256 % p;
    assert n == 256 * (p * q + r) + n % 256;
    ModUnique(n, 256 * p, q, 256 * r + n % 256);
  }

  /** The layout of a record: LSN and transaction in eight bytes each, the kind in one, the three lengths in
      four each, and then table, key and value. */
  lemma {:induction false} RecordLayout(e: Entry)
    ensures var r := Record(e);
      && |r| == 29 + |e.table| + |e.key| + |e.value|
      && r[..8] == ToBytes(e.lsn, 8) && r[8..16] == ToBytes(e.txnId, 8) && r[16] == e.ty
      && r[17..21] == ToBytes(|e.table|, 4) && r[21..25] == ToBytes(|e.key|, 4) && r[25..29] == ToBytes(|e.value|, 4)
      && r[29..] == e.table + e.key + e.value
  {
  }

  datatype Reading = Got(entry: Entry, rest: seq<Byte>) | Torn

  function Number(b: seq<Byte>): (n: U64)
    requires |b| == 8 || |b| == 4
    ensures |b| == 4 ==> n < TWO_TO_32
  {
    Widths();
    FromBytesBound(b);
    FromBytes(b)
  }

  function ReadRecord(log: seq<Byte>): (r: Reading)
    ensures r.Got? ==> |r.rest| < |log| && Fits(r.entry)
  {
    if |log| < 29 then Torn
    else
      var lsn, log1 := Number(log[..8]), log[8..];
      var txnId, log2 := Number(log1[..8]), log1[8..];
      var ty, log3 := log2[0], log2[1..];
      var tableLen, log4 := Number(log3[..4]), log3[4..];
      var keyLen, log5 := Number(log4[..4]), log4[4..];
      var valueLen, log6 := Number(log5[..4]), log5[4..];
      if |log6| < tableLen + keyLen + valueLen then Torn
      else
        var log7 := log6[tableLen..];
        var log8 := log7[keyLen..];
        Got(Entry(txnId, ty, log6[..tableLen], log7[..keyLen], log8[..valueLen], lsn), log8[valueLen..])
  }

  /** The fields' lengths are kept by 32 bits. */
  predicate Fits(e: Entry) {
    |e.table| < TWO_TO_32 && |e.key| < TWO_TO_32 && |e.value| < TWO_TO_32
  }

  predicate AllFit(es: seq<Entry>) {
    forall i :: 0 <= i < |es| ==> Fits(es[i])
  }

  /** None stands for a log that ends inside a record. */
  function ReadRecords(log: seq<Byte>): Option<seq<Entry>> {
    if log == [] then Some([])
    else
      match ReadRecord(log)
      case Torn => None
      case Got(e, rest) =>
        match ReadRecords(rest)
        case None => None
        case Some(es) => Some([e] + es)
  }

  lemma {:induction false} NumberRoundTrip(n: nat, k: nat)
    requires k == 4 || k == 8
    requires n < if k == 4 then TWO_TO_32 else TWO_TO_64
    ensures Number(ToBytes(n, k)) == n
  {
    Widths();
    BytesRoundTrip(n, k);
  }

  /** The three fields and what is behind them. */
  lemma {:induction false} FieldsSplit(table: seq<Byte>, key: seq<Byte>, value: seq<Byte>, rest: seq<Byte>)
    ensures var all := table + (key + value) + rest;
      && all[..|table|] == table && all[|table|..] == key + (value + rest)
      && all[|table|..][|key|..] == value + rest
      && all[|table|..][..|key|] == key
      && all[|table|..][|key|..][..|value|] == value && all[|table|..][|key|..][|value|..] == rest
  {
    assert table + (key + value) + rest == table + (key + (value + rest));
    Split(table, key + (value + rest));
    Split(key, value + rest);
    Split(value, rest);
  }

  /** Writing the parts of a record one after the other writes the record. */
  lemma {:induction false} RecordInParts(log: seq<Byte>, e: Entry)
    ensures log + ToBytes(e.lsn, 8) + ToBytes(e.txnId, 8) + [e.ty] + ToBytes(|e.table|, 4) + ToBytes(|e.key|, 4)
            + ToBytes(|e.value|, 4) + e.table + e.key + e.value == log + Record(e)
  {
    var log1 := log + ToBytes(e.lsn, 8);
    var log2 := log1 + ToBytes(e.txnId, 8);
    var log3 := log2 + [e.ty];
    var log4 := log3 + ToBytes(|e.table|, 4);
    var log5 := log4 + ToBytes(|e.key|, 4);
    var log6 := log5 + ToBytes(|e.value|, 4);
    var fields := e.table + (e.key + e.value);
    Reassociate(log6 + e.table, e.key, e.value);
    Reassociate(log6, e.table, e.key + e.value);
    var part5 := ToBytes(|e.value|, 4) + fields;
    Reassociate(log5, ToBytes(|e.value|, 4), fields);
    var part4 := ToBytes(|e.key|, 4) + part5;
    Reassociate(log4, ToBytes(|e.key|, 4), part5);
    var part3 := ToBytes(|e.table|, 4) + part4;
    Reassociate(log3, ToBytes(|e.table|, 4), part4);
    var part2 := [e.ty] + part3;
    Reassociate(log2, [e.ty], part3);
    var part1 := ToBytes(e.txnId, 8) + part2;
    Reassociate(log1, ToBytes(e.txnId, 8), part2);
    Reassociate(log, ToBytes(e.lsn, 8), part1);
  }

  lemma {:induction false} RecordRoundTrip(e: Entry, rest: seq<Byte>)
    requires Fits(e)
    ensures ReadRecord(Record(e) + rest) == Got(e, rest)
  {
    var f6 := e.table + (e.key + e.value) + rest;
    var f5 := ToBytes(|e.value|, 4) + f6;
    var f4 := ToBytes(|e.key|, 4) + f5;
    var f3 := ToBytes(|e.table|, 4) + f4;
    var f2 := [e.ty] + f3;
    var f1 := ToBytes(e.txnId, 8) + f2;
    assert Record(e) + rest == ToBytes(e.lsn, 8) + f1;
    Split(ToBytes(e.lsn, 8), f1);
    Split(ToBytes(e.txnId, 8), f2);
    Split([e.ty], f3);
    Split(ToBytes(|e.table|, 4), f4);
    Split(ToBytes(|e.key|, 4), f5);
    Split(ToBytes(|e.value|, 4), f6);
    NumberRoundTrip(e.lsn, 8);
    NumberRoundTrip(e.txnId, 8);
    NumberRoundTrip(|e.table|, 4);
    NumberRoundTrip(|e.key|, 4);
    NumberRoundTrip(|e.value|, 4);
    FieldsSplit(e.table, e.key, e.value, rest);
  }

  lemma {:induction false} RecordsRoundTrip(es: seq<Entry>)
    requires AllFit(es)
    ensures ReadRecords(Records(es)) == Some(es)
  {
    if es != [] {
      FirstRecord(es[0], Records(es[1..]));
      RecordsRoundTrip(es[1..]);
      assert es == [es[0]] + es[1..];
    }
  }

  lemma {:induction false} FirstRecord(e: Entry, rest: seq<Byte>)
    requires Fits(e)
    ensures ReadRecords(Record(e) + rest) == Behind([e], ReadRecords(rest))
  {
    RecordRoundTrip(e, rest);
    RecordNotEmpty(e);
  }

  lemma {:induction false} RecordNotEmpty(e: Entry)
    ensures Record(e) != []
  {
    assert |ToBytes(e.lsn, 8)| == 8;
  }

  lemma {:induction false} FitsBefore(e: Entry, es: seq<Entry>)
    requires Fits(e) && AllFit(es)
    ensures AllFit([e] + es)
  {
  }

  lemma {:induction false} ReadRecordsFit(log: seq<Byte>)
    ensures ReadRecords(log).Some? ==> AllFit(ReadRecords(log).value)
    decreases |log|
  {
    if log != [] {
      var r := ReadRecord(log);
      if r.Got? {
        ReadRecordsFit(r.rest);
        if ReadRecords(r.rest).Some? {
          FitsBefore(r.entry, ReadRecords(r.rest).value);
        }
      }
    }
  }

  /** The log gives back what was written to it exactly when 32 bits keep every length. */
  lemma {:induction false} RecoversIff(es: seq<Entry>)
    ensures ReadRecords(Records(es)) == Some(es) <==> AllFit(es)
  {
    if AllFit(es) {
      RecordsRoundTrip(es);
    }
    ReadRecordsFit(Records(es));
  }

  lemma {:induction false} RecordsAppend(es: seq<Entry>, e: Entry)
    ensures Records(es + [e]) == Records(es) + Record(e)
  {
    if es == [] {
      assert [e][1..] == [];
    } else {
      assert (es + [e])[1..] == es[1..] + [e];
      RecordsAppend(es[1..], e);
    }
  }

  /** The log holds these entries, and their LSNs count them from 1 (wrapping at 64 bits). */
  ghost predicate Logged(log: seq<Byte>, es: seq<Entry>, lsn: U64) {
    && log == Records(es)
    && lsn == |es| % TWO_TO_64
    && forall i :: 0 <= i < |es| ==> es[i].lsn == (i + 1) % TWO_TO_64
  }

  lemma {:induction false} LoggedAppend(log: seq<Byte>, es: seq<Entry>, lsn: U64, e: Entry)
    requires Logged(log, es, lsn) && e.lsn == (lsn + 1) % TWO_TO_64
    ensures Logged(log + Record(e), es + [e], e.lsn) && e.lsn == (|es| + 1) % TWO_TO_64
  {
    NextModulo(|es|);
    RecordsAppend(es, e);
  }

  // ---------- The manager ----------

  class WalManager {
    var log: seq<Byte>
    var currentLSN: U64
    /** What was written since the log was last empty. */
    ghost var written: seq<Entry>

    ghost predicate Valid()
      reads this
    {
      Logged(log, written, currentLSN)
    }

    constructor ()
      ensures Valid() && written == []
    {
      log, currentLSN, written := [], 0, [];
    }

    method GetNextLSN() returns (lsn: U64)
      modifies this`currentLSN
      ensures lsn == currentLSN == (old(currentLSN) + 1) % TWO_TO_64
    {
      currentLSN := (currentLSN + 1) % TWO_TO_64;
      lsn := currentLSN;
    }

    method WriteLog(txnId: U64, ty: Byte, table: seq<Byte>, key: seq<Byte>, value: seq<Byte>)
      requires Valid()
      modifies this
      ensures Valid()
      ensures written == old(written) + [Entry(txnId, ty, table, key, value, (|old(written)| + 1) % TWO_TO_64)]
    {
      ghost var last := currentLSN;
      var lsn := GetNextLSN();
      ghost var e := Entry(txnId, ty, table, key, value, lsn);
      LoggedAppend(log, written, last, e);
      RecordInParts(log, e);
      log := log + ToBytes(lsn, 8);
      log := log + ToBytes(txnId, 8);
      log := log + [ty];
      log := log + ToBytes(|table|, 4);
      log := log + ToBytes(|key|, 4);
      log := log + ToBytes(|value|, 4);
      log := log + table;
      log := log + key;
      log := log + value;
      written := written + [e];
    }

    /** None if the log ends inside a record. */
    method Recover() returns (entries: Option<seq<Entry>>)
      ensures entries == ReadRecords(log)
      ensures Valid() ==> (entries == Some(written) <==> AllFit(written))
    {
      RecoversIff(written);
      var found: seq<Entry> := [];
      var stream := log;
      NothingFound(ReadRecords(log));
      while stream != []
        invariant Behind(found, ReadRecords(stream)) == ReadRecords(log)
        decreases |stream|
      {
        var r := ReadRecord(stream);
        if r.Torn? { return None; }
        NextRecord(found, stream);
        found := found + [r.entry];
        stream := r.rest;
      }
      assert found + [] == found;
      return Some(found);
    }

    method Truncate()
      modifies this
      ensures Valid() && written == [] && log == []
    {
      log, currentLSN, written := [], 0, [];
    }
  }

  function Behind(found: seq<Entry>, later: Option<seq<Entry>>): Option<seq<Entry>> {
    if later.None? then None else Some(found + later.value)
  }

  lemma {:induction false} NothingFound(later: Option<seq<Entry>>)
    ensures Behind([], later) == later
  {
    if later.Some? {
      assert [] + later.value == later.value;
    }
  }

  lemma {:induction false} NextRecord(found: seq<Entry>, stream: seq<Byte>)
    requires stream != [] && ReadRecord(stream).Got?
    ensures var r := ReadRecord(stream);
      Behind(found, ReadRecords(stream)) == Behind(found + [r.entry], ReadRecords(r.rest))
  {
    var r := ReadRecord(stream);
    var later := ReadRecords(r.rest);
    if later.Some? {
      Reassociate(found, [r.entry], later.value);
    }
  }

  lemma {:induction false} NextModulo(n: nat)
    ensures (n % TWO_TO_64 + 1) % TWO_TO_64 == (n + 1) % TWO_TO_64
  {
  }
}
