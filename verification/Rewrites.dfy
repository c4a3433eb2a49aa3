/** A file that every deletion and every update loads and writes anew: what whole runs of them leave
    of its rows.  How rows are loaded and written is a parameter. */
module Rewrites {
  import opened Values

  datatype Store<!R> = Store(load: string -> Option<seq<R>>, write: seq<R> -> string)

  // ---------- Operations on the list of rows ----------

  function Erase<R>(rows: seq<R>, id: int): seq<R> {
    if 1 <= id <= |rows| then rows[..id - 1] + rows[id..] else rows
  }

  /** An id that no row has puts the row in front of or behind all others. */
  function Put<R>(rows: seq<R>, id: int, row: R): seq<R> {
    if id < 1 then [row] + rows
    else if id <= |rows| then rows[id - 1 := row]
    else rows + [row]
  }

  /** The ids of n rows, which count from 1. */
  function Ids(n: nat): (ids: seq<int>)
    ensures |ids| == n && forall i :: 0 <= i < n ==> ids[i] == i + 1
  {
    seq(n, i requires 0 <= i < n => i + 1)
  }

  lemma {:induction false} IdsHas(n: nat, id: int)
    ensures id in Ids(n) <==> 1 <= id <= n
  {
    if 1 <= id <= n {
      assert Ids(n)[id - 1] == id;
    }
  }

  /** The rows under their ids. */
  function Numbered<R>(rows: seq<R>): map<int, R> {
    map id | id in Ids(|rows|) :: rows[id - 1]
  }

  /** The values of a map in the ascending order of its keys, ids. */
  ghost predicate Lists<R>(m: map<int, R>, ids: seq<int>, rows: seq<R>) {
    && (forall i, j :: 0 <= i < j < |ids| ==> ids[i] < ids[j])
    && (forall id :: id in m <==> id in ids)
    && |rows| == |ids| && forall i :: 0 <= i < |ids| ==> rows[i] == m[ids[i]]
  }

  lemma {:induction false} NumberedHas<R>(rows: seq<R>, id: int)
    ensures id in Numbered(rows) <==> 1 <= id <= |rows|
    ensures id in Numbered(rows) ==> Numbered(rows)[id] == rows[id - 1]
  {
    IdsHas(|rows|, id);
  }

  /** The ids of the rows once one is put at id. */
  function IdsWith(n: nat, id: int): seq<int> {
    if id < 1 then [id] + Ids(n) else if id <= n then Ids(n) else Ids(n) + [id]
  }

  /** Putting a row at an id is an update of the map of the rows, */
  lemma {:induction false} PutUpdates<R>(rows: seq<R>, id: int, row: R)
    ensures Lists(Numbered(rows)[id := row], IdsWith(|rows|, id), Put(rows, id, row))
  {
    var m, ids := Numbered(rows)[id := row], IdsWith(|rows|, id);
    forall k
      ensures k in m <==> k in ids
    {
      IdsHas(|rows|, k);
      NumberedHas(rows, k);
    }
    forall i | 0 <= i < |ids|
      ensures Put(rows, id, row)[i] == m[ids[i]]
    {
      NumberedHas(rows, ids[i]);
    }
  }

  function IdsWithout(n: nat, id: int): seq<int> {
    if 1 <= id <= n then seq(n - 1, i requires 0 <= i < n - 1 => if i < id - 1 then i + 1 else i + 2) else Ids(n)
  }

  lemma {:induction false} IdsWithoutHas(n: nat, id: int, k: int)
    ensures k in IdsWithout(n, id) <==> 1 <= k <= n && k != id
  {
    IdsHas(n, k);
    if 1 <= id <= n && 1 <= k <= n && k != id {
      assert IdsWithout(n, id)[if k < id then k - 1 else k - 2] == k;
    }
  }

  /** and erasing an id takes its key out. */
  lemma {:induction false} EraseRemoves<R>(rows: seq<R>, id: int)
    ensures Lists(Numbered(rows) - {id}, IdsWithout(|rows|, id), Erase(rows, id))
  {
    var m, ids := Numbered(rows) - {id}, IdsWithout(|rows|, id);
    forall k
      ensures k in m <==> k in ids
    {
      IdsWithoutHas(|rows|, id, k);
      NumberedHas(rows, k);
    }
    forall i | 0 <= i < |ids|
      ensures Erase(rows, id)[i] == m[ids[i]]
    {
      NumberedHas(rows, ids[i]);
    }
  }

  function Mapped<R>(rows: seq<R>, convert: R -> R): (r: seq<R>)
    ensures |r| == |rows|
  {
    seq(|rows|, i requires 0 <= i < |rows| => convert(rows[i]))
  }

  predicate AllGood<R(!new)>(rows: seq<R>, good: R -> bool) {
    forall i :: 0 <= i < |rows| ==> good(rows[i])
  }

  /** Good rows are loaded as they are written, but converted, and converting twice is converting once. */
  ghost predicate Converts<R(!new)>(st: Store<R>, good: R -> bool, convert: R -> R) {
    && (forall row :: good(row) ==> good(convert(row)) && convert(convert(row)) == convert(row))
    && (forall rows {:trigger AllGood(rows, good)} ::
          AllGood(rows, good) ==> st.load(st.write(rows)) == Some(Mapped(rows, convert)))
  }

  /** Good rows that conversion leaves as they are. */
  ghost predicate Settled<R(!new)>(rows: seq<R>, good: R -> bool, convert: R -> R) {
    forall i :: 0 <= i < |rows| ==> good(rows[i]) && convert(rows[i]) == rows[i]
  }

  lemma {:induction false} SettledIsMapped<R(!new)>(rows: seq<R>, good: R -> bool, convert: R -> R)
    requires Settled(rows, good, convert)
    ensures AllGood(rows, good) && Mapped(rows, convert) == rows
  {
  }

  lemma {:induction false} SettledLoads<R(!new)>(st: Store<R>, rows: seq<R>, good: R -> bool, convert: R -> R)
    requires Converts(st, good, convert) && Settled(rows, good, convert)
    ensures st.load(st.write(rows)) == Some(rows)
  {
    SettledIsMapped(rows, good, convert);
  }

  lemma {:induction false} MappedIsSettled<R(!new)>(st: Store<R>, rows: seq<R>, good: R -> bool, convert: R -> R)
    requires Converts(st, good, convert) && AllGood(rows, good)
    ensures Settled(Mapped(rows, convert), good, convert)
  {
    forall i | 0 <= i < |rows|
      ensures good(convert(rows[i])) && convert(convert(rows[i])) == convert(rows[i])
    {
      assert good(rows[i]);
    }
  }

  // ---------- Deletions ----------

  /** What deleting ids[..k], the last id first, makes of the content, each deletion loading the
      file anew; and how many rows are deleted in all, unless a load fails. */
  function DeleteFrom<R>(st: Store<R>, content: string, ids: seq<int>, k: nat): (string, Option<nat>)
    requires k <= |ids|
    decreases k
  {
    if k == 0 then (content, Some(|ids|))
    else
      match st.load(content)
      case None => (content, None)
      case Some(rows) => DeleteFrom(st, st.write(Erase(rows, ids[k - 1])), ids, k - 1)
  }

  /** The rows without those of ids[..k]. */
  function Erasures<R>(rows: seq<R>, ids: seq<int>, k: nat): seq<R>
    requires k <= |ids|
    decreases k
  {
    if k == 0 then rows else Erasures(Erase(rows, ids[k - 1]), ids, k - 1)
  }

  lemma {:induction false} EraseKeeps<R(!new)>(rows: seq<R>, id: int, good: R -> bool, convert: R -> R)
    ensures AllGood(rows, good) ==> AllGood(Erase(rows, id), good)
    ensures Settled(rows, good, convert) ==> Settled(Erase(rows, id), good, convert)
    ensures Mapped(Erase(rows, id), convert) == Erase(Mapped(rows, convert), id)
  {
    var after := Erase(rows, id);
    assert forall i :: 0 <= i < |after| ==> after[i] == rows[if 1 <= id <= i + 1 && id <= |rows| then i + 1 else i];
  }

  lemma {:induction false} ErasuresMapped<R(!new)>(rows: seq<R>, settled: seq<R>, rest: seq<R>, ids: seq<int>, k: nat,
                                                   good: R -> bool, convert: R -> R)
    requires k <= |ids| && settled == Mapped(rows, convert) && rest == Erasures(rows, ids, k)
    ensures Erasures(settled, ids, k) == Mapped(rest, convert)
    decreases k
  {
    if k > 0 {
      EraseKeeps(rows, ids[k - 1], good, convert);
      ErasuresMapped(Erase(rows, ids[k - 1]), Erase(settled, ids[k - 1]), rest, ids, k - 1, good, convert);
    }
  }

  lemma {:induction false} SettledDeletions<R(!new)>(st: Store<R>, content: string, rows: seq<R>, ids: seq<int>, k: nat,
                                                     good: R -> bool, convert: R -> R)
    requires Converts(st, good, convert) && Settled(rows, good, convert) && k <= |ids|
    requires st.load(content) == Some(rows)
    ensures DeleteFrom(st, content, ids, k).1 == Some(|ids|)
    ensures st.load(DeleteFrom(st, content, ids, k).0) == Some(Erasures(rows, ids, k))
    decreases k
  {
    if k > 0 {
      var left, content' := NextDeletion(st, content, rows, ids, k);
      EraseKeeps(rows, ids[k - 1], good, convert);
      SettledLoads(st, left, good, convert);
      SettledDeletions(st, content', left, ids, k - 1, good, convert);
    }
  }

  /** One deletion further. */
  lemma {:induction false} NextDeletion<R>(st: Store<R>, content: string, rows: seq<R>, ids: seq<int>, k: nat)
      returns (left: seq<R>, content': string)
    requires 0 < k <= |ids| && st.load(content) == Some(rows)
    ensures left == Erase(rows, ids[k - 1]) && content' == st.write(left)
    ensures DeleteFrom(st, content, ids, k).0 == DeleteFrom(st, content', ids, k - 1).0
    ensures DeleteFrom(st, content, ids, k).1 == DeleteFrom(st, content', ids, k - 1).1
    ensures Erasures(rows, ids, k) == Erasures(left, ids, k - 1)
  {
    left := Erase(rows, ids[k - 1]);
    content' := st.write(left);
  }

  lemma {:induction false} FirstDeletion<R(!new)>(st: Store<R>, rows: seq<R>, left: seq<R>, id: int, good: R -> bool,
                                                  convert: R -> R)
      returns (settled: seq<R>)
    requires Converts(st, good, convert) && AllGood(rows, good) && left == Erase(rows, id)
    ensures settled == Mapped(left, convert) && Settled(settled, good, convert)
    ensures st.load(st.write(left)) == Some(settled)
  {
    EraseKeeps(rows, id, good, convert);
    MappedIsSettled(st, left, good, convert);
    settled := Mapped(left, convert);
  }

  /** Deletions leave the rows without the erased ones, converted if there was a deletion. */
  lemma {:induction false} DeletionsConvert<R(!new)>(st: Store<R>, content: string, rows: seq<R>, ids: seq<int>, k: nat,
                                                     good: R -> bool, convert: R -> R)
    requires Converts(st, good, convert) && AllGood(rows, good) && 0 < k <= |ids|
    requires st.load(content) == Some(rows)
    ensures DeleteFrom(st, content, ids, k).1 == Some(|ids|)
    ensures st.load(DeleteFrom(st, content, ids, k).0) == Some(Mapped(Erasures(rows, ids, k), convert))
  {
    var left, content' := NextDeletion(st, content, rows, ids, k);
    var settled := FirstDeletion(st, rows, left, ids[k - 1], good, convert);
    OtherDeletions(st, content', left, settled, ids, k - 1, good, convert);
  }

  lemma {:induction false} OtherDeletions<R(!new)>(st: Store<R>, content: string, left: seq<R>, settled: seq<R>,
                                                   ids: seq<int>, k: nat, good: R -> bool, convert: R -> R)
    requires Converts(st, good, convert) && Settled(settled, good, convert) && settled == Mapped(left, convert)
    requires k <= |ids| && st.load(content) == Some(settled)
    ensures DeleteFrom(st, content, ids, k).1 == Some(|ids|)
    ensures st.load(DeleteFrom(st, content, ids, k).0) == Some(Mapped(Erasures(left, ids, k), convert))
  {
    SettledDeletions(st, content, settled, ids, k, good, convert);
    ErasuresMapped(left, settled, Erasures(left, ids, k), ids, k, good, convert);
  }

  // ---------- Updates ----------

  /** What an update does about a row: it fails, passes on, or writes a new row in its place. */
  datatype Turn<R> = Stop | Pass | Write(row: R)

  /** What the update makes of the content from row i on, each write loading the file anew; and the
      rows it counts, unless a turn or a load fails. */
  function UpdateFrom<R>(st: Store<R>, content: string, rows: seq<R>, i: nat, updated: nat, turn: R -> Turn<R>)
    : (string, Option<nat>)
    requires i <= |rows|
    decreases |rows| - i
  {
    if i == |rows| then (content, Some(updated))
    else
      match turn(rows[i])
      case Stop => (content, None)
      case Pass => UpdateFrom(st, content, rows, i + 1, updated, turn)
      case Write(row) =>
        match st.load(content)
        case None => (content, None)
        case Some(loaded) => UpdateFrom(st, st.write(Put(loaded, i + 1, row)), rows, i + 1, updated + 1, turn)
  }

  lemma {:induction false} UpdateWrites<R>(st: Store<R>, content: string, loaded: seq<R>, rows: seq<R>, i: nat,
                                           updated: nat, turn: R -> Turn<R>, row: R)
    requires i < |rows| && turn(rows[i]) == Write(row) && st.load(content) == Some(loaded)
    ensures UpdateFrom(st, content, rows, i, updated, turn)
         == UpdateFrom(st, st.write(Put(loaded, i + 1, row)), rows, i + 1, updated + 1, turn)
  {
  }

  /** If each new row is passed over when it is loaded, updating two rows loses the first and leaves the
      second as it was, and counts two. */
  lemma {:induction false} TwoPassedOver<R>(st: Store<R>, a: R, b: R, a': R, b': R, turn: R -> Turn<R>)
    requires turn(a) == Write(a') && turn(b) == Write(b') && st.load(st.write([a, b])) == Some([a, b])
    requires st.load(st.write([a', b])) == Some([b]) && st.load(st.write([b, b'])) == Some([b])
    ensures var r := UpdateFrom(st, st.write([a, b]), [a, b], 0, 0, turn);
      r.1 == Some(2) && st.load(r.0) == Some([b])
  {
    var rows := [a, b];
    assert Put(rows, 1, a') == [a', b] && Put([b], 2, b') == [b, b'];
    UpdateWrites(st, st.write(rows), rows, rows, 0, 0, turn, a');
    UpdateWrites(st, st.write([a', b]), [b], rows, 1, 1, turn, b');
    assert UpdateFrom(st, st.write([b, b']), rows, 2, 2, turn) == (st.write([b, b']), Some(2));
  }

  /** Deleting ids[..k] leads from this content to that one, and counts so many. */
  ghost predicate DeletesTo<R>(st: Store<R>, content: string, ids: seq<int>, k: nat, end: string, count: Option<nat>) {
    k <= |ids| && DeleteFrom(st, content, ids, k).0 == end && DeleteFrom(st, content, ids, k).1 == count
  }

  /** One deletion as the loop makes it. */
  lemma {:induction false} DeletionTurn<R>(st: Store<R>, content: string, ids: seq<int>, k: nat)
    requires 0 < k <= |ids|
    ensures forall end, count :: DeletesTo(st, content, ids, k, end, count) ==>
      var rows := st.load(content);
      if rows.None? then end == content && count == None
      else DeletesTo(st, st.write(Erase(rows.value, ids[k - 1])), ids, k - 1, end, count)
  {
  }

  /** How many rows from row i on the update gets through before one fails. */
  function Reach<R>(rows: seq<R>, i: nat, turn: R -> Turn<R>): (n: nat)
    requires i <= |rows|
    ensures i <= n <= |rows|
    decreases |rows| - i
  {
    if i == |rows| || turn(rows[i]).Stop? then i else Reach(rows, i + 1, turn)
  }

  /** How many of the first n rows are written. */
  function Writes<R>(rows: seq<R>, n: nat, turn: R -> Turn<R>): nat
    requires n <= |rows|
  {
    if n == 0 then 0 else Writes(rows, n - 1, turn) + (if turn(rows[n - 1]).Write? then 1 else 0)
  }

  /** The rows with those among the first n that are written replaced in place, converted. */
  function Updated<R>(rows: seq<R>, n: nat, turn: R -> Turn<R>, convert: R -> R): (r: seq<R>)
    ensures |r| == |rows|
  {
    seq(|rows|, i requires 0 <= i < |rows| =>
      if i < n && turn(rows[i]).Write? then convert(turn(rows[i]).row) else rows[i])
  }

  ghost predicate GoodTurns<R(!new)>(rows: seq<R>, turn: R -> Turn<R>, good: R -> bool) {
    forall i :: 0 <= i < |rows| && turn(rows[i]).Write? ==> good(turn(rows[i]).row)
  }

  /** Rewritten, the loaded rows read as these rows do. */
  ghost predicate StandsFor<R(!new)>(loaded: seq<R>, rows: seq<R>, good: R -> bool, convert: R -> R) {
    AllGood(loaded, good) && Mapped(loaded, convert) == Mapped(rows, convert)
  }

  lemma {:induction false} WritesGrow<R>(rows: seq<R>, m: nat, n: nat, turn: R -> Turn<R>)
    requires m <= n <= |rows|
    ensures Writes(rows, m, turn) <= Writes(rows, n, turn)
    ensures Writes(rows, m, turn) == Writes(rows, n, turn) ==> forall i :: m <= i < n ==> !turn(rows[i]).Write?
    decreases n
  {
    if m < n {
      WritesGrow(rows, m, n - 1, turn);
    }
  }

  lemma {:induction false} UpdatedBetween<R>(rows: seq<R>, m: nat, n: nat, turn: R -> Turn<R>, convert: R -> R)
    requires m <= n <= |rows| && Writes(rows, m, turn) == Writes(rows, n, turn)
    ensures Updated(rows, m, turn, convert) == Updated(rows, n, turn, convert)
  {
    WritesGrow(rows, m, n, turn);
  }

  /** One write: the file then loads as the rows with that one updated, all converted. */
  lemma {:induction false} WriteOne<R(!new)>(st: Store<R>, loaded: seq<R>, rows: seq<R>, i: nat, turn: R -> Turn<R>,
                                             good: R -> bool, convert: R -> R)
    requires Converts(st, good, convert) && i < |rows| && turn(rows[i]).Write? && good(turn(rows[i]).row)
    requires StandsFor(loaded, Updated(rows, i, turn, convert), good, convert)
    ensures var read := Mapped(Updated(rows, i + 1, turn, convert), convert);
      && st.load(st.write(Put(loaded, i + 1, turn(rows[i]).row))) == Some(read)
      && StandsFor(read, Updated(rows, i + 1, turn, convert), good, convert)
  {
    var put := Put(loaded, i + 1, turn(rows[i]).row);
    PutMapped(loaded, rows, i, turn, good, convert);
    MappedIsSettled(st, put, good, convert);
    SettledIsMapped(Mapped(put, convert), good, convert);
  }

  lemma {:induction false} PutMapped<R(!new)>(loaded: seq<R>, rows: seq<R>, i: nat, turn: R -> Turn<R>, good: R -> bool,
                                              convert: R -> R)
    requires i < |rows| && turn(rows[i]).Write? && good(turn(rows[i]).row)
    requires convert(convert(turn(rows[i]).row)) == convert(turn(rows[i]).row)
    requires StandsFor(loaded, Updated(rows, i, turn, convert), good, convert)
    ensures var put := Put(loaded, i + 1, turn(rows[i]).row);
      AllGood(put, good) && Mapped(put, convert) == Mapped(Updated(rows, i + 1, turn, convert), convert)
  {
    var before, after := Updated(rows, i, turn, convert), Updated(rows, i + 1, turn, convert);
    var row := turn(rows[i]).row;
    assert |Mapped(loaded, convert)| == |loaded| && |Mapped(before, convert)| == |rows|;
    assert Put(loaded, i + 1, row) == loaded[i := row];
    forall j | 0 <= j < |rows|
      ensures convert(loaded[i := row][j]) == convert(after[j])
    {
      assert Mapped(loaded, convert)[j] == Mapped(before, convert)[j];
    }
  }

  /** r is what the update leaves when it goes on from row i with this content. */
  ghost predicate Ends<R(!new)>(r: (string, Option<nat>), st: Store<R>, content: string, rows: seq<R>, i: nat,
                                updated: nat, turn: R -> Turn<R>, convert: R -> R)
    requires i <= |rows|
  {
    var n := Reach(rows, i, turn);
    var all := Writes(rows, n, turn);
    && r.1 == (if n == |rows| then Some(all) else None)
    && updated <= all
    && (updated == all ==> r.0 == content)
    && (updated < all ==> st.load(r.0) == Some(Mapped(Updated(rows, n, turn, convert), convert)))
  }

  lemma {:induction false} EndsWritten<R(!new)>(r: (string, Option<nat>), st: Store<R>, content: string,
                                                content': string, rows: seq<R>, i: nat, turn: R -> Turn<R>,
                                                convert: R -> R)
    requires i < |rows| && turn(rows[i]).Write?
    requires st.load(content') == Some(Mapped(Updated(rows, i + 1, turn, convert), convert))
    requires Ends(r, st, content', rows, i + 1, Writes(rows, i + 1, turn), turn, convert)
    ensures Ends(r, st, content, rows, i, Writes(rows, i, turn), turn, convert)
  {
    var n := Reach(rows, i, turn);
    if Writes(rows, n, turn) == Writes(rows, i + 1, turn) {
      UpdatedBetween(rows, i + 1, n, turn, convert);
    }
  }

  /** Updates leave the rows, up to the first that fails, with the written ones replaced; all are
      converted once one of them is written. */
  lemma {:induction false} UpdatesConvert<R(!new)>(st: Store<R>, content: string, loaded: seq<R>, rows: seq<R>, i: nat,
                                                   turn: R -> Turn<R>, good: R -> bool, convert: R -> R)
    requires Converts(st, good, convert) && i <= |rows| && GoodTurns(rows, turn, good)
    requires st.load(content) == Some(loaded)
    requires StandsFor(loaded, Updated(rows, i, turn, convert), good, convert)
    ensures Ends(UpdateFrom(st, content, rows, i, Writes(rows, i, turn), turn),
                 st, content, rows, i, Writes(rows, i, turn), turn, convert)
    decreases |rows| - i
  {
    if i < |rows| {
      match turn(rows[i])
      case Stop =>
      case Pass =>
        assert Updated(rows, i + 1, turn, convert) == Updated(rows, i, turn, convert);
        UpdatesConvert(st, content, loaded, rows, i + 1, turn, good, convert);
      case Write(row) =>
        WriteOne(st, loaded, rows, i, turn, good, convert);
        var content' := st.write(Put(loaded, i + 1, row));
        UpdatesConvert(st, content', Mapped(Updated(rows, i + 1, turn, convert), convert), rows, i + 1, turn, good,
                       convert);
        EndsWritten(UpdateFrom(st, content', rows, i + 1, Writes(rows, i + 1, turn), turn), st, content, content', rows,
                    i, turn, convert);
    }
  }
}
