/** Pull operators: what a child yields row by row, and what draining one gives. */
module Operators {
  import opened Values

  /** One call of next: a row, the end, or an error. */
  datatype Fetched = Got(row: Row) | Eof | Error

  /** What a whole drain gives: the rows up to the end or to the first error. */
  datatype Run = Run(rows: seq<Row>, failed: bool)

  /** Moving one row on in a list of rows. */
  lemma {:induction false} OneRowOn(rows: seq<Row>, n: nat)
    requires n < |rows|
    ensures rows[n..] != [] && rows[n..][0] == rows[n] && rows[n..][1..] == rows[n + 1..]
    ensures rows[..n + 1] == rows[..n] + [rows[n]]
  {
  }

  /** A child operator, opened: it yields its rows in order and then ends or fails. */
  class RowSource {
    const rows: seq<Row>
    const failsAtEnd: bool
    var pos: nat

    ghost predicate Valid()
      reads this
    {
      pos <= |rows|
    }

    /** What is still to come. */
    ghost function Pending(): Run
      reads this
      requires Valid()
    {
      Run(rows[pos..], failsAtEnd)
    }

    constructor (rows: seq<Row>, failsAtEnd: bool)
      ensures Valid() && pos == 0 && this.rows == rows && this.failsAtEnd == failsAtEnd
    {
      this.rows, this.failsAtEnd, this.pos := rows, failsAtEnd, 0;
    }

    method Next() returns (r: Fetched)
      requires Valid()
      modifies this
      ensures Valid()
      ensures old(Pending().rows) != [] ==>
        r == Got(old(Pending().rows)[0]) && Pending() == Run(old(Pending().rows)[1..], old(Pending().failed))
      ensures old(Pending().rows) == [] ==> r == (if failsAtEnd then Error else Eof) && Pending() == old(Pending())
    {
      if pos < |rows| {
        r := Got(rows[pos]);
        pos := pos + 1;
      } else {
        r := if failsAtEnd then Error else Eof;
      }
    }
  }
}
