/** Extended queries over a whole connection: what `getRows` gives in the callback of CommandComplete. */
module PgQueries {
  import opened Bytes
  import opened PgFrames
  import opened PgParser
  import opened PgRows

  lemma {:induction false} RowsHold(es: seq<Event>)
    requires RowsOnly(es)
    ensures forall k :: 0 <= k < |Rows(es)| ==> Rows(es)[k] != [] && Rows(es)[k][0] == DATA_ROW
    decreases |es|
  {
    if es != [] { RowsHold(es[..|es| - 1]); }
  }

  /** For every error-free extended query in a connection, the callback of its CommandComplete finds the number
      of its rows, and finds their frames in buf[query.start..query.end) exactly if no read ended on a frame
      boundary between the first of them and CommandComplete. */
  lemma QueryServed(snapshots: seq<Snapshot>, chunks: seq<Octets>, before: seq<Event>, bind: Octets, body: seq<Event>,
                    complete: Octets, after: seq<Event>)
    requires Reported(snapshots, Session(START, [], chunks).done)
    requires QueryIn(Events([], chunks), before, bind, body, complete, after)
    ensures var k := Completions(before);
      && k < |snapshots| && snapshots[k].rows == |Rows(body)|
      && (Rows(body) != [] ==> (snapshots[k].window == Concat(Rows(body)) <==> !CutsRows(body)))
  {
    hide Session, Events, Rows, CutsRows;
    QueryInSession(chunks, before, bind, body, complete, after);
    var k, done := Completions(before), Session(START, [], chunks).done;
    assert Reports(snapshots[k], done[k]);
    RowsHold(body);
  }

  /** A query whose rows are those of a table: the callback can read exactly this table's frames if and only if
      no read cut them. */
  lemma TableServed(snapshots: seq<Snapshot>, chunks: seq<Octets>, before: seq<Event>, bind: Octets, body: seq<Event>,
                    complete: Octets, after: seq<Event>, table: seq<seq<Value>>, f: seq<Column>)
    requires Reported(snapshots, Session(START, [], chunks).done)
    requires QueryIn(Events([], chunks), before, bind, body, complete, after)
    requires f != [] && SendableTable(table, f) && table != [] && Rows(body) == EncodeTable(table, f)
    ensures var k := Completions(before);
      && k < |snapshots| && snapshots[k].rows == |table|
      && (snapshots[k] == Snapshot(|table|, Concat(EncodeTable(table, f))) <==> !CutsRows(body))
  {
    hide Session, Events, Rows, CutsRows, QueryIn, SendableTable, EncodeTable;
    QueryServed(snapshots, chunks, before, bind, body, complete, after);
    TableFrames(table, f);
  }

  /** One row and a read that ends behind it: the callback does not find the row, and with the same octets in one
      read it does. */
  lemma BoundaryReadLosesRow(cut: seq<Snapshot>, whole: seq<Snapshot>)
    requires var bind, row, complete := EncodeFrame(BIND_COMPLETE, []), EncodeFrame(DATA_ROW, [0, 0]),
                                        EncodeFrame(COMMAND_COMPLETE, []);
      && Reported(cut, Session(START, [], [bind + row, complete]).done)
      && Reported(whole, Session(START, [], [bind + row + complete]).done)
    ensures var row := EncodeFrame(DATA_ROW, [0, 0]);
      whole == [Snapshot(1, row)] && |cut| == 1 && cut[0].rows == 1 && cut[0].window != row
  {
    hide Session, EncodeFrame;
    BoundaryReadCutsWindow();
    var row, rest: Octets := EncodeFrame(DATA_ROW, [0, 0]), [];
    OneFrame(DATA_ROW, [0, 0], rest);
    assert Reports(cut[0], Completion(1, row, true, true));
    assert Reports(whole[0], Completion(1, row, true, false));
  }

  /** `getRows` in that callback: `u8` is the parser's buffer, and behind the window comes CommandComplete. */
  method GetServedRows(u8: array<byte>, start: nat, end: nat, s: Snapshot, f: seq<Column>, ghost table: seq<seq<Value>>)
    returns (result: seq<seq<Value>>)
    requires start <= end < u8.Length && u8[end] == COMMAND_COMPLETE && u8[start..end] == s.window
    requires f != [] && SendableTable(table, f) && s == Snapshot(|table|, Concat(EncodeTable(table, f)))
    ensures result == table
  {
    hide SendableTable, EncodeTable, Concat;
    assert end == start + |Concat(EncodeTable(table, f))|;
    result := GetRows(u8, start, s.rows, f, table);
  }
}
