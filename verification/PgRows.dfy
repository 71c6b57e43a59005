/** Decoding the row window of a completed query: `getRows` gives back the values the server encoded. */
module PgRows {
  import opened Bytes
  import opened PgFrames

  const INT4OID := 23

  /** How the client asked for a column. */
  datatype Column = Column(oid: int, format: int)

  /** A decoded column: a number, JavaScript's NaN, text, or a slice of the buffer. */
  datatype Value = Int(n: int) | NaN | Text(s: Octets) | Slice(s: Octets)

  // ------------------------------------------------------------ decimal text

  function Digits(n: nat): (s: Octets)
    ensures s != [] && forall i :: 0 <= i < |s| ==> 48 <= s[i] <= 57
  {
    if n < 10 then [48 + n] else Digits(n / 10) + [48 + n % 10]
  }

  /** The server's text form of an integer. */
  function IntText(n: int): Octets {
    if n < 0 then [45] + Digits(-n) else Digits(n)
  }

  function LeadingDigits(s: Octets): (k: nat)
    ensures k <= |s|
    ensures forall i :: 0 <= i < k ==> 48 <= s[i] <= 57
    ensures k < |s| ==> !(48 <= s[k] <= 57)
  {
    if s == [] || !(48 <= s[0] <= 57) then 0
    else
      var k := LeadingDigits(s[1..]);
      assert forall i :: 1 <= i < k + 1 ==> s[i] == s[1..][i - 1];
      k + 1
  }

  function DigitsValue(s: Octets): nat
    requires forall i :: 0 <= i < |s| ==> 48 <= s[i] <= 57
  {
    if s == [] then 0 else DigitsValue(s[..|s| - 1]) * 10 + (s[|s| - 1] - 48)
  }

  /** `parseInt(text, 10)`: white space, a sign, then the longest run of digits. */
  function ParseInt(s: Octets): Value
    decreases |s|
  {
    if s != [] && s[0] in {9, 10, 11, 12, 13, 32} then ParseInt(s[1..])
    else
      var t := if s != [] && s[0] in {43, 45} then s[1..] else s;
      var k := LeadingDigits(t);
      var d: int := DigitsValue(t[..k]);
      if k == 0 then NaN else Int(if s[0] == 45 then -d else d)
  }

  lemma {:induction false} DigitsRoundTrip(n: nat)
    ensures DigitsValue(Digits(n)) == n
  {
    if 10 <= n {
      DigitsRoundTrip(n / 10);
      var s := Digits(n);
      assert s[..|s| - 1] == Digits(n / 10);
    }
  }

  /** `parseInt` reads back every integer the server writes. */
  lemma ParseIntText(n: int)
    ensures ParseInt(IntText(n)) == Int(n)
  {
    hide Digits, DigitsValue, LeadingDigits;
    var m: nat := if n < 0 then -n else n;
    var d := Digits(m);
    DigitsRoundTrip(m);
    assert LeadingDigits(d) == |d|;
    assert d[..|d|] == d;
    var s := IntText(n);
    if n < 0 { assert s[1..] == d && s[0] == 45; } else { assert s[0] == d[0]; }
  }

  // ------------------------------------------------------------ what the server sends

  predicate Sendable(v: Value, c: Column) {
    if c.oid == INT4OID then v.Int? && -0x8000_0000 <= v.n < 0x8000_0000
    else if c.format == 0 then v.Text? && |v.s| < 0x8000_0000
    else v.Slice? && |v.s| < 0x8000_0000
  }

  function ColumnOctets(v: Value, c: Column): Octets
    requires Sendable(v, c)
  {
    if c.oid != INT4OID then v.s
    else if c.format == 0 then IntText(v.n)
    else PutU32(v.n)
  }

  /** The description that applies to column `j`: the first one when there are too few. */
  function ColumnAt(f: seq<Column>, j: nat): Column
    requires f != []
  {
    if j < |f| then f[j] else f[0]
  }

  predicate SendableFrom(row: seq<Value>, f: seq<Column>, j: nat)
    requires f != []
  {
    forall i :: 0 <= i < |row| ==> Sendable(row[i], ColumnAt(f, j + i))
  }

  function EncodeColumn(v: Value, c: Column): Octets
    requires Sendable(v, c)
  {
    PutU32(|ColumnOctets(v, c)|) + ColumnOctets(v, c)
  }

  /** Columns `j`, `j + 1`, ... of a row, each a 32-bit length and its octets. */
  function EncodeColumns(row: seq<Value>, f: seq<Column>, j: nat): Octets
    requires f != [] && SendableFrom(row, f, j)
    decreases |row|
  {
    if row == [] then []
    else EncodeColumn(row[0], ColumnAt(f, j)) + (Shift(row, f, j); EncodeColumns(row[1..], f, j + 1))
  }

  lemma Shift(row: seq<Value>, f: seq<Column>, j: nat)
    requires f != [] && SendableFrom(row, f, j) && row != []
    ensures SendableFrom(row[1..], f, j + 1)
  {
    assert forall i :: 0 <= i < |row[1..]| ==> row[1..][i] == row[i + 1] && j + 1 + i == j + (i + 1);
  }

  predicate SendableRow(row: seq<Value>, f: seq<Column>)
    requires f != []
  {
    |row| < 0x1_0000 && SendableFrom(row, f, 0)
  }

  /** A DataRow message. */
  function EncodeRow(row: seq<Value>, f: seq<Column>): Octets
    requires f != [] && SendableRow(row, f)
  {
    EncodeFrame(DATA_ROW, PutU16(|row|) + EncodeColumns(row, f, 0))
  }

  predicate SendableTable(table: seq<seq<Value>>, f: seq<Column>)
    requires f != []
  {
    forall i :: 0 <= i < |table| ==> SendableRow(table[i], f)
  }

  function EncodeTable(table: seq<seq<Value>>, f: seq<Column>): seq<Octets>
    requires f != [] && SendableTable(table, f)
  {
    if table == [] then [] else [EncodeRow(table[0], f)] + EncodeTable(table[1..], f)
  }

  /** The columns of a row, one after another and each in its format. */
  lemma {:induction false} RowColumns(row: seq<Value>, f: seq<Column>, j: nat)
    requires f != [] && SendableFrom(row, f, j)
    ensures forall i :: 0 <= i < |row| ==> Sendable(row[i], ColumnAt(f, j + i))
    ensures EncodeColumns(row, f, j)
         == Concat(seq(|row|, i requires 0 <= i < |row| && Sendable(row[i], ColumnAt(f, j + i)) =>
                                EncodeColumn(row[i], ColumnAt(f, j + i))))
    decreases |row|
  {
    hide EncodeColumn, Sendable;
    if row != [] {
      Shift(row, f, j);
      RowColumns(row[1..], f, j + 1);
      var cells := seq(|row|, i requires 0 <= i < |row| && Sendable(row[i], ColumnAt(f, j + i)) =>
                                EncodeColumn(row[i], ColumnAt(f, j + i)));
      var rest := seq(|row[1..]|, i requires 0 <= i < |row[1..]| && Sendable(row[1..][i], ColumnAt(f, j + 1 + i)) =>
                                    EncodeColumn(row[1..][i], ColumnAt(f, j + 1 + i)));
      assert cells[0] == EncodeColumn(row[0], ColumnAt(f, j + 0));
      assert cells[1..] == rest;
    }
  }

  // ------------------------------------------------------------ getRows

  /** What lies in the buffer from `off` on. */
  ghost predicate Holds(u8: array<byte>, off: nat, s: Octets)
    reads u8
  {
    off + |s| <= u8.Length && u8[off..off + |s|] == s
  }

  lemma HoldsParts(u8: array<byte>, off: nat, a: Octets, b: Octets)
    requires Holds(u8, off, a + b)
    ensures Holds(u8, off, a) && Holds(u8, off + |a|, b)
  {
    var s := u8[off..off + |a + b|];
    assert u8[off..off + |a|] == s[..|a|] == a;
    assert u8[off + |a|..off + |a| + |b|] == s[|a|..] == b;
  }

  method GetU16At(u8: array<byte>, off: nat) returns (n: nat)
    requires off + 2 <= u8.Length
    ensures forall s | Holds(u8, off, s) && 2 <= |s| :: n == GetU16(s, 0)
  {
    n := GetU16([u8[off], u8[off + 1]], 0);
    forall s | Holds(u8, off, s) && 2 <= |s| ensures n == GetU16(s, 0) {
      assert s[0] == u8[off] && s[1] == u8[off + 1];
    }
  }

  method GetU32At(u8: array<byte>, off: nat) returns (n: nat)
    requires off + 4 <= u8.Length
    ensures forall s | Holds(u8, off, s) && 4 <= |s| :: n == GetU32(s, 0)
  {
    n := GetU32([u8[off], u8[off + 1], u8[off + 2], u8[off + 3]], 0);
    forall s | Holds(u8, off, s) && 4 <= |s| ensures n == GetU32(s, 0) {
      assert s[0] == u8[off] && s[1] == u8[off + 1] && s[2] == u8[off + 2] && s[3] == u8[off + 3];
    }
  }

  lemma SignedWord(n: int)
    requires -0x8000_0000 <= n < 0x8000_0000
    ensures Signed32(GetU32(PutU32(n), 0)) == n
  {
    var m: nat := if n < 0 then n + 0x1_0000_0000 else n;
    assert n % 0x1_0000_0000 == m;
    assert PutU32(n) == PutU32(m);
    hide PutU32, GetU32;
    PutGetU32(m, [], []);
    assert [] + PutU32(m) + [] == PutU32(m);
  }

  method ReadColumn(u8: array<byte>, start: nat, c: Column, ghost v: Value, ghost rest: Octets)
    returns (w: Value, next: nat)
    requires Sendable(v, c) && Holds(u8, start, EncodeColumn(v, c) + rest)
    ensures w == v && Holds(u8, next, rest) && next == start + |EncodeColumn(v, c)|
  {
    hide Holds, EncodeColumn, ParseInt, IntText, PutU32, GetU32, Signed32;
    ghost var body := ColumnOctets(v, c);
    ColumnLayout(v, c, rest);
    HoldsParts(u8, start, PutU32(|body|), body + rest);
    HoldsParts(u8, start + 4, body, rest);
    InBounds(u8, start, PutU32(|body|));
    var len := GetU32At(u8, start);
    assert [] + PutU32(|body|) + [] == PutU32(|body|);
    PutGetU32(|body|, [], []);
    var off := start + 4;
    InBounds(u8, off, body);
    if c.format == 0 {
      if c.oid == INT4OID {
        w := ParseInt(u8[off..off + len]);
        ParseIntText(v.n);
      } else {
        w := Text(u8[off..off + len]);
      }
    } else {
      if c.oid == INT4OID {
        var word := GetU32At(u8, off);
        w := Int(Signed32(word));
        SignedWord(v.n);
      } else {
        w := Slice(u8[off..off + len]);
      }
    }
    next := off + len;
  }

  lemma InBounds(u8: array<byte>, off: nat, s: Octets)
    requires Holds(u8, off, s)
    ensures off + |s| <= u8.Length && u8[off..off + |s|] == s
  {
  }

  lemma IntTextLength(n: int)
    requires -0x8000_0000 <= n < 0x8000_0000
    ensures |IntText(n)| <= 11
  {
    DigitsLength(if n < 0 then -n else n, 10);
  }

  lemma {:induction false} DigitsLength(n: nat, k: nat)
    requires 1 <= k && n < Ten(k)
    ensures |Digits(n)| <= k
    decreases k
  {
    if 10 <= n {
      DigitsLength(n / 10, k - 1);
    }
  }

  function Ten(k: nat): nat {
    if k == 0 then 1 else 10 * Ten(k - 1)
  }

  lemma ColumnLayout(v: Value, c: Column, rest: Octets)
    requires Sendable(v, c)
    ensures EncodeColumn(v, c) + rest == PutU32(|ColumnOctets(v, c)|) + (ColumnOctets(v, c) + rest)
    ensures |ColumnOctets(v, c)| < 0x8000_0000
    ensures |EncodeColumn(v, c)| == 4 + |ColumnOctets(v, c)|
  {
    if c.oid == INT4OID && c.format == 0 {
      assert Ten(10) == 10_000_000_000 by { assert Ten(5) == 100_000; }
      IntTextLength(v.n);
    }
  }

  /** `getRows`: from a window that holds the DataRow frames of `table`, exactly `table` comes back. */
  method GetRows(u8: array<byte>, start: nat, rows: nat, f: seq<Column>, ghost table: seq<seq<Value>>)
    returns (result: seq<seq<Value>>)
    requires f != [] && SendableTable(table, f) && rows == |table|
    requires Holds(u8, start, Concat(EncodeTable(table, f)))
    requires var end := start + |Concat(EncodeTable(table, f))|;
      end < u8.Length && u8[end] == ROW_DESCRIPTION ==> end + 5 <= u8.Length
    ensures result == table
  {
    hide Holds, EncodeRow, SendableRow, EncodeTable, Concat;
    if table == [] { NextKind(table, f); }
    ghost var end := start + |Concat(EncodeTable(table, f))|;
    var off: nat := start;
    result := [];
    ghost var todo := table;
    for i := 0 to rows
      invariant |result| == i && table == result + todo && SendableTable(todo, f)
      invariant i < rows ==> Holds(u8, off, Concat(EncodeTable(todo, f))) && end == off + |Concat(EncodeTable(todo, f))|
    {
      ghost var rest := Concat(EncodeTable(todo[1..], f));
      assert todo[0] == table[i];
      assert forall k :: 0 <= k < |todo[1..]| ==> todo[1..][k] == todo[k + 1];
      TableLayout(todo, f);
      var row;
      row, off := ReadRow(u8, off, f, todo[0], rest);
      result := result + [row];
      todo := todo[1..];
      InBounds(u8, off, rest);
      NextKind(todo, f);
      assert rest != [] ==> u8[off] == rest[0];
      if off < u8.Length && u8[off] == ROW_DESCRIPTION {
        var len := GetU32At(u8, off + 1);
        off := off + len;
      }
    }
  }

  lemma TableLayout(table: seq<seq<Value>>, f: seq<Column>)
    requires f != [] && SendableTable(table, f) && table != []
    ensures SendableTable(table[1..], f)
    ensures Concat(EncodeTable(table, f)) == EncodeRow(table[0], f) + Concat(EncodeTable(table[1..], f))
  {
    hide EncodeRow;
    assert EncodeTable(table, f)[1..] == EncodeTable(table[1..], f);
  }

  lemma NextKind(table: seq<seq<Value>>, f: seq<Column>)
    requires f != [] && SendableTable(table, f)
    ensures var s := Concat(EncodeTable(table, f));
      if table == [] then s == [] else s != [] && s[0] == DATA_ROW
  {
    if table != [] { TableLayout(table, f); }
  }

  /** One DataRow: its header, its column count, its columns. */
  method ReadRow(u8: array<byte>, start: nat, f: seq<Column>, ghost values: seq<Value>, ghost rest: Octets)
    returns (row: seq<Value>, off: nat)
    requires f != [] && SendableRow(values, f) && Holds(u8, start, EncodeRow(values, f) + rest)
    ensures row == values && Holds(u8, off, rest) && off == start + |EncodeRow(values, f)|
  {
    hide Holds, EncodeColumns, EncodeRow, SendableFrom, PutU32, PutU16, GetU16;
    ghost var body := EncodeColumns(values, f, 0);
    ghost var head := [DATA_ROW] + PutU32(|PutU16(|values|) + body| + 4);
    RowLayout(values, f, rest);
    HoldsParts(u8, start, head, PutU16(|values|) + (body + rest));
    off := start + 5;
    HoldsParts(u8, off, PutU16(|values|), body + rest);
    InBounds(u8, off, PutU16(|values|));
    var cols := GetU16At(u8, off);
    assert [] + PutU16(|values|) + [] == PutU16(|values|);
    PutGetU16(|values|, [], []);
    off := off + 2;
    row, off := ReadColumns(u8, off, cols, f, values, rest);
  }

  method ReadColumns(u8: array<byte>, start: nat, cols: nat, f: seq<Column>,
                     ghost values: seq<Value>, ghost rest: Octets)
    returns (row: seq<Value>, off: nat)
    requires f != [] && SendableFrom(values, f, 0) && cols == |values|
    requires Holds(u8, start, EncodeColumns(values, f, 0) + rest)
    ensures row == values && Holds(u8, off, rest) && off == start + |EncodeColumns(values, f, 0)|
  {
    hide Holds, EncodeColumn, EncodeColumns, Sendable, SendableFrom;
    row, off := [], start;
    ghost var todo := values;
    for j := 0 to cols
      invariant |row| == j && values == row + todo && SendableFrom(todo, f, j)
      invariant Holds(u8, off, EncodeColumns(todo, f, j) + rest)
      invariant off + |EncodeColumns(todo, f, j)| == start + |EncodeColumns(values, f, 0)|
    {
      ColumnsLayout(todo, f, j, rest);
      ColumnsLayout(todo, f, j, []);
      ghost var more := EncodeColumns(todo[1..], f, j + 1) + rest;
      var w;
      w, off := ReadColumn(u8, off, if j < |f| then f[j] else f[0], todo[0], more);
      row := row + [w];
      todo := todo[1..];
    }
    ColumnsLayout(todo, f, cols, rest);
    ColumnsLayout(todo, f, cols, []);
  }

  lemma RowLayout(row: seq<Value>, f: seq<Column>, rest: Octets)
    requires f != [] && SendableRow(row, f)
    ensures var body := EncodeColumns(row, f, 0);
      var head := [DATA_ROW] + PutU32(|PutU16(|row|) + body| + 4);
      && EncodeRow(row, f) + rest == head + (PutU16(|row|) + (body + rest))
      && |EncodeRow(row, f)| == 7 + |body|
  {
    hide EncodeColumns, PutU32, PutU16;
  }

  lemma ColumnsLayout(row: seq<Value>, f: seq<Column>, j: nat, rest: Octets)
    requires f != [] && SendableFrom(row, f, j)
    ensures row == [] ==> EncodeColumns(row, f, j) + rest == rest
    ensures row != [] ==>
      SendableFrom(row[1..], f, j + 1) && Sendable(row[0], ColumnAt(f, j)) &&
      EncodeColumns(row, f, j) + rest
        == EncodeColumn(row[0], ColumnAt(f, j)) + (EncodeColumns(row[1..], f, j + 1) + rest)
  {
    hide EncodeColumn, Sendable;
    if row != [] {
      Shift(row, f, j);
      assert Sendable(row[0], ColumnAt(f, j + 0));
    }
  }

  lemma {:induction false} TableFrames(table: seq<seq<Value>>, f: seq<Column>)
    requires f != [] && SendableTable(table, f)
    ensures |EncodeTable(table, f)| == |table|
    ensures forall i :: 0 <= i < |table| ==>
      EncodeTable(table, f)[i] == EncodeRow(table[i], f) && EncodeRow(table[i], f)[0] == DATA_ROW
  {
    if table != [] {
      TableFrames(table[1..], f);
      assert forall i :: 1 <= i < |table| ==> table[i] == table[1..][i - 1];
    }
  }
}
