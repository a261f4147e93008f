/** Printing tables: the fully quoted form of section 2 of RFC 4180 (rules 5 to 7), which
    all three tokenizers invert, and the client's own printer, which does not quote. */
module CsvPrinting {
  import opened Chars
  import opened CsvScan
  import opened CsvParse
  import opened CsvAgreement

  // ---------------------------------------------------------------- the quoted form

  function Double(f: string): string {
    if f == "" then "" else (if f[0] == '"' then "\"\"" else [f[0]]) + Double(f[1..])
  }

  function Quote(f: string): string {
    "\"" + Double(f) + "\""
  }

  function QuotedRow(row: Row): string
    requires row != []
  {
    Quote(row[0]) + if |row| == 1 then "\n" else ";" + QuotedRow(row[1..])
  }

  ghost predicate NonEmptyRows(rows: seq<Row>) {
    forall i | 0 <= i < |rows| :: rows[i] != []
  }

  function QuotedTable(rows: seq<Row>): string
    requires NonEmptyRows(rows)
  {
    if rows == [] then "" else QuotedRow(rows[0]) + QuotedTable(rows[1..])
  }

  ghost predicate FieldsFit(row: Row, size: nat) {
    forall i | 0 <= i < |row| :: |row[i]| < size
  }

  /** Inside quotes, the doubled text of a field adds the field, or overruns. */
  lemma {:induction false} DoubleRuns(t: Scan, memory: string, f: string, rest: string)
    requires t.mode == Quoted && |t.field| <= |memory|
    ensures var b := BufferText(Buffered(t, memory), Double(f) + rest);
            if |t.field| + |f| <= |memory|
            then b == BufferText(Buffered(t.(field := t.field + f), Overlay(memory, |t.field|, f)), rest)
            else b == Overrun
    decreases |f|
  {
    var at := |t.field|;
    if f == "" {
      assert t.field + f == t.field && Overlay(memory, at, f) == memory && Double(f) + rest == rest;
    } else {
      hide BufferText, BufferStep, Overlay;
      var c, tail := f[0], Double(f[1..]) + rest;
      CharRuns(t, memory, f, rest);
      if at < |memory| {
        DoubleRuns(t.(field := t.field + [c]), memory[at := c], f[1..], rest);
        if at + |f| <= |memory| {
          OverlayOneMore(memory, at, f);
        }
        assert t.field + [c] + f[1..] == t.field + f;
      } else {
        OverrunStays(tail);
      }
    }
  }

  /** The first character of a doubled field. */
  lemma {:induction false} CharRuns(t: Scan, memory: string, f: string, rest: string)
    requires t.mode == Quoted && |t.field| <= |memory| && f != ""
    ensures BufferText(Buffered(t, memory), Double(f) + rest)
         == BufferText(if |t.field| < |memory|
                       then Buffered(t.(field := t.field + [f[0]]), memory[|t.field| := f[0]])
                       else Overrun, Double(f[1..]) + rest)
  {
    hide BufferText;
    var c, tail := f[0], Double(f[1..]) + rest;
    if c == '"' {
      assert Double(f) + rest == ['"'] + (['"'] + tail);
      BufferCons(Buffered(t, memory), '"', ['"'] + tail);
      assert BufferStep(Buffered(t, memory), '"') == Buffered(t.(mode := Closing), memory);
      BufferCons(Buffered(t.(mode := Closing), memory), '"', tail);
    } else {
      assert Double(f) + rest == [c] + tail;
      BufferCons(Buffered(t, memory), c, tail);
    }
  }

  lemma Separators()
    ensures IsSeparator(';') && IsSeparator('\n')
  {
  }

  /** A quoted field and the separator after it. */
  lemma {:induction false} FieldRuns(line: Row, rows: seq<Row>, memory: string, f: string, c: char, rest: string)
    returns (after: string)
    requires IsSeparator(c) && memory != ""
    ensures |after| == |memory| && (|f| < |memory| ==> after[0] == '\0')
    ensures BufferText(Buffered(Scan(Open, "", line, rows), memory), Quote(f) + ([c] + rest))
         == BufferText(if |f| < |memory| then Buffered(Scan(Closing, f, line, rows).End(c), after) else Overrun, rest)
  {
    hide BufferText, Double, Overlay;
    var t := Scan(Open, "", line, rows);
    var tail := [c] + rest;
    assert Quote(f) + tail == ['"'] + (Double(f) + (['"'] + tail));
    BufferCons(Buffered(t, memory), '"', Double(f) + (['"'] + tail));
    assert BufferStep(Buffered(t, memory), '"') == Buffered(t.(mode := Quoted), memory);
    DoubleRuns(t.(mode := Quoted), memory, f, ['"'] + tail);
    after := memory;
    if |f| <= |memory| {
      assert "" + f == f;
      var m := Overlay(memory, 0, f);
      BufferCons(Buffered(Scan(Quoted, f, line, rows), m), '"', tail);
      BufferCons(Buffered(Scan(Closing, f, line, rows), m), c, rest);
      if |f| < |memory| {
        after := m[|f| := '\0'][0 := '\0'];
      }
    } else {
      OverrunStays(rest);
    }
  }

  lemma {:induction false} RowRuns(line: Row, rows: seq<Row>, memory: string, row: Row, rest: string)
    returns (after: string)
    requires row != [] && memory != ""
    ensures |after| == |memory| && (FieldsFit(row, |memory|) ==> after[0] == '\0')
    ensures BufferText(Buffered(Scan(Open, "", line, rows), memory), QuotedRow(row) + rest)
         == BufferText(if FieldsFit(row, |memory|)
                       then Buffered(Scan(Open, "", [], rows + [line + row]), after)
                       else Overrun, rest)
    decreases |row|
  {
    hide BufferText, Quote, IsSeparator;
    var f := row[0];
    if |row| == 1 {
      assert QuotedRow(row) + rest == Quote(f) + (['\n'] + rest);
      Separators();
      after := FieldRuns(line, rows, memory, f, '\n', rest);
      assert row == [f];
    } else {
      var tail := QuotedRow(row[1..]) + rest;
      assert QuotedRow(row) + rest == Quote(f) + ([';'] + tail);
      Separators();
      after := FieldRuns(line, rows, memory, f, ';', tail);
      if |f| < |memory| {
        after := RowRuns(line + [f], rows, after, row[1..], rest);
        assert line + [f] + row[1..] == line + row;
        assert FieldsFit(row, |memory|) <==> FieldsFit(row[1..], |memory|);
      } else {
        OverrunStays(tail);
        OverrunStays(rest);
      }
    }
  }

  ghost predicate TableFits(rows: seq<Row>, size: nat) {
    forall i | 0 <= i < |rows| :: FieldsFit(rows[i], size)
  }

  lemma {:induction false} TableRuns(done: seq<Row>, memory: string, rows: seq<Row>)
    returns (after: string)
    requires NonEmptyRows(rows) && memory != ""
    ensures |after| == |memory| && (TableFits(rows, |memory|) && rows != [] ==> after[0] == '\0')
    ensures BufferText(Buffered(Scan(Open, "", [], done), memory), QuotedTable(rows))
         == if TableFits(rows, |memory|) then Buffered(Scan(Open, "", [], done + rows), after) else Overrun
    decreases |rows|
  {
    hide QuotedRow, FieldsFit;
    if rows == [] {
      after := memory;
      assert done + rows == done;
    } else {
      hide BufferText;
      after := RowRuns([], done, memory, rows[0], QuotedTable(rows[1..]));
      assert [] + rows[0] == rows[0];
      assert TableFits(rows, |memory|) <==> FieldsFit(rows[0], |memory|) && TableFits(rows[1..], |memory|);
      if FieldsFit(rows[0], |memory|) {
        var first := after;
        after := TableRuns(done + [rows[0]], first, rows[1..]);
        if rows[1..] == [] {
          after := first;
          assert QuotedTable(rows[1..]) == "";
        }
        assert done + [rows[0]] + rows[1..] == done + rows;
      } else {
        OverrunStays(QuotedTable(rows[1..]));
      }
    }
  }

  /** The automaton inverts quoting, on every table of non-empty rows. */
  lemma {:induction false} ScanInvertsQuoting(rows: seq<Row>)
    requires NonEmptyRows(rows)
    ensures ScanText(START, QuotedTable(rows)) == Scan(Open, "", [], rows)
  {
    hide ScanText, BufferText, QuotedTable;
    var size := Longest(rows);
    var memory := seq(size + 1, _ => '\0');
    var after := TableRuns([], memory, rows);
    BufferRunsScan(Buffered(START, memory), QuotedTable(rows));
    assert [] + rows == rows;
  }

  /** A bound on the fields of a table. */
  lemma {:induction false} Longest(rows: seq<Row>) returns (n: nat)
    ensures TableFits(rows, n + 1)
  {
    n := 0;
    if rows != [] {
      var m := Longest(rows[1..]);
      var k := LongestField(rows[0]);
      n := if m > k then m else k;
      assert forall i | 1 <= i < |rows| :: rows[i] == rows[1..][i - 1];
    }
  }

  lemma {:induction false} LongestField(row: Row) returns (n: nat)
    ensures FieldsFit(row, n + 1)
  {
    n := 0;
    if row != [] {
      var m := LongestField(row[1..]);
      n := if m > |row[0]| then m else |row[0]|;
      assert forall i | 1 <= i < |row| :: row[i] == row[1..][i - 1];
    }
  }

  /** All three tokenizers give back every table of non-empty rows from its quoted form: the
      C++ ones with an empty row after it, the client's if and only if each field leaves room
      for its NUL in the buffer, whatever the buffer held before. */
  lemma {:induction false} QuotingRoundTrip(rows: seq<Row>, memory: string)
    requires NonEmptyRows(rows) && rows != [] && |memory| == FIELD_SIZE
    ensures LogBookRows(QuotedTable(rows)) == QtRows(QuotedTable(rows)) == rows + [[]]
    ensures CsvRows(QuotedTable(rows), memory) == Some(rows) <==> TableFits(rows, FIELD_SIZE)
  {
    hide ScanText, BufferText, QuotedTable, TableFits, CString;
    ScanInvertsQuoting(rows);
    var after := TableRuns([], memory, rows);
    assert [] + rows == rows;
  }
}
