/** The client's CSV printer and column merge. The printer does not quote and ends every
    field with a separator, so what it prints reads back with one more, empty, column. */
module CsvMerge {
  import opened Chars
  import opened CsvScan
  import opened CsvParse
  import opened CsvAgreement
  import opened CsvPrinting

  function PrintRow(row: Row): string {
    if row == [] then "" else row[0] + ";" + PrintRow(row[1..])
  }

  function PrintRows(rows: seq<Row>): string {
    if rows == [] then "" else PrintRow(rows[0]) + "\n" + PrintRows(rows[1..])
  }

  // ---------------------------------------------------------------- the two passes

  lemma {:induction false} PrintRowSnoc(row: Row, f: string)
    ensures PrintRow(row + [f]) == PrintRow(row) + f + ";"
    decreases |row|
  {
    if row == [] {
      assert PrintRow([f]) == f + ";" + PrintRow([f][1..]);
      assert row + [f] == [f] && "" + f + ";" == f + ";" + "";
    } else {
      hide PrintRow;
      PrintRowCons(row + [f]);
      PrintRowCons(row);
      assert (row + [f])[1..] == row[1..] + [f];
      PrintRowSnoc(row[1..], f);
    }
  }

  lemma PrintRowCons(row: Row)
    requires row != []
    ensures PrintRow(row) == row[0] + ";" + PrintRow(row[1..])
  {
  }

  lemma {:induction false} PrintRowsSnoc(rows: seq<Row>, row: Row)
    ensures PrintRows(rows + [row]) == PrintRows(rows) + PrintRow(row) + "\n"
    decreases |rows|
  {
    hide PrintRow;
    if rows == [] {
      assert PrintRows([row]) == PrintRow(row) + "\n" + PrintRows([row][1..]);
      assert rows + [row] == [row] && "" + PrintRow(row) + "\n" == PrintRow(row) + "\n" + "";
    } else {
      hide PrintRows;
      PrintRowsCons(rows + [row]);
      PrintRowsCons(rows);
      assert (rows + [row])[1..] == rows[1..] + [row];
      PrintRowsSnoc(rows[1..], row);
    }
  }

  lemma PrintRowsCons(rows: seq<Row>)
    requires rows != []
    ensures PrintRows(rows) == PrintRow(rows[0]) + "\n" + PrintRows(rows[1..])
  {
  }

  /** First pass: the length of the printed text with its NUL. */
  method Measure(rows: seq<Row>) returns (length: nat)
    ensures length == |PrintRows(rows)| + 1
  {
    hide PrintRow, PrintRows;
    length := 0;
    NothingPrinted();
    for i := 0 to |rows|
      invariant length == |PrintRows(rows[..i])|
    {
      var line := rows[i];
      ghost var start := length;
      for j := 0 to |line|
        invariant length == start + |PrintRow(line[..j])|
      {
        assert line[..j + 1] == line[..j] + [line[j]];
        PrintRowSnoc(line[..j], line[j]);
        length := length + |line[j]| + 1;
      }
      assert line[..|line|] == line;
      length := length + 1;
      assert rows[..i + 1] == rows[..i] + [line];
      PrintRowsSnoc(rows[..i], line);
    }
    assert rows[..|rows|] == rows;
    length := length + 1;
  }

  lemma NothingPrinted()
    ensures PrintRows([]) == "" && PrintRow([]) == ""
  {
  }

  /** "strcpy" without the NUL, which the next write replaces. */
  method Copy(res: array<char>, at: nat, s: string) returns (end: nat)
    requires at + |s| <= res.Length
    modifies res
    ensures end == at + |s| && res[..end] == old(res[..at]) + s
  {
    for i := 0 to |s|
      invariant res[..at] == old(res[..at]) && res[at..at + i] == s[..i]
    {
      res[at + i] := s[i];
    }
    end := at + |s|;
  }

  lemma {:induction false} PrefixNoLonger(rows: seq<Row>, i: nat, j: nat)
    requires i < |rows| && j <= |rows[i]|
    ensures |PrintRows(rows[..i])| + |PrintRow(rows[i][..j])| + 1 <= |PrintRows(rows)|
    decreases |rows|
  {
    hide PrintRow;
    assert rows == rows[..|rows| - 1] + [rows[|rows| - 1]];
    PrintRowsSnoc(rows[..|rows| - 1], rows[|rows| - 1]);
    RowPrefixNoLonger(rows[i], j);
    if i < |rows| - 1 {
      assert rows[..|rows| - 1][..i] == rows[..i];
      PrefixNoLonger(rows[..|rows| - 1], i, j);
    }
  }

  lemma {:induction false} RowPrefixNoLonger(row: Row, j: nat)
    requires j <= |row|
    ensures |PrintRow(row[..j])| <= |PrintRow(row)|
    decreases |row|
  {
    if j < |row| {
      assert row == row[..|row| - 1] + [row[|row| - 1]];
      PrintRowSnoc(row[..|row| - 1], row[|row| - 1]);
      assert row[..|row| - 1][..j] == row[..j];
      RowPrefixNoLonger(row[..|row| - 1], j);
    } else {
      assert row[..j] == row;
    }
  }

  /** Second pass: it fills the buffer of the first exactly, the NUL in its last cell. */
  method CsvFromList(rows: seq<Row>) returns (res: array<char>)
    ensures res[..] == PrintRows(rows) + "\0"
  {
    hide PrintRow, PrintRows;
    var length := Measure(rows);
    res := new char[length];
    var ptr := 0;
    NothingPrinted();
    for i := 0 to |rows|
      invariant ptr <= res.Length && res[..ptr] == PrintRows(rows[..i])
    {
      var line := rows[i];
      for j := 0 to |line|
        invariant ptr <= res.Length && res[..ptr] == PrintRows(rows[..i]) + PrintRow(line[..j])
      {
        assert line[..j + 1] == line[..j] + [line[j]];
        PrintRowSnoc(line[..j], line[j]);
        PrefixNoLonger(rows, i, j + 1);
        ptr := Copy(res, ptr, line[j]);
        res[ptr] := ';';
        ptr := ptr + 1;
      }
      assert line[..|line|] == line;
      PrefixNoLonger(rows, i, |line|);
      res[ptr] := '\n';
      ptr := ptr + 1;
      assert rows[..i + 1] == rows[..i] + [line];
      PrintRowsSnoc(rows[..i], line);
    }
    assert rows[..|rows|] == rows;
    res[ptr] := '\0';
  }

  // ---------------------------------------------------------------- reading it back

  ghost predicate PlainRow(row: Row) {
    forall i | 0 <= i < |row| :: All(row[i], IsPlain)
  }

  ghost predicate PlainRows(rows: seq<Row>) {
    forall i | 0 <= i < |rows| :: PlainRow(rows[i])
  }

  /** What unquoted printing reads back as: each row gains an empty field. */
  function Widen(rows: seq<Row>): (r: seq<Row>)
    ensures |r| == |rows|
  {
    seq(|rows|, i requires 0 <= i < |rows| => rows[i] + [""])
  }

  /** A plain field and the separator after it. */
  lemma {:induction false} PlainFieldRuns(line: Row, rows: seq<Row>, memory: string, f: string, c: char)
    returns (after: string)
    requires All(f, IsPlain) && |f| < |memory| && IsSeparator(c)
    ensures |after| == |memory| && after[0] == '\0'
    ensures BufferText(Buffered(Scan(Open, "", line, rows), memory), f + [c])
         == Buffered(Scan(Open, f, line, rows).End(c), after)
  {
    hide BufferText, Overlay, IsPlain, IsSeparator;
    var t := Scan(Open, "", line, rows);
    BufferConcat(Buffered(t, memory), f, [c]);
    PlainRuns(t, memory, f);
    assert "" + f == f;
    var m := Overlay(memory, 0, f);
    after := m[|f| := '\0'][0 := '\0'];
    BufferOne(Buffered(Scan(Open, f, line, rows), m), c);
    StepEnds(Buffered(Scan(Open, f, line, rows), m), c);
  }

  lemma {:induction false} PlainRowRuns(line: Row, rows: seq<Row>, memory: string, row: Row)
    returns (after: string)
    requires PlainRow(row) && FieldsFit(row, |memory|)
    ensures |after| == |memory|
    ensures BufferText(Buffered(Scan(Open, "", line, rows), memory), PrintRow(row))
         == Buffered(Scan(Open, "", line + row, rows), after)
    decreases |row|
  {
    if row == [] {
      after := memory;
      assert line + row == line;
    } else {
      hide BufferText, PrintRow, IsPlain;
      PrintRowCons(row);
      Separators();
      BufferConcat(Buffered(Scan(Open, "", line, rows), memory), row[0] + ";", PrintRow(row[1..]));
      after := PlainFieldRuns(line, rows, memory, row[0], ';');
      after := PlainRowRuns(line + [row[0]], rows, after, row[1..]);
      assert line + [row[0]] + row[1..] == line + row;
    }
  }

  lemma {:induction false} PlainLineRuns(rows: seq<Row>, memory: string, row: Row)
    returns (after: string)
    requires PlainRow(row) && FieldsFit(row, |memory|) && memory != ""
    ensures |after| == |memory| && after[0] == '\0'
    ensures BufferText(Buffered(Scan(Open, "", [], rows), memory), PrintRow(row) + "\n")
         == Buffered(Scan(Open, "", [], rows + [row + [""]]), after)
  {
    hide BufferText, PrintRow, IsPlain, PlainRow, FieldsFit;
    Separators();
    BufferConcat(Buffered(Scan(Open, "", [], rows), memory), PrintRow(row), "\n");
    after := PlainRowRuns([], rows, memory, row);
    assert [] + row == row && "" + "\n" == "\n";
    after := PlainFieldRuns(row, rows, after, "", '\n');
  }

  lemma {:induction false} PlainRowsRun(done: seq<Row>, memory: string, rows: seq<Row>)
    returns (after: string)
    requires PlainRows(rows) && TableFits(rows, |memory|) && memory != "" && rows != []
    ensures |after| == |memory| && after[0] == '\0'
    ensures BufferText(Buffered(Scan(Open, "", [], done), memory), PrintRows(rows))
         == Buffered(Scan(Open, "", [], done + Widen(rows)), after)
    decreases |rows|
  {
    hide BufferText, PrintRow, PrintRows, PlainRow, FieldsFit;
    PrintRowsCons(rows);
    BufferConcat(Buffered(Scan(Open, "", [], done), memory), PrintRow(rows[0]) + "\n", PrintRows(rows[1..]));
    after := PlainLineRuns(done, memory, rows[0]);
    var done' := done + [rows[0] + [""]];
    if |rows| == 1 {
      assert rows[1..] == [];
      NothingPrinted();
      Unread(Buffered(Scan(Open, "", [], done'), after));
      assert done' == done + Widen(rows);
    } else {
      after := PlainRowsRun(done', after, rows[1..]);
      assert done' + Widen(rows[1..]) == done + Widen(rows);
    }
  }

  lemma Unread(b: Buffered)
    ensures BufferText(b, "") == b
  {
  }

  lemma {:induction false} PlainReadsBack(rows: seq<Row>, memory: string)
    requires PlainRows(rows) && TableFits(rows, FIELD_SIZE) && rows != [] && |memory| == FIELD_SIZE
    ensures CsvRows(PrintRows(rows), memory) == Some(Widen(rows))
  {
    hide BufferText, PrintRows, PlainRows, TableFits;
    var after := PlainRowsRun([], memory, rows);
    assert [] + Widen(rows) == Widen(rows);
  }

  // ---------------------------------------------------------------- exactly when

  /** What a table weighs: one for each character and one for each end of a field. */
  function RowWeight(row: Row): nat {
    if row == [] then 0 else RowWeight(row[..|row| - 1]) + |row[|row| - 1]| + 1
  }

  function RowsWeight(rows: seq<Row>): nat {
    if rows == [] then 0 else RowsWeight(rows[..|rows| - 1]) + RowWeight(rows[|rows| - 1])
  }

  function Weight(t: Scan): nat {
    RowsWeight(t.rows) + RowWeight(t.line) + |t.field|
  }

  lemma StepWeight(t: Scan, c: char)
    ensures Weight(t.Step(c)) == Weight(t) + if t.Ends(c) || t.Keeps(c) then 1 else 0
  {
    var row := t.line + [t.field];
    assert row[..|row| - 1] == t.line;
    var rows := t.rows + [row];
    assert rows[..|rows| - 1] == t.rows;
    assert RowWeight([]) == 0;
  }

  /** Reading never makes anything, and loses a quote that it meets outside quotes. */
  lemma {:induction false} ScanWeight(t: Scan, s: string)
    ensures Weight(ScanText(t, s)) <= Weight(t) + |s|
    ensures t.mode == Open && '"' in s ==> Weight(ScanText(t, s)) < Weight(t) + |s|
    decreases |s|
  {
    if s != "" {
      hide Weight, Scan.Step, Scan.Ends, Scan.Keeps;
      StepWeight(t, s[0]);
      OpenStep(t, s[0]);
      ScanWeight(t.Step(s[0]), s[1..]);
      assert s == [s[0]] + s[1..];
    }
  }

  lemma OpenStep(t: Scan, c: char)
    ensures t.mode == Open && c != '"' ==> t.Step(c).mode == Open
    ensures t.mode == Open && c == '"' ==> !t.Ends(c) && !t.Keeps(c)
  {
  }

  lemma {:induction false} PrintedRowWeight(row: Row)
    ensures RowWeight(row) == |PrintRow(row)|
    decreases |row|
  {
    if row != [] {
      var k := |row| - 1;
      assert row == row[..k] + [row[k]];
      PrintRowSnoc(row[..k], row[k]);
      PrintedRowWeight(row[..k]);
    }
  }

  lemma {:induction false} PrintedWeight(rows: seq<Row>)
    ensures RowsWeight(Widen(rows)) == |PrintRows(rows)|
    decreases |rows|
  {
    if rows != [] {
      hide PrintRow, PrintRows, RowWeight;
      var k := |rows| - 1;
      assert rows == rows[..k] + [rows[k]] && Widen(rows)[..k] == Widen(rows[..k]);
      PrintRowsSnoc(rows[..k], rows[k]);
      PrintedRowWeight(rows[k] + [""]);
      PrintRowSnoc(rows[k], "");
      PrintedWeight(rows[..k]);
    }
  }

  /** Ends of fields in a text without quotes. */
  function Separations(s: string): nat {
    if s == "" then 0 else Separations(s[..|s| - 1]) + if IsSeparator(s[|s| - 1]) then 1 else 0
  }

  function Cells(rows: seq<Row>): nat {
    if rows == [] then 0 else Cells(rows[..|rows| - 1]) + |rows[|rows| - 1]|
  }

  lemma {:induction false} UnquotedCells(s: string)
    requires '"' !in s
    ensures var t := ScanText(START, s);
            t.mode == Open && Cells(t.rows) + |t.line| == Separations(s)
    decreases |s|
  {
    if s != "" {
      var k := |s| - 1;
      UnquotedCells(s[..k]);
      assert s[..k + 1] == s && s[k] in s;
      ScanNext(START, s, k);
      hide ScanText;
      var t := ScanText(START, s[..k]);
      var rows := t.rows + [t.line + [t.field]];
      assert rows[..|rows| - 1] == t.rows;
    }
  }

  lemma {:induction false} SeparationsConcat(a: string, b: string)
    ensures Separations(a + b) == Separations(a) + Separations(b)
    decreases |b|
  {
    if b == "" {
      assert a + b == a;
    } else {
      assert (a + b)[..|a + b| - 1] == a + b[..|b| - 1];
      SeparationsConcat(a, b[..|b| - 1]);
    }
  }

  ghost predicate Unseparated(row: Row) {
    forall i | 0 <= i < |row| :: Separations(row[i]) == 0
  }

  lemma {:induction false} PrintedRowCells(row: Row)
    ensures Separations(PrintRow(row)) >= |row|
    ensures Separations(PrintRow(row)) == |row| ==> Unseparated(row)
    decreases |row|
  {
    if row != [] {
      hide PrintRow, Separations;
      var k := |row| - 1;
      assert row == row[..k] + [row[k]];
      PrintRowSnoc(row[..k], row[k]);
      PrintedRowCells(row[..k]);
      SeparationsConcat(PrintRow(row[..k]) + row[k], ";");
      SeparationsConcat(PrintRow(row[..k]), row[k]);
      OneSeparation(';');
      assert forall i | 0 <= i < k :: row[i] == row[..k][i];
    }
  }

  lemma OneSeparation(c: char)
    ensures c == ';' || c == '\n' ==> Separations([c]) == 1
  {
    assert [c][..0] == "";
  }

  lemma {:induction false} PrintedCells(rows: seq<Row>)
    ensures Separations(PrintRows(rows)) >= Cells(Widen(rows))
    ensures Separations(PrintRows(rows)) == Cells(Widen(rows)) ==>
              forall i | 0 <= i < |rows| :: Unseparated(rows[i])
    decreases |rows|
  {
    if rows != [] {
      hide PrintRow, PrintRows, Separations, Unseparated;
      var k := |rows| - 1;
      assert rows == rows[..k] + [rows[k]] && Widen(rows)[..k] == Widen(rows[..k]);
      PrintRowsSnoc(rows[..k], rows[k]);
      PrintedCells(rows[..k]);
      PrintedRowCells(rows[k]);
      SeparationsConcat(PrintRows(rows[..k]) + PrintRow(rows[k]), "\n");
      SeparationsConcat(PrintRows(rows[..k]), PrintRow(rows[k]));
      OneSeparation('\n');
      assert forall i | 0 <= i < k :: rows[i] == rows[..k][i];
    }
  }

  lemma {:induction false} NoSeparator(s: string)
    requires Separations(s) == 0
    ensures forall i | 0 <= i < |s| :: !IsSeparator(s[i])
    decreases |s|
  {
    if s != "" {
      NoSeparator(s[..|s| - 1]);
      assert forall i | 0 <= i < |s| - 1 :: s[i] == s[..|s| - 1][i];
    }
  }

  /** Every character of a field is printed. */
  lemma {:induction false} FieldIsPrinted(rows: seq<Row>, i: nat, j: nat, c: char)
    requires i < |rows| && j < |rows[i]| && c in rows[i][j]
    ensures c in PrintRows(rows)
    decreases |rows|
  {
    hide PrintRow;
    PrintRowsCons(rows);
    if i == 0 {
      FieldIsPrintedInRow(rows[0], j, c);
    } else {
      FieldIsPrinted(rows[1..], i - 1, j, c);
    }
  }

  lemma {:induction false} FieldIsPrintedInRow(row: Row, j: nat, c: char)
    requires j < |row| && c in row[j]
    ensures c in PrintRow(row)
    decreases |row|
  {
    PrintRowCons(row);
    if j > 0 {
      FieldIsPrintedInRow(row[1..], j - 1, c);
    }
  }

  ghost predicate NulFree(rows: seq<Row>) {
    forall i, j | 0 <= i < |rows| && 0 <= j < |rows[i]| :: All(rows[i][j], NotNul)
  }

  lemma {:induction false} ReadBackIsPlain(rows: seq<Row>)
    requires NulFree(rows) && ScanText(START, PrintRows(rows)).rows == Widen(rows)
    ensures PlainRows(rows)
  {
    hide ScanText, PrintRows, Cells, RowsWeight, RowWeight, Separations, Unseparated;
    var s := PrintRows(rows);
    NoWeightAtStart();
    ScanWeight(START, s);
    PrintedWeight(rows);
    assert '"' !in s;
    WeightlessRow(ScanText(START, s).line);
    UnquotedCells(s);
    PrintedCells(rows);
    forall i, j | 0 <= i < |rows| && 0 <= j < |rows[i]| ensures All(rows[i][j], IsPlain) {
      UnseparatedField(rows[i], j);
      NoSeparator(rows[i][j]);
      if '"' in rows[i][j] {
        FieldIsPrinted(rows, i, j, '"');
      }
      assert All(rows[i][j], NotNul);
    }
  }

  lemma WeightlessRow(row: Row)
    ensures RowWeight(row) == 0 ==> row == []
  {
  }

  lemma NoWeightAtStart()
    ensures Weight(START) == 0
  {
  }

  lemma UnseparatedField(row: Row, j: nat)
    requires Unseparated(row) && j < |row|
    ensures Separations(row[j]) == 0
  {
  }

  /** What the client prints reads back, each row with one more empty field, if and only if
      no field holds a quote or a separator. */
  lemma {:induction false} ReadsBackIff(rows: seq<Row>, memory: string)
    requires rows != [] && NulFree(rows) && TableFits(rows, FIELD_SIZE) && |memory| == FIELD_SIZE
    ensures CsvRows(PrintRows(rows), memory) == Some(Widen(rows)) <==> PlainRows(rows)
  {
    hide ScanText, BufferText, PrintRows, PlainRows, TableFits, NulFree, CString;
    if PlainRows(rows) {
      PlainReadsBack(rows, memory);
    }
    if CsvRows(PrintRows(rows), memory) == Some(Widen(rows)) {
      BufferRunsScan(Buffered(START, memory), PrintRows(rows));
      var t := ScanText(START, PrintRows(rows));
      var last := Widen(rows)[|rows| - 1];
      assert last[|last| - 1] == "";
      ReadBackIsPlain(rows);
    }
  }
}
