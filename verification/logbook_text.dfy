/** The text the logbook responder sends, read by the tokenizers of the graphical client and
    of the responder itself: values are joined without quotes, and the first line names one
    column fewer than the rows have. */
module LogBookText {
  import opened Chars
  import opened CsvScan
  import opened CsvParse
  import opened CsvAgreement
  import opened CsvPrinting
  import opened CsvMerge
  import opened LogBookModel
  import opened LogBookOwnership

  /** Fields separated, not ended, by ';'. */
  function JoinRow(row: Row): string
    requires row != []
  {
    var k := |row| - 1;
    PrintRow(row[..k]) + row[k] + "\n"
  }

  function JoinRows(rows: seq<Row>): string
    requires NonEmptyRows(rows)
  {
    if rows == [] then "" else
      var k := |rows| - 1;
      JoinRows(rows[..k]) + JoinRow(rows[k])
  }

  // ---------------------------------------------------------------- when it reads back

  lemma {:induction false} JoinedRowScan(done: seq<Row>, row: Row)
    requires row != [] && PlainRow(row)
    ensures ScanText(Scan(Open, "", [], done), JoinRow(row)) == Scan(Open, "", [], done + [row])
  {
    hide ScanText, PrintRow, IsPlain, BufferText;
    var k := |row| - 1;
    var t := Scan(Open, "", [], done);
    var init := row[..k];
    PlainInit(row);
    var size := LongestField(row);
    var memory := seq(size + 1, _ => '\0');
    var after := PlainRowRuns([], done, memory, init);
    BufferRunsScan(Buffered(t, memory), PrintRow(init));
    assert [] + init == init;
    Separators();
    var last := PlainFieldRuns(init, done, after, row[k], '\n');
    BufferRunsScan(Buffered(Scan(Open, "", init, done), after), row[k] + "\n");
    assert JoinRow(row) == PrintRow(init) + (row[k] + "\n");
    ScanConcat(t, PrintRow(init), row[k] + "\n");
    assert row == init + [row[k]];
    LineDone(row[k], init, done);
  }

  lemma PlainInit(row: Row)
    requires row != [] && PlainRow(row)
    ensures PlainRow(row[..|row| - 1]) && All(row[|row| - 1], IsPlain)
  {
  }

  lemma LineDone(f: string, line: Row, rows: seq<Row>)
    ensures Scan(Open, f, line, rows).End('\n') == Scan(Open, "", [], rows + [line + [f]])
  {
  }

  lemma {:induction false} JoinedRowsScan(rows: seq<Row>)
    requires NonEmptyRows(rows) && PlainRows(rows)
    ensures ScanText(START, JoinRows(rows)) == Scan(Open, "", [], rows)
    decreases |rows|
  {
    hide PlainRow, JoinRow;
    if rows != [] {
      hide ScanText;
      var k := |rows| - 1;
      JoinedRowsScan(rows[..k]);
      ScanConcat(START, JoinRows(rows[..k]), JoinRow(rows[k]));
      JoinedRowScan(rows[..k], rows[k]);
      assert rows == rows[..k] + [rows[k]];
    }
  }

  lemma {:induction false} JoinedRowCounts(row: Row)
    requires row != []
    ensures |JoinRow(row)| == RowWeight(row)
    ensures Separations(JoinRow(row)) >= |row|
    ensures Separations(JoinRow(row)) == |row| ==> Unseparated(row)
  {
    hide PrintRow, Separations, Unseparated;
    var k := |row| - 1;
    assert row == row[..k] + [row[k]];
    PrintRowSnoc(row[..k], row[k]);
    PrintedRowWeight(row);
    PrintedRowCells(row);
    SeparationsConcat(PrintRow(row[..k]) + row[k], ";");
    SeparationsConcat(PrintRow(row[..k]) + row[k], "\n");
    OneSeparation(';');
    OneSeparation('\n');
  }

  lemma {:induction false} JoinedCounts(rows: seq<Row>)
    requires NonEmptyRows(rows)
    ensures |JoinRows(rows)| == RowsWeight(rows)
    ensures Separations(JoinRows(rows)) >= Cells(rows)
    ensures Separations(JoinRows(rows)) == Cells(rows) ==> forall i | 0 <= i < |rows| :: Unseparated(rows[i])
    decreases |rows|
  {
    if rows == [] {
      NothingCounts();
    } else {
      hide JoinRow, Separations, Unseparated, RowWeight, Cells, RowsWeight;
      var k := |rows| - 1;
      assert RowsWeight(rows) == RowsWeight(rows[..k]) + RowWeight(rows[k]) by { WeightSnoc(rows); }
      assert Cells(rows) == Cells(rows[..k]) + |rows[k]| by { WeightSnoc(rows); }
      JoinedCounts(rows[..k]);
      JoinedRowCounts(rows[k]);
      SeparationsConcat(JoinRows(rows[..k]), JoinRow(rows[k]));
      assert forall i | 0 <= i < k :: rows[i] == rows[..k][i];
    }
  }

  lemma WeightSnoc(rows: seq<Row>)
    requires rows != []
    ensures RowsWeight(rows) == RowsWeight(rows[..|rows| - 1]) + RowWeight(rows[|rows| - 1])
    ensures Cells(rows) == Cells(rows[..|rows| - 1]) + |rows[|rows| - 1]|
  {
  }

  lemma NothingCounts()
    ensures RowsWeight([]) == Cells([]) == Separations("") == 0
  {
  }

  lemma {:induction false} FieldIsJoined(rows: seq<Row>, i: nat, j: nat, c: char)
    requires NonEmptyRows(rows) && i < |rows| && j < |rows[i]| && c in rows[i][j]
    ensures c in JoinRows(rows)
    decreases |rows|
  {
    hide PrintRow;
    var k := |rows| - 1;
    if i < k {
      FieldIsJoined(rows[..k], i, j, c);
    } else if j < |rows[k]| - 1 {
      FieldIsPrintedInRow(rows[k][..|rows[k]| - 1], j, c);
    }
  }

  /** Joined rows are read back exactly, with the empty last row of the C++ tokenizers, if
      and only if no field holds a quote or a separator. */
  lemma {:induction false} JoinedReadsBackIff(rows: seq<Row>)
    requires NonEmptyRows(rows) && NulFree(rows)
    ensures QtRows(JoinRows(rows)) == rows + [[]] <==> PlainRows(rows)
    ensures PlainRows(rows) ==> LogBookRows(JoinRows(rows)) == rows + [[]]
  {
    hide ScanText, JoinRows, PlainRows, NulFree, NonEmptyRows;
    if PlainRows(rows) {
      JoinedRowsScan(rows);
    }
    if QtRows(JoinRows(rows)) == rows + [[]] {
      var t := ScanText(START, JoinRows(rows));
      var last := if t.field == "" then t.line else t.line + [t.field];
      assert QtRows(JoinRows(rows)) == t.rows + [last];
      assert |t.rows| == |rows| && (t.rows + [last])[..|rows|] == t.rows && (rows + [[]])[..|rows|] == rows;
      JoinedReadBackIsPlain(rows);
    }
  }

  lemma {:induction false} JoinedReadBackIsPlain(rows: seq<Row>)
    requires NonEmptyRows(rows) && NulFree(rows) && ScanText(START, JoinRows(rows)).rows == rows
    ensures PlainRows(rows)
  {
    hide ScanText, JoinRows, Cells, RowsWeight, RowWeight, Separations, Unseparated;
    var s := JoinRows(rows);
    NoWeightAtStart();
    ScanWeight(START, s);
    JoinedCounts(rows);
    assert '"' !in s;
    WeightlessRow(ScanText(START, s).line);
    UnquotedCells(s);
    forall i, j | 0 <= i < |rows| && 0 <= j < |rows[i]| ensures All(rows[i][j], IsPlain) {
      UnseparatedField(rows[i], j);
      NoSeparator(rows[i][j]);
      if '"' in rows[i][j] {
        FieldIsJoined(rows, i, j, '"');
      }
      assert All(rows[i][j], NotNul);
    }
  }

  // ---------------------------------------------------------------- the fetched text

  function ValuesOf(r: Record, columns: seq<string>): (row: Row)
    ensures |row| == |columns|
  {
    seq(|columns|, i requires 0 <= i < |columns| => Get(r, columns[i]))
  }

  function Table(columns: seq<string>, rows: seq<Record>): (t: seq<Row>)
    requires |columns| > 1
    ensures |t| == |rows| + 1 && NonEmptyRows(t)
  {
    [columns[..|columns| - 1]] + seq(|rows|, i requires 0 <= i < |rows| => ValuesOf(rows[i], columns))
  }

  lemma {:induction false} TitlesAreJoined(columns: seq<string>)
    requires columns != []
    ensures Titles(columns) + "\n" == JoinRow(columns)
  {
    hide PrintRow;
    if |columns| == 1 {
      assert columns[..0] == [];
      NothingPrinted();
      assert "" + columns[0] + "\n" == columns[0] + "\n";
    } else {
      var k := |columns| - 1;
      TitlesAreJoined(columns[1..]);
      PrintRowCons(columns[..k]);
      assert columns[..k][1..] == columns[1..][..k - 1] && columns[1..][k - 1] == columns[k];
      var a, b := columns[0] + ";", PrintRow(columns[..k][1..]);
      assert a + b + columns[k] + "\n" == a + (b + columns[k] + "\n");
    }
  }

  lemma {:induction false} ValuesAreJoined(r: Record, columns: seq<string>)
    requires columns != []
    ensures LogBookModel.Join(r, columns) + "\n" == JoinRow(ValuesOf(r, columns))
  {
    TitlesAreJoined(ValuesOf(r, columns));
    ValuesAsTitles(r, columns);
  }

  lemma {:induction false} ValuesAsTitles(r: Record, columns: seq<string>)
    ensures LogBookModel.Join(r, columns) == Titles(ValuesOf(r, columns))
    decreases |columns|
  {
    if |columns| > 1 {
      ValuesAsTitles(r, columns[1..]);
      assert ValuesOf(r, columns)[1..] == ValuesOf(r, columns[1..]);
    }
  }

  lemma {:induction false} FetchedTextIsJoined(rows: seq<Record>)
    ensures Header(COLUMNS) + Lines(rows) == JoinRows(Table(COLUMNS, rows))
    decreases |rows|
  {
    hide JoinRow, JoinRows, Lines, Table, Header, Entry, ValuesOf;
    if rows == [] {
      NothingFetched(COLUMNS);
    } else {
      var k := |rows| - 1;
      FetchedTextIsJoined(rows[..k]);
      EntryIsJoined(rows[k]);
      OneRowMore(COLUMNS, rows);
      JoinRowsSnoc(Table(COLUMNS, rows[..k]), ValuesOf(rows[k], COLUMNS));
      LinesUnfold(rows);
      ConcatAssoc(Header(COLUMNS), Lines(rows[..k]), Entry(rows[k]));
    }
  }

  lemma NothingFetched(columns: seq<string>)
    requires |columns| > 1
    ensures Header(columns) + Lines([]) == JoinRows(Table(columns, []))
  {
    hide JoinRow, Titles;
    TitlesAreJoined(columns[..|columns| - 1]);
    OneLineJoined(columns[..|columns| - 1]);
    assert Table(columns, []) == [columns[..|columns| - 1]];
    assert Header(columns) + "" == Header(columns);
  }

  lemma LinesUnfold(rows: seq<Record>)
    requires rows != []
    ensures Lines(rows) == Lines(rows[..|rows| - 1]) + Entry(rows[|rows| - 1])
  {
    hide Entry;
  }

  lemma EntryIsJoined(r: Record)
    ensures |ValuesOf(r, COLUMNS)| == |COLUMNS| > 1 && Entry(r) == JoinRow(ValuesOf(r, COLUMNS))
  {
    hide JoinRow, LogBookModel.Join, ValuesOf;
    ValuesAreJoined(r, COLUMNS);
  }

  lemma OneRowMore(columns: seq<string>, rows: seq<Record>)
    requires |columns| > 1 && rows != []
    ensures Table(columns, rows) == Table(columns, rows[..|rows| - 1]) + [ValuesOf(rows[|rows| - 1], columns)]
  {
    hide ValuesOf;
  }

  lemma JoinRowsSnoc(rows: seq<Row>, row: Row)
    requires NonEmptyRows(rows) && row != []
    ensures JoinRows(rows + [row]) == JoinRows(rows) + JoinRow(row)
  {
    hide JoinRow;
    assert (rows + [row])[..|rows|] == rows;
  }

  /** What the graphical client reads from a fetched logbook: the titles and, row for row,
      the values of all columns, if and only if no value holds a quote or a separator. */
  lemma {:induction false} FetchedLogbookReadsIff(rows: seq<Record>)
    requires NulFree(Table(COLUMNS, rows))
    ensures QtRows(Header(COLUMNS) + Lines(rows)) == Table(COLUMNS, rows) + [[]]
            <==> PlainRows(Table(COLUMNS, rows))
  {
    hide QtRows, Titles, Lines, JoinRows, PlainRows, NulFree, NonEmptyRows;
    FetchedTextIsJoined(rows);
    JoinedReadsBackIff(Table(COLUMNS, rows));
  }

  /** The rows have one column more than the first line names, so the responder refuses its
      own text: a fetched logbook with a row in it, and nothing to quote, cannot be sent
      back. */
  lemma {:induction false} FetchedLogbookIsRefused(d: Database, s: State, user: string, rows: seq<Record>,
                                                   chance: nat)
    requires rows != [] && PlainRows(Table(COLUMNS, rows))
    ensures var r := AddLog(d, s, user, Header(COLUMNS) + Lines(rows), chance);
            r.1 == BAD_COUNT && r.0.rows == s.rows
  {
    hide CString, Titles, Lines, LogBookRows, JoinRows, PlainRows, AddRows, NonEmptyRows, NulFree;
    FetchedTextIsJoined(rows);
    var table := Table(COLUMNS, rows);
    var text := JoinRows(table);
    PlainIsNulFree(table);
    JoinedReadsBackIff(table);
    JoinedIsNulFree(table);
    var data := LogBookRows(text);
    assert data == table + [[]] && data[0] == table[0] && data[1..][0] == table[1];
    FirstRowRefused(d, s.(record := map[]), user, data[0], data[1..], chance);
  }

  lemma PlainIsNulFree(rows: seq<Row>)
    requires PlainRows(rows)
    ensures NulFree(rows)
  {
    forall i, j | 0 <= i < |rows| && 0 <= j < |rows[i]| ensures All(rows[i][j], NotNul) {
      assert PlainRow(rows[i]);
    }
  }

  lemma {:induction false} JoinedIsNulFree(rows: seq<Row>)
    requires NonEmptyRows(rows) && NulFree(rows)
    ensures All(JoinRows(rows), NotNul) && CString(JoinRows(rows)) == JoinRows(rows)
    decreases |rows|
  {
    hide JoinRow, CString;
    if rows != [] {
      var k := |rows| - 1;
      JoinedIsNulFree(rows[..k]);
      JoinedRowIsNulFree(rows[k]);
      AllConcat(JoinRows(rows[..k]), JoinRow(rows[k]));
    }
  }

  lemma AllConcat(a: string, b: string)
    requires All(a, NotNul) && All(b, NotNul)
    ensures All(a + b, NotNul)
  {
  }

  lemma {:induction false} JoinedRowIsNulFree(row: Row)
    requires row != [] && forall j | 0 <= j < |row| :: All(row[j], NotNul)
    ensures All(JoinRow(row), NotNul)
  {
    hide PrintRow, NotNul;
    var k := |row| - 1;
    RowIsNulFree(row[..k]);
    AllConcat(PrintRow(row[..k]), row[k]);
    assert All("\n", NotNul) by { NewlineIsNotNul(); }
    AllConcat(PrintRow(row[..k]) + row[k], "\n");
  }

  lemma NewlineIsNotNul()
    ensures All("\n", NotNul)
  {
  }

  lemma {:induction false} RowIsNulFree(row: Row)
    requires forall j | 0 <= j < |row| :: All(row[j], NotNul)
    ensures All(PrintRow(row), NotNul)
    decreases |row|
  {
    if row != [] {
      RowIsNulFree(row[1..]);
    }
  }

  lemma {:induction false} FirstRowRefused(d: Database, s: State, user: string, header: Row, data: seq<Row>,
                                           chance: nat)
    requires data != [] && data[0] != [] && |header| != |data[0]|
    ensures AddRows(d, s, user, header, data, chance) == (s, BAD_COUNT)
    decreases |data|
  {
    hide AddRow;
    var k := |data| - 1;
    if k == 0 {
      assert data[..0] == [];
    } else {
      FirstRowRefused(d, s, user, header, data[..k], chance);
    }
  }

  // ---------------------------------------------------------------- removing

  /** The first line of a removal holds the ids themselves. */
  lemma {:induction false} RemoveReads(d: Database, s: State, user: string, rows: seq<Row>, chance: nat)
    requires Clean(s) && rows != [] && NonEmptyRows(rows) && PlainRows(rows)
    ensures var r := Handle(d, s, Request(user, "/logbook/remove", JoinRows(rows), chance));
            Owned(r.0.rows, user) == Without(Owned(s.rows, user), rows[0])
  {
    hide CString, LogBookRows, JoinRows, PlainRows, RemoveIds, Owned, Without, Clean, NonEmptyRows, NulFree;
    PlainIsNulFree(rows);
    JoinedReadsBackIff(rows);
    JoinedIsNulFree(rows);
    RemoveIdsKeepsRest(s, user, rows[0]);
  }

  lemma {:induction false} WithoutAbsentId(rows: seq<Record>, id: string)
    requires forall i | 0 <= i < |rows| :: Get(rows[i], "id") != id
    ensures Without(rows, [id]) == rows
  {
    if rows != [] {
      assert Get(rows[0], "id") != id;
      WithoutAbsentId(rows[1..], id);
    }
  }

  /** The interface promises that a record is removed by a table with an "id" column. Such a
      table removes nothing, while the bare id on a line removes the record. */
  lemma {:induction false} RemovalTakesBareIds(d: Database, s: State, user: string, id: string, chance: nat)
    requires Clean(s) && All(id, IsPlain)
    requires forall i | 0 <= i < |Owned(s.rows, user)| :: Get(Owned(s.rows, user)[i], "id") != "id"
    ensures var r := Handle(d, s, Request(user, "/logbook/remove", "id\n" + id + "\n", chance));
            Owned(r.0.rows, user) == Owned(s.rows, user)
    ensures var r := Handle(d, s, Request(user, "/logbook/remove", id + "\n", chance));
            Owned(r.0.rows, user) == Without(Owned(s.rows, user), [id])
  {
    hide Handle, Owned, Without, Clean;
    var bare, table: seq<Row> := [[id]], [["id"], [id]];
    OneField(id);
    OneField("id");
    OneLineJoined([id]);
    TwoLinesJoined(["id"], [id]);
    assert "id\n" == "id" + "\n";
    ConcatAssoc("id\n", id, "\n");
    RemoveReads(d, s, user, bare, chance);
    RemoveReads(d, s, user, table, chance);
    WithoutAbsentId(Owned(s.rows, user), "id");
  }

  lemma OneLineJoined(a: Row)
    requires a != []
    ensures JoinRows([a]) == JoinRow(a)
  {
    hide JoinRow;
    assert [a][..0] == [] && "" + JoinRow(a) == JoinRow(a);
  }

  lemma TwoLinesJoined(a: Row, b: Row)
    requires a != [] && b != []
    ensures JoinRows([a, b]) == JoinRow(a) + JoinRow(b)
  {
    hide JoinRow;
    assert [a, b][..1] == [a];
    OneLineJoined(a);
  }

  lemma OneField(f: string)
    ensures JoinRow([f]) == f + "\n"
  {
    assert [f][..0] == [];
    assert "" + f == f;
  }
}
