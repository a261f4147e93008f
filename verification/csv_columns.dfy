/** The column merge: joining two tables row by row, and what stays true of the columns
    when merges are folded over many tables. */
module CsvColumns {
  import opened Chars
  import opened CsvScan
  import opened CsvParse
  import opened CsvAgreement
  import opened CsvPrinting
  import opened CsvMerge

  /** The rows of `b` are added to those of `a` as far as both go; `b`'s other rows are lost. */
  function MergeRows(a: seq<Row>, b: seq<Row>): (r: seq<Row>)
    ensures |r| == |a|
  {
    seq(|a|, i requires 0 <= i < |a| => if i < |b| then a[i] + b[i] else a[i])
  }

  function Merge(first: string, second: string, memory1: string, memory2: string): Option<string> {
    var a, b := CsvRows(first, memory1), CsvRows(second, memory2);
    if a.None? || b.None? then None else Some(PrintRows(MergeRows(a.value, b.value)))
  }

  /** Merging in place. `field` is the stack memory that both tokenizer calls use for their
      buffer. */
  method HamCsvMerge(first: string, second: string, field: array<char>) returns (csv: Option<string>)
    requires All(first, NotNul) && All(second, NotNul) && field.Length == FIELD_SIZE
    modifies field
    ensures exists memory: string :: |memory| == FIELD_SIZE && csv == Merge(first, second, old(field[..]), memory)
  {
    hide CsvRows, PrintRows, All;
    var firstLines := HamCsvParse(first, field);
    ghost var memory := field[..];
    var secondLines := HamCsvParse(second, field);
    ghost var result := Merge(first, second, old(field[..]), memory);
    if firstLines.None? || secondLines.None? {
      assert |memory| == FIELD_SIZE && None == result;
      return None;
    }
    var parsed, lines := firstLines.value, secondLines.value;
    var i := 0;
    while i < |parsed| && i < |lines|
      invariant 0 <= i <= |parsed| == |firstLines.value| && i <= |lines|
      invariant parsed == MergeRows(firstLines.value, lines[..i])
    {
      ghost var before := parsed;
      var j := 0;
      assert lines[i][..0] == [] && before[i] + [] == before[i];
      while j < |lines[i]|
        invariant 0 <= j <= |lines[i]| && |parsed| == |before|
        invariant parsed == before[i := before[i] + lines[i][..j]]
      {
        assert before[i] + lines[i][..j] + [lines[i][j]] == before[i] + lines[i][..j + 1];
        parsed := parsed[i := parsed[i] + [lines[i][j]]];
        j := j + 1;
      }
      assert lines[i][..j] == lines[i];
      i := i + 1;
      assert parsed == MergeRows(firstLines.value, lines[..i]);
    }
    assert parsed == MergeRows(firstLines.value, lines);
    var res := CsvFromList(parsed);
    csv := Some(res[..res.Length - 1]);
    assert res[..res.Length - 1] == PrintRows(parsed);
    assert |memory| == FIELD_SIZE && csv == result;
  }

  ghost predicate NulFreeRow(row: Row) {
    forall j | 0 <= j < |row| :: All(row[j], NotNul)
  }

  ghost predicate NulFreeScan(t: Scan) {
    All(t.field, NotNul) && NulFreeRow(t.line) && forall i | 0 <= i < |t.rows| :: NulFreeRow(t.rows[i])
  }

  lemma {:induction false} ScanIsNulFree(t: Scan, s: string)
    requires NulFreeScan(t) && All(s, NotNul)
    ensures NulFreeScan(ScanText(t, s))
    decreases |s|
  {
    if s != "" {
      assert NulFreeScan(t.Step(s[0])) by { hide ScanText; }
      hide Scan.Step, NulFreeScan;
      ScanIsNulFree(t.Step(s[0]), s[1..]);
    }
  }

  lemma {:induction false} ParsedIsNulFree(s: string, memory: string)
    requires All(s, NotNul) && CsvRows(s, memory).Some?
    ensures forall i | 0 <= i < |CsvRows(s, memory).value| :: NulFreeRow(CsvRows(s, memory).value[i])
  {
    hide BufferText, ScanText;
    BufferRunsScan(Buffered(START, memory), s);
    ScanIsNulFree(START, s);
  }

  lemma {:induction false} PrintedRowIsNulFree(row: Row)
    requires NulFreeRow(row)
    ensures All(PrintRow(row), NotNul)
    decreases |row|
  {
    if row != [] {
      PrintedRowIsNulFree(row[1..]);
    }
  }

  lemma {:induction false} PrintedIsNulFree(rows: seq<Row>)
    requires forall i | 0 <= i < |rows| :: NulFreeRow(rows[i])
    ensures All(PrintRows(rows), NotNul)
    decreases |rows|
  {
    hide PrintRow, NulFreeRow;
    if rows != [] {
      PrintedRowIsNulFree(rows[0]);
      PrintedIsNulFree(rows[1..]);
    }
  }

  /** What a merge gives is a C string again. */
  lemma {:induction false} MergeIsNulFree(first: string, second: string, memory1: string, memory2: string)
    requires All(first, NotNul) && All(second, NotNul)
    ensures var r := Merge(first, second, memory1, memory2); r.Some? ==> All(r.value, NotNul)
  {
    hide CsvRows, PrintRows, All;
    var a, b := CsvRows(first, memory1), CsvRows(second, memory2);
    if a.Some? && b.Some? {
      ParsedIsNulFree(first, memory1);
      ParsedIsNulFree(second, memory2);
      PrintedIsNulFree(MergeRows(a.value, b.value));
    }
  }

  // ---------------------------------------------------------------- texts that are tables

  /** The text reads as these rows whatever is in the client's buffer, and printing the rows
      unquoted is safe. */
  ghost predicate Table(s: string, rows: seq<Row>) {
    && rows != [] && PlainRows(rows) && TableFits(rows, FIELD_SIZE)
    && forall memory: string | |memory| == FIELD_SIZE :: CsvRows(s, memory) == Some(rows)
  }

  /** What a server can send: lines without quotes, the last one ended, that fit a reply. */
  ghost predicate PlainText(s: string) {
    s != "" && All(s, NotNul) && '"' !in s && IsNewline(s[|s| - 1]) && |s| < FIELD_SIZE
  }

  ghost predicate PlainScan(t: Scan, size: nat) {
    && t.mode == Open && All(t.field, IsPlain) && |t.field| <= size
    && PlainRow(t.line) && FieldsFit(t.line, size + 1) && PlainRows(t.rows) && TableFits(t.rows, size + 1)
  }

  lemma {:induction false} StepIsPlain(t: Scan, c: char, size: nat)
    requires PlainScan(t, size) && c != '"' && c != '\0'
    ensures PlainScan(t.Step(c), size + 1)
  {
  }

  lemma {:induction false} PrefixIsPlain(s: string, i: nat)
    requires i <= |s| && All(s, NotNul) && '"' !in s
    ensures PlainScan(ScanText(START, s[..i]), i)
    decreases i
  {
    if i > 0 {
      hide ScanText, Scan.Step, PlainScan;
      PrefixIsPlain(s, i - 1);
      ScanNext(START, s, i - 1);
      assert NotNul(s[i - 1]) && s[i - 1] in s;
      StepIsPlain(ScanText(START, s[..i - 1]), s[i - 1], i - 1);
    }
  }

  lemma {:induction false} PlainTextIsTable(s: string)
    requires PlainText(s)
    ensures Table(s, ScanText(START, s).rows)
  {
    hide ScanText, CsvRows, PlainRows, PlainRow, FieldsFit, IsPlain;
    forall i | 0 <= i <= |s| ensures |ScanText(START, s[..i]).field| < FIELD_SIZE {
      PrefixIsPlain(s, i);
    }
    var k := |s| - 1;
    PrefixIsPlain(s, k);
    PrefixIsPlain(s, |s|);
    assert s[..|s|] == s;
    QuotedIffOdd(s[..k]);
    assert EndsInNewline(s);
    ScanNext(START, s, k);
    forall memory: string | |memory| == FIELD_SIZE ensures CsvRows(s, memory) == Some(ScanText(START, s).rows) {
      NewlineEndedTextsAgree(s, memory);
    }
    Looser(ScanText(START, s).rows, |s| + 1);
  }

  lemma Looser(rows: seq<Row>, size: nat)
    requires TableFits(rows, size) && size <= FIELD_SIZE
    ensures TableFits(rows, FIELD_SIZE)
  {
  }

  lemma {:induction false} MergedRowsArePlain(a: seq<Row>, b: seq<Row>)
    requires PlainRows(a) && PlainRows(b) && TableFits(a, FIELD_SIZE) && TableFits(b, FIELD_SIZE)
    ensures PlainRows(MergeRows(a, b)) && TableFits(MergeRows(a, b), FIELD_SIZE)
    ensures PlainRows(Widen(MergeRows(a, b))) && TableFits(Widen(MergeRows(a, b)), FIELD_SIZE)
  {
    hide IsPlain;
    var m := MergeRows(a, b);
    forall i | 0 <= i < |m| ensures PlainRow(m[i]) && FieldsFit(m[i], FIELD_SIZE) {
      assert PlainRow(a[i]) && FieldsFit(a[i], FIELD_SIZE);
      if i < |b| {
        assert PlainRow(b[i]) && FieldsFit(b[i], FIELD_SIZE);
      }
    }
    forall i | 0 <= i < |m| ensures PlainRow(Widen(m)[i]) && FieldsFit(Widen(m)[i], FIELD_SIZE) {
    }
  }

  /** Merging two tables gives a table again: reading the merge back gives row i of both
      tables and one empty field as far as both go, and after that row i of the first and one
      empty field. */
  lemma {:induction false} MergeIsTable(first: string, a: seq<Row>, second: string, b: seq<Row>,
                                        memory1: string, memory2: string)
    requires Table(first, a) && Table(second, b) && |memory1| == |memory2| == FIELD_SIZE
    ensures var r := Merge(first, second, memory1, memory2);
            && r == Some(PrintRows(MergeRows(a, b)))
            && Table(r.value, Widen(MergeRows(a, b)))
  {
    hide CsvRows, PrintRows, PlainRows, TableFits, MergeRows, Widen;
    MergedRowsArePlain(a, b);
    assert CsvRows(first, memory1) == Some(a) && CsvRows(second, memory2) == Some(b);
    forall memory: string | |memory| == FIELD_SIZE
      ensures CsvRows(PrintRows(MergeRows(a, b)), memory) == Some(Widen(MergeRows(a, b)))
    {
      PlainReadsBack(MergeRows(a, b), memory);
    }
    assert |MergeRows(a, b)| == |a| && |Widen(MergeRows(a, b))| == |a|;
  }

  // ---------------------------------------------------------------- folding

  /** The rows that the left fold of merges over these tables reads back as. */
  function Gather(tables: seq<seq<Row>>): seq<Row>
    requires tables != []
    decreases |tables|
  {
    var k := |tables| - 1;
    if k == 0 then tables[0] else Widen(MergeRows(Gather(tables[..k]), tables[k]))
  }

  /** First position of a header, or the length of the row. */
  function Column(row: Row, name: string): (j: nat)
    ensures j <= |row| && (j < |row| <==> name in row)
    ensures j < |row| ==> row[j] == name
  {
    if row == [] || row[0] == name then 0 else
      assert row == [row[0]] + row[1..];
      1 + Column(row[1..], name)
  }

  /** What stands under a header in row `i`. */
  function ValueUnder(rows: seq<Row>, name: string, i: nat): Option<string> {
    if i >= |rows| then None else
      var j := Column(rows[0], name);
      if j < |rows[0]| && j < |rows[i]| then Some(rows[i][j]) else None
  }

  ghost predicate RowMatchesHeader(rows: seq<Row>, i: nat) {
    i < |rows| && |rows[i]| == |rows[0]|
  }

  /** What stands under the header in the first table that has it. */
  function FirstValue(tables: seq<seq<Row>>, name: string, i: nat): Option<string>
    decreases |tables|
  {
    if tables == [] then None else
      var k := |tables| - 1;
      var earlier := FirstValue(tables[..k], name, i);
      if earlier != None then earlier else ValueUnder(tables[k], name, i)
  }

  lemma {:induction false} ColumnOfConcat(a: Row, b: Row, name: string)
    ensures Column(a + b, name) == if name in a then Column(a, name) else |a| + Column(b, name)
  {
    if a == [] {
      assert a + b == b;
    } else {
      assert (a + b)[1..] == a[1..] + b && a == [a[0]] + a[1..];
      ColumnOfConcat(a[1..], b, name);
    }
  }

  lemma {:induction false} MergedValue(a: seq<Row>, b: seq<Row>, name: string, i: nat)
    requires RowMatchesHeader(a, i) && RowMatchesHeader(b, i) && name != ""
    ensures var r := Widen(MergeRows(a, b));
            && RowMatchesHeader(r, i)
            && ValueUnder(r, name, i) == if name in a[0] then ValueUnder(a, name, i) else ValueUnder(b, name, i)
  {
    var r := Widen(MergeRows(a, b));
    assert r[0] == a[0] + b[0] + [""] && r[i] == a[i] + b[i] + [""];
    hide Column, Widen, MergeRows;
    ColumnOfConcat(a[0] + b[0], [""], name);
    ColumnOfConcat(a[0], b[0], name);
  }

  /** Columns stay aligned under any number of folded merges: in a row that all the tables
      have, as long as their headers, what stands under a header is what stood under it in
      the first table that has it. */
  lemma {:induction false} GatherKeepsColumns(tables: seq<seq<Row>>, name: string, i: nat)
    requires tables != [] && name != "" && forall k | 0 <= k < |tables| :: RowMatchesHeader(tables[k], i)
    ensures RowMatchesHeader(Gather(tables), i)
    ensures ValueUnder(Gather(tables), name, i) == FirstValue(tables, name, i)
    decreases |tables|
  {
    hide *;
    var k := |tables| - 1;
    var before, last := tables[..k], tables[k];
    assert RowMatchesHeader(last, i);
    FoldsUnfold(tables, name, i);
    if k > 0 {
      assert forall l | 0 <= l < k :: before[l] == tables[l];
      GatherKeepsColumns(before, name, i);
      MergedValue(Gather(before), last, name, i);
      ValueIffHeader(Gather(before), name, i);
    }
  }

  lemma FoldsUnfold(tables: seq<seq<Row>>, name: string, i: nat)
    requires tables != []
    ensures var k := |tables| - 1;
            var before := FirstValue(tables[..k], name, i);
            && FirstValue(tables, name, i) == (if before != None then before else ValueUnder(tables[k], name, i))
            && (if k == 0 then Gather(tables) == tables[0] && before == None
                else Gather(tables) == Widen(MergeRows(Gather(tables[..k]), tables[k])))
  {
    hide Widen, MergeRows, ValueUnder;
    assert tables[..0] == [];
  }

  lemma ValueIffHeader(rows: seq<Row>, name: string, i: nat)
    requires RowMatchesHeader(rows, i)
    ensures ValueUnder(rows, name, i) != None <==> name in rows[0]
  {
  }
}
