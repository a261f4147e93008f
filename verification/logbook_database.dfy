/** A database under the logbook responder that numbers the rows of all users, as the shared
    table does with its integer primary key. Users who keep to the ids they have cannot tell
    that they share it; users who insert, or write ids, can. */
module LogBookDatabase {
  import opened Chars
  import opened CsvScan
  import opened CsvAgreement
  import opened CsvPrinting
  import opened CsvMerge
  import opened LogBookModel
  import opened LogBookOwnership
  import opened LogBookText

  // ---------------------------------------------------------------- names

  function Lower(name: string): (r: string)
    ensures |r| == |name|
  {
    seq(|name|, i requires 0 <= i < |name| =>
      if 'A' <= name[i] <= 'Z' then (name[i] as int + 32) as char else name[i])
  }

  /** A database that does not mind the case of ASCII letters, as SQLite does not. */
  function FoldCase(name: string): Option<string> {
    if Lower(name) in COLUMNS then Some(Lower(name)) else None
  }

  lemma FoldCaseIsLawful()
    ensures Lawful(FoldCase)
  {
    forall c | c in COLUMNS ensures FoldCase(c) == Some(c) {
      ColumnsAreLower(c);
      assert Lower(c) == c;
    }
  }

  lemma ColumnsAreLower(c: string)
    requires c in COLUMNS
    ensures forall i | 0 <= i < |c| :: !('A' <= c[i] <= 'Z')
  {
  }

  lemma UpperCaseNames()
    ensures FoldCase("ID") == Some("id") && FoldCase("USER_ID") == Some("user_id")
  {
    assert Lower("ID") == "id" == COLUMNS[0];
    assert Lower("USER_ID") == "user_id" == COLUMNS[1];
  }

  // ---------------------------------------------------------------- the numbering database

  /** The value of one of the names that stand for a column. */
  ghost function ValueFor(n: Naming, r: Record, column: string): string
    requires column in Meant(n, r)
  {
    var c :| c in r && n(c) == Some(column);
    r[c]
  }

  ghost function Written(n: Naming, r: Record): Record {
    map k | k in Meant(n, r) :: ValueFor(n, r, k)
  }

  ghost predicate IsId(v: string) {
    exists k: nat :: v == Decimal(k)
  }

  /** The number of a row. */
  ghost function RowNumber(r: Record): nat {
    if All(Get(r, "id"), IsDigit) then Number(Get(r, "id")) else 0
  }

  /** The highest number in the table. */
  ghost function Highest(rows: seq<Record>): nat
    decreases |rows|
  {
    if rows == [] then 0 else
      var k := |rows| - 1;
      if RowNumber(rows[k]) > Highest(rows[..k]) then RowNumber(rows[k]) else Highest(rows[..k])
  }

  /** Some row has the id. */
  ghost predicate Taken(rows: seq<Record>, id: string) {
    exists i :: 0 <= i < |rows| && Get(rows[i], "id") == id
  }

  /** Changing the selected rows to the id would make two rows of one id. */
  ghost predicate Collides(rows: seq<Record>, where: Where, id: string) {
    Select(rows, where) != [] && exists i :: 0 <= i < |rows| && !Matches(rows[i], where) && Get(rows[i], "id") == id
  }

  /** A new row gets the number after the highest one, unless the statement brings an id; an id
      that another row has, or that is no number, is refused. */
  ghost function Decide(n: Naming, rows: seq<Record>, st: Statement): Outcome {
    var w := Written(n, st.record);
    match st
    case Insertion(_) =>
      if "id" in w then Outcome(IsId(w["id"]) && !Taken(rows, w["id"]), w["id"], w)
      else Outcome(true, Decimal(Highest(rows) + 1), w)
    case Change(_, where) =>
      Outcome("id" in w ==> IsId(w["id"]) && !Collides(rows, where, w["id"]), "", w)
  }

  ghost function Numbering(n: Naming): Database {
    Database(n, (t: Moment, rows: seq<Record>, st: Statement) => Decide(n, rows, st))
  }

  /** It gives every row an id, and decides about a user's statements that keep ids by nothing
      in the table: users who only fetch, remove, and change columns other than the id cannot
      tell that they share it. */
  lemma {:induction false} NumberingAgrees(n: Naming, user: string)
    ensures Keyed(Numbering(n)) && Agrees(Numbering(n), user, true)
  {
    hide Highest, Collides, Taken, Owned;
    var d := Numbering(n);
    forall t, rows, st ensures KeepsKey(st, d.decide(t, rows, st)) {
      assert d.decide(t, rows, st) == Decide(n, rows, st);
    }
    forall t, rows, rows', st
      | Owned(rows, user) == Owned(rows', user) && AskedBy(st, user) && KeepsIds(d.column, st)
      ensures d.decide(t, rows, st) == d.decide(t, rows', st)
    {
      assert "id" !in Written(n, st.record);
    }
  }

  /** For them, the others' rows and requests, insertions included, make no difference. */
  lemma {:induction false} SharingIsUnseen(n: Naming, s: State, s': State, qs: seq<Request>, user: string)
    requires Lawful(n) && Alike(s, s', user) && Identified(s.rows)
    requires forall i | 0 <= i < |qs| ::
               if qs[i].user != user then Guarded(n, qs[i]) else InScope(qs[i]) && KeepsAllIds(n, qs[i])
    ensures Seen(Numbering(n), s, qs, user) == Seen(Numbering(n), s', Only(qs, user), user)
  {
    hide Lawful, Alike, Identified, Guarded, InScope, KeepsAllIds, Seen, Only;
    NumberingAgrees(n, user);
    UsersDoNotInterfere(Numbering(n), s, s', qs, user, true);
  }

  /** What is written under names that all stand for columns. */
  lemma WrittenIsWrites(n: Naming, r: Record)
    requires forall c | c in r :: n(c).Some?
    ensures Writes(n, r, Written(n, r))
  {
    var w := Written(n, r);
    forall c | c in r ensures n(c).value in w {
      assert n(c).value in Meant(n, r);
    }
    forall k | k in w ensures exists c :: c in r && n(c) == Some(k) && r[c] == w[k] {
      var c :| c in r && n(c) == Some(k) && r[c] == ValueFor(n, r, k);
    }
  }

  lemma ExactIsWritten(n: Naming, r: Record)
    requires Lawful(n) && forall c | c in r :: c in COLUMNS
    ensures Written(n, r) == r && Writes(n, r, r)
  {
    WrittenIsWrites(n, r);
    var w := Written(n, r);
    assert forall c | c in r :: n(c) == Some(c) && c in w;
    assert forall k | k in w :: k in r && w[k] == r[k];
  }

  lemma OneIsWritten(n: Naming, name: string, column: string, v: string)
    requires n(name) == Some(column)
    ensures Written(n, map[name := v]) == map[column := v] && Writes(n, map[name := v], map[column := v])
  {
    WrittenIsWrites(n, map[name := v]);
    assert column in Meant(n, map[name := v]);
  }

  // ---------------------------------------------------------------- a request of two lines

  function TwoLines(a: string, b: string, x: string, y: string): string {
    a + ";" + b + "\n" + (x + ";" + y + "\n")
  }

  lemma {:induction false} TwoLinesAreRead(a: string, b: string, x: string, y: string)
    requires All(a, IsPlain) && All(b, IsPlain) && All(x, IsPlain) && All(y, IsPlain)
    ensures LogBookRows(CString(TwoLines(a, b, x, y))) == [[a, b], [x, y]] + [[]]
  {
    hide LogBookRows, CString, JoinRow, PlainRows, NulFree, IsPlain;
    var table: seq<Row> := [[a, b], [x, y]];
    TwoFields(a, b);
    TwoFields(x, y);
    TwoLinesJoined(table[0], table[1]);
    assert PlainRows(table) by { SmallTableIsPlain(a, b, x, y); }
    PlainIsNulFree(table);
    JoinedReadsBackIff(table);
    JoinedIsNulFree(table);
  }

  lemma SmallTableIsPlain(a: string, b: string, x: string, y: string)
    requires All(a, IsPlain) && All(b, IsPlain) && All(x, IsPlain) && All(y, IsPlain)
    ensures PlainRows([[a, b], [x, y]])
  {
    hide IsPlain;
  }

  lemma TwoFields(f: string, g: string)
    ensures JoinRow([f, g]) == f + ";" + g + "\n"
  {
    hide PrintRow;
    assert [f, g][..1] == [f] && [f][1..] == [];
    PrintRowCons([f]);
    NothingPrinted();
    assert f + ";" + "" == f + ";";
  }

  /** An add request of two lines handles its one record. */
  lemma {:induction false} OneRecord(d: Database, s: State, user: string, a: string, b: string, x: string, y: string,
                                     chance: nat)
    requires All(a, IsPlain) && All(b, IsPlain) && All(x, IsPlain) && All(y, IsPlain)
    ensures var q := Request(user, "/logbook/add", TwoLines(a, b, x, y), chance);
            var r := AddRow(d, s.(record := map[]), user, [a, b], [x, y], Moment(chance, 0));
            Handle(d, s, q) == (r.0, Some(r.1))
  {
    hide AddRow, LogBookRows, CString, IsPlain, TwoLines;
    TwoLinesAreRead(a, b, x, y);
    var data: seq<Row> := [[a, b], [x, y]] + [[]];
    assert data[0] == [a, b] && data[1..] == [[x, y], []] && [[x, y], []][..1] == [[x, y]];
    OneLine(d, s.(record := map[]), user, [a, b], [x, y], chance);
  }

  lemma AssignTwo(a: string, x: string, b: string, y: string)
    ensures Assign(map[], [a, b], [x, y]) == map[][a := x][b := y]
  {
    assert [a, b][..1] == [a] && [x, y][..1] == [x] && [a][..0] == [] && [x][..0] == [];
    assert Assign(map[], [a], [x]) == map[][a := x];
  }

  // ---------------------------------------------------------------- inserting

  /** An insertion is answered by the highest number in the table, whoever has that row. */
  lemma {:induction false} InsertionIsNumbered(n: Naming, s: State, user: string, call: string, chance: nat)
    requires Lawful(n) && All(call, IsPlain)
    ensures var q := Request(user, "/logbook/add", TwoLines("id", "callsign", "-1", call), chance);
            var (t, reply) := Handle(Numbering(n), s, q);
            var id := Decimal(Highest(s.rows) + 1);
            && reply == Some(Reply(true, id + ";" + user))
            && t.rows == s.rows + [map["user_id" := user, "callsign" := call, "id" := id]]
  {
    hide Handle, TwoLines, Decimal, Highest, AddRow, IsPlain, Lawful;
    ShortWordsArePlain();
    OneRecord(Numbering(n), s, user, "id", "callsign", "-1", call, chance);
    NumberedRow(n, s.(record := map[]), user, call, Moment(chance, 0));
  }

  lemma {:induction false} NumberedRow(n: Naming, s: State, user: string, call: string, t: Moment)
    requires Lawful(n) && s.record == map[]
    ensures var r := AddRow(Numbering(n), s, user, ["id", "callsign"], ["-1", call], t);
            var id := Decimal(Highest(s.rows) + 1);
            && r.1 == Reply(true, id + ";" + user)
            && r.0.rows == s.rows + [map["user_id" := user, "callsign" := call, "id" := id]]
  {
    hide Decimal, Highest, Assign, UpdateRow, InsertRow, Lawful;
    AssignTwo("id", "-1", "callsign", call);
    var record, r: Record := map[]["id" := "-1"]["callsign" := call], map["user_id" := user, "callsign" := call];
    assert (record - {"id"})["user_id" := user] == r;
    NumberedRecord(n, s, user, r, t);
    var id := Decimal(Highest(s.rows) + 1);
    assert r["id" := id] == map["user_id" := user, "callsign" := call, "id" := id];
  }

  lemma NumberedRecord(n: Naming, s: State, user: string, r: Record, t: Moment)
    requires Lawful(n) && r.Keys == {"user_id", "callsign"}
    ensures var u := InsertRow(Numbering(n), s, user, r, t);
            var id := Decimal(Highest(s.rows) + 1);
            u.1 == Reply(true, id + ";" + user) && u.0.rows == s.rows + [r["id" := id]]
  {
    hide Decimal, Highest, Lawful, Written, Writes;
    assert "callsign" in r.Keys && "id" !in r.Keys;
    assert Written(n, r) == r && Writes(n, r, r) by {
      SomeColumns();
      ExactIsWritten(n, r);
    }
    assert Decide(n, s.rows, Insertion(r)) == Outcome(true, Decimal(Highest(s.rows) + 1), r);
  }

  lemma SomeColumns()
    ensures "user_id" in COLUMNS && "callsign" in COLUMNS
  {
    assert "callsign" == COLUMNS[4] && "user_id" == COLUMNS[1];
  }

  lemma ShortWordsArePlain()
    ensures All("id", IsPlain) && All("ID", IsPlain) && All("callsign", IsPlain) && All("-1", IsPlain)
    ensures All("USER_ID", IsPlain) && All("12", IsPlain) && All("7", IsPlain)
  {
  }

  lemma DecimalIsInjective(i: nat, j: nat)
    requires Decimal(i) == Decimal(j)
    ensures i == j
  {
    NumberOfDecimal(i);
    NumberOfDecimal(j);
  }

  /** Two tables answer an insertion alike if and only if their highest numbers are the same,
      which rows of other users decide as much as the user's own. */
  lemma {:induction false} InsertionAnswersIff(n: Naming, s: State, s': State, user: string, call: string, chance: nat)
    requires Lawful(n) && All(call, IsPlain)
    ensures var q := Request(user, "/logbook/add", TwoLines("id", "callsign", "-1", call), chance);
            Handle(Numbering(n), s, q).1 == Handle(Numbering(n), s', q).1 <==> Highest(s.rows) == Highest(s'.rows)
  {
    hide Handle, TwoLines, Decimal, Highest, Lawful, IsPlain;
    InsertionIsNumbered(n, s, user, call, chance);
    InsertionIsNumbered(n, s', user, call, chance);
    var (i, j) := (Highest(s.rows) + 1, Highest(s'.rows) + 1);
    if Decimal(i) + ";" + user == Decimal(j) + ";" + user {
      ConcatAssoc(Decimal(i), ";", user);
      ConcatAssoc(Decimal(j), ";", user);
      SameFront(Decimal(i), Decimal(j), ";" + user);
      DecimalIsInjective(i, j);
    }
  }

  lemma SameFront(a: string, b: string, c: string)
    requires a + c == b + c
    ensures a == b
  {
    assert a == (a + c)[..|a|] && b == (b + c)[..|b|];
  }

  /** Two users insert into an empty logbook, user 7 first: user 5 is answered "2;5", and would
      be answered "1;5" had user 7 sent nothing. */
  lemma {:induction false} InsertionsInterfere(n: Naming, s: State, call: string, chance: nat)
    requires Lawful(n) && Clean(s) && s.rows == [] && All(call, IsPlain)
    ensures var d, text := Numbering(n), TwoLines("id", "callsign", "-1", call);
            var (q7, q5) := (Request("7", "/logbook/add", text, chance), Request("5", "/logbook/add", text, chance));
            && Seen(d, s, [q7, q5], "5") == [Some(Reply(true, "2;5"))]
            && Seen(d, s, Only([q7, q5], "5"), "5") == [Some(Reply(true, "1;5"))]
  {
    hide Handle, TwoLines, Decimal, Highest, Lawful, IsPlain, Clean;
    var d, text := Numbering(n), TwoLines("id", "callsign", "-1", call);
    var (q7, q5) := (Request("7", "/logbook/add", text, chance), Request("5", "/logbook/add", text, chance));
    var t := Handle(d, s, q7).0;
    InsertionIsNumbered(n, s, "7", call, chance);
    InsertionIsNumbered(n, s, "5", call, chance);
    InsertionIsNumbered(n, t, "5", call, chance);
    FirstNumbers(call);
    assert s.rows + [map["user_id" := "7", "callsign" := call, "id" := "1"]]
        == [map["user_id" := "7", "callsign" := call, "id" := "1"]];
    AfterAnother(d, s, q7, q5);
    assert "1" + ";" + "5" == "1;5" && "2" + ";" + "5" == "2;5";
  }

  lemma AfterAnother(d: Database, s: State, q: Request, p: Request)
    requires q.user != p.user
    ensures Seen(d, s, [q, p], p.user) == [Handle(d, Handle(d, s, q).0, p).1]
    ensures Seen(d, s, Only([q, p], p.user), p.user) == [Handle(d, s, p).1]
  {
    hide Handle;
    assert [q, p][..1] == [q] && [q][..0] == [] && [p][..0] == [];
    assert Only([q], p.user) == [] && Only([q, p], p.user) == Only([q, p][..1], p.user) + [p];
    assert [] + [p] == [p];
    assert After(d, s, [q]) == Handle(d, s, q).0 && After(d, s, []) == s;
    assert Seen(d, s, [q], p.user) == [] + [] && Seen(d, s, [], p.user) == [];
  }

  lemma FirstNumbers(call: string)
    ensures Decimal(1) == "1" && Decimal(2) == "2" && Highest([]) == 0
    ensures Highest([map["user_id" := "7", "callsign" := call, "id" := "1"]]) == 1
  {
    var r: Record := map["user_id" := "7", "callsign" := call, "id" := "1"];
    assert [r][..0] == [] && "1"[..0] == "";
    assert Number("1") == Number("") * 10 + 1;
    assert RowNumber(r) == 1;
  }

  // ---------------------------------------------------------------- changing an id

  /** A user who gives the row of one number another is refused if and only if the user has
      such a row and anybody has a row of the other number. */
  lemma {:induction false} NewIdIsRefusedIff(s: State, user: string, i: nat, j: nat, chance: nat)
    requires Clean(s) && i != j
    ensures var q := Request(user, "/logbook/add", TwoLines("id", "ID", Decimal(i), Decimal(j)), chance);
            var reply := Handle(Numbering(FoldCase), s, q).1;
            var mine: Where := map["user_id" := user, "id" := Decimal(i)];
            reply == Some(if Select(s.rows, mine) != [] && Taken(s.rows, Decimal(j)) then BAD_DATA
                          else Reply(true, Decimal(i) + ";" + user))
  {
    hide Handle, TwoLines, Decimal, Assign, FoldCase, Written, Writes, IsPlain, Clean, Select, Matches;
    ShortWordsArePlain();
    DecimalIsPlain(i);
    DecimalIsPlain(j);
    var d := Numbering(FoldCase);
    OneRecord(d, s, user, "id", "ID", Decimal(i), Decimal(j), chance);
    AssignTwo("id", Decimal(i), "ID", Decimal(j));
    var r: Record := map["ID" := Decimal(j)];
    assert map[]["id" := Decimal(i)]["ID" := Decimal(j)] - {"user_id", "id"} == r;
    assert r != map[] by { assert "ID" in r; }
    UpperCaseNames();
    OneIsWritten(FoldCase, "ID", "id", Decimal(j));
    var mine: Where := map["user_id" := user, "id" := Decimal(i)];
    assert s.addLog["user_id" := user]["id" := Decimal(i)] == mine by { CleanLog(s, user, Decimal(i)); }
    CollidesIff(s.rows, user, i, j);
  }

  lemma DecimalIsPlain(i: nat)
    ensures All(Decimal(i), IsPlain) && Decimal(i) != "-1"
  {
    assert !IsDigit("-1"[0]);
  }

  lemma CleanLog(s: State, user: string, id: string)
    requires Clean(s)
    ensures s.addLog["user_id" := user]["id" := id] == map["user_id" := user, "id" := id]
  {
    CleanWhere(s.addLog, user, id);
  }

  lemma CollidesIff(rows: seq<Record>, user: string, i: nat, j: nat)
    requires i != j
    ensures var mine: Where := map["user_id" := user, "id" := Decimal(i)];
            Collides(rows, mine, Decimal(j)) <==> Select(rows, mine) != [] && Taken(rows, Decimal(j))
  {
    hide Select, Matches, Decimal;
    var mine: Where := map["user_id" := user, "id" := Decimal(i)];
    forall k | 0 <= k < |rows| && Get(rows[k], "id") == Decimal(j) ensures !Matches(rows[k], mine) {
      MatchesBoth(rows[k], user, Decimal(i));
      if Decimal(i) == Decimal(j) {
        DecimalIsInjective(i, j);
      }
    }
  }

  // ---------------------------------------------------------------- the owner column

  /** User 5 gives row 12 to user 7 with one add request, which is answered as any other; the
      row is in user 7's next fetch. */
  lemma {:induction false} OwnerIsRenamed(s: State, call: string, chance: nat)
    requires Clean(s) && s.rows == [map["id" := "12", "user_id" := "5", "callsign" := call]]
    ensures var q := Request("5", "/logbook/add", "id;USER_ID\n12;7\n", chance);
            var (t, reply) := Handle(Numbering(FoldCase), s, q);
            && reply == Some(Reply(true, "12;5"))
            && Owned(s.rows, "7") == [] && Owned(t.rows, "5") == []
            && Owned(t.rows, "7") == [map["id" := "12", "user_id" := "7", "callsign" := call]]
  {
    hide Handle, AddRow, IsPlain, Clean, Owned;
    ShortWordsArePlain();
    assert "id;USER_ID\n12;7\n" == TwoLines("id", "USER_ID", "12", "7");
    OneRecord(Numbering(FoldCase), s, "5", "id", "USER_ID", "12", "7", chance);
    var w: Record := map["user_id" := "7"];
    CleanLog(s, "5", "12");
    RenamingRow(s.(record := map[]), Moment(chance, 0));
    assert s.rows[0] + w == map["id" := "12", "user_id" := "7", "callsign" := call];
    OwnedOne(s.rows[0], "7");
    OwnedOne(s.rows[0] + w, "7");
    OwnedOne(s.rows[0] + w, "5");
  }

  lemma {:induction false} RenamingRow(s: State, t: Moment)
    requires s.record == map[] && |s.rows| == 1 && OwnedBy(s.rows[0], "5") && Get(s.rows[0], "id") == "12"
    requires s.addLog["user_id" := "5"]["id" := "12"] == map["user_id" := "5", "id" := "12"]
    ensures var r := AddRow(Numbering(FoldCase), s, "5", ["id", "USER_ID"], ["12", "7"], t);
            r.1 == Reply(true, "12;5") && r.0.rows == [s.rows[0] + map["user_id" := "7"]]
  {
    hide Assign, FoldCase, Written, Writes, Update, InsertRow;
    AssignTwo("id", "12", "USER_ID", "7");
    var r, w: Record := map["USER_ID" := "7"], map["user_id" := "7"];
    assert map[]["id" := "12"]["USER_ID" := "7"] - {"user_id", "id"} == r;
    assert "USER_ID" in r;
    UpperCaseNames();
    OneIsWritten(FoldCase, "USER_ID", "user_id", "7");
    OnlyRowChanges(s.rows[0], w, "5", "12");
    assert s.rows == [s.rows[0]] && "12" + ";" + "5" == "12;5";
  }
}
