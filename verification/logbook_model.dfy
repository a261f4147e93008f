/** The logbook responder over an abstract database: what each request does, and what a user
    who shares the responder can tell of the others. */
module LogBookModel {
  import opened Chars
  import opened CsvScan

  /** One row of the table: a value for each column that is not NULL. */
  type Record = map<string, string>

  /** The conjunction of conditions of a query, column by column. */
  type Where = map<string, string>

  const COLUMNS := ["id", "user_id", "qsodate", "time_on", "callsign", "freq", "mode", "qth", "name", "loc",
                    "latitude", "longitude", "county", "continent", "itu", "cq", "rst_rx", "rst_tx", "qsl",
                    "qsl_sent", "qsl_received", "qsl_via", "comments"]

  /** Column names as a first line. */
  function Titles(columns: seq<string>): string {
    if columns == [] then ""
    else if |columns| == 1 then columns[0]
    else columns[0] + ";" + Titles(columns[1..])
  }

  /** The first line names all columns but the last, "comments". */
  function Header(columns: seq<string>): string
    requires columns != []
  {
    Titles(columns[..|columns| - 1]) + "\n"
  }

  // ---------------------------------------------------------------- the database

  predicate Matches(r: Record, where: Where) {
    forall c | c in where :: c in r && r[c] == where[c]
  }

  function Select(rows: seq<Record>, where: Where): seq<Record> {
    if rows == [] then [] else
      (if Matches(rows[0], where) then [rows[0]] else []) + Select(rows[1..], where)
  }

  function Update(rows: seq<Record>, record: Record, where: Where): seq<Record> {
    if rows == [] then [] else
      [if Matches(rows[0], where) then rows[0] + record else rows[0]] + Update(rows[1..], record, where)
  }

  function Remove(rows: seq<Record>, where: Where): seq<Record> {
    if rows == [] then [] else
      (if Matches(rows[0], where) then [] else [rows[0]]) + Remove(rows[1..], where)
  }

  /** The column that the database takes a name for, if any. It need not go by the exact
      spelling; which spellings it accepts is left open. */
  type Naming = string -> Option<string>

  /** Every column answers to its own name, and names stand for columns only. */
  ghost predicate Lawful(n: Naming) {
    && (forall c | c in COLUMNS :: n(c) == Some(c))
    && (forall name :: n(name).Some? ==> n(name).value in COLUMNS)
  }

  /** What the responder asks the database to write. */
  datatype Statement = Insertion(record: Record) | Change(record: Record, where: Where)

  /** What the database decides about a statement: whether it accepts the values, the id it
      gives to a new row, and what it writes into each column. */
  datatype Outcome = Outcome(ok: bool, newId: string, written: Record)

  /** Whatever else than the table a decision may depend on: `chance` is arbitrary, `line` is
      the line of the request. */
  datatype Moment = Moment(chance: nat, line: nat)

  /** The database decides by the table that all users share and by the statement. */
  type Decision = (Moment, seq<Record>, Statement) -> Outcome

  datatype Database = Database(column: Naming, decide: Decision)

  /** The columns written are those that the record's names stand for, each with the value of
      such a name; which one, when there are several, is up to the database. */
  predicate Writes(n: Naming, record: Record, w: Record) {
    && (forall c | c in record :: n(c).Some? && n(c).value in w)
    && (forall k | k in w :: exists c :: c in record && n(c) == Some(k) && record[c] == w[k])
  }

  /** A statement without columns or with an unknown one is malformed. */
  predicate Accepted(n: Naming, record: Record, o: Outcome) {
    record != map[] && o.ok && Writes(n, record, o.written)
  }

  // ---------------------------------------------------------------- the responder

  datatype State = State(rows: seq<Record>, record: Record, getLogs: Where, addLog: Where, removeLog: Where)

  datatype Reply = Reply(ok: bool, content: string)

  datatype Request = Request(user: string, uri: string, content: string, chance: nat)

  function Get(record: Record, column: string): string {
    if column in record then record[column] else ""
  }

  function Join(r: Record, columns: seq<string>): string {
    if columns == [] then ""
    else if |columns| == 1 then Get(r, columns[0])
    else Get(r, columns[0]) + ";" + Join(r, columns[1..])
  }

  function Entry(r: Record): string {
    Join(r, COLUMNS) + "\n"
  }

  function Lines(rows: seq<Record>): string {
    if rows == [] then "" else
      var k := |rows| - 1;
      Lines(rows[..k]) + Entry(rows[k])
  }

  function SendLogs(s: State, user: string): (State, Reply) {
    var where := s.getLogs["user_id" := user];
    (s.(getLogs := map[]), Reply(true, Header(COLUMNS) + Lines(Select(s.rows, where))))
  }

  /** The record after the fields of one line are put into it under their headers. */
  function Assign(record: Record, header: Row, row: Row): Record
    requires |header| == |row|
    decreases |row|
  {
    if row == [] then record else
      var k := |row| - 1;
      Assign(record, header[..k], row[..k])[header[k] := row[k]]
  }

  const BAD_COUNT := Reply(false, "Bad column count.")
  const BAD_DATA := Reply(false, "Bad input data or database error.")

  /** A new row; its id is the database's, unless a name stands for the id column. */
  function NewRow(o: Outcome): Record {
    if "id" in o.written then o.written else o.written["id" := o.newId]
  }

  function InsertRow(d: Database, s: State, user: string, r: Record, t: Moment): (State, Reply) {
    var o := d.decide(t, s.rows, Insertion(r));
    if Accepted(d.column, r, o) then
      (s.(record := r, rows := s.rows + [NewRow(o)]), Reply(true, o.newId + ";" + user))
    else (s.(record := r), BAD_DATA)
  }

  function UpdateRow(d: Database, s: State, user: string, id: string, r: Record, t: Moment): (State, Reply) {
    var where := s.addLog["user_id" := user]["id" := id];
    var o := d.decide(t, s.rows, Change(r, where));
    if Accepted(d.column, r, o) then
      (s.(record := r, addLog := where, rows := Update(s.rows, o.written, where)), Reply(true, id + ";" + user))
    else (s.(record := r, addLog := where), BAD_DATA)
  }

  /** One line of an add request: id "-1" inserts, anything else updates. Only the exact
      spellings of id and owner are set aside. */
  function AddRow(d: Database, s: State, user: string, header: Row, row: Row, t: Moment): (State, Reply)
    requires |header| == |row|
  {
    var record := Assign(s.record, header, row);
    if Get(record, "id") == "-1" then InsertRow(d, s, user, (record - {"id"})["user_id" := user], t)
    else UpdateRow(d, s, user, Get(record, "id"), record - {"user_id", "id"}, t)
  }

  /** The lines of an add request up to the first bad one; empty lines are skipped. */
  function AddRows(d: Database, s: State, user: string, header: Row, data: seq<Row>, chance: nat): (State, Reply)
    decreases |data|
  {
    if data == [] then (s, Reply(true, "")) else
      var k := |data| - 1;
      var before := AddRows(d, s, user, header, data[..k], chance);
      if !before.1.ok || data[k] == [] then before
      else if |header| != |data[k]| then (before.0, BAD_COUNT)
      else AddRow(d, before.0, user, header, data[k], Moment(chance, k))
  }

  function AddLog(d: Database, s: State, user: string, content: string, chance: nat): (State, Reply) {
    var data := LogBookRows(CString(content));
    AddRows(d, s.(record := map[]), user, data[0], data[1..], chance)
  }

  function RemoveId(s: State, user: string, id: string): State {
    var where := s.removeLog["id" := id]["user_id" := user];
    s.(removeLog := where, rows := Remove(s.rows, where))
  }

  function RemoveIds(s: State, user: string, ids: Row): State
    decreases |ids|
  {
    if ids == [] then s else
      var k := |ids| - 1;
      RemoveId(RemoveIds(s, user, ids[..k]), user, ids[k])
  }

  const CALL := "/logbook/call/"

  /** No reply means that the responder does not handle the URI. */
  function Handle(d: Database, s: State, q: Request): (State, Option<Reply>) {
    if q.uri == "/logbook" then
      var r := SendLogs(s, q.user); (r.0, Some(r.1))
    else if q.uri == "/logbook/add" then
      var r := AddLog(d, s, q.user, q.content, q.chance); (r.0, Some(r.1))
    else if q.uri == "/logbook/remove" then
      (RemoveIds(s, q.user, LogBookRows(CString(q.content))[0]), Some(Reply(true, "Removed.")))
    else if CALL <= q.uri then
      var r := SendLogs(s.(getLogs := s.getLogs["callsign" := q.uri[|CALL|..]]), q.user); (r.0, Some(r.1))
    else (s, None)
  }

  // ---------------------------------------------------------------- ownership

  function Owned(rows: seq<Record>, user: string): seq<Record> {
    Select(rows, map["user_id" := user])
  }

  predicate OwnedBy(r: Record, user: string) {
    "user_id" in r && r["user_id"] == user
  }

  /** Between requests the responder's queries hold no filter but those that the next query
      overwrites. */
  ghost predicate Clean(s: State) {
    && s.getLogs == map[]
    && (forall c | c in s.addLog :: c == "user_id" || c == "id")
    && (forall c | c in s.removeLog :: c == "user_id" || c == "id")
  }

  lemma OwnedCons(r: Record, rows: seq<Record>, user: string)
    ensures Owned([r] + rows, user) == if OwnedBy(r, user) then [r] + Owned(rows, user) else Owned(rows, user)
  {
    assert ([r] + rows)[1..] == rows;
    assert [] + Owned(rows, user) == Owned(rows, user);
    assert Matches(r, map["user_id" := user]) <==> OwnedBy(r, user);
  }

  lemma {:induction false} OwnedSnoc(rows: seq<Record>, r: Record, user: string)
    ensures Owned(rows + [r], user) == Owned(rows, user) + if OwnedBy(r, user) then [r] else []
    decreases |rows|
  {
    if rows == [] {
      OwnedCons(r, [], user);
      assert rows + [r] == [r] + [];
    } else {
      hide Owned, OwnedBy;
      OwnedCons(rows[0], rows[1..] + [r], user);
      OwnedCons(rows[0], rows[1..], user);
      assert rows + [r] == [rows[0]] + (rows[1..] + [r]) && rows == [rows[0]] + rows[1..];
      OwnedSnoc(rows[1..], r, user);
    }
  }

  lemma SelectCons(r: Record, rows: seq<Record>, where: Where)
    ensures Select([r] + rows, where) == if Matches(r, where) then [r] + Select(rows, where) else Select(rows, where)
    ensures Remove([r] + rows, where) == if Matches(r, where) then Remove(rows, where) else [r] + Remove(rows, where)
  {
    assert ([r] + rows)[1..] == rows;
    assert [] + Select(rows, where) == Select(rows, where) && [] + Remove(rows, where) == Remove(rows, where);
  }

  lemma UpdateCons(r: Record, rows: seq<Record>, record: Record, where: Where)
    ensures Update([r] + rows, record, where)
         == [if Matches(r, where) then r + record else r] + Update(rows, record, where)
  {
    assert ([r] + rows)[1..] == rows;
  }

  ghost predicate OwnQuery(where: Where, user: string) {
    "user_id" in where && where["user_id"] == user
  }

  lemma NotMine(r: Record, where: Where, user: string)
    requires OwnQuery(where, user) && !OwnedBy(r, user)
    ensures !Matches(r, where)
  {
  }

  /** A query for a user's rows sees only that user's rows. */
  lemma {:induction false} SelectIsOwn(rows: seq<Record>, where: Where, user: string)
    requires OwnQuery(where, user)
    ensures Select(rows, where) == Select(Owned(rows, user), where)
    decreases |rows|
  {
    if rows == [] {
      assert Owned(rows, user) == [];
    } else {
      hide Owned, OwnedBy, OwnQuery, Matches, Select;
      var r, rest := rows[0], rows[1..];
      assert rows == [r] + rest;
      SelectIsOwn(rest, where, user);
      OwnedCons(r, rest, user);
      SelectCons(r, rest, where);
      if OwnedBy(r, user) {
        SelectCons(r, Owned(rest, user), where);
      } else {
        NotMine(r, where, user);
      }
    }
  }

  /** Removing a user's rows removes them from that user's and leaves the others'. */
  lemma {:induction false} RemoveIsOwn(rows: seq<Record>, where: Where, user: string, v: string)
    requires OwnQuery(where, user)
    ensures Owned(Remove(rows, where), v) == if v == user then Remove(Owned(rows, v), where) else Owned(rows, v)
    decreases |rows|
  {
    if rows == [] {
      assert Owned(rows, v) == [];
    } else {
      hide Owned, OwnQuery, Matches, Remove;
      var r, rest := rows[0], rows[1..];
      assert rows == [r] + rest;
      RemoveIsOwn(rest, where, user, v);
      OwnedCons(r, rest, v);
      SelectCons(r, rest, where);
      if !OwnedBy(r, user) {
        NotMine(r, where, user);
      }
      if !Matches(r, where) {
        OwnedCons(r, Remove(rest, where), v);
      }
      if OwnedBy(r, v) {
        SelectCons(r, Owned(rest, v), where);
      }
    }
  }

  /** Updating a user's rows with columns other than the owner changes that user's and leaves
      the others'. */
  lemma {:induction false} UpdateIsOwn(rows: seq<Record>, record: Record, where: Where, user: string, v: string)
    requires OwnQuery(where, user) && "user_id" !in record
    ensures Owned(Update(rows, record, where), v)
         == if v == user then Update(Owned(rows, v), record, where) else Owned(rows, v)
    decreases |rows|
  {
    if rows == [] {
      assert Owned(rows, v) == [];
    } else {
      hide Owned, OwnedBy, OwnQuery, Matches, Update;
      var r, rest := rows[0], rows[1..];
      var r' := if Matches(r, where) then r + record else r;
      assert rows == [r] + rest;
      UpdateIsOwn(rest, record, where, user, v);
      OwnedCons(r, rest, v);
      UpdateCons(r, rest, record, where);
      OwnedCons(r', Update(rest, record, where), v);
      KeepsOwner(r, record, v);
      if !OwnedBy(r, user) {
        NotMine(r, where, user);
      } else if v != user {
        OneOwner(r, user, v);
      }
      if OwnedBy(r, v) {
        UpdateCons(r, Owned(rest, v), record, where);
      }
    }
  }

  lemma KeepsOwner(r: Record, record: Record, v: string)
    requires "user_id" !in record
    ensures OwnedBy(r + record, v) <==> OwnedBy(r, v)
  {
  }

  lemma OneOwner(r: Record, user: string, v: string)
    requires OwnedBy(r, user) && v != user
    ensures !OwnedBy(r, v)
  {
  }

  /** Whatever columns an update of a user's rows writes, the rows the user is left with
      depend on the user's rows alone. */
  lemma {:induction false} UpdateSeesOwn(rows: seq<Record>, record: Record, where: Where, user: string)
    requires OwnQuery(where, user)
    ensures Owned(Update(rows, record, where), user) == Owned(Update(Owned(rows, user), record, where), user)
    decreases |rows|
  {
    if rows == [] {
      assert Owned(rows, user) == [];
    } else {
      hide Owned, OwnedBy, OwnQuery, Matches, Update;
      var r, rest := rows[0], rows[1..];
      var r' := if Matches(r, where) then r + record else r;
      assert rows == [r] + rest;
      UpdateSeesOwn(rest, record, where, user);
      OwnedCons(r, rest, user);
      UpdateCons(r, rest, record, where);
      OwnedCons(r', Update(rest, record, where), user);
      if OwnedBy(r, user) {
        UpdateCons(r, Owned(rest, user), record, where);
        OwnedCons(r', Update(Owned(rest, user), record, where), user);
      } else {
        NotMine(r, where, user);
      }
    }
  }

  // ---------------------------------------------------------------- one request

  /** Two responders that a user cannot tell apart. */
  ghost predicate Alike(s: State, s': State, user: string) {
    Clean(s) && Clean(s') && Owned(s.rows, user) == Owned(s'.rows, user)
  }

  lemma CleanWhere(w: Where, user: string, id: string)
    requires forall c | c in w :: c == "user_id" || c == "id"
    ensures w["user_id" := user]["id" := id] == map["user_id" := user, "id" := id]
    ensures w["id" := id]["user_id" := user] == map["user_id" := user, "id" := id]
  {
  }

  lemma AlikeTrans(a: State, b: State, c: State, user: string)
    requires Alike(a, b, user) && Alike(b, c, user)
    ensures Alike(a, c, user)
  {
  }

  lemma AlikeSelf(s: State, s': State, user: string)
    requires Alike(s, s', user)
    ensures Alike(s', s, user) && forall v :: Alike(s, s, v)
  {
  }

  ghost predicate AskedBy(st: Statement, user: string) {
    match st
    case Insertion(record) => OwnedBy(record, user)
    case Change(_, where) => OwnQuery(where, user)
  }

  /** The statement makes no row and writes no id. */
  ghost predicate KeepsIds(n: Naming, st: Statement) {
    st.Change? && forall c | c in st.record :: n(c) != Some("id")
  }

  /** The database decides about the user's statements by the user's own rows: about all of
      them, or only about those that keep ids. */
  ghost predicate Agrees(d: Database, user: string, keepIds: bool) {
    forall t, rows, rows', st
      | Owned(rows, user) == Owned(rows', user) && AskedBy(st, user) && (keepIds ==> KeepsIds(d.column, st)) ::
      d.decide(t, rows, st) == d.decide(t, rows', st)
  }

  lemma SameDecision(d: Database, rows: seq<Record>, rows': seq<Record>, user: string, t: Moment, st: Statement,
                     keepIds: bool)
    requires Agrees(d, user, keepIds) && Owned(rows, user) == Owned(rows', user) && AskedBy(st, user)
    requires keepIds ==> KeepsIds(d.column, st)
    ensures d.decide(t, rows, st) == d.decide(t, rows', st)
  {
    hide Owned, AskedBy, KeepsIds;
  }

  lemma {:induction false} InsertAlike(d: Database, s: State, s': State, user: string, r: Record, t: Moment)
    requires Alike(s, s', user) && OwnedBy(r, user) && Agrees(d, user, false)
    ensures var (u, u') := (InsertRow(d, s, user, r, t), InsertRow(d, s', user, r, t));
            u.1 == u'.1 && Alike(u.0, u'.0, user) && u.0.record == u'.0.record
  {
    hide Owned, Accepted, NewRow, OwnedBy, Agrees;
    var o := d.decide(t, s.rows, Insertion(r));
    assert d.decide(t, s'.rows, Insertion(r)) == o by {
      SameDecision(d, s.rows, s'.rows, user, t, Insertion(r), false);
    }
    OwnedSnoc(s.rows, NewRow(o), user);
    OwnedSnoc(s'.rows, NewRow(o), user);
  }

  lemma {:induction false} UpdateAlike(d: Database, s: State, s': State, user: string, id: string, r: Record,
                                       t: Moment, keepIds: bool)
    requires Alike(s, s', user) && Agrees(d, user, keepIds)
    requires keepIds ==> NoIdNames(d.column, r)
    ensures var (u, u') := (UpdateRow(d, s, user, id, r, t), UpdateRow(d, s', user, id, r, t));
            u.1 == u'.1 && Alike(u.0, u'.0, user) && u.0.record == u'.0.record
  {
    hide Owned, Accepted, Update, Agrees;
    var where: Where := map["user_id" := user, "id" := id];
    var st := Change(r, where);
    var o := d.decide(t, s.rows, st);
    assert d.decide(t, s'.rows, st) == o by { SameDecision(d, s.rows, s'.rows, user, t, st, keepIds); }
    hide NoIdNames;
    UpdateOwn(s, user, id, o.written);
    UpdateOwn(s', user, id, o.written);
    assert UpdateRow(d, s, user, id, r, t).1 == UpdateRow(d, s', user, id, r, t).1;
  }

  lemma UpdateOwn(s: State, user: string, id: string, w: Record)
    requires Clean(s)
    ensures var where: Where := map["user_id" := user, "id" := id];
            && s.addLog["user_id" := user]["id" := id] == where
            && Owned(Update(s.rows, w, where), user) == Owned(Update(Owned(s.rows, user), w, where), user)
  {
    hide Owned, Update;
    CleanWhere(s.addLog, user, id);
    UpdateSeesOwn(s.rows, w, map["user_id" := user, "id" := id], user);
  }

  // ---------------------------------------------------------------- lines that keep ids

  ghost predicate NoIdNames(n: Naming, record: Record) {
    forall c | c in record :: n(c) != Some("id")
  }

  /** The line has an id other than "-1", if any, under the exact name, and no other name that
      stands for the id column. */
  predicate IdsKept(n: Naming, header: Row, row: Row)
    requires |header| == |row|
  {
    forall i | 0 <= i < |header| :: if header[i] == "id" then row[i] != "-1" else n(header[i]) != Some("id")
  }

  lemma {:induction false} AssignedNames(record: Record, header: Row, row: Row)
    requires |header| == |row|
    ensures forall c | c in Assign(record, header, row) :: c in record || c in header
    ensures forall c | c in header :: c in Assign(record, header, row)
    ensures forall c | c in record :: c in Assign(record, header, row)
    ensures forall c | c in record && c !in header :: Assign(record, header, row)[c] == record[c]
    ensures forall c | c in header ::
              exists i :: 0 <= i < |header| && header[i] == c && Assign(record, header, row)[c] == row[i]
    decreases |row|
  {
    if row != [] {
      var k := |row| - 1;
      var before, after := Assign(record, header[..k], row[..k]), Assign(record, header, row);
      AssignedNames(record, header[..k], row[..k]);
      assert header == header[..k] + [header[k]];
      forall c | c in header ensures exists i :: 0 <= i < |header| && header[i] == c && after[c] == row[i] {
        if c == header[k] {
          assert after[c] == row[k];
        } else {
          var i :| 0 <= i < k && header[..k][i] == c && before[c] == row[..k][i];
          assert header[i] == c && after[c] == row[i];
        }
      }
    }
  }

  lemma KeptLine(n: Naming, record: Record, header: Row, row: Row)
    requires Lawful(n) && |header| == |row| && NoIdNames(n, record) && IdsKept(n, header, row)
    ensures var r := Assign(record, header, row);
            Get(r, "id") != "-1" && NoIdNames(n, r - {"user_id", "id"})
  {
    OwnNames(n);
    hide Assign, Lawful;
    AssignedNames(record, header, row);
    assert "id" !in record;
    forall c | c in Assign(record, header, row) && c != "id" ensures n(c) != Some("id") {
      if c in header {
        var i :| 0 <= i < |header| && header[i] == c;
      }
    }
  }

  lemma OwnNames(n: Naming)
    requires Lawful(n)
    ensures n("id") == Some("id") && n("user_id") == Some("user_id")
  {
    assert "id" == COLUMNS[0] && "user_id" == COLUMNS[1];
  }

  /** A line of an add request: alike stays alike, with the same answer. */
  lemma {:induction false} AddRowAlike(d: Database, s: State, s': State, user: string, header: Row, row: Row,
                                       t: Moment, keepIds: bool)
    requires Alike(s, s', user) && s.record == s'.record && |header| == |row| && Agrees(d, user, keepIds)
    requires keepIds ==> Lawful(d.column) && NoIdNames(d.column, s.record) && IdsKept(d.column, header, row)
    ensures var (r, r') := (AddRow(d, s, user, header, row, t), AddRow(d, s', user, header, row, t));
            && r.1 == r'.1 && Alike(r.0, r'.0, user) && r.0.record == r'.0.record
            && (keepIds ==> NoIdNames(d.column, r.0.record))
  {
    hide Alike, Assign, Agrees, Lawful, NoIdNames, IdsKept, Accepted, NewRow, Update;
    var record := Assign(s.record, header, row);
    if keepIds {
      KeptLine(d.column, s.record, header, row);
    }
    if Get(record, "id") == "-1" {
      InsertAlike(d, s, s', user, (record - {"id"})["user_id" := user], t);
    } else {
      UpdateAlike(d, s, s', user, Get(record, "id"), record - {"user_id", "id"}, t, keepIds);
    }
  }

  lemma {:induction false} AddRowsAlike(d: Database, s: State, s': State, user: string, header: Row, data: seq<Row>,
                                        chance: nat, keepIds: bool)
    requires Alike(s, s', user) && s.record == s'.record && Agrees(d, user, keepIds)
    requires keepIds ==> Lawful(d.column) && NoIdNames(d.column, s.record)
    requires keepIds ==> forall k | 0 <= k < |data| && |data[k]| == |header| :: IdsKept(d.column, header, data[k])
    ensures var r := AddRows(d, s, user, header, data, chance);
            var r' := AddRows(d, s', user, header, data, chance);
            && r.1 == r'.1 && Alike(r.0, r'.0, user) && r.0.record == r'.0.record
            && (keepIds ==> NoIdNames(d.column, r.0.record))
    decreases |data|
  {
    hide AddRow, Alike, Agrees, Lawful, NoIdNames, IdsKept;
    if data != [] {
      var k := |data| - 1;
      AddRowsAlike(d, s, s', user, header, data[..k], chance, keepIds);
      var r := AddRows(d, s, user, header, data[..k], chance);
      var r' := AddRows(d, s', user, header, data[..k], chance);
      if r.1.ok && data[k] != [] && |header| == |data[k]| {
        AddRowAlike(d, r.0, r'.0, user, header, data[k], Moment(chance, k), keepIds);
      }
    }
  }

  // ---------------------------------------------------------------- removing and fetching

  lemma AlikeIsClean(s: State, s': State, user: string)
    requires Alike(s, s', user)
    ensures Clean(s) && Clean(s')
  {
  }

  lemma {:induction false} RemoveIdAlike(s: State, s': State, user: string, id: string)
    requires Alike(s, s', user)
    ensures Alike(RemoveId(s, user, id), RemoveId(s', user, id), user)
  {
    hide Owned, Remove;
    var where: Where := map["user_id" := user, "id" := id];
    CleanWhere(s.removeLog, user, id);
    CleanWhere(s'.removeLog, user, id);
    RemoveIsOwn(s.rows, where, user, user);
    RemoveIsOwn(s'.rows, where, user, user);
  }

  lemma {:induction false} RemoveIdOthers(s: State, user: string, id: string, v: string)
    requires Clean(s) && v != user
    ensures Alike(s, RemoveId(s, user, id), v)
  {
    hide Owned, Remove;
    CleanWhere(s.removeLog, user, id);
    RemoveIsOwn(s.rows, map["user_id" := user, "id" := id], user, v);
  }

  lemma {:induction false} RemoveIdsAlike(s: State, s': State, user: string, ids: Row)
    requires Alike(s, s', user)
    ensures Alike(RemoveIds(s, user, ids), RemoveIds(s', user, ids), user)
    decreases |ids|
  {
    hide Alike, RemoveId;
    if ids != [] {
      var k := |ids| - 1;
      RemoveIdsAlike(s, s', user, ids[..k]);
      RemoveIdAlike(RemoveIds(s, user, ids[..k]), RemoveIds(s', user, ids[..k]), user, ids[k]);
    }
  }

  lemma {:induction false} RemoveIdsOthers(s: State, user: string, ids: Row, v: string)
    requires Alike(s, s, v) && v != user
    ensures Alike(s, RemoveIds(s, user, ids), v)
    decreases |ids|
  {
    hide Alike, Clean, RemoveId;
    if ids != [] {
      var k := |ids| - 1;
      var r := RemoveIds(s, user, ids[..k]);
      RemoveIdsOthers(s, user, ids[..k], v);
      AlikeIsClean(s, r, v);
      RemoveIdOthers(r, user, ids[k], v);
      AlikeTrans(s, r, RemoveId(r, user, ids[k]), v);
    }
  }

  /** Fetching returns the user's own rows, all of them, with the call asked for when one
      is, and leaves no filter behind. */
  lemma {:induction false} FetchIsExact(s: State, user: string, extra: Where)
    requires Clean(s) && "user_id" !in extra
    ensures var r := SendLogs(s.(getLogs := extra), user);
            && r.1 == Reply(true, Header(COLUMNS) + Lines(Select(Owned(s.rows, user), extra["user_id" := user])))
            && r.0 == s
  {
    SelectIsOwn(s.rows, extra["user_id" := user], user);
  }

  /** The rows without those of the given ids. */
  function Without(rows: seq<Record>, ids: Row): seq<Record> {
    if rows == [] then [] else
      (if "id" in rows[0] && rows[0]["id"] in ids then [] else [rows[0]]) + Without(rows[1..], ids)
  }

  /** Removing one more id. */
  lemma {:induction false} RemoveOneMore(rows: seq<Record>, user: string, ids: Row, id: string)
    requires forall i | 0 <= i < |rows| :: OwnedBy(rows[i], user)
    ensures Remove(Without(rows, ids), map["user_id" := user, "id" := id]) == Without(rows, ids + [id])
    decreases |rows|
  {
    if rows != [] {
      hide Remove, Matches;
      var where: Where := map["user_id" := user, "id" := id];
      var r, rest := rows[0], rows[1..];
      RemoveOneMore(rest, user, ids, id);
      assert OwnedBy(r, user);
      assert Matches(r, where) <==> "id" in r && r["id"] == id by { MatchesBoth(r, user, id); }
      SelectCons(r, Without(rest, ids), where);
      assert [] + Without(rest, ids) == Without(rest, ids);
    }
  }

  lemma MatchesBoth(r: Record, user: string, id: string)
    ensures Matches(r, map["user_id" := user, "id" := id]) <==> OwnedBy(r, user) && "id" in r && r["id"] == id
  {
    assert Matches(r, map["user_id" := user, "id" := id]) ==> "id" in r && r["id"] == id;
  }

  lemma {:induction false} OwnedAreOwned(rows: seq<Record>, user: string)
    ensures forall i | 0 <= i < |Owned(rows, user)| :: OwnedBy(Owned(rows, user)[i], user)
    decreases |rows|
  {
    if rows != [] {
      hide Owned;
      OwnedAreOwned(rows[1..], user);
      OwnedCons(rows[0], rows[1..], user);
      assert rows == [rows[0]] + rows[1..];
    }
  }

  lemma {:induction false} WithoutNone(rows: seq<Record>)
    ensures Without(rows, []) == rows
  {
    if rows != [] {
      WithoutNone(rows[1..]);
    }
  }

  /** Removing ids leaves the user's rows with other ids, in order. */
  lemma {:induction false} RemoveIdsKeepsRest(s: State, user: string, ids: Row)
    requires Clean(s)
    ensures Owned(RemoveIds(s, user, ids).rows, user) == Without(Owned(s.rows, user), ids)
    decreases |ids|
  {
    hide Owned, Without, Remove;
    if ids == [] {
      WithoutNone(Owned(s.rows, user));
    } else {
      var k := |ids| - 1;
      var r := RemoveIds(s, user, ids[..k]);
      RemoveIdsKeepsRest(s, user, ids[..k]);
      RemoveIdsAlike(s, s, user, ids[..k]);
      CleanWhere(r.removeLog, user, ids[k]);
      RemoveIsOwn(r.rows, map["user_id" := user, "id" := ids[k]], user, user);
      OwnedAreOwned(s.rows, user);
      RemoveOneMore(Owned(s.rows, user), user, ids[..k], ids[k]);
      assert ids == ids[..k] + [ids[k]];
    }
  }

  predicate IsNameChar(c: char) {
    IsDigit(c) || 'a' <= c <= 'z' || 'A' <= c <= 'Z' || c == '_' || IsBlank(c)
  }

  /** The fields are names, with or without blanks around them, and no further text. This marks
      where the model stops: any other text reaches SQL as part of the statement. */
  ghost predicate Named(header: Row) {
    forall i | 0 <= i < |header| :: All(header[i], IsNameChar)
  }

  /** What one accepted line under a list of names does to the table: id "-1" puts one new row
      behind the others; any other id writes into the user's rows with that id. The columns
      written are those that the names left in the record stand for. A rejected line changes
      no row. */
  lemma {:induction false} AddRowEffect(d: Database, s: State, user: string, header: Row, row: Row, t: Moment)
    requires Clean(s) && |header| == |row| && Named(header)  // the model stops at names
    ensures var record, r := Assign(s.record, header, row), AddRow(d, s, user, header, row, t);
            var id := Get(record, "id");
            if !r.1.ok then r.0.rows == s.rows
            else if id == "-1" then
              var o := d.decide(t, s.rows, Insertion((record - {"id"})["user_id" := user]));
              && Writes(d.column, (record - {"id"})["user_id" := user], o.written)
              && r.0.rows == s.rows + [NewRow(o)]
            else
              var where: Where := map["user_id" := user, "id" := id];
              var o := d.decide(t, s.rows, Change(record - {"user_id", "id"}, where));
              && Writes(d.column, record - {"user_id", "id"}, o.written)
              && Overwritten(s.rows, r.0.rows, user, id, o.written)
  {
    hide Owned, Update, Assign, Writes, Overwritten;
    var record := Assign(s.record, header, row);
    if Get(record, "id") != "-1" {
      var id := Get(record, "id");
      CleanWhere(s.addLog, user, id);
      var o := d.decide(t, s.rows, Change(record - {"user_id", "id"}, map["user_id" := user, "id" := id]));
      UpdateIsPointwise(s.rows, o.written, user, id);
    }
  }

  /** The rows of the user with the id are overwritten, all others are as they were. */
  ghost predicate Overwritten(before: seq<Record>, after: seq<Record>, user: string, id: string, w: Record) {
    |after| == |before| && forall i | 0 <= i < |before| ::
      after[i] == if OwnedBy(before[i], user) && "id" in before[i] && before[i]["id"] == id
                  then before[i] + w else before[i]
  }

  lemma {:induction false} UpdateIsPointwise(rows: seq<Record>, w: Record, user: string, id: string)
    ensures Overwritten(rows, Update(rows, w, map["user_id" := user, "id" := id]), user, id, w)
    decreases |rows|
  {
    if rows != [] {
      hide Matches;
      UpdateIsPointwise(rows[1..], w, user, id);
      MatchesBoth(rows[0], user, id);
    }
  }

  function FirstLine(content: string): Row {
    LogBookRows(CString(content))[0]
  }

  /** An add request has a list of names for its first line. */
  ghost predicate InScope(q: Request) {
    q.uri == "/logbook/add" ==> Named(FirstLine(q.content))
  }

  /** The lines of an add request make no row and write no id. */
  predicate KeepsAllIds(n: Naming, q: Request) {
    q.uri == "/logbook/add" ==>
      var data := LogBookRows(CString(q.content));
      forall k | 1 <= k < |data| && |data[k]| == |data[0]| :: IdsKept(n, data[0], data[k])
  }

  /** Any request: a user who cannot tell two responders apart gets the same answer from both
      and still cannot, as far as the database decides by the user's own rows; in particular no
      filter is left. */
  lemma {:induction false} HandleAlike(d: Database, s: State, s': State, q: Request, keepIds: bool)
    requires Alike(s, s', q.user) && InScope(q) && Agrees(d, q.user, keepIds)
    requires keepIds ==> Lawful(d.column) && KeepsAllIds(d.column, q)
    ensures Handle(d, s, q).1 == Handle(d, s', q).1 && Alike(Handle(d, s, q).0, Handle(d, s', q).0, q.user)
  {
    hide Owned, Lines, Header, AddRows, RemoveIds, Select, SendLogs, LogBookRows, CString, Agrees, Lawful, IdsKept;
    var user := q.user;
    if q.uri == "/logbook" {
      FetchIsExact(s, user, map[]);
      FetchIsExact(s', user, map[]);
    } else if q.uri == "/logbook/add" {
      var data := LogBookRows(CString(q.content));
      assert forall k | 0 <= k < |data[1..]| :: data[1..][k] == data[k + 1];
      AddRowsAlike(d, s.(record := map[]), s'.(record := map[]), user, data[0], data[1..], q.chance, keepIds);
    } else if q.uri == "/logbook/remove" {
      RemoveIdsAlike(s, s', user, LogBookRows(CString(q.content))[0]);
    } else if CALL <= q.uri {
      var extra := map["callsign" := q.uri[|CALL|..]];
      FetchIsExact(s, user, extra);
      FetchIsExact(s', user, extra);
    }
  }
}
