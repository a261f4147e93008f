/** Who may change whose rows. The responder sets aside one spelling of the owner column and
    hands every other name in the first line of an add request to the database, so ownership
    rests on which names the database takes for that column. */
module LogBookOwnership {
  import opened Chars
  import opened CsvScan
  import opened LogBookModel

  /** Some name other than the exact one stands for the owner column. */
  predicate Aliased(n: Naming, header: Row) {
    exists i | 0 <= i < |header| :: header[i] != "user_id" && n(header[i]) == Some("user_id")
  }

  /** Some name stands for no column, which makes every statement malformed. */
  predicate Unknown(n: Naming, header: Row) {
    exists i | 0 <= i < |header| :: n(header[i]) == None
  }

  /** The first line names the id, all its names are known, and one of them is an alias of the
      owner column. */
  predicate GivesAway(n: Naming, header: Row) {
    "id" in header && !Unknown(n, header) && Aliased(n, header)
  }

  /** What a sender can check of a request. */
  ghost predicate Guarded(n: Naming, q: Request) {
    InScope(q) && (q.uri == "/logbook/add" ==> !GivesAway(n, FirstLine(q.content)))
  }

  // ---------------------------------------------------------------- one line

  /** No name in the record but the exact one stands for the owner column. */
  ghost predicate Innocent(n: Naming, record: Record) {
    forall c | c in record && c != "user_id" :: n(c) != Some("user_id")
  }

  lemma WritesOwner(n: Naming, record: Record, w: Record)
    requires Lawful(n) && Writes(n, record, w) && Innocent(n, record)
    ensures "user_id" in w <==> "user_id" in record
    ensures "user_id" in record ==> w["user_id"] == record["user_id"]
  {
    OwnNames(n);
  }

  lemma StaysInnocent(n: Naming, record: Record, header: Row, row: Row)
    requires |header| == |row| && Innocent(n, record) && !Aliased(n, header)
    ensures Innocent(n, Assign(record, header, row))
  {
    hide Assign;
    AssignedNames(record, header, row);
  }

  lemma {:induction false} InsertOthers(d: Database, s: State, user: string, r: Record, t: Moment, v: string)
    requires Lawful(d.column) && Clean(s) && OwnedBy(r, user) && Innocent(d.column, r) && v != user
    ensures Alike(s, InsertRow(d, s, user, r, t).0, v)
  {
    hide Owned, Lawful, Writes, Innocent;
    var o := d.decide(t, s.rows, Insertion(r));
    if Accepted(d.column, r, o) {
      WritesOwner(d.column, r, o.written);
      OwnedSnoc(s.rows, NewRow(o), v);
    }
  }

  lemma {:induction false} UpdateOthers(d: Database, s: State, user: string, id: string, r: Record, t: Moment,
                                        v: string)
    requires Lawful(d.column) && Clean(s) && "user_id" !in r && Innocent(d.column, r) && v != user
    ensures Alike(s, UpdateRow(d, s, user, id, r, t).0, v)
  {
    hide Owned, Update, Lawful, Writes, Innocent;
    CleanWhere(s.addLog, user, id);
    var where: Where := map["user_id" := user, "id" := id];
    var o := d.decide(t, s.rows, Change(r, where));
    if Accepted(d.column, r, o) {
      WritesOwner(d.column, r, o.written);
      UpdateIsOwn(s.rows, o.written, where, user, v);
    }
  }

  /** Without an alias in the first line, nobody else's rows change. */
  lemma {:induction false} AddRowOthers(d: Database, s: State, user: string, header: Row, row: Row, t: Moment,
                                        v: string)
    requires Lawful(d.column) && Clean(s) && |header| == |row| && v != user
    requires Innocent(d.column, s.record) && !Aliased(d.column, header)
    ensures var r := AddRow(d, s, user, header, row, t); Alike(s, r.0, v) && Innocent(d.column, r.0.record)
  {
    hide Alike, Clean, Assign, Aliased, Lawful, Update, NewRow, Accepted;
    StaysInnocent(d.column, s.record, header, row);
    var record := Assign(s.record, header, row);
    if Get(record, "id") == "-1" {
      InsertOthers(d, s, user, (record - {"id"})["user_id" := user], t, v);
    } else {
      UpdateOthers(d, s, user, Get(record, "id"), record - {"user_id", "id"}, t, v);
    }
  }

  /** A line changes nothing when a name in the first line is unknown; nor does it when the
      first line does not name the id and every row has one. */
  lemma {:induction false} InertRow(d: Database, s: State, user: string, header: Row, row: Row, t: Moment)
    requires Lawful(d.column) && Clean(s) && |header| == |row|
    requires Unknown(d.column, header) || ("id" !in header && "id" !in s.record && Identified(s.rows))
    ensures var r := AddRow(d, s, user, header, row, t);
            r.0.rows == s.rows && Clean(r.0) && "id" !in r.0.record
  {
    hide Assign, Update, NewRow, Unknown, Identified, Writes;
    var record := Assign(s.record, header, row);
    AssignedNames(s.record, header, row);
    var id := Get(record, "id");
    var where: Where := map["user_id" := user, "id" := id];
    CleanWhere(s.addLog, user, id);
    var o := d.decide(t, s.rows, Change(record - {"user_id", "id"}, where));
    if Unknown(d.column, header) {
      var r := (record - {"id"})["user_id" := user];
      NothingWritten(d.column, header, r, d.decide(t, s.rows, Insertion(r)));
      NothingWritten(d.column, header, record - {"user_id", "id"}, o);
    } else {
      NoIdNoUpdate(s.rows, o.written, user);
    }
  }

  lemma NothingWritten(n: Naming, header: Row, r: Record, o: Outcome)
    requires Lawful(n) && Unknown(n, header) && forall c | c in header && c != "id" && c != "user_id" :: c in r
    ensures !Accepted(n, r, o)
  {
    OwnNames(n);
    hide Lawful;
    var i :| 0 <= i < |header| && n(header[i]) == None;
    assert header[i] in header && header[i] in r;
  }

  /** Every row has an id. */
  ghost predicate Identified(rows: seq<Record>) {
    forall i | 0 <= i < |rows| :: "id" in rows[i] && rows[i]["id"] != ""
  }

  lemma {:induction false} NoIdNoUpdate(rows: seq<Record>, w: Record, user: string)
    requires Identified(rows)
    ensures Update(rows, w, map["user_id" := user, "id" := ""]) == rows
    decreases |rows|
  {
    if rows != [] {
      hide Matches;
      MatchesBoth(rows[0], user, "");
      assert Identified(rows[1..]);
      NoIdNoUpdate(rows[1..], w, user);
    }
  }

  // ---------------------------------------------------------------- one request

  lemma {:induction false} AddRowsInert(d: Database, s: State, user: string, header: Row, data: seq<Row>,
                                        chance: nat)
    requires Lawful(d.column) && Clean(s) && "id" !in s.record
    requires Unknown(d.column, header) || ("id" !in header && Identified(s.rows))
    ensures var r := AddRows(d, s, user, header, data, chance).0;
            r.rows == s.rows && Clean(r) && "id" !in r.record
    decreases |data|
  {
    hide AddRow, Clean, Unknown, Identified, Lawful;
    if data != [] {
      var k := |data| - 1;
      AddRowsInert(d, s, user, header, data[..k], chance);
      var r := AddRows(d, s, user, header, data[..k], chance);
      if r.1.ok && data[k] != [] && |header| == |data[k]| {
        InertRow(d, r.0, user, header, data[k], Moment(chance, k));
      }
    }
  }

  lemma {:induction false} AddRowsInnocent(d: Database, s: State, user: string, header: Row, data: seq<Row>,
                                           chance: nat, v: string)
    requires Lawful(d.column) && Alike(s, s, v) && v != user
    requires Innocent(d.column, s.record) && !Aliased(d.column, header)
    ensures var r := AddRows(d, s, user, header, data, chance).0; Alike(s, r, v) && Innocent(d.column, r.record)
    decreases |data|
  {
    hide AddRow, Alike, Clean, Aliased, Innocent, Lawful;
    if data != [] {
      var k := |data| - 1;
      AddRowsInnocent(d, s, user, header, data[..k], chance, v);
      var r := AddRows(d, s, user, header, data[..k], chance);
      if r.1.ok && data[k] != [] && |header| == |data[k]| {
        AlikeIsClean(s, r.0, v);
        AddRowOthers(d, r.0, user, header, data[k], Moment(chance, k), v);
        AlikeTrans(s, r.0, AddRow(d, r.0, user, header, data[k], Moment(chance, k)).0, v);
      }
    }
  }

  /** No lines behind a first line that gives no row away change anybody else's rows. */
  lemma {:induction false} AddRowsOthers(d: Database, s: State, user: string, header: Row, data: seq<Row>,
                                         chance: nat, v: string)
    requires Lawful(d.column) && Alike(s, s, v) && v != user && s.record == map[]
    requires Identified(s.rows) && !GivesAway(d.column, header)
    ensures Alike(s, AddRows(d, s, user, header, data, chance).0, v)
  {
    hide AddRows, Owned, Clean, Aliased, Unknown, Lawful, Identified;
    if "id" !in header || Unknown(d.column, header) {
      AddRowsInert(d, s, user, header, data, chance);
    } else {
      AddRowsInnocent(d, s, user, header, data, chance, v);
    }
  }

  /** Exactly such a first line lets somebody else's rows change: with it some database, some
      table and some lines do; with any other no lines do, whoever sends them and whatever
      the database decides. The proof needs no list of names: `Named` marks where the model
      stops. */
  lemma {:induction false} HarmlessIff(n: Naming, header: Row)
    requires Lawful(n) && Named(header)
    ensures (forall decide: Decision, s: State, user: string, data: seq<Row>, chance: nat, v: string
               | Clean(s) && s.record == map[] && Identified(s.rows) && v != user ::
               Owned(AddRows(Database(n, decide), s, user, header, data, chance).0.rows, v) == Owned(s.rows, v))
            <==> !GivesAway(n, header)
  {
    hide AddRows, Owned, Aliased, Unknown, Lawful, Clean, Identified;
    if GivesAway(n, header) {
      var s := State([map["id" := "7", "user_id" := "5"]], map[], map[], map[], map[]);
      assert Clean(s) && Identified(s.rows) by { CleanStart(s); }
      RowIsGivenAway(n, header, s);
    } else {
      forall decide: Decision, s: State, user: string, data: seq<Row>, chance: nat, v: string
        | Clean(s) && s.record == map[] && Identified(s.rows) && v != user
        ensures Owned(AddRows(Database(n, decide), s, user, header, data, chance).0.rows, v) == Owned(s.rows, v)
      {
        CleanIsAlike(s, v);
        AddRowsOthers(Database(n, decide), s, user, header, data, chance, v);
      }
    }
  }

  lemma CleanIsAlike(s: State, v: string)
    requires Clean(s)
    ensures Alike(s, s, v)
  {
  }

  lemma CleanStart(s: State)
    requires s == State([map["id" := "7", "user_id" := "5"]], map[], map[], map[], map[])
    ensures Clean(s) && Identified(s.rows)
  {
  }

  /** Seven in every column that the record's names stand for. */
  function Sevens(n: Naming, r: Record): Record {
    map k | k in Meant(n, r) :: "7"
  }

  function Meant(n: Naming, r: Record): set<string> {
    set c | c in r && n(c).Some? :: n(c).value
  }

  /** A database that writes sevens. */
  function Sevened(n: Naming): Database {
    Database(n, (t: Moment, rows: seq<Record>, st: Statement) => Outcome(true, "7", Sevens(n, st.record)))
  }

  /** A line of sevens gives row 7 of user 5 to user 7. */
  lemma {:induction false} RowIsGivenAway(n: Naming, header: Row, s: State)
    requires Lawful(n) && GivesAway(n, header)
    requires s == State([map["id" := "7", "user_id" := "5"]], map[], map[], map[], map[])
    ensures var row := seq(|header|, _ => "7");
            Owned(AddRows(Sevened(n), s, "5", header, [row], 0).0.rows, "7") != Owned(s.rows, "7")
  {
    hide Lawful, Aliased, Unknown, Owned, Assign, AddRow, AddRows, Sevens, Writes;
    var row := seq(|header|, _ => "7");
    var mine := s.rows[0];
    var record := Assign(map[], header, row);
    var w := Sevens(n, record - {"user_id", "id"});
    AssignedNames(map[], header, row);
    SevensAreWritten(n, header, record);
    RowOfSevens(n, s, header, row);
    OneLine(Sevened(n), s, "5", header, row, 0);
    OwnedOne(mine, "7");
    OwnedOne(mine + w, "7");
    assert Owned([mine + w], "7") == [mine + w] != Owned(s.rows, "7");
  }

  lemma {:induction false} RowOfSevens(n: Naming, s: State, header: Row, row: Row)
    requires |header| == |row| && s == State([map["id" := "7", "user_id" := "5"]], map[], map[], map[], map[])
    requires forall c | c in Assign(map[], header, row) :: Assign(map[], header, row)[c] == "7"
    requires "id" in Assign(map[], header, row)
    requires var r := Assign(map[], header, row) - {"user_id", "id"}; r != map[] && Writes(n, r, Sevens(n, r))
    ensures var r := Assign(map[], header, row) - {"user_id", "id"};
            AddRow(Sevened(n), s, "5", header, row, Moment(0, 0)).0.rows == [s.rows[0] + Sevens(n, r)]
  {
    hide Assign, Update, Writes, Sevens;
    OnlyRowChanges(s.rows[0], Sevens(n, Assign(map[], header, row) - {"user_id", "id"}), "5", "7");
  }

  lemma SevensAreWritten(n: Naming, header: Row, record: Record)
    requires Lawful(n) && GivesAway(n, header)
    requires forall c | c in record :: c in header && record[c] == "7"
    requires forall c | c in header :: c in record
    ensures var r := record - {"user_id", "id"};
            var w := Sevens(n, r);
            r != map[] && Writes(n, r, w) && "user_id" in w && w["user_id"] == "7"
  {
    OwnNames(n);
    hide Lawful;
    var r := record - {"user_id", "id"};
    var w := Sevens(n, r);
    var i :| 0 <= i < |header| && header[i] != "user_id" && n(header[i]) == Some("user_id");
    assert header[i] in header && header[i] in r;
    forall c | c in r ensures n(c).Some? && n(c).value in w {
      assert c in header;
    }
    assert forall k | k in w :: exists c :: c in r && n(c) == Some(k) && r[c] == w[k];
  }

  lemma OnlyRowChanges(r: Record, w: Record, user: string, id: string)
    requires OwnedBy(r, user) && Get(r, "id") == id != ""
    ensures Update([r], w, map["user_id" := user, "id" := id]) == [r + w]
  {
    MatchesBoth(r, user, id);
    UpdateCons(r, [], w, map["user_id" := user, "id" := id]);
    assert [r] + [] == [r] && [r + w] + [] == [r + w];
  }

  lemma OwnedOne(r: Record, v: string)
    ensures Owned([r], v) == if OwnedBy(r, v) then [r] else []
  {
    OwnedCons(r, [], v);
    assert [r] + [] == [r];
  }

  lemma OneLine(d: Database, s: State, user: string, header: Row, row: Row, chance: nat)
    requires |header| == |row| && row != []
    ensures AddRows(d, s, user, header, [row], chance) == AddRow(d, s, user, header, row, Moment(chance, 0))
  {
    hide AddRow;
    assert [row][..0] == [];
  }

  /** Any request that keeps to the guard: nobody else's rows change. */
  lemma {:induction false} HandleOthers(d: Database, s: State, q: Request, v: string)
    requires Lawful(d.column) && Alike(s, s, v) && v != q.user && Guarded(d.column, q) && Identified(s.rows)
    ensures Alike(s, Handle(d, s, q).0, v)
  {
    hide Owned, Lines, Header, AddRows, RemoveIds, Select, SendLogs, LogBookRows, CString, Lawful, GivesAway;
    hide Identified;
    var user := q.user;
    if q.uri == "/logbook" {
      FetchIsExact(s, user, map[]);
    } else if q.uri == "/logbook/add" {
      var data, cleared := LogBookRows(CString(q.content)), s.(record := map[]);
      AddRowsOthers(d, cleared, user, data[0], data[1..], q.chance, v);
    } else if q.uri == "/logbook/remove" {
      RemoveIdsOthers(s, user, LogBookRows(CString(q.content))[0], v);
    } else if CALL <= q.uri {
      FetchIsExact(s, user, map["callsign" := q.uri[|CALL|..]]);
    }
  }

  // ---------------------------------------------------------------- every row has an id

  /** The id is the primary key: no row is given an empty one. */
  ghost predicate Keyed(d: Database) {
    forall t, rows, st :: KeepsKey(st, d.decide(t, rows, st))
  }

  ghost predicate KeepsKey(st: Statement, o: Outcome) {
    o.ok ==> (st.Insertion? ==> o.newId != "") && ("id" in o.written ==> o.written["id"] != "")
  }

  lemma {:induction false} UpdateIdentified(rows: seq<Record>, w: Record, where: Where)
    requires Identified(rows) && ("id" in w ==> w["id"] != "")
    ensures Identified(Update(rows, w, where))
    decreases |rows|
  {
    if rows != [] {
      hide Matches;
      assert Identified(rows[1..]);
      UpdateIdentified(rows[1..], w, where);
    }
  }

  lemma {:induction false} RemoveIdentified(rows: seq<Record>, where: Where)
    requires Identified(rows)
    ensures Identified(Remove(rows, where))
    decreases |rows|
  {
    if rows != [] {
      hide Matches;
      assert Identified(rows[1..]);
      RemoveIdentified(rows[1..], where);
    }
  }

  lemma {:induction false} RemoveIdsIdentified(s: State, user: string, ids: Row)
    requires Identified(s.rows)
    ensures Identified(RemoveIds(s, user, ids).rows)
    decreases |ids|
  {
    hide Identified, Remove;
    if ids != [] {
      var k := |ids| - 1;
      RemoveIdsIdentified(s, user, ids[..k]);
      var r := RemoveIds(s, user, ids[..k]);
      RemoveIdentified(r.rows, r.removeLog["id" := ids[k]]["user_id" := user]);
    }
  }

  lemma {:induction false} AddRowIdentified(d: Database, s: State, user: string, header: Row, row: Row, t: Moment)
    requires Keyed(d) && Identified(s.rows) && |header| == |row|
    ensures Identified(AddRow(d, s, user, header, row, t).0.rows)
  {
    hide Assign, Update, Writes;
    var record := Assign(s.record, header, row);
    var id := Get(record, "id");
    var where := s.addLog["user_id" := user]["id" := id];
    var o := d.decide(t, s.rows, Change(record - {"user_id", "id"}, where));
    if id == "-1" {
      var st := Insertion((record - {"id"})["user_id" := user]);
      assert KeepsKey(st, d.decide(t, s.rows, st));
    } else {
      assert KeepsKey(Change(record - {"user_id", "id"}, where), o);
      if o.ok {
        UpdateIdentified(s.rows, o.written, where);
      }
    }
  }

  lemma {:induction false} AddRowsIdentified(d: Database, s: State, user: string, header: Row, data: seq<Row>,
                                             chance: nat)
    requires Keyed(d) && Identified(s.rows)
    ensures Identified(AddRows(d, s, user, header, data, chance).0.rows)
    decreases |data|
  {
    hide AddRow, Identified, Keyed;
    if data != [] {
      var k := |data| - 1;
      AddRowsIdentified(d, s, user, header, data[..k], chance);
      var r := AddRows(d, s, user, header, data[..k], chance);
      if |header| == |data[k]| {
        AddRowIdentified(d, r.0, user, header, data[k], Moment(chance, k));
      }
    }
  }

  lemma {:induction false} HandleIdentified(d: Database, s: State, q: Request)
    requires Keyed(d) && Identified(s.rows)
    ensures Identified(Handle(d, s, q).0.rows)
  {
    hide Identified, Keyed, Lines, Header, AddRows, RemoveIds, Select, LogBookRows, CString;
    var data := LogBookRows(CString(q.content));
    AddRowsIdentified(d, s.(record := map[]), q.user, data[0], data[1..], q.chance);
    RemoveIdsIdentified(s, q.user, data[0]);
  }

  // ---------------------------------------------------------------- whole runs

  function After(d: Database, s: State, qs: seq<Request>): State
    decreases |qs|
  {
    if qs == [] then s else
      var k := |qs| - 1;
      Handle(d, After(d, s, qs[..k]), qs[k]).0
  }

  /** The answers a user gets. */
  function Seen(d: Database, s: State, qs: seq<Request>, user: string): seq<Option<Reply>>
    decreases |qs|
  {
    if qs == [] then [] else
      var k := |qs| - 1;
      Seen(d, s, qs[..k], user) + if qs[k].user == user then [Handle(d, After(d, s, qs[..k]), qs[k]).1] else []
  }

  function Only(qs: seq<Request>, user: string): seq<Request>
    decreases |qs|
  {
    if qs == [] then [] else
      var k := |qs| - 1;
      Only(qs[..k], user) + if qs[k].user == user then [qs[k]] else []
  }

  lemma {:induction false} AfterIdentified(d: Database, s: State, qs: seq<Request>)
    requires Keyed(d) && Identified(s.rows)
    ensures Identified(After(d, s, qs).rows)
    decreases |qs|
  {
    hide Identified, Keyed, Handle;
    if qs != [] {
      AfterIdentified(d, s, qs[..|qs| - 1]);
      HandleIdentified(d, After(d, s, qs[..|qs| - 1]), qs[|qs| - 1]);
    }
  }

  /** While a user sends nothing and the others keep to the guard, no row of the user is
      changed, deleted or given away, and the user is given none, whatever the database
      decides by whatever it looks at. */
  lemma {:induction false} OthersKeepRows(d: Database, s: State, qs: seq<Request>, user: string)
    requires Lawful(d.column) && Keyed(d) && Clean(s) && Identified(s.rows)
    requires forall i | 0 <= i < |qs| :: qs[i].user != user && Guarded(d.column, qs[i])
    ensures Clean(After(d, s, qs)) && Owned(After(d, s, qs).rows, user) == Owned(s.rows, user)
    decreases |qs|
  {
    hide Owned, Clean, Lawful, Guarded, Keyed, Identified, Handle;
    if qs != [] {
      var k := |qs| - 1;
      var t := After(d, s, qs[..k]);
      OthersKeepRows(d, s, qs[..k], user);
      AfterIdentified(d, s, qs[..k]);
      HandleOthers(d, t, qs[k], user);
    }
  }

  /** For every interleaving of requests from any users, of which the others' keep to the
      guard: as far as the database decides about the user's statements by the user's own
      rows, what the user is answered, and the rows the user owns in the end, are what they
      would be had nobody else sent anything, whoever else's rows there were at first. When
      the database decides so only about statements that keep ids, the user's lines must
      keep them. */
  lemma {:induction false} UsersDoNotInterfere(d: Database, s: State, s': State, qs: seq<Request>, user: string,
                                               keepIds: bool)
    requires Lawful(d.column) && Keyed(d) && Alike(s, s', user) && Identified(s.rows) && Agrees(d, user, keepIds)
    requires forall i | 0 <= i < |qs| ::
               if qs[i].user != user then Guarded(d.column, qs[i])
               else InScope(qs[i]) && (keepIds ==> KeepsAllIds(d.column, qs[i]))
    ensures Seen(d, s, qs, user) == Seen(d, s', Only(qs, user), user)
    ensures Alike(After(d, s, qs), After(d, s', Only(qs, user)), user)
    decreases |qs|
  {
    hide Alike, Handle, Lawful, Guarded, Keyed, Identified, Agrees, InScope, KeepsAllIds;
    if qs != [] {
      var k := |qs| - 1;
      var before, mine := qs[..k], Only(qs[..k], user);
      var t, t' := After(d, s, before), After(d, s', mine);
      UsersDoNotInterfere(d, s, s', before, user, keepIds);
      if qs[k].user == user {
        assert (mine + [qs[k]])[..|mine|] == mine;
        HandleAlike(d, t, t', qs[k], keepIds);
      } else {
        assert Only(qs, user) == mine && Seen(d, s, qs, user) == Seen(d, s, before, user);
        AfterIdentified(d, s, before);
        AlikeSelf(t, t', user);
        HandleOthers(d, t, qs[k], user);
        AlikeSelf(t, Handle(d, t, qs[k]).0, user);
        AlikeTrans(Handle(d, t, qs[k]).0, t, t', user);
      }
    }
  }
}
