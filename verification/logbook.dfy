/** The logbook responder as an object over a storage object: its record and its three
    queries are fields that live on from one request to the next. */
module LogBooks {
  import opened Chars
  import opened CsvScan
  import opened LogBookModel

  class StorageBackend {
    const database: Database
    var rows: seq<Record>

    constructor (database: Database)
      ensures this.database == database && rows == []
    {
      this.database, rows := database, [];
    }

    method SelectRows(where: Where) returns (found: seq<Record>)
      ensures found == Select(rows, where)
    {
      found := [];
      for i := |rows| downto 0
        invariant found == Select(rows[i..], where)
      {
        if Matches(rows[i], where) {
          found := [rows[i]] + found;
        }
      }
    }

    method InsertRecord(record: Record, t: Moment) returns (ok: bool, newId: string)
      modifies this
      ensures var o := database.decide(t, old(rows), Insertion(record));
              && ok == Accepted(database.column, record, o) && newId == o.newId
              && rows == if ok then old(rows) + [NewRow(o)] else old(rows)
    {
      var o := database.decide(t, rows, Insertion(record));
      ok, newId := Accepted(database.column, record, o), o.newId;
      if ok {
        rows := rows + [NewRow(o)];
      }
    }

    method UpdateRows(record: Record, where: Where, t: Moment) returns (ok: bool)
      modifies this
      ensures var o := database.decide(t, old(rows), Change(record, where));
              && ok == Accepted(database.column, record, o)
              && rows == if ok then Update(old(rows), o.written, where) else old(rows)
    {
      var o := database.decide(t, rows, Change(record, where));
      ok := Accepted(database.column, record, o);
      if ok {
        rows := Update(rows, o.written, where);
      }
    }

    method RemoveRows(where: Where)
      modifies this
      ensures rows == Remove(old(rows), where)
    {
      rows := Remove(rows, where);
    }
  }

  class LogBook {
    const storage: StorageBackend
    var record: Record
    var getLogs: Where
    var addLog: Where
    var removeLog: Where

    constructor (storage: StorageBackend)
      ensures this.storage == storage && Value() == State(storage.rows, map[], map[], map[], map[])
      ensures Clean(Value())
    {
      this.storage, record, getLogs, addLog, removeLog := storage, map[], map[], map[], map[];
    }

    function Value(): State
      reads this, storage
    {
      State(storage.rows, record, getLogs, addLog, removeLog)
    }

    method Send(user: string) returns (reply: Reply)
      modifies this, storage
      ensures (Value(), reply) == SendLogs(old(Value()), user)
    {
      hide Entry, Header, Select;
      getLogs := getLogs["user_id" := user];
      var logbook := storage.SelectRows(getLogs);
      var data := Header(COLUMNS);
      assert data + Lines([]) == data;
      for i := 0 to |logbook|
        invariant data == Header(COLUMNS) + Lines(logbook[..i])
        modifies {}
      {
        var entry := PrintEntry(logbook[i]);
        data := data + entry;
        assert logbook[..i + 1][..i] == logbook[..i];
        ConcatAssoc(Header(COLUMNS), Lines(logbook[..i]), Entry(logbook[i]));
      }
      assert logbook[..|logbook|] == logbook;
      getLogs := map[];
      reply := Reply(true, data);
    }

    /** One row: its columns with a separator after each, the last one then erased. */
    static method PrintEntry(r: Record) returns (entry: string)
      ensures entry == Entry(r)
    {
      hide Join;
      entry := "";
      for j := 0 to |COLUMNS|
        invariant entry == Separated(r, COLUMNS[..j])
      {
        assert COLUMNS[..j + 1][..j] == COLUMNS[..j];
        entry := entry + Get(r, COLUMNS[j]) + ";";
      }
      assert COLUMNS[..|COLUMNS|] == COLUMNS;
      LastSeparator(r, COLUMNS);
      entry := entry[..|entry| - 1];
      entry := entry + "\n";
    }

    /** A row's columns as the loop appends them, each with its separator. */
    static function Separated(r: Record, columns: seq<string>): string {
      if columns == [] then "" else
        var k := |columns| - 1;
        Separated(r, columns[..k]) + Get(r, columns[k]) + ";"
    }

    static lemma {:induction false} LastSeparator(r: Record, columns: seq<string>)
      requires columns != []
      ensures var s := Separated(r, columns); s != "" && s[..|s| - 1] == Join(r, columns)
      decreases |columns|
    {
      SeparatedIsJoin(r, columns);
    }

    static lemma {:induction false} SeparatedIsJoin(r: Record, columns: seq<string>)
      requires columns != []
      ensures Separated(r, columns) == Join(r, columns) + ";"
      decreases |columns|
    {
      if |columns| == 1 {
        assert columns[..0] == [];
        assert "" + Get(r, columns[0]) + ";" == Get(r, columns[0]) + ";";
      } else {
        SeparatedCons(r, columns);
        SeparatedIsJoin(r, columns[1..]);
        ConcatAssoc(Get(r, columns[0]) + ";", Join(r, columns[1..]), ";");
      }
    }

    static lemma {:induction false} SeparatedCons(r: Record, columns: seq<string>)
      requires columns != []
      ensures Separated(r, columns) == Get(r, columns[0]) + ";" + Separated(r, columns[1..])
      decreases |columns|
    {
      var k := |columns| - 1;
      if k == 0 {
        assert columns[..0] == [] && columns[1..] == [];
        assert "" + Get(r, columns[0]) + ";" == Get(r, columns[0]) + ";" + "";
      } else {
        SeparatedCons(r, columns[..k]);
        assert columns[..k][1..] == columns[1..][..k - 1] && columns[1..][k - 1] == columns[k];
        var a, b, c := Get(r, columns[0]) + ";", Separated(r, columns[1..][..k - 1]), Get(r, columns[k]);
        assert a + b + c + ";" == a + (b + c + ";");
      }
    }

    method Add(user: string, content: string, chance: nat) returns (reply: Reply)
      modifies this, storage
      ensures (Value(), reply) == AddLog(storage.database, old(Value()), user, content, chance)
    {
      hide CString, LogBookRows, Assign, Accepted, Update;
      var data := ParseLogBook(content);
      var header := data[0];
      data := data[1..];
      record := map[];
      reply := Reply(true, "");
      ghost var start := Value();
      for k := 0 to |data|
        invariant (Value(), reply) == AddRows(storage.database, start, user, header, data[..k], chance) && reply.ok
      {
        assert data[..k + 1][..k] == data[..k];
        var row := data[k];
        if |row| == 0 {
          continue;
        }
        if |header| != |row| {
          reply := BAD_COUNT;
          StopsThere(storage.database, start, user, header, data, chance, k + 1);
          return;
        }
        reply := AddOne(user, header, row, Moment(chance, k));
        if !reply.ok {
          StopsThere(storage.database, start, user, header, data, chance, k + 1);
          return;
        }
      }
      assert data[..|data|] == data;
    }

    /** The first bad line ends the request. */
    static lemma {:induction false} StopsThere(d: Database, s: State, user: string, header: Row, data: seq<Row>,
                                               chance: nat, k: nat)
      requires k <= |data| && !AddRows(d, s, user, header, data[..k], chance).1.ok
      ensures AddRows(d, s, user, header, data, chance) == AddRows(d, s, user, header, data[..k], chance)
      decreases |data|
    {
      hide AddRow;
      if k == |data| {
        assert data[..k] == data;
      } else {
        var init := data[..|data| - 1];
        assert init[..k] == data[..k];
        StopsThere(d, s, user, header, init, chance, k);
      }
    }

    /** The body of the loop for a line with as many fields as the header. */
    method AddOne(user: string, header: Row, row: Row, t: Moment) returns (reply: Reply)
      requires |header| == |row|
      modifies this, storage
      ensures (Value(), reply) == AddRow(storage.database, old(Value()), user, header, row, t)
    {
      hide Accepted, Update;
      for i := 0 to |row|
        invariant Value() == old(Value()).(record := Assign(old(record), header[..i], row[..i]))
      {
        assert header[..i + 1][..i] == header[..i] && row[..i + 1][..i] == row[..i];
        record := record[header[i] := row[i]];
      }
      assert header[..|row|] == header && row[..|row|] == row;
      if Get(record, "id") == "-1" {
        record := record - {"id"};
        record := record["user_id" := user];
        var ok, newId := storage.InsertRecord(record, t);
        if !ok {
          return BAD_DATA;
        }
        return Reply(true, newId + ";" + user);
      } else {
        var id := Get(record, "id");
        addLog := addLog["user_id" := user];
        addLog := addLog["id" := id];
        record := record - {"user_id"};
        record := record - {"id"};
        assert record == Assign(old(record), header, row) - {"user_id", "id"};
        var ok := storage.UpdateRows(record, addLog, t);
        if !ok {
          return BAD_DATA;
        }
        return Reply(true, id + ";" + user);
      }
    }

    method RemoveAll(user: string, content: string) returns (reply: Reply)
      modifies this, storage
      ensures Value() == RemoveIds(old(Value()), user, LogBookRows(CString(content))[0])
      ensures reply == Reply(true, "Removed.")
    {
      hide CString, LogBookRows, Remove;
      var data := ParseLogBook(content);
      var ids := data[0];
      for k := 0 to |ids|
        invariant Value() == RemoveIds(old(Value()), user, ids[..k])
      {
        assert ids[..k + 1][..k] == ids[..k];
        removeLog := removeLog["id" := ids[k]];
        removeLog := removeLog["user_id" := user];
        storage.RemoveRows(removeLog);
      }
      assert ids[..|ids|] == ids;
      reply := Reply(true, "Removed.");
    }

    method HandleRequest(q: Request) returns (reply: Option<Reply>)
      modifies this, storage
      ensures (Value(), reply) == Handle(storage.database, old(Value()), q)
    {
      hide SendLogs, AddLog, RemoveIds, LogBookRows, CString;
      var r: Reply;
      if q.uri == "/logbook" {
        r := Send(q.user);
      } else if q.uri == "/logbook/add" {
        r := Add(q.user, q.content, q.chance);
      } else if q.uri == "/logbook/remove" {
        r := RemoveAll(q.user, q.content);
      } else if CALL <= q.uri {
        getLogs := getLogs["callsign" := q.uri[|CALL|..]];
        r := Send(q.user);
      } else {
        return None;
      }
      return Some(r);
    }
  }
}
