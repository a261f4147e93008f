/** What the logbook responder answers to each kind of request, in terms of the table and the
    request alone. */
module LogBookAnswers {
  import opened Chars
  import opened CsvScan
  import opened LogBookModel

  // ---------------------------------------------------------------- fetching

  /** The row is the user's, and its call is the one asked for, when one is. */
  predicate Asked(r: Record, user: string, call: Option<string>) {
    OwnedBy(r, user) && (call.Some? ==> "callsign" in r && r["callsign"] == call.value)
  }

  /** The positions of the rows asked for, from the first to the last. */
  function Places(rows: seq<Record>, user: string, call: Option<string>): (ks: seq<nat>)
    ensures forall i, j | 0 <= i < j < |ks| :: ks[i] < ks[j]
    ensures forall i | 0 <= i < |ks| :: ks[i] < |rows|
    ensures forall i: nat :: i in ks <==> i < |rows| && Asked(rows[i], user, call)
    decreases |rows|
  {
    if rows == [] then [] else
      var k := |rows| - 1;
      var before := Places(rows[..k], user, call);
      assert forall i | 0 <= i < |before| :: before[i] in before;
      if Asked(rows[k], user, call) then before + [k] else before
  }

  function AtPlaces(rows: seq<Record>, ks: seq<nat>): seq<Record>
    requires forall i | 0 <= i < |ks| :: ks[i] < |rows|
  {
    seq(|ks|, i requires 0 <= i < |ks| => rows[ks[i]])
  }

  function Filter(user: string, call: Option<string>): Where {
    match call
    case None => map["user_id" := user]
    case Some(c) => map["callsign" := c]["user_id" := user]
  }

  lemma MatchesAsked(r: Record, user: string, call: Option<string>)
    ensures Matches(r, Filter(user, call)) <==> Asked(r, user, call)
  {
    if call.Some? && Matches(r, Filter(user, call)) {
      assert "callsign" in Filter(user, call);
    }
  }

  lemma {:induction false} SelectSnoc(rows: seq<Record>, r: Record, where: Where)
    ensures Select(rows + [r], where) == Select(rows, where) + if Matches(r, where) then [r] else []
    decreases |rows|
  {
    hide Matches, Select;
    if rows == [] {
      NothingSelected(where);
      SelectCons(r, [], where);
      assert rows + [r] == [r] + [];
    } else {
      SelectSnoc(rows[1..], r, where);
      SelectCons(rows[0], rows[1..] + [r], where);
      SelectCons(rows[0], rows[1..], where);
      assert rows + [r] == [rows[0]] + (rows[1..] + [r]) && rows == [rows[0]] + rows[1..];
    }
  }

  lemma {:induction false} SelectIsPlaces(rows: seq<Record>, user: string, call: Option<string>)
    ensures Select(rows, Filter(user, call)) == AtPlaces(rows, Places(rows, user, call))
    decreases |rows|
  {
    hide Select, Matches, Asked, Filter;
    if rows == [] {
      NothingSelected(Filter(user, call));
    } else {
      var k := |rows| - 1;
      var before := Places(rows[..k], user, call);
      SelectIsPlaces(rows[..k], user, call);
      MatchesAsked(rows[k], user, call);
      assert rows == rows[..k] + [rows[k]];
      SelectSnoc(rows[..k], rows[k], Filter(user, call));
      assert AtPlaces(rows, before) == AtPlaces(rows[..k], before);
    }
  }

  lemma NothingSelected(where: Where)
    ensures Select([], where) == []
  {
  }

  /** A fetch is answered with the titles and the lines of exactly the rows asked for, in the
      order of the table, and changes nothing. */
  lemma {:induction false} FetchAnswers(d: Database, s: State, q: Request, call: Option<string>)
    requires Clean(s) && q.uri == if call.Some? then "/logbook/call/" + call.value else "/logbook"
    ensures var picked := AtPlaces(s.rows, Places(s.rows, q.user, call));
            Handle(d, s, q) == (s, Some(Reply(true, Header(COLUMNS) + Lines(picked))))
  {
    hide AddLog, RemoveIds, Lines, Header, Select, Places, AtPlaces, LogBookRows, CString;
    SelectIsPlaces(s.rows, q.user, call);
    if call.Some? {
      OtherUris(call.value);
      assert q.uri[|CALL|..] == call.value;
      assert s.getLogs["callsign" := call.value]["user_id" := q.user] == Filter(q.user, call);
    } else {
      assert s.getLogs["user_id" := q.user] == Filter(q.user, call);
    }
    assert s.(getLogs := map[]) == s;
  }

  lemma OtherUris(call: string)
    ensures CALL <= CALL + call && "/logbook/call/" == CALL
    ensures CALL + call != "/logbook" && CALL + call != "/logbook/add" && CALL + call != "/logbook/remove"
  {
    assert (CALL + call)[9] == 'c' && "/logbook/add"[9] == 'a' && "/logbook/remove"[9] == 'r';
  }

  // ---------------------------------------------------------------- other requests

  /** A URI that is none of the responder's is left to other responders, without any effect. */
  lemma {:induction false} UnhandledIff(d: Database, s: State, q: Request)
    ensures Handle(d, s, q).1 == None <==>
            && q.uri !in ["/logbook", "/logbook/add", "/logbook/remove"]
            && !("/logbook/call/" <= q.uri)
    ensures Handle(d, s, q).1 == None ==> Handle(d, s, q).0 == s
  {
    hide SendLogs, AddLog, RemoveIds, LogBookRows, CString;
  }

  /** A removal leaves the user's rows with other ids, and everybody else's rows. */
  lemma {:induction false} RemovalAnswers(d: Database, s: State, q: Request, v: string)
    requires Clean(s) && q.uri == "/logbook/remove"
    ensures var (t, reply) := Handle(d, s, q);
            && reply == Some(Reply(true, "Removed."))
            && Owned(t.rows, q.user) == Without(Owned(s.rows, q.user), FirstLine(q.content))
            && (v != q.user ==> Owned(t.rows, v) == Owned(s.rows, v))
  {
    hide RemoveIds, Owned, Without, LogBookRows, CString, Clean;
    RemoveIdsKeepsRest(s, q.user, FirstLine(q.content));
    if v != q.user {
      assert Alike(s, s, v);
      RemoveIdsOthers(s, q.user, FirstLine(q.content), v);
    }
  }

  // ---------------------------------------------------------------- adding

  /** The line is empty, or has as many fields as the first line and is accepted. */
  ghost predicate Passes(d: Database, user: string, header: Row, line: Row, t: Moment, before: State, after: State) {
    if line == [] then after == before
    else |line| == |header| && var r := AddRow(d, before, user, header, line, t); r.0 == after && r.1.ok
  }

  /** The lines pass, each from the state that the one before left. */
  ghost predicate Accepting(d: Database, user: string, header: Row, lines: seq<Row>, chance: nat,
                            states: seq<State>) {
    && |states| == |lines| + 1
    && forall k | 0 <= k < |lines| ::
         Passes(d, user, header, lines[k], Moment(chance, k), states[k], states[k + 1])
  }

  /** What the line does when it is reached. */
  ghost predicate Refused(d: Database, user: string, header: Row, line: Row, t: Moment, before: State, after: State,
                          reply: Reply) {
    && line != []
    && if |line| != |header| then after == before && reply == BAD_COUNT
       else (after, reply) == AddRow(d, before, user, header, line, t) && !reply.ok
  }

  /** The answer to the last line that is not empty. */
  ghost predicate LastAnswer(d: Database, user: string, header: Row, lines: seq<Row>, chance: nat, states: seq<State>,
                             reply: Reply)
    requires |states| == |lines| + 1
  {
    if forall k | 0 <= k < |lines| :: lines[k] == [] then reply == Reply(true, "")
    else exists k ::
      && 0 <= k < |lines| && lines[k] != [] && |lines[k]| == |header|
      && (forall j | k < j < |lines| :: lines[j] == [])
      && reply == AddRow(d, states[k], user, header, lines[k], Moment(chance, k)).1
  }

  /** The first m lines take effect, the next one, if any, is refused, and the others are not
      looked at. */
  ghost predicate StopsAt(d: Database, before: State, user: string, header: Row, lines: seq<Row>, chance: nat,
                          states: seq<State>, m: nat, after: State, reply: Reply) {
    && m <= |lines| && |states| == m + 1 && states[0] == before
    && Accepting(d, user, header, lines[..m], chance, states)
    && if m == |lines| then after == states[m] && LastAnswer(d, user, header, lines, chance, states, reply)
       else Refused(d, user, header, lines[m], Moment(chance, m), states[m], after, reply)
  }

  ghost predicate TakesLines(d: Database, before: State, user: string, header: Row, lines: seq<Row>, chance: nat,
                             after: State, reply: Reply) {
    exists m: nat, states: seq<State> :: StopsAt(d, before, user, header, lines, chance, states, m, after, reply)
  }

  /** An add request takes its lines one after the other, from a cleared record, up to the first
      that is refused: those before it take effect, it answers, and those behind it are not
      looked at. When none is, the last line that is not empty answers. */
  lemma {:induction false} AddStopsAtFirstRefused(d: Database, s: State, q: Request)
    requires q.uri == "/logbook/add"
    ensures var (t, reply) := Handle(d, s, q);
            var data := LogBookRows(CString(q.content));
            && reply.Some?
            && TakesLines(d, s.(record := map[]), q.user, data[0], data[1..], q.chance, t, reply.value)
  {
    hide AddRow, AddRows, LogBookRows, CString, StopsAt;
    var data := LogBookRows(CString(q.content));
    var m, states := Stops(d, s.(record := map[]), q.user, data[0], data[1..], q.chance);
  }

  lemma {:induction false} Stops(d: Database, s: State, user: string, header: Row, lines: seq<Row>, chance: nat)
    returns (m: nat, states: seq<State>)
    ensures var (t, reply) := AddRows(d, s, user, header, lines, chance);
            && StopsAt(d, s, user, header, lines, chance, states, m, t, reply)
            && (reply.ok <==> m == |lines|)
    decreases |lines|
  {
    hide AddRow, Accepting;
    if lines == [] {
      m, states := 0, [s];
      assert Accepting(d, user, header, lines[..0], chance, states) by { NoneAccepted(d, user, header, chance, s); }
    } else {
      var k := |lines| - 1;
      m, states := Stops(d, s, user, header, lines[..k], chance);
      assert lines[..k][..m] == lines[..m];
      if m == k {
        var line := lines[k];
        assert lines[..k + 1] == lines == lines[..k] + [line];
        if line == [] {
          SameAnswer(d, user, header, lines, chance, states, AddRows(d, s, user, header, lines, chance).1);
          OneMore(d, user, header, lines[..k], line, chance, states, states[k]);
          m, states := k + 1, states + [states[k]];
        } else if |line| == |header| && AddRow(d, states[k], user, header, line, Moment(chance, k)).1.ok {
          OneMore(d, user, header, lines[..k], line, chance, states,
                  AddRow(d, states[k], user, header, line, Moment(chance, k)).0);
          m, states := k + 1, states + [AddRow(d, states[k], user, header, line, Moment(chance, k)).0];
        }
      } else {
        assert lines[..k][m] == lines[m];
      }
    }
  }

  lemma NoneAccepted(d: Database, user: string, header: Row, chance: nat, s: State)
    ensures Accepting(d, user, header, [], chance, [s])
  {
  }

  lemma OneMore(d: Database, user: string, header: Row, lines: seq<Row>, line: Row, chance: nat, states: seq<State>,
                after: State)
    requires Accepting(d, user, header, lines, chance, states)
    requires Passes(d, user, header, line, Moment(chance, |lines|), states[|lines|], after)
    ensures Accepting(d, user, header, lines + [line], chance, states + [after])
  {
    hide Passes;
  }

  lemma {:induction false} SameAnswer(d: Database, user: string, header: Row, lines: seq<Row>, chance: nat,
                                      states: seq<State>, reply: Reply)
    requires lines != [] && lines[|lines| - 1] == [] && |states| == |lines|
    requires LastAnswer(d, user, header, lines[..|lines| - 1], chance, states, reply)
    ensures LastAnswer(d, user, header, lines, chance, states + [states[|lines| - 1]], reply)
  {
    hide AddRow;
    var init := lines[..|lines| - 1];
    if !(forall k | 0 <= k < |init| :: init[k] == []) {
      var k :| && 0 <= k < |init| && init[k] != [] && |init[k]| == |header|
               && (forall j | k < j < |init| :: init[j] == [])
               && reply == AddRow(d, states[k], user, header, init[k], Moment(chance, k)).1;
      assert lines[k] != [];
    }
  }
}
