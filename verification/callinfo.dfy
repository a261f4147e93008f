/** Scatter and gather of call information: one request goes to every call information
    module, the replies are counted down and their tables merged, and the last reply fires
    the handler and the signal. */
module CallInfos {
  import opened Chars
  import opened CsvScan
  import opened CsvParse
  import opened CsvColumns

  datatype Event = Handled(data: string) | Signalled(data: string)

  /** `Broken`: a merge ran into undefined behaviour. */
  datatype Info = Info(requests: nat, data: Option<string>, events: seq<Event>) | Broken

  datatype Module = Module(uri: string, givesCallInfo: bool)

  function Fired(data: Option<string>, handled: bool): seq<Event> {
    match data
    case None => []
    case Some(d) => (if handled then [Handled(d)] else []) + [Signalled(d)]
  }

  /** A reply to one of the requests, with what its merge would find in the two buffers. */
  datatype Answer = Answer(status: nat, content: string, memory1: string, memory2: string)

  function Respond(i: Info, handled: bool, a: Answer): (r: Info)
    requires i.Info? ==> i.requests > 0
    ensures i.Info? && r.Info? ==> r.requests == i.requests - 1
  {
    if i.Broken? then Broken else
      var data :=
        if a.status != 200 then Some(i.data)
        else if i.data == None then Some(Some(a.content))
        else match Merge(i.data.value, a.content, a.memory1, a.memory2)
          case None => None
          case Some(d) => Some(Some(d));
      if data == None then Broken
      else Info(i.requests - 1, data.value, i.events + if i.requests == 1 then Fired(data.value, handled) else [])
  }

  function RespondAll(i: Info, handled: bool, answers: seq<Answer>): (r: Info)
    requires i.Info? ==> |answers| <= i.requests
    ensures i.Broken? ==> r.Broken?
    ensures i.Info? && r.Info? ==> r.requests == i.requests - |answers|
    decreases |answers|
  {
    if answers == [] then i else
      var k := |answers| - 1;
      Respond(RespondAll(i, handled, answers[..k]), handled, answers[k])
  }

  function Sent(requests: nat): Info {
    Info(requests, None, [])
  }

  /** The positions of the modules that give call information, from the first to the last. */
  function Givers(modules: seq<Module>): (ks: seq<nat>)
    ensures forall i, j | 0 <= i < j < |ks| :: ks[i] < ks[j]
    ensures forall i | 0 <= i < |ks| :: ks[i] < |modules|
    ensures forall i: nat :: i in ks <==> i < |modules| && modules[i].givesCallInfo
  {
    if modules == [] then [] else
      var k := |modules| - 1;
      var before := Givers(modules[..k]);
      assert forall i | 0 <= i < |before| :: before[i] in before;
      if modules[k].givesCallInfo then before + [k] else before
  }

  function UrisAt(modules: seq<Module>, ks: seq<nat>): (uris: seq<string>)
    requires forall i | 0 <= i < |ks| :: ks[i] < |modules|
    ensures |uris| == |ks| && forall i | 0 <= i < |ks| :: uris[i] == modules[ks[i]].uri
  {
    seq(|ks|, i requires 0 <= i < |ks| => modules[ks[i]].uri)
  }

  /** How many modules give call information. */
  ghost function Count(modules: seq<Module>): nat {
    |set i | 0 <= i < |modules| && modules[i].givesCallInfo|
  }

  ghost function Members(ks: seq<nat>): set<nat> {
    set k | k in ks
  }

  /** There are as many positions. */
  lemma {:induction false} GiversAreCounted(modules: seq<Module>)
    ensures |Givers(modules)| == Count(modules)
  {
    hide Givers;
    Increasing(Givers(modules));
    var givers := set i | 0 <= i < |modules| && modules[i].givesCallInfo;
    assert givers == Members(Givers(modules));
  }

  lemma {:induction false} Increasing(ks: seq<nat>)
    requires forall i, j | 0 <= i < j < |ks| :: ks[i] < ks[j]
    ensures |Members(ks)| == |ks|
  {
    hide Members;
    if ks == [] {
      NoMembers();
    } else {
      var n := |ks| - 1;
      Increasing(ks[..n]);
      LastMember(ks);
      Grows(Members(ks[..n]), ks[n]);
    }
  }

  lemma NoMembers()
    ensures Members([]) == {}
  {
  }

  lemma Grows(s: set<nat>, x: nat)
    requires x !in s
    ensures |s + {x}| == |s| + 1
  {
  }

  lemma LastMember(ks: seq<nat>)
    requires ks != [] && forall i, j | 0 <= i < j < |ks| :: ks[i] < ks[j]
    ensures var n := |ks| - 1;
            Members(ks) == Members(ks[..n]) + {ks[n]} && ks[n] !in Members(ks[..n])
  {
    assert ks == ks[..|ks| - 1] + [ks[|ks| - 1]];
  }

  lemma NoGivers(modules: seq<Module>)
    ensures modules[..0] == [] && Givers([]) == []
  {
  }

  lemma OneMore(modules: seq<Module>, n: nat)
    requires n < |modules|
    ensures Givers(modules[..n + 1]) == Givers(modules[..n]) + if modules[n].givesCallInfo then [n] else []
  {
    assert modules[..n + 1][..n] == modules[..n];
  }

  class CallInfo {
    const handled: bool
    var requests: nat
    var data: Option<string>
    var events: seq<Event>
    var sent: seq<string>

    function Value(): Info
      reads this
    {
      Info(requests, data, events)
    }

    ghost predicate Valid()
      reads this
    {
      data.Some? ==> All(data.value, NotNul)
    }

    /** Counts the modules while sending; replies only come once the loop is done. On a closed
        connection nothing is sent, but the requests are counted all the same. */
    constructor Fetch(modules: seq<Module>, handled: bool, live: bool)
      ensures Valid() && this.handled == handled
      ensures Value() == Sent(Count(modules))
      ensures sent == if live then UrisAt(modules, Givers(modules)) else []
    {
      hide Givers;
      this.handled, requests, data, events, sent := handled, 0, None, [], [];
      new;
      NoGivers(modules);
      for n := 0 to |modules|
        invariant sent == if live then UrisAt(modules, Givers(modules[..n])) else []
        invariant Value() == Sent(|Givers(modules[..n])|) && Valid() && this.handled == handled
      {
        OneMore(modules, n);
        if modules[n].givesCallInfo {
          requests := requests + 1;
          if live {
            sent := sent + [modules[n].uri];
          }
        }
      }
      assert modules[..|modules|] == modules;
      GiversAreCounted(modules);
    }

    /** One reply. `field` is the stack memory under the tokenizer's buffers. */
    method Response(status: nat, content: string, field: array<char>) returns (defined: bool)
      requires Valid() && requests > 0 && All(content, NotNul) && field.Length == FIELD_SIZE
      modifies this, field
      ensures Valid() && sent == old(sent)
      ensures exists memory: string :: |memory| == FIELD_SIZE &&
                (if defined then Value() else Broken)
                == Respond(old(Value()), handled, Answer(status, content, old(field[..]), memory))
    {
      hide Merge, All;
      ghost var memory1, memory2 := field[..], field[..];
      requests := requests - 1;
      if status == 200 {
        if data == None {
          data := Some(content);
        } else {
          var newData := HamCsvMerge(data.value, content, field);
          memory2 :| |memory2| == FIELD_SIZE && newData == Merge(data.value, content, memory1, memory2);
          MergeIsNulFree(data.value, content, memory1, memory2);
          if newData == None {
            assert |memory2| == FIELD_SIZE &&
                   Broken == Respond(old(Value()), handled, Answer(status, content, memory1, memory2));
            return false;
          }
          data := newData;
        }
      }
      if requests == 0 {
        if data.Some? {
          if handled {
            events := events + [Handled(data.value)];
          }
          events := events + [Signalled(data.value)];
        }
      }
      assert |memory2| == FIELD_SIZE &&
             Value() == Respond(old(Value()), handled, Answer(status, content, memory1, memory2));
      return true;
    }
  }

  /** Whatever is replied, nothing fires before the last reply, and the last reply fires the
      handler and the signal once each, if there is data. */
  lemma {:induction false} FiresOnceAtTheEnd(n: nat, handled: bool, answers: seq<Answer>)
    requires |answers| <= n
    ensures var r := RespondAll(Sent(n), handled, answers);
            r.Info? ==>
              r.events ==
              if 0 < n == |answers| && r.data.Some?
              then (if handled then [Handled(r.data.value)] else []) + [Signalled(r.data.value)]
              else []
    decreases |answers|
  {
    hide Merge;
    if answers != [] {
      FiresOnceAtTheEnd(n, handled, answers[..|answers| - 1]);
    }
  }

  /** The tables in the replies that carry one, in the order of the replies. */
  function Tables(answers: seq<Answer>): seq<seq<Row>> {
    if answers == [] then [] else
      var k := |answers| - 1;
      Tables(answers[..k]) + if answers[k].status == 200 then [ScanText(START, answers[k].content).rows] else []
  }

  ghost predicate Tabular(answers: seq<Answer>) {
    forall i | 0 <= i < |answers| ::
      && (answers[i].status == 200 ==> PlainText(answers[i].content))
      && |answers[i].memory1| == |answers[i].memory2| == FIELD_SIZE
  }

  /** When the replies with status 200 carry tables, the data gathered reads as the left fold
      of the merges over those tables, in the order of the replies, whatever the buffers
      held; without any such reply there is none. */
  lemma {:induction false} GathersTables(n: nat, handled: bool, answers: seq<Answer>)
    requires |answers| <= n && Tabular(answers)
    ensures var r := RespondAll(Sent(n), handled, answers);
            && r.Info?
            && (r.data == None <==> Tables(answers) == [])
            && (r.data.Some? ==> Table(r.data.value, Gather(Tables(answers))))
    decreases |answers|
  {
    hide ScanText, Table, Merge, PlainText, Fired, Gather;
    if answers != [] {
      var k := |answers| - 1;
      var before, a := answers[..k], answers[k];
      GathersTables(n, handled, before);
      var tables := Tables(before);
      if a.status == 200 {
        var table := ScanText(START, a.content).rows;
        PlainTextIsTable(a.content);
        assert Tables(answers) == tables + [table];
        GatherNext(tables, table);
        if tables != [] {
          MergeIsTable(RespondAll(Sent(n), handled, before).data.value, Gather(tables), a.content, table,
                       a.memory1, a.memory2);
        }
      } else {
        assert Tables(answers) == tables;
      }
    }
  }

  lemma GatherNext(tables: seq<seq<Row>>, table: seq<Row>)
    ensures Gather(tables + [table]) == if tables == [] then table
                                        else CsvMerge.Widen(MergeRows(Gather(tables), table))
  {
    assert (tables + [table])[..|tables|] == tables;
  }

  /** The whole exchange: after as many replies as there are modules that give call information,
      some of them with tables, the handler has been given, once, a text in which every header
      that some table has stands over the value that the first such table gave, in each row
      that all tables share. */
  lemma {:induction false} HandlerSeesAlignedColumns(modules: seq<Module>, answers: seq<Answer>, name: string, i: nat)
    returns (data: string, rows: seq<Row>)
    requires |answers| == Count(modules)
    requires Tabular(answers) && Tables(answers) != [] && name != ""
    requires forall k | 0 <= k < |Tables(answers)| :: RowMatchesHeader(Tables(answers)[k], i)
    ensures var r := RespondAll(Sent(Count(modules)), true, answers);
            r.Info? && r.events == [Handled(data), Signalled(data)]
    ensures Table(data, rows) && ValueUnder(rows, name, i) == FirstValue(Tables(answers), name, i)
  {
    hide Table, Gather, ValueUnder, FirstValue, RespondAll, Tabular, Count;
    assert answers != [];
    FiresOnceAtTheEnd(|answers|, true, answers);
    GathersTables(|answers|, true, answers);
    GatherKeepsColumns(Tables(answers), name, i);
    data := RespondAll(Sent(|answers|), true, answers).data.value;
    rows := Gather(Tables(answers));
  }
}
