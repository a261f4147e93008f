/** Client, server and both printers and parsers together: one client connection to one
    server session. The state of the wire is what was sent and how much of it has arrived. */
module EndToEnd {
  import opened Chars
  import RM = RequestMachine
  import RP = RequestPrinting
  import PM = ReplyMachine
  import PP = ReplyPrinting
  import RT = ReplyRoundTrip
  import SM = SessionMachine
  import CM = ConnectionMachine

  /** A request with the handler its reply is meant for. */
  datatype Call = Call(request: RP.ClientRequest, handler: nat)

  /** `toServer` bytes of the printed requests and `toClient` of the written replies have
      arrived. */
  datatype System = System(session: SM.Session, conn: CM.Connection<Call>, toServer: nat, toClient: nat)

  datatype World = World(respond: SM.Responder, react: CM.Reaction<Call>)

  /** The responder only gives replies the client can read, and handlers only send requests
      the server can read. */
  ghost predicate Civil(w: World) {
    && (forall requests :: RT.Readable(w.respond(requests).reply))
    && (forall h, r, i | 0 <= i < |w.react(h, r)| :: RP.WellFormed(w.react(h, r)[i].request))
  }

  function Parts(sent: seq<Call>): (r: seq<string>)
    ensures |r| == |sent|
  {
    seq(|sent|, i requires 0 <= i < |sent| => RP.Print(sent[i].request))
  }

  /** The requests as the server is meant to see them. */
  function Seen(sent: seq<Call>): (r: seq<RM.Request>)
    ensures |r| == |sent|
  {
    seq(|sent|, i requires 0 <= i < |sent| => RP.Expected(sent[i].request))
  }

  function Wire(sent: seq<Call>): string {
    SM.Flatten(Parts(sent))
  }

  datatype Event = Send(call: Call) | ServerRead(bytes: nat) | ServerCompletes | ClientRead(replies: nat)

  ghost predicate Enabled(s: System, e: Event) {
    match e
    case Send(call) => RP.WellFormed(call.request)
    case ServerRead(n) =>
      && s.toServer + n <= |Wire(s.conn.sent)|
      && SM.Enabled(s.session, SM.Read(Wire(s.conn.sent)[s.toServer..s.toServer + n]))
    case ServerCompletes => SM.Enabled(s.session, SM.Complete)
    case ClientRead(n) =>
      && 0 < n && s.toClient + n <= |s.session.written|
      && CM.Enabled(s.conn, CM.Data(CM.Join(s.session.written[s.toClient..s.toClient + n])))
  }

  ghost function Handle(s: System, e: Event, w: World): System
    requires Enabled(s, e)
  {
    match e
    case Send(call) => s.(conn := CM.Send(s.conn, call))
    case ServerRead(n) =>
      s.(toServer := s.toServer + n,
         session := SM.Handle(s.session, SM.Read(Wire(s.conn.sent)[s.toServer..s.toServer + n]), w.respond))
    case ServerCompletes => s.(session := SM.Handle(s.session, SM.Complete, w.respond))
    case ClientRead(n) =>
      s.(toClient := s.toClient + n,
         conn := CM.Handle(s.conn, CM.Data(CM.Join(s.session.written[s.toClient..s.toClient + n])), w.react))
  }

  ghost predicate Possible(s: System, events: seq<Event>, w: World)
    decreases |events|
  {
    events == [] || (Enabled(s, events[0]) && Possible(Handle(s, events[0], w), events[1..], w))
  }

  ghost function Run(s: System, events: seq<Event>, w: World): System
    requires Possible(s, events, w)
    decreases |events|
  {
    if events == [] then s else Run(Handle(s, events[0], w), events[1..], w)
  }

  function Initial(): System {
    System(SM.INITIAL, CM.Initial(), 0, 0)
  }

  // ---------------------------------------------------------------- invariant

  /** What the client gets for the i-th request: the responder's reply to it. */
  function AnswerTo(w: World, sent: seq<Call>, i: nat): PM.ClientReply
    requires i < |sent|
  {
    RT.Parsed(w.respond(Seen(sent)[..i + 1]).reply)
  }

  ghost predicate ClientInv(conn: CM.Connection<Call>, arrived: nat, w: World) {
    && conn.live && conn.m == PM.START
    && (forall i | 0 <= i < |conn.sent| :: RP.WellFormed(conn.sent[i].request))
    && arrived == |conn.delivered| <= |conn.sent|
    && conn.queue == conn.sent[arrived..]
    && (forall i | 0 <= i < arrived ::
          conn.delivered[i] == CM.Delivery(AnswerTo(w, conn.sent, i), Some(conn.sent[i])))
  }

  ghost predicate ServerInv(session: SM.Session, sent: seq<Call>, arrived: nat, w: World) {
    && session.stops == 0 && arrived <= |Wire(sent)|
    && SM.Inv(session, Wire(sent)[..arrived], w.respond)
  }

  ghost predicate Inv(s: System, w: World) {
    && ClientInv(s.conn, s.toClient, w)
    && ServerInv(s.session, s.conn.sent, s.toServer, w)
    && s.toClient <= |s.session.written|
  }

  lemma {:induction false} FlattenGrows(parts: seq<string>, more: seq<string>)
    ensures SM.Flatten(parts) <= SM.Flatten(parts + more)
    decreases |more|
  {
    if more == [] {
      assert parts + more == parts;
    } else {
      var k := |more| - 1;
      FlattenGrows(parts, more[..k]);
      assert (parts + more)[..|parts| + k] == parts + more[..k];
      Transitive(SM.Flatten(parts), SM.Flatten(parts + more[..k]), more[k]);
    }
  }

  lemma Transitive(a: string, b: string, c: string)
    requires a <= b
    ensures a <= b + c
  {
  }

  /** Sending more only extends the wire and what the server is meant to see. */
  lemma {:induction false} SentGrows(sent: seq<Call>, more: seq<Call>)
    ensures Wire(sent) <= Wire(sent + more)
    ensures Seen(sent + more) == Seen(sent) + Seen(more)
  {
    hide SM.Flatten;
    assert Parts(sent + more) == Parts(sent) + Parts(more);
    FlattenGrows(Parts(sent), Parts(more));
  }

  lemma {:induction false} ServerUnaffected(session: SM.Session, sent: seq<Call>, more: seq<Call>,
                                            arrived: nat, w: World)
    requires ServerInv(session, sent, arrived, w)
    ensures ServerInv(session, sent + more, arrived, w)
  {
    hide SM.Inv, Wire;
    SentGrows(sent, more);
    assert Wire(sent + more)[..arrived] == Wire(sent)[..arrived];
  }

  lemma AnswersUnaffected(w: World, sent: seq<Call>, more: seq<Call>, i: nat)
    requires i < |sent|
    ensures AnswerTo(w, sent + more, i) == AnswerTo(w, sent, i)
  {
    SentGrows(sent, more);
    assert Seen(sent + more)[..i + 1] == Seen(sent)[..i + 1];
  }

  lemma {:induction false} SendKeepsClient(conn: CM.Connection<Call>, arrived: nat, more: seq<Call>, w: World)
    requires ClientInv(conn, arrived, w)
    requires forall i | 0 <= i < |more| :: RP.WellFormed(more[i].request)
    ensures ClientInv(conn.(queue := conn.queue + more, sent := conn.sent + more), arrived, w)
  {
    hide AnswerTo, RP.WellFormed;
    forall i | 0 <= i < arrived ensures AnswerTo(w, conn.sent + more, i) == AnswerTo(w, conn.sent, i) {
      AnswersUnaffected(w, conn.sent, more, i);
    }
    assert conn.queue + more == (conn.sent + more)[arrived..];
  }

  // ---------------------------------------------------------------- server events

  /** What the reference makes of everything on the wire. */
  lemma {:induction false} WireIsAccepted(sent: seq<Call>)
    requires forall i | 0 <= i < |sent| :: RP.WellFormed(sent[i].request)
    ensures SM.Pull(SM.NOTHING, Wire(sent)) == SM.Stream(RM.START, Seen(sent), false)
  {
    hide SM.Pull, SM.Flatten, RP.Print, RP.WellFormed, RM.Accepts;
    forall i | 0 <= i < |sent| ensures RM.Accepts(Parts(sent)[i], Seen(sent)[i]) {
      RP.RequestRoundTrip(sent[i].request);
    }
    SM.PullAll(Parts(sent), Seen(sent));
  }

  lemma {:induction false} ServerStep(session: SM.Session, sent: seq<Call>, arrived: nat, e: SM.Event, w: World)
    requires ServerInv(session, sent, arrived, w) && SM.Enabled(session, e) && e != SM.ReadError
    requires forall i | 0 <= i < |sent| :: RP.WellFormed(sent[i].request)
    requires arrived + |SM.Got(e)| <= |Wire(sent)|
    requires Wire(sent)[arrived..arrived + |SM.Got(e)|] == SM.Got(e)
    ensures ServerInv(SM.Handle(session, e, w.respond), sent, arrived + |SM.Got(e)|, w)
  {
    hide SM.Inv, SM.Handle, SM.Enabled, SM.Pull, Wire;
    var wire, now := Wire(sent), arrived + |SM.Got(e)|;
    assert wire[..now] == wire[..arrived] + SM.Got(e);
    SM.HandleKeepsInv(session, e, wire[..arrived], w.respond);
    SM.StopsOnlyWhenBroken(session, e, wire[..arrived], w.respond);
    WireIsAccepted(sent);
    assert wire == wire[..now] + wire[now..];
    SM.PullSplit(SM.NOTHING, wire[..now], wire[now..]);
    SM.PullGrows(SM.Pull(SM.NOTHING, wire[..now]), wire[now..]);
  }

  /** The server never writes a reply before it received the request. */
  lemma {:induction false} WrittenIsAnswered(session: SM.Session, sent: seq<Call>, arrived: nat, w: World)
    requires ServerInv(session, sent, arrived, w)
    requires forall i | 0 <= i < |sent| :: RP.WellFormed(sent[i].request)
    ensures session.handed <= Seen(sent)
    ensures session.written <= SM.Replies(w.respond, Seen(sent)) && |session.written| <= |sent|
    ensures arrived == |Wire(sent)| && session.pending.None? ==>
              session.handed == Seen(sent) && |session.written| == |sent|
  {
    hide *;
    WireIsAccepted(sent);
    InvOf(session, sent, arrived, w);
    var got := Wire(sent)[..arrived];
    SM.HandedInOrder(session, got, Wire(sent), Seen(sent), w.respond);
    SM.WrittenInOrder(session, got, Seen(sent), w.respond);
  }

  lemma InvOf(session: SM.Session, sent: seq<Call>, arrived: nat, w: World)
    requires ServerInv(session, sent, arrived, w)
    ensures session.stops == 0 && arrived <= |Wire(sent)| && SM.Inv(session, Wire(sent)[..arrived], w.respond)
    ensures Wire(sent)[..arrived] <= Wire(sent)
    ensures arrived == |Wire(sent)| ==> Wire(sent)[..arrived] == Wire(sent)
    ensures SM.Inv(session, Wire(sent)[..arrived], w.respond) ==> (session.pending.Some? ==> session.handed != [])
  {
    hide SM.Pull, SM.Replies, Wire;
  }

  lemma {:induction false} ReplyAt(respond: SM.Responder, requests: seq<RM.Request>, i: nat)
    requires i < |requests|
    ensures SM.Replies(respond, requests)[i] == PP.PrintReply(respond(requests[..i + 1]).reply)
    decreases |requests|
  {
    hide PP.PrintReply;
    var k := |requests| - 1;
    if i < k {
      ReplyAt(respond, requests[..k], i);
      assert requests[..k][..i + 1] == requests[..i + 1];
    } else {
      assert requests[..i + 1] == requests;
    }
  }

  // ---------------------------------------------------------------- client reads

  /** The replies numbered `from` to `from + n`. */
  function Answers(w: World, sent: seq<Call>, from: nat, n: nat): (r: seq<PM.ClientReply>)
    requires from + n <= |sent|
    ensures |r| == n
  {
    seq(n, i requires 0 <= i < n => AnswerTo(w, sent, from + i))
  }

  lemma {:induction false} WrittenReadsBack(s: System, n: nat, w: World)
    requires Inv(s, w) && Civil(w) && s.toClient + n <= |s.session.written|
    ensures s.toClient + n <= |s.conn.sent|
    ensures CM.ReadsAll(s.session.written[s.toClient..s.toClient + n], Answers(w, s.conn.sent, s.toClient, n))
  {
    hide SM.Replies, PP.PrintReply, RT.Readable, RP.WellFormed, CM.Reads, RT.Parsed, SM.Inv, Wire, ClientInv;
    var sent := s.conn.sent;
    AllWellFormed(s.conn, s.toClient, w);
    WrittenIsAnswered(s.session, sent, s.toServer, w);
    hide ServerInv;
    var written := s.session.written;
    forall j | 0 <= j < |written| ensures CM.Reads(written[j], AnswerTo(w, sent, j)) {
      ReplyAt(w.respond, Seen(sent), j);
      ReadBack(w.respond(Seen(sent)[..j + 1]).reply);
    }
    hide AnswerTo;
    var parts, replies := written[s.toClient..s.toClient + n], Answers(w, sent, s.toClient, n);
    forall i | 0 <= i < n ensures CM.Reads(parts[i], replies[i]) {
      assert parts[i] == written[s.toClient + i];
    }
  }

  lemma AllWellFormed(conn: CM.Connection<Call>, arrived: nat, w: World)
    requires ClientInv(conn, arrived, w)
    ensures forall i | 0 <= i < |conn.sent| :: RP.WellFormed(conn.sent[i].request)
  {
    hide RP.WellFormed, AnswerTo;
  }

  lemma ReadBack(r: PP.ServerReply)
    requires RT.Readable(r)
    ensures CM.Reads(PP.PrintReply(r), RT.Parsed(r)) && PM.Visible(RT.Parsed(r)) == RT.Parsed(r)
  {
    hide PM.Feed, PP.PrintReply;
    RT.PrintedReplyIsRead(r, "");
    assert PP.PrintReply(r) + "" == PP.PrintReply(r);
  }

  /** Delivering the next replies in turn, while handlers send more. */
  lemma {:induction false} DeliveriesMatch(conn: CM.Connection<Call>, arrived: nat, n: nat, w: World)
    returns (more: seq<Call>)
    requires ClientInv(conn, arrived, w) && Civil(w) && arrived + n <= |conn.sent|
    ensures var r := CM.DeliverAll(conn, Answers(w, conn.sent, arrived, n), w.react);
            r.sent == conn.sent + more && ClientInv(r.(live := true, m := PM.START), arrived + n, w)
    decreases n
  {
    hide *;
    if n == 0 {
      more := [];
      NoDeliveries(conn, arrived, w);
    } else {
      var first, now := FirstDelivery(conn, arrived, n, w);
      var rest := DeliveriesMatch(first, arrived + 1, n - 1, w);
      more := now + rest;
      assert conn.sent + now + rest == conn.sent + more;
    }
  }

  lemma NoDeliveries(conn: CM.Connection<Call>, arrived: nat, w: World)
    requires ClientInv(conn, arrived, w)
    ensures CM.DeliverAll(conn, Answers(w, conn.sent, arrived, 0), w.react) == conn
    ensures conn.sent == conn.sent + [] && conn.(live := true, m := PM.START) == conn
  {
  }

  lemma {:induction false} FirstDelivery(conn: CM.Connection<Call>, arrived: nat, n: nat, w: World)
    returns (first: CM.Connection<Call>, now: seq<Call>)
    requires ClientInv(conn, arrived, w) && Civil(w) && 0 < n && arrived + n <= |conn.sent|
    ensures ClientInv(first, arrived + 1, w) && first.sent == conn.sent + now
    ensures CM.DeliverAll(conn, Answers(w, conn.sent, arrived, n), w.react)
         == CM.DeliverAll(first, Answers(w, first.sent, arrived + 1, n - 1), w.react)
  {
    var replies := Answers(w, conn.sent, arrived, n);
    assert replies[0] == AnswerTo(w, conn.sent, arrived);
    DeliverAllUnfolds(conn, replies, w);
    hide Answers, AnswerTo, ClientInv, CM.DeliverAll, CM.Deliver, Civil;
    first := CM.Deliver(conn.(m := PM.START.(reply := replies[0])), w.react);
    now := DeliveryMatches(conn, arrived, w);
    AnswersShift(conn.sent, now, arrived, n, w);
  }

  lemma DeliverAllUnfolds(conn: CM.Connection<Call>, replies: seq<PM.ClientReply>, w: World)
    requires replies != []
    ensures CM.DeliverAll(conn, replies, w.react)
         == CM.DeliverAll(CM.Deliver(conn.(m := PM.START.(reply := replies[0])), w.react), replies[1..], w.react)
  {
  }

  lemma {:induction false} AnswersShift(sent: seq<Call>, more: seq<Call>, from: nat, n: nat, w: World)
    requires 0 < n && from + n <= |sent|
    ensures Answers(w, sent + more, from + 1, n - 1) == Answers(w, sent, from, n)[1..]
  {
    hide AnswerTo;
    forall j | 0 <= j < |sent| ensures AnswerTo(w, sent + more, j) == AnswerTo(w, sent, j) {
      AnswersUnaffected(w, sent, more, j);
    }
    var a, b := Answers(w, sent + more, from + 1, n - 1), Answers(w, sent, from, n)[1..];
    forall i | 0 <= i < n - 1 ensures a[i] == b[i] {
      assert from + 1 + i < |sent|;
    }
  }

  lemma {:induction false} DeliveryMatches(conn: CM.Connection<Call>, arrived: nat, w: World) returns (more: seq<Call>)
    requires ClientInv(conn, arrived, w) && Civil(w) && arrived < |conn.sent|
    ensures var r := CM.Deliver(conn.(m := PM.START.(reply := AnswerTo(w, conn.sent, arrived))), w.react);
            r.sent == conn.sent + more && ClientInv(r, arrived + 1, w)
  {
    hide RP.WellFormed, RT.Readable, PM.Visible;
    var reply := AnswerTo(w, conn.sent, arrived);
    ReadBack(w.respond(Seen(conn.sent)[..arrived + 1]).reply);
    hide AnswerTo;
    assert conn.queue != [] && conn.queue[0] == conn.sent[arrived];
    more := w.react(conn.queue[0], reply);
    var next := conn.(queue := conn.queue[1..],
                      delivered := conn.delivered + [CM.Delivery(reply, Some(conn.sent[arrived]))]);
    assert ClientInv(next, arrived + 1, w);
    SendKeepsClient(next, arrived + 1, more, w);
  }

  lemma {:induction false} ClientReadKeepsInv(s: System, n: nat, w: World)
    requires Inv(s, w) && Civil(w) && Enabled(s, ClientRead(n))
    ensures Inv(Handle(s, ClientRead(n), w), w)
  {
    hide SM.Inv, ServerInv, ClientInv, Civil, AnswerTo, CM.ReadLoop, CM.DeliverAll, CM.Join, CM.ReadsAll;
    WrittenReadsBack(s, n, w);
    var parts := s.session.written[s.toClient..s.toClient + n];
    var replies := Answers(w, s.conn.sent, s.toClient, n);
    LiveAtStart(s, w);
    assert CM.Join(parts) + "" == CM.Join(parts);
    CM.WholeRepliesDelivered(s.conn, parts, replies, "", w.react);
    var more := DeliveriesMatch(s.conn, s.toClient, n, w);
    ServerUnaffected(s.session, s.conn.sent, more, s.toServer, w);
    var r, d := CM.ReadLoop(s.conn, CM.Join(parts), w.react), CM.DeliverAll(s.conn, replies, w.react);
    assert r == d.(live := true, m := PM.START);
  }

  lemma LiveAtStart(s: System, w: World)
    requires Inv(s, w)
    ensures s.conn.live && s.conn.m == PM.START && PM.Feed(PM.START, "").More?
  {
  }

  // ---------------------------------------------------------------- all runs

  lemma {:induction false} HandleKeepsInv(s: System, e: Event, w: World)
    requires Inv(s, w) && Civil(w) && Enabled(s, e)
    ensures Inv(Handle(s, e, w), w)
  {
    hide SM.Inv, SM.Handle, CM.Handle, Wire, RP.WellFormed, AnswerTo, Civil;
    match e
    case Send(call) =>
      SendKeepsClient(s.conn, s.toClient, [call], w);
      ServerUnaffected(s.session, s.conn.sent, [call], s.toServer, w);
    case ServerRead(n) =>
      var chunk := Wire(s.conn.sent)[s.toServer..s.toServer + n];
      ServerStep(s.session, s.conn.sent, s.toServer, SM.Read(chunk), w);
      WrittenGrows(s.session, SM.Read(chunk), w.respond);
    case ServerCompletes =>
      ServerStep(s.session, s.conn.sent, s.toServer, SM.Complete, w);
      WrittenGrows(s.session, SM.Complete, w.respond);
    case ClientRead(n) => ClientReadKeepsInv(s, n, w);
  }

  lemma {:induction false} WrittenGrows(s: SM.Session, e: SM.Event, respond: SM.Responder)
    requires SM.Enabled(s, e)
    ensures |s.written| <= |SM.Handle(s, e, respond).written|
  {
    hide SM.Loop, PP.PrintReply;
    match e
    case Read(chunk) => LoopWrites(s.(outstanding := s.outstanding - 1, buffer := chunk), respond);
    case ReadError =>
    case Complete =>
      LoopWrites(s.(pending := None, written := s.written + [PP.PrintReply(s.pending.value)]), respond);
  }

  lemma {:induction false} LoopWrites(s: SM.Session, respond: SM.Responder)
    requires s.Bounded() && s.outstanding == 0 && s.pending.None?
    ensures |s.written| <= |SM.Loop(s, respond).written|
    decreases |s.buffer| - s.parsedTotal
  {
    if s.parsedTotal != |s.buffer| {
      var n := SM.Pass(s, respond);
      if n.stops == s.stops && n.pending.None? {
        LoopWrites(n, respond);
      }
    }
  }

  lemma {:induction false} RunKeepsInv(s: System, events: seq<Event>, w: World)
    requires Inv(s, w) && Civil(w) && Possible(s, events, w)
    ensures Inv(Run(s, events, w), w)
    decreases |events|
  {
    if events != [] {
      hide Inv, Civil, Handle, Enabled;
      HandleKeepsInv(s, events[0], w);
      RunKeepsInv(Handle(s, events[0], w), events[1..], w);
    }
  }

  /** The calls made from outside. */
  function Calls(events: seq<Event>): seq<Call> {
    if events == [] then [] else
      (match events[0]
       case Send(call) => [call]
       case _ => [])
      + Calls(events[1..])
  }

  lemma {:induction false} HandleBalances(s: System, e: Event, w: World, called: seq<Call>)
    requires Enabled(s, e) && s.conn.live && CM.Balanced(s.conn, called, w.react)
    ensures CM.Balanced(Handle(s, e, w).conn, called + Calls([e]), w.react)
  {
    hide CM.Balanced, CM.ReadLoop, CM.Defined, Wire, RP.WellFormed, SM.Handle;
    match e
    case Send(call) => CM.SendBalances(s.conn, call, called, w.react); assert Calls([e]) == [call];
    case ClientRead(n) =>
      CM.ReadLoopBalances(s.conn, CM.Join(s.session.written[s.toClient..s.toClient + n]), called, w.react);
      assert called + Calls([e]) == called;
    case _ => assert called + Calls([e]) == called;
  }

  lemma {:induction false} RunBalances(s: System, events: seq<Event>, w: World, called: seq<Call>)
    requires Inv(s, w) && Civil(w) && Possible(s, events, w) && CM.Balanced(s.conn, called, w.react)
    ensures CM.Balanced(Run(s, events, w).conn, called + Calls(events), w.react)
    decreases |events|
  {
    hide Civil, Handle, Enabled, CM.Balanced, ServerInv;
    if events == [] {
      assert called + Calls(events) == called;
    } else {
      HandleKeepsInv(s, events[0], w);
      HandleBalances(s, events[0], w, called);
      RunBalances(Handle(s, events[0], w), events[1..], w, called + Calls([events[0]]));
      OneCall(events);
      assert called + Calls([events[0]]) + Calls(events[1..]) == called + (Calls([events[0]]) + Calls(events[1..]));
    }
  }

  lemma OneCall(events: seq<Event>)
    requires events != []
    ensures Calls(events) == Calls([events[0]]) + Calls(events[1..])
  {
    assert [events[0]][1..] == [];
  }

  /** End to end, over every run: however the bytes of the requests are cut into reads,
      whichever replies are asynchronous, however many whole replies each client read holds,
      and whatever further requests handlers send while they run, the i-th reply delivered
      is the responder's reply to the i-th request sent and goes to the handler of that
      request. When everything has arrived and no reply is pending, every request has been
      answered and no handler is left waiting. The requests sent are those called for, from
      outside and by handlers, each once. */
  lemma {:induction false} EveryCallIsAnsweredInOrder(events: seq<Event>, w: World)
    requires Civil(w) && Possible(Initial(), events, w)
    ensures var s := Run(Initial(), events, w);
            && s.session.stops == 0 && s.conn.live
            && |s.conn.delivered| <= |s.conn.sent|
            && (forall i | 0 <= i < |s.conn.delivered| ::
                  s.conn.delivered[i] == CM.Delivery(AnswerTo(w, s.conn.sent, i), Some(s.conn.sent[i])))
            && (s.toServer == |Wire(s.conn.sent)| && s.session.pending.None? && s.toClient == |s.session.written| ==>
                  |s.conn.delivered| == |s.conn.sent| && s.conn.queue == [])
            && multiset(s.conn.sent) == multiset(Calls(events)) + multiset(CM.Prompted(s.conn.delivered, w.react))
  {
    hide SM.Inv, AnswerTo, Wire, Possible, Run, Civil, RP.WellFormed;
    InitialInv(w);
    RunKeepsInv(Initial(), events, w);
    var s := Run(Initial(), events, w);
    WrittenIsAnswered(s.session, s.conn.sent, s.toServer, w);
    CM.NothingPrompted(w.react);
    RunBalances(Initial(), events, w, []);
    assert [] + Calls(events) == Calls(events);
  }

  lemma InitialInv(w: World)
    ensures Inv(Initial(), w)
  {
    hide SM.Inv, SM.Flatten, AnswerTo, RP.WellFormed, Parts;
    SM.InitialInv(w.respond);
    assert Wire([])[..0] == "";
  }
}
