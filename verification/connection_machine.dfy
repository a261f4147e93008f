/** The client connection as an event machine: requests are sent, each with a handler put
    at the end of a queue, and reads from the server are cut into replies that go to the
    handlers at the front of the queue. */
module ConnectionMachine {
  import opened Chars
  import opened ReplyMachine

  /** A finished reply and the handler it was given to; `None` when the queue was empty. */
  datatype Delivery<H> = Delivery(reply: ClientReply, handler: Option<H>)

  /** Running handler `h` on the reply: the handlers of the requests it sends meanwhile. */
  type Reaction<!H> = (H, ClientReply) -> seq<H>

  datatype Connection<!H> = Connection(live: bool, m: Machine, queue: seq<H>, sent: seq<H>,
                                       delivered: seq<Delivery<H>>)

  function Initial<H>(): Connection<H> {
    Connection(true, START, [], [], [])
  }

  /** Nothing is sent or queued on a closed connection. */
  function Send<H>(c: Connection<H>, h: H): Connection<H> {
    if c.live then c.(queue := c.queue + [h], sent := c.sent + [h]) else c
  }

  /** A finished reply: the tuple at the front leaves the queue before its handler runs. */
  function Deliver<H>(c: Connection<H>, react: Reaction<H>): (d: Connection<H>)
    ensures d.m == c.m.(reply := BLANK) && d.live == c.live && |d.delivered| == |c.delivered| + 1
  {
    var reply := Visible(c.m.reply);
    var next := c.(m := c.m.(reply := BLANK));
    if c.queue == [] then next.(delivered := c.delivered + [Delivery(reply, None)])
    else
      var h := c.queue[0];
      var more := react(h, reply);
      next.(queue := c.queue[1..] + more, sent := c.sent + more,
            delivered := c.delivered + [Delivery(reply, Some(h))])
  }

  /** The machine after a parse, with a fresh reply object if one finished. */
  function Renewed(m: Machine): Machine {
    if m.reply.finished then m.(reply := BLANK) else m
  }

  /** The bytes left of a read never make the parser write outside its buffers. */
  predicate Defined(m: Machine, left: string)
    decreases |left|
  {
    |left| == 1 ||
    var o := Feed(m, left);
    && !o.Crash?
    && var parsed := Returned(left, o);
       (parsed == 0 || Defined(Renewed(o.m), left[parsed..]))
  }

  /** One turn of the loop, after a parse that made progress. */
  function Pass<H>(c: Connection<H>, m: Machine, react: Reaction<H>): (r: Connection<H>)
    ensures r.m == Renewed(m) && r.live == c.live
  {
    if m.reply.finished then Deliver(c.(m := m), react) else c.(m := m)
  }

  /** The loop over the bytes left of a read: it runs until one byte is left, and takes a
      parse that makes no progress for malformed data. */
  function ReadLoop<H>(c: Connection<H>, left: string, react: Reaction<H>): Connection<H>
    requires Defined(c.m, left)
    decreases |left|
  {
    if |left| == 1 then c else
      var o := Feed(c.m, left);
      var parsed := Returned(left, o);
      if parsed == 0 then c.(m := o.m, live := false)
      else ReadLoop(Pass(c, o.m, react), left[parsed..], react)
  }

  datatype Event<H> = Request(handler: H) | Data(bytes: string)

  predicate Enabled<H>(c: Connection<H>, e: Event<H>) {
    e.Data? ==> c.live && e.bytes != "" && Defined(c.m, e.bytes)
  }

  function Handle<H>(c: Connection<H>, e: Event<H>, react: Reaction<H>): Connection<H>
    requires Enabled(c, e)
  {
    match e
    case Request(h) => Send(c, h)
    case Data(s) => ReadLoop(c, s, react)
  }

  predicate Possible<H>(c: Connection<H>, events: seq<Event<H>>, react: Reaction<H>)
    decreases |events|
  {
    events == [] || (Enabled(c, events[0]) && Possible(Handle(c, events[0], react), events[1..], react))
  }

  function Run<H>(c: Connection<H>, events: seq<Event<H>>, react: Reaction<H>): Connection<H>
    requires Possible(c, events, react)
    decreases |events|
  {
    if events == [] then c else Run(Handle(c, events[0], react), events[1..], react)
  }

  // ---------------------------------------------------------------- first in, first out

  /** The handlers that were given a reply, in order of delivery. */
  function Answered<H>(delivered: seq<Delivery<H>>): seq<H> {
    if delivered == [] then [] else
      var d := delivered[|delivered| - 1];
      Answered(delivered[..|delivered| - 1]) + (if d.handler.Some? then [d.handler.value] else [])
  }

  /** Handlers answered and handlers waiting are the requests sent, in order; and between
      reads a live connection's parser is at the start of a reply. */
  ghost predicate Inv<H>(c: Connection<H>) {
    && Answered(c.delivered) + c.queue == c.sent
    && (c.live ==> c.m == c.m.Reset())
    && !c.m.reply.finished
  }

  lemma AnsweredSnoc<H>(delivered: seq<Delivery<H>>, d: Delivery<H>)
    ensures Answered(delivered + [d])
         == Answered(delivered) + (if d.handler.Some? then [d.handler.value] else [])
  {
    assert (delivered + [d])[..|delivered|] == delivered;
  }

  lemma {:induction false} DeliverKeepsOrder<H>(c: Connection<H>, react: Reaction<H>)
    requires Answered(c.delivered) + c.queue == c.sent
    ensures var d := Deliver(c, react); Answered(d.delivered) + d.queue == d.sent
  {
    hide Answered;
    if c.queue == [] {
      AnsweredSnoc(c.delivered, Delivery(Visible(c.m.reply), None));
    } else {
      var h := c.queue[0];
      var more := react(h, Visible(c.m.reply));
      AnsweredSnoc(c.delivered, Delivery(Visible(c.m.reply), Some(h)));
      assert c.queue == [h] + c.queue[1..];
      assert Answered(c.delivered) + [h] + (c.queue[1..] + more) == Answered(c.delivered) + c.queue + more;
    }
  }

  lemma {:induction false} ReadLoopKeepsInv<H>(c: Connection<H>, left: string, react: Reaction<H>)
    requires Defined(c.m, left) && Inv(c) && c.live
    ensures Inv(ReadLoop(c, left, react))
    decreases |left|
  {
    hide Answered, Feed, Deliver;
    if |left| != 1 {
      var o := Feed(c.m, left);
      var parsed := Returned(left, o);
      if o.Done? { FirstByteNeverFinishes(c.m, left); }
      if parsed != 0 {
        DeliverKeepsOrder(c.(m := o.m), react);
        var next := Pass(c, o.m, react);
        if o.More? {
          EndsInside(next, react);
        } else {
          ReadLoopKeepsInv(next, left[parsed..], react);
        }
      }
    }
  }

  /** From the start state it takes more than one byte to finish a reply. */
  lemma FirstByteNeverFinishes(m: Machine, s: string)
    requires m.state == VersionH && !m.reply.finished && Feed(m, s).Done?
    ensures |Feed(m, s).rest| <= |s| - 2
  {
  }

  /** A read that ends inside a reply is taken for malformed data. */
  lemma EndsInside<H>(c: Connection<H>, react: Reaction<H>)
    ensures Defined(c.m, "") && ReadLoop(c, "", react) == c.(live := false)
  {
    assert Feed(c.m, "") == More(c.m);
  }

  lemma {:induction false} RunKeepsInv<H>(c: Connection<H>, events: seq<Event<H>>, react: Reaction<H>)
    requires Possible(c, events, react) && Inv(c)
    ensures Inv(Run(c, events, react))
    decreases |events|
  {
    if events != [] {
      hide Answered, ReadLoop;
      var e := events[0];
      match e {
        case Request(h) => assert Answered(c.delivered) + c.queue + [h] == Answered(c.delivered) + (c.queue + [h]);
        case Data(s) => ReadLoopKeepsInv(c, s, react);
      }
      assert Inv(Handle(c, e, react));
      RunKeepsInv(Handle(c, e, react), events[1..], react);
    }
  }

  // ---------------------------------------------------------------- what is sent

  /** The handlers of the requests made from outside. */
  function Callers<H>(events: seq<Event<H>>): seq<H> {
    if events == [] then [] else
      Callers(events[..|events| - 1])
      + match events[|events| - 1] case Request(h) => [h] case Data(_) => []
  }

  /** The handlers of the requests made by handlers while they ran. */
  function Prompted<H>(delivered: seq<Delivery<H>>, react: Reaction<H>): seq<H> {
    if delivered == [] then [] else
      var d := delivered[|delivered| - 1];
      Prompted(delivered[..|delivered| - 1], react)
      + if d.handler.Some? then react(d.handler.value, d.reply) else []
  }

  /** What was sent is what was called from outside and by handlers, each once. */
  ghost predicate Balanced<H>(c: Connection<H>, called: seq<H>, react: Reaction<H>) {
    multiset(c.sent) == multiset(called) + multiset(Prompted(c.delivered, react))
  }

  lemma PromptedSnoc<H>(delivered: seq<Delivery<H>>, d: Delivery<H>, react: Reaction<H>)
    ensures Prompted(delivered + [d], react)
         == Prompted(delivered, react) + if d.handler.Some? then react(d.handler.value, d.reply) else []
  {
    assert (delivered + [d])[..|delivered|] == delivered;
  }

  lemma {:induction false} DeliverBalances<H>(c: Connection<H>, called: seq<H>, react: Reaction<H>)
    requires Balanced(c, called, react)
    ensures Balanced(Deliver(c, react), called, react)
  {
    hide Prompted;
    var reply := Visible(c.m.reply);
    PromptedSnoc(c.delivered, Delivery(reply, if c.queue == [] then None else Some(c.queue[0])), react);
  }

  lemma {:induction false} ReadLoopBalances<H>(c: Connection<H>, left: string, called: seq<H>, react: Reaction<H>)
    requires Defined(c.m, left) && Balanced(c, called, react)
    ensures Balanced(ReadLoop(c, left, react), called, react)
    decreases |left|
  {
    hide Feed, Deliver, Prompted;
    if |left| != 1 {
      var o := Feed(c.m, left);
      var parsed := Returned(left, o);
      if parsed != 0 {
        DeliverBalances(c.(m := o.m), called, react);
        ReadLoopBalances(Pass(c, o.m, react), left[parsed..], called, react);
      }
    }
  }

  lemma SendBalances<H>(c: Connection<H>, h: H, called: seq<H>, react: Reaction<H>)
    requires Balanced(c, called, react) && c.live
    ensures Balanced(Send(c, h), called + [h], react)
  {
    hide Prompted;
  }

  lemma RunSnoc<H>(c: Connection<H>, events: seq<Event<H>>, e: Event<H>, react: Reaction<H>)
    requires Possible(c, events + [e], react)
    ensures Possible(c, events, react) && Enabled(Run(c, events, react), e)
    ensures Run(c, events + [e], react) == Handle(Run(c, events, react), e, react)
    decreases |events|
  {
    hide ReadLoop, Defined;
    if events == [] {
      assert events + [e] == [e] && [e][1..] == [];
    } else {
      assert (events + [e])[0] == events[0] && (events + [e])[1..] == events[1..] + [e];
      RunSnoc(Handle(c, events[0], react), events[1..], e, react);
    }
  }

  /** Over every run that does not lose the connection, every request made, from outside or by
      a handler, has been sent once, and nothing else has. */
  lemma {:induction false} EveryRequestIsSent<H>(events: seq<Event<H>>, react: Reaction<H>)
    requires Possible(Initial(), events, react) && Run(Initial(), events, react).live
    ensures var c := Run(Initial(), events, react);
            multiset(c.sent) == multiset(Callers(events)) + multiset(Prompted(c.delivered, react))
    decreases |events|
  {
    hide Prompted, ReadLoop, Defined;
    if events == [] {
      assert Prompted<H>([], react) == [] by { NothingPrompted(react); }
    } else {
      var k := |events| - 1;
      var e := events[k];
      assert events == events[..k] + [e];
      RunSnoc(Initial(), events[..k], e, react);
      var c := Run(Initial(), events[..k], react);
      var called := Callers(events[..k]);
      match e {
        case Request(h) =>
          EveryRequestIsSent(events[..k], react);
          SendBalances(c, h, called, react);
        case Data(s) =>
          StaysDead(c, s, react);
          EveryRequestIsSent(events[..k], react);
          ReadLoopBalances(c, s, called, react);
          assert called + [] == called;
      }
    }
  }

  lemma NothingPrompted<H>(react: Reaction<H>)
    ensures Prompted<H>([], react) == []
  {
  }

  lemma {:induction false} StaysDead<H>(c: Connection<H>, left: string, react: Reaction<H>)
    requires Defined(c.m, left)
    ensures ReadLoop(c, left, react).live ==> c.live
    decreases |left|
  {
    hide Feed, Deliver;
    if |left| != 1 {
      var o := Feed(c.m, left);
      var parsed := Returned(left, o);
      if parsed != 0 {
        StaysDead(Pass(c, o.m, react), left[parsed..], react);
      }
    }
  }

  ghost predicate EveryReplyAwaited<H>(c: Connection<H>) {
    forall i | 0 <= i < |c.delivered| :: c.delivered[i].handler.Some?
  }

  lemma {:induction false} AnsweredAll<H>(delivered: seq<Delivery<H>>)
    requires forall i | 0 <= i < |delivered| :: delivered[i].handler.Some?
    ensures |Answered(delivered)| == |delivered|
    ensures forall i | 0 <= i < |delivered| :: delivered[i].handler == Some(Answered(delivered)[i])
    decreases |delivered|
  {
    if delivered != [] {
      AnsweredAll(delivered[..|delivered| - 1]);
    }
  }

  /** First in, first out, over every run on one connection, whatever requests handlers send
      while they run: the i-th reply goes to the handler queued with the i-th request for
      every i, and the queue holds the requests not yet answered, if and only if the server
      never sent a reply when nothing was waiting. */
  lemma {:induction false} RepliesMatchRequests<H>(events: seq<Event<H>>, react: Reaction<H>)
    requires Possible(Initial(), events, react)
    ensures var c := Run(Initial(), events, react);
            EveryReplyAwaited(c) <==>
              && |c.delivered| <= |c.sent|
              && c.queue == c.sent[|c.delivered|..]
              && forall i | 0 <= i < |c.delivered| :: c.delivered[i].handler == Some(c.sent[i])
  {
    hide ReadLoop, Feed;
    var c := Run(Initial(), events, react);
    RunKeepsInv(Initial(), events, react);
    if EveryReplyAwaited(c) {
      AnsweredAll(c.delivered);
    }
  }

  // ---------------------------------------------------------------- reads of whole replies

  /** `part` is read as `reply`, ending on its last byte. */
  ghost predicate Reads(part: string, reply: ClientReply) {
    Feed(START, part) == Done(START.(reply := reply), "")
  }

  ghost predicate ReadsAll(parts: seq<string>, replies: seq<ClientReply>) {
    |parts| == |replies| && forall i | 0 <= i < |parts| :: Reads(parts[i], replies[i])
  }

  function Join(parts: seq<string>): string {
    if parts == [] then "" else parts[0] + Join(parts[1..])
  }

  /** Delivering a list of replies one after the other. */
  function DeliverAll<H>(c: Connection<H>, replies: seq<ClientReply>, react: Reaction<H>): Connection<H>
    decreases |replies|
  {
    if replies == [] then c
    else DeliverAll(Deliver(c.(m := START.(reply := replies[0])), react), replies[1..], react)
  }

  /** A reply only ever finishes on a line feed. */
  lemma {:induction false} FinishesOnLineFeed(m: Machine, s: string)
    requires !m.reply.finished && Feed(m, s).Done? && Feed(m, s).rest == ""
    ensures s != "" && s[|s| - 1] == '\n'
    decreases |s|
  {
    var n := Step(m, s[0]).m;
    if !n.reply.finished {
      assert s[1..] != "" by { assert Feed(n, "") == More(n); }
      FinishesOnLineFeed(n, s[1..]);
    }
  }

  /** Whole replies are finished at their last byte and are longer than one byte. */
  lemma {:induction false} WholeReplyFeeds(lead: string, part: string, rest: string, reply: ClientReply)
    requires (lead == "" || lead == "\n") && Reads(part, reply)
    ensures Feed(START, lead + part + rest) == Done(START.(reply := reply), rest)
    ensures |part| > 1 && part[|part| - 1] == '\n' && reply.finished
  {
    hide Step;
    FinishesOnLineFeed(START, part);
    FirstByteNeverFinishes(START, part);
    FeedSplit(START, part, rest);
    assert "" + rest == rest && lead + part + rest == lead + (part + rest);
    assert lead == "" ==> lead + part + rest == part + rest;
    LeadingNewline(START, part + rest);
  }

  /** One turn of the loop over a whole reply: it stops one byte short. */
  lemma {:induction false} LoopStep<H>(c: Connection<H>, lead: string, part: string, rest: string,
                                       reply: ClientReply, react: Reaction<H>)
    requires (lead == "" || lead == "\n") && c.m == START && Reads(part, reply)
    ensures Defined(START, lead + part + rest) == Defined(START, "\n" + rest)
    ensures Defined(START, "\n" + rest) ==>
              ReadLoop(c, lead + part + rest, react)
              == ReadLoop(Deliver(c.(m := START.(reply := reply)), react), "\n" + rest, react)
  {
    hide Feed, Deliver;
    var left := lead + part + rest;
    WholeReplyFeeds(lead, part, rest, reply);
    var k := |lead| + |part| - 1;
    assert left[k..] == "\n" + rest;
    assert Returned(left, Feed(START, left)) == k;
  }

  /** The loop at the last byte of a reply, with whole replies `parts` and then `tail`, a
      proper beginning of another reply, still ahead. */
  lemma {:induction false} LoopDelivers<H>(c: Connection<H>, parts: seq<string>, replies: seq<ClientReply>,
                                           tail: string, react: Reaction<H>)
    requires c.m == START && c.live && ReadsAll(parts, replies) && Feed(START, tail).More?
    ensures Defined(START, "\n" + Join(parts) + tail)
    ensures var r := ReadLoop(c, "\n" + Join(parts) + tail, react);
            SameLogs(r, DeliverAll(c, replies, react)) && (r.live <==> tail == "") && (r.live ==> r.m == START)
    decreases |parts|
  {
    if parts == [] {
      assert "\n" + Join(parts) + tail == "\n" + tail;
      if tail != "" {
        TailDisconnects(c, "\n", tail, react);
      }
    } else {
      hide ReadLoop, Defined, Feed, Reads;
      var rest := Join(parts[1..]) + tail;
      assert "\n" + Join(parts) + tail == "\n" + parts[0] + rest;
      LoopStep(c, "\n", parts[0], rest, replies[0], react);
      assert "\n" + rest == "\n" + Join(parts[1..]) + tail;
      LoopDelivers(Deliver(c.(m := START.(reply := replies[0])), react), parts[1..], replies[1..], tail, react);
    }
  }

  ghost predicate SameLogs<H>(c: Connection<H>, d: Connection<H>) {
    c.delivered == d.delivered && c.queue == d.queue && c.sent == d.sent
  }

  lemma {:induction false} TailDisconnects<H>(c: Connection<H>, lead: string, tail: string, react: Reaction<H>)
    requires (lead == "" || lead == "\n") && c.m == START && Feed(START, tail).More? && |lead + tail| > 1
    ensures Defined(START, lead + tail)
    ensures var r := ReadLoop(c, lead + tail, react); SameLogs(r, c) && !r.live
  {
    hide Feed, Step;
    var left := lead + tail;
    assert lead == "" ==> left == tail;
    LeadingNewline(START, tail);
    var o := Feed(START, left);
    assert o.More?;
    MoreMeansUnfinished(left);
    assert left[|left|..] == "";
    EndsInside(Pass(c, o.m, react), react);
  }

  lemma MoreMeansUnfinished(s: string)
    requires Feed(START, s).More?
    ensures !Feed(START, s).m.reply.finished
  {
  }

  /** A read on a fresh parser that holds whole replies and then a proper beginning of
      another: exactly the whole replies are delivered, in order. The connection survives
      with the parser at the start of a reply if and only if nothing follows them; a lone
      first byte of a reply is the exception, it is dropped without being parsed. */
  lemma {:induction false} WholeRepliesDelivered<H>(c: Connection<H>, parts: seq<string>, replies: seq<ClientReply>,
                                                    tail: string, react: Reaction<H>)
    requires c.m == START && c.live
    requires ReadsAll(parts, replies) && Feed(START, tail).More? && Join(parts) + tail != ""
    ensures Defined(START, Join(parts) + tail)
    ensures var r := ReadLoop(c, Join(parts) + tail, react);
            && SameLogs(r, DeliverAll(c, replies, react))
            && (r.live <==> tail == "" || (parts == [] && |tail| == 1))
            && (r.live ==> r.m == START)
  {
    hide ReadLoop, Defined, Feed, Reads;
    if parts == [] {
      assert Join(parts) + tail == tail == "" + tail;
      if |tail| > 1 {
        TailDisconnects(c, "", tail, react);
      } else {
        LoneByte(c, tail, react);
      }
    } else {
      var rest := Join(parts[1..]) + tail;
      assert Join(parts) + tail == "" + parts[0] + rest;
      LoopStep(c, "", parts[0], rest, replies[0], react);
      assert "\n" + rest == "\n" + Join(parts[1..]) + tail;
      LoopDelivers(Deliver(c.(m := START.(reply := replies[0])), react), parts[1..], replies[1..], tail, react);
    }
  }

  lemma LoneByte<H>(c: Connection<H>, left: string, react: Reaction<H>)
    requires |left| == 1
    ensures Defined(c.m, left) && ReadLoop(c, left, react) == c
  {
  }
}
