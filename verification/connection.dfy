/** The client's `HAMConnection`, run in place over the parser and list objects, refines
    ConnectionMachine. */
module Connections {
  import opened Chars
  import opened Lists
  import opened ReplyParsing
  import RM = ReplyMachine
  import CM = ConnectionMachine

  class HandlerTuple<H> {
    const handler: H

    constructor (handler: H)
      ensures this.handler == handler
    {
      this.handler := handler;
    }
  }

  ghost function Queue<H>(tuples: seq<HandlerTuple<H>>): (q: seq<H>)
    ensures |q| == |tuples|
  {
    seq(|tuples|, i requires 0 <= i < |tuples| => tuples[i].handler)
  }

  class Connection<H> {
    var live: bool
    const parser: HamParser
    const handlers: HamList<HandlerTuple<H>>
    var reply: HamReply
    const react: CM.Reaction<H>
    var sent: seq<H>
    var delivered: seq<CM.Delivery<H>>

    ghost predicate Apart()
      reads this, handlers
    {
      && handlers.Repr !! {this, parser, parser.headerName, parser.headerValue, reply, reply.content}
      && this !in {parser as object, parser.headerName, parser.headerValue, reply, reply.content}
    }

    ghost predicate Valid()
      reads this, parser, parser.headerName, parser.headerValue, reply, reply.content, handlers, handlers.Repr
    {
      && Apart() && handlers.Valid()
      && parser.Valid(reply) && RM.Inv(parser.Machine(reply)) && !reply.finished
    }

    ghost function State(): CM.Connection<H>
      reads this, parser, reply, handlers
    {
      CM.Connection(live, parser.Machine(reply), Queue(handlers.contents), sent, delivered)
    }

    constructor (react: CM.Reaction<H>)
      ensures Valid() && State() == CM.Initial() && this.react == react
    {
      live, sent, delivered, this.react := true, [], [], react;
      parser := new HamParser();
      handlers := new HamList();
      reply := new HamReply();
    }

    /** Queues the handler of a request just written to the socket. */
    method Send(h: H)
      requires Apart() && handlers.Valid()
      modifies this`sent, handlers.Repr
      ensures Apart() && handlers.Valid() && fresh(handlers.Repr - old(handlers.Repr))
      ensures State() == CM.Send(old(State()), h)
    {
      if !live {
        return;
      }
      var tuple := new HandlerTuple(h);
      handlers.InsertLast(tuple);
      sent := sent + [h];
      assert Queue(handlers.contents) == Queue(old(handlers.contents)) + [h];
    }

    /** Runs a handler: it sends the requests `react` says. */
    method RunHandler(h: H, r: RM.ClientReply)
      requires Apart() && handlers.Valid() && live
      modifies this`sent, handlers.Repr
      ensures Apart() && handlers.Valid() && fresh(handlers.Repr - old(handlers.Repr))
      ensures State() == old(State()).(queue := old(State()).queue + react(h, r), sent := old(sent) + react(h, r))
    {
      hide HamList.Valid, HamParser.Machine;
      var more := react(h, r);
      ghost var q, log := State().queue, sent;
      for i := 0 to |more|
        invariant Apart() && handlers.Valid() && fresh(handlers.Repr - old(handlers.Repr))
        invariant State() == old(State()).(queue := q + more[..i], sent := log + more[..i])
      {
        assert more[..i + 1] == more[..i] + [more[i]];
        Send(more[i]);
        assert q + more[..i] + [more[i]] == q + more[..i + 1];
        assert log + more[..i] + [more[i]] == log + more[..i + 1];
      }
      assert more[..|more|] == more;
    }

    /** Takes the tuple at the front off the queue and runs its handler on the reply. The
        list removes the first node that holds the tuple, which is the front one. */
    method DispatchReply(r: RM.ClientReply)
      requires Apart() && handlers.Valid() && live && r == RM.Visible(reply.Value())
      modifies this`sent, this`delivered, handlers.Repr
      ensures Apart() && handlers.Valid() && fresh(handlers.Repr - old(handlers.Repr))
      ensures State() == CM.Deliver(old(State()), react).(m := old(State()).m)
    {
      var front := handlers.GetFirst();
      match front
      case None =>
        delivered := delivered + [CM.Delivery(r, None)];
      case Some(tuple) =>
        ghost var queue := Queue(handlers.contents);
        assert Without(handlers.contents, tuple) == handlers.contents[1..];
        handlers.Remove(tuple);
        assert Queue(handlers.contents) == queue[1..];
        delivered := delivered + [CM.Delivery(r, Some(tuple.handler))];
        RunHandler(tuple.handler, r);
    }

    lemma FreshReplyIsFine(m: RM.Machine)
      requires m == m.Reset()
      ensures RM.Inv(m.(reply := RM.BLANK))
    {
    }

    /** A reply has finished: hand it to its handler and start a fresh one. */
    method FinishReply()
      requires Apart() && handlers.Valid() && parser.Valid(reply) && live
      requires reply.finished && parser.Machine(reply) == parser.Machine(reply).Reset()
      modifies this, handlers.Repr
      ensures Valid() && fresh(handlers.Repr - old(handlers.Repr)) && fresh(reply) && fresh(reply.content)
      ensures State() == CM.Deliver(old(State()), react)
    {
      hide CM.Deliver, RM.Inv, CString, HamList.Valid;
      FreshReplyIsFine(parser.Machine(reply));
      var content := reply.GetContent();
      var r := RM.ClientReply(reply.status, reply.headers, content, true);
      DispatchReply(r);
      reply := new HamReply();
    }

    /** One turn of the read loop over the bytes left. */
    method ReadOnce(left: string) returns (parsed: nat)
      requires Valid() && live && CM.Defined(State().m, left) && |left| != 1
      requires State().m == State().m.Reset() || left == ""
      modifies this, parser, parser.headerName, parser.headerValue, reply, reply.content, handlers.Repr
      ensures Valid() && fresh(handlers.Repr - old(handlers.Repr))
      ensures reply == old(reply) || (fresh(reply) && fresh(reply.content))
      ensures var o := RM.Feed(old(State()).m, left);
              && !o.Crash? && parsed == RM.Returned(left, o)
              && (State().m == State().m.Reset() || parsed == |left|)
              && State() == if parsed == 0 then old(State()).(m := o.m, live := false)
                            else CM.Pass(old(State()), o.m, react)
    {
      hide CM.Deliver, RM.Feed, RM.Inv;
      LoopUnfolds(State(), left);
      TurnStartsOver(State().m, left);
      parsed := parser.Parse(reply, left);
      if parsed == 0 {
        live := false;
        return;
      }
      if reply.finished {
        FinishReply();
      }
    }

    /** One read of `chunk` from the socket. */
    method ReadData(chunk: string)
      requires Valid() && live && chunk != "" && CM.Defined(State().m, chunk) && CM.Inv(State())
      modifies this, parser, parser.headerName, parser.headerValue, reply, reply.content, handlers.Repr
      ensures Valid() && State() == CM.ReadLoop(old(State()), chunk, react)
    {
      hide CM.Pass, RM.Feed, RM.Returned, CM.ReadLoop, CM.Defined;
      var len, parsedTotal := |chunk|, 0;
      ghost var goal := CM.ReadLoop(State(), chunk, react);
      while parsedTotal != len - 1
        invariant 0 <= parsedTotal <= len && Valid() && live
        invariant fresh(handlers.Repr - old(handlers.Repr))
        invariant reply == old(reply) || (fresh(reply) && fresh(reply.content))
        invariant State().m == State().m.Reset() || parsedTotal == len
        invariant CM.Defined(State().m, chunk[parsedTotal..])
        invariant CM.ReadLoop(State(), chunk[parsedTotal..], react) == goal
        decreases len - parsedTotal
      {
        var left := chunk[parsedTotal..];
        LoopUnfolds(State(), left);
        var parsed := ReadOnce(left);
        if parsed == 0 {
          return;
        }
        parsedTotal := parsedTotal + parsed;
        assert left[parsed..] == chunk[parsedTotal..];
      }
      LastByte(State(), chunk[parsedTotal..]);
    }

    /** From the start state a parse that finishes a reply makes progress, and one that does
        not use up the bytes leaves the parser in the start state again. */
    lemma TurnStartsOver(m: RM.Machine, left: string)
      requires !m.reply.finished && (m == m.Reset() || left == "") && !RM.Feed(m, left).Crash?
      ensures var o := RM.Feed(m, left);
              && (RM.Returned(left, o) == 0 ==> !o.m.reply.finished)
              && (CM.Renewed(o.m) == CM.Renewed(o.m).Reset() || RM.Returned(left, o) == |left|)
    {
      var o := RM.Feed(m, left);
      if o.Done? {
        CM.FirstByteNeverFinishes(m, left);
      }
    }

    lemma LastByte(c: CM.Connection<H>, left: string)
      requires |left| == 1
      ensures CM.Defined(c.m, left) && CM.ReadLoop(c, left, react) == c
    {
    }

    lemma LoopUnfolds(c: CM.Connection<H>, left: string)
      requires CM.Defined(c.m, left) && |left| != 1
      ensures var o := RM.Feed(c.m, left);
              && !o.Crash?
              && var parsed := RM.Returned(left, o);
                 && (parsed == 0 ==> CM.ReadLoop(c, left, react) == c.(m := o.m, live := false))
                 && (parsed != 0 ==>
                       && CM.Defined(CM.Renewed(o.m), left[parsed..])
                       && CM.ReadLoop(c, left, react) == CM.ReadLoop(CM.Pass(c, o.m, react), left[parsed..], react))
    {
    }
  }
}
