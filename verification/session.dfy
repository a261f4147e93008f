/** The server's `Session` object, run in place, refines SessionMachine. */
module Sessions {
  import opened Chars
  import opened RequestMachine
  import opened RequestParsing
  import opened ReplyPrinting
  import SM = SessionMachine

  class Session {
    const parser: RequestParser
    const buffer: array<char>
    const respond: SM.Responder
    var req: ServerRequest
    var currentReply: Option<ServerReply>
    var parsedTotal: nat
    var bytes: nat
    // What the outside world sees: reads issued and not completed, calls of stop, requests
    // given to the responder, replies written to the socket.
    var outstanding: nat
    var stops: nat
    var handed: seq<Request>
    var written: seq<string>

    ghost predicate Valid()
      reads this, parser, req, buffer
    {
      buffer.Length == SM.BUFFER_SIZE && bytes <= buffer.Length && State().Bounded()
    }

    /** The abstract state; the part of the buffer beyond `bytes` does not matter. */
    function State(): SM.Session
      requires bytes <= buffer.Length
      reads this, parser, req, buffer
    {
      SM.Session(parser.Machine(req), buffer[..bytes], parsedTotal, currentReply,
                 outstanding, stops, handed, written)
    }

    constructor (respond: SM.Responder)
      ensures Valid() && fresh(parser) && fresh(req) && fresh(buffer)
      ensures this.respond == respond && State() == SM.INITIAL
    {
      this.respond := respond;
      parser := new RequestParser();
      req := new ServerRequest();
      buffer := new char[SM.BUFFER_SIZE];
      currentReply, parsedTotal, bytes := None, 0, 0;
      outstanding, stops, handed, written := 1, 0, [], [];
    }

    method Stop()
      requires bytes <= buffer.Length
      modifies this`stops
      ensures State() == old(State()).(stops := old(stops) + 1)
    {
      stops := stops + 1;
    }

    /** Hands the finished request to the responder, and writes its reply unless that is to
        come later. */
    method HandOn() returns (async: bool)
      requires bytes <= buffer.Length
      modifies this
      ensures bytes == old(bytes) && fresh(req) && req.Value() == BLANK
      ensures handed == old(handed) + [old(req.Value())] && parsedTotal == old(parsedTotal)
      ensures outstanding == old(outstanding) && stops == old(stops)
      ensures var answer := respond(handed);
              && async == answer.async
              && currentReply == (if async then Some(answer.reply) else old(currentReply))
              && written == if async then old(written) else old(written) + [PrintReply(answer.reply)]
    {
      hide PrintReply;
      handed := handed + [req.Value()];
      var answer := respond(handed);
      req := new ServerRequest();
      async := answer.async;
      if async {
        currentReply := Some(answer.reply);
      } else {
        written := written + [PrintReply(answer.reply)];
      }
    }

    /** One turn of the loop; `again` says whether the loop goes on. */
    method ParseOnce() returns (again: bool)
      requires Valid() && outstanding == 0 && currentReply.None? && parsedTotal < bytes
      modifies this, parser, req
      ensures Valid() && (req == old(req) || fresh(req))
      ensures bytes == old(bytes) && State() == SM.Pass(old(State()), respond)
      ensures again == (stops == old(stops) && currentReply.None?)
    {
      hide Feed, PrintReply;
      assert buffer[..bytes][parsedTotal..] == buffer[parsedTotal..bytes];
      var parsed := parser.Parse(req, buffer, parsedTotal, bytes);
      if parsed == 0 {
        Stop();
        parsedTotal := 0;
        outstanding := outstanding + 1;
        return false;
      }
      parsedTotal := parsedTotal + parsed;
      if req.finished {
        var async := HandOn();
        return !async;
      }
      return true;
    }

    /** Parses what is in the buffer, for a read (`b` new bytes) or a completed reply
        (`b == 0`: the bytes of the last read). */
    method HandleRead(error: bool, b: nat)
      requires Valid() && b <= buffer.Length && parsedTotal <= (if b != 0 then b else bytes)
      requires outstanding == 0 && currentReply.None?
      modifies this, parser, req
      ensures Valid() && (req == old(req) || fresh(req))
      ensures State() ==
              if error then old(State()).(stops := old(stops) + 1)
              else SM.Loop(old(State()).(buffer := buffer[..if b != 0 then b else old(bytes)]), respond)
    {
      hide SM.Pass;
      if error {
        Stop();
        return;
      }
      if b != 0 {
        bytes := b;
      }
      ghost var goal := SM.Loop(State(), respond);
      while parsedTotal != bytes
        invariant Valid() && bytes == if b != 0 then b else old(bytes)
        invariant outstanding == 0 && currentReply.None?
        invariant req == old(req) || fresh(req)
        invariant SM.Loop(State(), respond) == goal
        decreases bytes - parsedTotal
      {
        var again := ParseOnce();
        if !again {
          return;
        }
      }
      parsedTotal := 0;
      outstanding := outstanding + 1;
    }

    /** The operating system fills the buffer and reports the number of bytes. */
    method DeliverRead(chunk: string)
      requires Valid() && SM.Enabled(State(), SM.Read(chunk))
      modifies this, parser, req, buffer
      ensures Valid() && (req == old(req) || fresh(req))
      ensures State() == SM.Handle(old(State()), SM.Read(chunk), respond)
    {
      hide SM.Loop, Feed;
      ghost var was := State();
      outstanding := outstanding - 1;
      for i := 0 to |chunk|
        invariant buffer[..i] == chunk[..i]
        invariant parser.Machine(req) == was.m && parsedTotal == was.parsedTotal && bytes == |was.buffer|
        invariant currentReply == was.pending && outstanding == 0
        invariant stops == was.stops && handed == was.handed && written == was.written
        invariant req == old(req)
      {
        buffer[i] := chunk[i];
      }
      assert buffer[..|chunk|] == chunk;
      HandleRead(false, |chunk|);
    }

    method DeliverReadError()
      requires Valid() && SM.Enabled(State(), SM.ReadError)
      modifies this, parser, req
      ensures Valid() && (req == old(req) || fresh(req))
      ensures State() == SM.Handle(old(State()), SM.ReadError, respond)
    {
      outstanding := outstanding - 1;
      HandleRead(true, 0);
    }

    /** Called by the module that owns the pending reply. */
    method SendAsyncReply()
      requires Valid() && SM.Enabled(State(), SM.Complete)
      modifies this, parser, req
      ensures Valid() && (req == old(req) || fresh(req))
      ensures State() == SM.Handle(old(State()), SM.Complete, respond)
    {
      hide SM.Loop, Feed, PrintReply;
      written := written + [PrintReply(currentReply.value)];
      currentReply := None;
      HandleRead(false, 0);
    }
  }
}
