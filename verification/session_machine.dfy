/** The server session as an event machine: reads of at most 8192 bytes arrive, requests go
    to the responder, and an asynchronous reply suspends parsing until it is completed.
    The reference it is compared with is `Pull`, which cuts the whole byte stream into
    requests one byte at a time and knows nothing of buffers, reads or suspension. */
module SessionMachine {
  import opened Chars
  import opened RequestMachine
  import opened ReplyPrinting

  const BUFFER_SIZE := 8192

  /** What the responder decides about the newest of the requests handed to it so far. */
  datatype Answer = Answer(reply: ServerReply, async: bool)

  type Responder = seq<Request> -> Answer

  /** `buffer` is the part of the read buffer that the last read filled; `outstanding` counts
      reads issued and not completed; `handed` and `written` log the requests given to the
      responder and the replies written to the socket. */
  datatype Session = Session(m: Machine, buffer: string, parsedTotal: nat, pending: Option<ServerReply>,
                             outstanding: nat, stops: nat, handed: seq<Request>, written: seq<string>) {
    /** At most one read is outstanding, and then the buffer is used up and no reply is
        pending. */
    predicate Bounded() {
      && m.Sane() && !m.req.finished && parsedTotal <= |buffer| && outstanding <= 1
      && (outstanding == 1 ==> parsedTotal == 0 && pending.None?)
    }

    function Unread(): string
      requires Bounded()
    {
      buffer[parsedTotal..]
    }
  }

  /** A session just started: nothing received, one read outstanding. */
  const INITIAL := Session(START, "", 0, None, 1, 0, [], [])

  /** One pass of the loop of `handleRead`: parse what is unread; on a refused byte stop
      (and, as the code does, issue a read all the same); on a finished request ask the
      responder, and write the reply unless it is asynchronous. */
  function Pass(s: Session, respond: Responder): (r: Session)
    requires s.Bounded() && s.outstanding == 0 && s.pending.None? && s.parsedTotal < |s.buffer|
    ensures r.Bounded() && r.buffer == s.buffer
    ensures r.stops == s.stops && r.pending.None? ==> r.outstanding == 0 && r.parsedTotal > s.parsedTotal
  {
    var o := Feed(s.m, s.Unread());
    var parsed := Consumed(s.Unread(), o);
    if parsed == 0 then
      s.(m := o.m, stops := s.stops + 1, parsedTotal := 0, outstanding := s.outstanding + 1)
    else if !o.m.req.finished then
      s.(m := o.m, parsedTotal := s.parsedTotal + parsed)
    else
      var handed := s.handed + [o.m.req];
      var next := s.(m := Machine(o.m.state, BLANK), parsedTotal := s.parsedTotal + parsed, handed := handed);
      var answer := respond(handed);
      if answer.async then next.(pending := Some(answer.reply))
      else next.(written := next.written + [PrintReply(answer.reply)])
  }

  /** The loop of `handleRead` and the read issued after it. */
  function Loop(s: Session, respond: Responder): (r: Session)
    requires s.Bounded() && s.outstanding == 0 && s.pending.None?
    ensures r.Bounded() && r.buffer == s.buffer
    decreases |s.buffer| - s.parsedTotal
  {
    if s.parsedTotal == |s.buffer| then s.(parsedTotal := 0, outstanding := s.outstanding + 1) else
      var n := Pass(s, respond);
      if n.stops != s.stops || n.pending.Some? then n else Loop(n, respond)
  }

  datatype Event = Read(chunk: string) | ReadError | Complete

  /** Reads complete only while outstanding, with data only on an open socket; an
      asynchronous reply is completed once, after it became pending. */
  predicate Enabled(s: Session, e: Event) {
    && s.Bounded()
    && match e
       case Read(chunk) => s.outstanding > 0 && s.stops == 0 && 0 < |chunk| <= BUFFER_SIZE
       case ReadError => s.outstanding > 0
       case Complete => s.pending.Some?
  }

  function Handle(s: Session, e: Event, respond: Responder): (r: Session)
    requires Enabled(s, e)
    ensures r.Bounded()
  {
    match e
    case Read(chunk) =>
      Loop(s.(outstanding := s.outstanding - 1, buffer := chunk), respond)
    case ReadError => s.(outstanding := s.outstanding - 1, stops := s.stops + 1)
    case Complete =>
      Loop(s.(pending := None, written := s.written + [PrintReply(s.pending.value)]), respond)
  }

  predicate Possible(s: Session, events: seq<Event>, respond: Responder)
    decreases |events|
  {
    events == [] || (Enabled(s, events[0]) && Possible(Handle(s, events[0], respond), events[1..], respond))
  }

  function Run(s: Session, events: seq<Event>, respond: Responder): Session
    requires Possible(s, events, respond)
    decreases |events|
  {
    if events == [] then s else Run(Handle(s, events[0], respond), events[1..], respond)
  }

  function Got(e: Event): string {
    if e.Read? then e.chunk else ""
  }

  function Received(events: seq<Event>): string {
    if events == [] then "" else Got(events[0]) + Received(events[1..])
  }

  // ---------------------------------------------------------------- the reference

  datatype Stream = Stream(m: Machine, requests: seq<Request>, broken: bool)

  const NOTHING := Stream(START, [], false)

  /** Cuts a byte stream into requests; a refused byte breaks the stream for good. */
  function Pull(st: Stream, s: string): (r: Stream)
    requires st.m.Sane()
    ensures r.m.Sane()
    decreases |s|
  {
    if s == "" || st.broken then st else
      match Step(st.m, s[0])
      case None => st.(broken := true)
      case Some(n) =>
        if n.req.finished then Pull(Stream(START, st.requests + [n.req], false), s[1..])
        else Pull(st.(m := n), s[1..])
  }

  /** The replies to a list of requests, in order. */
  function Replies(respond: Responder, requests: seq<Request>): (r: seq<string>)
    ensures |r| == |requests|
  {
    if requests == [] then [] else
      Replies(respond, requests[..|requests| - 1]) + [PrintReply(respond(requests).reply)]
  }

  lemma RepliesSnoc(respond: Responder, requests: seq<Request>, r: Request)
    ensures Replies(respond, requests + [r])
         == Replies(respond, requests) + [PrintReply(respond(requests + [r]).reply)]
  {
    assert (requests + [r])[..|requests|] == requests;
  }

  lemma {:induction false} PullSplit(st: Stream, a: string, b: string)
    requires st.m.Sane()
    ensures Pull(st, a + b) == Pull(Pull(st, a), b)
    decreases |a|
  {
    if a == "" {
      assert a + b == b;
    } else if !st.broken {
      assert (a + b)[0] == a[0] && (a + b)[1..] == a[1..] + b;
      match Step(st.m, a[0])
      case None =>
      case Some(n) =>
        if n.req.finished { PullSplit(Stream(START, st.requests + [n.req], false), a[1..], b); }
        else { PullSplit(st.(m := n), a[1..], b); }
    }
  }

  /** The reference in terms of the parser's own loop. */
  lemma {:induction false} PullIsFeed(st: Stream, s: string)
    requires st.m.Sane() && !st.broken && !st.m.req.finished
    ensures Pull(st, s) ==
            match Feed(st.m, s)
            case More(n) => st.(m := n)
            case Bad(n, _) => st.(m := n, broken := true)
            case Done(n, rest) => Pull(Stream(START, st.requests + [n.req], false), rest)
    decreases |s|
  {
    if s != "" {
      match Step(st.m, s[0])
      case None =>
      case Some(n) => if !n.req.finished { PullIsFeed(st.(m := n), s[1..]); }
    }
  }

  // ---------------------------------------------------------------- refinement

  /** What holds of a session between two events after receiving `received`. */
  ghost predicate Inv(s: Session, received: string, respond: Responder) {
    && s.Bounded()
    && !s.m.req.finished
    && (s.stops == 0 ==>
          && (s.outstanding == 1 <==> s.pending.None?) && s.outstanding <= 1
          && (s.outstanding == 1 ==> s.parsedTotal == 0)
          && var unread := if s.pending.Some? then s.Unread() else "";
             && |unread| <= |received|
             && received[|received| - |unread|..] == unread
             && Pull(NOTHING, received[..|received| - |unread|]) == Stream(s.m, s.handed, false))
    && (s.stops > 0 ==> s.pending.None? && s.handed == Pull(NOTHING, received).requests)
    && (s.pending.Some? ==>
          && s.handed != []
          && respond(s.handed) == Answer(s.pending.value, true)
          && s.written == Replies(respond, s.handed[..|s.handed| - 1]))
    && (s.pending.None? ==> s.written == Replies(respond, s.handed))
  }

  /** Inside the loop, after the reference consumed `before`. */
  ghost predicate Busy(s: Session, before: string, respond: Responder) {
    && s.Bounded() && s.pending.None? && s.outstanding == 0 && s.stops == 0
    && Pull(NOTHING, before) == Stream(s.m, s.handed, false)
    && s.written == Replies(respond, s.handed)
  }

  lemma {:induction false} PassRefines(s: Session, before: string, respond: Responder) returns (used: string)
    requires Busy(s, before, respond) && s.parsedTotal < |s.buffer|
    ensures var n := Pass(s, respond);
            if n.stops != s.stops || n.pending.Some? then Inv(n, before + s.Unread(), respond)
            else Busy(n, before + used, respond) && before + used + n.Unread() == before + s.Unread()
  {
    hide Feed, Pull, Step, PrintReply;
    var u := s.Unread();
    var o := Feed(s.m, u);
    PullSplit(NOTHING, before, u);
    PullIsFeed(Stream(s.m, s.handed, false), u);
    match o
    case Bad(n, rest) => used := u;
    case More(n) =>
      used := u;
      assert Pass(s, respond).Unread() == "";
    case Done(n, rest) =>
      used := u[..|u| - |rest|];
      FinishedPass(s, before, used, rest, n, respond);
  }

  lemma {:induction false} FinishedPass(s: Session, before: string, used: string, rest: string, n: Machine,
                                        respond: Responder)
    requires Busy(s, before, respond) && s.parsedTotal < |s.buffer| && s.Unread() == used + rest
    requires Feed(s.m, s.Unread()) == Done(n, rest)
    ensures var r := Pass(s, respond);
            && r.stops == s.stops && r.Unread() == rest
            && if r.pending.Some? then Inv(r, before + s.Unread(), respond) else Busy(r, before + used, respond)
  {
    hide Feed, Pull, Step, PrintReply, Replies, Inv, Pass;
    var handed := s.handed + [n.req];
    PassOnRequest(s, used, rest, n, respond);
    RepliesSnoc(respond, s.handed, n.req);
    DoneOnTheWay(s.m, s.handed, before, used, rest, n);
    var r := Pass(s, respond);
    if r.pending.Some? {
      assert handed[..|handed| - 1] == s.handed;
      Suspended(r, before, used, rest, respond);
    }
  }

  lemma PassOnRequest(s: Session, used: string, rest: string, n: Machine, respond: Responder)
    requires s.Bounded() && s.outstanding == 0 && s.pending.None?
    requires s.parsedTotal < |s.buffer| && s.Unread() == used + rest && Feed(s.m, s.Unread()) == Done(n, rest)
    ensures var handed := s.handed + [n.req];
            var a := respond(handed);
            Pass(s, respond) == s.(m := START, parsedTotal := s.parsedTotal + |used|, handed := handed,
                                   pending := if a.async then Some(a.reply) else None,
                                   written := if a.async then s.written else s.written + [PrintReply(a.reply)])
    ensures Pass(s, respond).Unread() == rest
  {
    hide Feed, PrintReply;
  }

  lemma Suspended(r: Session, before: string, used: string, rest: string, respond: Responder)
    requires r.Bounded() && r.stops == 0 && r.pending.Some? && r.outstanding == 0 && r.Unread() == rest
    requires Pull(NOTHING, before + used) == Stream(r.m, r.handed, false)
    requires r.handed != [] && respond(r.handed) == Answer(r.pending.value, true)
    requires r.written == Replies(respond, r.handed[..|r.handed| - 1])
    ensures Inv(r, before + (used + rest), respond)
  {
    hide Pull, Replies;
    var received := before + (used + rest);
    assert received[..|received| - |rest|] == before + used;
    assert received[|received| - |rest|..] == rest;
  }

  /** The loop, started after the reference consumed `before`. */
  lemma {:induction false} LoopRefines(s: Session, before: string, respond: Responder)
    requires Busy(s, before, respond)
    ensures Inv(Loop(s, respond), before + s.Unread(), respond)
    decreases |s.buffer| - s.parsedTotal
  {
    var received := before + s.Unread();
    if s.parsedTotal == |s.buffer| {
      assert received == before;
      assert received[..|received|] == received;
    } else {
      hide Pass, Inv, Pull, Replies;
      var used := PassRefines(s, before, respond);
      var n := Pass(s, respond);
      if n.stops == s.stops && n.pending.None? {
        LoopRefines(n, before + used, respond);
      }
    }
  }

  /** After exactly the bytes of a request the reference has one more request. */
  lemma {:induction false} DoneOnTheWay(m: Machine, handed: seq<Request>, before: string,
                                        used: string, rest: string, n: Machine)
    requires m.Sane() && !m.req.finished && Feed(m, used + rest) == Done(n, rest)
    requires Pull(NOTHING, before) == Stream(m, handed, false)
    ensures Pull(NOTHING, before + used) == Stream(START, handed + [n.req], false)
  {
    hide Step;
    PullSplit(NOTHING, before, used);
    FeedSplit(m, used, rest);
    PullIsFeed(Stream(m, handed, false), used);
    match Feed(m, used)
    case Done(k, r) => assert |r + rest| == |rest|;
    case More(k) =>
    case Bad(k, r) =>
  }

  lemma {:induction false} HandleKeepsInv(s: Session, e: Event, received: string, respond: Responder)
    requires Inv(s, received, respond) && Enabled(s, e)
    ensures Inv(Handle(s, e, respond), received + Got(e), respond)
  {
    hide Pull, Loop, PrintReply;
    match e
    case Read(chunk) =>
      assert received[..|received|] == received;
      var t := s.(outstanding := s.outstanding - 1, buffer := chunk);
      assert t.Unread() == chunk;
      LoopRefines(t, received, respond);
    case ReadError =>
      assert received + "" == received;
      assert s.pending.None? ==> received[..|received|] == received;
    case Complete =>
      var t := s.(pending := None, written := s.written + [PrintReply(s.pending.value)]);
      var before := received[..|received| - |s.Unread()|];
      assert before + t.Unread() == received == received + "";
      LoopRefines(t, before, respond);
  }

  /** Refinement, over every run: whatever the chunking, and whichever replies are
      asynchronous, the requests handed on and the replies written are those of the
      reference applied to the bytes received. */
  lemma {:induction false} RunRefines(s: Session, events: seq<Event>, received: string, respond: Responder)
    requires Inv(s, received, respond) && Possible(s, events, respond)
    ensures Inv(Run(s, events, respond), received + Received(events), respond)
    decreases |events|
  {
    if events == [] {
      assert received + Received(events) == received;
    } else {
      hide Inv, Handle, Enabled, Got;
      var e, rest := events[0], events[1..];
      HandleKeepsInv(s, e, received, respond);
      var n := Handle(s, e, respond);
      assert Run(s, events, respond) == Run(n, rest, respond);
      RunRefines(n, rest, received + Got(e), respond);
      ConcatAssoc(received, Got(e), Received(rest));
    }
  }

  // ---------------------------------------------------------------- accepted requests

  function Flatten(parts: seq<string>): string {
    if parts == [] then "" else Flatten(parts[..|parts| - 1]) + parts[|parts| - 1]
  }

  /** Each of `parts` is accepted exactly, as the request at the same place. */
  ghost predicate AcceptsAll(parts: seq<string>, requests: seq<Request>) {
    |parts| == |requests| && forall i | 0 <= i < |parts| :: Accepts(parts[i], requests[i])
  }

  lemma {:induction false} PullOne(requests: seq<Request>, part: string, r: Request)
    requires Accepts(part, r)
    ensures Pull(Stream(START, requests, false), part) == Stream(START, requests + [r], false)
  {
    PullIsFeed(Stream(START, requests, false), part);
  }

  lemma {:induction false} PullAll(parts: seq<string>, requests: seq<Request>)
    requires AcceptsAll(parts, requests)
    ensures Pull(NOTHING, Flatten(parts)) == Stream(START, requests, false)
    decreases |parts|
  {
    if parts != [] {
      hide Pull, Accepts;
      var k := |parts| - 1;
      PullAll(parts[..k], requests[..k]);
      PullSplit(NOTHING, Flatten(parts[..k]), parts[k]);
      PullOne(requests[..k], parts[k], requests[k]);
      assert requests[..k] + [requests[k]] == requests;
    } else {
      assert requests == [];
    }
  }

  /** The reference only ever adds requests. */
  lemma {:induction false} PullGrows(st: Stream, s: string)
    requires st.m.Sane()
    ensures st.requests <= Pull(st, s).requests
    ensures st.broken ==> Pull(st, s).broken
    decreases |s|
  {
    if s != "" && !st.broken {
      match Step(st.m, s[0])
      case None =>
      case Some(n) =>
        if n.req.finished { PullGrows(Stream(START, st.requests + [n.req], false), s[1..]); }
        else { PullGrows(st.(m := n), s[1..]); }
    }
  }

  lemma {:induction false} RepliesPrefix(respond: Responder, requests: seq<Request>, k: nat)
    requires k <= |requests|
    ensures Replies(respond, requests[..k]) == Replies(respond, requests)[..k]
    decreases |requests|
  {
    if k == |requests| {
      assert requests[..k] == requests;
    } else {
      RepliesPrefix(respond, requests[..|requests| - 1], k);
      assert requests[..|requests| - 1][..k] == requests[..k];
    }
  }

  /** Service in order. The client sends requests that the parser each accepts; the bytes
      arrive in any chunks, and any replies are asynchronous. At every point of every run the
      responder has been handed a beginning of exactly that list, and the replies written
      are those of its first requests, in order, all but possibly one that is pending. When
      all bytes have arrived and nothing is pending, every request has been answered. */
  lemma {:induction false} SessionServesInOrder(parts: seq<string>, requests: seq<Request>,
                                                events: seq<Event>, respond: Responder)
    requires AcceptsAll(parts, requests)
    requires Possible(INITIAL, events, respond) && ReadError !in events
    requires Received(events) <= Flatten(parts)
    ensures var s := Run(INITIAL, events, respond);
            && s.stops == 0
            && (s.outstanding == 1 <==> s.pending.None?)
            && s.handed <= requests
            && s.written <= Replies(respond, requests)
            && |s.written| == (if s.pending.Some? then |s.handed| - 1 else |s.handed|)
            && (Received(events) == Flatten(parts) && s.pending.None? ==>
                  s.handed == requests && s.written == Replies(respond, requests))
  {
    hide *;
    var s, got := Run(INITIAL, events, respond), Received(events);
    InitialInv(respond);
    RunRefines(INITIAL, events, "", respond);
    NothingBefore(got);
    PullAll(parts, requests);
    NeverStops(INITIAL, events, "", Flatten(parts), respond);
    HandedInOrder(s, got, Flatten(parts), requests, respond);
    WrittenInOrder(s, got, requests, respond);
  }

  lemma {:induction false} HandedInOrder(s: Session, got: string, all: string, requests: seq<Request>,
                                         respond: Responder)
    requires Inv(s, got, respond) && s.stops == 0 && got <= all
    requires Pull(NOTHING, all) == Stream(START, requests, false)
    ensures s.handed <= requests && (s.outstanding == 1 <==> s.pending.None?)
    ensures got == all && s.pending.None? ==> s.handed == requests
  {
    hide Pull, Replies;
    var unread := if s.pending.Some? then s.Unread() else "";
    var used := got[..|got| - |unread|];
    var rest := all[|used|..];
    assert all == used + rest;
    PullSplit(NOTHING, used, rest);
    PullGrows(Stream(s.m, s.handed, false), rest);
    if got == all && s.pending.None? {
      assert used == all;
    }
  }

  lemma {:induction false} WrittenInOrder(s: Session, got: string, requests: seq<Request>, respond: Responder)
    requires Inv(s, got, respond) && s.handed <= requests
    ensures s.written <= Replies(respond, requests)
    ensures |s.written| == (if s.pending.Some? then |s.handed| - 1 else |s.handed|)
    ensures s.pending.None? ==> s.written == Replies(respond, s.handed)
  {
    hide Pull, Replies;
    var k := |s.handed|;
    assert requests[..k] == s.handed;
    if s.pending.Some? {
      assert requests[..k - 1] == s.handed[..k - 1];
      RepliesPrefix(respond, requests, k - 1);
    } else {
      RepliesPrefix(respond, requests, k);
    }
  }

  lemma NothingBefore(s: string)
    ensures "" + s == s
  {
  }

  lemma InitialInv(respond: Responder)
    ensures Inv(INITIAL, "", respond) && INITIAL.stops == 0
  {
    assert ""[..0] == "";
  }

  /** A session whose input the reference never breaks on is not stopped by parsing. */
  lemma {:induction false} NeverStops(s: Session, events: seq<Event>, received: string, all: string, respond: Responder)
    requires Inv(s, received, respond) && Possible(s, events, respond) && ReadError !in events
    requires s.stops == 0 && received + Received(events) <= all && !Pull(NOTHING, all).broken
    ensures Run(s, events, respond).stops == 0
    decreases |events|
  {
    hide Pull, Loop, Replies;
    if events != [] {
      var e := events[0];
      HandleKeepsInv(s, e, received, respond);
      ConcatAssoc(received, Got(e), Received(events[1..]));
      var now := received + Got(e);
      assert all == now + all[|now|..];
      PullSplit(NOTHING, now, all[|now|..]);
      PullGrows(Pull(NOTHING, now), all[|now|..]);
      StopsOnlyWhenBroken(s, e, received, respond);
      NeverStops(Handle(s, e, respond), events[1..], now, all, respond);
    }
  }

  lemma {:induction false} StopsOnlyWhenBroken(s: Session, e: Event, received: string, respond: Responder)
    requires Inv(s, received, respond) && Enabled(s, e) && e != ReadError && s.stops == 0
    ensures Handle(s, e, respond).stops > 0 ==> Pull(NOTHING, received + Got(e)).broken
  {
    hide Pull, PrintReply, Replies, Loop;
    match e
    case Read(chunk) =>
      assert received[..|received|] == received;
      var t := s.(outstanding := s.outstanding - 1, buffer := chunk);
      assert t.Unread() == chunk;
      LoopStopsWhenBroken(t, received, respond);
    case Complete =>
      var t := s.(pending := None, written := s.written + [PrintReply(s.pending.value)]);
      var before := received[..|received| - |s.Unread()|];
      assert before + t.Unread() == received == received + "";
      assert t.written == Replies(respond, t.handed) by { LastReply(respond, s.handed); }
      LoopStopsWhenBroken(t, before, respond);
  }

  lemma LastReply(respond: Responder, requests: seq<Request>)
    requires requests != []
    ensures Replies(respond, requests)
         == Replies(respond, requests[..|requests| - 1]) + [PrintReply(respond(requests).reply)]
  {
  }

  lemma {:induction false} LoopStopsWhenBroken(s: Session, before: string, respond: Responder)
    requires Busy(s, before, respond)
    ensures Loop(s, respond).stops > 0 ==> Pull(NOTHING, before + s.Unread()).broken
    decreases |s.buffer| - s.parsedTotal
  {
    if s.parsedTotal != |s.buffer| {
      var n := Pass(s, respond);
      if n.stops != s.stops {
        hide Feed, Pull, Step;
        PullSplit(NOTHING, before, s.Unread());
        PullIsFeed(Stream(s.m, s.handed, false), s.Unread());
      } else if n.pending.None? {
        hide Pass, Pull, Replies, Inv;
        var used := PassRefines(s, before, respond);
        LoopStopsWhenBroken(n, before + used, respond);
      }
    }
  }

  /** Suspension ends: as long as a reply is pending it can be completed, and each completion
      uses up buffered bytes, so at most one more completion than there are unread bytes
      brings the session back to an outstanding read. */
  lemma {:induction false} CompletionsDrain(s: Session, respond: Responder) returns (events: seq<Event>)
    requires s.Bounded() && (s.outstanding == 1 <==> s.pending.None?)
    ensures Possible(s, events, respond) && Run(s, events, respond).pending.None?
    ensures |events| <= |s.Unread()| + 1
    ensures forall i | 0 <= i < |events| :: events[i] == Complete
    ensures Run(s, events, respond).outstanding == 1
    decreases if s.pending.Some? then |s.Unread()| + 1 else 0
  {
    if s.pending.None? {
      events := [];
    } else {
      hide Loop, Handle;
      CompletionAdvances(s, respond);
      var rest := CompletionsDrain(Handle(s, Complete, respond), respond);
      events := [Complete] + rest;
      assert events[1..] == rest;
    }
  }

  lemma CompletionAdvances(s: Session, respond: Responder)
    requires s.Bounded() && s.pending.Some?
    ensures var r := Handle(s, Complete, respond);
            && (r.outstanding == 1 <==> r.pending.None?)
            && (r.pending.Some? ==> |r.Unread()| < |s.Unread()|)
  {
    hide Loop;
    LoopAdvances(s.(pending := None, written := s.written + [PrintReply(s.pending.value)]), respond);
  }

  lemma {:induction false} LoopAdvances(s: Session, respond: Responder)
    requires s.Bounded() && s.outstanding == 0 && s.pending.None?
    ensures var r := Loop(s, respond);
            && (r.outstanding == 1 <==> r.pending.None?)
            && (r.pending.Some? ==> |r.Unread()| < |s.Unread()|)
    decreases |s.buffer| - s.parsedTotal
  {
    if s.parsedTotal != |s.buffer| {
      var n := Pass(s, respond);
      if n.stops == s.stops && n.pending.None? {
        LoopAdvances(n, respond);
      }
    }
  }

  /** After a refused byte the session is stopped but a read is outstanding all the same;
      it can only fail, and then the session is stopped a second time. Nothing more is
      handed to the responder or written. */
  lemma {:induction false} StoppedStaysSilent(s: Session, events: seq<Event>, respond: Responder)
    requires s.Bounded() && s.stops > 0 && s.pending.None? && Possible(s, events, respond)
    ensures var r := Run(s, events, respond);
            && r.handed == s.handed && r.written == s.written
            && events == (if events == [] then [] else [ReadError])
            && r.stops == s.stops + |events|
  {
    if events != [] {
      assert events[0] == ReadError;
      var n := Handle(s, ReadError, respond);
      assert n.outstanding == 0 && n.pending.None?;
      assert events[1..] == [];
    }
  }
}
