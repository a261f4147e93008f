/** The exact condition under which the client reads back the reply the server printed. */
module ReplyRoundTrip {
  import opened Chars
  import opened Headers
  import opened ReplyPrinting
  import opened ReplyMachine
  import opened ReplyGrammar

  /** What the server can check before it sends: fields that fit the client's buffers, and
      content free of carriage returns and NULs that fits the reply buffer. */
  ghost predicate Readable(r: ServerReply) {
    && All(r.contentType, IsValueChar) && |r.contentType| < VALUE_SIZE
    && (forall h | h in r.extra :: LegalHeader(h) && FitsBuffers(h))
    && All(r.content, NotCr) && All(r.content, NotNul) && |r.content| < MAX_REPLY_SIZE
  }

  function Parsed(r: ServerReply): ClientReply {
    ClientReply(Code(r.status), r.Headers(), r.content, true)
  }

  /** The client finishes a reply on the last byte of `s`, and what its getters then return
      is what the server meant. */
  ghost predicate Conveys(s: string, r: ServerReply) {
    var o := Feed(START, s);
    && o.Done? && o.rest == ""
    && o.m.reply.status == Code(r.status)
    && o.m.reply.headers == r.Headers()
    && CString(o.m.reply.content) == r.content
  }

  // ---------------------------------------------------------------- the printed reply

  lemma PhraseIsText(s: Status)
    ensures All(StatusParts(s).2, IsText)
  {
    hide All;
    match s
    case Ok => assert All("OK", IsText) by { ShortPhrases(); }
    case MovedPermanently => MovedPhrases();
    case MovedTemporarily => MovedPhrases();
    case NotModified => ShortPhrases();
    case BadRequest => ShortPhrases();
    case Unauthorized => ShortPhrases();
    case Forbidden => ShortPhrases();
    case NotFound => ShortPhrases();
    case InternalServerError => ServerErrorPhrase();
  }

  lemma ShortPhrases()
    ensures All("OK", IsText) && All("Not Modified", IsText) && All("Bad Request", IsText)
    ensures All("Unauthorized", IsText) && All("Forbidden", IsText) && All("Not Found", IsText)
  {
  }

  lemma MovedPhrases()
    ensures All("Moved Permanently", IsText) && All("Moved Temporarily", IsText)
  {
  }

  lemma ServerErrorPhrase()
    ensures All("Internal Server Error", IsText)
  {
  }

  lemma PartsAreLegal(s: Status)
    ensures var (minor, code, _) := StatusParts(s);
            && IsDigit(minor) && |code| == 3 && All(code, IsDigit)
            && Code(s) == 100 * DigitValue(code[0]) + 10 * DigitValue(code[1]) + DigitValue(code[2])
  {
  }

  function Fields(headers: seq<Header>): (lines: seq<ReplyGrammar.Line>)
    ensures |lines| == |headers|
  {
    seq(|headers|, i requires 0 <= i < |headers| => Field(headers[i].name, headers[i].value))
  }

  function TreeOf(r: ServerReply): Tree {
    var (minor, code, phrase) := StatusParts(r.status);
    Tree("", "1", [minor], code, " " + phrase, Fields(r.Headers()),
         if r.content == "" then NoBody else Body(0, r.content))
  }

  lemma {:induction false} FieldsAreLegal(before: seq<Header>, headers: seq<Header>)
    requires forall h | h in headers :: LegalHeader(h) && FitsBuffers(h)
    ensures LegalLines(before, Fields(headers)) && ApplyLines(before, Fields(headers)) == before + headers
    decreases |headers|
  {
    hide LegalHeader, FitsBuffers;
    if headers == [] {
      assert before + headers == before;
    } else {
      assert headers[0] in headers && Fields(headers)[1..] == Fields(headers[1..]);
      FieldsAreLegal(before + [headers[0]], headers[1..]);
      assert before + [headers[0]] + headers[1..] == before + headers;
    }
  }

  lemma {:induction false} FieldsPrint(headers: seq<Header>)
    ensures RenderLines(Fields(headers)) == PrintHeaders(headers)
    decreases |headers|
  {
    if headers != [] {
      var k := |headers| - 1;
      hide RenderLine, RenderLines, PrintHeader;
      FieldsPrint(headers[..k]);
      FieldPrints(headers[k]);
      assert Fields(headers) == Fields(headers[..k]) + [Field(headers[k].name, headers[k].value)];
      RenderLinesSnoc(Fields(headers[..k]), Field(headers[k].name, headers[k].value));
    }
  }

  lemma FieldPrints(h: Header)
    ensures RenderLine(Field(h.name, h.value)) == PrintHeader(h)
  {
  }

  lemma {:induction false} RenderLinesSnoc(lines: seq<ReplyGrammar.Line>, l: ReplyGrammar.Line)
    ensures RenderLines(lines + [l]) == RenderLines(lines) + RenderLine(l)
    decreases |lines|
  {
    if lines == [] {
      assert lines + [l] == [l] && RenderLines([l][1..]) == "";
      assert RenderLine(l) + "" == RenderLine(l);
    } else {
      assert (lines + [l])[1..] == lines[1..] + [l];
      RenderLinesSnoc(lines[1..], l);
    }
  }

  lemma StartIsStatusLine(r: ServerReply)
    ensures RenderStart(TreeOf(r)) == StatusLine(r.status)
  {
    hide StatusParts, Fields;
    var (minor, code, phrase) := StatusParts(r.status);
    assert "1" + "." + [minor] == ['1', '.', minor];
    var version := "1" + "." + [minor];
    assert "" + "HTTP/" + "1" + "." + [minor] + " " + code + (" " + phrase) + "\r\n"
        == "HTTP/" + version + " " + code + " " + phrase + "\r\n";
  }

  lemma {:induction false} StartIsLegal(r: ServerReply)
    ensures LegalStart(TreeOf(r)) && Number(TreeOf(r).code) == Code(r.status)
  {
    hide StatusParts, Fields, Code, Number;
    PartsAreLegal(r.status);
    PhraseIsText(r.status);
    CodeNumber(TreeOf(r).code);
  }

  /** What is printed, when stripping takes nothing. */
  lemma {:induction false} PrintIsRendered(r: ServerReply)
    requires All(r.content, NotCr)
    ensures Render(TreeOf(r)) == PrintReply(r)
  {
    hide StatusLine, RenderStart, Fields, RenderLines, PrintHeaders, StripCr, Decimal;
    StartIsStatusLine(r);
    FieldsPrint(r.Headers());
    StripCrMeans(r.content);
    assert EmptyLines(0) + r.content == r.content;
  }

  lemma ContentLengthFound(r: ServerReply)
    ensures GetHeader(r.Headers(), "Content-Length") == Some(Decimal(|r.content|))
    ensures ExpectsContent(r.Headers()) <==> r.content != ""
  {
    assert "Content-Type" != "Content-Length" by { assert |"Content-Type"| != |"Content-Length"|; }
    var hs := r.Headers();
    assert hs[0].name == "Content-Type" && hs[1..][0] == Header("Content-Length", Decimal(|r.content|));
  }

  lemma HeadersAreLegal(r: ServerReply)
    requires Readable(r)
    ensures forall h | h in r.Headers() :: LegalHeader(h) && FitsBuffers(h)
  {
    hide Decimal;
    ContentLengthIsLegal(|r.content|);
    DecimalLength(|r.content|, 5);
    assert Pow10(5) == 100_000 by { assert Pow10(3) == 1000; }
    assert LegalHeader(Header("Content-Type", r.contentType));
  }

  /** A readable reply is parsed completely, whatever bytes follow. */
  lemma {:induction false} PrintedReplyIsRead(r: ServerReply, rest: string)
    requires Readable(r)
    ensures Feed(START, PrintReply(r) + rest) == Done(START.(reply := Parsed(r)), rest)
  {
    hide Feed, PrintReply, Render, Fields, LegalLines, ApplyLines, LegalStart, Code, StatusParts, Number, Decimal;
    PrintIsRendered(r);
    StartIsLegal(r);
    HeadersAreLegal(r);
    FieldsAreLegal([], r.Headers());
    assert [] + r.Headers() == r.Headers();
    ContentLengthFound(r);
    RenderRuns(TreeOf(r), rest);
  }

  /** What any finished reply looks like, whatever was sent. */
  lemma {:induction false} FinishedReplyIsBounded(s: string)
    requires Feed(START, s).Done?
    ensures var q := Feed(START, s).m.reply;
            && (forall h | h in q.headers :: LegalHeader(h) && FitsBuffers(h))
            && All(q.content, NotCr) && |q.content| < MAX_REPLY_SIZE && q.status <= 999
  {
    hide Feed;
    FeedKeepsInv(START, s);
  }

  /** What the client read bounds what the server can have meant. */
  lemma {:induction false} ConveyedIsReadable(r: ServerReply)
    requires Conveys(PrintReply(r), r)
    ensures Readable(r)
  {
    hide Feed, Step, PrintReply, Code, Decimal, LegalHeader, IsWord, NotCr, IsValueChar;
    FinishedReplyIsBounded(PrintReply(r));
    var got := Feed(START, PrintReply(r)).m.reply;
    assert got.headers[0] in got.headers;
    ValueOf(got.headers[0]);
    forall h | h in r.extra ensures LegalHeader(h) && FitsBuffers(h) {
      var i :| 0 <= i < |r.extra| && r.extra[i] == h;
      assert got.headers[i + 2] == h;
    }
    forall i | 0 <= i < |r.content| ensures NotCr(r.content[i]) {
      assert r.content[i] == got.content[i];
    }
  }

  lemma ValueOf(h: Header)
    requires LegalHeader(h)
    ensures All(h.value, IsValueChar)
  {
  }

  /** Reply round trip: the client finishes exactly on the last byte with the status,
      headers and content the server meant, if and only if the reply is readable. */
  lemma {:induction false} ReplyRoundTrips(r: ServerReply)
    ensures Conveys(PrintReply(r), r) <==> Readable(r)
  {
    hide Feed, PrintReply, Code;
    if Readable(r) {
      PrintedReplyIsRead(r, "");
      assert PrintReply(r) + "" == PrintReply(r);
    }
    if Conveys(PrintReply(r), r) {
      ConveyedIsReadable(r);
    }
  }

  predicate IsCr(c: char) {
    c == '\r'
  }

  lemma {:induction false} OnlyCrStripsToNothing(s: string)
    requires All(s, IsCr)
    ensures StripCr(s) == ""
  {
    if s != "" {
      assert IsCr(s[0]);
      OnlyCrStripsToNothing(s[1..]);
    }
  }

  /** Carriage returns are stripped after Content-Length is computed, so content made only
      of them is announced but not sent: the client is left waiting for content, and takes
      the bytes of whatever reply comes next for it. */
  lemma {:induction false} OnlyCrContentHangs(r: ServerReply)
    requires r.content != "" && All(r.content, IsCr) && Readable(r.(content := "x"))
    requires |Decimal(|r.content|)| < VALUE_SIZE
    ensures Feed(START, PrintReply(r)).More?
    ensures Feed(START, PrintReply(r)).m.state == ContentStart
  {
    hide Feed, Step, StatusLine, PrintHeaders, Code, Decimal, Fields, RenderStart, RenderLines, LegalStart, LegalLines;
    hide ApplyLines, StatusParts, Number;
    OnlyCrStripsToNothing(r.content);
    var lines := Fields(r.Headers());
    assert PrintReply(r) == StatusLine(r.status) + (PrintHeaders(r.Headers()) + "\r\n\r\n") by {
      assert PrintBody(r.content) == "\r\n";
      assert "\r\n" + "\r\n" == "\r\n\r\n";
    }
    ContentLengthIsLegal(|r.content|);
    assert LegalHeader(Header("Content-Type", r.contentType));
    StartIsStatusLine(r);
    StartIsLegal(r);
    StartRuns(TreeOf(r), PrintHeaders(r.Headers()) + "\r\n\r\n");
    FieldsAreLegal([], r.Headers());
    FieldsPrint(r.Headers());
    assert [] + r.Headers() == r.Headers();
    var q := BLANK.(status := Code(r.status));
    var m := LinesRun(START.(state := HeaderLineStart, reply := q), q, lines, "\r\n\r\n");
    ContentLengthFound(r);
    EmptyAnnouncedContent(m);
  }

  lemma {:induction false} EmptyAnnouncedContent(m: Machine)
    requires m.state == HeaderLineStart && !m.reply.finished && ExpectsContent(m.reply.headers)
    ensures Feed(m, "\r\n\r\n") == More(m.Goto(ContentStart))
  {
    hide Feed, StepVersion, StepStatus, ExpectsContent;
    assert "\r\n\r\n" == ['\r'] + (['\n'] + (['\r'] + (['\n'] + "")));
    FeedOne(m, '\r', ['\n'] + (['\r'] + (['\n'] + "")));
    FeedOne(m.Goto(Newline3), '\n', ['\r'] + (['\n'] + ""));
    FeedOne(m.Goto(ContentStart), '\r', ['\n'] + "");
    FeedOne(m.Goto(Newline3), '\n', "");
    FeedNothing(m.Goto(ContentStart));
  }

  lemma FeedNothing(m: Machine)
    ensures Feed(m, "") == More(m)
  {
  }
}
