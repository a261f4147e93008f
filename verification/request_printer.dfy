/** The client's request printer, and the exact condition under which the server's parser
    reads back what the client printed. */
module RequestPrinting {
  import opened Buffers
  import opened Chars
  import opened Headers
  import opened RequestMachine
  import opened RequestGrammar

  /** A request as the client holds it; strings stand for C strings without their NUL. */
  datatype ClientRequest = ClientRequest(verb: string, uri: string, headers: seq<Header>, content: Option<string>)

  function PrintContent(content: Option<string>): string {
    match content
    case None => ""
    case Some(c) => PrintHeader(Header("Content-Length", Decimal(|c|))) + "\r\n" + c
  }

  function RequestLine(r: ClientRequest): string {
    r.verb + " " + r.uri + " HTTP/1.1\r\n"
  }

  function Print(r: ClientRequest): string {
    RequestLine(r) + PrintHeaders(r.headers) + PrintContent(r.content) + "\r\n"
  }

  /** Buffer size the first pass arrives at. */
  function HeadersSize(headers: seq<Header>): nat {
    if headers == [] then 0 else
      var h := headers[|headers| - 1];
      HeadersSize(headers[..|headers| - 1]) + |h.name| + |h.value| + 2 + 2
  }

  function Size(r: ClientRequest): nat {
    |r.verb| + |r.uri| + 14 + 1 + HeadersSize(r.headers)
    + (if r.content.Some? then |r.content.value| + 16 + 5 + 6 else 0) + 2
  }

  lemma {:induction false} HeadersSizeExact(headers: seq<Header>)
    ensures |PrintHeaders(headers)| == HeadersSize(headers)
  {
    if headers != [] {
      HeadersSizeExact(headers[..|headers| - 1]);
    }
  }

  /** The second pass and its terminating NUL stay inside the buffer of the first exactly
      when the length of the content has at most nine digits. */
  lemma {:induction false} OutputFits(r: ClientRequest)
    ensures |Print(r)| + 1 <= Size(r) <==> (r.content.Some? ==> |r.content.value| < 1_000_000_000)
    ensures Size(r) == |Print(r)| + if r.content.Some? then 10 - |Decimal(|r.content.value|)| else 3
  {
    HeadersSizeExact(r.headers);
    if r.content.Some? {
      DecimalLength(|r.content.value|, 9);
      assert Pow10(9) == 1_000_000_000 by { assert Pow10(4) == 10_000; assert Pow10(8) == 100_000_000; }
    }
  }

  class HamRequest {
    const verb: string
    const uri: string
    var content: Option<string>
    var headers: seq<Header>

    constructor (uri: string, verb: string, content: Option<string>)
      ensures Value() == ClientRequest(verb, uri, [], content)
    {
      this.uri, this.verb, this.content, this.headers := uri, verb, content, [];
    }

    function Value(): ClientRequest
      reads this
    {
      ClientRequest(verb, uri, headers, content)
    }

    method SetContent(c: string)
      modifies this
      ensures Value() == old(Value()).(content := Some(c))
    {
      content := Some(c);
    }

    method AddHeader(name: string, value: string)
      modifies this
      ensures Value() == old(Value()).(headers := old(headers) + [Header(name, value)])
    {
      headers := headers + [Header(name, value)];
    }

    /** First pass: the size of the output buffer. */
    method Measure() returns (size: nat)
      ensures size == Size(Value())
    {
      size := |verb| + |uri| + 14 + 1;
      for i := 0 to |headers|
        invariant size == |verb| + |uri| + 15 + HeadersSize(headers[..i])
      {
        assert headers[..i + 1][..i] == headers[..i];
        size := size + |headers[i].name| + |headers[i].value| + 2 + 2;
      }
      assert headers[..|headers|] == headers;
      if content.Some? {
        size := size + |content.value|;
        size := size + |"Content-Length: "| + 5;
        size := size + 6;
      }
      size := size + 2;
    }

    /** Second pass: the printed request as a NUL-terminated buffer. */
    method GetData() returns (data: array<char>)
      requires content.Some? ==> |content.value| < 1_000_000_000
      ensures |Print(Value())| < data.Length
      ensures data[..|Print(Value())|] == Print(Value()) && data[|Print(Value())|] == '\0'
    {
      hide RequestLine, PrintHeader, PrintContent, Size;
      OutputFits(Value());
      ghost var line, text := RequestLine(Value()), PrintContent(content);
      var size := Measure();
      data := new char[size];
      var ptr := PutString(data, 0, RequestLine(Value()));
      for i := 0 to |headers|
        invariant 0 <= ptr <= data.Length && data[..ptr] == line + PrintHeaders(headers[..i])
      {
        assert headers[..i + 1][..i] == headers[..i];
        PrefixNoLonger(headers, i + 1);
        ptr := PutString(data, ptr, PrintHeader(headers[i]));
      }
      assert headers[..|headers|] == headers;
      if content.Some? {
        ptr := PutString(data, ptr, PrintContent(content));
      } else {
        NoContentPrintsNothing();
      }
      assert data[..ptr] == line + PrintHeaders(headers) + text;
      ptr := PutString(data, ptr, "\r\n");
    }
  }

  lemma NoContentPrintsNothing()
    ensures PrintContent(None) == ""
  {
  }

  lemma {:induction false} PrefixNoLonger(headers: seq<Header>, k: nat)
    requires k <= |headers|
    ensures |PrintHeaders(headers[..k])| <= |PrintHeaders(headers)|
    decreases |headers|
  {
    if k < |headers| {
      assert headers[..|headers| - 1][..k] == headers[..k];
      PrefixNoLonger(headers[..|headers| - 1], k);
      assert |PrintHeaders(headers)| >= |PrintHeaders(headers[..|headers| - 1])|;
    } else {
      assert headers[..k] == headers;
    }
  }

  // ---------------------------------------------------------------- round trip

  /** What the server is meant to see. */
  function Expected(r: ClientRequest): Request {
    match r.content
    case None => Request(r.verb, r.uri, 1, 1, true, r.headers, "")
    case Some(c) => Request(r.verb, r.uri, 1, 1, true, r.headers + [Header("Content-Length", Decimal(|c|))], c)
  }

  /** What the caller can check before sending. */
  ghost predicate WellFormed(r: ClientRequest) {
    && IsWord(r.verb)
    && All(r.uri, IsUriChar)
    && (forall h | h in r.headers :: LegalHeader(h))
    && match r.content
       case None => !HasHeader(r.headers, "Content-Length")
       case Some(c) => c != "" && All(c, NotCr)
  }

  function Fields(headers: seq<Header>): (lines: seq<Line>)
    ensures |lines| == |headers|
  {
    seq(|headers|, i requires 0 <= i < |headers| => Field(headers[i].name, headers[i].value))
  }

  lemma {:induction false} FieldsAreLegal(before: seq<Header>, headers: seq<Header>)
    requires forall h | h in headers :: LegalHeader(h)
    ensures LegalLines(before, Fields(headers)) && ApplyLines(before, Fields(headers)) == before + headers
    decreases |headers|
  {
    if headers == [] {
      assert before + headers == before;
    } else {
      assert LegalHeader(headers[0]);
      assert ApplyLine(before, Fields(headers)[0]) == before + [headers[0]];
      assert Fields(headers)[1..] == Fields(headers[1..]);
      FieldsAreLegal(before + [headers[0]], headers[1..]);
      assert before + [headers[0]] + headers[1..] == before + headers;
    }
  }

  lemma {:induction false} FieldsPrint(headers: seq<Header>)
    ensures RenderLines(Fields(headers)) == PrintHeaders(headers)
    decreases |headers|
  {
    if headers != [] {
      var k := |headers| - 1;
      hide RenderLine, RenderLines, PrintHeader;
      FieldsPrint(headers[..k]);
      FieldPrints(headers[k]);
      assert Fields(headers) == Fields(headers[..k]) + [Field(headers[k].name, headers[k].value)];
      RenderLinesSnoc(Fields(headers[..k]), Field(headers[k].name, headers[k].value));
    }
  }

  lemma FieldPrints(h: Header)
    ensures RenderLine(Field(h.name, h.value)) == PrintHeader(h)
  {
  }

  lemma {:induction false} RenderLinesSnoc(lines: seq<Line>, l: Line)
    ensures RenderLines(lines + [l]) == RenderLines(lines) + RenderLine(l)
    decreases |lines|
  {
    if lines == [] {
      assert lines + [l] == [l] && RenderLines([l][1..]) == "";
      assert RenderLine(l) + "" == RenderLine(l);
    } else {
      assert (lines + [l])[1..] == lines[1..] + [l];
      RenderLinesSnoc(lines[1..], l);
    }
  }

  function TreeOf(r: ClientRequest): Tree {
    Tree(r.verb, r.uri, "1", "1", Fields(Expected(r).headers),
         match r.content case None => NoBody case Some(c) => Body(0, c))
  }

  lemma {:induction false} PrintIsRendered(r: ClientRequest)
    ensures Render(TreeOf(r)) == Print(r)
  {
    hide Decimal, Fields, RenderLines, PrintHeaders, PrintContent, RenderBody;
    FieldsPrint(Expected(r).headers);
    RestIsRendered(r);
    var rest := PrintHeaders(r.headers) + PrintContent(r.content) + "\r\n";
    assert RenderLineAndBody(TreeOf(r)) == rest;
    assert " HTTP/1.1\r\n" == " HTTP/" + "1" + "." + "1" + "\r\n";
    assert Render(TreeOf(r)) == RequestLine(r) + rest;
  }

  lemma {:induction false} RestIsRendered(r: ClientRequest)
    ensures PrintHeaders(Expected(r).headers) + "\r\n" + RenderBody(TreeOf(r).body)
         == PrintHeaders(r.headers) + PrintContent(r.content) + "\r\n"
  {
    hide Decimal, Fields, PrintHeaders;
    if r.content.Some? {
      var c := r.content.value;
      var h := Header("Content-Length", Decimal(|c|));
      PrintHeadersSnoc(r.headers, h);
      assert EmptyLines(0) + c + "\r\n" == c + "\r\n";
    }
  }

  lemma {:induction false} WellFormedIsAccepted(r: ClientRequest)
    requires WellFormed(r)
    ensures Legal(TreeOf(r)) && Meaning(TreeOf(r)) == Expected(r)
  {
    hide Fields, Decimal;
    var hs := Expected(r).headers;
    if r.content.Some? {
      ContentLengthIsLegal(|r.content.value|);
      assert hs[|r.headers|] in hs;
    }
    FieldsAreLegal([], hs);
    assert [] + hs == hs;
    assert Number("1") == 1 by { assert Number("1"[..0]) == 0; }
  }

  lemma {:induction false} ParsedHeadersAreLegal(before: seq<Header>, lines: seq<Line>)
    requires LegalLines(before, lines) && forall h | h in before :: LegalHeader(h)
    ensures forall h | h in ApplyLines(before, lines) :: LegalHeader(h)
    decreases |lines|
  {
    if lines != [] {
      var next := ApplyLine(before, lines[0]);
      if lines[0].Fold? {
        var last := before[|before| - 1];
        assert LegalHeader(last);
        assert LegalHeader(last.(value := last.value + lines[0].rest));
      }
      assert forall h | h in next :: LegalHeader(h);
      ParsedHeadersAreLegal(next, lines[1..]);
    }
  }

  /** Round trip: the printed request is accepted, with the method, URI, version 1.1,
      headers in order (and Content-Length when there is content) and content that were
      printed, if and only if the request is well formed. */
  lemma {:induction false} RequestRoundTrip(r: ClientRequest)
    ensures Accepts(Print(r), Expected(r)) <==> WellFormed(r)
  {
    if WellFormed(r) {
      WellFormedIsAccepted(r);
      PrintIsRendered(r);
      MachineDecidesGrammar(Print(r), Expected(r));
    }
    if Accepts(Print(r), Expected(r)) {
      var t := AcceptedIsRendered(Print(r), Expected(r));
      ParsedHeadersAreLegal([], t.lines);
      var hs := Expected(r).headers;
      forall h | h in r.headers ensures LegalHeader(h) {
        assert h in hs;
      }
      if r.content.Some? {
        assert hs[|r.headers|] in hs;
      }
    }
  }

  /** Self-delimitation of printed requests, whatever bytes follow. */
  lemma {:induction false} PrintedRequestIsDelimited(r: ClientRequest, rest: string)
    requires WellFormed(r)
    ensures Feed(START, Print(r) + rest) == Done(Machine(MethodStart, Expected(r)), rest)
  {
    RequestRoundTrip(r);
    SelfDelimiting(Print(r), Expected(r), rest);
  }

  /** Content that is empty, or nothing but empty lines, never finishes: the parser is left
      waiting for content, with the rest of the request read. */
  lemma {:induction false} EmptyContentHangs(r: ClientRequest, k: nat)
    requires r.content == Some(EmptyLines(k)) && WellFormed(r.(content := Some("x")))
    ensures Feed(START, Print(r)) == More(Machine(ContentStart, Expected(r).(finished := false, content := "")))
  {
    hide Feed, Step, Print, Fields, RenderLines, EmptyLines, ApplyLines, LegalLines;
    hide HasHeader, WellFormed, Meaning, Legal, Number, Decimal;
    var t := TreeOf(r).(body := Body(k + 1, "x"));
    var e := Expected(r).(finished := false, content := "");
    var tail := "\r\n" + EmptyLines(k + 1);
    HangingTree(r, k);
    HangingText(r, k);
    RequestLineRuns(t, RenderLines(t.lines) + tail);
    LinesRun(Machine(HeaderLineStart, e.(headers := [])), t.lines, tail);
    EmptyLinesRun(Machine(HeaderLineStart, e), k + 1);
  }

  lemma {:induction false} HangingTree(r: ClientRequest, k: nat)
    requires r.content == Some(EmptyLines(k)) && WellFormed(r.(content := Some("x")))
    ensures var t := TreeOf(r).(body := Body(k + 1, "x"));
            && Legal(t) && Meaning(t) == Expected(r).(content := "x")
            && t.verb == r.verb && t.uri == r.uri && t.major == t.minor == "1"
            && t.lines == Fields(Expected(r).headers) && LegalLines([], t.lines)
            && ApplyLines([], t.lines) == Expected(r).headers
            && HasHeader(Expected(r).headers, "Content-Length")
  {
    hide Decimal, Fields, LegalLines, ApplyLines;
    var hs := Expected(r).headers;
    ContentLengthIsLegal(|r.content.value|);
    assert hs[|r.headers|] in hs;
    FieldsAreLegal([], hs);
    assert [] + hs == hs;
    assert Number("1") == 1 by { assert Number("1"[..0]) == 0; }
  }

  lemma {:induction false} HangingText(r: ClientRequest, k: nat)
    requires r.content == Some(EmptyLines(k))
    ensures Print(r) == r.verb + " " + r.uri + " HTTP/" + "1" + "." + "1" + "\r\n"
                        + (RenderLines(Fields(Expected(r).headers)) + ("\r\n" + EmptyLines(k + 1)))
  {
    hide Decimal, Fields, RenderLines, PrintHeaders, EmptyLines;
    var h := Header("Content-Length", Decimal(|r.content.value|));
    FieldsPrint(Expected(r).headers);
    PrintHeadersSnoc(r.headers, h);
    EmptyLinesSnoc(k);
    HangingBody(r.content.value);
    assert " HTTP/1.1\r\n" == " HTTP/" + "1" + "." + "1" + "\r\n";
  }

  lemma HangingBody(c: string)
    ensures PrintContent(Some(c)) + "\r\n"
         == PrintHeader(Header("Content-Length", Decimal(|c|))) + ("\r\n" + (c + "\r\n"))
  {
    hide PrintHeader, Decimal;
    Regroup(PrintHeader(Header("Content-Length", Decimal(|c|))), "\r\n", c);
  }

  lemma Regroup(h: string, nl: string, c: string)
    ensures h + nl + c + nl == h + (nl + (c + nl))
  {
  }

  lemma {:induction false} EmptyLinesSnoc(k: nat)
    ensures EmptyLines(k) + "\r\n" == EmptyLines(k + 1)
  {
    if k > 0 {
      EmptyLinesSnoc(k - 1);
      ConcatAssoc("\r\n", EmptyLines(k - 1), "\r\n");
    }
  }

  lemma {:induction false} EmptyLinesRun(m: Machine, k: nat)
    requires m.state == HeaderLineStart && !m.req.finished && HasHeader(m.req.headers, "Content-Length")
    ensures Feed(m, "\r\n" + EmptyLines(k)) == More(m.Goto(ContentStart))
  {
    hide Feed, HasHeader, StepTarget, StepVersion;
    var tail := EmptyLines(k);
    assert "\r\n" + tail == ['\r'] + (['\n'] + tail);
    FeedOne(m, '\r', ['\n'] + tail);
    FeedOne(m.Goto(Newline3), '\n', tail);
    StillWaiting(m.Goto(ContentStart), k);
  }

  lemma {:induction false} StillWaiting(m: Machine, k: nat)
    requires m.state == ContentStart && !m.req.finished && HasHeader(m.req.headers, "Content-Length")
    ensures Feed(m, EmptyLines(k)) == More(m)
  {
    hide HasHeader, Step;
    if k > 0 {
      hide Feed;
      EmptyLineRuns(m, EmptyLines(k - 1));
      StillWaiting(m, k - 1);
    }
  }

  /** Printing loses nothing: well-formed requests that print alike are the same. */
  lemma {:induction false} PrintIsInjective(r: ClientRequest, r': ClientRequest)
    requires WellFormed(r) && WellFormed(r') && Print(r) == Print(r')
    ensures r == r'
  {
    hide Feed, Print, WellFormed;
    RequestRoundTrip(r);
    RequestRoundTrip(r');
    if r.content.None? && r'.content.Some? {
      ContentShows(r, r');
    } else if r.content.Some? && r'.content.None? {
      ContentShows(r', r);
    } else if r.content.Some? {
      var k, k' := |r.headers|, |r'.headers|;
      assert |Expected(r).headers| == k + 1 && |Expected(r').headers| == k' + 1;
      assert Expected(r).headers[..k] == r.headers && Expected(r').headers[..k] == r'.headers;
    }
  }

  lemma ContentShows(r: ClientRequest, r': ClientRequest)
    requires WellFormed(r) && WellFormed(r') && r.content.None? && r'.content.Some?
    ensures Expected(r) != Expected(r')
  {
  }
}
