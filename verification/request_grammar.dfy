/** The language of requests, written as a grammar in the style of sections 4 and 5 of
    RFC 2616, and the proof that the state machine accepts exactly that language with
    exactly that meaning. */
module RequestGrammar {
  import opened Chars
  import opened Headers
  import opened RequestMachine

  /** A header field, or a continuation line that extends the value of the last field. */
  datatype Line = Field(name: string, value: string) | Fold(blanks: string, rest: string)

  datatype Body = NoBody | Body(emptyLines: nat, content: string)

  datatype Tree = Tree(verb: string, uri: string, major: string, minor: string,
                       lines: seq<Line>, body: Body)

  predicate IsUriChar(c: char) {
    !IsControl(c) && c != ' '
  }

  ghost predicate LegalLine(headers: seq<Header>, l: Line) {
    match l
    case Field(name, value) => IsWord(name) && All(value, IsValueChar)
    case Fold(blanks, rest) =>
      && headers != []
      && blanks != "" && All(blanks, IsBlank)
      && All(rest, IsValueChar) && (rest != "" ==> !IsBlank(rest[0]))
  }

  /** A field adds a header; a continuation appends its text to the last header's value. */
  ghost function ApplyLine(headers: seq<Header>, l: Line): seq<Header>
    requires LegalLine(headers, l)
  {
    match l
    case Field(name, value) => headers + [Header(name, value)]
    case Fold(_, rest) => AppendToLast(headers, rest)
  }

  ghost predicate LegalLines(headers: seq<Header>, lines: seq<Line>)
    decreases |lines|
  {
    lines == [] || (LegalLine(headers, lines[0]) && LegalLines(ApplyLine(headers, lines[0]), lines[1..]))
  }

  ghost function ApplyLines(headers: seq<Header>, lines: seq<Line>): seq<Header>
    requires LegalLines(headers, lines)
    decreases |lines|
  {
    if lines == [] then headers else ApplyLines(ApplyLine(headers, lines[0]), lines[1..])
  }

  function RenderLine(l: Line): string {
    match l
    case Field(name, value) => name + ": " + value + "\r\n"
    case Fold(blanks, rest) => blanks + rest + "\r\n"
  }

  function RenderLines(lines: seq<Line>): string {
    if lines == [] then "" else RenderLine(lines[0]) + RenderLines(lines[1..])
  }

  function EmptyLines(k: nat): string {
    if k == 0 then "" else "\r\n" + EmptyLines(k - 1)
  }

  function RenderBody(b: Body): string {
    match b
    case NoBody => ""
    case Body(k, content) => EmptyLines(k) + content + "\r\n"
  }

  function RenderLineAndBody(t: Tree): string {
    RenderLines(t.lines) + "\r\n" + RenderBody(t.body)
  }

  function Render(t: Tree): string {
    t.verb + " " + t.uri + " HTTP/" + t.major + "." + t.minor + "\r\n" + RenderLineAndBody(t)
  }

  /** There is a body exactly when the header lines announce a Content-Length; the body is
      non-empty and free of carriage returns. */
  ghost predicate LegalBody(headers: seq<Header>, b: Body) {
    && (b.Body? <==> HasHeader(headers, "Content-Length"))
    && (b.Body? ==> b.content != "" && All(b.content, NotCr))
  }

  ghost predicate Legal(t: Tree) {
    && IsWord(t.verb)
    && All(t.uri, IsUriChar)
    && t.major != "" && All(t.major, IsDigit)
    && t.minor != "" && All(t.minor, IsDigit)
    && LegalLines([], t.lines)
    && LegalBody(ApplyLines([], t.lines), t.body)
  }

  function BodyText(b: Body): string {
    if b.Body? then b.content else ""
  }

  ghost function Meaning(t: Tree): Request
    requires Legal(t)
  {
    Request(t.verb, t.uri, Number(t.major) % 0x1_0000_0000, Number(t.minor) % 0x1_0000_0000,
            true, ApplyLines([], t.lines), BodyText(t.body))
  }

  // ---------------------------------------------------------------- runs inside one state

  predicate LoopsOn(s: State, c: char) {
    match s
    case Method => IsToken(c)
    case Uri => IsUriChar(c)
    case Major => IsDigit(c)
    case Minor => IsDigit(c)
    case HeaderLws => IsBlank(c)
    case HeaderName => IsToken(c)
    case HeaderValue => IsValueChar(c)
    case Content => NotCr(c)
    case _ => false
  }

  const LOOPING := {Method, Uri, Major, Minor, HeaderLws, HeaderName, HeaderValue, Content}

  ghost predicate Loops(s: State, t: string) {
    forall i | 0 <= i < |t| :: LoopsOn(s, t[i])
  }

  function PushDigits(v: nat, t: string): nat
    requires All(t, IsDigit)
    decreases |t|
  {
    if t == "" then v else PushDigits(PushDigit(v, t[0]), t[1..])
  }

  lemma {:induction false} PushDigitsSnoc(v: nat, t: string, c: char)
    requires All(t, IsDigit) && IsDigit(c)
    ensures All(t + [c], IsDigit)
    ensures PushDigits(v, t + [c]) == PushDigit(PushDigits(v, t), c)
    decreases |t|
  {
    if t == "" {
      assert t + [c] == [c];
      assert PushDigits(PushDigit(v, c), [c][1..]) == PushDigit(v, c);
    } else {
      assert (t + [c])[0] == t[0] && (t + [c])[1..] == t[1..] + [c];
      PushDigitsSnoc(PushDigit(v, t[0]), t[1..], c);
    }
  }

  lemma {:induction false} PushDigitsIsNumber(t: string)
    requires All(t, IsDigit)
    ensures PushDigits(0, t) == Number(t) % 0x1_0000_0000
  {
    if t != "" {
      var init, c := t[..|t| - 1], t[|t| - 1];
      assert t == init + [c];
      PushDigitsIsNumber(init);
      PushDigitsSnoc(0, init, c);
      WrapOnce(Number(init), DigitValue(c));
    }
  }

  /** Wrapping at every digit is the same as wrapping once at the end. */
  lemma WrapOnce(x: nat, d: nat)
    ensures (x % 0x1_0000_0000 * 10 + d) % 0x1_0000_0000 == (x * 10 + d) % 0x1_0000_0000
  {
    var y := x % 0x1_0000_0000 * 10 + d;
    Remainder(x * 10 + d, x / 0x1_0000_0000 * 10 + y / 0x1_0000_0000, y % 0x1_0000_0000);
  }

  lemma Remainder(a: nat, q: nat, r: nat)
    requires a == 0x1_0000_0000 * q + r && r < 0x1_0000_0000
    ensures a % 0x1_0000_0000 == r
  {
  }

  /** The machine after a run of characters on which its state loops. */
  function Absorb(m: Machine, t: string): (n: Machine)
    requires m.Sane() && Loops(m.state, t)
    ensures n.Sane() && n.state == m.state && n.req.finished == m.req.finished
  {
    var q := m.req;
    match m.state
    case Method => m.With(q.(verb := q.verb + t))
    case Uri => m.With(q.(uri := q.uri + t))
    case Major => assert All(t, IsDigit); m.With(q.(major := PushDigits(q.major, t)))
    case Minor => assert All(t, IsDigit); m.With(q.(minor := PushDigits(q.minor, t)))
    case HeaderName => m.With(q.(headers := AppendToLastName(q.headers, t)))
    case HeaderValue => m.With(q.(headers := AppendToLast(q.headers, t)))
    case Content => m.With(q.(content := q.content + t))
    case _ => m
  }

  lemma {:induction false} AbsorbCons(m: Machine, t: string)
    requires m.Sane() && t != "" && Loops(m.state, t) && !m.req.finished
    ensures Step(m, t[0]).Some?
    ensures var n := Step(m, t[0]).value; n.state == m.state && !n.req.finished && Absorb(n, t[1..]) == Absorb(m, t)
  {
    assert LoopsOn(m.state, t[0]);
    assert Loops(m.state, t[1..]);
    assert [t[0]] + t[1..] == t;
    var q := m.req;
    match m.state
    case Method => assert q.verb + t == q.verb + [t[0]] + t[1..];
    case Uri => assert q.uri + t == q.uri + [t[0]] + t[1..];
    case Content => assert q.content + t == q.content + [t[0]] + t[1..];
    case HeaderName =>
      var h := q.headers[|q.headers| - 1];
      assert h.name + t == h.name + [t[0]] + t[1..];
    case HeaderValue =>
      var h := q.headers[|q.headers| - 1];
      assert h.value + t == h.value + [t[0]] + t[1..];
    case _ =>
  }

  lemma AppendNothing(headers: seq<Header>)
    requires headers != []
    ensures AppendToLast(headers, "") == headers && AppendToLastName(headers, "") == headers
  {
    var h := headers[|headers| - 1];
    assert h.value + "" == h.value && h.name + "" == h.name;
  }

  lemma AppendOf(headers: seq<Header>, name: string, s: string)
    ensures AppendToLastName(headers + [Header(name, "")], s) == headers + [Header(name + s, "")]
    ensures AppendToLast(headers + [Header(name, "")], s) == headers + [Header(name, s)]
  {
    assert "" + s == s;
  }

  lemma {:induction false} AbsorbRun(m: Machine, t: string, rest: string)
    requires m.Sane() && Loops(m.state, t) && !m.req.finished
    ensures Feed(m, t + rest) == Feed(Absorb(m, t), rest)
    decreases |t|
  {
    if t == "" {
      assert t + rest == rest;
      if m.state == HeaderName || m.state == HeaderValue { AppendNothing(m.req.headers); }
      assert m.req.verb + "" == m.req.verb && m.req.uri + "" == m.req.uri && m.req.content + "" == m.req.content;
      assert m == Absorb(m, t);
    } else {
      assert (t + rest)[0] == t[0] && (t + rest)[1..] == t[1..] + rest;
      AbsorbCons(m, t);
      var n := Step(m, t[0]).value;
      assert Loops(n.state, t[1..]);
      AbsorbRun(n, t[1..], rest);
    }
  }

  /** Feeding one byte and going on. */
  lemma {:induction false} FeedOne(m: Machine, c: char, rest: string)
    requires m.Sane() && Step(m, c).Some? && !Step(m, c).value.req.finished
    ensures Feed(m, [c] + rest) == Feed(Step(m, c).value, rest)
  {
    assert ([c] + rest)[0] == c && ([c] + rest)[1..] == rest;
  }

  /** A run on which the state loops, the byte that ends it, and the machine after both. */
  lemma {:induction false} RunThenOne(m: Machine, t: string, c: char, rest: string)
    requires m.Sane() && !m.req.finished && Loops(m.state, t)
    requires Step(Absorb(m, t), c).Some? && !Step(Absorb(m, t), c).value.req.finished
    ensures Feed(m, t + [c] + rest) == Feed(Step(Absorb(m, t), c).value, rest)
  {
    hide Feed, Step;
    assert t + [c] + rest == t + ([c] + rest);
    AbsorbRun(m, t, [c] + rest);
    FeedOne(Absorb(m, t), c, rest);
  }

  // ---------------------------------------------------------------- grammar to machine

  lemma {:induction false} VersionRuns(m: Machine, rest: string)
    requires m.state == VersionH && !m.req.finished
    ensures Feed(m, "HTTP/" + rest) == Feed(Machine(MajorStart, m.req.(major := 0, minor := 0)), rest)
  {
    hide Feed, StepTarget, StepHeader, StepBody;
    assert "HTTP/" + rest == ['H'] + (['T'] + (['T'] + (['P'] + (['/'] + rest))));
    FeedOne(m, 'H', ['T'] + (['T'] + (['P'] + (['/'] + rest))));
    FeedOne(m.Goto(VersionT1), 'T', ['T'] + (['P'] + (['/'] + rest)));
    FeedOne(m.Goto(VersionT2), 'T', ['P'] + (['/'] + rest));
    FeedOne(m.Goto(VersionP), 'P', ['/'] + rest);
    FeedOne(m.Goto(VersionSlash), '/', rest);
  }

  lemma {:induction false} NumbersRun(m: Machine, major: string, minor: string, rest: string)
    requires m.state == MajorStart && !m.req.finished && m.req.major == 0 && m.req.minor == 0
    requires major != "" && All(major, IsDigit) && minor != "" && All(minor, IsDigit)
    ensures Feed(m, major + "." + minor + "\r\n" + rest) ==
            Feed(Machine(HeaderLineStart,
                         m.req.(major := Number(major) % 0x1_0000_0000, minor := Number(minor) % 0x1_0000_0000)), rest)
  {
    hide Feed, Number, StepTarget, StepHeader, StepBody;
    PushDigitsIsNumber(major);
    PushDigitsIsNumber(minor);
    var m1 := Machine(Major, m.req.(major := PushDigit(0, major[0])));
    var tail1 := [minor[0]] + (minor[1..] + ['\r'] + (['\n'] + rest));
    assert major + "." + minor + "\r\n" + rest == [major[0]] + (major[1..] + ['.'] + tail1) by {
      assert major == [major[0]] + major[1..] && minor == [minor[0]] + minor[1..];
    }
    FeedOne(m, major[0], major[1..] + ['.'] + tail1);
    RunThenOne(m1, major[1..], '.', tail1);
    var m2 := Machine(MinorStart, m.req.(major := PushDigits(0, major)));
    FeedOne(m2, minor[0], minor[1..] + ['\r'] + (['\n'] + rest));
    var m3 := Machine(Minor, m2.req.(minor := PushDigit(0, minor[0])));
    RunThenOne(m3, minor[1..], '\r', ['\n'] + rest);
    var m4 := Machine(Newline1, m2.req.(minor := PushDigits(0, minor)));
    FeedOne(m4, '\n', rest);
  }

  lemma {:induction false} RequestLineRuns(t: Tree, rest: string)
    requires Legal(t)
    ensures Feed(START, t.verb + " " + t.uri + " HTTP/" + t.major + "." + t.minor + "\r\n" + rest) ==
            Feed(Machine(HeaderLineStart, Meaning(t).(finished := false, headers := [], content := "")), rest)
  {
    hide Feed, StepVersion, StepHeader, StepBody, Number;
    var verb, uri := t.verb, t.uri;
    var tail2 := t.major + "." + t.minor + "\r\n" + rest;
    var tail1 := uri + [' '] + ("HTTP/" + tail2);
    assert verb == [verb[0]] + verb[1..];
    assert verb + " " + uri + " HTTP/" + t.major + "." + t.minor + "\r\n" + rest
        == [verb[0]] + (verb[1..] + [' '] + tail1) by {
      assert " HTTP/" == [' '] + "HTTP/";
    }
    FeedOne(START, verb[0], verb[1..] + [' '] + tail1);
    var m0 := Machine(Method, BLANK.(verb := [verb[0]]));
    assert "" + [verb[0]] == [verb[0]] && "" + uri == uri;
    RunThenOne(m0, verb[1..], ' ', tail1);
    var m1 := Machine(Uri, BLANK.(verb := verb));
    RunThenOne(m1, uri, ' ', "HTTP/" + tail2);
    var m2 := Machine(VersionH, BLANK.(verb := verb, uri := uri));
    VersionRuns(m2, tail2);
    NumbersRun(m2.Goto(MajorStart), t.major, t.minor, rest);
  }

  lemma {:induction false} FieldRuns(m: Machine, name: string, value: string, rest: string)
    requires m.state == HeaderLineStart && !m.req.finished && IsWord(name) && All(value, IsValueChar)
    ensures Feed(m, RenderLine(Field(name, value)) + rest) ==
            Feed(m.With(m.req.(headers := m.req.headers + [Header(name, value)])), rest)
  {
    hide Feed, StepTarget, StepVersion, StepBody;
    var q, hs := m.req, m.req.headers;
    var tail := value + ['\r'] + (['\n'] + rest);
    assert name == [name[0]] + name[1..];
    assert RenderLine(Field(name, value)) + rest == [name[0]] + (name[1..] + [':'] + ([' '] + tail));
    FeedOne(m, name[0], name[1..] + [':'] + ([' '] + tail));
    var m1 := Machine(HeaderName, q.(headers := hs + [Header([name[0]], "")]));
    assert Step(m, name[0]) == Some(m1);
    RunThenOne(m1, name[1..], ':', [' '] + tail);
    var m2 := Machine(SpaceBeforeValue, q.(headers := hs + [Header(name, "")]));
    AppendOf(hs, [name[0]], name[1..]);
    FeedOne(m2, ' ', tail);
    ValueRuns(m2.Goto(HeaderValue), value, rest);
    AppendOf(hs, name, value);
  }

  lemma {:induction false} ValueRuns(m: Machine, value: string, rest: string)
    requires m.state == HeaderValue && !m.req.finished && m.req.headers != [] && All(value, IsValueChar)
    ensures Feed(m, value + ['\r'] + (['\n'] + rest)) ==
            Feed(Machine(HeaderLineStart, m.req.(headers := AppendToLast(m.req.headers, value))), rest)
  {
    hide Feed, StepTarget, StepVersion, StepBody, AppendToLast, AppendToLastName;
    RunThenOne(m, value, '\r', ['\n'] + rest);
    FeedOne(Machine(Newline2, m.req.(headers := AppendToLast(m.req.headers, value))), '\n', rest);
  }

  lemma AppendTwice(headers: seq<Header>, s: string, t: string)
    requires headers != []
    ensures AppendToLast(AppendToLast(headers, s), t) == AppendToLast(headers, s + t)
  {
    var h := headers[|headers| - 1];
    assert h.value + s + t == h.value + (s + t);
  }

  lemma {:induction false} FoldRuns(m: Machine, l: Line, rest: string)
    requires m.state == HeaderLineStart && !m.req.finished && l.Fold? && LegalLine(m.req.headers, l)
    ensures Feed(m, RenderLine(l) + rest) ==
            Feed(m.With(m.req.(headers := AppendToLast(m.req.headers, l.rest))), rest)
  {
    hide Feed, StepTarget, StepVersion, StepBody, AppendToLast, AppendToLastName;
    var b, v := l.blanks, l.rest;
    assert b == [b[0]] + b[1..];
    assert IsBlank(b[0]);
    var lws := m.Goto(HeaderLws);
    if v == "" {
      assert RenderLine(l) + rest == [b[0]] + (b[1..] + ['\r'] + (['\n'] + rest));
      FeedOne(m, b[0], b[1..] + ['\r'] + (['\n'] + rest));
      RunThenOne(lws, b[1..], '\r', ['\n'] + rest);
      FeedOne(m.Goto(Newline2), '\n', rest);
      AppendNothing(m.req.headers);
    } else {
      assert v == [v[0]] + v[1..];
      var tail := v[1..] + ['\r'] + (['\n'] + rest);
      assert RenderLine(l) + rest == [b[0]] + (b[1..] + [v[0]] + tail);
      FeedOne(m, b[0], b[1..] + [v[0]] + tail);
      RunThenOne(lws, b[1..], v[0], tail);
      ValueRuns(Machine(HeaderValue, m.req.(headers := AppendToLast(m.req.headers, [v[0]]))), v[1..], rest);
      AppendTwice(m.req.headers, [v[0]], v[1..]);
    }
  }

  lemma {:induction false} LinesRun(m: Machine, lines: seq<Line>, rest: string)
    requires m.state == HeaderLineStart && !m.req.finished && LegalLines(m.req.headers, lines)
    ensures Feed(m, RenderLines(lines) + rest) ==
            Feed(m.With(m.req.(headers := ApplyLines(m.req.headers, lines))), rest)
    decreases |lines|
  {
    hide Feed;
    if lines == [] {
      assert RenderLines(lines) + rest == rest;
    } else {
      var l, tail := lines[0], RenderLines(lines[1..]) + rest;
      assert RenderLines(lines) + rest == RenderLine(l) + tail;
      if l.Field? { FieldRuns(m, l.name, l.value, tail); } else { FoldRuns(m, l, tail); }
      LinesRun(m.With(m.req.(headers := ApplyLine(m.req.headers, l))), lines[1..], rest);
    }
  }

  /** An empty line while content is awaited leads back to awaiting content. */
  lemma {:induction false} EmptyLineRuns(m: Machine, rest: string)
    requires m.state == ContentStart && !m.req.finished && HasHeader(m.req.headers, "Content-Length")
    ensures Feed(m, "\r\n" + rest) == Feed(m, rest)
  {
    hide Feed, HasHeader, StepTarget, StepVersion, StepHeader;
    assert "\r\n" + rest == ['\r'] + (['\n'] + rest);
    FeedOne(m, '\r', ['\n'] + rest);
    FeedOne(m.Goto(Newline3), '\n', rest);
  }

  lemma {:induction false} BodyRuns(m: Machine, k: nat, content: string, rest: string)
    requires m.state == ContentStart && !m.req.finished && HasHeader(m.req.headers, "Content-Length")
    requires content != "" && All(content, NotCr) && m.req.content == ""
    ensures Feed(m, EmptyLines(k) + content + "\r\n" + rest) ==
            Done(Machine(MethodStart, m.req.(content := content, finished := true)), rest)
    decreases k
  {
    hide Feed, HasHeader, Step;
    if k > 0 {
      var tail := EmptyLines(k - 1) + content + "\r\n" + rest;
      assert EmptyLines(k) + content + "\r\n" + rest == "\r\n" + tail;
      EmptyLineRuns(m, tail);
      BodyRuns(m, k - 1, content, rest);
    } else {
      assert "" + content == content;
      ContentRuns(m, content, rest);
    }
  }

  lemma {:induction false} ContentRuns(m: Machine, content: string, rest: string)
    requires m.state == ContentStart && !m.req.finished && m.req.content == ""
    requires content != "" && All(content, NotCr)
    ensures Feed(m, content + "\r\n" + rest) ==
            Done(Machine(MethodStart, m.req.(content := content, finished := true)), rest)
  {
    hide Feed, HasHeader, StepTarget, StepVersion, StepHeader;
    var tail := ['\n'] + rest;
    assert content == [content[0]] + content[1..];
    assert content + "\r\n" + rest == [content[0]] + (content[1..] + ['\r'] + tail);
    assert "" + [content[0]] == [content[0]];
    FeedOne(m, content[0], content[1..] + ['\r'] + tail);
    var m1 := Machine(Content, m.req.(content := [content[0]]));
    assert Loops(Content, content[1..]);
    RunThenOne(m1, content[1..], '\r', tail);
    FeedLast(Machine(Newline4, m.req.(content := content)), '\n', rest);
  }

  /** Feeding the byte that finishes the request. */
  lemma {:induction false} FeedLast(m: Machine, c: char, rest: string)
    requires m.Sane() && Step(m, c).Some? && Step(m, c).value.req.finished
    ensures Feed(m, [c] + rest) == Done(Step(m, c).value, rest)
  {
    assert ([c] + rest)[0] == c && ([c] + rest)[1..] == rest;
  }

  lemma {:induction false} EndOfHeadersRuns(m: Machine, body: Body, rest: string)
    requires m.state == HeaderLineStart && !m.req.finished && m.req.content == ""
    requires LegalBody(m.req.headers, body)
    ensures Feed(m, "\r\n" + RenderBody(body) + rest) ==
            Done(Machine(MethodStart, m.req.(content := BodyText(body), finished := true)), rest)
  {
    hide Feed, HasHeader, StepTarget, StepVersion;
    var tail := RenderBody(body) + rest;
    assert "\r\n" + RenderBody(body) + rest == ['\r'] + (['\n'] + tail);
    FeedOne(m, '\r', ['\n'] + tail);
    match body
    case NoBody =>
      assert tail == rest;
      FeedLast(m.Goto(Newline3), '\n', tail);
    case Body(k, content) =>
      FeedOne(m.Goto(Newline3), '\n', tail);
      BodyRuns(m.Goto(ContentStart), k, content, rest);
  }

  lemma RenderParts(t: Tree, rest: string)
    ensures Render(t) + rest == t.verb + " " + t.uri + " HTTP/" + t.major + "." + t.minor + "\r\n"
                                + (RenderLines(t.lines) + ("\r\n" + RenderBody(t.body) + rest))
  {
    hide RenderLines, RenderBody;
    var head := t.verb + " " + t.uri + " HTTP/" + t.major + "." + t.minor + "\r\n";
    var lines, body := RenderLines(t.lines), RenderBody(t.body);
    assert head + (lines + "\r\n" + body) + rest == head + (lines + ("\r\n" + body + rest));
  }

  /** From the grammar to the machine, for any continuation of the input. */
  lemma {:induction false} RenderRuns(t: Tree, rest: string)
    requires Legal(t)
    ensures Feed(START, Render(t) + rest) == Done(Machine(MethodStart, Meaning(t)), rest)
  {
    hide Feed, Step, Render, RenderLines, RenderBody, ApplyLines, LegalLines, HasHeader, Number, LegalBody, IsWord;
    var tail := "\r\n" + RenderBody(t.body) + rest;
    RenderParts(t, rest);
    RequestLineRuns(t, RenderLines(t.lines) + tail);
    var m := Machine(HeaderLineStart, Meaning(t).(finished := false, headers := [], content := ""));
    LinesRun(m, t.lines, tail);
    EndOfHeadersRuns(m.With(m.req.(headers := ApplyLines([], t.lines))), t.body, rest);
  }

  // ---------------------------------------------------------------- machine to grammar

  /** Any accepting run begins with a byte and a step. */
  lemma {:induction false} One(m: Machine, s: string, e: Machine) returns (c: char, n: Machine, rest: string)
    requires m.Sane() && !m.req.finished && Feed(m, s) == Done(e, "")
    ensures s == [c] + rest && Step(m, c) == Some(n)
    ensures if n.req.finished then rest == "" && n == e else Feed(n, rest) == Done(e, "")
  {
    hide Step;
    c, rest := s[0], s[1..];
    n := Step(m, c).value;
  }

  /** It splits off the run its first state loops on and the byte after it. */
  lemma {:induction false} Segment(m: Machine, s: string, e: Machine)
    returns (t: string, c: char, n: Machine, rest: string)
    requires m.Sane() && !m.req.finished && Feed(m, s) == Done(e, "")
    ensures s == t + [c] + rest && Loops(m.state, t) && !LoopsOn(m.state, c)
    ensures m.state !in LOOPING ==> t == ""
    ensures Step(Absorb(m, t), c) == Some(n)
    ensures if n.req.finished then rest == "" && n == e else Feed(n, rest) == Done(e, "")
  {
    hide Feed, Step, Absorb;
    var k := Span(s, c => LoopsOn(m.state, c));
    t := s[..k];
    assert t != "" ==> LoopsOn(m.state, t[0]);
    assert s == t + s[k..];
    AbsorbRun(m, t, s[k..]);
    c, n, rest := One(Absorb(m, t), s[k..], e);
    assert k < |s| && c == s[k];
  }

  lemma {:induction false} ContentSound(m: Machine, s: string, e: Machine) returns (k: nat, content: string)
    requires m.state == ContentStart && !m.req.finished && m.req.content == "" && Feed(m, s) == Done(e, "")
    requires HasHeader(m.req.headers, "Content-Length")
    ensures content != "" && All(content, NotCr) && s == EmptyLines(k) + content + "\r\n"
    ensures e == Machine(MethodStart, m.req.(content := content, finished := true))
    decreases |s|
  {
    hide Feed, Step, HasHeader;
    NotEmpty(m, s, e);
    if s[0] == '\r' {
      var s2 := EmptyLineSound(m, s, e);
      var j;
      j, content := ContentSound(m, s2, e);
      k := j + 1;
      assert s == "\r\n" + EmptyLines(j) + content + "\r\n";
    } else {
      k := 0;
      content := ContentTextSound(m, s, e);
      assert s == "" + content + "\r\n";
    }
  }

  lemma {:induction false} EmptyLineSound(m: Machine, s: string, e: Machine) returns (rest: string)
    requires m.state == ContentStart && !m.req.finished && Feed(m, s) == Done(e, "")
    requires HasHeader(m.req.headers, "Content-Length") && s != "" && s[0] == '\r'
    ensures s == "\r\n" + rest && Feed(m, rest) == Done(e, "")
  {
    hide Feed, HasHeader, StepTarget, StepVersion, StepHeader;
    var c0, m1, s1 := One(m, s, e);
    var c1, m2, s2 := One(m1, s1, e);
    rest := s2;
  }

  lemma {:induction false} ContentTextSound(m: Machine, s: string, e: Machine) returns (content: string)
    requires m.state == ContentStart && !m.req.finished && m.req.content == "" && Feed(m, s) == Done(e, "")
    requires s != "" && s[0] != '\r'
    ensures content != "" && All(content, NotCr) && s == content + "\r\n"
    ensures e == Machine(MethodStart, m.req.(content := content, finished := true))
  {
    hide Feed, HasHeader, StepTarget, StepVersion, StepHeader;
    var m1, s1;
    content, m1, s1 := ContentLineSound(m, s, e);
    var c2, m2, s2 := One(m1, s1, e);
    assert content + "\r" + "\n" == content + "\r\n";
  }

  lemma {:induction false} ContentLineSound(m: Machine, s: string, e: Machine)
    returns (content: string, n: Machine, rest: string)
    requires m.state == ContentStart && !m.req.finished && m.req.content == "" && Feed(m, s) == Done(e, "")
    requires s != "" && s[0] != '\r'
    ensures content != "" && All(content, NotCr) && s == content + "\r" + rest
    ensures n == Machine(Newline4, m.req.(content := content)) && Feed(n, rest) == Done(e, "")
  {
    hide Feed, HasHeader, StepTarget, StepVersion, StepHeader;
    var c0, m0, s0 := One(m, s, e);
    var t1, c1, m1, s1 := Segment(m0, s0, e);
    assert "" + [c0] + t1 == [c0] + t1;
    content, n, rest := [c0] + t1, m1, s1;
  }

  lemma {:induction false} EndOfHeadersSound(m: Machine, s: string, e: Machine) returns (body: Body)
    requires m.state == HeaderLineStart && !m.req.finished && m.req.content == ""
    requires s != "" && s[0] == '\r' && Feed(m, s) == Done(e, "")
    ensures s == "\r\n" + RenderBody(body) && LegalBody(m.req.headers, body)
    ensures e == Machine(MethodStart, m.req.(content := BodyText(body), finished := true))
  {
    hide Feed, HasHeader, All, EmptyLines, StepTarget, StepVersion;
    var c0, m1, s1 := One(m, s, e);
    var c1, m2, s2 := One(m1, s1, e);
    assert s == "\r\n" + s2;
    if HasHeader(m.req.headers, "Content-Length") {
      var k, content := ContentSound(m2, s2, e);
      body := Body(k, content);
    } else {
      body := NoBody;
    }
  }

  lemma {:induction false} LinesSound(m: Machine, s: string, e: Machine) returns (lines: seq<Line>, body: Body)
    requires m.state == HeaderLineStart && !m.req.finished && m.req.content == "" && Feed(m, s) == Done(e, "")
    ensures LegalLines(m.req.headers, lines)
    ensures s == RenderLines(lines) + "\r\n" + RenderBody(body)
    ensures LegalBody(ApplyLines(m.req.headers, lines), body)
    ensures e == Machine(MethodStart, m.req.(headers := ApplyLines(m.req.headers, lines),
                                             content := BodyText(body), finished := true))
    decreases |s|
  {
    hide Feed, Step, HasHeader, RenderLine, RenderBody, BodyText, ApplyLine, LegalLine, LegalBody;
    NotEmpty(m, s, e);
    if s[0] == '\r' {
      lines := [];
      body := EndOfHeadersSound(m, s, e);
      assert s == "" + "\r\n" + RenderBody(body);
    } else {
      var l, n, rest := LineSound(m, s, e);
      LineNotEmpty(m.req.headers, l);
      var tail;
      tail, body := LinesSound(n, rest, e);
      lines := [l] + tail;
      assert lines[1..] == tail;
      assert s == RenderLine(l) + RenderLines(tail) + "\r\n" + RenderBody(body);
    }
  }

  lemma NotEmpty(m: Machine, s: string, e: Machine)
    requires m.Sane() && Feed(m, s) == Done(e, "")
    ensures s != ""
  {
  }

  lemma LineNotEmpty(headers: seq<Header>, l: Line)
    requires LegalLine(headers, l)
    ensures RenderLine(l) != ""
  {
  }

  lemma {:induction false} LineSound(m: Machine, s: string, e: Machine) returns (l: Line, n: Machine, rest: string)
    requires m.state == HeaderLineStart && !m.req.finished && Feed(m, s) == Done(e, "") && s[0] != '\r'
    ensures LegalLine(m.req.headers, l) && s == RenderLine(l) + rest
    ensures n == m.With(m.req.(headers := ApplyLine(m.req.headers, l))) && Feed(n, rest) == Done(e, "")
  {
    hide Feed;
    var c0, m1, s1 := One(m, s, e);
    if m1.state == HeaderLws {
      l, n, rest := FoldSound(m, m1, c0, s1, e);
    } else {
      l, n, rest := FieldSound(m, m1, c0, s1, e);
    }
  }

  /** The line feed that ends a line of the head. */
  lemma {:induction false} NewlineSound(m: Machine, s: string, e: Machine) returns (n: Machine, rest: string)
    requires (m.state == Newline1 || m.state == Newline2) && !m.req.finished && Feed(m, s) == Done(e, "")
    ensures s == "\n" + rest && n == m.Goto(HeaderLineStart) && Feed(n, rest) == Done(e, "")
  {
    hide Feed, StepTarget, StepBody, AppendToLast, AppendToLastName, HasHeader;
    var c;
    c, n, rest := One(m, s, e);
  }

  lemma {:induction false} FoldSound(m: Machine, m1: Machine, c0: char, s1: string, e: Machine)
    returns (l: Line, n: Machine, rest: string)
    requires m.state == HeaderLineStart && !m.req.finished && m.req.headers != []
    requires IsBlank(c0) && m1 == m.Goto(HeaderLws) && Feed(m1, s1) == Done(e, "")
    ensures LegalLine(m.req.headers, l) && [c0] + s1 == RenderLine(l) + rest
    ensures n == m.With(m.req.(headers := ApplyLine(m.req.headers, l))) && Feed(n, rest) == Done(e, "")
  {
    hide Feed, Step, HasHeader, RenderLine, ApplyLine, LegalLine, AppendToLast, AppendToLastName;
    var t1, c1, m2, s2 := BlanksSound(m1, s1, e);
    var blanks := [c0] + t1;
    if c1 == '\r' {
      n, rest := NewlineSound(m2, s2, e);
      l := Fold(blanks, "");
      EmptyFold(m.req.headers, blanks);
      assert [c0] + s1 == blanks + "\r\n" + rest;
    } else {
      var t2;
      t2, n, rest := ValueSound(m2, s2, e);
      l := Fold(blanks, [c1] + t2);
      TextFold(m.req.headers, blanks, c1, t2);
      assert [c0] + s1 == blanks + ([c1] + t2) + "\r\n" + rest;
    }
  }

  /** Blanks at the start of a line, and the first other character. */
  lemma {:induction false} BlanksSound(m: Machine, s: string, e: Machine)
    returns (t: string, c: char, n: Machine, rest: string)
    requires m.state == HeaderLws && !m.req.finished && m.req.headers != [] && Feed(m, s) == Done(e, "")
    ensures All(t, IsBlank) && s == t + [c] + rest
    ensures c == '\r' ==> n == m.Goto(Newline2)
    ensures c != '\r' ==>
              && IsValueChar(c) && !IsBlank(c)
              && n == Machine(HeaderValue, m.req.(headers := AppendToLast(m.req.headers, [c])))
    ensures Feed(n, rest) == Done(e, "")
  {
    hide Feed, StepTarget, StepVersion, StepBody, AppendToLast, AppendToLastName, HasHeader;
    t, c, n, rest := Segment(m, s, e);
  }

  lemma EmptyFold(headers: seq<Header>, blanks: string)
    requires headers != [] && blanks != "" && All(blanks, IsBlank)
    ensures LegalLine(headers, Fold(blanks, "")) && ApplyLine(headers, Fold(blanks, "")) == headers
    ensures RenderLine(Fold(blanks, "")) == blanks + "\r\n"
  {
    AppendNothing(headers);
    assert blanks + "" == blanks;
  }

  lemma TextFold(headers: seq<Header>, blanks: string, c: char, t: string)
    requires headers != [] && blanks != "" && All(blanks, IsBlank)
    requires IsValueChar(c) && !IsBlank(c) && All(t, IsValueChar)
    ensures LegalLine(headers, Fold(blanks, [c] + t))
    ensures ApplyLine(headers, Fold(blanks, [c] + t)) == AppendToLast(AppendToLast(headers, [c]), t)
    ensures RenderLine(Fold(blanks, [c] + t)) == blanks + ([c] + t) + "\r\n"
  {
    hide AppendToLast;
    AppendTwice(headers, [c], t);
  }

  lemma {:induction false} NameSound(m: Machine, c0: char, headers: seq<Header>, s: string, e: Machine)
    returns (t: string, n: Machine, rest: string)
    requires m.state == HeaderName && !m.req.finished && m.req.headers == headers + [Header([c0], "")]
    requires Feed(m, s) == Done(e, "")
    ensures All(t, IsToken) && s == t + ": " + rest
    ensures n == Machine(HeaderValue, m.req.(headers := headers + [Header([c0] + t, "")]))
    ensures Feed(n, rest) == Done(e, "")
  {
    hide Feed, StepTarget, StepVersion, StepBody, AppendToLast, AppendToLastName, HasHeader;
    var c, m1, s1;
    t, c, m1, s1 := Segment(m, s, e);
    AppendOf(headers, [c0], t);
    var c2, m2, s2 := One(m1, s1, e);
    n, rest := m2, s2;
  }

  lemma {:induction false} FieldSound(m: Machine, m1: Machine, c0: char, s1: string, e: Machine)
    returns (l: Line, n: Machine, rest: string)
    requires m.state == HeaderLineStart && !m.req.finished && IsToken(c0)
    requires m1 == Machine(HeaderName, m.req.(headers := m.req.headers + [Header([c0], "")]))
    requires Feed(m1, s1) == Done(e, "")
    ensures LegalLine(m.req.headers, l) && [c0] + s1 == RenderLine(l) + rest
    ensures n == m.With(m.req.(headers := ApplyLine(m.req.headers, l))) && Feed(n, rest) == Done(e, "")
  {
    hide Feed, Step, AppendToLast, AppendToLastName, HasHeader;
    var t, m2, s2 := NameSound(m1, c0, m.req.headers, s1, e);
    var name := [c0] + t;
    var value;
    value, n, rest := ValueSound(m2, s2, e);
    l := Field(name, value);
    AppendOf(m.req.headers, name, value);
    assert [c0] + s1 == name + ": " + value + "\r\n" + rest;
  }

  lemma {:induction false} ValueSound(m: Machine, s: string, e: Machine)
    returns (value: string, n: Machine, rest: string)
    requires m.state == HeaderValue && !m.req.finished && m.req.headers != [] && Feed(m, s) == Done(e, "")
    ensures All(value, IsValueChar) && s == value + "\r\n" + rest
    ensures n == Machine(HeaderLineStart, m.req.(headers := AppendToLast(m.req.headers, value)))
    ensures Feed(n, rest) == Done(e, "")
  {
    hide Feed, StepTarget, StepVersion, StepBody, AppendToLast, AppendToLastName;
    var t, c, m1, s1 := Segment(m, s, e);
    value := t;
    assert c == '\r' && m1.state == Newline2;
    hide Step;
    n, rest := NewlineSound(m1, s1, e);
  }

  lemma {:induction false} VersionSound(m: Machine, s: string, e: Machine) returns (n: Machine, rest: string)
    requires m.state == VersionH && !m.req.finished && Feed(m, s) == Done(e, "")
    ensures s == "HTTP/" + rest && n == Machine(MajorStart, m.req.(major := 0, minor := 0))
    ensures Feed(n, rest) == Done(e, "")
  {
    hide Feed, Step;
    var m1, s1 := HttSound(m, s, e);
    n, rest := SlashSound(m1, s1, e);
    assert "HTT" + ("P/" + rest) == "HTTP/" + rest;
  }

  lemma {:induction false} HttSound(m: Machine, s: string, e: Machine) returns (n: Machine, rest: string)
    requires m.state == VersionH && !m.req.finished && Feed(m, s) == Done(e, "")
    ensures s == "HTT" + rest && n == m.Goto(VersionP) && Feed(n, rest) == Done(e, "")
  {
    hide Feed, StepTarget, StepHeader, StepBody;
    var c1, m1, s1 := One(m, s, e);
    var c2, m2, s2 := One(m1, s1, e);
    var c3, m3, s3 := One(m2, s2, e);
    n, rest := m3, s3;
  }

  lemma {:induction false} SlashSound(m: Machine, s: string, e: Machine) returns (n: Machine, rest: string)
    requires m.state == VersionP && !m.req.finished && Feed(m, s) == Done(e, "")
    ensures s == "P/" + rest && n == Machine(MajorStart, m.req.(major := 0, minor := 0))
    ensures Feed(n, rest) == Done(e, "")
  {
    hide Feed, StepTarget, StepHeader, StepBody;
    var c1, m1, s1 := One(m, s, e);
    var c2, m2, s2 := One(m1, s1, e);
    n, rest := m2, s2;
  }

  lemma {:induction false} NumbersSound(m: Machine, s: string, e: Machine)
    returns (major: string, minor: string, n: Machine, rest: string)
    requires m.state == MajorStart && !m.req.finished && m.req.major == 0 && m.req.minor == 0
    requires Feed(m, s) == Done(e, "")
    ensures major != "" && All(major, IsDigit) && minor != "" && All(minor, IsDigit)
    ensures s == major + "." + minor + "\r\n" + rest
    ensures n == Machine(HeaderLineStart, m.req.(major := Number(major) % 0x1_0000_0000,
                                                 minor := Number(minor) % 0x1_0000_0000))
    ensures Feed(n, rest) == Done(e, "")
  {
    hide Feed, Step, Number;
    var m1, s1;
    major, m1, s1 := MajorSound(m, s, e);
    minor, n, rest := MinorSound(m1, s1, e);
    PushDigitsIsNumber(major);
    PushDigitsIsNumber(minor);
    assert s == major + "." + minor + "\r\n" + rest;
  }

  lemma {:induction false} MajorSound(m: Machine, s: string, e: Machine)
    returns (t: string, n: Machine, rest: string)
    requires m.state == MajorStart && !m.req.finished && Feed(m, s) == Done(e, "")
    ensures t != "" && All(t, IsDigit) && s == t + "." + rest
    ensures n == Machine(MinorStart, m.req.(major := PushDigits(m.req.major, t)))
    ensures Feed(n, rest) == Done(e, "")
  {
    hide Feed, StepTarget, StepHeader, StepBody;
    var c1, m1, s1 := One(m, s, e);
    var t2, c2, m2, s2 := Segment(m1, s1, e);
    t, n, rest := [c1] + t2, m2, s2;
    assert t[0] == c1 && t[1..] == t2;
  }

  lemma {:induction false} MinorSound(m: Machine, s: string, e: Machine)
    returns (t: string, n: Machine, rest: string)
    requires m.state == MinorStart && !m.req.finished && Feed(m, s) == Done(e, "")
    ensures t != "" && All(t, IsDigit) && s == t + "\r\n" + rest
    ensures n == Machine(HeaderLineStart, m.req.(minor := PushDigits(m.req.minor, t)))
    ensures Feed(n, rest) == Done(e, "")
  {
    hide Feed, Step, PushDigits;
    var m1, s1;
    t, m1, s1 := MinorDigitsSound(m, s, e);
    n, rest := NewlineSound(m1, s1, e);
  }

  lemma {:induction false} MinorDigitsSound(m: Machine, s: string, e: Machine)
    returns (t: string, n: Machine, rest: string)
    requires m.state == MinorStart && !m.req.finished && Feed(m, s) == Done(e, "")
    ensures t != "" && All(t, IsDigit) && s == t + "\r" + rest
    ensures n == Machine(Newline1, m.req.(minor := PushDigits(m.req.minor, t)))
    ensures Feed(n, rest) == Done(e, "")
  {
    hide Feed, StepTarget, StepHeader, StepBody;
    var c1, m1, s1 := One(m, s, e);
    var t2, c2, m2, s2 := Segment(m1, s1, e);
    t, n, rest := [c1] + t2, m2, s2;
    assert t[0] == c1 && t[1..] == t2;
  }

  lemma {:induction false} AcceptedIsRendered(s: string, r: Request) returns (t: Tree)
    requires Accepts(s, r)
    ensures Legal(t) && Render(t) == s && Meaning(t) == r
  {
    hide Feed, Step, Number, ApplyLines, LegalLines, LegalBody, RenderLines, RenderBody, BodyText;
    var e := Machine(MethodStart, r);
    var verb, uri, m2, s2 := TargetSound(s, e);
    var m3, s3 := VersionSound(m2, s2, e);
    var major, minor, m4, s4 := NumbersSound(m3, s3, e);
    var lines, body := LinesSound(m4, s4, e);
    t := Tree(verb, uri, major, minor, lines, body);
    assert s == verb + " " + uri + " " + ("HTTP/" + (major + "." + minor + "\r\n" + s4));
    assert " HTTP/" == " " + "HTTP/";
    assert s == verb + " " + uri + " HTTP/" + major + "." + minor + "\r\n" + s4;
  }

  lemma {:induction false} TargetSound(s: string, e: Machine)
    returns (verb: string, uri: string, n: Machine, rest: string)
    requires Feed(START, s) == Done(e, "")
    ensures IsWord(verb) && All(uri, IsUriChar) && s == verb + " " + uri + " " + rest
    ensures n == Machine(VersionH, BLANK.(verb := verb, uri := uri)) && Feed(n, rest) == Done(e, "")
  {
    hide Feed, Step;
    var m1, s1;
    verb, m1, s1 := VerbSound(s, e);
    uri, n, rest := UriSound(m1, s1, e);
    assert verb + " " + (uri + " " + rest) == verb + " " + uri + " " + rest;
  }

  lemma {:induction false} VerbSound(s: string, e: Machine) returns (verb: string, n: Machine, rest: string)
    requires Feed(START, s) == Done(e, "")
    ensures IsWord(verb) && s == verb + " " + rest
    ensures n == Machine(Uri, BLANK.(verb := verb)) && Feed(n, rest) == Done(e, "")
  {
    hide Feed, StepVersion, StepHeader, StepBody;
    var c0, m0, s0 := One(START, s, e);
    var t1, c1, m1, s1 := Segment(m0, s0, e);
    assert "" + [c0] + t1 == [c0] + t1;
    verb, n, rest := [c0] + t1, m1, s1;
  }

  lemma {:induction false} UriSound(m: Machine, s: string, e: Machine)
    returns (uri: string, n: Machine, rest: string)
    requires m.state == Uri && !m.req.finished && m.req.uri == "" && Feed(m, s) == Done(e, "")
    ensures All(uri, IsUriChar) && s == uri + " " + rest
    ensures n == Machine(VersionH, m.req.(uri := uri)) && Feed(n, rest) == Done(e, "")
  {
    hide Feed, StepVersion, StepHeader, StepBody;
    var c, m1, s1;
    uri, c, m1, s1 := Segment(m, s, e);
    assert "" + uri == uri;
    n, rest := m1, s1;
  }

  /** The state machine decides the grammar: a byte string is accepted, as request `r`, if
      and only if it is the rendering of a legal tree that means `r`. */
  lemma {:induction false} MachineDecidesGrammar(s: string, r: Request)
    ensures Accepts(s, r) <==> exists t :: Legal(t) && Render(t) == s && Meaning(t) == r
  {
    hide Feed;
    if Accepts(s, r) {
      var t := AcceptedIsRendered(s, r);
    }
    forall t | Legal(t) && Render(t) == s && Meaning(t) == r ensures Accepts(s, r) {
      RenderRuns(t, "");
      assert Render(t) + "" == Render(t);
    }
  }
}
