/** The grammar of the replies that the client's state machine finishes, and the proof that it
    decides it, fixed buffers included. */
module ReplyGrammar {
  import opened Chars
  import opened Headers
  import opened ReplyMachine

  /** Before the first header a line of blanks is skipped. */
  datatype Line = Field(name: string, value: string) | Blank(blanks: string)

  datatype Body = NoBody | Body(emptyLines: nat, content: string)

  datatype Tree = Tree(skipped: string, major: string, minor: string, code: string, phrase: string,
                       lines: seq<Line>, body: Body)

  predicate IsLineEnd(c: char) {
    c == '\n' || c == '\r'
  }

  predicate IsText(c: char) {
    !IsDigit(c) && c != '\r'
  }

  function RenderLine(l: Line): string {
    match l
    case Field(name, value) => name + ": " + value + "\r\n"
    case Blank(blanks) => blanks + "\r\n"
  }

  function RenderLines(lines: seq<Line>): string {
    if lines == [] then "" else RenderLine(lines[0]) + RenderLines(lines[1..])
  }

  function EmptyLines(k: nat): string {
    if k == 0 then "" else "\r\n" + EmptyLines(k - 1)
  }

  function RenderBody(b: Body): string {
    match b
    case NoBody => ""
    case Body(k, content) => EmptyLines(k) + content + "\r\n"
  }

  function RenderStart(t: Tree): string {
    t.skipped + "HTTP/" + t.major + "." + t.minor + " " + t.code + t.phrase + "\r\n"
  }

  function Render(t: Tree): string {
    RenderStart(t) + RenderLines(t.lines) + "\r\n" + RenderBody(t.body)
  }

  ghost predicate LegalLine(headers: seq<Header>, l: Line) {
    match l
    case Field(name, value) => LegalHeader(Header(name, value)) && FitsBuffers(Header(name, value))
    case Blank(blanks) => headers == [] && blanks != "" && All(blanks, IsBlank)
  }

  function ApplyLine(headers: seq<Header>, l: Line): seq<Header> {
    match l
    case Field(name, value) => headers + [Header(name, value)]
    case Blank(_) => headers
  }

  ghost predicate LegalLines(headers: seq<Header>, lines: seq<Line>)
    decreases |lines|
  {
    lines == [] || (LegalLine(headers, lines[0]) && LegalLines(ApplyLine(headers, lines[0]), lines[1..]))
  }

  function ApplyLines(headers: seq<Header>, lines: seq<Line>): seq<Header>
    decreases |lines|
  {
    if lines == [] then headers else ApplyLines(ApplyLine(headers, lines[0]), lines[1..])
  }

  /** Content stands exactly where the headers announce some: it is not empty, has no carriage
      return and fits the buffer. */
  ghost predicate LegalBody(headers: seq<Header>, b: Body) {
    match b
    case NoBody => !ExpectsContent(headers)
    case Body(_, content) =>
      ExpectsContent(headers) && content != "" && All(content, NotCr) && |content| < MAX_REPLY_SIZE
  }

  ghost predicate LegalStart(t: Tree) {
    && All(t.skipped, IsLineEnd)
    && t.major != "" && All(t.major, IsDigit) && t.minor != "" && All(t.minor, IsDigit)
    && |t.code| == 3 && All(t.code, IsDigit) && All(t.phrase, IsText)
  }

  ghost predicate Legal(t: Tree) {
    LegalStart(t) && LegalLines([], t.lines) && LegalBody(ApplyLines([], t.lines), t.body)
  }

  function Text(b: Body): string {
    match b
    case NoBody => ""
    case Body(_, content) => content
  }

  function Meaning(t: Tree): ClientReply
    requires |t.code| == 3 && All(t.code, IsDigit)
  {
    ClientReply(Number(t.code), ApplyLines([], t.lines), Text(t.body), true)
  }

  /** The machine finishes a reply on the last byte of the text. */
  ghost predicate Finishes(s: string, r: ClientReply) {
    Feed(START, s) == Done(START.(reply := r), "")
  }

  // ---------------------------------------------------------------- runs inside one state

  predicate LoopsOn(s: State, c: char) {
    match s
    case VersionH => IsLineEnd(c)
    case Major => IsDigit(c)
    case Minor => IsDigit(c)
    case StatusText => IsText(c)
    case HeaderLws => IsBlank(c)
    case HeaderName => IsToken(c)
    case HeaderValue => IsValueChar(c)
    case Content => NotCr(c)
    case _ => false
  }

  /** The pointer is where the state needs it. */
  predicate Pointed(m: Machine) {
    && (m.state == HeaderName ==> m.ptr == InName)
    && (m.state == HeaderValue ==> m.ptr == InValue)
    && (m.state == Content ==> m.ptr == InContent)
  }

  ghost predicate Loops(m: Machine, t: string) {
    && Pointed(m)
    && (forall i | 0 <= i < |t| :: LoopsOn(m.state, t[i]))
    && (m.state == HeaderName ==> |m.name| + |t| <= NAME_SIZE)
    && (m.state == HeaderValue ==> |m.value| + |t| <= VALUE_SIZE)
    && (m.state == Content ==> |m.reply.content| + |t| <= MAX_REPLY_SIZE)
  }

  function Absorb(m: Machine, t: string): Machine {
    match m.state
    case HeaderName => m.(name := m.name + t)
    case HeaderValue => m.(value := m.value + t)
    case Content => m.(reply := m.reply.(content := m.reply.content + t))
    case _ => m
  }

  lemma {:induction false} AbsorbRun(m: Machine, t: string, rest: string)
    requires Loops(m, t) && !m.reply.finished
    ensures Feed(m, t + rest) == Feed(Absorb(m, t), rest)
    decreases |t|
  {
    if t == "" {
      assert t + rest == rest;
      assert m.name + t == m.name && m.value + t == m.value && m.reply.content + t == m.reply.content;
    } else {
      hide Absorb, Loops;
      assert (t + rest)[0] == t[0] && (t + rest)[1..] == t[1..] + rest;
      AbsorbCons(m, t);
      AbsorbRun(Absorb(m, [t[0]]), t[1..], rest);
    }
  }

  lemma {:induction false} AbsorbCons(m: Machine, t: string)
    requires Loops(m, t) && !m.reply.finished && t != ""
    ensures Step(m, t[0]) == Taken(Absorb(m, [t[0]])) && !Absorb(m, [t[0]]).reply.finished
    ensures Loops(Absorb(m, [t[0]]), t[1..]) && Absorb(Absorb(m, [t[0]]), t[1..]) == Absorb(m, t)
  {
    var c, u := t[0], t[1..];
    assert LoopsOn(m.state, c) && [c] + u == t;
    match m.state
    case HeaderName => assert m.name + [c] + u == m.name + t;
    case HeaderValue => assert m.value + [c] + u == m.value + t;
    case Content => assert m.reply.content + [c] + u == m.reply.content + t;
    case _ =>
  }

  lemma {:induction false} FeedOne(m: Machine, c: char, rest: string)
    requires Step(m, c).Taken?
    ensures Feed(m, [c] + rest) ==
            if Step(m, c).m.reply.finished then Done(Step(m, c).m, rest) else Feed(Step(m, c).m, rest)
  {
    assert ([c] + rest)[0] == c && ([c] + rest)[1..] == rest;
  }

  lemma {:induction false} RunThenOne(m: Machine, t: string, c: char, rest: string)
    requires !m.reply.finished && Loops(m, t) && Step(Absorb(m, t), c).Taken?
    ensures Feed(m, t + [c] + rest) ==
            var n := Step(Absorb(m, t), c).m;
            if n.reply.finished then Done(n, rest) else Feed(n, rest)
  {
    hide Feed, Step;
    assert t + [c] + rest == t + ([c] + rest);
    AbsorbRun(m, t, [c] + rest);
    FeedOne(Absorb(m, t), c, rest);
  }

  // ---------------------------------------------------------------- grammar to machine

  lemma {:induction false} SlashRuns(m: Machine, skipped: string, rest: string)
    requires m.state == VersionH && !m.reply.finished && All(skipped, IsLineEnd)
    ensures Feed(m, skipped + ['H'] + (['T'] + (['T'] + (['P'] + (['/'] + rest))))) == Feed(m.Goto(MajorStart), rest)
  {
    hide Feed, StepStatus, StepHeader, StepBody;
    RunThenOne(m, skipped, 'H', ['T'] + (['T'] + (['P'] + (['/'] + rest))));
    FeedOne(m.Goto(VersionT1), 'T', ['T'] + (['P'] + (['/'] + rest)));
    FeedOne(m.Goto(VersionT2), 'T', ['P'] + (['/'] + rest));
    FeedOne(m.Goto(VersionP), 'P', ['/'] + rest);
    FeedOne(m.Goto(VersionSlash), '/', rest);
  }

  lemma {:induction false} NumbersRun(m: Machine, major: string, minor: string, rest: string)
    requires m.state == MajorStart && !m.reply.finished
    requires major != "" && All(major, IsDigit) && minor != "" && All(minor, IsDigit)
    ensures Feed(m, [major[0]] + (major[1..] + ['.'] + ([minor[0]] + (minor[1..] + [' '] + rest))))
         == Feed(m.Goto(StatusStart), rest)
  {
    hide Feed, StepStatus, StepHeader, StepBody;
    var s2 := [minor[0]] + (minor[1..] + [' '] + rest);
    FeedOne(m, major[0], major[1..] + ['.'] + s2);
    RunThenOne(m.Goto(Major), major[1..], '.', s2);
    FeedOne(m.Goto(MinorStart), minor[0], minor[1..] + [' '] + rest);
    RunThenOne(m.Goto(Minor), minor[1..], ' ', rest);
  }

  lemma {:induction false} VersionRuns(m: Machine, skipped: string, major: string, minor: string, rest: string)
    requires m.state == VersionH && !m.reply.finished && All(skipped, IsLineEnd)
    requires major != "" && All(major, IsDigit) && minor != "" && All(minor, IsDigit)
    ensures Feed(m, skipped + "HTTP/" + major + "." + minor + " " + rest) == Feed(m.Goto(StatusStart), rest)
  {
    hide Feed, Step;
    VersionText(skipped, major, minor, rest);
    SlashRuns(m, skipped, [major[0]] + (major[1..] + ['.'] + ([minor[0]] + (minor[1..] + [' '] + rest))));
    NumbersRun(m.Goto(MajorStart), major, minor, rest);
  }

  lemma VersionText(skipped: string, major: string, minor: string, rest: string)
    requires major != "" && minor != ""
    ensures skipped + "HTTP/" + major + "." + minor + " " + rest
         == skipped + ['H'] + (['T'] + (['T'] + (['P'] + (['/']
            + ([major[0]] + (major[1..] + ['.'] + ([minor[0]] + (minor[1..] + [' '] + rest))))))))
  {
    assert major == [major[0]] + major[1..] && minor == [minor[0]] + minor[1..];
  }

  lemma {:induction false} CodeRuns(m: Machine, code: string, text: string, rest: string)
    requires m.state == StatusStart && !m.reply.finished
    requires |code| == 3 && All(code, IsDigit) && All(text, IsText)
    ensures Feed(m, code + text + "\r\n" + rest)
         == Feed(m.(state := HeaderLineStart, reply := m.reply.(status := Number(code))), rest)
  {
    hide Feed, Step, Number;
    var s1 := text + ['\r'] + (['\n'] + rest);
    assert code + text + "\r\n" + rest == [code[0]] + ([code[1]] + ([code[2]] + s1));
    DigitsRun(m, code, s1);
    PhraseRuns(m.(state := StatusText, reply := m.reply.(status := Number(code))), text, rest);
  }

  lemma {:induction false} DigitsRun(m: Machine, code: string, rest: string)
    requires m.state == StatusStart && !m.reply.finished && |code| == 3 && All(code, IsDigit)
    ensures Feed(m, [code[0]] + ([code[1]] + ([code[2]] + rest)))
         == Feed(m.(state := StatusText, reply := m.reply.(status := Number(code))), rest)
  {
    hide Feed, StepVersion, StepHeader, StepBody, Number;
    var a, b, c := code[0], code[1], code[2];
    FeedOne(m, a, [b] + ([c] + rest));
    var v1 := 100 * DigitValue(a);
    FeedOne(m.(state := Status1, reply := m.reply.(status := v1)), b, [c] + rest);
    var v2 := v1 + 10 * DigitValue(b);
    FeedOne(m.(state := Status2, reply := m.reply.(status := v2)), c, rest);
    CodeNumber(code);
  }

  lemma {:induction false} PhraseRuns(m: Machine, text: string, rest: string)
    requires m.state == StatusText && !m.reply.finished && All(text, IsText)
    ensures Feed(m, text + ['\r'] + (['\n'] + rest)) == Feed(m.Goto(HeaderLineStart), rest)
  {
    hide Feed, StepVersion, StepHeader, StepBody;
    RunThenOne(m, text, '\r', ['\n'] + rest);
    FeedOne(m.Goto(Newline1), '\n', rest);
  }

  lemma CodeNumber(code: string)
    requires |code| == 3 && All(code, IsDigit)
    ensures Number(code) == 100 * DigitValue(code[0]) + 10 * DigitValue(code[1]) + DigitValue(code[2])
  {
    assert code[..2][..1] == code[..1] && code[..1][..0] == "";
    assert Number(code[..1]) == DigitValue(code[0]);
    assert Number(code[..2]) == Number(code[..1]) * 10 + DigitValue(code[1]);
  }

  lemma {:induction false} StartRuns(t: Tree, rest: string)
    requires LegalStart(t)
    ensures Feed(START, RenderStart(t) + rest)
         == Feed(START.(state := HeaderLineStart, reply := BLANK.(status := Number(t.code))), rest)
  {
    hide Feed, Step, Number;
    var tail := t.code + t.phrase + "\r\n" + rest;
    assert RenderStart(t) + rest == t.skipped + "HTTP/" + t.major + "." + t.minor + " " + tail;
    VersionRuns(START, t.skipped, t.major, t.minor, tail);
    CodeRuns(START.Goto(StatusStart), t.code, t.phrase, rest);
  }

  /** At the start of a line, with what has been read so far; before the first header the
      pointer is null. */
  predicate AtLine(m: Machine, r: ClientReply) {
    m.state == HeaderLineStart && m.reply == r && !r.finished && (r.headers == [] ==> m.ptr == Null)
  }

  lemma {:induction false} HeaderRuns(m: Machine, h: Header, rest: string)
    requires m.state == HeaderLineStart && !m.reply.finished && LegalHeader(h) && FitsBuffers(h)
    ensures Feed(m, PrintHeader(h) + rest) ==
            Feed(Machine(HeaderLineStart, InValue, h.name, h.value,
                         m.reply.(headers := m.reply.headers + [h])), rest)
  {
    hide Feed, StepVersion, StepStatus, StepBody;
    var n, v := h.name, h.value;
    var s2 := v + ['\r'] + (['\n'] + rest);
    assert PrintHeader(h) + rest == n + ": " + s2;
    NameRuns(m, n, s2);
    var m3 := Machine(HeaderValue, InValue, n, "", m.reply);
    assert "" + v == v;
    RunThenOne(m3, v, '\r', ['\n'] + rest);
    FeedOne(m3.(state := Newline2, value := v, reply := m.reply.(headers := m.reply.headers + [h])), '\n', rest);
  }

  lemma {:induction false} NameRuns(m: Machine, n: string, rest: string)
    requires m.state == HeaderLineStart && !m.reply.finished && IsWord(n) && |n| < NAME_SIZE
    ensures Feed(m, n + ": " + rest) == Feed(Machine(HeaderValue, InValue, n, "", m.reply), rest)
  {
    hide Feed, StepVersion, StepStatus, StepBody;
    assert n == [n[0]] + n[1..];
    assert IsToken(n[0]);
    var s1 := n[1..] + [':'] + ([' '] + rest);
    assert n + ": " + rest == [n[0]] + s1;
    FeedOne(m, n[0], s1);
    RunThenOne(m.(state := HeaderName, ptr := InName, name := [n[0]]), n[1..], ':', [' '] + rest);
    FeedOne(m.(state := SpaceBeforeValue, ptr := InName, name := n), ' ', rest);
  }

  lemma {:induction false} BlankRuns(m: Machine, blanks: string, rest: string)
    requires m.state == HeaderLineStart && !m.reply.finished && m.reply.headers == []
    requires blanks != "" && All(blanks, IsBlank)
    ensures Feed(m, blanks + "\r\n" + rest) == Feed(m, rest)
  {
    hide Feed, StepVersion, StepStatus, StepBody;
    assert blanks == [blanks[0]] + blanks[1..] && IsBlank(blanks[0]);
    var s1 := blanks[1..] + ['\r'] + (['\n'] + rest);
    assert blanks + "\r\n" + rest == [blanks[0]] + s1;
    FeedOne(m, blanks[0], s1);
    RunThenOne(m.Goto(HeaderLws), blanks[1..], '\r', ['\n'] + rest);
    FeedOne(m.Goto(Newline2), '\n', rest);
  }

  lemma {:induction false} LinesRun(m: Machine, r: ClientReply, lines: seq<Line>, rest: string) returns (n: Machine)
    requires AtLine(m, r) && LegalLines(r.headers, lines)
    ensures Feed(m, RenderLines(lines) + rest) == Feed(n, rest)
    ensures AtLine(n, r.(headers := ApplyLines(r.headers, lines)))
    decreases |lines|
  {
    hide Feed, Step, LegalHeader, FitsBuffers;
    n := m;
    if lines == [] {
      assert RenderLines(lines) + rest == rest;
    } else {
      var tail := RenderLines(lines[1..]) + rest;
      assert RenderLines(lines) + rest == RenderLine(lines[0]) + tail;
      match lines[0] {
        case Field(name, value) =>
          HeaderRuns(m, Header(name, value), tail);
          n := Machine(HeaderLineStart, InValue, name, value, m.reply.(headers := ApplyLine(r.headers, lines[0])));
        case Blank(blanks) =>
          BlankRuns(m, blanks, tail);
      }
      n := LinesRun(n, r.(headers := ApplyLine(r.headers, lines[0])), lines[1..], rest);
    }
  }

  lemma {:induction false} ContentRuns(m: Machine, content: string, rest: string)
    requires m.state == ContentStart && !m.reply.finished
    requires content != "" && All(content, NotCr) && |content| < MAX_REPLY_SIZE
    ensures Feed(m, content + "\r\n" + rest) ==
            Done(START.(reply := m.reply.(content := content, finished := true)), rest)
  {
    hide Feed, StepVersion, StepStatus, StepHeader;
    var s1 := content[1..] + ['\r'] + (['\n'] + rest);
    assert content == [content[0]] + content[1..];
    assert content + "\r\n" + rest == [content[0]] + s1;
    FeedOne(m, content[0], s1);
    var m1 := m.(state := Content, ptr := InContent, reply := m.reply.(content := [content[0]]));
    RunThenOne(m1, content[1..], '\r', ['\n'] + rest);
    FeedOne(m1.(state := Newline4, reply := m.reply.(content := content)), '\n', rest);
  }

  lemma {:induction false} EmptyLinesRun(m: Machine, k: nat, rest: string)
    requires m.state == ContentStart && !m.reply.finished && ExpectsContent(m.reply.headers)
    ensures Feed(m, EmptyLines(k) + rest) == Feed(m, rest)
  {
    hide Feed, StepVersion, StepStatus, StepHeader, ExpectsContent;
    if k == 0 {
      assert EmptyLines(0) + rest == rest;
    } else {
      var tail := EmptyLines(k - 1) + rest;
      assert EmptyLines(k) + rest == ['\r'] + (['\n'] + tail);
      FeedOne(m, '\r', ['\n'] + tail);
      FeedOne(m.Goto(Newline3), '\n', tail);
      EmptyLinesRun(m, k - 1, rest);
    }
  }

  lemma {:induction false} EndRuns(m: Machine, b: Body, rest: string)
    requires m.state == HeaderLineStart && !m.reply.finished && LegalBody(m.reply.headers, b)
    ensures Feed(m, "\r\n" + RenderBody(b) + rest) ==
            Done(START.(reply := m.reply.(content := Text(b), finished := true)), rest)
  {
    hide Feed, StepVersion, StepStatus, ExpectsContent, EmptyLines;
    var tail := RenderBody(b) + rest;
    assert "\r\n" + RenderBody(b) + rest == ['\r'] + (['\n'] + tail);
    FeedOne(m, '\r', ['\n'] + tail);
    FeedOne(m.Goto(Newline3), '\n', tail);
    match b
    case NoBody => assert tail == rest;
    case Body(k, content) =>
      assert tail == EmptyLines(k) + (content + "\r\n" + rest);
      EmptyLinesRun(m.Goto(ContentStart), k, content + "\r\n" + rest);
      ContentRuns(m.Goto(ContentStart), content, rest);
  }

  /** From the grammar to the machine, for any continuation of the input. */
  lemma {:induction false} RenderRuns(t: Tree, rest: string)
    requires Legal(t)
    ensures Feed(START, Render(t) + rest) == Done(START.(reply := Meaning(t)), rest)
  {
    hide Feed, Step, RenderStart, RenderLines, RenderBody, LegalLines, ApplyLines, LegalBody, Number;
    var tail := "\r\n" + RenderBody(t.body) + rest;
    assert Render(t) + rest == RenderStart(t) + (RenderLines(t.lines) + tail);
    StartRuns(t, RenderLines(t.lines) + tail);
    var r := BLANK.(status := Number(t.code));
    var n := LinesRun(START.(state := HeaderLineStart, reply := r), r, t.lines, tail);
    EndRuns(n, t.body, rest);
  }

  // ---------------------------------------------------------------- machine to grammar

  /** Any finishing run begins with a byte and a step. */
  lemma {:induction false} One(m: Machine, s: string, e: Machine) returns (c: char, n: Machine, rest: string)
    requires !m.reply.finished && Feed(m, s) == Done(e, "")
    ensures s == [c] + rest && Step(m, c) == Taken(n)
    ensures if n.reply.finished then rest == "" && n == e else Feed(n, rest) == Done(e, "")
  {
    hide Step;
    c, rest := s[0], s[1..];
    n := Step(m, c).m;
  }

  /** It splits off the run its first state loops on and the byte after it. */
  lemma {:induction false} Segment(m: Machine, s: string, e: Machine)
    returns (t: string, c: char, n: Machine, rest: string)
    requires !m.reply.finished && Feed(m, s) == Done(e, "") && Loops(m, "")
    ensures s == t + [c] + rest && Loops(m, t) && !LoopsOn(m.state, c)
    ensures Step(Absorb(m, t), c) == Taken(n)
    ensures if n.reply.finished then rest == "" && n == e else Feed(n, rest) == Done(e, "")
    decreases |s|
  {
    hide Feed, Step, Absorb;
    c, n, rest := One(m, s, e);
    if LoopsOn(m.state, c) {
      Looped(m, c);
      var u;
      var c0, m0 := c, n;
      u, c, n, rest := Segment(m0, rest, e);
      t := [c0] + u;
      LoopedOn(m, c0, u);
      assert s == [c0] + (u + [c] + rest);
    } else {
      t := "";
      AbsorbNothing(m);
      assert s == "" + [c] + rest;
    }
  }

  lemma AbsorbNothing(m: Machine)
    ensures Absorb(m, "") == m
  {
    assert m.name + "" == m.name && m.value + "" == m.value && m.reply.content + "" == m.reply.content;
  }

  /** A state that loops on a byte takes it only as long as the buffer has room. */
  lemma Looped(m: Machine, c: char)
    requires Loops(m, "") && LoopsOn(m.state, c) && Step(m, c).Taken? && !m.reply.finished
    ensures Step(m, c).m == Absorb(m, [c]) && Loops(Absorb(m, [c]), "") && !Absorb(m, [c]).reply.finished
    ensures Absorb(m, [c]).state == m.state
  {
  }

  lemma LoopedOn(m: Machine, c: char, u: string)
    requires Loops(m, "") && LoopsOn(m.state, c) && Loops(Absorb(m, [c]), u)
    ensures Loops(m, [c] + u) && Absorb(Absorb(m, [c]), u) == Absorb(m, [c] + u)
  {
    assert m.name + [c] + u == m.name + ([c] + u) && m.value + [c] + u == m.value + ([c] + u);
    assert m.reply.content + [c] + u == m.reply.content + ([c] + u);
  }

  lemma {:induction false} SlashSound(m: Machine, s: string, e: Machine)
    returns (skipped: string, n: Machine, rest: string)
    requires m.state == VersionH && !m.reply.finished && Feed(m, s) == Done(e, "")
    ensures All(skipped, IsLineEnd) && s == skipped + "HTTP/" + rest
    ensures n == m.Goto(MajorStart) && Feed(n, rest) == Done(e, "")
  {
    hide Feed, StepStatus, StepHeader, StepBody;
    var c0, m1, s1;
    skipped, c0, m1, s1 := Segment(m, s, e);
    var c1, m2, s2 := One(m1, s1, e);
    var c2, m3, s3 := One(m2, s2, e);
    var c3, m4, s4 := One(m3, s3, e);
    var c4, m5, s5 := One(m4, s4, e);
    n, rest := m5, s5;
    SlashText(skipped, rest);
  }

  lemma SlashText(skipped: string, rest: string)
    ensures skipped + ['H'] + (['T'] + (['T'] + (['P'] + (['/'] + rest)))) == skipped + "HTTP/" + rest
  {
  }

  lemma {:induction false} NumbersSound(m: Machine, s: string, e: Machine)
    returns (major: string, minor: string, n: Machine, rest: string)
    requires m.state == MajorStart && !m.reply.finished && Feed(m, s) == Done(e, "")
    ensures major != "" && All(major, IsDigit) && minor != "" && All(minor, IsDigit)
    ensures s == major + "." + minor + " " + rest
    ensures n == m.Goto(StatusStart) && Feed(n, rest) == Done(e, "")
  {
    hide Feed, Step;
    var m1, s1;
    major, m1, s1 := MajorSound(m, s, e);
    minor, n, rest := MinorSound(m1, s1, e);
    assert major + "." + (minor + " " + rest) == major + "." + minor + " " + rest;
  }

  lemma {:induction false} MajorSound(m: Machine, s: string, e: Machine) returns (t: string, n: Machine, rest: string)
    requires m.state == MajorStart && !m.reply.finished && Feed(m, s) == Done(e, "")
    ensures t != "" && All(t, IsDigit) && s == t + "." + rest
    ensures n == m.Goto(MinorStart) && Feed(n, rest) == Done(e, "")
  {
    hide Feed, StepStatus, StepHeader, StepBody;
    var c0, m1, s1 := One(m, s, e);
    assert m1 == m.Goto(Major) && IsDigit(c0);
    var t1, c1, m2, s2 := Segment(m1, s1, e);
    assert c1 == '.' && m2 == m.Goto(MinorStart);
    t, n, rest := [c0] + t1, m2, s2;
    assert s == [c0] + (t1 + ['.'] + rest);
  }

  lemma {:induction false} MinorSound(m: Machine, s: string, e: Machine) returns (t: string, n: Machine, rest: string)
    requires m.state == MinorStart && !m.reply.finished && Feed(m, s) == Done(e, "")
    ensures t != "" && All(t, IsDigit) && s == t + " " + rest
    ensures n == m.Goto(StatusStart) && Feed(n, rest) == Done(e, "")
  {
    hide Feed, StepStatus, StepHeader, StepBody;
    var c0, m1, s1 := One(m, s, e);
    var t1, c1, m2, s2 := Segment(m1, s1, e);
    t, n, rest := [c0] + t1, m2, s2;
    assert s == [c0] + (t1 + [' '] + rest);
  }

  lemma {:induction false} CodeSound(m: Machine, s: string, e: Machine)
    returns (code: string, phrase: string, n: Machine, rest: string)
    requires m.state == StatusStart && !m.reply.finished && Feed(m, s) == Done(e, "")
    ensures |code| == 3 && All(code, IsDigit) && All(phrase, IsText) && s == code + phrase + "\r\n" + rest
    ensures n == m.(state := HeaderLineStart, reply := m.reply.(status := Number(code)))
    ensures Feed(n, rest) == Done(e, "")
  {
    hide Feed, Step, Number;
    var m1, s1;
    code, m1, s1 := DigitsSound(m, s, e);
    phrase, n, rest := PhraseSound(m1, s1, e);
    assert code + (phrase + "\r\n" + rest) == code + phrase + "\r\n" + rest;
  }

  lemma {:induction false} DigitsSound(m: Machine, s: string, e: Machine)
    returns (code: string, n: Machine, rest: string)
    requires m.state == StatusStart && !m.reply.finished && Feed(m, s) == Done(e, "")
    ensures |code| == 3 && All(code, IsDigit) && s == code + rest
    ensures n == m.(state := StatusText, reply := m.reply.(status := Number(code))) && Feed(n, rest) == Done(e, "")
  {
    hide Feed, StepVersion, StepHeader, StepBody, Number;
    var a, m1, s1 := One(m, s, e);
    var b, m2, s2 := One(m1, s1, e);
    var c, m3, s3 := One(m2, s2, e);
    code, n, rest := [a, b, c], m3, s3;
    CodeNumber(code);
    assert s == [a] + ([b] + ([c] + rest));
  }

  lemma {:induction false} PhraseSound(m: Machine, s: string, e: Machine)
    returns (phrase: string, n: Machine, rest: string)
    requires m.state == StatusText && !m.reply.finished && Feed(m, s) == Done(e, "")
    ensures All(phrase, IsText) && s == phrase + "\r\n" + rest
    ensures n == m.Goto(HeaderLineStart) && Feed(n, rest) == Done(e, "")
  {
    hide Feed, StepVersion, StepHeader, StepBody;
    var c4, m4, s4;
    phrase, c4, m4, s4 := Segment(m, s, e);
    var c5, m5, s5 := One(m4, s4, e);
    n, rest := m5, s5;
    assert s == phrase + ['\r'] + (['\n'] + rest);
  }

  lemma {:induction false} NewlineSound(m: Machine, s: string, e: Machine) returns (n: Machine, rest: string)
    requires m.state == Newline2 && !m.reply.finished && Feed(m, s) == Done(e, "")
    ensures s == "\n" + rest && n == m.Goto(HeaderLineStart) && Feed(n, rest) == Done(e, "")
  {
    hide Feed, StepVersion, StepStatus, StepBody;
    var c;
    c, n, rest := One(m, s, e);
  }

  lemma {:induction false} BlankSound(m: Machine, s: string, e: Machine)
    returns (blanks: string, n: Machine, rest: string)
    requires m.state == HeaderLws && m.ptr == Null && !m.reply.finished && Feed(m, s) == Done(e, "")
    ensures All(blanks, IsBlank) && s == blanks + "\r\n" + rest
    ensures n == m.Goto(HeaderLineStart) && Feed(n, rest) == Done(e, "")
  {
    hide Feed, StepVersion, StepStatus, StepBody;
    var c1, m1, s1;
    blanks, c1, m1, s1 := Segment(m, s, e);
    n, rest := NewlineSound(m1, s1, e);
    assert s == blanks + ['\r'] + ("\n" + rest);
  }

  lemma {:induction false} NameSound(m: Machine, s: string, e: Machine)
    returns (t: string, n: Machine, rest: string)
    requires m.state == HeaderName && m.ptr == InName && |m.name| <= NAME_SIZE && !m.reply.finished
    requires Feed(m, s) == Done(e, "")
    ensures All(t, IsToken) && |m.name + t| < NAME_SIZE && s == t + ": " + rest
    ensures n == Machine(HeaderValue, InValue, m.name + t, "", m.reply) && Feed(n, rest) == Done(e, "")
  {
    hide Feed, StepVersion, StepStatus, StepBody;
    var c1, m1, s1;
    t, c1, m1, s1 := Segment(m, s, e);
    var c2, m2, s2 := One(m1, s1, e);
    n, rest := m2, s2;
    assert s == t + [':'] + ([' '] + rest);
  }

  lemma {:induction false} ValueSound(m: Machine, s: string, e: Machine)
    returns (t: string, n: Machine, rest: string)
    requires m.state == HeaderValue && m.ptr == InValue && m.value == "" && !m.reply.finished
    requires Feed(m, s) == Done(e, "")
    ensures All(t, IsValueChar) && |t| < VALUE_SIZE && s == t + "\r\n" + rest
    ensures n.state == HeaderLineStart && n.reply == m.reply.(headers := m.reply.headers + [Header(m.name, t)])
    ensures Feed(n, rest) == Done(e, "")
  {
    hide Feed, StepVersion, StepStatus, StepBody;
    var c1, m1, s1;
    t, c1, m1, s1 := Segment(m, s, e);
    assert "" + t == t;
    n, rest := NewlineSound(m1, s1, e);
    assert s == t + ['\r'] + ("\n" + rest);
  }

  lemma {:induction false} LineSound(m: Machine, r: ClientReply, s: string, e: Machine)
    returns (l: Line, n: Machine, rest: string)
    requires AtLine(m, r) && Feed(m, s) == Done(e, "") && s != "" && s[0] != '\r'
    ensures LegalLine(r.headers, l) && s == RenderLine(l) + rest
    ensures AtLine(n, r.(headers := ApplyLine(r.headers, l))) && Feed(n, rest) == Done(e, "")
  {
    hide Feed, StepVersion, StepStatus, StepBody;
    var c0, m1, s1 := One(m, s, e);
    if m1.state == HeaderLws {
      var b;
      b, n, rest := BlankSound(m1, s1, e);
      l := Blank([c0] + b);
      assert [c0] + (b + "\r\n" + rest) == [c0] + b + "\r\n" + rest;
    } else {
      var t, m2, s2 := NameSound(m1, s1, e);
      var v;
      v, n, rest := ValueSound(m2, s2, e);
      l := Field([c0] + t, v);
      assert [c0] + (t + ": " + (v + "\r\n" + rest)) == [c0] + t + ": " + v + "\r\n" + rest;
    }
  }

  lemma {:induction false} ContentTextSound(m: Machine, s: string, e: Machine) returns (content: string)
    requires m.state == ContentStart && !m.reply.finished && Feed(m, s) == Done(e, "") && s != "" && s[0] != '\r'
    ensures content != "" && All(content, NotCr) && |content| < MAX_REPLY_SIZE && s == content + "\r\n"
    ensures e == START.(reply := m.reply.(content := content, finished := true))
  {
    hide Feed, StepVersion, StepStatus, StepHeader;
    var c0, m1, s1 := One(m, s, e);
    var t, c1, m2, s2 := Segment(m1, s1, e);
    var c2, m3, s3 := One(m2, s2, e);
    content := [c0] + t;
    assert s == [c0] + (t + ['\r'] + ['\n']);
  }

  lemma {:induction false} EmptyLineSound(m: Machine, s: string, e: Machine) returns (rest: string)
    requires m.state == ContentStart && !m.reply.finished && ExpectsContent(m.reply.headers)
    requires Feed(m, s) == Done(e, "") && s != "" && s[0] == '\r'
    ensures s == "\r\n" + rest && Feed(m, rest) == Done(e, "")
  {
    hide Feed, StepVersion, StepStatus, StepHeader, ExpectsContent;
    var c1, m1, s1 := One(m, s, e);
    var c2, m2, s2 := One(m1, s1, e);
    rest := s2;
    assert s == ['\r'] + (['\n'] + rest);
  }

  lemma {:induction false} ContentSound(m: Machine, s: string, e: Machine) returns (k: nat, content: string)
    requires m.state == ContentStart && !m.reply.finished && ExpectsContent(m.reply.headers)
    requires Feed(m, s) == Done(e, "")
    ensures content != "" && All(content, NotCr) && |content| < MAX_REPLY_SIZE
    ensures s == EmptyLines(k) + content + "\r\n"
    ensures e == START.(reply := m.reply.(content := content, finished := true))
    decreases |s|
  {
    hide Feed, ExpectsContent;
    NotEmpty(m, s, e);
    if s[0] == '\r' {
      var rest := EmptyLineSound(m, s, e);
      var j;
      j, content := ContentSound(m, rest, e);
      k := j + 1;
      assert s == "\r\n" + EmptyLines(j) + content + "\r\n";
    } else {
      k := 0;
      content := ContentTextSound(m, s, e);
      assert "" + content + "\r\n" == content + "\r\n";
    }
  }

  lemma NotEmpty(m: Machine, s: string, e: Machine)
    requires Feed(m, s) == Done(e, "")
    ensures s != ""
  {
  }

  lemma {:induction false} EndSound(m: Machine, r: ClientReply, s: string, e: Machine) returns (b: Body)
    requires AtLine(m, r) && r.content == "" && Feed(m, s) == Done(e, "") && s != "" && s[0] == '\r'
    ensures LegalBody(r.headers, b) && s == "\r\n" + RenderBody(b)
    ensures e == START.(reply := r.(content := Text(b), finished := true))
  {
    hide Feed, StepVersion, StepStatus, ExpectsContent, EmptyLines;
    var c1, m1, s1 := One(m, s, e);
    var c2, m2, s2 := One(m1, s1, e);
    assert s == ['\r'] + (['\n'] + s2);
    if ExpectsContent(r.headers) {
      var k, content := ContentSound(m2, s2, e);
      b := Body(k, content);
      assert "\r\n" + s2 == ['\r'] + (['\n'] + s2);
    } else {
      b := NoBody;
    }
  }

  lemma {:induction false} LinesSound(m: Machine, r: ClientReply, s: string, e: Machine)
    returns (lines: seq<Line>, b: Body)
    requires AtLine(m, r) && r.content == "" && Feed(m, s) == Done(e, "")
    ensures LegalLines(r.headers, lines) && LegalBody(ApplyLines(r.headers, lines), b)
    ensures s == RenderLines(lines) + "\r\n" + RenderBody(b)
    ensures e == START.(reply := r.(headers := ApplyLines(r.headers, lines), content := Text(b), finished := true))
    decreases |s|
  {
    hide Feed, RenderBody, LegalBody, LegalLine, RenderLine, ApplyLine, Text;
    NotEmpty(m, s, e);
    if s[0] == '\r' {
      lines := [];
      b := EndSound(m, r, s, e);
      assert "" + "\r\n" + RenderBody(b) == "\r\n" + RenderBody(b);
    } else {
      var l, n, rest := LineSound(m, r, s, e);
      LineNotEmpty(l);
      var tail;
      tail, b := LinesSound(n, r.(headers := ApplyLine(r.headers, l)), rest, e);
      lines := [l] + tail;
      assert lines[1..] == tail;
      assert s == RenderLine(l) + RenderLines(tail) + "\r\n" + RenderBody(b);
    }
  }

  lemma LineNotEmpty(l: Line)
    ensures RenderLine(l) != ""
  {
  }

  /** From a finishing run to the grammar. */
  lemma {:induction false} FinishedIsRendered(s: string, r: ClientReply) returns (t: Tree)
    requires Finishes(s, r)
    ensures Legal(t) && Render(t) == s && Meaning(t) == r
  {
    hide Feed, Step, Number, ApplyLines, LegalLines, LegalBody, RenderLines, RenderBody, Text;
    var e := START.(reply := r);
    var skipped, m1, s1 := SlashSound(START, s, e);
    var major, minor, m2, s2 := NumbersSound(m1, s1, e);
    var code, phrase, m3, s3 := CodeSound(m2, s2, e);
    var lines, body := LinesSound(m3, m3.reply, s3, e);
    t := Tree(skipped, major, minor, code, phrase, lines, body);
    StartText(t, s3);
  }

  lemma StartText(t: Tree, rest: string)
    ensures RenderStart(t) + rest
         == t.skipped + "HTTP/" + (t.major + "." + t.minor + " " + (t.code + t.phrase + "\r\n" + rest))
  {
  }

  /** The client's machine decides the grammar: it finishes a reply on the last byte of a text,
      as reply `r`, if and only if the text is the rendering of a legal tree that means `r`. */
  lemma {:induction false} MachineDecidesGrammar(s: string, r: ClientReply)
    ensures Finishes(s, r) <==> exists t :: Legal(t) && Render(t) == s && Meaning(t) == r
  {
    hide Feed;
    if Finishes(s, r) {
      var t := FinishedIsRendered(s, r);
    }
    forall t | Legal(t) && Render(t) == s && Meaning(t) == r ensures Finishes(s, r) {
      RenderRuns(t, "");
      assert Render(t) + "" == Render(t);
    }
  }
}
