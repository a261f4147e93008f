/** The client's reply parser as a state machine over values. The C code writes through one
    moving pointer into fixed buffers; `ptr` says which buffer it is in, and `name`, `value`
    and `content` hold what has been written there. A write through a null pointer or past
    the end of a buffer is `Undefined`. */
module ReplyMachine {
  import opened Chars
  import opened Headers

  const NAME_SIZE := 512
  const VALUE_SIZE := 512
  const MAX_REPLY_SIZE := 65535

  datatype State =
    | VersionH | VersionT1 | VersionT2 | VersionP | VersionSlash
    | MajorStart | Major | MinorStart | Minor
    | StatusStart | Status1 | Status2 | StatusText
    | ContentStart | Content
    | Newline1 | HeaderLineStart | HeaderLws | HeaderName | SpaceBeforeValue | HeaderValue
    | Newline2 | Newline3 | Newline4

  datatype Pointer = Null | InName | InValue | InContent

  datatype ClientReply = ClientReply(status: nat, headers: seq<Header>, content: string, finished: bool)

  /** A finished reply as its getters show it: content is read as a C string. */
  function Visible(r: ClientReply): ClientReply {
    r.(content := CString(r.content))
  }

  const BLANK := ClientReply(0, [], "", false)

  /** Value of the first header of that name. */
  function GetHeader(headers: seq<Header>, name: string): (r: Option<string>)
    ensures r.Some? <==> HasHeader(headers, name)
  {
    if headers == [] then None
    else if headers[0].name == name then assert headers[0] in headers; Some(headers[0].value)
    else
      var r := GetHeader(headers[1..], name);
      assert headers == [headers[0]] + headers[1..];
      r
  }

  lemma {:induction false} HeaderIsFirst(headers: seq<Header>, name: string)
    ensures GetHeader(headers, name) == None <==> forall k | 0 <= k < |headers| :: headers[k].name != name
    ensures GetHeader(headers, name).Some? ==>
              exists i :: 0 <= i < |headers| && headers[i] == Header(name, GetHeader(headers, name).value)
                          && forall k | 0 <= k < i :: headers[k].name != name
    decreases |headers|
  {
    if headers != [] && headers[0].name != name {
      HeaderIsFirst(headers[1..], name);
      if GetHeader(headers, name).Some? {
        var i :| 0 <= i < |headers[1..]| && headers[1..][i] == Header(name, GetHeader(headers, name).value)
                 && forall k | 0 <= k < i :: headers[1..][k].name != name;
        assert headers[i + 1] == headers[1..][i];
        assert forall k | 1 <= k < i + 1 :: headers[k] == headers[1..][k - 1];
      }
      assert forall k | 1 <= k < |headers| :: headers[k] == headers[1..][k - 1];
    }
  }

  datatype Machine = Machine(state: State, ptr: Pointer, name: string, value: string, reply: ClientReply) {
    function Goto(s: State): Machine {
      this.(state := s)
    }

    function Reset(): Machine {
      Machine(VersionH, Null, "", "", reply)
    }

    /** "*ptr++ = c" and "*ptr = 0" stay inside the buffer. */
    predicate CanWrite() {
      match ptr
      case Null => false
      case InName => |name| < NAME_SIZE
      case InValue => |value| < VALUE_SIZE
      case InContent => |reply.content| < MAX_REPLY_SIZE
    }

    function Write(c: char): Machine
      requires ptr != Null
    {
      match ptr
      case InName => this.(name := name + [c])
      case InValue => this.(value := value + [c])
      case InContent => this.(reply := reply.(content := reply.content + [c]))
    }
  }

  const START := Machine(VersionH, Null, "", "", BLANK)

  datatype Result = Taken(m: Machine) | Refused | Undefined

  function Expect(m: Machine, c: char, wanted: char, next: State): Result {
    if c == wanted then Taken(m.Goto(next)) else Refused
  }

  function Put(m: Machine, c: char, next: State): Result {
    if m.CanWrite() then Taken(m.Write(c).Goto(next)) else Undefined
  }

  /** One byte. A refused byte changes nothing here; the loop then resets the parser. */
  function Step(m: Machine, c: char): Result {
    match m.state
    case VersionH | VersionT1 | VersionT2 | VersionP | VersionSlash
      | MajorStart | Major | MinorStart | Minor => StepVersion(m, c)
    case StatusStart | Status1 | Status2 | StatusText | Newline1 => StepStatus(m, c)
    case HeaderLineStart | HeaderLws | HeaderName | SpaceBeforeValue | HeaderValue | Newline2 => StepHeader(m, c)
    case ContentStart | Content | Newline3 | Newline4 => StepBody(m, c)
  }

  function StepVersion(m: Machine, c: char): Result {
    match m.state
    case VersionH =>
      if c == 'H' then Taken(m.Goto(VersionT1))
      else if c == '\n' || c == '\r' then Taken(m)
      else Refused
    case VersionT1 => Expect(m, c, 'T', VersionT2)
    case VersionT2 => Expect(m, c, 'T', VersionP)
    case VersionP => Expect(m, c, 'P', VersionSlash)
    case VersionSlash => Expect(m, c, '/', MajorStart)
    case MajorStart => if IsDigit(c) then Taken(m.Goto(Major)) else Refused
    case Major =>
      if c == '.' then Taken(m.Goto(MinorStart)) else if IsDigit(c) then Taken(m) else Refused
    case MinorStart => if IsDigit(c) then Taken(m.Goto(Minor)) else Refused
    case _ =>
      if c == ' ' then Taken(m.Goto(StatusStart)) else if IsDigit(c) then Taken(m) else Refused
  }

  function StepStatus(m: Machine, c: char): Result {
    match m.state
    case StatusStart =>
      if IsDigit(c) then Taken(m.Goto(Status1).(reply := m.reply.(status := 100 * DigitValue(c)))) else Refused
    case Status1 =>
      if IsDigit(c) then Taken(m.Goto(Status2).(reply := m.reply.(status := m.reply.status + 10 * DigitValue(c))))
      else Refused
    case Status2 =>
      if IsDigit(c) then Taken(m.Goto(StatusText).(reply := m.reply.(status := m.reply.status + DigitValue(c))))
      else Refused
    case StatusText =>
      if IsDigit(c) then Refused
      else if c == '\r' then Taken(m.Goto(Newline1))
      else Taken(m)
    case _ => Expect(m, c, '\n', HeaderLineStart)
  }

  function StepHeader(m: Machine, c: char): Result {
    match m.state
    case HeaderLineStart =>
      if c == '\r' then Taken(m.Goto(Newline3))
      else if m.reply.headers == [] && IsBlank(c) then Taken(m.Goto(HeaderLws))
      else if IsToken(c) then Taken(m.(state := HeaderName, ptr := InName, name := [c]))
      else Refused
    case HeaderLws =>
      if c == '\r' then Taken(m.Goto(Newline2))
      else if IsBlank(c) then Taken(m)
      else if IsControl(c) then Refused
      else Put(m, c, HeaderValue)
    case HeaderName =>
      if c == ':' then Taken(m.Goto(SpaceBeforeValue))
      else if IsToken(c) then Put(m, c, HeaderName)
      else Refused
    case SpaceBeforeValue =>
      if c != ' ' then Refused
      else if !m.CanWrite() then Undefined
      else Taken(m.(state := HeaderValue, ptr := InValue, value := ""))
    case HeaderValue =>
      if c == '\r' then
        if !m.CanWrite() then Undefined else
          Taken(m.Goto(Newline2).(reply := m.reply.(headers := m.reply.headers + [Header(m.name, m.value)])))
      else if IsControl(c) then Refused
      else Put(m, c, HeaderValue)
    case _ => Expect(m, c, '\n', HeaderLineStart)
  }

  /** Content follows when there is a Content-Length whose value is not "0". */
  predicate ExpectsContent(headers: seq<Header>) {
    GetHeader(headers, "Content-Length").Some? && GetHeader(headers, "Content-Length").value != "0"
  }

  function StepBody(m: Machine, c: char): Result {
    match m.state
    case Newline3 =>
      if c != '\n' then Refused
      else if ExpectsContent(m.reply.headers) then Taken(m.Goto(ContentStart))
      else Taken(m.(reply := m.reply.(content := "", finished := true)).Reset())
    case ContentStart =>
      if c == '\r' then Taken(m.Goto(Newline3))
      else Taken(m.(state := Content, ptr := InContent, reply := m.reply.(content := [c])))
    case Content =>
      if c == '\r' then if m.CanWrite() then Taken(m.Goto(Newline4)) else Undefined
      else Put(m, c, Content)
    case _ =>
      if c == '\n' then Taken(m.(reply := m.reply.(finished := true)).Reset()) else Refused
  }

  /** Where a range of bytes leads. `Done` and `Bad` keep the bytes not consumed. */
  datatype Outcome =
    | More(m: Machine)
    | Done(m: Machine, rest: string)
    | Bad(m: Machine, rest: string)
    | Crash

  function Feed(m: Machine, s: string): (o: Outcome)
    ensures o.Done? ==> o.m.reply.finished && |o.rest| < |s|
    ensures o.Done? && !m.reply.finished ==> o.m == o.m.Reset()
    ensures o.Bad? ==> 0 < |o.rest| <= |s| && o.m == o.m.Reset()
    ensures o.Bad? && !m.reply.finished ==> !o.m.reply.finished
    ensures o.More? && !m.reply.finished ==> !o.m.reply.finished
    decreases |s|
  {
    if s == "" then More(m) else
      match Step(m, s[0])
      case Refused => Bad(m.Reset(), s)
      case Undefined => Crash
      case Taken(n) => if n.reply.finished then Done(n, s[1..]) else Feed(n, s[1..])
  }

  /** The value the parse loop returns: one less than what was consumed when a reply
      finishes, and the number of good bytes when a byte is refused. */
  function Returned(s: string, o: Outcome): (n: nat)
    requires !o.Crash?
    requires !o.More? ==> |o.rest| <= |s|
    requires o.Done? ==> |o.rest| < |s|
    ensures n <= |s|
  {
    match o
    case More(_) => |s|
    case Done(_, rest) => |s| - |rest| - 1
    case Bad(_, rest) => |s| - |rest|
  }

  /** Chunk invariance of the client's machine. */
  lemma {:induction false} FeedSplit(m: Machine, a: string, b: string)
    ensures Feed(m, a + b) ==
            match Feed(m, a)
            case More(n) => Feed(n, b)
            case Done(n, rest) => Done(n, rest + b)
            case Bad(n, rest) => Bad(n, rest + b)
            case Crash => Crash
    decreases |a|
  {
    if a == "" {
      assert a + b == b;
    } else {
      assert (a + b)[0] == a[0] && (a + b)[1..] == a[1..] + b;
      match Step(m, a[0])
      case Taken(n) => if !n.reply.finished { FeedSplit(n, a[1..], b); }
      case _ =>
    }
  }

  /** Carriage returns and line feeds before a reply are skipped. */
  lemma {:induction false} LeadingNewline(m: Machine, s: string)
    requires m.state == VersionH && !m.reply.finished
    ensures Feed(m, "\n" + s) == Feed(m, s)
    ensures Feed(m, "\r" + s) == Feed(m, s)
  {
    assert ("\n" + s)[0] == '\n' && ("\n" + s)[1..] == s;
    assert ("\r" + s)[0] == '\r' && ("\r" + s)[1..] == s;
  }

  // ---------------------------------------------------------------- what every run keeps

  ghost predicate FitsBuffers(h: Header) {
    |h.name| < NAME_SIZE && |h.value| < VALUE_SIZE
  }

  predicate BeforeHeaders(s: State) {
    || s.VersionH? || s.VersionT1? || s.VersionT2? || s.VersionP? || s.VersionSlash?
    || s.MajorStart? || s.Major? || s.MinorStart? || s.Minor?
    || s.StatusStart? || s.Status1? || s.Status2? || s.StatusText? || s.Newline1?
  }

  /** Headers already stored are legal and fitted their buffers; what is being read is a
      legal beginning; content holds no carriage return; the status has three digits. */
  ghost predicate Inv(m: Machine) {
    && (forall h | h in m.reply.headers :: LegalHeader(h) && FitsBuffers(h))
    && All(m.reply.content, NotCr)
    && m.reply.status <= (if m.state == Status1 then 900 else if m.state == Status2 then 990 else 999)
    && (m.state == Content ==> m.ptr == InContent)
    && (m.state == HeaderLws ==> m.ptr == Null && m.reply.headers == [])
    && (m.ptr == InContent ==> m.state in {Content, Newline4})
    && (BeforeHeaders(m.state) ==> m.ptr == Null)
    && (m.state in {HeaderLineStart, Newline2} && m.reply.headers == [] ==> m.ptr == Null)
    && (m.state in {HeaderName, SpaceBeforeValue} ==> m.ptr == InName && IsWord(m.name))
    && (m.state == HeaderValue ==>
          m.ptr == InValue && IsWord(m.name) && |m.name| < NAME_SIZE && All(m.value, IsValueChar))
    && (m.state == Newline4 ==> |m.reply.content| < MAX_REPLY_SIZE)
  }

  lemma {:induction false} StepKeepsInv(m: Machine, c: char)
    requires Inv(m) && Step(m, c).Taken?
    ensures Inv(Step(m, c).m)
    ensures Step(m, c).m.reply.finished && !m.reply.finished ==> |Step(m, c).m.reply.content| < MAX_REPLY_SIZE
  {
    hide StepVersion, StepStatus, StepHeader, StepBody, Inv;
    match m.state
    case VersionH | VersionT1 | VersionT2 | VersionP | VersionSlash | MajorStart | Major | MinorStart | Minor =>
      VersionKeepsInv(m, c);
    case StatusStart | Status1 | Status2 | StatusText | Newline1 => StatusKeepsInv(m, c);
    case HeaderLineStart | HeaderLws | HeaderName | SpaceBeforeValue | HeaderValue | Newline2 => HeaderKeepsInv(m, c);
    case ContentStart | Content | Newline3 | Newline4 => BodyKeepsInv(m, c);
  }

  lemma VersionKeepsInv(m: Machine, c: char)
    requires Inv(m) && BeforeHeaders(m.state) && StepVersion(m, c).Taken?
    requires m.state !in {StatusStart, Status1, Status2, StatusText, Newline1}
    ensures Inv(StepVersion(m, c).m) && StepVersion(m, c).m.reply == m.reply
  {
  }

  lemma StatusKeepsInv(m: Machine, c: char)
    requires Inv(m) && m.state in {StatusStart, Status1, Status2, StatusText, Newline1} && StepStatus(m, c).Taken?
    ensures Inv(StepStatus(m, c).m) && StepStatus(m, c).m.reply.finished == m.reply.finished
  {
  }

  lemma HeaderKeepsInv(m: Machine, c: char)
    requires Inv(m) && StepHeader(m, c).Taken?
    requires m.state in {HeaderLineStart, HeaderLws, HeaderName, SpaceBeforeValue, HeaderValue, Newline2}
    ensures Inv(StepHeader(m, c).m) && StepHeader(m, c).m.reply.finished == m.reply.finished
  {
    if m.state == HeaderValue && c == '\r' {
      var h := Header(m.name, m.value);
      assert LegalHeader(h) && FitsBuffers(h);
      assert forall x | x in m.reply.headers + [h] :: x in m.reply.headers || x == h;
    }
  }

  lemma BodyKeepsInv(m: Machine, c: char)
    requires Inv(m) && m.state in {ContentStart, Content, Newline3, Newline4} && StepBody(m, c).Taken?
    ensures Inv(StepBody(m, c).m)
    ensures StepBody(m, c).m.reply.finished && !m.reply.finished ==> |StepBody(m, c).m.reply.content| < MAX_REPLY_SIZE
  {
    hide LegalHeader, FitsBuffers, IsWord, IsValueChar;
  }

  lemma {:induction false} FeedKeepsInv(m: Machine, s: string)
    requires Inv(m) && !m.reply.finished
    ensures !Feed(m, s).Crash? ==> Inv(Feed(m, s).m)
    ensures Feed(m, s).Done? ==> |Feed(m, s).m.reply.content| < MAX_REPLY_SIZE
    decreases |s|
  {
    if s != "" && Step(m, s[0]).Taken? {
      StepKeepsInv(m, s[0]);
      var n := Step(m, s[0]).m;
      if !n.reply.finished {
        FeedKeepsInv(n, s[1..]);
      }
    }
  }
}
