/** The server's request parser as a state machine over values: one step per byte, and
    the loop that feeds a range of bytes until the request finishes or a byte is refused.
    The classes in RequestParser run this machine in place. */
module RequestMachine {
  import opened Chars
  import opened Headers

  datatype State =
    | MethodStart | Method | UriStart | Uri
    | VersionH | VersionT1 | VersionT2 | VersionP | VersionSlash
    | MajorStart | Major | MinorStart | Minor
    | Newline1 | HeaderLineStart | HeaderLws | HeaderName | SpaceBeforeValue | HeaderValue
    | Newline2 | Newline3 | ContentStart | Content | Newline4

  datatype Request = Request(verb: string, uri: string, major: nat, minor: nat,
                             finished: bool, headers: seq<Header>, content: string)

  const BLANK := Request("", "", 0, 0, false, [], "")

  /** One more digit of a version number kept in a 32-bit unsigned integer. */
  function PushDigit(v: nat, c: char): nat
    requires IsDigit(c)
  {
    (v * 10 + DigitValue(c)) % 0x1_0000_0000
  }

  function AppendToLast(headers: seq<Header>, s: string): (r: seq<Header>)
    requires headers != []
    ensures |r| == |headers|
  {
    var k := |headers| - 1;
    headers[k := headers[k].(value := headers[k].value + s)]
  }

  function AppendToLastName(headers: seq<Header>, s: string): (r: seq<Header>)
    requires headers != []
    ensures |r| == |headers|
  {
    var k := |headers| - 1;
    headers[k := headers[k].(name := headers[k].name + s)]
  }

  datatype Machine = Machine(state: State, req: Request) {
    /** The states that write to the last header are only entered when there is one. */
    predicate Sane() {
      state in {HeaderLws, HeaderName, SpaceBeforeValue, HeaderValue} ==> req.headers != []
    }

    function Goto(s: State): Machine {
      this.(state := s)
    }

    function With(r: Request): Machine {
      this.(req := r)
    }
  }

  const START := Machine(MethodStart, BLANK)

  function Expect(m: Machine, c: char, wanted: char, next: State): Option<Machine> {
    if c == wanted then Some(m.Goto(next)) else None
  }

  /** One byte. `None` means the byte is refused; a refused byte changes nothing. */
  function Step(m: Machine, c: char): (r: Option<Machine>)
    requires m.Sane()
    ensures r.Some? ==> r.value.Sane()
    ensures r.Some? && !m.req.finished && r.value.req.finished ==> r.value.state == MethodStart
  {
    match m.state
    case MethodStart | Method | UriStart | Uri => StepTarget(m, c)
    case VersionH | VersionT1 | VersionT2 | VersionP | VersionSlash
      | MajorStart | Major | MinorStart | Minor | Newline1 => StepVersion(m, c)
    case HeaderLineStart | HeaderLws | HeaderName | SpaceBeforeValue | HeaderValue | Newline2 => StepHeader(m, c)
    case Newline3 | ContentStart | Content | Newline4 => StepBody(m, c)
  }

  function StepTarget(m: Machine, c: char): Option<Machine> {
    var q := m.req;
    match m.state
    case MethodStart =>
      if IsToken(c) then Some(Machine(Method, q.(verb := q.verb + [c]))) else None
    case Method =>
      if c == ' ' then Some(m.Goto(Uri))
      else if IsToken(c) then Some(m.With(q.(verb := q.verb + [c]))) else None
    case Uri =>
      if c == ' ' then Some(m.Goto(VersionH))
      else if IsControl(c) then None else Some(m.With(q.(uri := q.uri + [c])))
    case _ => None
  }

  function StepVersion(m: Machine, c: char): Option<Machine> {
    var q := m.req;
    match m.state
    case VersionH => Expect(m, c, 'H', VersionT1)
    case VersionT1 => Expect(m, c, 'T', VersionT2)
    case VersionT2 => Expect(m, c, 'T', VersionP)
    case VersionP => Expect(m, c, 'P', VersionSlash)
    case VersionSlash => Expect(m.With(q.(major := 0, minor := 0)), c, '/', MajorStart)
    case MajorStart =>
      if IsDigit(c) then Some(Machine(Major, q.(major := PushDigit(q.major, c)))) else None
    case Major =>
      if c == '.' then Some(m.Goto(MinorStart))
      else if IsDigit(c) then Some(m.With(q.(major := PushDigit(q.major, c)))) else None
    case MinorStart =>
      if IsDigit(c) then Some(Machine(Minor, q.(minor := PushDigit(q.minor, c)))) else None
    case Minor =>
      if c == '\r' then Some(m.Goto(Newline1))
      else if IsDigit(c) then Some(m.With(q.(minor := PushDigit(q.minor, c)))) else None
    case _ => Expect(m, c, '\n', HeaderLineStart)
  }

  function StepHeader(m: Machine, c: char): Option<Machine>
    requires m.Sane()
  {
    var q := m.req;
    match m.state
    case HeaderLineStart =>
      if c == '\r' then Some(m.Goto(Newline3))
      else if q.headers != [] && IsBlank(c) then Some(m.Goto(HeaderLws))
      else if IsToken(c) then Some(Machine(HeaderName, q.(headers := q.headers + [Header([c], "")])))
      else None
    case HeaderLws =>
      if c == '\r' then Some(m.Goto(Newline2))
      else if IsBlank(c) then Some(m)
      else if IsControl(c) then None
      else Some(Machine(HeaderValue, q.(headers := AppendToLast(q.headers, [c]))))
    case HeaderName =>
      if c == ':' then Some(m.Goto(SpaceBeforeValue))
      else if IsToken(c) then Some(m.With(q.(headers := AppendToLastName(q.headers, [c])))) else None
    case SpaceBeforeValue => Expect(m, c, ' ', HeaderValue)
    case HeaderValue =>
      if c == '\r' then Some(m.Goto(Newline2))
      else if IsControl(c) then None
      else Some(m.With(q.(headers := AppendToLast(q.headers, [c]))))
    case _ => Expect(m, c, '\n', HeaderLineStart)
  }

  function StepBody(m: Machine, c: char): Option<Machine> {
    var q := m.req;
    match m.state
    case Newline3 =>
      if c != '\n' then None
      else if HasHeader(q.headers, "Content-Length") then Some(m.Goto(ContentStart))
      else Some(Machine(MethodStart, q.(finished := true)))
    case ContentStart =>
      if c == '\r' then Some(m.Goto(Newline3))
      else Some(Machine(Content, q.(content := q.content + [c])))
    case Content =>
      if c == '\r' then Some(m.Goto(Newline4))
      else Some(m.With(q.(content := q.content + [c])))
    case _ => Expect(m.With(q.(finished := true)), c, '\n', MethodStart)
  }

  /** What feeding a range of bytes leads to, with the bytes not consumed. A refused byte
      is the first one of `rest`. */
  datatype Outcome =
    | More(m: Machine)
    | Done(m: Machine, rest: string)
    | Bad(m: Machine, rest: string)

  function Feed(m: Machine, s: string): (o: Outcome)
    requires m.Sane()
    ensures o.m.Sane()
    ensures o.Done? ==> o.m.req.finished && |o.rest| < |s|
    ensures o.Done? && !m.req.finished ==> o.m.state == MethodStart
    ensures o.More? && !m.req.finished ==> !o.m.req.finished
    ensures o.Bad? ==> 0 < |o.rest| <= |s|
    ensures o.Bad? && !m.req.finished ==> !o.m.req.finished
    ensures !o.More? ==> o.rest == s[|s| - |o.rest|..]
    decreases |s|
  {
    if s == "" then More(m) else
      match Step(m, s[0])
      case None => Bad(m, s)
      case Some(n) => if n.req.finished then Done(n, s[1..]) else Feed(n, s[1..])
  }

  /** The value returned by the parse loop: 0 on a refused byte, otherwise the number of
      bytes consumed. */
  function Consumed(s: string, o: Outcome): nat
    requires !o.More? ==> |o.rest| <= |s|
  {
    match o
    case More(_) => |s|
    case Done(_, rest) => |s| - |rest|
    case Bad(_, _) => 0
  }

  /** Chunk invariance: cutting the input anywhere does not change where the machine gets. */
  lemma {:induction false} FeedSplit(m: Machine, a: string, b: string)
    requires m.Sane()
    ensures Feed(m, a + b) ==
            match Feed(m, a)
            case More(n) => Feed(n, b)
            case Done(n, rest) => Done(n, rest + b)
            case Bad(n, rest) => Bad(n, rest + b)
    decreases |a|
  {
    if a == "" {
      assert a + b == b;
    } else {
      assert (a + b)[0] == a[0] && (a + b)[1..] == a[1..] + b;
      match Step(m, a[0])
      case None =>
      case Some(n) => if !n.req.finished { FeedSplit(n, a[1..], b); }
    }
  }

  /** The same for the returned counts: parsing a then b consumes what parsing a + b does. */
  lemma {:induction false} ParseChunkInvariant(m: Machine, a: string, b: string)
    requires m.Sane() && Feed(m, a).More?
    ensures var n := Feed(m, a).m;
            && Feed(m, a + b) == Feed(n, b)
            && (!Feed(n, b).Bad? ==>
                  Consumed(a + b, Feed(m, a + b)) == Consumed(a, Feed(m, a)) + Consumed(b, Feed(n, b)))
            && (Feed(n, b).Bad? ==> Consumed(a + b, Feed(m, a + b)) == 0)
  {
    FeedSplit(m, a, b);
  }

  /** The bytes `s` are accepted exactly, as request `r`: the request finishes on the last
      byte and not before. */
  ghost predicate Accepts(s: string, r: Request) {
    Feed(START, s) == Done(Machine(MethodStart, r), "")
  }

  /** Accepted requests are self-delimiting: whatever follows, the parser stops at the end. */
  lemma {:induction false} SelfDelimiting(s: string, r: Request, rest: string)
    requires Accepts(s, r)
    ensures Feed(START, s + rest) == Done(Machine(MethodStart, r), rest)
    ensures Consumed(s + rest, Feed(START, s + rest)) == |s|
    ensures forall r' :: Accepts(s + rest, r') ==> rest == "" && r' == r
  {
    FeedSplit(START, s, rest);
    assert "" + rest == rest;
  }
}
