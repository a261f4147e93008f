/** The client's parser and reply objects, with their fixed buffers and the pointer that
    moves through them, and the proof that they run ReplyMachine. */
module ReplyParsing {
  import opened Chars
  import opened Headers
  import RM = ReplyMachine
  import opened ReplyMachine

  /** "strcpy" out of a buffer: the C string that starts at index 0. */
  method ReadCString(a: array<char>, ghost s: string) returns (r: string)
    requires |s| < a.Length && a[..|s|] == s && a[|s|] == '\0' && All(s, NotNul)
    ensures r == s
  {
    r := "";
    while a[|r|] != '\0'
      invariant |r| <= |s| && r == s[..|r|]
      decreases |s| - |r|
    {
      assert |r| < |s| && a[..|s|][|r|] == a[|r|];
      r := r + [a[|r|]];
    }
    if |r| < |s| {
      StopsAtEnd(a[..], s, |r|);
    }
  }

  /** A buffer holding a NUL-free string has no NUL inside it. */
  lemma StopsAtEnd(buffer: seq<char>, s: string, k: nat)
    requires k < |s| < |buffer| && buffer[..|s|] == s && All(s, NotNul)
    ensures buffer[k] != '\0'
  {
    assert buffer[..|s|][k] == buffer[k] && NotNul(s[k]);
  }

  class HamReply {
    var status: nat
    var headers: seq<Header>
    const content: array<char>
    var finished: bool
    ghost var text: string // what has been written into `content`

    constructor ()
      ensures Value() == BLANK && fresh(content) && content.Length == MAX_REPLY_SIZE
    {
      status, headers, finished, text := 0, [], false, "";
      content := new char[MAX_REPLY_SIZE];
    }

    ghost function Value(): ClientReply
      reads this
    {
      ClientReply(status, headers, text, finished)
    }

    method AddHeader(h: Header)
      modifies this`headers
      ensures headers == old(headers) + [h]
    {
      headers := headers + [h];
    }

    method FindHeader(name: string) returns (r: Option<string>)
      ensures r == RM.GetHeader(headers, name)
      ensures r == None <==> forall k | 0 <= k < |headers| :: headers[k].name != name
      ensures r.Some? ==>
                exists i :: 0 <= i < |headers| && headers[i] == Header(name, r.value)
                            && forall k | 0 <= k < i :: headers[k].name != name
    {
      RM.HeaderIsFirst(headers, name);
      for i := 0 to |headers|
        invariant RM.GetHeader(headers, name) == RM.GetHeader(headers[i..], name)
      {
        assert headers[i..][1..] == headers[i + 1..];
        if headers[i].name == name {
          return Some(headers[i].value);
        }
      }
      return None;
    }

    /** What `ham_reply_get_content` shows of a finished reply. */
    method GetContent() returns (r: string)
      requires |text| < content.Length && content[..|text|] == text && content[|text|] == '\0'
      ensures r == CString(text)
    {
      r := "";
      while content[|r|] != '\0'
        invariant |r| <= |text| && r == text[..|r|] && r <= CString(text)
        decreases |text| - |r|
      {
        assert content[..|text|][|r|] == content[|r|];
        CStringGoesOn(text, |r|);
        r := r + [content[|r|]];
      }
      CStringEnds(text, |r|, content[..]);
    }
  }

  lemma {:induction false} CStringGoesOn(s: string, k: nat)
    requires k < |s| && s[k] != '\0' && s[..k] <= CString(s)
    ensures s[..k + 1] <= CString(s)
    decreases |s|
  {
    if k > 0 {
      assert s[..k][0] == s[0];
      assert s[1..][..k - 1] == s[..k][1..] && CString(s)[1..] == CString(s[1..]);
      CStringGoesOn(s[1..], k - 1);
      assert s[1..][..k] == s[..k + 1][1..];
    }
  }

  lemma {:induction false} CStringEnds(s: string, k: nat, buffer: seq<char>)
    requires k <= |s| < |buffer| && buffer[..|s|] == s && buffer[|s|] == '\0' && buffer[k] == '\0'
    requires s[..k] <= CString(s)
    ensures s[..k] == CString(s)
  {
    if k < |s| {
      assert buffer[..|s|][k] == buffer[k];
      NulEnds(s, k);
    }
  }

  lemma {:induction false} NulEnds(s: string, k: nat)
    requires k < |s| && s[k] == '\0'
    ensures |CString(s)| <= k
    decreases |s|
  {
    if k > 0 {
      NulEnds(s[1..], k - 1);
    }
  }

  class HamParser {
    var state: State
    const headerName: array<char>
    const headerValue: array<char>
    var ptr: Pointer
    var at: nat // offset of the pointer in the buffer it points into
    ghost var name: string
    ghost var value: string

    constructor ()
      ensures fresh(headerName) && fresh(headerValue)
      ensures state == VersionH && ptr == Null && name == "" && value == ""
      ensures headerName.Length == NAME_SIZE && headerValue.Length == VALUE_SIZE && headerName != headerValue
    {
      state, ptr, at, name, value := VersionH, Null, 0, "", "";
      headerName := new char[NAME_SIZE];
      headerValue := new char[VALUE_SIZE];
    }

    ghost function Machine(reply: HamReply): RM.Machine
      reads this, reply
    {
      RM.Machine(state, ptr, name, value, reply.Value())
    }

    ghost predicate Sizes(reply: HamReply) {
      && headerName.Length == NAME_SIZE && headerValue.Length == VALUE_SIZE
      && reply.content.Length == MAX_REPLY_SIZE
      && headerName != headerValue && headerName != reply.content && headerValue != reply.content
    }

    /** The buffers hold what the abstract machine says was written to them, and a header
        name that is complete is terminated. */
    ghost predicate Valid(reply: HamReply)
      reads this, reply, headerName, headerValue, reply.content
    {
      && Sizes(reply)
      && (ptr == InName ==> at == |name| <= NAME_SIZE && headerName[..at] == name)
      && (ptr == InValue ==> at == |value| <= VALUE_SIZE && headerValue[..at] == value)
      && (ptr == InContent ==> at == |reply.text| <= MAX_REPLY_SIZE && reply.content[..at] == reply.text)
      && (state == HeaderValue ==> Terminated(headerName, name))
      && (state == Newline4 || reply.finished ==> Terminated(reply.content, reply.text))
    }

    ghost predicate Terminated(a: array<char>, s: string)
      reads a
    {
      |s| < a.Length && a[..|s|] == s && a[|s|] == '\0'
    }

    method Reset()
      modifies this
      ensures state == VersionH && ptr == Null && name == "" && value == ""
    {
      state, ptr := VersionH, Null;
      name, value := "", "";
    }

    /** "*ptr++ = c". */
    method Write(reply: HamReply, c: char)
      requires Valid(reply) && Machine(reply).CanWrite() && !reply.finished
      requires ptr == InValue || (ptr == InName && state != HeaderValue) || (ptr == InContent && state != Newline4)
      modifies this`at, this`name, this`value, headerName, headerValue, reply`text, reply.content
      ensures Valid(reply) && Machine(reply) == old(Machine(reply)).Write(c)
      ensures ptr == InValue ==> headerName[..] == old(headerName[..])
      ensures ptr == InContent ==> headerName[..] == old(headerName[..]) && headerValue[..] == old(headerValue[..])
    {
      match ptr {
        case InName =>
          headerName[at] := c;
          assert headerName[..at + 1] == old(headerName[..at]) + [c];
          name := name + [c];
        case InValue =>
          headerValue[at] := c;
          assert headerValue[..at + 1] == old(headerValue[..at]) + [c];
          value := value + [c];
        case InContent =>
          reply.content[at] := c;
          assert reply.content[..at + 1] == old(reply.content[..at]) + [c];
          reply.text := reply.text + [c];
      }
      at := at + 1;
    }

    method Expect(c: char, wanted: char, next: State) returns (ok: bool)
      modifies this`state
      ensures ok == (c == wanted) && state == if ok then next else old(state)
    {
      ok := c == wanted;
      if ok {
        state := next;
      }
    }

    /** One byte, when the machine's step is defined. */
    method Consume(reply: HamReply, c: char) returns (ok: bool)
      requires Valid(reply) && Inv(Machine(reply)) && !reply.finished
      requires Step(Machine(reply), c) != Undefined
      modifies this, reply, headerName, headerValue, reply.content
      ensures Valid(reply) && ok == Step(old(Machine(reply)), c).Taken?
      ensures Machine(reply) == if ok then Step(old(Machine(reply)), c).m else old(Machine(reply))
    {
      match state
      case VersionH | VersionT1 | VersionT2 | VersionP | VersionSlash
        | MajorStart | Major | MinorStart | Minor => ok := ConsumeVersion(reply, c);
      case StatusStart | Status1 | Status2 | StatusText | Newline1 => ok := ConsumeStatus(reply, c);
      case HeaderLineStart | HeaderLws | HeaderName | SpaceBeforeValue | HeaderValue | Newline2 =>
        ok := ConsumeHeader(reply, c);
      case ContentStart | Content | Newline3 | Newline4 => ok := ConsumeBody(reply, c);
    }

    method ConsumeVersion(reply: HamReply, c: char) returns (ok: bool)
      requires Valid(reply) && !reply.finished && BeforeHeaders(state) && ptr == Null
      requires state !in {StatusStart, Status1, Status2, StatusText, Newline1}
      modifies this`state
      ensures Valid(reply) && ok == StepVersion(old(Machine(reply)), c).Taken?
      ensures Machine(reply) == if ok then StepVersion(old(Machine(reply)), c).m else old(Machine(reply))
    {
      ok := true;
      match state
      case VersionH =>
        if c == 'H' {
          state := VersionT1;
        } else if !(c == '\n' || c == '\r') {
          return false;
        }
      case VersionT1 => ok := Expect(c, 'T', VersionT2);
      case VersionT2 => ok := Expect(c, 'T', VersionP);
      case VersionP => ok := Expect(c, 'P', VersionSlash);
      case VersionSlash => ok := Expect(c, '/', MajorStart);
      case MajorStart =>
        if !IsDigit(c) {
          return false;
        }
        state := Major;
      case Major =>
        if c == '.' {
          state := MinorStart;
        } else if !IsDigit(c) {
          return false;
        }
      case MinorStart =>
        if !IsDigit(c) {
          return false;
        }
        state := Minor;
      case Minor =>
        if c == ' ' {
          state := StatusStart;
        } else if !IsDigit(c) {
          return false;
        }
    }

    method ConsumeStatus(reply: HamReply, c: char) returns (ok: bool)
      requires Valid(reply) && !reply.finished && ptr == Null
      requires state in {StatusStart, Status1, Status2, StatusText, Newline1}
      modifies this`state, reply`status
      ensures Valid(reply) && ok == StepStatus(old(Machine(reply)), c).Taken?
      ensures Machine(reply) == if ok then StepStatus(old(Machine(reply)), c).m else old(Machine(reply))
    {
      ok := true;
      match state
      case StatusStart =>
        if !IsDigit(c) {
          return false;
        }
        reply.status := 100 * DigitValue(c);
        state := Status1;
      case Status1 =>
        if !IsDigit(c) {
          return false;
        }
        reply.status := reply.status + 10 * DigitValue(c);
        state := Status2;
      case Status2 =>
        if !IsDigit(c) {
          return false;
        }
        reply.status := reply.status + DigitValue(c);
        state := StatusText;
      case StatusText =>
        if IsDigit(c) {
          return false;
        } else if c == '\r' {
          state := Newline1;
        }
      case Newline1 => ok := Expect(c, '\n', HeaderLineStart);
    }

    method ConsumeHeader(reply: HamReply, c: char) returns (ok: bool)
      requires Valid(reply) && Inv(Machine(reply)) && !reply.finished
      requires state in {HeaderLineStart, HeaderLws, HeaderName, SpaceBeforeValue, HeaderValue, Newline2}
      requires StepHeader(Machine(reply), c) != Undefined
      modifies this, reply, headerName, headerValue, reply.content
      ensures Valid(reply) && ok == StepHeader(old(Machine(reply)), c).Taken?
      ensures Machine(reply) == if ok then StepHeader(old(Machine(reply)), c).m else old(Machine(reply))
    {
      if state == HeaderValue {
        ok := ConsumeValue(reply, c);
      } else {
        ok := ConsumeName(reply, c);
      }
    }

    method ConsumeName(reply: HamReply, c: char) returns (ok: bool)
      requires Valid(reply) && Inv(Machine(reply)) && !reply.finished
      requires state in {HeaderLineStart, HeaderLws, HeaderName, SpaceBeforeValue, Newline2}
      requires StepHeader(Machine(reply), c) != Undefined
      modifies this, headerName, headerValue, reply`text, reply.content
      ensures Valid(reply) && ok == StepHeader(old(Machine(reply)), c).Taken?
      ensures Machine(reply) == if ok then StepHeader(old(Machine(reply)), c).m else old(Machine(reply))
    {
      hide LegalHeader, FitsBuffers, IsWord;
      ok := true;
      match state
      case HeaderLineStart =>
        if c == '\r' {
          state := Newline3;
        } else if reply.headers == [] && (c == ' ' || c == '\t') {
          state := HeaderLws;
        } else if !IsChar(c) || IsControl(c) || IsSpecial(c) {
          return false;
        } else {
          state := HeaderName;
          ptr, at, name := InName, 0, "";
          Write(reply, c);
        }
      case HeaderLws =>
        if c == '\r' {
          state := Newline2;
        } else if !(c == ' ' || c == '\t') {
          return false;
        }
      case HeaderName =>
        if c == ':' {
          state := SpaceBeforeValue;
        } else if !IsChar(c) || IsControl(c) || IsSpecial(c) {
          return false;
        } else {
          Write(reply, c);
        }
      case SpaceBeforeValue =>
        if c != ' ' {
          return false;
        }
        state := HeaderValue;
        headerName[at] := '\0';
        assert headerName[..at] == name;
        ptr, at, value := InValue, 0, "";
      case Newline2 => ok := Expect(c, '\n', HeaderLineStart);
    }

    method ConsumeValue(reply: HamReply, c: char) returns (ok: bool)
      requires Valid(reply) && Inv(Machine(reply)) && !reply.finished && state == HeaderValue
      requires StepHeader(Machine(reply), c) != Undefined
      modifies this, reply, headerName, headerValue, reply.content
      ensures Valid(reply) && ok == StepHeader(old(Machine(reply)), c).Taken?
      ensures Machine(reply) == if ok then StepHeader(old(Machine(reply)), c).m else old(Machine(reply))
    {
      if c == '\r' {
        ghost var n0, v0 := name, value;
        state := Newline2;
        headerValue[at] := '\0';
        assert Terminated(headerValue, value) by { assert headerValue[..at] == old(headerValue[..at]); }
        var n := ReadCString(headerName, name);
        var v := ReadCString(headerValue, value);
        reply.AddHeader(Header(n, v));
        return true;
      } else if IsControl(c) {
        return false;
      }
      Write(reply, c);
      return true;
    }

    /** After the blank line: wait for content, or finish. */
    method EndHeaders(reply: HamReply)
      requires Valid(reply) && !reply.finished && state == Newline3
      modifies this, reply, reply.content
      ensures Valid(reply) && Machine(reply) == StepBody(old(Machine(reply)), '\n').m
    {
      hide RM.GetHeader;
      var length := reply.FindHeader("Content-Length");
      if length.Some? && length.value != "0" {
        state := ContentStart;
      } else {
        reply.content[0], reply.text := '\0', "";
        reply.finished := true;
        Reset();
      }
    }

    method ConsumeContent(reply: HamReply, c: char) returns (ok: bool)
      requires Valid(reply) && Inv(Machine(reply)) && !reply.finished && state in {ContentStart, Content}
      requires StepBody(Machine(reply), c) != Undefined
      modifies this, headerName, headerValue, reply`text, reply.content
      ensures Valid(reply) && ok == StepBody(old(Machine(reply)), c).Taken?
      ensures Machine(reply) == if ok then StepBody(old(Machine(reply)), c).m else old(Machine(reply))
    {
      hide LegalHeader, FitsBuffers, IsWord, ExpectsContent, All;
      ok := true;
      if state == ContentStart {
        if c == '\r' {
          state := Newline3;
        } else {
          state := Content;
          ptr, at, reply.text := InContent, 0, "";
          Write(reply, c);
        }
      } else if c == '\r' {
        reply.content[at] := '\0';
        assert reply.content[..at] == reply.text;
        state := Newline4;
      } else {
        Write(reply, c);
      }
    }

    method ConsumeBody(reply: HamReply, c: char) returns (ok: bool)
      requires Valid(reply) && Inv(Machine(reply)) && !reply.finished
      requires state in {ContentStart, Content, Newline3, Newline4}
      requires StepBody(Machine(reply), c) != Undefined
      modifies this, reply, headerName, headerValue, reply.content
      ensures Valid(reply) && ok == StepBody(old(Machine(reply)), c).Taken?
      ensures Machine(reply) == if ok then StepBody(old(Machine(reply)), c).m else old(Machine(reply))
    {
      hide LegalHeader, FitsBuffers, IsWord, ExpectsContent, All;
      if state == ContentStart || state == Content {
        ok := ConsumeContent(reply, c);
        return;
      }
      ok := c == '\n';
      if !ok {
        return;
      }
      if state == Newline3 {
        EndHeaders(reply);
      } else {
        reply.finished := true;
        Reset();
      }
    }

    /** Feeds a range of the read buffer. The result is what the C function returns. */
    method Parse(reply: HamReply, data: seq<char>) returns (n: nat)
      requires Valid(reply) && Inv(Machine(reply)) && !reply.finished
      requires Feed(Machine(reply), data) != Crash
      modifies this, reply, headerName, headerValue, reply.content
      ensures Valid(reply) && Inv(Machine(reply))
      ensures var o := Feed(old(Machine(reply)), data); Machine(reply) == o.m && n == Returned(data, o)
    {
      hide Step, Inv, Feed, Valid;
      ghost var o := Feed(Machine(reply), data);
      var i := 0;
      assert data[0..] == data;
      while i < |data|
        invariant 0 <= i <= |data|
        invariant Valid(reply) && Inv(Machine(reply)) && !reply.finished
        invariant Feed(Machine(reply), data[i..]) == o
      {
        ghost var before := Machine(reply);
        FeedTurn(before, data, i);
        var ok := Consume(reply, data[i]);
        if !ok {
          GiveUp(reply);
          return i;
        }
        StepKeepsInv(before, data[i]);
        if reply.finished {
          return i;
        }
        i := i + 1;
      }
      assert data[i..] == "";
      FeedNothing(Machine(reply));
      return i;
    }

    /** A refused byte resets the parser. */
    method GiveUp(reply: HamReply)
      requires Valid(reply) && Inv(Machine(reply)) && !reply.finished
      modifies this
      ensures Valid(reply) && Inv(Machine(reply)) && Machine(reply) == old(Machine(reply)).Reset()
    {
      hide Inv;
      ResetKeepsInv(Machine(reply));
      Reset();
    }
  }

  lemma FeedTurn(m: RM.Machine, data: string, i: nat)
    requires i < |data|
    ensures Feed(m, data[i..]) ==
            match Step(m, data[i])
            case Refused => Bad(m.Reset(), data[i..])
            case Undefined => Crash
            case Taken(n) => if n.reply.finished then Done(n, data[i + 1..]) else Feed(n, data[i + 1..])
  {
    hide Step;
    assert data[i..][0] == data[i] && data[i..][1..] == data[i + 1..];
  }

  lemma FeedNothing(m: RM.Machine)
    ensures Feed(m, "") == More(m)
  {
  }

  lemma ResetKeepsInv(m: RM.Machine)
    requires Inv(m)
    ensures Inv(m.Reset())
  {
  }
}
