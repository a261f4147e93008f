/** The server's `Request` and `RequestParser` objects, updated in place, and the proof
    that they run the machine of RequestMachine. */
module RequestParsing {
  import opened Chars
  import opened Headers
  import RM = RequestMachine
  import opened RequestMachine

  class ServerRequest {
    var verb: string
    var uri: string
    var majorVersion: nat
    var minorVersion: nat
    var finished: bool
    var headers: seq<Header>
    var content: string

    constructor ()
      ensures Value() == BLANK
    {
      verb, uri, majorVersion, minorVersion := "", "", 0, 0;
      finished, headers, content := false, [], "";
    }

    function Value(): RM.Request
      reads this
    {
      RM.Request(verb, uri, majorVersion, minorVersion, finished, headers, content)
    }

    method HasHeaderNamed(name: string) returns (found: bool)
      ensures found <==> HasHeader(headers, name)
    {
      for i := 0 to |headers|
        invariant forall k | 0 <= k < i :: headers[k].name != name
      {
        if headers[i].name == name {
          return true;
        }
      }
      return false;
    }

    /** The value of the first header of that name, or the empty string. */
    method GetHeader(name: string) returns (v: string)
      ensures !HasHeader(headers, name) ==> v == ""
      ensures HasHeader(headers, name) ==>
                exists i :: 0 <= i < |headers| && headers[i] == Header(name, v)
                            && forall k | 0 <= k < i :: headers[k].name != name
    {
      for i := 0 to |headers|
        invariant forall k | 0 <= k < i :: headers[k].name != name
      {
        if headers[i].name == name {
          assert headers[i] == Header(name, headers[i].value);
          return headers[i].value;
        }
      }
      return "";
    }

    method PushToLastValue(c: char)
      requires headers != []
      modifies this`headers
      ensures headers == AppendToLast(old(headers), [c])
    {
      var k := |headers| - 1;
      headers := headers[k := headers[k].(value := headers[k].value + [c])];
    }
  }

  class RequestParser {
    var state: State

    constructor ()
      ensures state == MethodStart
    {
      state := MethodStart;
    }

    method Reset()
      modifies this
      ensures state == MethodStart
    {
      state := MethodStart;
    }

    function Machine(req: ServerRequest): RM.Machine
      reads this, req
    {
      RM.Machine(state, req.Value())
    }

    /** If the byte is `wanted`, go to `next`. */
    method Expect(c: char, wanted: char, next: State) returns (ok: bool)
      modifies this
      ensures ok == (c == wanted) && state == if ok then next else old(state)
    {
      ok := c == wanted;
      if ok {
        state := next;
      }
    }

    method HandleChar(req: ServerRequest, c: char) returns (ok: bool)
      requires Machine(req).Sane()
      modifies this, req
      ensures ok == Step(old(Machine(req)), c).Some?
      ensures Machine(req) == if ok then Step(old(Machine(req)), c).value else old(Machine(req))
    {
      match state
      case MethodStart =>
        if !IsChar(c) || IsControl(c) || IsSpecial(c) {
          return false;
        }
        state := Method;
        req.verb := req.verb + [c];
        return true;
      case Method =>
        if c == ' ' {
          state := Uri;
          return true;
        } else if !IsChar(c) || IsControl(c) || IsSpecial(c) {
          return false;
        }
        req.verb := req.verb + [c];
        return true;
      case Uri =>
        if c == ' ' {
          state := VersionH;
          return true;
        } else if IsControl(c) {
          return false;
        }
        req.uri := req.uri + [c];
        return true;
      case VersionH => ok := Expect(c, 'H', VersionT1);
      case VersionT1 => ok := Expect(c, 'T', VersionT2);
      case VersionT2 => ok := Expect(c, 'T', VersionP);
      case VersionP => ok := Expect(c, 'P', VersionSlash);
      case VersionSlash =>
        if c == '/' {
          req.majorVersion, req.minorVersion := 0, 0;
        }
        ok := Expect(c, '/', MajorStart);
      case MajorStart =>
        if !IsDigit(c) {
          return false;
        }
        req.majorVersion := PushDigit(req.majorVersion, c);
        state := Major;
        return true;
      case Major =>
        if c == '.' {
          state := MinorStart;
          return true;
        } else if !IsDigit(c) {
          return false;
        }
        req.majorVersion := PushDigit(req.majorVersion, c);
        return true;
      case MinorStart =>
        if !IsDigit(c) {
          return false;
        }
        req.minorVersion := PushDigit(req.minorVersion, c);
        state := Minor;
        return true;
      case Minor =>
        if c == '\r' {
          state := Newline1;
          return true;
        } else if !IsDigit(c) {
          return false;
        }
        req.minorVersion := PushDigit(req.minorVersion, c);
        return true;
      case Newline1 => ok := Expect(c, '\n', HeaderLineStart);
      case HeaderLineStart =>
        if c == '\r' {
          state := Newline3;
          return true;
        } else if req.headers != [] && (c == ' ' || c == '\t') {
          state := HeaderLws;
          return true;
        } else if !IsChar(c) || IsControl(c) || IsSpecial(c) {
          return false;
        }
        req.headers := req.headers + [Header([c], "")];
        state := HeaderName;
        return true;
      case HeaderLws =>
        if c == '\r' {
          state := Newline2;
          return true;
        } else if c == ' ' || c == '\t' {
          return true;
        } else if IsControl(c) {
          return false;
        }
        state := HeaderValue;
        req.PushToLastValue(c);
        return true;
      case HeaderName =>
        if c == ':' {
          state := SpaceBeforeValue;
          return true;
        } else if !IsChar(c) || IsControl(c) || IsSpecial(c) {
          return false;
        }
        var k := |req.headers| - 1;
        req.headers := req.headers[k := req.headers[k].(name := req.headers[k].name + [c])];
        return true;
      case SpaceBeforeValue => ok := Expect(c, ' ', HeaderValue);
      case HeaderValue =>
        if c == '\r' {
          state := Newline2;
          return true;
        } else if IsControl(c) {
          return false;
        }
        req.PushToLastValue(c);
        return true;
      case Newline2 => ok := Expect(c, '\n', HeaderLineStart);
      case Newline3 =>
        if c != '\n' {
          return false;
        }
        var announced := req.HasHeaderNamed("Content-Length");
        if announced {
          state := ContentStart;
        } else {
          req.finished := true;
          Reset();
        }
        return true;
      case ContentStart =>
        if c == '\r' {
          state := Newline3;
          return true;
        }
        state := Content;
        req.content := req.content + [c];
        return true;
      case Content =>
        if c == '\r' {
          state := Newline4;
          return true;
        }
        req.content := req.content + [c];
        return true;
      case Newline4 =>
        if c != '\n' {
          return false;
        }
        req.finished := true;
        Reset();
        return true;
      case UriStart => return false;
    }

    /** Feeds `buffer[begin..end]`; the result is 0 on a refused byte and otherwise the
        number of bytes consumed. */
    method Parse(req: ServerRequest, buffer: array<char>, begin: nat, end: nat) returns (n: nat)
      requires Machine(req).Sane() && begin <= end <= buffer.Length
      modifies this, req
      ensures var o := Feed(old(Machine(req)), buffer[begin..end]);
              Machine(req) == o.m && n == Consumed(buffer[begin..end], o)
    {
      ghost var input := buffer[begin..end];
      ghost var o := Feed(Machine(req), input);
      var b := begin;
      while b != end
        invariant begin <= b <= end
        invariant Machine(req).Sane()
        invariant Feed(Machine(req), buffer[b..end]) == o
        invariant input == buffer[begin..end]
      {
        assert buffer[b..end][0] == buffer[b] && buffer[b..end][1..] == buffer[b + 1..end];
        var ok := HandleChar(req, buffer[b]);
        b := b + 1;
        if !ok {
          return 0;
        }
        if req.finished {
          return b - begin;
        }
      }
      return b - begin;
    }
  }
}
