/** The server's `Reply` and its printer. */
module ReplyPrinting {
  import opened Chars
  import opened Headers

  datatype Status =
    | Ok | MovedPermanently | MovedTemporarily | NotModified
    | BadRequest | Unauthorized | Forbidden | NotFound | InternalServerError

  function Code(s: Status): nat {
    match s
    case Ok => 200
    case MovedPermanently => 301
    case MovedTemporarily => 302
    case NotModified => 304
    case BadRequest => 400
    case Unauthorized => 401
    case Forbidden => 403
    case NotFound => 404
    case InternalServerError => 500
  }

  function Line(version: string, code: string, phrase: string): string {
    "HTTP/" + version + " " + code + " " + phrase + "\r\n"
  }

  /** Minor version, code and reason phrase of each status line. */
  function StatusParts(s: Status): (char, string, string) {
    match s
    case Ok => ('1', "200", "OK")
    case MovedPermanently => ('0', "301", "Moved Permanently")
    case MovedTemporarily => ('0', "302", "Moved Temporarily")
    case NotModified => ('0', "304", "Not Modified")
    case BadRequest => ('0', "400", "Bad Request")
    case Unauthorized => ('0', "401", "Unauthorized")
    case Forbidden => ('0', "403", "Forbidden")
    case NotFound => ('0', "404", "Not Found")
    case InternalServerError => ('0', "500", "Internal Server Error")
  }

  function StatusLine(s: Status): string {
    var (minor, code, phrase) := StatusParts(s);
    Line(['1', '.', minor], code, phrase)
  }

  /** A reply as the server holds it: the first two headers always are Content-Type and
      Content-Length, the others were added. */
  datatype ServerReply = ServerReply(status: Status, contentType: string, extra: seq<Header>, content: string) {
    function Headers(): seq<Header> {
      [Header("Content-Type", contentType), Header("Content-Length", Decimal(|content|))] + extra
    }
  }

  function StripCr(s: string): string {
    if s == "" then "" else (if s[0] == '\r' then "" else [s[0]]) + StripCr(s[1..])
  }

  /** Carriage returns are removed after Content-Length was computed. */
  function PrintBody(content: string): string {
    if content == "" then "" else StripCr(content) + "\r\n"
  }

  function PrintReply(r: ServerReply): string {
    StatusLine(r.status) + PrintHeaders(r.Headers()) + "\r\n" + PrintBody(r.content)
  }

  lemma {:induction false} StripCrMeans(s: string)
    ensures All(StripCr(s), NotCr)
    ensures |StripCr(s)| <= |s|
    ensures StripCr(s) == s <==> All(s, NotCr)
    ensures |StripCr(s)| < |s| <==> !All(s, NotCr)
  {
    if s != "" {
      StripCrMeans(s[1..]);
      assert s == [s[0]] + s[1..];
      if s[0] != '\r' {
        assert StripCr(s)[1..] == StripCr(s[1..]);
      }
    }
  }

  class Reply {
    var status: Status
    var headers: seq<Header>
    var content: string
    var async: bool

    ghost predicate Valid()
      reads this
    {
      |headers| >= 2 && headers[0].name == "Content-Type" && headers[1].name == "Content-Length"
    }

    function Value(): ServerReply
      requires |headers| >= 2
      reads this
    {
      ServerReply(status, headers[0].value, headers[2..], content)
    }

    constructor (status: Status, contentType: string)
      ensures Valid() && !async && Value() == ServerReply(status, contentType, [], "")
    {
      this.status := status;
      headers := [Header("Content-Type", contentType), Header("Content-Length", "0")];
      content, async := "", false;
    }

    method SetStatus(s: Status)
      requires Valid()
      modifies this`status
      ensures Valid() && Value() == old(Value()).(status := s)
    {
      status := s;
    }

    method SetContentType(t: string)
      requires Valid()
      modifies this`headers
      ensures Valid() && Value() == old(Value()).(contentType := t)
    {
      headers := headers[0 := headers[0].(value := t)];
    }

    method SetContent(c: string)
      requires Valid()
      modifies this`content
      ensures Valid() && Value() == old(Value()).(content := c)
    {
      content := c;
    }

    method AddHeader(h: Header)
      requires Valid()
      modifies this`headers
      ensures Valid() && Value() == old(Value()).(extra := old(Value()).extra + [h])
    {
      headers := headers + [h];
      assert headers[2..] == old(headers)[2..] + [h];
    }

    /** The loop that appends the header fields. */
    method AppendHeaders(before: string) returns (buffers: string)
      ensures buffers == before + PrintHeaders(headers)
    {
      hide PrintHeader;
      buffers := before;
      for i := 0 to |headers|
        invariant buffers == before + PrintHeaders(headers[..i])
      {
        PrintHeadersSnoc(headers[..i], headers[i]);
        assert headers[..i + 1] == headers[..i] + [headers[i]];
        buffers := buffers + PrintHeader(headers[i]);
      }
      assert headers[..|headers|] == headers;
    }

    /** Printing rewrites Content-Length and strips the content, so printing twice can give
        a different Content-Length the second time. */
    method ToString() returns (buffers: string)
      requires Valid()
      modifies this
      ensures Valid() && buffers == PrintReply(old(Value()))
      ensures Value() == old(Value()).(content := StripCr(old(content))) && async == old(async)
    {
      hide Decimal, PrintHeaders, StatusLine, StripCr;
      ghost var was := Value();
      buffers := StatusLine(status);
      headers := headers[1 := headers[1].(value := Decimal(|content|))];
      assert headers == was.Headers();
      buffers := AppendHeaders(buffers);
      buffers := buffers + "\r\n";
      ghost var head := buffers;
      if content != "" {
        content := StripCr(content);
        buffers := buffers + content;
        buffers := buffers + "\r\n";
        assert buffers == head + PrintBody(was.content);
      } else {
        assert StripCr("") == "" by { StripCrMeans(""); }
      }
      assert headers[2..] == was.extra;
    }
  }

  /** The text of a successful reply. */
  lemma {:induction false} OkReplyText(contentType: string, content: string)
    requires content != "" && All(content, NotCr)
    ensures PrintReply(ServerReply(Ok, contentType, [], content))
         == "HTTP/1.1 200 OK\r\n" + "Content-Type: " + contentType + "\r\n" + "Content-Length: "
            + Decimal(|content|) + "\r\n" + "\r\n" + content + "\r\n"
  {
    hide Decimal, PrintHeaders, StripCr;
    var (h, g) := (Header("Content-Type", contentType), Header("Content-Length", Decimal(|content|)));
    StripCrMeans(content);
    NoHeaders();
    PrintHeadersSnoc([], h);
    PrintHeadersSnoc([h], g);
    assert [] + [h] == [h] && [h] + [g] == [h, g] && [h, g] + [] == [h, g];
    OkLine();
    ReplyPieces("HTTP/1.1 200 OK\r\n", "Content-Type: ", contentType, "Content-Length: ", Decimal(|content|), "\r\n",
                content);
  }

  lemma NoHeaders()
    ensures PrintHeaders([]) == ""
  {
  }

  lemma OkLine()
    ensures StatusLine(Ok) == "HTTP/1.1 200 OK\r\n"
    ensures "Content-Type" + ": " == "Content-Type: " && "Content-Length" + ": " == "Content-Length: "
  {
  }

  lemma PermanentLine()
    ensures StatusLine(MovedPermanently) == "HTTP/1.0 301 Moved Permanently\r\n"
  {
  }

  lemma TemporaryLine()
    ensures StatusLine(MovedTemporarily) == "HTTP/1.0 302 Moved Temporarily\r\n"
  {
  }

  lemma NotLines()
    ensures StatusLine(NotModified) == "HTTP/1.0 304 Not Modified\r\n"
    ensures StatusLine(NotFound) == "HTTP/1.0 404 Not Found\r\n"
  {
  }

  lemma RefusalLines()
    ensures StatusLine(BadRequest) == "HTTP/1.0 400 Bad Request\r\n"
    ensures StatusLine(Unauthorized) == "HTTP/1.0 401 Unauthorized\r\n"
  {
  }

  lemma ForbiddenLine()
    ensures StatusLine(Forbidden) == "HTTP/1.0 403 Forbidden\r\n"
  {
  }

  lemma ErrorLine()
    ensures StatusLine(InternalServerError) == "HTTP/1.0 500 Internal Server Error\r\n"
  {
  }

  /** The status lines, written out. */
  lemma StatusLineText(s: Status)
    ensures StatusLine(s) ==
            match s
            case Ok => "HTTP/1.1 200 OK\r\n"
            case MovedPermanently => "HTTP/1.0 301 Moved Permanently\r\n"
            case MovedTemporarily => "HTTP/1.0 302 Moved Temporarily\r\n"
            case NotModified => "HTTP/1.0 304 Not Modified\r\n"
            case BadRequest => "HTTP/1.0 400 Bad Request\r\n"
            case Unauthorized => "HTTP/1.0 401 Unauthorized\r\n"
            case Forbidden => "HTTP/1.0 403 Forbidden\r\n"
            case NotFound => "HTTP/1.0 404 Not Found\r\n"
            case InternalServerError => "HTTP/1.0 500 Internal Server Error\r\n"
  {
    hide StatusLine;
    OkLine();
    PermanentLine();
    TemporaryLine();
    NotLines();
    RefusalLines();
    ForbiddenLine();
    ErrorLine();
  }

  lemma ReplyPieces(line: string, name: string, value: string, name': string, value': string, nl: string,
                    content: string)
    ensures line + (("" + (name + value + nl)) + (name' + value' + nl)) + nl + (content + nl)
         == line + name + value + nl + name' + value' + nl + nl + content + nl
  {
  }
}
