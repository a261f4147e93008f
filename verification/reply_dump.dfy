/** The reply dump: a two-pass printer whose size pass reserves three characters for the
    status, which the parser's three status digits make enough. */
module ReplyDump {
  import opened Buffers
  import opened Chars
  import opened Headers
  import opened ReplyMachine
  import ReplyRoundTrip

  function DumpHeader(h: Header): string {
    "       " + h.name + ": " + h.value + "\n"
  }

  function DumpHeaders(headers: seq<Header>): string {
    if headers == [] then "" else DumpHeaders(headers[..|headers| - 1]) + DumpHeader(headers[|headers| - 1])
  }

  function DumpTop(r: ClientReply): string {
    "   status=" + Decimal(r.status) + "\n" + "   content=" + CString(r.content) + "\n" + "   Headers:\n"
  }

  function Dump(r: ClientReply): string {
    DumpTop(r) + DumpHeaders(r.headers)
  }

  function HeadersSize(headers: seq<Header>): nat {
    if headers == [] then 0 else
      var h := headers[|headers| - 1];
      HeadersSize(headers[..|headers| - 1]) + |"       : \n"| + |h.name| + |h.value|
  }

  /** What the first pass allocates. */
  function DumpSize(r: ClientReply): nat {
    |"   status=\n   content=\n   Headers:\n"| + 3 + |CString(r.content)| + HeadersSize(r.headers) + 1
  }

  lemma {:induction false} HeadersSizeExact(headers: seq<Header>)
    ensures |DumpHeaders(headers)| == HeadersSize(headers)
  {
    if headers != [] {
      HeadersSizeExact(headers[..|headers| - 1]);
    }
  }

  /** The dump and its NUL fit exactly when the status has at most three digits. */
  lemma {:induction false} DumpFits(r: ClientReply)
    ensures |Dump(r)| + 1 <= DumpSize(r) <==> r.status < 1000
  {
    HeadersSizeExact(r.headers);
    DecimalLength(r.status, 3);
    assert Pow10(3) == 1000;
  }

  /** Whatever bytes a reply was read from, dumping it stays inside the buffer. */
  lemma {:induction false} FinishedReplyDumps(s: string)
    requires Feed(START, s).Done?
    ensures var r := Feed(START, s).m.reply; |Dump(r)| + 1 <= DumpSize(r)
  {
    hide *;
    ReplyRoundTrip.FinishedReplyIsBounded(s);
    DumpFits(Feed(START, s).m.reply);
  }

  lemma {:induction false} PrefixNoLonger(headers: seq<Header>, k: nat)
    requires k <= |headers|
    ensures |DumpHeaders(headers[..k])| <= |DumpHeaders(headers)|
    decreases |headers|
  {
    if k < |headers| {
      assert headers[..|headers| - 1][..k] == headers[..k];
      PrefixNoLonger(headers[..|headers| - 1], k);
      assert |DumpHeaders(headers)| >= |DumpHeaders(headers[..|headers| - 1])|;
    } else {
      assert headers[..k] == headers;
    }
  }

  /** First pass. */
  method Measure(r: ClientReply) returns (size: nat)
    ensures size == DumpSize(r)
  {
    size := |"   status=\n   content=\n   Headers:\n"|;
    size := size + 3 + |CString(r.content)|;
    ghost var top := size;
    for i := 0 to |r.headers|
      invariant size == top + HeadersSize(r.headers[..i])
    {
      assert r.headers[..i + 1][..i] == r.headers[..i];
      size := size + |"       : \n"| + |r.headers[i].name| + |r.headers[i].value|;
    }
    assert r.headers[..|r.headers|] == r.headers;
    size := size + 1;
  }

  /** Second pass: the dump as a NUL-terminated buffer. */
  method GetDump(r: ClientReply) returns (data: array<char>)
    requires r.status < 1000
    ensures |Dump(r)| < data.Length && data[..|Dump(r)|] == Dump(r) && data[|Dump(r)|] == '\0'
  {
    hide DumpTop, DumpHeader, DumpSize;
    DumpFits(r);
    var size := Measure(r);
    data := new char[size];
    var ptr := PutString(data, 0, DumpTop(r));
    for i := 0 to |r.headers|
      invariant 0 <= ptr < data.Length && data[..ptr] == DumpTop(r) + DumpHeaders(r.headers[..i]) && data[ptr] == '\0'
    {
      assert r.headers[..i + 1][..i] == r.headers[..i];
      PrefixNoLonger(r.headers, i + 1);
      ptr := PutString(data, ptr, DumpHeader(r.headers[i]));
    }
    assert r.headers[..|r.headers|] == r.headers;
  }

  /** What is dumped of a reply with one header. */
  lemma DumpText(r: ClientReply, name: string, value: string)
    requires r.headers == [Header(name, value)]
    ensures Dump(r) == "   status=" + Decimal(r.status) + "\n   content=" + CString(r.content) + "\n   Headers:\n"
                       + ("       " + name + ": " + value + "\n")
  {
    hide CString, Decimal;
    assert r.headers[..0] == [] && DumpHeaders(r.headers) == "" + DumpHeader(Header(name, value));
    assert "\n" + "   content=" == "\n   content=" && "\n" + "   Headers:\n" == "\n   Headers:\n";
    DumpPieces("   status=", Decimal(r.status), "\n", "   content=", CString(r.content), "   Headers:\n",
               "       " + name + ": " + value + "\n");
  }

  lemma DumpPieces(a: string, status: string, nl: string, b: string, content: string, c: string, h: string)
    ensures a + status + nl + b + content + nl + c + ("" + h) == a + status + (nl + b) + content + (nl + c) + h
  {
  }
}
