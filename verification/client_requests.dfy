/** The requests that the client library makes, as text, and what the server's parser makes of
    each: accepted as meant under conditions on the values alone. */
module ClientRequests {
  import opened Chars
  import opened Headers
  import opened RequestMachine
  import opened RequestGrammar
  import opened RequestPrinting

  /** A printable byte other than the blank, or one that is not ASCII. */
  predicate InUri(c: char) {
    33 <= c as int <= 126 || 128 <= c as int
  }

  predicate InValue(c: char) {
    32 <= c as int <= 126 || 128 <= c as int
  }

  lemma UriChars(s: string)
    ensures All(s, IsUriChar) <==> All(s, InUri)
  {
  }

  lemma ValuesOf(s: string)
    ensures All(s, IsValueChar) <==> All(s, InValue)
  {
  }

  lemma Words()
    ensures IsWord("GET") && IsWord("POST")
    ensures IsWord("username") && IsWord("password") && IsWord("Authorization")
  {
  }

  /** A request without headers and content, as for "/logbook" and "/modules". */
  lemma {:induction false} GetIsAccepted(uri: string)
    ensures Accepts("GET " + uri + " HTTP/1.1\r\n" + "\r\n", Request("GET", uri, 1, 1, true, [], ""))
            <==> All(uri, InUri)
  {
    hide Accepts, All;
    var r := ClientRequest("GET", uri, [], None);
    Words();
    UriChars(uri);
    RequestRoundTrip(r);
    GetText(uri);
  }

  lemma GetText(uri: string)
    ensures Print(ClientRequest("GET", uri, [], None)) == "GET " + uri + " HTTP/1.1\r\n" + "\r\n"
  {
    HeaderNames();
    var line := "GET " + uri + " HTTP/1.1\r\n";
    assert line + "" + "" + "\r\n" == line + "\r\n";
  }

  /** A request with content, as for "/logbook/add". */
  lemma {:induction false} PostIsAccepted(uri: string, content: string)
    ensures var n := Decimal(|content|);
            Accepts("POST " + uri + " HTTP/1.1\r\n" + "Content-Length: " + n + "\r\n" + "\r\n"
                    + content + "\r\n",
                    Request("POST", uri, 1, 1, true, [Header("Content-Length", n)], content))
            <==> All(uri, InUri) && content != "" && '\r' !in content
  {
    hide Accepts, Decimal;
    var r := ClientRequest("POST", uri, [], Some(content));
    Words();
    UriChars(uri);
    RequestRoundTrip(r);
    PostText(uri, content);
    assert [] + [Header("Content-Length", Decimal(|content|))] == [Header("Content-Length", Decimal(|content|))];
    NoCr(content);
  }

  lemma NoCr(content: string)
    ensures All(content, NotCr) <==> '\r' !in content
  {
  }

  lemma {:induction false} PostText(uri: string, content: string)
    ensures Print(ClientRequest("POST", uri, [], Some(content)))
         == "POST " + uri + " HTTP/1.1\r\n" + "Content-Length: " + Decimal(|content|)
            + "\r\n" + "\r\n" + content + "\r\n"
  {
    hide Decimal;
    var n := Decimal(|content|);
    LengthName();
    Pieces("POST ", uri, " HTTP/1.1\r\n", "Content-Length: ", n, "\r\n", content);
  }

  lemma LengthName()
    ensures "POST" + " " == "POST " && "Content-Length" + ": " == "Content-Length: "
  {
  }

  lemma Pieces(verb: string, uri: string, version: string, name: string, n: string, nl: string, content: string)
    ensures verb + uri + version + "" + ((name + n + nl) + nl + content) + nl
         == verb + uri + version + name + n + nl + nl + content + nl
  {
  }

  lemma OtherNames()
    ensures "username" != "Content-Length" && "password" != "Content-Length" && "Authorization" != "Content-Length"
  {
    assert "username"[0] != "Content-Length"[0] && "password"[0] != "Content-Length"[0];
    assert "Authorization"[0] != "Content-Length"[0];
  }

  /** The registration request. */
  lemma {:induction false} RegisterIsAccepted(username: string, password: string)
    ensures var headers := [Header("username", username), Header("password", password)];
            Accepts("GET " + "/register" + " HTTP/1.1\r\n" + "username: " + username + "\r\n"
                    + "password: " + password + "\r\n" + "\r\n",
                    Request("GET", "/register", 1, 1, true, headers, ""))
            <==> All(username, InValue) && All(password, InValue)
  {
    hide Accepts;
    var headers := [Header("username", username), Header("password", password)];
    var r := ClientRequest("GET", "/register", headers, None);
    Words();
    UriChars("/register");
    ValuesOf(username);
    ValuesOf(password);
    RequestRoundTrip(r);
    RegisterText(username, password);
    assert headers[0] in headers && headers[1] in headers;
    OtherNames();
  }

  lemma {:induction false} RegisterText(username: string, password: string)
    ensures Print(ClientRequest("GET", "/register", [Header("username", username), Header("password", password)], None))
         == "GET " + "/register" + " HTTP/1.1\r\n" + "username: " + username + "\r\n"
            + "password: " + password + "\r\n" + "\r\n"
  {
    hide PrintHeaders;
    var (h, g) := (Header("username", username), Header("password", password));
    NoHeaders();
    PrintHeadersSnoc([h], g);
    PrintHeadersSnoc([], h);
    assert [] + [h] == [h] && [h] + [g] == [h, g];
    HeaderNames();
    BothPieces("GET " + "/register" + " HTTP/1.1\r\n", "username: ", username, "password: ", password, "\r\n");
  }

  lemma NoHeaders()
    ensures PrintHeaders([]) == ""
  {
  }

  lemma HeaderNames()
    ensures "GET" + " " == "GET " && "username" + ": " == "username: " && "password" + ": " == "password: "
    ensures "Authorization" + ": " == "Authorization: "
  {
  }

  lemma BothPieces(line: string, name: string, value: string, name': string, value': string, nl: string)
    ensures line + ("" + (name + value + nl) + (name' + value' + nl)) + "" + nl
         == line + name + value + nl + name' + value' + nl + nl
  {
  }

  /** The answer to a login challenge. */
  lemma {:induction false} LoginIsAccepted(authorization: string)
    ensures Accepts("GET " + "/login" + " HTTP/1.1\r\n" + "Authorization: " + authorization + "\r\n" + "\r\n",
                    Request("GET", "/login", 1, 1, true, [Header("Authorization", authorization)], ""))
            <==> All(authorization, InValue)
  {
    hide Accepts;
    var headers := [Header("Authorization", authorization)];
    var r := ClientRequest("GET", "/login", headers, None);
    Words();
    UriChars("/login");
    ValuesOf(authorization);
    RequestRoundTrip(r);
    LoginText(authorization);
    assert headers[0] in headers;
    OtherNames();
  }

  lemma {:induction false} LoginText(authorization: string)
    ensures Print(ClientRequest("GET", "/login", [Header("Authorization", authorization)], None))
         == "GET " + "/login" + " HTTP/1.1\r\n" + "Authorization: " + authorization + "\r\n" + "\r\n"
  {
    hide PrintHeaders;
    var h := Header("Authorization", authorization);
    NoHeaders();
    PrintHeadersSnoc([], h);
    assert [] + [h] == [h];
    HeaderNames();
    HeadPieces("GET " + "/login" + " HTTP/1.1\r\n", "Authorization: ", authorization, "\r\n");
  }

  lemma HeadPieces(line: string, name: string, value: string, nl: string)
    ensures line + ("" + (name + value + nl)) + "" + nl == line + name + value + nl + nl
  {
  }
}
