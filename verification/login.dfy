/** The login exchange: the server's challenge, the client's answer to it, and the server's
    decision, on top of the digest tokenizer at both ends and MD5. */
module Logins {
  import opened Chars
  import opened Digests
  import opened DigestRoundTrip
  import Md5
  import Md5Block

  function Bytes(s: string): seq<Md5Block.byte> {
    seq(|s|, i requires 0 <= i < |s| => s[i] as int % 256)
  }

  function HashHex(s: string): string {
    Md5.Hex(Md5.MessageDigest(Bytes(s)))
  }

  /** What the server puts into its challenges and checks answers with. */
  datatype Server = Server(realm: string, nonce: string, opaqueText: string, users: map<string, string>)

  /** A text that can stand between quotes. */
  ghost predicate Quotable(v: string) {
    All(v, NotQuote) && Untrimmed(v)
  }

  function Challenge(s: Server): seq<Field> {
    [Field("realm", s.realm), Field("qop", "auth,auth-int"), Field("nonce", s.nonce), Field("opaque", s.opaqueText)]
  }

  function ChallengeHeader(s: Server): (h: string)
    ensures |h| >= 7
  {
    "Digest " + JoinTokens(Texts(Challenge(s)), "")
  }

  /** What both ends hash. */
  function Response(ha1: string, nonce: string): string {
    HashHex(ha1 + ":" + nonce + ":" + HashHex("GET:/login"))
  }

  function Secret(username: string, realm: string, password: string): string {
    HashHex(username + ":" + realm + ":" + password)
  }

  /** The tokens of the answer but the last; one of them is not quoted. `clientNonce` is a
      constant of the client's. */
  function FirstTokens(username: string, realm: string, clientNonce: string, response: string): (t: seq<string>)
    ensures |t| == 6
  {
    [Quoted(Field("username", username)), Quoted(Field("realm", realm)), Quoted(Field("nonce", clientNonce)),
     Quoted(Field("uri", "/login")), "qop=auth", Quoted(Field("response", response))]
  }

  /** The last token has a parenthesis behind its quote. */
  function LastToken(opaqueText: string): string {
    Quoted(Field("opaque", opaqueText)) + ")"
  }

  function AnswerTokens(username: string, realm: string, clientNonce: string, response: string, opaqueText: string)
    : seq<string>
  {
    FirstTokens(username, realm, clientNonce, response) + [LastToken(opaqueText)]
  }

  const AUTHORIZATION_SIZE := 512

  /** "snprintf" into the fixed buffer. */
  function Truncated(s: string): string {
    if |s| < AUTHORIZATION_SIZE then s else s[..AUTHORIZATION_SIZE - 1]
  }

  /** The client's answer to a challenge header, if the challenge has all it needs. */
  function Answer(username: string, password: string, clientNonce: string, header: string): Option<string>
    requires |header| >= 7
  {
    var list := Stacked(Pairs(header[7..]));
    var (qop, realm) := (Taken(list, "qop"), Taken(list, "realm"));
    var (nonce, opaqueText) := (Taken(list, "nonce"), Taken(list, "opaque"));
    if qop == None || realm == None || nonce == None || opaqueText == None then None
    else
      var response := Response(Secret(username, realm.value, password), nonce.value);
      var tokens := AnswerTokens(username, realm.value, clientNonce, response, opaqueText.value);
      Some(Truncated("Digest " + JoinTokens(tokens, "")))
  }

  const NEEDED := ["username", "realm", "nonce", "uri", "qop", "response", "opaque"]

  predicate HasNeeded(fields: map<string, string>) {
    forall i | 0 <= i < |NEEDED| :: NEEDED[i] in fields
  }

  /** The server's decision on an answer: the user that is now logged in, or none and
      another challenge. */
  function Decide(s: Server, auth: string): Option<string>
    requires |auth| >= 7
  {
    var fields := Stored(map[], Pairs(auth[7..]));
    if fields == None || !HasNeeded(fields.value) then None
    else
      var (username, response) := (fields.value[NEEDED[0]], fields.value[NEEDED[5]]);
      if username in s.users && Response(s.users[username], s.nonce) == response then Some(username) else None
  }

  // ---------------------------------------------------------------- the client's side

  lemma {:induction false} ChallengePairs(s: Server)
    requires Quotable(s.realm) && Quotable(s.nonce) && Quotable(s.opaqueText)
    ensures Pairs(ChallengeHeader(s)[7..]) == AsPairs(Challenge(s))
  {
    hide Pairs, JoinTokens, Texts, Untrimmed, NotQuote, IsNameChar;
    var fields := Challenge(s);
    assert ChallengeHeader(s)[7..] == JoinTokens(Texts(fields), "");
    ChallengeIsLegal();
    DigestRoundTrips(fields, "");
  }

  lemma ChallengeIsLegal()
    ensures LegalName("realm") && LegalName("qop") && LegalName("nonce") && LegalName("opaque")
    ensures Quotable("auth,auth-int")
  {
  }

  /** The client reads the challenge as it was meant. */
  lemma {:induction false} ChallengeIsRead(s: Server)
    requires Quotable(s.realm) && Quotable(s.nonce) && Quotable(s.opaqueText)
    ensures var list := Stacked(Pairs(ChallengeHeader(s)[7..]));
            && Taken(list, "realm") == Some(s.realm) && Taken(list, "nonce") == Some(s.nonce)
            && Taken(list, "opaque") == Some(s.opaqueText) && Taken(list, "qop") != None
  {
    hide Pairs, ChallengeHeader, Stacked, Taken, FirstNamed, Quotable;
    ChallengePairs(s);
    var pairs := AsPairs(Challenge(s));
    ChallengeNames();
    ClientTakesFirst(pairs, "realm");
    ClientTakesFirst(pairs, "qop");
    ClientTakesFirst(pairs, "nonce");
    ClientTakesFirst(pairs, "opaque");
    FirstNamedAt(pairs, 0);
    FirstNamedAt(pairs, 1);
    FirstNamedAt(pairs, 2);
    FirstNamedAt(pairs, 3);
  }

  lemma ChallengeNames()
    ensures "realm" != "qop" && "realm" != "nonce" && "realm" != "opaque"
    ensures "qop" != "nonce" && "qop" != "opaque" && "nonce" != "opaque"
  {
    assert "realm"[0] != "nonce"[0];
  }

  lemma {:induction false} FirstNamedAt(pairs: seq<Pair>, k: nat)
    requires k < |pairs| && forall j | 0 <= j < k :: pairs[j].name != pairs[k].name
    ensures FirstNamed(pairs, pairs[k].name) == pairs[k].value
    decreases k
  {
    if k > 0 {
      FirstNamedAt(pairs[1..], k - 1);
    }
  }

  // ---------------------------------------------------------------- the server's side

  lemma {:induction false} LastNamedAt(pairs: seq<Pair>, k: nat)
    requires k < |pairs| && forall j | k < j < |pairs| :: pairs[j].name != pairs[k].name
    ensures LastNamed(pairs, pairs[k].name) == pairs[k].value
    decreases |pairs|
  {
    if k < |pairs| - 1 {
      LastNamedAt(pairs[..|pairs| - 1], k);
    }
  }

  lemma {:induction false} ParseTokensAt(tokens: seq<string>)
    requires forall i | 0 <= i < |tokens| :: ParseToken(tokens[i]).Some?
    ensures |ParseTokens(tokens)| == |tokens|
    ensures forall i | 0 <= i < |tokens| :: ParseTokens(tokens)[i] == ParseToken(tokens[i]).value
    decreases |tokens|
  {
    hide ParseToken;
    if tokens != [] {
      ParseTokensAt(tokens[1..]);
    }
  }

  lemma NeededDiffer()
    ensures forall i, j | 0 <= i < j < |NEEDED| :: NEEDED[i] != NEEDED[j]
  {
    assert "username"[0] != "response"[0] && "realm"[0] != "nonce"[0] && "uri"[0] != "qop"[0];
  }

  /** A quoted token of a legal field. */
  lemma {:induction false} QuotedToken(f: Field)
    requires LegalName(f.name) && Quotable(f.value)
    ensures Whole(Quoted(f)) && ParseToken(Quoted(f)) == Some(Pair(f.name, Some(f.value)))
  {
    hide Whole, Quoted, ParseToken, Trim, Untrimmed, LegalName;
    QuotedIsWhole(f);
    QuotedParses(f);
    TrimQuotedIff(f.value);
  }

  /** A name and a text that starts with '=' and is one token. */
  lemma {:induction false} NamedToken(name: string, rest: string)
    requires LegalName(name) && rest != "" && rest[0] == '=' && TokenEnd(rest, false) == |rest| && !Flag(rest, false)
    ensures Whole(name + rest) && ParseToken(name + rest).Some?
    ensures ParseToken(name + rest).value.name == name && ParseToken(name + rest).value.value != None
  {
    hide TokenEnd, Flag, Trim, Span;
    NameIsPlain(name);
    TokenGoesOn(name, false, rest);
    FlagConcat(name, rest, false);
    NameSpan(name, rest);
    assert (name + rest)[0] == name[0] && (name + rest)[..|name|] == name;
  }

  /** The two tokens that are not quite quoted. */
  lemma {:induction false} QopToken()
    ensures Whole("qop=auth") && ParseToken("qop=auth").Some?
    ensures ParseToken("qop=auth").value.name == "qop" && ParseToken("qop=auth").value.value != None
  {
    hide Whole, ParseToken;
    NameIsPlain("auth");
    assert "=auth"[1..] == "auth" && "qop" + "=auth" == "qop=auth";
    NamedToken("qop", "=auth");
  }

  lemma {:induction false} ClosingToken(v: string)
    requires All(v, NotQuote)
    ensures Whole(LastToken(v)) && LastToken(v) == "opaque=" + ("\"" + v + "\")")
  {
    hide *;
    var start, end := "=\"", "\")";
    var rest := start + (v + end);
    LastTokenText(v);
    ValueIsQuoted(v);
    Ends();
    CloseEnds();
    TokenGoesOn(v, true, end);
    TokenGoesOn(start, false, v + end);
    FlagConcat(v, end, true);
    FlagConcat(start, v + end, false);
    assert rest[0] == start[0] == '=';
    NamedToken("opaque", rest);
  }

  lemma LastTokenText(v: string)
    ensures LastToken(v) == "opaque" + ("=\"" + (v + "\")"))
    ensures LastToken(v) == "opaque=" + ("\"" + v + "\")")
  {
    assert "=\"" == "=" + "\"" && "opaque=" == "opaque" + "=" && "\")" == "\"" + ")";
    Regrouped("opaque", "=", "\"", v, ")");
  }

  lemma Regrouped(name: string, eq: string, quote: string, v: string, close: string)
    ensures name + (eq + quote) + v + quote + close == name + ((eq + quote) + (v + (quote + close)))
    ensures name + ((eq + quote) + (v + (quote + close))) == (name + eq) + (quote + v + (quote + close))
  {
  }

  lemma CloseEnds()
    ensures TokenEnd("\")", true) == 2 && !Flag("\")", true) && LegalName("opaque")
  {
    assert "\")"[1..] == ")" && ")"[1..] == "";
  }

  lemma AnswerNames()
    ensures LegalName("username") && LegalName("realm") && LegalName("nonce")
    ensures LegalName("uri") && LegalName("response") && Quotable("/login")
  {
  }

  lemma {:induction false} HexIsQuotable(b: seq<Md5Block.byte>)
    ensures All(Md5.Hex(b), IsHexDigit) && Quotable(Md5.Hex(b))
  {
    if b != [] {
      HexIsQuotable(b[..|b| - 1]);
    }
  }

  predicate IsHexDigit(c: char) {
    '0' <= c <= '9' || 'a' <= c <= 'f'
  }

  /** The names of the tokens but the last, and that none of them starts as "opaque" does. */
  lemma {:induction false} FirstTokensParse(username: string, realm: string, clientNonce: string, response: string)
    requires Quotable(username) && Quotable(realm) && Quotable(clientNonce) && Quotable(response)
    ensures var tokens := FirstTokens(username, realm, clientNonce, response);
            && (forall i | 0 <= i < 6 ::
                  && Whole(tokens[i]) && ParseToken(tokens[i]).Some?
                  && ParseToken(tokens[i]).value.name == NEEDED[i] && ParseToken(tokens[i]).value.value != None)
            && ParseToken(tokens[0]).value.value == Some(username)
            && ParseToken(tokens[5]).value.value == Some(response)
  {
    hide ParseToken, Whole, Quoted, LegalName, Quotable;
    AnswerNames();
    QuotedToken(Field("username", username));
    QuotedToken(Field("realm", realm));
    QuotedToken(Field("nonce", clientNonce));
    QuotedToken(Field("uri", "/login"));
    QuotedToken(Field("response", response));
    QopToken();
  }

  /** A beginning of the last token with its '=' still has the name, and a value. */
  lemma {:induction false} CutLastToken(v: string, q: string)
    requires All(v, NotQuote) && q <= LastToken(v) && |q| >= 7
    ensures Tail(q) && ParseToken(q).Some?
    ensures ParseToken(q).value.name == "opaque" && ParseToken(q).value.value != None
  {
    hide TokenEnd, Whole, Trim, Span, IsGap;
    ClosingToken(v);
    CutIsTail(LastToken(v), q);
    var rest := q[6..];
    assert q[..7] == "opaque=" && q == "opaque" + rest && rest[0] == '=';
    assert LegalName("opaque") by { CloseEnds(); }
    NameSpan("opaque", rest);
  }

  lemma CutIsTail(t: string, q: string)
    requires Whole(t) && q <= t
    ensures Tail(q)
  {
    hide TokenEnd, IsGap;
    CutToken(t, q, false);
  }

  /** The server reads the answer as long as "opaque=" has not been cut: all seven fields, the
      user name and the response as they were meant. */
  lemma {:induction false} AnswerIsRead(username: string, realm: string, clientNonce: string, response: string,
                                        opaqueText: string, q: string)
    requires Quotable(username) && Quotable(realm) && Quotable(clientNonce)
    requires Quotable(response) && Quotable(opaqueText)
    requires q <= LastToken(opaqueText) && |q| >= 7
    ensures var text := JoinTokens(FirstTokens(username, realm, clientNonce, response) + [q], "");
            var fields := Stored(map[], Pairs(text));
            && fields.Some? && HasNeeded(fields.value)
            && fields.value[NEEDED[0]] == username && fields.value[NEEDED[5]] == response
  {
    hide Pairs, JoinTokens, Stored, ParseTokens, ParseToken, Whole, Tail, FirstTokens, LastToken, Quotable, LastNamed;
    var tokens := FirstTokens(username, realm, clientNonce, response) + [q];
    FirstTokensParse(username, realm, clientNonce, response);
    Unquoted(opaqueText);
    CutLastToken(opaqueText, q);
    assert Separate(tokens) && tokens[0] == tokens[..6][0] && tokens[5] == tokens[..6][5];
    TokensComeApart(tokens, "");
    ParseTokensAt(tokens);
    var pairs := ParseTokens(tokens);
    assert forall i | 0 <= i < 7 :: pairs[i].name == NEEDED[i] && pairs[i].value != None;
    NeededAreStored(pairs);
  }

  lemma Unquoted(v: string)
    requires Quotable(v)
    ensures All(v, NotQuote)
  {
  }

  lemma {:induction false} NeededAreStored(pairs: seq<Pair>)
    requires |pairs| == 7 && forall i | 0 <= i < 7 :: pairs[i].name == NEEDED[i] && pairs[i].value != None
    ensures var fields := Stored(map[], pairs);
            && fields.Some? && HasNeeded(fields.value)
            && forall i | 0 <= i < 7 :: Some(fields.value[NEEDED[i]]) == pairs[i].value
  {
    hide Stored, LastNamed;
    NeededDiffer();
    ServerTakesLast(pairs);
    var fields := Stored(map[], pairs).value;
    forall i | 0 <= i < 7 ensures NEEDED[i] in fields && Some(fields[NEEDED[i]]) == pairs[i].value {
      LastNamedAt(pairs, i);
      assert LastNamed(pairs, NEEDED[i]) == pairs[i].value;
    }
  }

  // ---------------------------------------------------------------- the whole exchange

  function Total(tokens: seq<string>): nat {
    if tokens == [] then 0 else |tokens[0]| + 1 + Total(tokens[1..])
  }

  lemma {:induction false} JoinedLength(tokens: seq<string>)
    requires tokens != []
    ensures |JoinTokens(tokens, "")| + 1 == Total(tokens)
    decreases |tokens|
  {
    if |tokens| > 1 {
      JoinedLength(tokens[1..]);
    } else {
      assert tokens[1..] == [];
    }
  }

  lemma {:induction false} AnswerLength(tokens: seq<string>)
    requires |tokens| == 7
    ensures |JoinTokens(tokens, "")| == |tokens[0]| + |tokens[1]| + |tokens[2]| + |tokens[3]| + |tokens[4]|
                                        + |tokens[5]| + |tokens[6]| + 6
  {
    hide JoinTokens;
    JoinedLength(tokens);
    assert Total(tokens[6..]) == |tokens[6]| + 1 by { assert tokens[6..][1..] == []; }
    forall i | 0 <= i < 6 ensures Total(tokens[i..]) == |tokens[i]| + 1 + Total(tokens[i..][1..]) {
    }
    assert tokens[5..][1..] == tokens[6..] && tokens[4..][1..] == tokens[5..] && tokens[3..][1..] == tokens[4..];
    assert tokens[2..][1..] == tokens[3..] && tokens[1..][1..] == tokens[2..] && tokens[0..][1..] == tokens[1..];
    assert tokens[0..] == tokens;
  }

  lemma ResponseIsHex(ha1: string, nonce: string)
    ensures Quotable(Response(ha1, nonce)) && |Response(ha1, nonce)| == 32
  {
    hide Md5.MessageDigest, Md5.Hex, Quotable;
    HexIsQuotable(Md5.MessageDigest(Bytes(ha1 + ":" + nonce + ":" + HashHex("GET:/login"))));
  }

  /** Up to here "opaque=" survives in the client's buffer. */
  const LOGIN_LIMIT := 401

  /** The answer as the client sends it: cut after 511 characters, 504 of them tokens. */
  lemma {:induction false} AnswerIs(s: Server, username: string, password: string, clientNonce: string)
    requires Quotable(s.realm) && Quotable(s.nonce) && Quotable(s.opaqueText)
    ensures var a := Answer(username, password, clientNonce, ChallengeHeader(s));
            var response := Response(Secret(username, s.realm, password), s.nonce);
            var joined := JoinTokens(AnswerTokens(username, s.realm, clientNonce, response, s.opaqueText), "");
            && a.Some? && |a.value| >= 7
            && a.value[7..] == if |joined| < 505 then joined else joined[..504]
  {
    hide Pairs, JoinTokens, Stacked, Taken, Response, Secret, Quotable, Texts, AnswerTokens;
    ChallengeIsRead(s);
    var response := Response(Secret(username, s.realm, password), s.nonce);
    var joined := JoinTokens(AnswerTokens(username, s.realm, clientNonce, response, s.opaqueText), "");
    var text := "Digest " + joined;
    assert text[7..] == joined;
    if |joined| >= 505 {
      assert text[..511][7..] == joined[..504];
    }
  }

  /** What is in front of the last token, and how long it is. */
  lemma {:induction false} BeforeLast(username: string, realm: string, clientNonce: string, response: string,
                                      opaqueText: string)
    requires |response| == 32
    ensures var head := JoinTokens(FirstTokens(username, realm, clientNonce, response) + [""], "");
            && |head| == 96 + |username| + |realm| + |clientNonce|
            && JoinTokens(AnswerTokens(username, realm, clientNonce, response, opaqueText), "")
               == head + LastToken(opaqueText)
            && |LastToken(opaqueText)| == |opaqueText| + 10
  {
    hide JoinTokens;
    var first := FirstTokens(username, realm, clientNonce, response);
    AnswerLength(first + [""]);
    LastJoined(first, LastToken(opaqueText));
  }

  /** The two ways an answer can be cut: behind "opaque=", or before its end. */
  lemma {:induction false} AnswerIsCut(s: Server, username: string, password: string, clientNonce: string)
    returns (q: string)
    requires Quotable(s.realm) && Quotable(s.nonce) && Quotable(s.opaqueText)
    ensures var a := Answer(username, password, clientNonce, ChallengeHeader(s));
            var response := Response(Secret(username, s.realm, password), s.nonce);
            var first := FirstTokens(username, s.realm, clientNonce, response);
            var size := |username| + |s.realm| + |clientNonce|;
            && a.Some? && |a.value| >= 7
            && (size <= 408 ==>
                  && q <= LastToken(s.opaqueText) && (size <= LOGIN_LIMIT <==> |q| >= 7)
                  && (size > LOGIN_LIMIT ==> |q| == 408 - size)
                  && a.value[7..] == JoinTokens(first + [q], ""))
            && (size > 408 ==> a.value[7..] <= JoinTokens(first + [""], ""))
  {
    hide Answer, JoinTokens, FirstTokens, LastToken, Response, Secret, Quotable, ChallengeHeader;
    var response := Response(Secret(username, s.realm, password), s.nonce);
    ResponseIsHex(Secret(username, s.realm, password), s.nonce);
    AnswerIs(s, username, password, clientNonce);
    BeforeLast(username, s.realm, clientNonce, response, s.opaqueText);
    var first, last := FirstTokens(username, s.realm, clientNonce, response), LastToken(s.opaqueText);
    var head := JoinTokens(first + [""], "");
    var joined := head + last;
    if |joined| < 505 {
      q := last;
      LastJoined(first, q);
    } else if |head| <= 504 {
      q := last[..504 - |head|];
      assert joined[..504] == head + q;
      LastJoined(first, q);
    } else {
      q := "";
      assert joined[..504] == head[..504];
    }
  }

  /** Once "opaque=" is cut, the answer does not log anybody in: the server misses the field,
      or takes a name without a value. */
  lemma {:induction false} CutAnswerFails(username: string, realm: string, clientNonce: string, response: string,
                                          opaqueText: string, p: string)
    requires Quotable(username) && Quotable(realm) && Quotable(clientNonce)
    requires Quotable(response) && Quotable(opaqueText)
    requires var first := FirstTokens(username, realm, clientNonce, response);
             || p <= JoinTokens(first + [""], "")
             || exists q :: q <= LastToken(opaqueText) && |q| < 7 && p == JoinTokens(first + [q], "")
    ensures var fields := Stored(map[], Pairs(p)); fields == None || !HasNeeded(fields.value)
  {
    hide Pairs, JoinTokens, Stored, ParseTokens, ParseToken, Whole, Tail, FirstTokens, LastToken, Quotable, HasNeeded;
    var first := FirstTokens(username, realm, clientNonce, response);
    FirstTokensParse(username, realm, clientNonce, response);
    if p <= JoinTokens(first + [""], "") {
      var j, q := CutTokens(first + [""], p);
      OpaqueIsMissing(first, j, q);
    } else {
      var q :| q <= LastToken(opaqueText) && |q| < 7 && p == JoinTokens(first + [q], "");
      OpaqueIsCut(first, opaqueText, q);
    }
  }

  /** A name starts as its token does. */
  lemma NameStarts(t: string)
    ensures ParseToken(t).Some? ==> t != "" && ParseToken(t).value.name != "" && ParseToken(t).value.name[0] == t[0]
  {
    hide Trim;
  }

  lemma {:induction false} OtherNames(tokens: seq<string>)
    requires forall i | 0 <= i < |tokens| :: tokens[i] != "" ==> tokens[i][0] != 'o'
    ensures forall k | 0 <= k < |ParseTokens(tokens)| :: ParseTokens(tokens)[k].name != "opaque"
    decreases |tokens|
  {
    hide ParseToken;
    if tokens != [] {
      NameStarts(tokens[0]);
      OtherNames(tokens[1..]);
    }
  }

  lemma {:induction false} NeverNamed(pairs: seq<Pair>, name: string)
    requires forall k | 0 <= k < |pairs| :: pairs[k].name != name
    ensures LastNamed(pairs, name) == None
    decreases |pairs|
  {
    if pairs != [] {
      NeverNamed(pairs[..|pairs| - 1], name);
    }
  }

  lemma {:induction false} OpaqueIsMissing(first: seq<string>, j: nat, q: string)
    requires |first| == 6 && j < 7 && q <= (first + [""])[j]
    requires forall i | 0 <= i < 6 :: Whole(first[i]) && ParseToken(first[i]).Some?
    requires forall i | 0 <= i < 6 :: ParseToken(first[i]).value.name == NEEDED[i]
    ensures var fields := Stored(map[], Pairs(JoinTokens((first + [""])[..j] + [q], "")));
            fields == None || !HasNeeded(fields.value)
  {
    hide Pairs, JoinTokens, Stored, ParseTokens, ParseToken, Whole, Tail, LastNamed;
    var tokens := (first + [""])[..j] + [q];
    forall i | 0 <= i < |tokens|
      ensures if i < |tokens| - 1 then Whole(tokens[i]) else Tail(tokens[i])
      ensures tokens[i] != "" ==> tokens[i][0] != 'o'
    {
      if i < 6 {
        NameStarts(first[i]);
        FirstLetters(i);
        if i == j {
          CutIsTail(first[i], q);
        }
      } else {
        NothingIsTail();
      }
    }
    TokensComeApart(tokens, "");
    OtherNames(tokens);
    NeverNamed(ParseTokens(tokens), "opaque");
    ServerTakesLast(ParseTokens(tokens));
    assert NEEDED[6] == "opaque";
  }

  lemma NothingIsTail()
    ensures Tail("")
  {
  }

  lemma FirstLetters(i: nat)
    requires i < 6
    ensures NEEDED[i][0] != 'o'
  {
  }

  /** What is left of the last token: nothing, or a name without a value. */
  lemma {:induction false} OpaqueIsCut(first: seq<string>, opaqueText: string, q: string)
    requires |first| == 6 && Quotable(opaqueText) && q <= LastToken(opaqueText) && |q| < 7
    requires forall i | 0 <= i < 6 :: Whole(first[i]) && ParseToken(first[i]).Some?
    requires forall i | 0 <= i < 6 :: ParseToken(first[i]).value.name == NEEDED[i]
    ensures var fields := Stored(map[], Pairs(JoinTokens(first + [q], "")));
            && (fields == None || !HasNeeded(fields.value))
            && (q != "" ==> fields == None)
  {
    hide Pairs, JoinTokens, Stored, ParseTokens, ParseToken, Whole, Tail, LastToken, Quotable, HasNeeded;
    if q == "" {
      assert (first + [""])[..6] == first;
      OpaqueIsMissing(first, 6, q);
    } else {
      var tokens := first + [q];
      Unquoted(opaqueText);
      ClosingToken(opaqueText);
      CutIsTail(LastToken(opaqueText), q);
      NoValue(opaqueText, q);
      assert Separate(tokens);
      TokensComeApart(tokens, "");
      ParseTokensAt(tokens);
      assert ParseTokens(tokens)[6].value == None;
      ServerTakesLast(ParseTokens(tokens));
    }
  }

  lemma {:induction false} NoValue(v: string, q: string)
    requires All(v, NotQuote) && q <= LastToken(v) && 0 < |q| < 7
    ensures ParseToken(q).Some? && ParseToken(q).value.value == None
  {
    hide Trim, Whole, LastToken;
    ClosingToken(v);
    assert q == "opaque"[..|q|];
    OnlyName(q);
  }

  lemma {:induction false} OnlyName(q: string)
    requires All(q, NotEquals)
    ensures Span(q, NotEquals) == |q|
  {
    if q != "" {
      OnlyName(q[1..]);
    }
  }

  /** For every length: an answer to one server's challenge logs in at a server, as the user it
      names, if and only if "opaque=" survives in the client's buffer, the user is known there,
      and the secret kept for the user answers that server's challenge as the one made from the
      password answered the challenge it was made for. */
  lemma {:induction false} AnswerSucceedsIff(c: Server, s: Server, username: string, password: string,
                                             clientNonce: string)
    requires Quotable(c.realm) && Quotable(c.nonce) && Quotable(c.opaqueText)
    requires Quotable(username) && Quotable(clientNonce)
    ensures var a := Answer(username, password, clientNonce, ChallengeHeader(c));
            && a.Some? && |a.value| >= 7
            && Decide(s, a.value) ==
               if |username| + |c.realm| + |clientNonce| <= LOGIN_LIMIT && username in s.users &&
                  Response(s.users[username], s.nonce) == Response(Secret(username, c.realm, password), c.nonce)
               then Some(username) else None
  {
    hide Answer, FirstTokens, LastToken, ChallengeHeader, Quotable, Response, Secret;
    hide Pairs, Stored, JoinTokens, HasNeeded;
    var response := Response(Secret(username, c.realm, password), c.nonce);
    var size := |username| + |c.realm| + |clientNonce|;
    ResponseIsHex(Secret(username, c.realm, password), c.nonce);
    var q := AnswerIsCut(c, username, password, clientNonce);
    if size <= LOGIN_LIMIT {
      AnswerIsRead(username, c.realm, clientNonce, response, c.opaqueText, q);
    } else {
      var a := Answer(username, password, clientNonce, ChallengeHeader(c)).value;
      CutAnswerFails(username, c.realm, clientNonce, response, c.opaqueText, a[7..]);
    }
  }

  /** In particular, when it is the same server. */
  lemma {:induction false} LoginSucceedsIff(s: Server, username: string, password: string, clientNonce: string)
    requires Quotable(s.realm) && Quotable(s.nonce) && Quotable(s.opaqueText)
    requires Quotable(username) && Quotable(clientNonce)
    ensures var a := Answer(username, password, clientNonce, ChallengeHeader(s));
            && a.Some? && |a.value| >= 7
            && Decide(s, a.value) ==
               if |username| + |s.realm| + |clientNonce| <= LOGIN_LIMIT && username in s.users &&
                  Response(s.users[username], s.nonce) == Response(Secret(username, s.realm, password), s.nonce)
               then Some(username) else None
  {
    hide Answer, ChallengeHeader, Quotable, Response, Secret, Decide;
    AnswerSucceedsIff(s, s, username, password, clientNonce);
  }

  /** One to six characters too long, and the cut leaves a name without '=', which the server
      makes into a string from a null pointer. */
  lemma {:induction false} CutNameIsUndefined(s: Server, username: string, password: string, clientNonce: string)
    requires Quotable(s.realm) && Quotable(s.nonce) && Quotable(s.opaqueText)
    requires Quotable(username) && Quotable(clientNonce)
    requires LOGIN_LIMIT < |username| + |s.realm| + |clientNonce| <= LOGIN_LIMIT + 6
    ensures var a := Answer(username, password, clientNonce, ChallengeHeader(s));
            a.Some? && |a.value| >= 7 && Stored(map[], Pairs(a.value[7..])) == None
  {
    hide Answer, FirstTokens, LastToken, ChallengeHeader, Quotable, Response, Secret, Pairs, Stored, JoinTokens;
    hide ParseToken, Whole;
    var response := Response(Secret(username, s.realm, password), s.nonce);
    ResponseIsHex(Secret(username, s.realm, password), s.nonce);
    var q := AnswerIsCut(s, username, password, clientNonce);
    FirstTokensParse(username, s.realm, clientNonce, response);
    OpaqueIsCut(FirstTokens(username, s.realm, clientNonce, response), s.opaqueText, q);
  }

  /** Registration: the server keeps the secret made from the same three parts, unless the
      name is taken. */
  function Register(s: Server, username: string, password: string, inserted: bool): Server {
    if inserted then s.(users := s.users[username := Secret(username, s.realm, password)]) else s
  }

  /** Whoever registered logs in with the same password, whoever else registered since, if and
      only if the name is short enough for the answer to keep "opaque=". */
  lemma {:induction false} RegisteredUserLogsIn(s: Server, username: string, password: string,
                                                others: seq<(string, string)>, clientNonce: string)
    requires Quotable(s.realm) && Quotable(s.nonce) && Quotable(s.opaqueText)
    requires Quotable(username) && Quotable(clientNonce)
    requires forall i | 0 <= i < |others| :: others[i].0 != username
    ensures var t := RegisterAll(Register(s, username, password, true), others);
            var a := Answer(username, password, clientNonce, ChallengeHeader(t));
            && a.Some? && |a.value| >= 7
            && (Decide(t, a.value) == Some(username) <==> |username| + |s.realm| + |clientNonce| <= LOGIN_LIMIT)
  {
    hide Answer, ChallengeHeader, Quotable, Response, Secret, Decide;
    var r := Register(s, username, password, true);
    var t := RegisterAll(r, others);
    SecretsStay(r, others, username);
    LoginSucceedsIff(t, username, password, clientNonce);
  }

  function RegisterAll(s: Server, others: seq<(string, string)>): Server
    decreases |others|
  {
    if others == [] then s else
      var k := |others| - 1;
      Register(RegisterAll(s, others[..k]), others[k].0, others[k].1, true)
  }

  lemma {:induction false} SecretsStay(s: Server, others: seq<(string, string)>, username: string)
    requires username in s.users && forall i | 0 <= i < |others| :: others[i].0 != username
    ensures var t := RegisterAll(s, others);
            && t.realm == s.realm && t.nonce == s.nonce && t.opaqueText == s.opaqueText
            && username in t.users && t.users[username] == s.users[username]
    decreases |others|
  {
    hide Secret;
    if others != [] {
      SecretsStay(s, others[..|others| - 1], username);
    }
  }

  // ---------------------------------------------------------------- what an answer proves

  /** A character that stands for a byte. */
  predicate IsByte(c: char) {
    c as int < 256
  }

  lemma {:induction false} BytesAreInjective(s: string, s': string)
    requires All(s, IsByte) && All(s', IsByte) && Bytes(s) == Bytes(s')
    ensures s == s'
  {
    assert |s| == |Bytes(s)| == |Bytes(s')| == |s'|;
    forall i | 0 <= i < |s| ensures s[i] == s'[i] {
      assert Bytes(s)[i] == s[i] as int && Bytes(s')[i] == s'[i] as int;
    }
  }

  lemma BytesConcat(a: string, b: string)
    ensures Bytes(a + b) == Bytes(a) + Bytes(b)
  {
  }

  /** Different parts between the same ends make different bytes. */
  lemma {:induction false} MiddleShows(a: string, s: string, s': string, b: string)
    requires All(s, IsByte) && All(s', IsByte) && Bytes(a + s + b) == Bytes(a + s' + b)
    ensures s == s'
  {
    hide Bytes;
    BytesConcat(a + s, b);
    BytesConcat(a + s', b);
    BytesConcat(a, s);
    BytesConcat(a, s');
    BytesLength(a, s, b);
    BytesLength(a, s', b);
    var n, m := |a|, |a| + |s|;
    assert (Bytes(a) + Bytes(s) + Bytes(b))[n..m] == Bytes(s);
    assert (Bytes(a) + Bytes(s') + Bytes(b))[n..m] == Bytes(s');
    BytesAreInjective(s, s');
  }

  lemma BytesLength(a: string, s: string, b: string)
    ensures |Bytes(a)| == |a| && |Bytes(s)| == |s| && |Bytes(b)| == |b| && |Bytes(a + s + b)| == |a| + |s| + |b|
  {
  }

  /** Two messages that MD5 does not tell apart. */
  predicate Collide(x: seq<Md5Block.byte>, y: seq<Md5Block.byte>) {
    x != y && Md5.MessageDigest(x) == Md5.MessageDigest(y)
  }

  lemma {:induction false} HashIsHex(s: string)
    ensures |HashHex(s)| == 32 && All(HashHex(s), IsByte)
  {
    hide Md5.MessageDigest, Md5.Hex, Bytes;
    HexIsQuotable(Md5.MessageDigest(Bytes(s)));
    assert forall c | IsHexDigit(c) :: IsByte(c);
  }

  /** Texts hashed alike are the same bytes or collide. */
  lemma {:induction false} HashedAlike(s: string, s': string)
    requires HashHex(s) == HashHex(s')
    ensures Bytes(s) == Bytes(s') || Collide(Bytes(s), Bytes(s'))
  {
    hide Md5.MessageDigest, Md5.Hex, Bytes;
    Md5.HexIsInjective(Md5.MessageDigest(Bytes(s)), Md5.MessageDigest(Bytes(s')));
  }

  /** If an answer logs in a user who registered with password `p`, it was made with that
      password and for that challenge, or two different texts that can be written down collide
      under MD5: those with the two passwords, or those with the digests of these and the two
      nonces. */
  lemma {:induction false} AcceptedAnswerIsGenuine(s: Server, c: Server, username: string, p: string, q: string,
                                                   others: seq<(string, string)>, clientNonce: string)
    requires Quotable(c.realm) && Quotable(c.nonce) && Quotable(c.opaqueText) && c.realm == s.realm
    requires Quotable(username) && Quotable(clientNonce)
    requires forall i | 0 <= i < |others| :: others[i].0 != username
    requires All(p, IsByte) && All(q, IsByte) && All(s.nonce, IsByte) && All(c.nonce, IsByte)
    ensures var t := RegisterAll(Register(s, username, p, true), others);
            var a := Answer(username, q, clientNonce, ChallengeHeader(c));
            var (x, y) := (username + ":" + s.realm + ":" + p, username + ":" + s.realm + ":" + q);
            var end := ":" + HashHex("GET:/login");
            && a.Some? && |a.value| >= 7
            && (Decide(t, a.value) == Some(username) ==>
                  || (p == q && c.nonce == s.nonce)
                  || Collide(Bytes(x), Bytes(y))
                  || Collide(Bytes(HashHex(x) + ":" + s.nonce + end), Bytes(HashHex(y) + ":" + c.nonce + end)))
  {
    hide Answer, ChallengeHeader, Quotable, Response, Secret, Decide, Collide, Bytes, HashHex, IsByte;
    var t := RegisterAll(Register(s, username, p, true), others);
    SecretsStay(Register(s, username, p, true), others, username);
    AnswerSucceedsIff(c, t, username, q, clientNonce);
    if Response(Secret(username, s.realm, p), s.nonce) == Response(Secret(username, s.realm, q), c.nonce) {
      SameResponse(username, s.realm, p, q, s.nonce, c.nonce);
    }
  }

  lemma {:induction false} SameResponse(username: string, realm: string, p: string, q: string, nonce: string,
                                        nonce': string)
    requires Response(Secret(username, realm, p), nonce) == Response(Secret(username, realm, q), nonce')
    requires All(p, IsByte) && All(q, IsByte) && All(nonce, IsByte) && All(nonce', IsByte)
    ensures var (x, y) := (username + ":" + realm + ":" + p, username + ":" + realm + ":" + q);
            var end := ":" + HashHex("GET:/login");
            || (p == q && nonce == nonce')
            || Collide(Bytes(x), Bytes(y))
            || Collide(Bytes(HashHex(x) + ":" + nonce + end), Bytes(HashHex(y) + ":" + nonce' + end))
  {
    hide Collide, Bytes, HashHex, IsByte;
    var front := username + ":" + realm + ":";
    var (x, y, end) := (front + p, front + q, ":" + HashHex("GET:/login"));
    HashIsHex("GET:/login");
    HashIsHex(x);
    HashIsHex(y);
    assert Secret(username, realm, p) == HashHex(x) && Secret(username, realm, q) == HashHex(y);
    var (u, v) := (HashHex(x) + ":" + nonce, HashHex(y) + ":" + nonce');
    assert u + end == HashHex(x) + ":" + nonce + ":" + HashHex("GET:/login");
    assert v + end == HashHex(y) + ":" + nonce' + ":" + HashHex("GET:/login");
    HashedAlike(u + end, v + end);
    if Bytes(u + end) == Bytes(v + end) {
      SameParts(HashHex(x), nonce, HashHex(y), nonce', end);
      HashedAlike(x, y);
      if Bytes(x) == Bytes(y) {
        assert x + "" == x && y + "" == y;
        MiddleShows(front, p, q, "");
      }
    }
  }

  /** The digest takes 32 characters, so digest and nonce come apart. */
  lemma {:induction false} SameParts(h: string, nonce: string, h': string, nonce': string, end: string)
    requires |h| == |h'| == 32 && All(h, IsByte) && All(h', IsByte) && All(nonce, IsByte) && All(nonce', IsByte)
    requires Bytes(h + ":" + nonce + end) == Bytes(h' + ":" + nonce' + end)
    ensures h == h' && nonce == nonce'
  {
    hide Bytes;
    var (u, v) := (h + ":" + nonce, h' + ":" + nonce');
    ColonIsByte(h, nonce);
    ColonIsByte(h', nonce');
    assert "" + u == u && "" + v == v;
    MiddleShows("", u, v, end);
    assert u[..32] == h && v[..32] == h' && u[33..] == nonce && v[33..] == nonce';
  }

  lemma ColonIsByte(h: string, nonce: string)
    requires All(h, IsByte) && All(nonce, IsByte)
    ensures All(h + ":" + nonce, IsByte)
  {
  }
}
