/** What the digest tokenizer makes of printed text, and how its two copies differ. */
module DigestRoundTrip {
  import opened Chars
  import opened Digests

  predicate NotQuote(c: char) {
    c != '"'
  }

  /** Characters of a name: no quote, comma, '=' or whitespace. */
  predicate IsNameChar(c: char) {
    c != '"' && c != '=' && !IsGap(c)
  }

  ghost predicate LegalName(name: string) {
    name != "" && All(name, IsNameChar)
  }

  /** Nothing at the ends that trimming would take. */
  predicate Untrimmed(v: string) {
    v == "" || (!IsLeading(v[0]) && !IsTrailing(v[|v| - 1]))
  }

  // ---------------------------------------------------------------- tokens

  /** The quotes flag after a text. */
  function Flag(t: string, quoted: bool): bool {
    if t == "" then quoted else Flag(t[1..], if t[0] == '"' then !quoted else quoted)
  }

  /** A text that is one token whatever comes after the next comma. */
  ghost predicate Whole(t: string) {
    t != "" && !IsGap(t[0]) && TokenEnd(t, false) == |t| && !Flag(t, false)
  }

  lemma {:induction false} TokenGoesOn(t: string, quoted: bool, rest: string)
    requires TokenEnd(t, quoted) == |t|
    ensures TokenEnd(t + rest, quoted) == |t| + TokenEnd(rest, Flag(t, quoted))
    decreases |t|
  {
    if t == "" {
      assert t + rest == rest;
    } else {
      assert (t + rest)[1..] == t[1..] + rest;
      TokenGoesOn(t[1..], if t[0] == '"' then !quoted else quoted, rest);
    }
  }

  lemma {:induction false} FlagConcat(a: string, b: string, quoted: bool)
    ensures Flag(a + b, quoted) == Flag(b, Flag(a, quoted))
    decreases |a|
  {
    if a == "" {
      assert a + b == b;
    } else {
      assert (a + b)[1..] == a[1..] + b;
      FlagConcat(a[1..], b, if a[0] == '"' then !quoted else quoted);
    }
  }

  function JoinTokens(tokens: seq<string>, gap: string): string {
    if tokens == [] then ""
    else if |tokens| == 1 then tokens[0]
    else tokens[0] + "," + gap + JoinTokens(tokens[1..], gap)
  }

  function ParseTokens(tokens: seq<string>): seq<Pair> {
    if tokens == [] then []
    else if ParseToken(tokens[0]).Some? then [ParseToken(tokens[0]).value] + ParseTokens(tokens[1..])
    else ParseTokens(tokens[1..])
  }

  lemma {:induction false} GapThen(gap: string, rest: string)
    requires All(gap, IsGap) && (rest != "" ==> !IsGap(rest[0]))
    ensures (gap + rest)[Span(gap + rest, IsGap)..] == rest
    decreases |gap|
  {
    if gap == "" {
      assert gap + rest == rest;
    } else {
      var s := gap + rest;
      assert s[1..] == gap[1..] + rest && IsGap(s[0]);
      GapThen(gap[1..], rest);
      assert s[Span(s, IsGap)..] == s[1..][Span(s[1..], IsGap)..];
    }
  }

  lemma {:induction false} FirstToken(t: string, gap: string, rest: string)
    requires Whole(t) && All(gap, IsGap) && (rest != "" ==> !IsGap(rest[0]))
    ensures var s := t + "," + gap + rest; Token(s) == t && Rest(s) == rest
  {
    hide IsGap, Span;
    var s, tail := t + "," + gap + rest, "," + (gap + rest);
    assert s == t + tail;
    TokenGoesOn(t, false, tail);
    assert TokenEnd(tail, false) == 0;
    assert s[..|t|] == t && s[|t| + 1..] == gap + rest;
    GapThen(gap, rest);
  }

  /** A text that is one token, or none, at the end of everything. */
  ghost predicate Tail(t: string) {
    TokenEnd(t, false) == |t| && (t != "" ==> !IsGap(t[0]))
  }

  /** Tokens, the last of which may be cut off. */
  ghost predicate Separate(tokens: seq<string>) {
    forall i | 0 <= i < |tokens| :: if i < |tokens| - 1 then Whole(tokens[i]) else Tail(tokens[i])
  }

  lemma WholeAreSeparate(tokens: seq<string>)
    requires forall i | 0 <= i < |tokens| :: Whole(tokens[i])
    ensures Separate(tokens)
  {
    hide TokenEnd, IsGap;
  }

  /** Tokens joined by commas, and any gap behind each, come out again one by one. */
  lemma {:induction false} TokensComeApart(tokens: seq<string>, gap: string)
    requires All(gap, IsGap) && Separate(tokens)
    ensures Pairs(JoinTokens(tokens, gap)) == ParseTokens(tokens)
    decreases |tokens|
  {
    hide ParseToken, Whole, Tail, IsGap, TokenEnd;
    if |tokens| == 1 {
      var t := tokens[0];
      OneToken(t);
      assert tokens[1..] == [];
      assert Pairs(t) == ParseTokens(tokens);
    } else if tokens != [] {
      var t, rest := tokens[0], JoinTokens(tokens[1..], gap);
      assert Separate(tokens[1..]);
      JoinedStarts(tokens[1..], gap);
      FirstToken(t, gap, rest);
      TokensComeApart(tokens[1..], gap);
      FirstIsThere(t, gap, rest);
    }
  }

  lemma FirstIsThere(t: string, gap: string, rest: string)
    ensures t + "," + gap + rest != ""
  {
  }

  lemma OneToken(t: string)
    requires Tail(t)
    ensures t != "" ==> Token(t) == t && Rest(t) == ""
    ensures t == "" ==> Pairs(t) == [] && ParseToken(t) == None
  {
  }

  lemma JoinedStarts(tokens: seq<string>, gap: string)
    requires tokens != [] && Separate(tokens)
    ensures JoinTokens(tokens, gap) != "" ==> !IsGap(JoinTokens(tokens, gap)[0])
  {
    hide IsGap, TokenEnd;
    assert if 0 < |tokens| - 1 then Whole(tokens[0]) else Tail(tokens[0]);
  }

  /** A beginning of one token is one token. */
  lemma {:induction false} CutToken(t: string, q: string, quoted: bool)
    requires q <= t && TokenEnd(t, quoted) == |t|
    ensures TokenEnd(q, quoted) == |q|
    decreases |q|
  {
    if q != "" {
      assert q[0] == t[0];
      CutToken(t[1..], q[1..], if q[0] == '"' then !quoted else quoted);
    }
  }

  /** A beginning of joined tokens is some of the tokens and a beginning of the next. */
  lemma {:induction false} CutTokens(tokens: seq<string>, p: string) returns (j: nat, q: string)
    requires tokens != [] && p <= JoinTokens(tokens, "")
    ensures j < |tokens| && q <= tokens[j] && p == JoinTokens(tokens[..j] + [q], "")
    decreases |tokens|
  {
    var t := tokens[0];
    if |p| <= |t| {
      j, q := 0, p;
      assert p <= t;
    } else {
      var rest := JoinTokens(tokens[1..], "");
      assert JoinTokens(tokens, "") == t + "," + rest;
      assert p[..|t|] == t && p[|t|] == ',' && p[|t| + 1..] <= rest;
      j, q := CutTokens(tokens[1..], p[|t| + 1..]);
      var cut := tokens[1..][..j] + [q];
      assert tokens[..j + 1] + [q] == [t] + cut && ([t] + cut)[1..] == cut;
      assert p == t + "," + p[|t| + 1..];
      assert t + "," + "" + p[|t| + 1..] == t + "," + p[|t| + 1..];
      j := j + 1;
    }
  }

  /** The last token comes last in the text. */
  lemma {:induction false} LastJoined(tokens: seq<string>, q: string)
    ensures JoinTokens(tokens + [q], "") == JoinTokens(tokens + [""], "") + q
    decreases |tokens|
  {
    if tokens == [] {
      assert tokens + [q] == [q] && tokens + [""] == [""] && "" + q == q;
    } else {
      var t := tokens[0];
      assert (tokens + [q])[1..] == tokens[1..] + [q] && (tokens + [""])[1..] == tokens[1..] + [""];
      LastJoined(tokens[1..], q);
      ConcatAssoc(t + "," + "", JoinTokens(tokens[1..] + [""], ""), q);
    }
  }

  // ---------------------------------------------------------------- name="value"

  datatype Field = Field(name: string, value: string)

  function Quoted(f: Field): string {
    f.name + "=\"" + f.value + "\""
  }

  ghost predicate LegalField(f: Field) {
    LegalName(f.name) && All(f.value, NotQuote)
  }

  lemma {:induction false} NameIsPlain(name: string)
    requires All(name, IsNameChar)
    ensures TokenEnd(name, false) == |name| && !Flag(name, false)
    decreases |name|
  {
    if name != "" {
      NameIsPlain(name[1..]);
    }
  }

  lemma {:induction false} ValueIsQuoted(value: string)
    requires All(value, NotQuote)
    ensures TokenEnd(value, true) == |value| && Flag(value, true)
    decreases |value|
  {
    if value != "" {
      ValueIsQuoted(value[1..]);
    }
  }

  lemma {:induction false} QuotedIsWhole(f: Field)
    requires LegalField(f)
    ensures Whole(Quoted(f))
  {
    hide TokenEnd, Flag;
    var t := Quoted(f);
    var a, b, c := f.name, "=\"", f.value;
    NameIsPlain(a);
    ValueIsQuoted(c);
    Ends();
    assert t == a + (b + (c + "\""));
    TokenGoesOn(a, false, b + (c + "\""));
    TokenGoesOn(b, false, c + "\"");
    TokenGoesOn(c, true, "\"");
    FlagConcat(a, b + (c + "\""), false);
    FlagConcat(b, c + "\"", false);
    FlagConcat(c, "\"", true);
    assert t[0] == a[0];
  }

  lemma Ends()
    ensures TokenEnd("=\"", false) == 2 && Flag("=\"", false)
    ensures TokenEnd("\"", true) == 1 && !Flag("\"", true)
  {
    assert "=\""[1..] == "\"";
  }

  lemma {:induction false} NameSpan(name: string, rest: string)
    requires All(name, IsNameChar) && rest != "" && rest[0] == '='
    ensures Span(name + rest, NotEquals) == |name|
    decreases |name|
  {
    if name == "" {
      assert name + rest == rest;
    } else {
      assert (name + rest)[1..] == name[1..] + rest;
      NameSpan(name[1..], rest);
    }
  }

  /** The value between quotes survives trimming exactly when it has nothing to trim. */
  lemma {:induction false} TrimQuotedIff(v: string)
    requires All(v, NotQuote)
    ensures Trim("\"" + v + "\"") == v <==> Untrimmed(v)
  {
    var s := "\"" + v + "\"";
    TrimIsShort(s);
    assert s[1..] == v + "\"" && s[1..][..|v|] == v && (v + "\"")[..|v|] == v;
    if v == "" {
      assert s == "\"\"" && s[1..] == "\"" && "\""[1..] == "";
      assert Span(s, IsLeading) == 2;
    } else if IsLeading(v[0]) {
      assert s[1..][0] == v[0];
      assert Span(s, IsLeading) >= 2;
    } else {
      assert s[1..][0] == v[0];
      assert Span(s, IsLeading) == 1;
      assert TrimRight(v + "\"") == TrimRight(v);
      if IsTrailing(v[|v| - 1]) {
        TrimRightIsShort(v[..|v| - 1]);
      }
    }
  }

  lemma {:induction false} TrimRightIsShort(v: string)
    ensures |TrimRight(v)| <= |v|
    ensures v != "" && IsTrailing(v[|v| - 1]) ==> |TrimRight(v)| < |v|
    decreases |v|
  {
    if v != "" && IsTrailing(v[|v| - 1]) {
      TrimRightIsShort(v[..|v| - 1]);
    }
  }

  /** When blanks in front are taken as well as both quotes, the value comes out shorter. */
  lemma {:induction false} TrimIsShort(s: string)
    requires s != "" && IsTrailing(s[|s| - 1])
    ensures |Trim(s)| <= |s| - Span(s, IsLeading) && (Span(s, IsLeading) < |s| ==> |Trim(s)| < |s| - Span(s, IsLeading))
  {
    TrimRightIsShort(s[Span(s, IsLeading)..]);
  }

  lemma {:induction false} QuotedParses(f: Field)
    requires LegalField(f)
    ensures ParseToken(Quoted(f)) == Some(Pair(f.name, Some(Trim("\"" + f.value + "\""))))
  {
    hide Span, Trim;
    var rest := "=\"" + f.value + "\"";
    assert Quoted(f) == f.name + rest;
    NameSpan(f.name, rest);
    assert (f.name + rest)[..|f.name|] == f.name;
    assert (f.name + rest)[|f.name| + 1..] == "\"" + f.value + "\"";
  }

  function Texts(fields: seq<Field>): (t: seq<string>)
    ensures |t| == |fields|
  {
    seq(|fields|, i requires 0 <= i < |fields| => Quoted(fields[i]))
  }

  function AsPairs(fields: seq<Field>): (p: seq<Pair>)
    ensures |p| == |fields|
  {
    seq(|fields|, i requires 0 <= i < |fields| => Pair(fields[i].name, Some(fields[i].value)))
  }

  function TrimmedPairs(fields: seq<Field>): (p: seq<Pair>)
    ensures |p| == |fields|
  {
    seq(|fields|, i requires 0 <= i < |fields| => Pair(fields[i].name, Some(Trim("\"" + fields[i].value + "\""))))
  }

  lemma {:induction false} TextsParse(fields: seq<Field>)
    requires forall i | 0 <= i < |fields| :: LegalField(fields[i])
    ensures ParseTokens(Texts(fields)) == TrimmedPairs(fields)
    decreases |fields|
  {
    hide ParseToken, Quoted, Trim;
    if fields != [] {
      QuotedParses(fields[0]);
      assert Texts(fields)[1..] == Texts(fields[1..]);
      TextsParse(fields[1..]);
    }
  }

  lemma {:induction false} PrintedPairs(fields: seq<Field>, gap: string)
    requires All(gap, IsGap) && forall i | 0 <= i < |fields| :: LegalField(fields[i])
    ensures Pairs(JoinTokens(Texts(fields), gap)) == TrimmedPairs(fields) && AllValued(TrimmedPairs(fields))
  {
    hide Pairs, JoinTokens, ParseTokens, Whole, Separate, Quoted, Trim;
    forall i | 0 <= i < |fields| ensures Whole(Texts(fields)[i]) {
      QuotedIsWhole(fields[i]);
    }
    WholeAreSeparate(Texts(fields));
    TokensComeApart(Texts(fields), gap);
    TextsParse(fields);
  }

  /** Round trip: the joined text gives back the pairs, inner commas and all, if and only if
      no value has anything at its ends to trim. */
  lemma {:induction false} DigestRoundTrips(fields: seq<Field>, gap: string)
    requires All(gap, IsGap) && forall i | 0 <= i < |fields| :: LegalField(fields[i])
    ensures Pairs(JoinTokens(Texts(fields), gap)) == AsPairs(fields)
            <==> forall i | 0 <= i < |fields| :: Untrimmed(fields[i].value)
  {
    hide Pairs, JoinTokens, Trim, Untrimmed;
    PrintedPairs(fields, gap);
    forall i | 0 <= i < |fields|
      ensures TrimmedPairs(fields)[i] == AsPairs(fields)[i] <==> Untrimmed(fields[i].value)
    {
      TrimQuotedIff(fields[i].value);
    }
  }

  // ---------------------------------------------------------------- the two copies

  /** The client takes pairs off the front of its list, the last value of a name winning,
      until it runs out or meets a missing value. */
  function Taken(list: seq<Option<string>>, name: string): Option<string>
    decreases |list|
  {
    if |list| < 2 || list[0] == None || list[1] == None then None else
      var later := Taken(list[2..], name);
      if later != None then later else if list[0].value == name then list[1] else None
  }

  function FirstNamed(pairs: seq<Pair>, name: string): Option<string> {
    if pairs == [] then None
    else if pairs[0].name == name then pairs[0].value
    else FirstNamed(pairs[1..], name)
  }

  function LastNamed(pairs: seq<Pair>, name: string): Option<string> {
    if pairs == [] then None else
      var k := |pairs| - 1;
      if pairs[k].name == name then pairs[k].value else LastNamed(pairs[..k], name)
  }

  ghost predicate AllValued(pairs: seq<Pair>) {
    forall i | 0 <= i < |pairs| :: pairs[i].value != None
  }

  lemma {:induction false} FirstNamedSnoc(pairs: seq<Pair>, p: Pair, name: string)
    requires AllValued(pairs)
    ensures FirstNamed(pairs + [p], name)
         == if FirstNamed(pairs, name) != None then FirstNamed(pairs, name)
            else if p.name == name then p.value else None
    decreases |pairs|
  {
    if pairs == [] {
      assert pairs + [p] == [p] && [p][1..] == [];
    } else {
      assert (pairs + [p])[1..] == pairs[1..] + [p];
      FirstNamedSnoc(pairs[1..], p, name);
    }
  }

  lemma {:induction false} ClientTakesFirst(pairs: seq<Pair>, name: string)
    requires AllValued(pairs)
    ensures Taken(Stacked(pairs), name) == FirstNamed(pairs, name)
    decreases |pairs|
  {
    if pairs != [] {
      hide FirstNamed;
      var k := |pairs| - 1;
      ClientTakesFirst(pairs[..k], name);
      FirstNamedSnoc(pairs[..k], pairs[k], name);
      assert pairs == pairs[..k] + [pairs[k]];
      assert Stacked(pairs)[2..] == Stacked(pairs[..k]);
    }
  }

  /** The server's map is defined exactly when every name has a value, and then holds the
      last value of each name. */
  lemma {:induction false} ServerTakesLast(pairs: seq<Pair>)
    ensures Stored(map[], pairs).Some? <==> AllValued(pairs)
    ensures var r := Stored(map[], pairs);
            r.Some? ==> forall name :: LastNamed(pairs, name) == if name in r.value then Some(r.value[name]) else None
    decreases |pairs|
  {
    if pairs != [] {
      var k := |pairs| - 1;
      ServerTakesLast(pairs[..k]);
      assert AllValued(pairs) <==> AllValued(pairs[..k]) && pairs[k].value != None;
    }
  }

  ghost predicate DistinctNames(pairs: seq<Pair>) {
    forall i, j | 0 <= i < j < |pairs| :: pairs[i].name != pairs[j].name
  }

  lemma {:induction false} DistinctFirstIsLast(pairs: seq<Pair>, name: string)
    requires AllValued(pairs) && DistinctNames(pairs)
    ensures FirstNamed(pairs, name) == LastNamed(pairs, name)
    decreases |pairs|
  {
    if pairs != [] {
      var k := |pairs| - 1;
      DistinctFirstIsLast(pairs[..k], name);
      FirstNamedSnoc(pairs[..k], pairs[k], name);
      assert pairs == pairs[..k] + [pairs[k]];
      if pairs[k].name == name {
        NotNamed(pairs[..k], name);
      }
    }
  }

  lemma {:induction false} NotNamed(pairs: seq<Pair>, name: string)
    requires forall i | 0 <= i < |pairs| :: pairs[i].name != name
    ensures FirstNamed(pairs, name) == None
    decreases |pairs|
  {
    if pairs != [] {
      NotNamed(pairs[1..], name);
    }
  }

  /** On any text in which every name has a value, the client ends up with the first value of
      a name and the server with the last, so they agree when names are distinct. */
  lemma {:induction false} CopiesTake(s: string, name: string)
    requires AllValued(Pairs(s))
    ensures Stored(map[], Pairs(s)).Some?
    ensures var m := Stored(map[], Pairs(s)).value;
            var (client, server) := (Taken(Stacked(Pairs(s)), name), if name in m then Some(m[name]) else None);
            && client == FirstNamed(Pairs(s), name) && server == LastNamed(Pairs(s), name)
            && (DistinctNames(Pairs(s)) ==> client == server)
  {
    hide Pairs, Stored, Stacked, Taken, FirstNamed, LastNamed, DistinctNames, AllValued;
    ClientTakesFirst(Pairs(s), name);
    ServerTakesLast(Pairs(s));
    if DistinctNames(Pairs(s)) {
      DistinctFirstIsLast(Pairs(s), name);
    }
  }

  /** First field of that name. */
  function FirstField(fields: seq<Field>, name: string): (f: Option<Field>)
    ensures f.Some? <==> exists g :: g in fields && g.name == name
    ensures f.Some? ==> f.value in fields && f.value.name == name
  {
    if fields == [] then None
    else if fields[0].name == name then Some(fields[0])
    else
      assert fields == [fields[0]] + fields[1..];
      FirstField(fields[1..], name)
  }

  function LastField(fields: seq<Field>, name: string): (f: Option<Field>)
    ensures f.Some? <==> exists g :: g in fields && g.name == name
    ensures f.Some? ==> f.value in fields && f.value.name == name
  {
    if fields == [] then None else
      var k := |fields| - 1;
      assert fields == fields[..k] + [fields[k]];
      if fields[k].name == name then Some(fields[k]) else LastField(fields[..k], name)
  }

  function ReadValue(f: Option<Field>): Option<string> {
    match f
    case None => None
    case Some(g) => Some(Trim("\"" + g.value + "\""))
  }

  lemma {:induction false} NamedFields(fields: seq<Field>, name: string)
    ensures FirstNamed(TrimmedPairs(fields), name) == ReadValue(FirstField(fields, name))
    decreases |fields|
  {
    hide Trim;
    if fields != [] {
      assert TrimmedPairs(fields)[1..] == TrimmedPairs(fields[1..]);
      NamedFields(fields[1..], name);
    }
  }

  lemma {:induction false} LastNamedFields(fields: seq<Field>, name: string)
    ensures LastNamed(TrimmedPairs(fields), name) == ReadValue(LastField(fields, name))
    decreases |fields|
  {
    hide Trim;
    if fields != [] {
      var k := |fields| - 1;
      assert TrimmedPairs(fields)[..k] == TrimmedPairs(fields[..k]);
      LastNamedFields(fields[..k], name);
    }
  }

  /** About a text printed from fields, the two copies agree on a name if and only if no field
      has the name or the first and the last field of that name carry the same trimmed value. */
  lemma {:induction false} CopiesAgreeIff(fields: seq<Field>, gap: string, name: string)
    requires All(gap, IsGap) && forall i | 0 <= i < |fields| :: LegalField(fields[i])
    ensures var s := JoinTokens(Texts(fields), gap);
            Stored(map[], Pairs(s)).Some?
    ensures var s := JoinTokens(Texts(fields), gap);
            var m := Stored(map[], Pairs(s)).value;
            var (client, server) := (Taken(Stacked(Pairs(s)), name), if name in m then Some(m[name]) else None);
            var (first, last) := (FirstField(fields, name), LastField(fields, name));
            && (client == None <==> first == None)
            && (client == server <==>
                  first == None || Trim("\"" + first.value.value + "\"") == Trim("\"" + last.value.value + "\""))
  {
    hide Pairs, Stored, Stacked, Taken, JoinTokens, FirstNamed, LastNamed, LegalField, FirstField, LastField, Trim;
    PrintedPairs(fields, gap);
    CopiesTake(JoinTokens(Texts(fields), gap), name);
    NamedFields(fields, name);
    LastNamedFields(fields, name);
  }
}
