/** The tokenizer of digest authentication headers (section 3.2 of RFC 2617), a cursor
    walked over a C string; the client collects the pairs in a list, the server in a map. */
module Digests {
  import opened Chars

  datatype Pair = Pair(name: string, value: Option<string>)

  predicate IsGap(c: char) {
    c == ' ' || c == ',' || c == '\t' || c == '\r' || c == '\n'
  }

  predicate IsLeading(c: char) {
    c == ' ' || c == '\t' || c == '\r' || c == '\n' || c == '"'
  }

  predicate IsTrailing(c: char) {
    IsLeading(c) || c == ','
  }

  predicate NotEquals(c: char) {
    c != '='
  }

  /** Length of the token in front: up to the first comma outside quotes. */
  function TokenEnd(s: string, quoted: bool): (e: nat)
    ensures e <= |s| && (e < |s| ==> s[e] == ',')
  {
    if s == "" || (!quoted && s[0] == ',') then 0
    else 1 + TokenEnd(s[1..], if s[0] == '"' then !quoted else quoted)
  }

  function TrimRight(v: string): string {
    if v != "" && IsTrailing(v[|v| - 1]) then TrimRight(v[..|v| - 1]) else v
  }

  function Trim(v: string): string {
    TrimRight(v[Span(v, IsLeading)..])
  }

  /** A token with a name: all up to the first '=', and the trimmed rest if there is one. */
  function ParseToken(t: string): Option<Pair> {
    var i := Span(t, NotEquals);
    if i == 0 then None
    else Some(Pair(t[..i], if i == |t| then None else Some(Trim(t[i + 1..]))))
  }

  function Token(s: string): string {
    s[..TokenEnd(s, false)]
  }

  /** What is left after the token in front and the gap behind it. */
  function Rest(s: string): (r: string)
    ensures |r| <= |s| && (s != "" ==> |r| < |s|)
  {
    var e := TokenEnd(s, false);
    if e == |s| then "" else
      var tail := s[e + 1..];
      tail[Span(tail, IsGap)..]
  }

  function Pairs(s: string): seq<Pair>
    decreases |s|
  {
    if s == "" then []
    else if ParseToken(Token(s)).Some? then [ParseToken(Token(s)).value] + Pairs(Rest(s))
    else Pairs(Rest(s))
  }

  /** Trimming takes the longest run of blanks, line ends and quotes off the front, and of
      these and commas off the end. */
  lemma {:induction false} TrimMeans(v: string)
    ensures exists i, j :: 0 <= i <= j <= |v| && IsTrimmed(v, i, j)
  {
    var i := Span(v, IsLeading);
    var j := TrimRightEnd(v[i..]);
    assert v[i..][..j] == v[i..i + j];
    assert forall k | 0 <= k < i :: v[k] == v[..i][k];
    assert forall k | i + j <= k < |v| :: v[k] == v[i..][k - i];
    assert IsTrimmed(v, i, i + j);
  }

  predicate IsTrimmed(v: string, i: int, j: int)
    requires 0 <= i <= j <= |v|
  {
    && Trim(v) == v[i..j]
    && (forall k | 0 <= k < i :: v[k] in " \t\r\n\"")
    && (forall k | j <= k < |v| :: v[k] in " \t\r\n\",")
    && (i < j ==> v[i] !in " \t\r\n\"" && v[j - 1] !in " \t\r\n\",")
  }

  lemma {:induction false} TrimRightEnd(v: string) returns (j: nat)
    ensures j <= |v| && TrimRight(v) == v[..j]
    ensures forall k | j <= k < |v| :: IsTrailing(v[k])
    ensures j > 0 ==> !IsTrailing(v[j - 1])
  {
    hide IsTrailing;
    j := |v|;
    if v != "" && IsTrailing(v[|v| - 1]) {
      j := TrimRightEnd(v[..|v| - 1]);
      assert v[..|v| - 1][..j] == v[..j];
    }
  }

  /** Between tokens everything goes up to the first character that is no blank, comma or line
      end. */
  lemma {:induction false} RestMeans(s: string)
    ensures var e, r := TokenEnd(s, false), |s| - |Rest(s)|;
            && (e == |s| ==> Rest(s) == "")
            && (e < |s| ==>
                  && e < r && s[e] == ',' && Rest(s) == s[r..]
                  && (forall k | e < k < r :: s[k] in " ,\t\r\n")
                  && (r < |s| ==> s[r] !in " ,\t\r\n"))
  {
    hide TokenEnd;
    var e := TokenEnd(s, false);
    if e < |s| {
      GapMeans(s, e + 1);
    }
  }

  lemma GapMeans(s: string, start: nat)
    requires start <= |s|
    ensures var r := start + Span(s[start..], IsGap);
            && s[start..][Span(s[start..], IsGap)..] == s[r..]
            && (forall k | start <= k < r :: s[k] in " ,\t\r\n")
            && (r < |s| ==> s[r] !in " ,\t\r\n")
  {
    var g := Span(s[start..], IsGap);
    assert forall k | start <= k < start + g :: s[k] == s[start..][..g][k - start];
  }

  // ---------------------------------------------------------------- the cursor

  lemma {:induction false} SpanOfPrefix(s: string, p: char -> bool, e: nat)
    requires e <= |s|
    ensures Span(s[..e], p) == if Span(s, p) < e then Span(s, p) else e
    decreases e
  {
    if e > 0 && p(s[0]) {
      assert s[..e][1..] == s[1..][..e - 1];
      SpanOfPrefix(s[1..], p, e - 1);
    }
  }

  /** The inner loop that looks for the end of the token. */
  method FindEnd(s: string, start: nat) returns (cur: nat)
    requires start <= |s|
    ensures cur == start + TokenEnd(s[start..], false)
  {
    cur := start;
    var inQuotes := false;
    while cur < |s| && (inQuotes || (!inQuotes && s[cur] != ','))
      invariant start <= cur <= |s|
      invariant start + TokenEnd(s[start..], false) == cur + TokenEnd(s[cur..], inQuotes)
    {
      assert s[cur..][1..] == s[cur + 1..];
      if s[cur] == '"' {
        inQuotes := !inQuotes;
      }
      cur := cur + 1;
    }
  }

  lemma SpanHead(s: string, lo: nat, hi: nat, p: char -> bool)
    requires lo <= hi <= |s|
    ensures Span(s[lo..hi], p) == if lo < hi && p(s[lo]) then 1 + Span(s[lo + 1..hi], p) else 0
  {
    assert lo < hi ==> s[lo..hi][1..] == s[lo + 1..hi];
  }

  lemma TrimRightStep(s: string, lo: nat, hi: nat)
    requires lo < hi <= |s|
    ensures TrimRight(s[lo..hi]) == if IsTrailing(s[hi - 1]) then TrimRight(s[lo..hi - 1]) else s[lo..hi]
  {
    assert s[lo..hi][..hi - 1 - lo] == s[lo..hi - 1];
  }

  /** The first trimming loop. */
  method SkipLeading(s: string, start: nat, cur: nat) returns (valStart: nat)
    requires start <= cur <= |s|
    ensures valStart == start + Span(s[start..cur], IsLeading)
  {
    hide Span, IsLeading;
    valStart := start;
    while valStart != cur && IsLeading(s[valStart])
      invariant start <= valStart <= cur
      invariant start + Span(s[start..cur], IsLeading) == valStart + Span(s[valStart..cur], IsLeading)
      decreases cur - valStart
    {
      SpanHead(s, valStart, cur, IsLeading);
      valStart := valStart + 1;
    }
    SpanHead(s, valStart, cur, IsLeading);
  }

  /** The second one starts at the end of the token, on a comma or the NUL. */
  method SkipTrailing(s: string, valStart: nat, cur: nat) returns (valEnd: int)
    requires valStart <= cur <= |s| && (cur < |s| ==> s[cur] == ',')
    ensures valStart - 1 <= valEnd < cur && s[valStart..valEnd + 1] == TrimRight(s[valStart..cur])
  {
    hide TrimRight;
    valEnd := cur;
    while valEnd >= valStart && (valEnd == |s| || IsTrailing(s[valEnd]))
      invariant valStart - 1 <= valEnd <= cur
      invariant valEnd == cur || TrimRight(s[valStart..cur]) == TrimRight(s[valStart..valEnd + 1])
    {
      if valEnd < cur {
        TrimRightStep(s, valStart, valEnd + 1);
      }
      valEnd := valEnd - 1;
    }
    if valEnd >= valStart {
      TrimRightStep(s, valStart, valEnd + 1);
    } else {
      assert s[valStart..valEnd + 1] == "";
      NothingToTrim();
    }
  }

  lemma NothingToTrim()
    ensures TrimRight("") == ""
  {
  }

  /** Name and value of the token from `start` to `cur`. */
  method ReadPair(s: string, start: nat, cur: nat) returns (pair: Option<Pair>)
    requires start <= cur <= |s| && (cur < |s| ==> s[cur] == ',')
    ensures pair == ParseToken(s[start..cur])
  {
    hide TrimRight, Span;
    ghost var token := s[start..cur];
    SpanOfPrefix(s[start..], NotEquals, cur - start);
    assert s[start..][..cur - start] == token;
    var valStart := start + Span(s[start..], NotEquals);
    if valStart == |s| || valStart > cur {
      valStart := cur;
    }
    if start == valStart {
      return None;
    }
    var name, value := s[start..valStart], None;
    assert name == token[..valStart - start];
    if valStart != cur {
      assert s[valStart + 1..cur] == token[valStart - start + 1..];
      var from := SkipLeading(s, valStart + 1, cur);
      assert s[valStart + 1..cur][from - valStart - 1..] == s[from..cur];
      var valEnd := SkipTrailing(s, from, cur);
      value := Some(s[from..valEnd + 1]);
    }
    return Some(Pair(name, value));
  }

  method SkipGap(s: string, start: nat) returns (cur: nat)
    requires start <= |s|
    ensures cur == start + Span(s[start..], IsGap)
  {
    hide Span, IsGap;
    cur := start;
    while cur < |s| && IsGap(s[cur])
      invariant start <= cur <= |s|
      invariant start + Span(s[start..|s|], IsGap) == cur + Span(s[cur..|s|], IsGap)
    {
      SpanHead(s, cur, |s|, IsGap);
      cur := cur + 1;
    }
    SpanHead(s, cur, |s|, IsGap);
    assert s[start..|s|] == s[start..];
  }

  /** One turn of the outer loop: it always moves the cursor. */
  method NextToken(s: string, start: nat) returns (cur: nat, pair: Option<Pair>)
    requires start < |s|
    ensures start < cur <= |s| && s[cur..] == Rest(s[start..])
    ensures pair == ParseToken(Token(s[start..]))
  {
    hide TokenEnd, ParseToken, Span;
    ghost var text := s[start..];
    cur := FindEnd(s, start);
    assert Token(text) == s[start..cur];
    assert cur < |s| ==> text[cur - start] == s[cur];
    pair := ReadPair(s, start, cur);
    if cur < |s| {
      cur := cur + 1;
      ghost var tail := s[cur..];
      assert tail == text[TokenEnd(text, false) + 1..];
      cur := SkipGap(s, cur);
      assert s[cur..] == tail[Span(tail, IsGap)..];
    } else {
      TextNotEmpty(text);
    }
  }

  lemma TextNotEmpty(text: string)
    ensures TokenEnd(text, false) == |text| ==> Rest(text) == ""
  {
  }

  // ---------------------------------------------------------------- list and map

  /** The client's list: each pair is pushed in front, value first. */
  function Stacked(pairs: seq<Pair>): seq<Option<string>> {
    if pairs == [] then [] else
      var k := |pairs| - 1;
      [Some(pairs[k].name), pairs[k].value] + Stacked(pairs[..k])
  }

  /** The server's map: later pairs overwrite earlier ones. A pair without a value is a
      string made from a null pointer. */
  function Stored(fields: map<string, string>, pairs: seq<Pair>): Option<map<string, string>> {
    if pairs == [] then Some(fields) else
      var k := |pairs| - 1;
      var before := Stored(fields, pairs[..k]);
      if before == None || pairs[k].value == None then None
      else Some(before.value[pairs[k].name := pairs[k].value.value])
  }

  lemma PairsStep(s: string)
    requires s != ""
    ensures ParseToken(Token(s)).None? ==> Pairs(s) == Pairs(Rest(s))
    ensures ParseToken(Token(s)).Some? ==> forall done: seq<Pair> ::
              done + Pairs(s) == done + [ParseToken(Token(s)).value] + Pairs(Rest(s))
  {
  }

  method ClientParse(digest: string) returns (list: seq<Option<string>>)
    requires All(digest, NotNul)
    ensures list == Stacked(Pairs(digest))
  {
    hide Pairs, Rest, ParseToken, Token;
    list := [];
    var cur := 0;
    ghost var done: seq<Pair> := [];
    assert digest[0..] == digest;
    while cur < |digest|
      invariant 0 <= cur <= |digest| && Pairs(digest) == done + Pairs(digest[cur..]) && list == Stacked(done)
      decreases |digest| - cur
    {
      PairsStep(digest[cur..]);
      var pair;
      cur, pair := NextToken(digest, cur);
      if pair.Some? {
        list := [pair.value.value] + list;
        list := [Some(pair.value.name)] + list;
        assert (done + [pair.value])[..|done|] == done;
        done := done + [pair.value];
      }
    }
    NoPairs(digest[cur..]);
    assert done + [] == done;
  }

  lemma NoPairs(s: string)
    ensures s == "" ==> Pairs(s) == []
  {
  }

  method ServerParse(fields: map<string, string>, digest: string) returns (ret: Option<map<string, string>>)
    requires All(digest, NotNul)
    ensures ret == Stored(fields, Pairs(digest))
  {
    hide Pairs, Rest, ParseToken, Token;
    ret := Some(fields);
    var cur := 0;
    ghost var done: seq<Pair> := [];
    assert digest[0..] == digest;
    while cur < |digest|
      invariant 0 <= cur <= |digest| && Pairs(digest) == done + Pairs(digest[cur..])
      invariant ret == Stored(fields, done) && ret.Some?
      decreases |digest| - cur
    {
      PairsStep(digest[cur..]);
      ghost var rest := Pairs(Rest(digest[cur..]));
      var pair;
      cur, pair := NextToken(digest, cur);
      if pair.Some? {
        assert (done + [pair.value])[..|done|] == done;
        done := done + [pair.value];
        if pair.value.value == None {
          UndefinedStays(fields, done, rest);
          return None;
        }
        ret := Some(ret.value[pair.value.name := pair.value.value.value]);
      }
    }
    NoPairs(digest[cur..]);
    assert done + [] == done;
  }

  lemma {:induction false} UndefinedStays(fields: map<string, string>, done: seq<Pair>, rest: seq<Pair>)
    requires Stored(fields, done) == None
    ensures Stored(fields, done + rest) == None
    decreases |rest|
  {
    if rest == [] {
      assert done + rest == done;
    } else {
      var k := |rest| - 1;
      assert (done + rest)[..|done| + k] == done + rest[..k];
      UndefinedStays(fields, done, rest[..k]);
    }
  }
}
