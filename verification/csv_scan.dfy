/** The three quote-aware CSV tokenizers against one automaton that takes a character at a
    time (section 2 of RFC 4180, with ';' for the separator). The code looks one character
    ahead at a quote inside quotes; the automaton remembers the quote instead. */
module CsvScan {
  import opened Chars

  type Row = seq<string>

  predicate IsNewline(c: char) {
    c == '\n' || c == '\r'
  }

  predicate IsSeparator(c: char) {
    c == ';' || IsNewline(c)
  }

  datatype Mode = Open | Quoted | Closing

  datatype Scan = Scan(mode: Mode, field: string, line: Row, rows: seq<Row>) {
    /** The character ends a field. */
    predicate Ends(c: char) {
      mode != Quoted && IsSeparator(c)
    }

    /** The character becomes part of the field. */
    predicate Keeps(c: char) {
      if c == '"' then mode == Closing else !Ends(c)
    }

    function End(c: char): Scan {
      if c == ';' then Scan(Open, "", line + [field], rows)
      else Scan(Open, "", [], rows + [line + [field]])
    }

    function Mark(c: char): Mode {
      if c != '"' then if mode == Quoted then Quoted else Open
      else if mode == Quoted then Closing else Quoted
    }

    function Step(c: char): Scan {
      if Ends(c) then End(c)
      else this.(mode := Mark(c), field := if Keeps(c) then field + [c] else field)
    }

    /** Nothing of a further row has been read. */
    predicate NothingPending() {
      field == "" && line == []
    }
  }

  const START := Scan(Open, "", [], [])

  function ScanText(t: Scan, s: string): Scan
    decreases |s|
  {
    if s == "" then t else ScanText(t.Step(s[0]), s[1..])
  }

  lemma {:induction false} ScanConcat(t: Scan, a: string, b: string)
    ensures ScanText(t, a + b) == ScanText(ScanText(t, a), b)
    decreases |a|
  {
    if a == "" {
      assert a + b == b;
    } else {
      assert (a + b)[0] == a[0] && (a + b)[1..] == a[1..] + b;
      ScanConcat(t.Step(a[0]), a[1..], b);
    }
  }

  lemma {:induction false} ScanNext(t: Scan, s: string, i: nat)
    requires i < |s|
    ensures ScanText(t, s[..i + 1]) == ScanText(t, s[..i]).Step(s[i])
  {
    hide Scan.Step;
    assert s[..i + 1] == s[..i] + [s[i]];
    ScanConcat(t, s[..i], [s[i]]);
    ScanOne(ScanText(t, s[..i]), s[i]);
  }

  lemma ScanOne(t: Scan, c: char)
    ensures ScanText(t, [c]) == t.Step(c)
  {
    assert [c][1..] == "";
  }

  // ---------------------------------------------------------------- the two C++ tokenizers

  /** The server's tokenizer: there is always a last row, without the field in progress. */
  function LogBookRows(s: string): (rows: seq<Row>)
    ensures rows != []
  {
    var t := ScanText(START, s);
    t.rows + [t.line]
  }

  /** The graphical client's tokenizer: the field in progress is kept when not empty. */
  function QtRows(s: string): seq<Row> {
    var t := ScanText(START, s);
    t.rows + [if t.field == "" then t.line else t.line + [t.field]]
  }

  /** Where the loops of the code are in the text, compared with the automaton. */
  ghost predicate InStep(t: Scan, s: string, pos: nat, quotes: bool) {
    && pos <= |s| && t == ScanText(START, s[..pos])
    && (quotes <==> t.mode == Quoted)
    && (t.mode == Closing && pos < |s| ==> s[pos] != '"')
  }

  /** One turn of the loops. */
  lemma {:induction false} TurnInStep(t: Scan, s: string, pos: nat, quotes: bool)
    requires InStep(t, s, pos, quotes) && pos < |s|
    ensures t.mode == Closing ==> s[pos] != '"'
    ensures var c := s[pos];
            if quotes && c == '"' && pos + 1 < |s| && s[pos + 1] == '"'
            then InStep(t.(field := t.field + [c]), s, pos + 2, true)
            else InStep(t.Step(c), s, pos + 1, if c == '"' then !quotes else quotes)
  {
    hide ScanText;
    ScanNext(START, s, pos);
    if quotes && s[pos] == '"' && pos + 1 < |s| && s[pos + 1] == '"' {
      ScanNext(START, s, pos + 1);
    }
  }

  lemma Begin(s: string)
    ensures InStep(START, s, 0, false)
  {
  }

  lemma Finish(t: Scan, s: string, quotes: bool)
    requires InStep(t, s, |s|, quotes)
    ensures t == ScanText(START, s)
  {
    assert s[..|s|] == s;
  }

  lemma NextIsInText(str: string, pos: nat)
    requires pos <= |CString(str)|
    ensures pos < |str| && str[pos] != '\0' <==> pos < |CString(str)|
    ensures forall i | 0 <= i < |CString(str)| :: str[i] == CString(str)[i]
    ensures pos < |CString(str)| ==>
              ((pos + 1 < |str| && str[pos + 1] == '"') <==> (pos + 1 < |CString(str)| && CString(str)[pos + 1] == '"'))
  {
    NulAfterCString(str);
  }

  lemma {:induction false} NulAfterCString(str: string)
    ensures |CString(str)| < |str| ==> str[|CString(str)|] == '\0'
  {
    if str != "" && str[0] != '\0' {
      NulAfterCString(str[1..]);
    }
  }

  method ParseLogBook(str: string) returns (tokens: seq<Row>)
    ensures tokens == LogBookRows(CString(str))
  {
    hide CString, ScanText, InStep;
    ghost var s := CString(str);
    tokens := [[]];
    var pos, quotes, field := 0, false, "";
    ghost var t := START;
    Begin(s);
    NextIsInText(str, 0);
    while pos < |str| && str[pos] != '\0'
      invariant pos <= |s| && tokens == t.rows + [t.line] && field == t.field && InStep(t, s, pos, quotes)
      invariant quotes <==> t.mode == Quoted
    {
      var c := str[pos];
      NextIsInText(str, pos);
      TurnInStep(t, s, pos, quotes);
      ghost var next := t.Step(c);
      if !quotes && c == '"' {
        quotes := true;
      } else if quotes && c == '"' {
        if pos + 1 < |str| && str[pos + 1] == '"' {
          field := field + [c];
          pos := pos + 1;
          next := t.(field := t.field + [c]);
        } else {
          quotes := false;
        }
      } else if !quotes && c == ';' {
        tokens := tokens[|tokens| - 1 := tokens[|tokens| - 1] + [field]];
        field := "";
      } else if !quotes && (c == '\n' || c == '\r') {
        tokens := tokens[|tokens| - 1 := tokens[|tokens| - 1] + [field]];
        field := "";
        tokens := tokens + [[]];
      } else {
        field := field + [c];
      }
      pos := pos + 1;
      t := next;
    }
    NextIsInText(str, pos);
    Finish(t, s, quotes);
  }

  method Tokenize(str: string) returns (tokens: seq<Row>)
    ensures tokens == QtRows(CString(str))
  {
    hide CString, ScanText, InStep;
    ghost var s := CString(str);
    tokens := [[]];
    var pos, quotes, field := 0, false, "";
    ghost var t := START;
    Begin(s);
    NextIsInText(str, 0);
    while pos < |str| && str[pos] != '\0'
      invariant pos <= |s| && tokens == t.rows + [t.line] && field == t.field && InStep(t, s, pos, quotes)
      invariant quotes <==> t.mode == Quoted
    {
      var c := str[pos];
      NextIsInText(str, pos);
      TurnInStep(t, s, pos, quotes);
      ghost var next := t.Step(c);
      if !quotes && c == '"' {
        quotes := true;
      } else if quotes && c == '"' {
        if pos + 1 < |str| && str[pos + 1] == '"' {
          field := field + [c];
          pos := pos + 1;
          next := t.(field := t.field + [c]);
        } else {
          quotes := false;
        }
      } else if !quotes && c == ';' {
        tokens := tokens[|tokens| - 1 := tokens[|tokens| - 1] + [field]];
        field := "";
      } else if !quotes && (c == '\n' || c == '\r') {
        tokens := tokens[|tokens| - 1 := tokens[|tokens| - 1] + [field]];
        field := "";
        tokens := tokens + [[]];
      } else {
        field := field + [c];
      }
      pos := pos + 1;
      t := next;
    }
    NextIsInText(str, pos);
    Finish(t, s, quotes);
    if field != "" {
      tokens := tokens[|tokens| - 1 := tokens[|tokens| - 1] + [field]];
    }
  }

  /** Every character between two others, outside quotes: ';' separates fields, a line end
      separates rows, and all others but the quote become part of the field. */
  lemma {:induction false} CharactersRead(c: char)
    ensures LogBookRows(['a', c, 'b', '\n']) ==
            if c == ';' then [["a", "b"], []]
            else if c == '\n' || c == '\r' then [["a"], ["b"], []]
            else if c == '"' then [[]]
            else [[['a', c, 'b']], []]
  {
    FourSteps(START, 'a', c, 'b', '\n');
    hide ScanText;
    assert "" + ['a'] == "a" && "" + ['b'] == "b" && "a" + [c] == ['a', c] && ['a', c] + ['b'] == ['a', c, 'b'];
    assert START.Step('a') == Scan(Open, "a", [], []);
    var t := Scan(Open, "a", [], []).Step(c).Step('b');
    assert [] + ["a"] == ["a"] && ["a"] + ["b"] == ["a", "b"] && [] + [['a', c, 'b']] == [['a', c, 'b']];
    if c == ';' {
      assert t == Scan(Open, "b", ["a"], []);
    } else if c == '\n' || c == '\r' {
      assert t == Scan(Open, "b", [], [["a"]]) && [] + ["b"] == ["b"] && [["a"]] + [["b"]] == [["a"], ["b"]];
    } else if c == '"' {
      assert t.Step('\n').line == [] && t.Step('\n').rows == [];
    } else {
      assert t == Scan(Open, ['a', c, 'b'], [], []);
    }
  }

  lemma FourSteps(t: Scan, a: char, b: char, c: char, d: char)
    ensures ScanText(t, [a, b, c, d]) == t.Step(a).Step(b).Step(c).Step(d)
  {
    hide Scan.Step;
    assert [a, b, c, d][1..] == [b, c, d] && [b, c, d][1..] == [c, d] && [c, d][1..] == [d];
    assert ScanText(t, [a, b, c, d]) == ScanText(t.Step(a), [b, c, d]);
    assert ScanText(t.Step(a), [b, c, d]) == ScanText(t.Step(a).Step(b), [c, d]);
    assert ScanText(t.Step(a).Step(b), [c, d]) == ScanText(t.Step(a).Step(b).Step(c), [d]);
    ScanOne(t.Step(a).Step(b).Step(c), d);
  }
}
