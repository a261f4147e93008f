/** Where the three tokenizers agree, and what the client's does with an unfinished row. */
module CsvAgreement {
  import opened Chars
  import opened CsvScan
  import opened CsvParse

  /** No field of the text, finished or not, fills the client's buffer. */
  ghost predicate Short(s: string) {
    forall i | 0 <= i <= |s| :: |ScanText(START, s[..i]).field| < FIELD_SIZE
  }

  function QuoteCount(s: string): nat {
    if s == "" then 0 else QuoteCount(s[..|s| - 1]) + if s[|s| - 1] == '"' then 1 else 0
  }

  /** The character at `i` is outside quotes: an even number of quotes is in front of it. */
  predicate Outside(s: string, i: nat)
    requires i < |s|
  {
    QuoteCount(s[..i]) % 2 == 0
  }

  /** Some separator is outside quotes. */
  predicate Separated(s: string) {
    exists i | 0 <= i < |s| :: Outside(s, i) && IsSeparator(s[i])
  }

  /** The last character is a newline outside quotes. */
  predicate EndsInNewline(s: string) {
    s != "" && IsNewline(s[|s| - 1]) && Outside(s, |s| - 1)
  }

  predicate FewQuotes(s: string) {
    s == "" || s == "\"" || s == "\"\""
  }

  /** The text ends in a newline outside quotes, but for at most two quotes. */
  predicate EndsLine(s: string) {
    exists k | 0 <= k <= |s| :: EndsInNewline(s[..k]) && FewQuotes(s[k..])
  }

  /** Counting quotes is enough to know whether the automaton is inside quotes. */
  lemma {:induction false} QuotedIffOdd(s: string)
    ensures ScanText(START, s).mode == Quoted <==> QuoteCount(s) % 2 == 1
    decreases |s|
  {
    if s != "" {
      var k := |s| - 1;
      QuotedIffOdd(s[..k]);
      ScanNext(START, s, k);
      assert s[..k + 1] == s;
      hide ScanText, QuoteCount;
      assert QuoteCount(s) == QuoteCount(s[..k]) + if s[k] == '"' then 1 else 0 by { QuoteCountNext(s); }
    }
  }

  lemma QuoteCountNext(s: string)
    requires s != ""
    ensures QuoteCount(s) == QuoteCount(s[..|s| - 1]) + if s[|s| - 1] == '"' then 1 else 0
  {
  }

  /** A separator outside quotes is what ends the automaton's fields. */
  lemma {:induction false} SeparatedIff(s: string)
    ensures Separated(s) <==> var t := ScanText(START, s); t.rows != [] || t.line != []
    decreases |s|
  {
    if s != "" {
      var k := |s| - 1;
      var init, t := s[..k], ScanText(START, s[..k]);
      SeparatedIff(init);
      ScanNext(START, s, k);
      QuotedIffOdd(init);
      assert s[..k + 1] == s;
      hide ScanText, QuoteCount;
      SeparatedNext(s);
    }
  }

  lemma SeparatedNext(s: string)
    requires s != ""
    ensures var k := |s| - 1; Separated(s) <==> Separated(s[..k]) || (Outside(s, k) && IsSeparator(s[k]))
  {
    hide QuoteCount, IsSeparator;
    var k := |s| - 1;
    assert forall i | 0 <= i < k :: s[..k][..i] == s[..i];
    if Separated(s[..k]) {
      var i :| 0 <= i < k && Outside(s[..k], i) && IsSeparator(s[..k][i]);
      assert Outside(s, i) && IsSeparator(s[i]);
    }
    if Separated(s) && !(Outside(s, k) && IsSeparator(s[k])) {
      var i :| 0 <= i < |s| && Outside(s, i) && IsSeparator(s[i]);
      assert Outside(s[..k], i) && IsSeparator(s[..k][i]);
    }
  }

  /** A text that has a separator leaves no row in progress if and only if it ends in a newline
      outside quotes, but for at most two quotes. */
  lemma {:induction false} NothingPendingIff(s: string)
    requires Separated(s)
    ensures ScanText(START, s).NothingPending() <==> EndsLine(s)
  {
    hide ScanText, EndsInNewline, FewQuotes, Separated;
    if EndsLine(s) {
      var k :| 0 <= k <= |s| && EndsInNewline(s[..k]) && FewQuotes(s[k..]);
      LineEnded(s[..k]);
      QuotesChangeNothing(s[..k], s[k..]);
      assert s == s[..k] + s[k..];
    }
    if ScanText(START, s).NothingPending() {
      SeparatedIff(s);
      var k := LineEnd(s);
      assert EndsInNewline(s[..k]) && FewQuotes(s[k..]);
    }
  }

  lemma {:induction false} LineEnded(s: string)
    requires EndsInNewline(s)
    ensures var t := ScanText(START, s); t.mode == Open && t.NothingPending() && t.rows != []
  {
    var k := |s| - 1;
    ScanNext(START, s, k);
    QuotedIffOdd(s[..k]);
    assert s[..k + 1] == s;
    hide ScanText, QuoteCount;
  }

  lemma {:induction false} QuotesChangeNothing(p: string, q: string)
    requires FewQuotes(q) && ScanText(START, p).mode == Open && ScanText(START, p).NothingPending()
    ensures ScanText(START, p + q).NothingPending()
    ensures ScanText(START, p + q).mode == if q == "" then Open else if q == "\"" then Quoted else Closing
  {
    var t := ScanText(START, p);
    ScanConcat(START, p, q);
    if |q| == 2 {
      assert q == "\"" + "\"";
      ScanConcat(t, "\"", "\"");
      ScanOne(t.Step('"'), '"');
    }
    if q != "" {
      ScanOne(t, '"');
    }
  }

  /** Where the last line ends. */
  lemma {:induction false} LineEnd(s: string) returns (k: nat)
    requires var t := ScanText(START, s); t.NothingPending() && t.rows != []
    ensures k <= |s| && EndsInNewline(s[..k]) && FewQuotes(s[k..])
    ensures ScanText(START, s).mode == if |s| == k then Open else if |s| == k + 1 then Quoted else Closing
    decreases |s|
  {
    var j := |s| - 1;
    var init, t := s[..j], ScanText(START, s[..j]);
    ScanNext(START, s, j);
    QuotedIffOdd(init);
    assert s[..j + 1] == s && s[|s|..] == "";
    hide ScanText, QuoteCount;
    if t.Ends(s[j]) {
      k := |s|;
      assert s[..k] == s;
    } else {
      k := LineEnd(init);
      assert s[..k] == init[..k] && s[k..] == init[k..] + [s[j]] && s[j] == '"';
    }
  }

  lemma {:induction false} BufferCons(b: Buffered, c: char, s: string)
    ensures BufferText(b, [c] + s) == BufferText(BufferStep(b, c), s)
  {
    hide BufferStep;
    assert ([c] + s)[0] == c && ([c] + s)[1..] == s;
  }

  /** After a prefix of a short text the buffer has not overrun, holds the field in progress,
      and starts with NUL when a separator has been read and nothing since. */
  lemma {:induction false} AfterPrefix(s: string, memory: string, i: nat)
    requires All(s, NotNul) && Short(s) && |memory| == FIELD_SIZE && i <= |s|
    ensures var b := BufferText(Buffered(START, memory), s[..i]);
            && InField(b) && |b.memory| == FIELD_SIZE && b.t == ScanText(START, s[..i])
            && (b.t.field == "" && (b.t.rows != [] || b.t.line != []) ==> b.memory[0] == '\0')
    decreases i
  {
    if i == 0 {
      assert s[..0] == "";
    } else {
      hide ScanText, BufferText, Scan.Step, BufferStep, InField;
      AfterPrefix(s, memory, i - 1);
      var b := BufferText(Buffered(START, memory), s[..i - 1]);
      BufferNext(Buffered(START, memory), s, i - 1);
      ScanNext(START, s, i - 1);
      Held(b);
      FitsOn(b, s[i - 1]);
      StepInField(b, s[i - 1]);
    }
  }

  lemma FitsOn(b: Buffered, c: char)
    requires InField(b) && |b.t.field| < |b.memory| && |b.memory| > 0
    requires b.t.field == "" && (b.t.rows != [] || b.t.line != []) ==> b.memory[0] == '\0'
    ensures var n := BufferStep(b, c);
            && n.Buffered?
            && (n.t.field == "" && (n.t.rows != [] || n.t.line != []) ==> n.memory[0] == '\0')
  {
  }

  /** A field in progress, read as a C string, goes on with whatever follows it in the
      buffer. */
  lemma {:induction false} TailReadsOn(memory: string, field: string)
    requires |field| <= |memory| && memory[..|field|] == field && All(field, NotNul)
    ensures CString(memory) == field + CString(memory[|field|..])
    decreases |field|
  {
    if field == "" {
      assert memory[0..] == memory;
    } else {
      hide CString;
      var rest := memory[1..];
      assert memory[0] == field[0] && field[1..] == rest[..|field| - 1];
      CStringCons(memory);
      TailReadsOn(rest, field[1..]);
      assert rest[|field| - 1..] == memory[|field|..];
      assert field == [field[0]] + field[1..];
      ConcatAssoc([field[0]], field[1..], CString(memory[|field|..]));
    }
  }

  lemma CStringCons(memory: string)
    requires memory != "" && memory[0] != '\0'
    ensures CString(memory) == [memory[0]] + CString(memory[1..])
  {
  }

  /** What the client's tokenizer returns for any short text with a separator in it: with no
      field in progress, the finished rows alone, so that a row ending in a separator is
      lost; otherwise also the row in progress, its last field running on into what earlier
      fields left in the buffer. */
  lemma {:induction false} ClientResult(s: string, memory: string)
    requires All(s, NotNul) && Short(s) && Separated(s) && |memory| == FIELD_SIZE
    ensures var t, b := ScanText(START, s), BufferText(Buffered(START, memory), s);
            && b.Buffered? && |b.memory| == FIELD_SIZE && |t.field| < FIELD_SIZE
            && (t.field == "" ==> CsvRows(s, memory) == Some(t.rows))
            && (t.field != "" && CsvRows(s, memory).Some? ==>
                  CsvRows(s, memory) == Some(t.rows + [t.line + [t.field + CString(b.memory[|t.field|..])]]))
  {
    hide ScanText, BufferText, Separated;
    SeparatedIff(s);
    AfterPrefix(s, memory, |s|);
    assert s[..|s|] == s;
    var b := BufferText(Buffered(START, memory), s);
    TailReadsOn(b.memory, b.t.field);
  }

  /** The three tokenizers give the same rows, up to the extra empty last row of the two C++
      ones, if and only if the text ends in a newline outside quotes, but for at most two
      quotes behind it. */
  lemma {:induction false} TokenizersAgreeIff(s: string, memory: string)
    requires All(s, NotNul) && Short(s) && Separated(s) && |memory| == FIELD_SIZE
    ensures var r := CsvRows(s, memory);
            (r.Some? && LogBookRows(s) == r.value + [[]] && QtRows(s) == r.value + [[]]) <==> EndsLine(s)
  {
    hide ScanText, CsvRows, Separated, EndsLine;
    ClientResult(s, memory);
    NothingPendingIff(s);
    var t, r := ScanText(START, s), CsvRows(s, memory);
    if r.Some? && LogBookRows(s) == r.value + [[]] {
      assert |t.rows| == |r.value|;
      assert LogBookRows(s)[|t.rows|] == t.line && (r.value + [[]])[|t.rows|] == [];
    }
  }

  /** Every text that ends in a newline outside quotes is such a text, and the client's rows
      are then the rows of the text whatever was in the buffer. */
  lemma {:induction false} NewlineEndedTextsAgree(s: string, memory: string)
    requires All(s, NotNul) && Short(s) && EndsInNewline(s) && |memory| == FIELD_SIZE
    ensures CsvRows(s, memory) == Some(ScanText(START, s).rows)
    ensures LogBookRows(s) == QtRows(s) == ScanText(START, s).rows + [[]]
  {
    hide ScanText, CsvRows, EndsInNewline, Separated;
    LineEnded(s);
    SeparatedIff(s);
    ClientResult(s, memory);
  }

  /** The two C++ tokenizers differ exactly when a field is left in progress: the graphical
      client keeps it, the server drops it. */
  lemma {:induction false} QtKeepsTail(s: string)
    ensures QtRows(s) == LogBookRows(s) <==> ScanText(START, s).field == ""
    ensures |QtRows(s)| == |LogBookRows(s)|
  {
    hide ScanText;
    var t := ScanText(START, s);
    assert QtRows(s)[|t.rows|] == (if t.field == "" then t.line else t.line + [t.field]);
    assert LogBookRows(s)[|t.rows|] == t.line;
  }

  // ---------------------------------------------------------------- the stale tail

  predicate IsPlain(c: char) {
    c != '"' && !IsSeparator(c) && c != '\0'
  }

  function Overlay(memory: string, at: nat, s: string): (r: string)
    requires at + |s| <= |memory|
    ensures |r| == |memory|
  {
    memory[..at] + s + memory[at + |s|..]
  }

  /** Plain text goes into the field and into the buffer behind it. */
  lemma {:induction false} PlainRuns(t: Scan, memory: string, s: string)
    requires t.mode == Open && All(s, IsPlain) && |t.field| + |s| <= |memory|
    ensures BufferText(Buffered(t, memory), s)
         == Buffered(t.(field := t.field + s), Overlay(memory, |t.field|, s))
    decreases |s|
  {
    var at := |t.field|;
    if s == "" {
      assert t.field + s == t.field && Overlay(memory, at, s) == memory;
    } else {
      hide BufferText, BufferStep, Overlay, IsPlain;
      var n, memory' := t.(field := t.field + [s[0]]), memory[at := s[0]];
      assert s == [s[0]] + s[1..];
      BufferCons(Buffered(t, memory), s[0], s[1..]);
      PlainStep(t, memory, s[0]);
      PlainRuns(n, memory', s[1..]);
      ConcatAssoc(t.field, [s[0]], s[1..]);
      OverlayOneMore(memory, at, s);
    }
  }

  lemma PlainStep(t: Scan, memory: string, c: char)
    requires t.mode == Open && IsPlain(c) && |t.field| < |memory|
    ensures BufferStep(Buffered(t, memory), c) == Buffered(t.(field := t.field + [c]), memory[|t.field| := c])
  {
  }

  lemma OverlayOneMore(memory: string, at: nat, s: string)
    requires s != "" && at + |s| <= |memory|
    ensures Overlay(memory[at := s[0]], at + 1, s[1..]) == Overlay(memory, at, s)
  {
  }

  /** A last line without its newline comes back with the end of the field before it glued
      on, unless the two are equally long. */
  lemma {:induction false} TailIsStale(p: string, f: string, g: string, memory: string)
    requires All(p, NotNul) && Short(p) && |memory| == FIELD_SIZE
    requires ScanText(START, p).NothingPending() && ScanText(START, p).mode == Open
    requires All(f, IsPlain) && All(g, IsPlain) && 0 < |g| <= |f| < FIELD_SIZE
    ensures CsvRows(p + f + "\n" + g, memory)
         == Some(ScanText(START, p).rows + [[f]] + [[g + f[|g|..]]])
  {
    hide *;
    AfterPrefix(p, memory, |p|);
    assert p[..|p|] == p;
    var b0 := BufferText(Buffered(START, memory), p);
    OpenAndEmpty(b0, p);
    var rows := b0.t.rows;
    BufferConcat(Buffered(START, memory), p + f + "\n", g);
    BufferConcat(Buffered(START, memory), p + f, "\n");
    BufferConcat(Buffered(START, memory), p, f);
    assert "" + f == f && "" + g == g;
    PlainRuns(b0.t, b0.memory, f);
    var m1 := Overlay(b0.memory, 0, f);
    BufferOne(Buffered(Scan(Open, f, [], rows), m1), '\n');
    LineEnds(f, rows, m1);
    var m2 := m1[|f| := '\0'][0 := '\0'];
    PlainRuns(Scan(Open, "", [], rows + [[f]]), m2, g);
    MemoryAfter(b0.memory, f, g);
    GluedTail(f, g, Overlay(m2, 0, g));
    assert [] + [g + f[|g|..]] == [g + f[|g|..]];
    Collected(Scan(Open, g, [], rows + [[f]]), Overlay(m2, 0, g), g + f[|g|..]);
    TextResult(p + f + "\n" + g, memory);
  }

  /** The shortest text of this kind shows it. */
  lemma StaleExample(memory: string)
    requires |memory| == FIELD_SIZE
    ensures CsvRows("abc\nde", memory) == Some([["abc"], ["dec"]])
  {
    hide CsvRows, CString;
    var p, f, g := "", "abc", "de";
    assert p[..0] == p;
    TailIsStale(p, f, g, memory);
    assert p + f + "\n" + g == "abc\nde";
    assert g + f[|g|..] == "dec";
    assert ScanText(START, p).rows + [[f]] + [["dec"]] == [["abc"], ["dec"]];
  }

  lemma OpenAndEmpty(b: Buffered, p: string)
    requires InField(b) && b.t == ScanText(START, p) && b.t.NothingPending() && b.t.mode == Open
    ensures b.Buffered? && b.t == Scan(Open, "", [], b.t.rows) && b == Buffered(b.t, b.memory)
  {
  }

  lemma MemoryAfter(m0: string, f: string, g: string)
    requires 0 < |g| <= |f| < |m0|
    ensures var m2 := Overlay(m0, 0, f)[|f| := '\0'][0 := '\0'];
            var m := Overlay(m2, 0, g);
            m[..|g|] == g && m[|g|..|f|] == f[|g|..] && m[|f|] == '\0'
  {
    var m2 := Overlay(m0, 0, f)[|f| := '\0'][0 := '\0'];
    assert m2[|f|] == '\0' && forall i | |g| <= i < |f| :: m2[i] == f[i];
    OverlayKeeps(m2, g);
  }

  lemma OverlayKeeps(m: string, g: string)
    requires |g| <= |m|
    ensures Overlay(m, 0, g)[..|g|] == g
    ensures forall i | |g| <= i < |m| :: Overlay(m, 0, g)[i] == m[i]
  {
  }

  lemma Collected(t: Scan, memory: string, tail: string)
    requires tail == CString(memory) && tail != memory && tail != ""
    ensures Collect(Buffered(t, memory)) == Some(t.rows + [t.line + [tail]])
  {
  }

  lemma TextResult(s: string, memory: string)
    ensures CsvRows(s, memory) == Collect(BufferText(Buffered(START, memory), s))
  {
  }

  lemma LineEnds(f: string, rows: seq<Row>, memory: string)
    requires |f| < |memory|
    ensures BufferStep(Buffered(Scan(Open, f, [], rows), memory), '\n')
         == Buffered(Scan(Open, "", [], rows + [[f]]), memory[|f| := '\0'][0 := '\0'])
  {
    assert [] + [f] == [f];
  }

  lemma GluedTail(f: string, g: string, memory: string)
    requires All(f, IsPlain) && All(g, IsPlain) && 0 < |g| <= |f| < |memory|
    requires memory[..|g|] == g && memory[|g|..|f|] == f[|g|..] && memory[|f|] == '\0'
    ensures CString(memory) == g + f[|g|..] && CString(memory) != memory && g + f[|g|..] != ""
  {
    var s := g + f[|g|..];
    assert memory[..|f|] == s;
    StoredField(memory, s);
  }
}
