/** The client library's tokenizer: the automaton of CsvScan with the field in progress kept
    in a stack buffer of fixed size that starts with arbitrary contents and is only
    terminated when a separator is read. */
module CsvParse {
  import opened Chars
  import opened CsvScan

  const FIELD_SIZE := 65535

  /** `Overrun`: a write past the end of the buffer. */
  datatype Buffered = Buffered(t: Scan, memory: string) | Overrun

  function BufferStep(b: Buffered, c: char): (r: Buffered)
    ensures b.Buffered? && r.Buffered? ==> r.t == b.t.Step(c) && |r.memory| == |b.memory|
  {
    match b
    case Overrun => Overrun
    case Buffered(t, memory) =>
      var at := |t.field|;
      if !t.Ends(c) && !t.Keeps(c) then Buffered(t.Step(c), memory)
      else if at >= |memory| then Overrun
      else if t.Ends(c) then Buffered(t.Step(c), memory[at := '\0'][0 := '\0'])
      else Buffered(t.Step(c), memory[at := c])
  }

  function BufferText(b: Buffered, s: string): Buffered
    decreases |s|
  {
    if s == "" then b else BufferText(BufferStep(b, s[0]), s[1..])
  }

  /** What the code returns after the loop: it reads the buffer as a C string, which is
      undefined when nothing in it is NUL. */
  function Collect(b: Buffered): Option<seq<Row>> {
    match b
    case Overrun => None
    case Buffered(t, memory) =>
      var tail := CString(memory);
      if tail == memory then None
      else if tail != "" then Some(t.rows + [t.line + [tail]])
      else Some(t.rows)
  }

  function CsvRows(s: string, memory: string): Option<seq<Row>> {
    Collect(BufferText(Buffered(START, memory), s))
  }

  lemma {:induction false} BufferConcat(b: Buffered, a: string, c: string)
    ensures BufferText(b, a + c) == BufferText(BufferText(b, a), c)
    decreases |a|
  {
    hide BufferStep;
    if a == "" {
      assert a + c == c;
    } else {
      assert (a + c)[0] == a[0] && (a + c)[1..] == a[1..] + c;
      BufferConcat(BufferStep(b, a[0]), a[1..], c);
    }
  }

  lemma BufferOne(b: Buffered, c: char)
    ensures BufferText(b, [c]) == BufferStep(b, c)
  {
    hide BufferStep;
    assert [c][1..] == "";
  }

  lemma {:induction false} BufferNext(b: Buffered, s: string, i: nat)
    requires i < |s|
    ensures BufferText(b, s[..i + 1]) == BufferStep(BufferText(b, s[..i]), s[i])
  {
    hide BufferStep, BufferText;
    assert s[..i + 1] == s[..i] + [s[i]];
    BufferConcat(b, s[..i], [s[i]]);
    BufferOne(BufferText(b, s[..i]), s[i]);
  }

  lemma {:induction false} OverrunStays(s: string)
    ensures BufferText(Overrun, s) == Overrun
    decreases |s|
  {
    if s != "" {
      OverrunStays(s[1..]);
    }
  }

  /** The buffer runs the automaton, as long as it does not overrun. */
  lemma {:induction false} BufferRunsScan(b: Buffered, s: string)
    requires b.Buffered?
    ensures var r := BufferText(b, s);
            r.Buffered? ==> r.t == ScanText(b.t, s) && |r.memory| == |b.memory|
    decreases |s|
  {
    if s != "" {
      hide BufferStep, Scan.Step;
      var n := BufferStep(b, s[0]);
      if n.Buffered? {
        BufferRunsScan(n, s[1..]);
      } else {
        OverrunStays(s[1..]);
      }
    }
  }

  // ---------------------------------------------------------------- the loop

  /** The start of the buffer is the field in progress. */
  ghost predicate InField(b: Buffered) {
    b.Buffered? && |b.t.field| <= |b.memory| && b.memory[..|b.t.field|] == b.t.field && All(b.t.field, NotNul)
  }

  lemma {:induction false} StepInField(b: Buffered, c: char)
    requires InField(b) && c != '\0' && BufferStep(b, c).Buffered?
    ensures InField(BufferStep(b, c))
  {
    hide Scan.Mark;
  }

  lemma {:induction false} StoredField(memory: string, field: string)
    requires |field| < |memory| && memory[..|field|] == field && All(field, NotNul) && memory[|field|] == '\0'
    ensures CString(memory) == field
    decreases |field|
  {
    if field != "" {
      assert memory[0] == field[0] && field[1..] == memory[1..][..|field| - 1];
      StoredField(memory[1..], field[1..]);
    }
  }

  /** Where the loop is in the text, compared with the buffered automaton. */
  ghost predicate BufferInStep(b: Buffered, memory: string, s: string, pos: nat, quotes: bool) {
    && pos <= |s| && b == BufferText(Buffered(START, memory), s[..pos]) && InField(b)
    && |b.memory| == |memory|
    && (quotes <==> b.t.mode == Quoted)
    && (b.t.mode == Closing && pos < |s| ==> s[pos] != '"')
  }

  /** The quotes flag after a character outside a doubled quote. */
  function Toggle(quotes: bool, c: char): bool {
    if c == '"' then !quotes else quotes
  }

  lemma Held(b: Buffered)
    requires InField(b)
    ensures b.Buffered?
  {
  }

  lemma BufferStepMode(b: Buffered, c: char)
    requires b.Buffered? && BufferStep(b, c).Buffered?
    ensures BufferStep(b, c).t.mode == if b.t.Ends(c) then Open else b.t.Mark(c)
    ensures |BufferStep(b, c).memory| == |b.memory|
  {
  }

  /** One turn of the loop for a character that is not the first of a doubled quote. */
  lemma {:induction false} SingleTurn(b: Buffered, memory: string, s: string, pos: nat, quotes: bool)
    requires BufferInStep(b, memory, s, pos, quotes) && pos < |s| && All(s, NotNul)
    requires !(quotes && s[pos] == '"' && pos + 1 < |s| && s[pos + 1] == '"')
    ensures b.t.mode == Closing ==> s[pos] != '"'
    ensures var r := BufferStep(b, s[pos]);
            && r == BufferText(Buffered(START, memory), s[..pos + 1])
            && (r.Buffered? ==> BufferInStep(r, memory, s, pos + 1, Toggle(quotes, s[pos])))
  {
    hide BufferText, BufferStep, InField;
    BufferNext(Buffered(START, memory), s, pos);
    assert b.Buffered? by { Held(b); }
    if BufferStep(b, s[pos]).Buffered? {
      BufferStepMode(b, s[pos]);
      StepInField(b, s[pos]);
    }
  }

  /** One turn of the loop for a doubled quote. */
  lemma {:induction false} DoubleTurn(b: Buffered, memory: string, s: string, pos: nat)
    requires BufferInStep(b, memory, s, pos, true) && pos + 1 < |s| && All(s, NotNul)
    requires s[pos] == s[pos + 1] == '"'
    ensures var at, field := |b.t.field|, b.t.field + ['"'];
            var r := if at < |memory| then Buffered(b.t.(field := field), b.memory[at := '"']) else Overrun;
            && r == BufferText(Buffered(START, memory), s[..pos + 2])
            && (r.Buffered? ==> BufferInStep(r, memory, s, pos + 2, true))
  {
    hide BufferText;
    var start, closing := Buffered(START, memory), b.(t := b.t.(mode := Closing));
    BufferNext(start, s, pos);
    assert BufferStep(b, '"') == closing;
    BufferNext(start, s, pos + 1);
    if BufferStep(closing, '"').Buffered? {
      StepInField(b, '"');
      StepInField(closing, '"');
    }
  }

  lemma AtStart(memory: string, s: string)
    ensures BufferInStep(Buffered(START, memory), memory, s, 0, false)
  {
  }

  lemma GivenUp(memory: string, s: string, pos: nat)
    requires pos <= |s| && BufferText(Buffered(START, memory), s[..pos]) == Overrun
    ensures CsvRows(s, memory) == None
  {
    assert s == s[..pos] + s[pos..];
    BufferConcat(Buffered(START, memory), s[..pos], s[pos..]);
    OverrunStays(s[pos..]);
  }

  lemma AtEnd(b: Buffered, memory: string, s: string, quotes: bool)
    requires BufferInStep(b, memory, s, |s|, quotes)
    ensures CsvRows(s, memory) == Collect(b)
  {
    assert s[..|s|] == s;
  }

  lemma EndStores(b: Buffered, c: char)
    requires InField(b) && b.t.Ends(c) && |b.t.field| < |b.memory|
    ensures CString(b.memory[|b.t.field| := '\0']) == b.t.field
  {
    StoredField(b.memory[|b.t.field| := '\0'], b.t.field);
  }

  /** `str` is a C string without its NUL; `field` is the stack buffer with whatever is in
      it. No result stands for undefined behaviour. */
  method HamCsvParse(str: string, field: array<char>) returns (tokens: Option<seq<Row>>)
    requires All(str, NotNul) && field.Length == FIELD_SIZE
    modifies field
    ensures tokens == CsvRows(str, old(field[..]))
  {
    hide CString, BufferText, BufferStep, BufferInStep, InField, NotNul, All, CsvRows;
    ghost var memory := field[..];
    ghost var b := Buffered(START, memory);
    var rows: seq<Row>, line: Row := [], [];
    var pos, quotes, ptr := 0, false, 0;
    AtStart(memory, str);
    while pos < |str|
      invariant pos <= |str| && b.Buffered? && BufferInStep(b, memory, str, pos, quotes)
      invariant rows == b.t.rows && line == b.t.line && ptr == |b.t.field| <= field.Length && field[..] == b.memory
    {
      var c := str[pos];
      ModeKnown(b, memory, str, pos, quotes);
      if quotes && c == '"' && pos + 1 < |str| && str[pos + 1] == '"' {
        DoubleTurn(b, memory, str, pos);
      } else {
        SingleTurn(b, memory, str, pos, quotes);
      }
      ghost var next := BufferStep(b, c);
      if !quotes && c == '"' {
        quotes := true;
        StepSkips(b, c);
      } else if quotes && c == '"' {
        if pos + 1 < |str| && str[pos + 1] == '"' {
          if ptr == field.Length {
            GivenUp(memory, str, pos + 2);
            return None;
          }
          next := Buffered(b.t.(field := b.t.field + [c]), b.memory[ptr := c]);
          field[ptr] := c;
          ptr := ptr + 1;
          pos := pos + 1;
        } else {
          quotes := false;
          StepSkips(b, c);
        }
      } else if !quotes && c == ';' {
        StepEnds(b, c);
        if ptr == field.Length {
          GivenUp(memory, str, pos + 1);
          return None;
        }
        field[ptr] := '\0';
        EndStores(b, c);
        line := line + [CString(field[..])];
        ptr := 0;
        field[ptr] := '\0';
      } else if !quotes && (c == '\n' || c == '\r') {
        StepEnds(b, c);
        if ptr == field.Length {
          GivenUp(memory, str, pos + 1);
          return None;
        }
        field[ptr] := '\0';
        EndStores(b, c);
        line := line + [CString(field[..])];
        ptr := 0;
        field[ptr] := '\0';
        rows := rows + [line];
        line := [];
      } else {
        StepKeeps(b, c);
        if ptr == field.Length {
          GivenUp(memory, str, pos + 1);
          return None;
        }
        field[ptr] := c;
        ptr := ptr + 1;
      }
      pos := pos + 1;
      b := next;
    }
    AtEnd(b, memory, str, quotes);
    var tail := CString(field[..]);
    if tail == field[..] {
      return None;
    } else if tail != "" {
      return Some(rows + [line + [tail]]);
    } else {
      return Some(rows);
    }
  }

  lemma ModeKnown(b: Buffered, memory: string, s: string, pos: nat, quotes: bool)
    requires BufferInStep(b, memory, s, pos, quotes)
    ensures InField(b) && (quotes <==> b.t.mode == Quoted)
  {
  }

  lemma StepSkips(b: Buffered, c: char)
    requires b.Buffered? && c == '"' && b.t.mode != Closing
    ensures BufferStep(b, c) == b.(t := b.t.(mode := if b.t.mode == Quoted then Closing else Quoted))
  {
  }

  lemma StepKeeps(b: Buffered, c: char)
    requires b.Buffered? && c != '"' && !b.t.Ends(c)
    ensures BufferStep(b, c) ==
            var at := |b.t.field|;
            if at >= |b.memory| then Overrun else
            Buffered(b.t.(mode := b.t.Mark(c), field := b.t.field + [c]), b.memory[at := c])
  {
  }

  lemma StepEnds(b: Buffered, c: char)
    requires b.Buffered? && b.t.Ends(c)
    ensures BufferStep(b, c) ==
            var at := |b.t.field|;
            if at >= |b.memory| then Overrun else
            Buffered(b.t.End(c), b.memory[at := '\0'][0 := '\0'])
  {
  }
}
