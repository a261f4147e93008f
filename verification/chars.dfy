/** Character classes, maximal runs of characters, and decimal numerals: the vocabulary
    shared by both protocol parsers and both printers. A `char` stands for one byte; bytes
    128..255 are negative as a signed C char, which is why they are not `IsChar`. */
module Chars {
  datatype Option<+T> = None | Some(value: T)

  predicate IsChar(c: char) {
    c as int <= 127
  }

  predicate IsControl(c: char) {
    c as int <= 31 || c as int == 127
  }

  predicate IsSpecial(c: char) {
    || c == '(' || c == ')' || c == '<' || c == '>' || c == '@' || c == ',' || c == ';'
    || c == ':' || c == '\\' || c == '"' || c == '/' || c == '[' || c == ']' || c == '?'
    || c == '=' || c == '{' || c == '}' || c == ' ' || c == '\t'
  }

  predicate IsDigit(c: char) {
    '0' <= c <= '9'
  }

  predicate IsToken(c: char) {
    IsChar(c) && !IsControl(c) && !IsSpecial(c)
  }

  /** What both parsers accept inside a header value. */
  predicate IsValueChar(c: char) {
    !IsControl(c)
  }

  predicate IsBlank(c: char) {
    c == ' ' || c == '\t'
  }

  /** The bytes that may stand in methods and header names: letters, digits and fifteen more
      (section 2.2 of RFC 2616). */
  lemma TokenChars(c: char)
    ensures IsToken(c) <==> 'A' <= c <= 'Z' || 'a' <= c <= 'z' || '0' <= c <= '9' || c in "!#$%&'*+-.^_`|~"
  {
  }

  lemma BlankChars(c: char)
    ensures IsBlank(c) <==> c as int == 9 || c as int == 32
  {
  }

  /** The bytes that may stand in header values: the printable ones, the blank, and those that
      are not ASCII. */
  lemma ValueChars(c: char)
    ensures IsValueChar(c) <==> 32 <= c as int <= 126 || 128 <= c as int
  {
  }

  predicate NotCr(c: char) {
    c != '\r'
  }

  predicate NotNul(c: char) {
    c != '\0'
  }

  ghost predicate All(s: string, p: char -> bool) {
    forall i | 0 <= i < |s| :: p(s[i])
  }

  /** A word is a non-empty string of token characters (section 2.2 of RFC 2616). */
  ghost predicate IsWord(s: string) {
    s != "" && All(s, IsToken)
  }

  /** Length of the longest prefix of `s` whose characters all satisfy `p`. */
  function Span(s: string, p: char -> bool): (n: nat)
    ensures n <= |s|
    ensures All(s[..n], p)
    ensures n < |s| ==> !p(s[n])
  {
    if s == "" || !p(s[0]) then 0 else
      assert forall i | 1 <= i < 1 + Span(s[1..], p) :: s[i] == s[1..][i - 1];
      1 + Span(s[1..], p)
  }

  /** The C string held in a buffer: everything before the first NUL. */
  function CString(s: string): (r: string)
    ensures r <= s && All(r, NotNul)
    ensures r == s <==> All(s, NotNul)
  {
    if s == "" || s[0] == '\0' then "" else
      var r := [s[0]] + CString(s[1..]);
      assert s == [s[0]] + s[1..];
      r
  }

  lemma ConcatAssoc(a: string, b: string, c: string)
    ensures a + b + c == a + (b + c)
  {
  }

  /** The value of a decimal digit. */
  function DigitValue(c: char): (d: nat)
    requires IsDigit(c)
    ensures d <= 9
  {
    c as int - '0' as int
  }

  function DigitChar(d: nat): (c: char)
    requires d <= 9
    ensures IsDigit(c) && DigitValue(c) == d
  {
    ('0' as int + d) as char
  }

  /** Decimal numeral of a natural number, as printed by "%d" and by lexical_cast. */
  function Decimal(n: nat): (s: string)
    ensures s != "" && All(s, IsDigit)
    ensures s == "0" <==> n == 0
  {
    if n < 10 then [DigitChar(n)] else Decimal(n / 10) + [DigitChar(n % 10)]
  }

  /** Number denoted by a digit string. */
  function Number(s: string): nat
    requires All(s, IsDigit)
  {
    if s == "" then 0 else Number(s[..|s| - 1]) * 10 + DigitValue(s[|s| - 1])
  }

  lemma {:induction false} NumberOfDecimal(n: nat)
    ensures Number(Decimal(n)) == n
  {
    if n >= 10 {
      NumberOfDecimal(n / 10);
      assert Decimal(n)[..|Decimal(n)| - 1] == Decimal(n / 10);
    }
  }

  function Pow10(k: nat): (p: nat)
    ensures p >= 1
  {
    if k == 0 then 1 else 10 * Pow10(k - 1)
  }

  /** A numeral has at most k digits exactly when the number is below 10^k. */
  lemma {:induction false} DecimalLength(n: nat, k: nat)
    requires k >= 1
    ensures |Decimal(n)| <= k <==> n < Pow10(k)
  {
    if k == 1 {
      assert Pow10(1) == 10;
    } else if n >= 10 {
      DecimalLength(n / 10, k - 1);
    } else {
      assert Pow10(k) >= 10;
    }
  }
}
