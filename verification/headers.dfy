/** Header fields and their printed form, common to both directions of the protocol. */
module Headers {
  import opened Chars

  datatype Header = Header(name: string, value: string)

  predicate HasHeader(headers: seq<Header>, name: string) {
    exists h :: h in headers && h.name == name
  }

  /** A field both parsers can read: a token name and a value free of control characters. */
  ghost predicate LegalHeader(h: Header) {
    IsWord(h.name) && All(h.value, IsValueChar)
  }

  function PrintHeader(h: Header): string {
    h.name + ": " + h.value + "\r\n"
  }

  function PrintHeaders(headers: seq<Header>): string {
    if headers == [] then "" else PrintHeaders(headers[..|headers| - 1]) + PrintHeader(headers[|headers| - 1])
  }

  lemma PrintHeadersSnoc(headers: seq<Header>, h: Header)
    ensures PrintHeaders(headers + [h]) == PrintHeaders(headers) + PrintHeader(h)
  {
    assert (headers + [h])[..|headers|] == headers;
  }

  lemma DigitsAreValueChars(s: string)
    requires All(s, IsDigit)
    ensures All(s, IsValueChar)
  {
  }

  lemma ContentLengthIsLegal(n: nat)
    ensures LegalHeader(Header("Content-Length", Decimal(n)))
  {
    hide Decimal;
    DigitsAreValueChars(Decimal(n));
  }
}
