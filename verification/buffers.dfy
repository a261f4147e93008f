/** The output buffers that the two-pass printers fill through a moving pointer. */
module Buffers {
  /** "sprintf": writes `s` and a NUL at `at`, and returns the position of the NUL. */
  method PutString(data: array<char>, at: nat, s: string) returns (end: nat)
    requires at + |s| < data.Length
    modifies data
    ensures end == at + |s|
    ensures data[..end] == old(data[..at]) + s && data[end] == '\0'
  {
    for i := 0 to |s|
      invariant data[..at] == old(data[..at])
      invariant data[at..at + i] == s[..i]
    {
      data[at + i] := s[i];
    }
    end := at + |s|;
    data[end] := '\0';
  }
}
