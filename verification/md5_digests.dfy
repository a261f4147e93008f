/** Digests that appendix A.5 of RFC 1321 lists, worked out from the specification. */
module Md5Digests {
  import opened Md5Block
  import opened Md5
  import opened Md5Auxiliary

  // ---------------------------------------------------------------- words and bytes

  /** Writing a word low-order byte first undoes reading it. */
  lemma {:induction false} WordIsLittleEndian(b0: byte, b1: byte, b2: byte, b3: byte)
    ensures LittleEndian(Unsigned(Word(b0, b1, b2, b3)), 4) == [b0, b1, b2, b3]
  {
    hide Word;
    WordValue(b0, b1, b2, b3);
    FourBytes(b0, b1, b2, b3);
  }

  lemma {:induction false} FourBytes(b0: byte, b1: byte, b2: byte, b3: byte)
    ensures LittleEndian(b0 + 0x100 * b1 + 0x1_0000 * b2 + 0x100_0000 * b3, 4) == [b0, b1, b2, b3]
  {
    var v3: nat := b3;
    var v2: nat := b2 + 0x100 * v3;
    var v1: nat := b1 + 0x100 * v2;
    assert b0 + 0x100 * b1 + 0x1_0000 * b2 + 0x100_0000 * b3 == b0 + 0x100 * v1;
    LowByte(b0, v1);
    LowByte(b1, v2);
    LowByte(b2, v3);
    LowByte(b3, 0);
    assert LittleEndian(0, 0) == [];
    assert LittleEndian(v3, 1) == [b3];
    assert LittleEndian(v2, 2) == [b2] + [b3];
    assert LittleEndian(v1, 3) == [b1] + ([b2] + [b3]);
    assert LittleEndian(b0 + 0x100 * v1, 4) == [b0] + ([b1] + ([b2] + [b3]));
  }

  lemma LowByte(b: byte, v: nat)
    ensures (b + 0x100 * v) % 256 == b && (b + 0x100 * v) / 256 == v
  {
  }

  /** Sixteen bytes as registers, low-order bytes first. */
  function Registers(s: seq<byte>): Quad
    requires |s| == 16
  {
    Quad(Word(s[0], s[1], s[2], s[3]), Word(s[4], s[5], s[6], s[7]),
         Word(s[8], s[9], s[10], s[11]), Word(s[12], s[13], s[14], s[15]))
  }

  lemma {:induction false} EncodeUndoes(s: seq<byte>)
    requires |s| == 16
    ensures Encode(Registers(s)) == s
  {
    hide Word, LittleEndian, Unsigned;
    WordIsLittleEndian(s[0], s[1], s[2], s[3]);
    WordIsLittleEndian(s[4], s[5], s[6], s[7]);
    WordIsLittleEndian(s[8], s[9], s[10], s[11]);
    WordIsLittleEndian(s[12], s[13], s[14], s[15]);
  }

  /** Section 3.3: the initial registers, low-order bytes first. */
  lemma {:induction false} InitialBytes()
    ensures Encode(Init()) == [0x01, 0x23, 0x45, 0x67, 0x89, 0xab, 0xcd, 0xef,
                               0xfe, 0xdc, 0xba, 0x98, 0x76, 0x54, 0x32, 0x10]
  {
    hide Encode, Word;
    InitialWords();
    EncodeUndoes([0x01, 0x23, 0x45, 0x67, 0x89, 0xab, 0xcd, 0xef, 0xfe, 0xdc, 0xba, 0x98, 0x76, 0x54, 0x32, 0x10]);
  }

  lemma InitialWords()
    ensures Word(0x01, 0x23, 0x45, 0x67) == 0x67452301 && Word(0x89, 0xab, 0xcd, 0xef) == 0xefcdab89
    ensures Word(0xfe, 0xdc, 0xba, 0x98) == 0x98badcfe && Word(0x76, 0x54, 0x32, 0x10) == 0x10325476
  {
    hide Word;
    WordIs(0x67452301, 0x01, 0x23, 0x45, 0x67);
    WordIs(0xefcdab89, 0x89, 0xab, 0xcd, 0xef);
    WordIs(0x98badcfe, 0xfe, 0xdc, 0xba, 0x98);
    WordIs(0x10325476, 0x76, 0x54, 0x32, 0x10);
  }

  // ---------------------------------------------------------------- running the operations

  /** The registers are shifted along `t`: operation n + i puts its result behind the first
      i + 4 words. */
  predicate Follows(n: nat, k: nat, t: seq<bv32>, x: seq<bv32>)
    requires n + k <= 64 && |t| >= k + 4 && |x| == 16
  {
    k == 0 ||
    (Follows(n, k - 1, t, x) && t[k + 3] == Operation(n + k - 1, t[k - 1], t[k + 2], t[k + 1], t[k], x))
  }

  function At(t: seq<bv32>, k: nat): Quad
    requires |t| >= k + 4
  {
    Quad(t[k], t[k + 3], t[k + 2], t[k + 1])
  }

  lemma {:induction false} FollowedTo(n: nat, k: nat, t: seq<bv32>, x: seq<bv32>, q: Quad)
    requires n + k <= 64 && |t| >= k + 4 && |x| == 16
    requires Follows(n, k, t, x) && Operations(n, q, x) == At(t, 0)
    ensures Operations(n + k, q, x) == At(t, k)
    decreases k
  {
    hide Operation;
    if k > 0 {
      FollowedTo(n, k - 1, t, x, q);
    }
  }

  // ---------------------------------------------------------------- short messages

  /** A message of one block. */
  lemma {:induction false} OneBlock(msg: seq<byte>)
    requires |msg| < 56
    ensures |Padded(msg)| == 64 && MessageDigest(msg) == Encode(Compress(Init(), Words(Padded(msg))))
  {
    hide Compress, Words, Encode, Init, LittleEndian;
    var s := Padded(msg);
    BlockDigest(s);
  }

  lemma BlockDigest(s: seq<byte>)
    requires |s| == 64
    ensures Digest(Init(), s) == Compress(Init(), Words(s))
  {
    hide Compress, Words, Init, Digest;
    NoBlocks(Init(), []);
    assert [] + s == s;
    OneMoreBlock([], s);
  }

  /** A message shorter than a word shares the first one with the byte 0x80; the length is in
      the last word but one. */
  lemma {:induction false} ShortWords(msg: seq<byte>, b: seq<byte>)
    requires |msg| < 4 && b == msg + [0x80] + Zeros(3 - |msg|)
    ensures |Padded(msg)| == 64
    ensures Words(Padded(msg)) == [Word(b[0], b[1], b[2], b[3]), 0, 0, 0, 0, 0, 0, 0,
                                   0, 0, 0, 0, 0, 0, Word(8 * |msg|, 0, 0, 0), 0]
  {
    hide Word, LittleEndian, Words;
    var s := Padded(msg);
    ShortLength(8 * |msg|);
    assert s[..4] == b;
    assert forall i | 4 <= i < 56 || 57 <= i < 64 :: s[i] == 0;
    assert s[56] == 8 * |msg|;
    WordsAt(s);
    NoWord();
  }

  lemma ShortLength(n: byte)
    ensures LittleEndian(n, 8) == [n, 0, 0, 0, 0, 0, 0, 0]
  {
    assert LittleEndian(0, 3) == [0, 0, 0] && LittleEndian(0, 4) == [0] + LittleEndian(0, 3);
    assert LittleEndian(0, 7) == [0, 0, 0] + LittleEndian(0, 4);
  }

  lemma WordsAt(s: seq<byte>)
    requires |s| == 64
    ensures forall i | 0 <= i < 16 :: Words(s)[i] == Word(s[4 * i], s[4 * i + 1], s[4 * i + 2], s[4 * i + 3])
  {
    hide Word;
  }

  lemma NoWord()
    ensures Word(0, 0, 0, 0) == 0
  {
    hide Word;
    WordIs(0, 0, 0, 0, 0);
  }

  /** The hexadecimal form: two digits for each byte, the high one first. */
  lemma {:induction false} HexDigits(s: seq<byte>)
    ensures forall i | 0 <= i < |s| ::
              && Hex(s)[2 * i] == "0123456789abcdef"[s[i] / 16]
              && Hex(s)[2 * i + 1] == "0123456789abcdef"[s[i] % 16]
  {
    hide HexDigit;
    if s != [] {
      var k := |s| - 1;
      HexDigits(s[..k]);
      DigitIs(s[k] / 16);
      DigitIs(s[k] % 16);
    }
  }

  lemma DigitIs(d: nat)
    requires d < 16
    ensures HexDigit(d) == "0123456789abcdef"[d]
  {
  }

  // ---------------------------------------------------------------- the empty message

  const EMPTY_BLOCK: seq<bv32> := [0x00000080, 0, 0, 0, 0, 0, 0, 0, 0, 0, 0, 0, 0, 0, 0, 0]

  const EMPTY_DIGEST: seq<byte> := [0xd4, 0x1d, 0x8c, 0xd9, 0x8f, 0x00, 0xb2, 0x04,
                                     0xe9, 0x80, 0x09, 0x98, 0xec, 0xf8, 0x42, 0x7e]

  // The words the operations put into the registers, eight by eight after the last four before them.

  const EMPTY_TRACE_1: seq<bv32> := [
    0x67452301, 0x10325476, 0x98badcfe, 0xefcdab89,
    0xa5202774, 0xf59592dd, 0xe7f06b23, 0x1b163203,
    0x32033344, 0x2f35d494, 0xf5b158db, 0x9bc13ce9]

  const EMPTY_TRACE_2: seq<bv32> := [
    0x32033344, 0x2f35d494, 0xf5b158db, 0x9bc13ce9,
    0x3893b991, 0xfce4a312, 0xe1ef0576, 0x70768a29,
    0xf56c7cf1, 0x374943a7, 0x5aa53f75, 0xd6819c6a]

  const EMPTY_TRACE_3: seq<bv32> := [
    0xf56c7cf1, 0x374943a7, 0x5aa53f75, 0xd6819c6a,
    0x1c7d7513, 0x7bd57a3a, 0xc095f13a, 0xbd782e17,
    0x3d1e3e6c, 0x68b7b3e3, 0xeb41643e, 0xe422531a]

  const EMPTY_TRACE_4: seq<bv32> := [
    0x3d1e3e6c, 0x68b7b3e3, 0xeb41643e, 0xe422531a,
    0x306ec122, 0xd28c77c2, 0xa3c663da, 0xa0572807,
    0x13707036, 0xae7813db, 0x1c31c384, 0xa2205f1f]

  const EMPTY_TRACE_5: seq<bv32> := [
    0x13707036, 0xae7813db, 0x1c31c384, 0xa2205f1f,
    0xdf63eaa1, 0xc3689f5b, 0x12f3e755, 0x004b6669,
    0x5f7a9b2e, 0xabc34e16, 0x91ca4cb7, 0xc5dc8c15]

  const EMPTY_TRACE_6: seq<bv32> := [
    0x5f7a9b2e, 0xabc34e16, 0x91ca4cb7, 0xc5dc8c15,
    0x4497169d, 0x76fd93d4, 0xfd95f243, 0x0fe32453,
    0x3f55edfd, 0x22a31f54, 0x68d84ea2, 0xca7d2dbd]

  const EMPTY_TRACE_7: seq<bv32> := [
    0x3f55edfd, 0x22a31f54, 0x68d84ea2, 0xca7d2dbd,
    0x93aa2577, 0x1688dc85, 0xcd85b8cb, 0x561e0689,
    0x5625a114, 0x3450f42b, 0x392ad0d0, 0x1e77fa61]

  const EMPTY_TRACE_8: seq<bv32> := [
    0x5625a114, 0x3450f42b, 0x392ad0d0, 0x1e77fa61,
    0x474a9c8c, 0xdfce00bc, 0x36594b14, 0x30130182,
    0x7246fad3, 0x6e10a476, 0xff4ea3eb, 0x14e45506]

  lemma {:induction false} EmptyTrace1()
    ensures Follows(0, 8, EMPTY_TRACE_1, EMPTY_BLOCK)
  {
    hide T, Shift, WordIndex, Cycle;
    Schedule1();
    Constants1();
  }

  lemma {:induction false} EmptyTrace2()
    ensures Follows(8, 8, EMPTY_TRACE_2, EMPTY_BLOCK)
  {
    hide T, Shift, WordIndex, Cycle;
    Schedule1();
    Constants1();
  }

  lemma {:induction false} EmptyTrace3()
    ensures Follows(16, 8, EMPTY_TRACE_3, EMPTY_BLOCK)
  {
    hide T, Shift, WordIndex, Cycle;
    Schedule2();
    Constants2();
  }

  lemma {:induction false} EmptyTrace4()
    ensures Follows(24, 8, EMPTY_TRACE_4, EMPTY_BLOCK)
  {
    hide T, Shift, WordIndex, Cycle;
    Schedule2();
    Constants2();
  }

  lemma {:induction false} EmptyTrace5()
    ensures Follows(32, 8, EMPTY_TRACE_5, EMPTY_BLOCK)
  {
    hide T, Shift, WordIndex, Cycle;
    Schedule3();
    Constants3();
  }

  lemma {:induction false} EmptyTrace6()
    ensures Follows(40, 8, EMPTY_TRACE_6, EMPTY_BLOCK)
  {
    hide T, Shift, WordIndex, Cycle;
    Schedule3();
    Constants3();
  }

  lemma {:induction false} EmptyTrace7()
    ensures Follows(48, 8, EMPTY_TRACE_7, EMPTY_BLOCK)
  {
    hide T, Shift, WordIndex, Cycle;
    Schedule4();
    Constants4();
  }

  lemma {:induction false} EmptyTrace8()
    ensures Follows(56, 8, EMPTY_TRACE_8, EMPTY_BLOCK)
  {
    hide T, Shift, WordIndex, Cycle;
    Schedule4();
    Constants4();
  }

  lemma EmptyJoins()
    ensures Init() == At(EMPTY_TRACE_1, 0) && At(EMPTY_TRACE_1, 8) == At(EMPTY_TRACE_2, 0)
    ensures At(EMPTY_TRACE_2, 8) == At(EMPTY_TRACE_3, 0) && At(EMPTY_TRACE_3, 8) == At(EMPTY_TRACE_4, 0)
    ensures At(EMPTY_TRACE_4, 8) == At(EMPTY_TRACE_5, 0) && At(EMPTY_TRACE_5, 8) == At(EMPTY_TRACE_6, 0)
    ensures At(EMPTY_TRACE_6, 8) == At(EMPTY_TRACE_7, 0) && At(EMPTY_TRACE_7, 8) == At(EMPTY_TRACE_8, 0)
  {
  }

  lemma {:induction false} EmptyWords()
    ensures |Padded([])| == 64 && Words(Padded([])) == EMPTY_BLOCK
  {
    hide Words, Padded, Word;
    WordIs(0x00000080, 0x80, 0x00, 0x00, 0x00);
    WordIs(0, 0, 0, 0, 0);
    assert [] + [0x80] + Zeros(3) == [0x80, 0x00, 0x00, 0x00];
    ShortWords([], [0x80, 0x00, 0x00, 0x00]);
  }

  lemma EmptySum()
    ensures var p, q := At(EMPTY_TRACE_8, 8), Init();
            Quad(Add(q.a, p.a), Add(q.b, p.b), Add(q.c, p.c), Add(q.d, p.d)) ==
            Quad(0xd98c1dd4, 0x04b2008f, 0x980980e9, 0x7e42f8ec)
  {
  }

  lemma EmptyRegisters()
    ensures Registers(EMPTY_DIGEST) == Quad(0xd98c1dd4, 0x04b2008f, 0x980980e9, 0x7e42f8ec)
  {
    hide Word;
    WordIs(0xd98c1dd4, 0xd4, 0x1d, 0x8c, 0xd9);
    WordIs(0x04b2008f, 0x8f, 0x00, 0xb2, 0x04);
    WordIs(0x980980e9, 0xe9, 0x80, 0x09, 0x98);
    WordIs(0x7e42f8ec, 0xec, 0xf8, 0x42, 0x7e);
  }

  lemma {:induction false} EmptyCompressed()
    ensures Compress(Init(), EMPTY_BLOCK) == Registers(EMPTY_DIGEST)
  {
    hide Operations, Follows, Init, At, Add, Compress, Registers;
    NoOperations(Init(), EMPTY_BLOCK);
    EmptyJoins();
    EmptyTrace1();
    FollowedTo(0, 8, EMPTY_TRACE_1, EMPTY_BLOCK, Init());
    EmptyTrace2();
    FollowedTo(8, 8, EMPTY_TRACE_2, EMPTY_BLOCK, Init());
    EmptyTrace3();
    FollowedTo(16, 8, EMPTY_TRACE_3, EMPTY_BLOCK, Init());
    EmptyTrace4();
    FollowedTo(24, 8, EMPTY_TRACE_4, EMPTY_BLOCK, Init());
    EmptyTrace5();
    FollowedTo(32, 8, EMPTY_TRACE_5, EMPTY_BLOCK, Init());
    EmptyTrace6();
    FollowedTo(40, 8, EMPTY_TRACE_6, EMPTY_BLOCK, Init());
    EmptyTrace7();
    FollowedTo(48, 8, EMPTY_TRACE_7, EMPTY_BLOCK, Init());
    EmptyTrace8();
    FollowedTo(56, 8, EMPTY_TRACE_8, EMPTY_BLOCK, Init());
    var p := At(EMPTY_TRACE_8, 8);
    CompressedIs(Init(), EMPTY_BLOCK, p.a, p.b, p.c, p.d);
    EmptySum();
    EmptyRegisters();
  }

  /** The digest of the empty message is d41d8cd98f00b204e9800998ecf8427e. */
  lemma {:induction false} DigestOfEmpty()
    ensures MessageDigest([]) == EMPTY_DIGEST
  {
    hide MessageDigest, Words, Padded, Encode, Init, Compress, Registers;
    EmptyWords();
    OneBlock([]);
    EmptyCompressed();
    EncodeUndoes(EMPTY_DIGEST);
  }

  // ---------------------------------------------------------------- "abc"

  const ABC_BLOCK: seq<bv32> := [0x80636261, 0, 0, 0, 0, 0, 0, 0, 0, 0, 0, 0, 0, 0, 24, 0]

  const ABC_DIGEST: seq<byte> := [0x90, 0x01, 0x50, 0x98, 0x3c, 0xd2, 0x4f, 0xb0,
                                   0xd6, 0x96, 0x3f, 0x7d, 0x28, 0xe1, 0x7f, 0x72]

  // The words the operations put into the registers, eight by eight after the last four before them.

  const ABC_TRACE_1: seq<bv32> := [
    0x67452301, 0x10325476, 0x98badcfe, 0xefcdab89,
    0xd6d117b4, 0x344a8432, 0x2f6fbd72, 0x7ad956f2,
    0xc73741ef, 0x8bac3051, 0x207dc67b, 0x928d99f6]

  const ABC_TRACE_2: seq<bv32> := [
    0xc73741ef, 0x8bac3051, 0x207dc67b, 0x928d99f6,
    0x854b3712, 0x74e2f284, 0x3020401c, 0x5ed49596,
    0xdda9b9a6, 0xa1051895, 0xe396856b, 0x72aff2e0]

  const ABC_TRACE_3: seq<bv32> := [
    0xdda9b9a6, 0xa1051895, 0xe396856b, 0x72aff2e0,
    0x3e9e9126, 0x4a1d804e, 0xe25e1652, 0xb5b204e4,
    0x59a8ffda, 0x6d002f1e, 0xabfc7920, 0x47092c07]

  const ABC_TRACE_4: seq<bv32> := [
    0x59a8ffda, 0x6d002f1e, 0xabfc7920, 0x47092c07,
    0xb7f268cf, 0x09388eff, 0xfe1623b1, 0x786acb8f,
    0x790a77fb, 0x9f47e4f8, 0xa62884aa, 0x726342d3]

  const ABC_TRACE_5: seq<bv32> := [
    0x790a77fb, 0x9f47e4f8, 0xa62884aa, 0x726342d3,
    0xb3707ebf, 0x60127b2e, 0x8d212ff5, 0x3b0875c7,
    0x21b117b9, 0x6e7429d5, 0x3575227e, 0x5a2f5ea5]

  const ABC_TRACE_6: seq<bv32> := [
    0x21b117b9, 0x6e7429d5, 0x3575227e, 0x5a2f5ea5,
    0x11de1779, 0xfadcaa38, 0x31c465ca, 0x4c6124f4,
    0x7f2e507b, 0x99d9679d, 0x8fae6399, 0x7beb9700]

  const ABC_TRACE_7: seq<bv32> := [
    0x7f2e507b, 0x99d9679d, 0x8fae6399, 0x7beb9700,
    0x7b201df8, 0xf4e8e96e, 0xb298cefd, 0x8bf025c4,
    0x06cc5e8a, 0x5b0d97aa, 0x7d632dd0, 0x3bfa2c27]

  const ABC_TRACE_8: seq<bv32> := [
    0x06cc5e8a, 0x5b0d97aa, 0x7d632dd0, 0x3bfa2c27,
    0x7f81cc35, 0x094454ab, 0x4f9dbe3f, 0x7327d604,
    0x310ade8f, 0x624d8cb2, 0xe484b9d8, 0xc08226b3]

  lemma {:induction false} AbcTrace1()
    ensures Follows(0, 8, ABC_TRACE_1, ABC_BLOCK)
  {
    hide T, Shift, WordIndex, Cycle;
    Schedule1();
    Constants1();
  }

  lemma {:induction false} AbcTrace2()
    ensures Follows(8, 8, ABC_TRACE_2, ABC_BLOCK)
  {
    hide T, Shift, WordIndex, Cycle;
    Schedule1();
    Constants1();
  }

  lemma {:induction false} AbcTrace3()
    ensures Follows(16, 8, ABC_TRACE_3, ABC_BLOCK)
  {
    hide T, Shift, WordIndex, Cycle;
    Schedule2();
    Constants2();
  }

  lemma {:induction false} AbcTrace4()
    ensures Follows(24, 8, ABC_TRACE_4, ABC_BLOCK)
  {
    hide T, Shift, WordIndex, Cycle;
    Schedule2();
    Constants2();
  }

  lemma {:induction false} AbcTrace5()
    ensures Follows(32, 8, ABC_TRACE_5, ABC_BLOCK)
  {
    hide T, Shift, WordIndex, Cycle;
    Schedule3();
    Constants3();
  }

  lemma {:induction false} AbcTrace6()
    ensures Follows(40, 8, ABC_TRACE_6, ABC_BLOCK)
  {
    hide T, Shift, WordIndex, Cycle;
    Schedule3();
    Constants3();
  }

  lemma {:induction false} AbcTrace7()
    ensures Follows(48, 8, ABC_TRACE_7, ABC_BLOCK)
  {
    hide T, Shift, WordIndex, Cycle;
    Schedule4();
    Constants4();
  }

  lemma {:induction false} AbcTrace8()
    ensures Follows(56, 8, ABC_TRACE_8, ABC_BLOCK)
  {
    hide T, Shift, WordIndex, Cycle;
    Schedule4();
    Constants4();
  }

  lemma AbcJoins()
    ensures Init() == At(ABC_TRACE_1, 0) && At(ABC_TRACE_1, 8) == At(ABC_TRACE_2, 0)
    ensures At(ABC_TRACE_2, 8) == At(ABC_TRACE_3, 0) && At(ABC_TRACE_3, 8) == At(ABC_TRACE_4, 0)
    ensures At(ABC_TRACE_4, 8) == At(ABC_TRACE_5, 0) && At(ABC_TRACE_5, 8) == At(ABC_TRACE_6, 0)
    ensures At(ABC_TRACE_6, 8) == At(ABC_TRACE_7, 0) && At(ABC_TRACE_7, 8) == At(ABC_TRACE_8, 0)
  {
  }

  lemma {:induction false} AbcWords()
    ensures |Padded([0x61, 0x62, 0x63])| == 64 && Words(Padded([0x61, 0x62, 0x63])) == ABC_BLOCK
  {
    hide Words, Padded, Word;
    WordIs(0x80636261, 0x61, 0x62, 0x63, 0x80);
    WordIs(24, 24, 0, 0, 0);
    assert [0x61, 0x62, 0x63] + [0x80] + Zeros(0) == [0x61, 0x62, 0x63, 0x80];
    ShortWords([0x61, 0x62, 0x63], [0x61, 0x62, 0x63, 0x80]);
  }

  lemma AbcSum()
    ensures var p, q := At(ABC_TRACE_8, 8), Init();
            Quad(Add(q.a, p.a), Add(q.b, p.b), Add(q.c, p.c), Add(q.d, p.d)) ==
            Quad(0x98500190, 0xb04fd23c, 0x7d3f96d6, 0x727fe128)
  {
  }

  lemma AbcRegisters()
    ensures Registers(ABC_DIGEST) == Quad(0x98500190, 0xb04fd23c, 0x7d3f96d6, 0x727fe128)
  {
    hide Word;
    WordIs(0x98500190, 0x90, 0x01, 0x50, 0x98);
    WordIs(0xb04fd23c, 0x3c, 0xd2, 0x4f, 0xb0);
    WordIs(0x7d3f96d6, 0xd6, 0x96, 0x3f, 0x7d);
    WordIs(0x727fe128, 0x28, 0xe1, 0x7f, 0x72);
  }

  lemma {:induction false} AbcCompressed()
    ensures Compress(Init(), ABC_BLOCK) == Registers(ABC_DIGEST)
  {
    hide Operations, Follows, Init, At, Add, Compress, Registers;
    NoOperations(Init(), ABC_BLOCK);
    AbcJoins();
    AbcTrace1();
    FollowedTo(0, 8, ABC_TRACE_1, ABC_BLOCK, Init());
    AbcTrace2();
    FollowedTo(8, 8, ABC_TRACE_2, ABC_BLOCK, Init());
    AbcTrace3();
    FollowedTo(16, 8, ABC_TRACE_3, ABC_BLOCK, Init());
    AbcTrace4();
    FollowedTo(24, 8, ABC_TRACE_4, ABC_BLOCK, Init());
    AbcTrace5();
    FollowedTo(32, 8, ABC_TRACE_5, ABC_BLOCK, Init());
    AbcTrace6();
    FollowedTo(40, 8, ABC_TRACE_6, ABC_BLOCK, Init());
    AbcTrace7();
    FollowedTo(48, 8, ABC_TRACE_7, ABC_BLOCK, Init());
    AbcTrace8();
    FollowedTo(56, 8, ABC_TRACE_8, ABC_BLOCK, Init());
    var p := At(ABC_TRACE_8, 8);
    CompressedIs(Init(), ABC_BLOCK, p.a, p.b, p.c, p.d);
    AbcSum();
    AbcRegisters();
  }

  /** The digest of "abc" is 900150983cd24fb0d6963f7d28e17f72. */
  lemma {:induction false} DigestOfAbc()
    ensures MessageDigest([0x61, 0x62, 0x63]) == ABC_DIGEST
  {
    hide MessageDigest, Words, Padded, Encode, Init, Compress, Registers;
    AbcWords();
    OneBlock([0x61, 0x62, 0x63]);
    AbcCompressed();
    EncodeUndoes(ABC_DIGEST);
  }
}
