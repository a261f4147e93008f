/** The MD5 compression function: the specification of section 3.4 of RFC 1321 as a loop of
    64 operations, and the unrolled code with its rotated argument positions. */
module Md5Block {
  type byte = x: int | 0 <= x < 256

  /** The four registers. */
  datatype Quad = Quad(a: bv32, b: bv32, c: bv32, d: bv32)

  function F(x: bv32, y: bv32, z: bv32): bv32 { (x & y) | (!x & z) }

  function G(x: bv32, y: bv32, z: bv32): bv32 { (x & z) | (y & !z) }

  function H(x: bv32, y: bv32, z: bv32): bv32 { x ^ y ^ z }

  function I(x: bv32, y: bv32, z: bv32): bv32 { y ^ (x | !z) }

  function Add(x: bv32, y: bv32): bv32 { x + y }

  function RotateLeft(x: bv32, n: bv6): bv32
    requires 0 < n < 32
  {
    (x << n) | (x >> (32 - n))
  }

  // ---------------------------------------------------------------- specification

  const T_TABLE_1: seq<bv32> := [
    0xd76aa478, 0xe8c7b756, 0x242070db, 0xc1bdceee,
    0xf57c0faf, 0x4787c62a, 0xa8304613, 0xfd469501,
    0x698098d8, 0x8b44f7af, 0xffff5bb1, 0x895cd7be,
    0x6b901122, 0xfd987193, 0xa679438e, 0x49b40821]
  const T_TABLE_2: seq<bv32> := [
    0xf61e2562, 0xc040b340, 0x265e5a51, 0xe9b6c7aa,
    0xd62f105d, 0x02441453, 0xd8a1e681, 0xe7d3fbc8,
    0x21e1cde6, 0xc33707d6, 0xf4d50d87, 0x455a14ed,
    0xa9e3e905, 0xfcefa3f8, 0x676f02d9, 0x8d2a4c8a]
  const T_TABLE_3: seq<bv32> := [
    0xfffa3942, 0x8771f681, 0x6d9d6122, 0xfde5380c,
    0xa4beea44, 0x4bdecfa9, 0xf6bb4b60, 0xbebfbc70,
    0x289b7ec6, 0xeaa127fa, 0xd4ef3085, 0x04881d05,
    0xd9d4d039, 0xe6db99e5, 0x1fa27cf8, 0xc4ac5665]
  const T_TABLE_4: seq<bv32> := [
    0xf4292244, 0x432aff97, 0xab9423a7, 0xfc93a039,
    0x655b59c3, 0x8f0ccc92, 0xffeff47d, 0x85845dd1,
    0x6fa87e4f, 0xfe2ce6e0, 0xa3014314, 0x4e0811a1,
    0xf7537e82, 0xbd3af235, 0x2ad7d2bb, 0xeb86d391]

  /** Index of the word used by operation i. */
  function WordIndex(i: nat): (k: nat)
    requires i < 64
    ensures k < 16
  {
    if i < 16 then i
    else if i < 32 then (5 * i + 1) % 16
    else if i < 48 then (3 * i + 5) % 16
    else 7 * i % 16
  }

  /** Rotation of operation i: each round has a cycle of four. */
  function Shift(i: nat): (s: bv6)
    requires i < 64
    ensures 0 < s < 32
  {
    if i < 16 then Cycle(i, 7, 12, 17, 22)
    else if i < 32 then Cycle(i, 5, 9, 14, 20)
    else if i < 48 then Cycle(i, 4, 11, 16, 23)
    else Cycle(i, 6, 10, 15, 21)
  }

  function Cycle(i: nat, s0: bv6, s1: bv6, s2: bv6, s3: bv6): bv6 {
    if i % 4 == 0 then s0 else if i % 4 == 1 then s1 else if i % 4 == 2 then s2 else s3
  }

  function T(i: nat): bv32
    requires i < 64
  {
    if i < 16 then T_TABLE_1[i]
    else if i < 32 then T_TABLE_2[i - 16]
    else if i < 48 then T_TABLE_3[i - 32]
    else T_TABLE_4[i - 48]
  }

  function Mix(i: nat, x: bv32, y: bv32, z: bv32): bv32
    requires i < 64
  {
    if i < 16 then F(x, y, z) else if i < 32 then G(x, y, z) else if i < 48 then H(x, y, z) else I(x, y, z)
  }

  /** "a = b + ((a + f(b,c,d) + X[k] + T[i]) <<< s)". */
  function Operation(i: nat, a: bv32, b: bv32, c: bv32, d: bv32, x: seq<bv32>): bv32
    requires i < 64 && |x| == 16
  {
    b + RotateLeft(a + Mix(i, b, c, d) + x[WordIndex(i)] + T(i), Shift(i))
  }

  /** The registers after the first n operations, always in the order of the next one. */
  function Operations(n: nat, q: Quad, x: seq<bv32>): Quad
    requires n <= 64 && |x| == 16
  {
    if n == 0 then q else
      var p := Operations(n - 1, q, x);
      Quad(p.d, Operation(n - 1, p.a, p.b, p.c, p.d, x), p.b, p.c)
  }

  function Compress(q: Quad, x: seq<bv32>): Quad
    requires |x| == 16
  {
    var p := Operations(64, q, x);
    Quad(Add(q.a, p.a), Add(q.b, p.b), Add(q.c, p.c), Add(q.d, p.d))
  }

  /** Four bytes, low-order first, as a word. */
  function Word(b0: byte, b1: byte, b2: byte, b3: byte): bv32 {
    (b0 + 0x100 * b1 + 0x1_0000 * b2 + 0x100_0000 * b3) as bv32
  }

  function Words(block: seq<byte>): (x: seq<bv32>)
    requires |block| == 64
    ensures |x| == 16
  {
    seq(16, i requires 0 <= i < 16 => Word(block[4 * i], block[4 * i + 1], block[4 * i + 2], block[4 * i + 3]))
  }

  // ---------------------------------------------------------------- the unrolled code

  const T_MASK: bv32 := 0xffffffff
  const T1: bv32 := T_MASK ^ 0x28955b87
  const T2: bv32 := T_MASK ^ 0x173848a9
  const T3: bv32 := 0x242070db
  const T4: bv32 := T_MASK ^ 0x3e423111
  const T5: bv32 := T_MASK ^ 0x0a83f050
  const T6: bv32 := 0x4787c62a
  const T7: bv32 := T_MASK ^ 0x57cfb9ec
  const T8: bv32 := T_MASK ^ 0x02b96afe
  const T9: bv32 := 0x698098d8
  const T10: bv32 := T_MASK ^ 0x74bb0850
  const T11: bv32 := T_MASK ^ 0x0000a44e
  const T12: bv32 := T_MASK ^ 0x76a32841
  const T13: bv32 := 0x6b901122
  const T14: bv32 := T_MASK ^ 0x02678e6c
  const T15: bv32 := T_MASK ^ 0x5986bc71
  const T16: bv32 := 0x49b40821
  const T17: bv32 := T_MASK ^ 0x09e1da9d
  const T18: bv32 := T_MASK ^ 0x3fbf4cbf
  const T19: bv32 := 0x265e5a51
  const T20: bv32 := T_MASK ^ 0x16493855
  const T21: bv32 := T_MASK ^ 0x29d0efa2
  const T22: bv32 := 0x02441453
  const T23: bv32 := T_MASK ^ 0x275e197e
  const T24: bv32 := T_MASK ^ 0x182c0437
  const T25: bv32 := 0x21e1cde6
  const T26: bv32 := T_MASK ^ 0x3cc8f829
  const T27: bv32 := T_MASK ^ 0x0b2af278
  const T28: bv32 := 0x455a14ed
  const T29: bv32 := T_MASK ^ 0x561c16fa
  const T30: bv32 := T_MASK ^ 0x03105c07
  const T31: bv32 := 0x676f02d9
  const T32: bv32 := T_MASK ^ 0x72d5b375
  const T33: bv32 := T_MASK ^ 0x0005c6bd
  const T34: bv32 := T_MASK ^ 0x788e097e
  const T35: bv32 := 0x6d9d6122
  const T36: bv32 := T_MASK ^ 0x021ac7f3
  const T37: bv32 := T_MASK ^ 0x5b4115bb
  const T38: bv32 := 0x4bdecfa9
  const T39: bv32 := T_MASK ^ 0x0944b49f
  const T40: bv32 := T_MASK ^ 0x4140438f
  const T41: bv32 := 0x289b7ec6
  const T42: bv32 := T_MASK ^ 0x155ed805
  const T43: bv32 := T_MASK ^ 0x2b10cf7a
  const T44: bv32 := 0x04881d05
  const T45: bv32 := T_MASK ^ 0x262b2fc6
  const T46: bv32 := T_MASK ^ 0x1924661a
  const T47: bv32 := 0x1fa27cf8
  const T48: bv32 := T_MASK ^ 0x3b53a99a
  const T49: bv32 := T_MASK ^ 0x0bd6ddbb
  const T50: bv32 := 0x432aff97
  const T51: bv32 := T_MASK ^ 0x546bdc58
  const T52: bv32 := T_MASK ^ 0x036c5fc6
  const T53: bv32 := 0x655b59c3
  const T54: bv32 := T_MASK ^ 0x70f3336d
  const T55: bv32 := T_MASK ^ 0x00100b82
  const T56: bv32 := T_MASK ^ 0x7a7ba22e
  const T57: bv32 := 0x6fa87e4f
  const T58: bv32 := T_MASK ^ 0x01d3191f
  const T59: bv32 := T_MASK ^ 0x5cfebceb
  const T60: bv32 := 0x4e0811a1
  const T61: bv32 := T_MASK ^ 0x08ac817d
  const T62: bv32 := T_MASK ^ 0x42c50dca
  const T63: bv32 := 0x2ad7d2bb
  const T64: bv32 := T_MASK ^ 0x14792c6e

  /** What the macro SET assigns to its first argument. */
  function Set(a: bv32, mixed: bv32, b: bv32, x: bv32, s: bv6, t: bv32): bv32
    requires 0 < s < 32
  {
    RotateLeft(a + mixed + x + t, s) + b
  }

  /** Operation i of the specification, in the form of the macro. */
  function SetAt(i: nat, a: bv32, b: bv32, c: bv32, d: bv32, x: seq<bv32>): bv32
    requires i < 64 && |x| == 16
  {
    Set(a, Mix(i, b, c, d), b, x[WordIndex(i)], Shift(i), T(i))
  }

  lemma SetAtIsOperation(i: nat, a: bv32, b: bv32, c: bv32, d: bv32, x: seq<bv32>)
    requires i < 64 && |x| == 16
    ensures SetAt(i, a, b, c, d, x) == Operation(i, a, b, c, d, x)
  {
    hide RotateLeft, F, G, H, I, T, Shift, WordIndex;
  }

  /** Four uses of the macro, with its arguments rotated, bring the registers back to their
      places: they are four operations of the specification. */
  lemma {:induction false} FourSets(n: nat, q: Quad, x: seq<bv32>)
    requires n + 4 <= 64 && |x| == 16
    ensures var p := Operations(n, q, x);
            var a := SetAt(n, p.a, p.b, p.c, p.d, x);
            var d := SetAt(n + 1, p.d, a, p.b, p.c, x);
            var c := SetAt(n + 2, p.c, d, a, p.b, x);
            var b := SetAt(n + 3, p.b, c, d, a, x);
            Operations(n + 4, q, x) == Quad(a, b, c, d)
  {
    hide Operation, SetAt;
    var p := Operations(n, q, x);
    var a := SetAt(n, p.a, p.b, p.c, p.d, x);
    SetAtIsOperation(n, p.a, p.b, p.c, p.d, x);
    assert Operations(n + 1, q, x) == Quad(p.d, a, p.b, p.c);
    var d := SetAt(n + 1, p.d, a, p.b, p.c, x);
    SetAtIsOperation(n + 1, p.d, a, p.b, p.c, x);
    assert Operations(n + 2, q, x) == Quad(p.c, d, a, p.b);
    var c := SetAt(n + 2, p.c, d, a, p.b, x);
    SetAtIsOperation(n + 2, p.c, d, a, p.b, x);
    assert Operations(n + 3, q, x) == Quad(p.b, c, d, a);
    SetAtIsOperation(n + 3, p.b, c, d, a, x);
  }

  // The operands written out in the code are those of the specification, round by round.

  lemma Schedule1()
    ensures WordIndex(0) == 0 && Shift(0) == 7 && WordIndex(1) == 1 && Shift(1) == 12
    ensures WordIndex(2) == 2 && Shift(2) == 17 && WordIndex(3) == 3 && Shift(3) == 22
    ensures WordIndex(4) == 4 && Shift(4) == 7 && WordIndex(5) == 5 && Shift(5) == 12
    ensures WordIndex(6) == 6 && Shift(6) == 17 && WordIndex(7) == 7 && Shift(7) == 22
    ensures WordIndex(8) == 8 && Shift(8) == 7 && WordIndex(9) == 9 && Shift(9) == 12
    ensures WordIndex(10) == 10 && Shift(10) == 17 && WordIndex(11) == 11 && Shift(11) == 22
    ensures WordIndex(12) == 12 && Shift(12) == 7 && WordIndex(13) == 13 && Shift(13) == 12
    ensures WordIndex(14) == 14 && Shift(14) == 17 && WordIndex(15) == 15 && Shift(15) == 22
  {
    hide T;
  }

  lemma Constants1()
    ensures T(0) == T1 && T(1) == T2 && T(2) == T3 && T(3) == T4
    ensures T(4) == T5 && T(5) == T6 && T(6) == T7 && T(7) == T8
    ensures T(8) == T9 && T(9) == T10 && T(10) == T11 && T(11) == T12
    ensures T(12) == T13 && T(13) == T14 && T(14) == T15 && T(15) == T16
  {
  }

  lemma Schedule2()
    ensures WordIndex(16) == 1 && Shift(16) == 5 && WordIndex(17) == 6 && Shift(17) == 9
    ensures WordIndex(18) == 11 && Shift(18) == 14 && WordIndex(19) == 0 && Shift(19) == 20
    ensures WordIndex(20) == 5 && Shift(20) == 5 && WordIndex(21) == 10 && Shift(21) == 9
    ensures WordIndex(22) == 15 && Shift(22) == 14 && WordIndex(23) == 4 && Shift(23) == 20
    ensures WordIndex(24) == 9 && Shift(24) == 5 && WordIndex(25) == 14 && Shift(25) == 9
    ensures WordIndex(26) == 3 && Shift(26) == 14 && WordIndex(27) == 8 && Shift(27) == 20
    ensures WordIndex(28) == 13 && Shift(28) == 5 && WordIndex(29) == 2 && Shift(29) == 9
    ensures WordIndex(30) == 7 && Shift(30) == 14 && WordIndex(31) == 12 && Shift(31) == 20
  {
    hide T;
  }

  lemma Constants2()
    ensures T(16) == T17 && T(17) == T18 && T(18) == T19 && T(19) == T20
    ensures T(20) == T21 && T(21) == T22 && T(22) == T23 && T(23) == T24
    ensures T(24) == T25 && T(25) == T26 && T(26) == T27 && T(27) == T28
    ensures T(28) == T29 && T(29) == T30 && T(30) == T31 && T(31) == T32
  {
  }

  lemma Schedule3()
    ensures WordIndex(32) == 5 && Shift(32) == 4 && WordIndex(33) == 8 && Shift(33) == 11
    ensures WordIndex(34) == 11 && Shift(34) == 16 && WordIndex(35) == 14 && Shift(35) == 23
    ensures WordIndex(36) == 1 && Shift(36) == 4 && WordIndex(37) == 4 && Shift(37) == 11
    ensures WordIndex(38) == 7 && Shift(38) == 16 && WordIndex(39) == 10 && Shift(39) == 23
    ensures WordIndex(40) == 13 && Shift(40) == 4 && WordIndex(41) == 0 && Shift(41) == 11
    ensures WordIndex(42) == 3 && Shift(42) == 16 && WordIndex(43) == 6 && Shift(43) == 23
    ensures WordIndex(44) == 9 && Shift(44) == 4 && WordIndex(45) == 12 && Shift(45) == 11
    ensures WordIndex(46) == 15 && Shift(46) == 16 && WordIndex(47) == 2 && Shift(47) == 23
  {
    hide T;
  }

  lemma Constants3()
    ensures T(32) == T33 && T(33) == T34 && T(34) == T35 && T(35) == T36
    ensures T(36) == T37 && T(37) == T38 && T(38) == T39 && T(39) == T40
    ensures T(40) == T41 && T(41) == T42 && T(42) == T43 && T(43) == T44
    ensures T(44) == T45 && T(45) == T46 && T(46) == T47 && T(47) == T48
  {
  }

  lemma Schedule4()
    ensures WordIndex(48) == 0 && Shift(48) == 6 && WordIndex(49) == 7 && Shift(49) == 10
    ensures WordIndex(50) == 14 && Shift(50) == 15 && WordIndex(51) == 5 && Shift(51) == 21
    ensures WordIndex(52) == 12 && Shift(52) == 6 && WordIndex(53) == 3 && Shift(53) == 10
    ensures WordIndex(54) == 10 && Shift(54) == 15 && WordIndex(55) == 1 && Shift(55) == 21
    ensures WordIndex(56) == 8 && Shift(56) == 6 && WordIndex(57) == 15 && Shift(57) == 10
    ensures WordIndex(58) == 6 && Shift(58) == 15 && WordIndex(59) == 13 && Shift(59) == 21
    ensures WordIndex(60) == 4 && Shift(60) == 6 && WordIndex(61) == 11 && Shift(61) == 10
    ensures WordIndex(62) == 2 && Shift(62) == 15 && WordIndex(63) == 9 && Shift(63) == 21
  {
    hide T;
  }

  lemma Constants4()
    ensures T(48) == T49 && T(49) == T50 && T(50) == T51 && T(51) == T52
    ensures T(52) == T53 && T(53) == T54 && T(54) == T55 && T(55) == T56
    ensures T(56) == T57 && T(57) == T58 && T(58) == T59 && T(59) == T60
    ensures T(60) == T61 && T(61) == T62 && T(62) == T63 && T(63) == T64
  {
  }

  method Round1(a0: bv32, b0: bv32, c0: bv32, d0: bv32, ghost q: Quad, X: seq<bv32>)
    returns (a: bv32, b: bv32, c: bv32, d: bv32)
    requires |X| == 16 && Operations(0, q, X) == Quad(a0, b0, c0, d0)
    ensures Operations(16, q, X) == Quad(a, b, c, d)
  {
    hide Operations, Set, F, G, H, I, T, Shift, WordIndex, Cycle;
    Schedule1();
    Constants1();
    a, b, c, d := a0, b0, c0, d0;
    FourSets(0, q, X);
    a := Set(a, F(b, c, d), b, X[0], 7, T1);
    d := Set(d, F(a, b, c), a, X[1], 12, T2);
    c := Set(c, F(d, a, b), d, X[2], 17, T3);
    b := Set(b, F(c, d, a), c, X[3], 22, T4);
    FourSets(4, q, X);
    a := Set(a, F(b, c, d), b, X[4], 7, T5);
    d := Set(d, F(a, b, c), a, X[5], 12, T6);
    c := Set(c, F(d, a, b), d, X[6], 17, T7);
    b := Set(b, F(c, d, a), c, X[7], 22, T8);
    FourSets(8, q, X);
    a := Set(a, F(b, c, d), b, X[8], 7, T9);
    d := Set(d, F(a, b, c), a, X[9], 12, T10);
    c := Set(c, F(d, a, b), d, X[10], 17, T11);
    b := Set(b, F(c, d, a), c, X[11], 22, T12);
    FourSets(12, q, X);
    a := Set(a, F(b, c, d), b, X[12], 7, T13);
    d := Set(d, F(a, b, c), a, X[13], 12, T14);
    c := Set(c, F(d, a, b), d, X[14], 17, T15);
    b := Set(b, F(c, d, a), c, X[15], 22, T16);
  }

  method Round2(a0: bv32, b0: bv32, c0: bv32, d0: bv32, ghost q: Quad, X: seq<bv32>)
    returns (a: bv32, b: bv32, c: bv32, d: bv32)
    requires |X| == 16 && Operations(16, q, X) == Quad(a0, b0, c0, d0)
    ensures Operations(32, q, X) == Quad(a, b, c, d)
  {
    hide Operations, Set, F, G, H, I, T, Shift, WordIndex, Cycle;
    Schedule2();
    Constants2();
    a, b, c, d := a0, b0, c0, d0;
    FourSets(16, q, X);
    a := Set(a, G(b, c, d), b, X[1], 5, T17);
    d := Set(d, G(a, b, c), a, X[6], 9, T18);
    c := Set(c, G(d, a, b), d, X[11], 14, T19);
    b := Set(b, G(c, d, a), c, X[0], 20, T20);
    FourSets(20, q, X);
    a := Set(a, G(b, c, d), b, X[5], 5, T21);
    d := Set(d, G(a, b, c), a, X[10], 9, T22);
    c := Set(c, G(d, a, b), d, X[15], 14, T23);
    b := Set(b, G(c, d, a), c, X[4], 20, T24);
    FourSets(24, q, X);
    a := Set(a, G(b, c, d), b, X[9], 5, T25);
    d := Set(d, G(a, b, c), a, X[14], 9, T26);
    c := Set(c, G(d, a, b), d, X[3], 14, T27);
    b := Set(b, G(c, d, a), c, X[8], 20, T28);
    FourSets(28, q, X);
    a := Set(a, G(b, c, d), b, X[13], 5, T29);
    d := Set(d, G(a, b, c), a, X[2], 9, T30);
    c := Set(c, G(d, a, b), d, X[7], 14, T31);
    b := Set(b, G(c, d, a), c, X[12], 20, T32);
  }

  method Round3(a0: bv32, b0: bv32, c0: bv32, d0: bv32, ghost q: Quad, X: seq<bv32>)
    returns (a: bv32, b: bv32, c: bv32, d: bv32)
    requires |X| == 16 && Operations(32, q, X) == Quad(a0, b0, c0, d0)
    ensures Operations(48, q, X) == Quad(a, b, c, d)
  {
    hide Operations, Set, F, G, H, I, T, Shift, WordIndex, Cycle;
    Schedule3();
    Constants3();
    a, b, c, d := a0, b0, c0, d0;
    FourSets(32, q, X);
    a := Set(a, H(b, c, d), b, X[5], 4, T33);
    d := Set(d, H(a, b, c), a, X[8], 11, T34);
    c := Set(c, H(d, a, b), d, X[11], 16, T35);
    b := Set(b, H(c, d, a), c, X[14], 23, T36);
    FourSets(36, q, X);
    a := Set(a, H(b, c, d), b, X[1], 4, T37);
    d := Set(d, H(a, b, c), a, X[4], 11, T38);
    c := Set(c, H(d, a, b), d, X[7], 16, T39);
    b := Set(b, H(c, d, a), c, X[10], 23, T40);
    FourSets(40, q, X);
    a := Set(a, H(b, c, d), b, X[13], 4, T41);
    d := Set(d, H(a, b, c), a, X[0], 11, T42);
    c := Set(c, H(d, a, b), d, X[3], 16, T43);
    b := Set(b, H(c, d, a), c, X[6], 23, T44);
    FourSets(44, q, X);
    a := Set(a, H(b, c, d), b, X[9], 4, T45);
    d := Set(d, H(a, b, c), a, X[12], 11, T46);
    c := Set(c, H(d, a, b), d, X[15], 16, T47);
    b := Set(b, H(c, d, a), c, X[2], 23, T48);
  }

  method Round4(a0: bv32, b0: bv32, c0: bv32, d0: bv32, ghost q: Quad, X: seq<bv32>)
    returns (a: bv32, b: bv32, c: bv32, d: bv32)
    requires |X| == 16 && Operations(48, q, X) == Quad(a0, b0, c0, d0)
    ensures Operations(64, q, X) == Quad(a, b, c, d)
  {
    hide Operations, Set, F, G, H, I, T, Shift, WordIndex, Cycle;
    Schedule4();
    Constants4();
    a, b, c, d := a0, b0, c0, d0;
    FourSets(48, q, X);
    a := Set(a, I(b, c, d), b, X[0], 6, T49);
    d := Set(d, I(a, b, c), a, X[7], 10, T50);
    c := Set(c, I(d, a, b), d, X[14], 15, T51);
    b := Set(b, I(c, d, a), c, X[5], 21, T52);
    FourSets(52, q, X);
    a := Set(a, I(b, c, d), b, X[12], 6, T53);
    d := Set(d, I(a, b, c), a, X[3], 10, T54);
    c := Set(c, I(d, a, b), d, X[10], 15, T55);
    b := Set(b, I(c, d, a), c, X[1], 21, T56);
    FourSets(56, q, X);
    a := Set(a, I(b, c, d), b, X[8], 6, T57);
    d := Set(d, I(a, b, c), a, X[15], 10, T58);
    c := Set(c, I(d, a, b), d, X[6], 15, T59);
    b := Set(b, I(c, d, a), c, X[13], 21, T60);
    FourSets(60, q, X);
    a := Set(a, I(b, c, d), b, X[4], 6, T61);
    d := Set(d, I(a, b, c), a, X[11], 10, T62);
    c := Set(c, I(d, a, b), d, X[2], 15, T63);
    b := Set(b, I(c, d, a), c, X[9], 21, T64);
  }

}
