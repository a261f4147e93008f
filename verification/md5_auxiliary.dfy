/** What the auxiliary functions of MD5 compute, without their formulas: bit by bit, as
    section 3.4 of RFC 1321 explains them, and byte by byte. */
module Md5Auxiliary {
  import opened Md5Block

  /** Bit i of a word, counted from the low end: it is the top one after shifting. */
  predicate Bit(x: bv32, i: bv6)
    requires i < 32
  {
    (x << (31 - i)) >= 0x8000_0000
  }

  /** In each bit position F is "if X then Y else Z". */
  lemma ConditionalBits(x: bv32, y: bv32, z: bv32, i: bv6)
    requires i < 32
    ensures Bit(F(x, y, z), i) == if Bit(x, i) then Bit(y, i) else Bit(z, i)
  {
  }

  /** G is "if Z then X else Y". */
  lemma {:induction false} OtherConditionalBits(x: bv32, y: bv32, z: bv32, i: bv6)
    requires i < 32
    ensures Bit(G(x, y, z), i) == if Bit(z, i) then Bit(x, i) else Bit(y, i)
  {
    hide Bit, F, G;
    Rotated(x, y, z);
    ConditionalBits(z, x, y, i);
  }

  lemma Rotated(x: bv32, y: bv32, z: bv32)
    ensures G(x, y, z) == F(z, x, y)
  {
  }

  /** H is the parity. */
  lemma ParityBits(x: bv32, y: bv32, z: bv32, i: bv6)
    requires i < 32
    ensures Bit(H(x, y, z), i) <==> ((Bit(x, i) != Bit(y, i)) != Bit(z, i))
  {
  }

  /** I is Y xor (X or not Z). */
  lemma MixedBits(x: bv32, y: bv32, z: bv32, i: bv6)
    requires i < 32
    ensures Bit(I(x, y, z), i) <==> (Bit(y, i) != (Bit(x, i) || !Bit(z, i)))
  {
  }

  /** Rotating moves the bits n places up ... */
  lemma RotationMovesUp(x: bv32, n: bv6, i: bv6)
    requires 0 < n < 32 && i < 32 - n
    ensures Bit(RotateLeft(x, n), i + n) == Bit(x, i)
  {
  }

  /** ... and the top n bits around to the low end. */
  lemma RotationMovesAround(x: bv32, n: bv6, i: bv6)
    requires 0 < n < 32 && 32 - n <= i < 32
    ensures Bit(RotateLeft(x, n), i + n - 32) == Bit(x, i)
  {
  }

  // ---------------------------------------------------------------- bytes and words

  /** A word read from four bytes has the value they have in base 256, low-order byte first. */
  lemma WordValue(b0: byte, b1: byte, b2: byte, b3: byte)
    ensures Word(b0, b1, b2, b3) as int == b0 + 0x100 * b1 + 0x1_0000 * b2 + 0x100_0000 * b3
  {
    var w := Assembled(b0, b1, b2, b3);
    ConvertsTo(w, b0 + 0x100 * b1 + 0x1_0000 * b2 + 0x100_0000 * b3);
    WordConverts(b0, b1, b2, b3);
    hide Word;
  }

  lemma WordConverts(b0: byte, b1: byte, b2: byte, b3: byte)
    ensures Word(b0, b1, b2, b3) == (b0 + 0x100 * b1 + 0x1_0000 * b2 + 0x100_0000 * b3) as bv32
  {
  }

  lemma ConvertsTo(w: bv32, v: nat)
    requires w as int == v
    ensures v as bv32 == w
  {
    BackToWord(w);
  }

  lemma BackToWord(w: bv32)
    ensures (w as int) as bv32 == w
  {
  }

  lemma {:induction false} WordIs(w: bv32, b0: byte, b1: byte, b2: byte, b3: byte)
    requires w as int == b0 + 0x100 * b1 + 0x1_0000 * b2 + 0x100_0000 * b3
    ensures Word(b0, b1, b2, b3) == w
  {
    hide Word;
    WordValue(b0, b1, b2, b3);
    SameWord(w, Word(b0, b1, b2, b3));
  }

  lemma SameWord(w: bv32, u: bv32)
    requires w as int == u as int
    ensures w == u
  {
    BackToWord(w);
    BackToWord(u);
  }

  /** Some word has the value of the four bytes. */
  lemma Assembled(b0: byte, b1: byte, b2: byte, b3: byte) returns (w: bv32)
    ensures w as int == b0 + 0x100 * b1 + 0x1_0000 * b2 + 0x100_0000 * b3
  {
    var low := Half(b0, b1);
    var high := Half(b2, b3);
    w := (low as bv32) | ((high as bv32) << 16);
    JoinHalves(low, high);
  }

  lemma Half(b0: byte, b1: byte) returns (h: bv16)
    ensures h as int == b0 + 0x100 * b1
  {
    var x := Small(b0);
    var y := Small(b1);
    h := (x as bv16) | ((y as bv16) << 8);
    JoinBytes(x, y);
  }

  lemma Small(b: byte) returns (x: bv8)
    ensures x as int == b
  {
    var low := Smaller(b % 16);
    var high := Smaller(b / 16);
    x := (low as bv8) | ((high as bv8) << 4);
    JoinNibbles(low, high);
  }

  lemma Smaller(k: nat) returns (x: bv4)
    requires k < 16
    ensures x as int == k
  {
    x := k as bv4;
    SmallConversion(k);
  }

  lemma SmallConversion(k: nat)
    requires k < 16
    ensures (k as bv4) as int == k
  {
  }

  lemma JoinNibbles(x: bv4, y: bv4)
    ensures ((x as bv8) | ((y as bv8) << 4)) as int == (x as int) + 16 * (y as int)
  {
  }

  lemma JoinBytes(x: bv8, y: bv8)
    ensures ((x as bv16) | ((y as bv16) << 8)) as int == (x as int) + 0x100 * (y as int)
  {
  }

  lemma JoinHalves(x: bv16, y: bv16)
    ensures ((x as bv32) | ((y as bv32) << 16)) as int == (x as int) + 0x1_0000 * (y as int)
  {
  }
}
