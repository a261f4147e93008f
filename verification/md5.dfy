/** Streaming MD5: partial blocks, the two-word bit count, padding and the hexadecimal form,
    against sections 3.1 to 3.5 of RFC 1321. The client's and the server's copies are the
    same code. */
module Md5 {
  import opened Md5Block

  const TWO32 := 0x1_0000_0000

  function Init(): Quad {
    Quad(0x67452301, T_MASK ^ 0x10325476, T_MASK ^ 0x67452301, 0x10325476)
  }

  // ---------------------------------------------------------------- specification

  /** Section 3.4: one block after the other. */
  function Digest(q: Quad, s: seq<byte>): Quad
    requires |s| % 64 == 0
  {
    if s == [] then q else
      var k := |s| - 64;
      Compress(Digest(q, s[..k]), Words(s[k..]))
  }

  function Zeros(k: nat): (s: seq<byte>)
    ensures |s| == k
  {
    seq(k, i => 0)
  }

  /** Section 3.1: the number of zero bytes after the byte 0x80. */
  function ZeroCount(n: nat): (k: nat)
    ensures k < 64 && (n + 1 + k) % 64 == 56 && (n + 1 + k + 8) % 64 == 0
  {
    (55 - n) % 64
  }

  /** Low-order byte first. */
  function LittleEndian(v: nat, k: nat): (s: seq<byte>)
    ensures |s| == k
  {
    if k == 0 then [] else [v % 256] + LittleEndian(v / 256, k - 1)
  }

  /** Sections 3.1 and 3.2: padding and the message length in bits, modulo 2^64. */
  function Padded(msg: seq<byte>): (s: seq<byte>)
    ensures |s| % 64 == 0
  {
    var k := ZeroCount(|msg|);
    msg + [0x80] + Zeros(k) + LittleEndian(8 * |msg| % 0x1_0000_0000_0000_0000, 8)
  }

  function Unsigned(w: bv32): nat { w as int }

  function Encode(q: Quad): (s: seq<byte>)
    ensures |s| == 16
  {
    LittleEndian(Unsigned(q.a), 4) + LittleEndian(Unsigned(q.b), 4)
    + LittleEndian(Unsigned(q.c), 4) + LittleEndian(Unsigned(q.d), 4)
  }

  function MessageDigest(msg: seq<byte>): (s: seq<byte>)
    ensures |s| == 16
  {
    Encode(Digest(Init(), Padded(msg)))
  }

  /** The padding is the shortest that leaves room for the length in the last block. */
  lemma PaddingIsMinimal(n: nat, k: nat)
    requires (n + 1 + k) % 64 == 56
    ensures ZeroCount(n) <= k
  {
  }

  // ---------------------------------------------------------------- arithmetic

  /** Number of bytes in whole blocks. */
  function Whole(n: nat): (w: nat)
    ensures w <= n && w % 64 == 0 && n - w == n % 64
  {
    n - n % 64
  }

  /** The two words hold the bit count modulo 2^64. */
  predicate Counts(low: nat, high: nat, n: nat) {
    low == 8 * (n % 0x2000_0000) && high == n / 0x2000_0000 % TWO32
  }

  lemma CountsMeans(low: nat, high: nat, n: nat)
    ensures Counts(low, high, n) ==> TWO32 * high + low == 8 * n % 0x1_0000_0000_0000_0000
  {
    if Counts(low, high, n) {
      var q, r := n / 0x2000_0000, n % 0x2000_0000;
      assert 8 * n == TWO32 * q + 8 * r;
      assert q == TWO32 * (q / TWO32) + high;
      assert 8 * n == 0x1_0000_0000_0000_0000 * (q / TWO32) + (TWO32 * high + low);
      Remainder64(8 * n, q / TWO32, TWO32 * high + low);
    }
  }

  lemma Remainder64(x: nat, q: nat, r: nat)
    requires x == 0x1_0000_0000_0000_0000 * q + r && r < 0x1_0000_0000_0000_0000
    ensures x % 0x1_0000_0000_0000_0000 == r
  {
  }

  /** Adding with a carry between the words, as the code does it. */
  lemma CountsAdd(low: nat, high: nat, n: nat, k: nat)
    requires Counts(low, high, n)
    ensures var nbits := 8 * k % TWO32;
            var low' := (low + nbits) % TWO32;
            var high' := (high + k / 0x2000_0000) % TWO32;
            Counts(low', if low' < nbits then (high' + 1) % TWO32 else high', n + k)
  {
    var q, r, p, s := n / 0x2000_0000, n % 0x2000_0000, k / 0x2000_0000, k % 0x2000_0000;
    assert 8 * k == TWO32 * p + 8 * s;
    assert 8 * k % TWO32 == 8 * s;
    var carry := if r + s >= 0x2000_0000 then 1 else 0;
    assert n + k == 0x2000_0000 * (q + p + carry) + (r + s - 0x2000_0000 * carry);
    QuotientIs(n + k, q + p + carry, r + s - 0x2000_0000 * carry);
    WrapSum(q, p, carry);
  }

  lemma QuotientIs(x: nat, q: nat, r: nat)
    requires x == 0x2000_0000 * q + r && r < 0x2000_0000
    ensures x / 0x2000_0000 == q && x % 0x2000_0000 == r
  {
  }

  lemma WrapSum(q: nat, p: nat, carry: nat)
    requires carry <= 1
    ensures ((q % TWO32 + p) % TWO32 + carry) % TWO32 == (q + p + carry) % TWO32
  {
    assert q == TWO32 * (q / TWO32) + q % TWO32;
    var t := q % TWO32 + p;
    assert t == TWO32 * (t / TWO32) + t % TWO32;
    var u := t % TWO32 + carry;
    assert q + p + carry == TWO32 * (q / TWO32 + t / TWO32 + u / TWO32) + u % TWO32;
    Remainder32(q + p + carry, q / TWO32 + t / TWO32 + u / TWO32, u % TWO32);
  }

  lemma Remainder32(x: nat, q: nat, r: nat)
    requires x == TWO32 * q + r && r < TWO32
    ensures x % TWO32 == r
  {
  }

  /** Position in the current block, from the low word alone. */
  lemma OffsetIs(low: nat, high: nat, n: nat)
    requires Counts(low, high, n)
    ensures low / 8 % 64 == n % 64
    ensures (55 - low / 8) % 64 == ZeroCount(n)
  {
    var q, r := n / 0x2000_0000, n % 0x2000_0000;
    assert low / 8 == r;
    assert n == 64 * (0x80_0000 * q) + r;
    SameRest(n, 0x80_0000 * q, r);
    assert 55 - r == 64 * (0x80_0000 * q) + (55 - n);
    SameRestInt(55 - r, 0x80_0000 * q, 55 - n);
  }

  lemma SameRest(x: nat, q: nat, r: nat)
    requires x == 64 * q + r
    ensures x % 64 == r % 64
  {
  }

  lemma SameRestInt(x: int, q: int, r: int)
    requires x == 64 * q + r
    ensures x % 64 == r % 64
  {
  }

  // ---------------------------------------------------------------- the state

  class State {
    var low: nat
    var high: nat
    var abcd: Quad
    const buf: array<byte>
    ghost var message: seq<byte>

    /** Everything but the stale bytes of `buf` is determined by the message so far. */
    ghost predicate Valid()
      reads this, buf
    {
      && buf.Length == 64
      && Counts(low, high, |message|)
      && abcd == Digest(Init(), message[..Whole(|message|)])
      && buf[..|message| % 64] == message[Whole(|message|)..]
    }

    /** md5_init. */
    constructor ()
      ensures Valid() && message == [] && fresh(buf)
    {
      hide Init, Digest, Counts, Whole;
      NothingYet(Init(), []);
      low, high, abcd, message := 0, 0, Init(), [];
      buf := new byte[64];
    }

    /** md5_process on 64 bytes. */
    method Process(data: seq<byte>)
      requires |data| == 64
      modifies this`abcd
      ensures abcd == Compress(old(abcd), Words(data))
    {
      hide *;
      ghost var q := abcd;
      var X := Words(data);
      NoOperations(q, X);
      var a, b, c, d := Round1(abcd.a, abcd.b, abcd.c, abcd.d, q, X);
      a, b, c, d := Round2(a, b, c, d, q, X);
      a, b, c, d := Round3(a, b, c, d, q, X);
      a, b, c, d := Round4(a, b, c, d, q, X);
      CompressedIs(q, X, a, b, c, d);
      abcd := Quad(Add(abcd.a, a), Add(abcd.b, b), Add(abcd.c, c), Add(abcd.d, d));
    }

    /** The bit count of the message is that many bytes longer. */
    method Count(nbytes: nat, ghost n: nat)
      requires Counts(low, high, n)
      modifies this`low, this`high
      ensures Counts(low, high, n + nbytes)
    {
      hide Counts;
      CountsAdd(low, high, n, nbytes);
      var nbits := nbytes * 8 % TWO32;
      high := (high + nbytes / 0x2000_0000) % TWO32;
      low := (low + nbits) % TWO32;
      if low < nbits {
        high := (high + 1) % TWO32;
      }
    }

    /** md5_append. Lengths below 2^31 - 64 keep the position arithmetic inside a signed int;
        the shift that makes a bit count of the length, which overflows from 2^28 bytes on, is
        taken to wrap. */
    method Append(data: seq<byte>)
      requires Valid() && |data| < 0x8000_0000 - 64
      modifies this, buf
      ensures Valid() && message == old(message) + data
    {
      hide Digest, Counts;
      ghost var msg := message;
      OffsetIs(low, high, |msg|);
      var nbytes := |data|;
      var offset := low / 8 % 64;
      if nbytes <= 0 {
        assert msg + data == msg;
        return;
      }
      Count(nbytes, |msg|);
      message := msg + data;
      var p := 0;
      if offset != 0 {
        p := Fill(data, offset, msg);
        if offset + p < 64 {
          return;
        }
      } else {
        assert msg[..Whole(|msg|)] == msg && msg + data[..0] == msg;
      }
      p := WholeBlocks(data, p, msg);
      Rest(msg, data, p);
      if p < nbytes {
        CopyIn(data[p..], 0);
      }
    }

    /** The initial partial block: copies what fits, and processes the block once full. */
    method Fill(data: seq<byte>, offset: nat, ghost msg: seq<byte>) returns (copy: nat)
      requires buf.Length == 64 && 0 < offset == |msg| % 64 && data != [] && message == msg + data
      requires buf[..offset] == msg[Whole(|msg|)..] && abcd == Digest(Init(), msg[..Whole(|msg|)])
      modifies this`abcd, buf
      ensures copy == if offset + |data| > 64 then 64 - offset else |data|
      ensures offset + copy < 64 ==>
                && abcd == Digest(Init(), message[..Whole(|message|)])
                && buf[..|message| % 64] == message[Whole(|message|)..]
      ensures offset + copy == 64 ==>
                (|msg| + copy) % 64 == 0 && abcd == Digest(Init(), msg + data[..copy])
    {
      hide Digest;
      copy := if offset + |data| > 64 then 64 - offset else |data|;
      CopyIn(data[..copy], offset);
      if offset + copy < 64 {
        StaysInBlock(msg, data);
        assert data[..copy] == data;
        return;
      }
      BlockDone(msg, data[..copy]);
      assert buf[..] == buf[..64];
      Process(buf[..]);
    }

    /** The loop over full blocks, from position `start` of the data. */
    method WholeBlocks(data: seq<byte>, start: nat, ghost msg: seq<byte>) returns (p: nat)
      requires start <= |data| && (|msg| + start) % 64 == 0 && abcd == Digest(Init(), msg + data[..start])
      modifies this`abcd
      ensures start <= p <= |data| && |data| - p < 64
      ensures (|msg| + p) % 64 == 0 && abcd == Digest(Init(), msg + data[..p])
    {
      hide Digest;
      p := start;
      var left := |data| - start;
      while left >= 64
        invariant start <= p <= |data| && left == |data| - p
        invariant (|msg| + p) % 64 == 0 && abcd == Digest(Init(), msg + data[..p])
      {
        OneMoreBlock(msg + data[..p], data[p..p + 64]);
        assert msg + data[..p + 64] == msg + data[..p] + data[p..p + 64];
        Process(data[p..p + 64]);
        p := p + 64;
        left := left - 64;
      }
    }

    /** "memcpy" into the block buffer. */
    method CopyIn(data: seq<byte>, at: nat)
      requires at + |data| <= buf.Length
      modifies buf
      ensures buf[..at] == old(buf[..at]) && buf[at..at + |data|] == data
      ensures buf[..at + |data|] == old(buf[..at]) + data
    {
      for i := 0 to |data|
        invariant buf[..at] == old(buf[..at]) && buf[at..at + i] == data[..i]
      {
        buf[at + i] := data[i];
      }
      assert buf[..at + |data|] == buf[..at] + buf[at..at + |data|];
    }

    /** md5_finish: the length is saved before padding changes the count. */
    method Finish() returns (digest: seq<byte>)
      requires Valid()
      modifies this, buf
      ensures digest == MessageDigest(old(message))
    {
      hide Digest, Counts, LittleEndian, Encode, Init;
      ghost var msg := message;
      var data := LengthBytes();
      OffsetIs(low, high, |msg|);
      var padLength := (55 - low / 8) % 64 + 1;
      assert 1 <= padLength <= 64;
      Append(([0x80] + Zeros(63))[..padLength]);
      assert ([0x80] + Zeros(63))[..padLength] == [0x80] + Zeros(ZeroCount(|msg|));
      assert |message| % 64 == 56;
      Append(data);
      assert message == msg + ([0x80] + Zeros(ZeroCount(|msg|))) + data == Padded(msg);
      assert message[..Whole(|message|)] == message;
      digest := DigestBytes();
    }

    /** data[i] = count[i >> 2] >> ((i & 3) << 3). */
    method LengthBytes() returns (data: seq<byte>)
      requires Counts(low, high, |message|)
      ensures data == LittleEndian(8 * |message| % 0x1_0000_0000_0000_0000, 8)
    {
      hide LittleEndian, ByteAt;
      data := [];
      for i := 0 to 8
        invariant |data| == i
        invariant forall k | 0 <= k < i :: data[k] == ByteAt(if k < 4 then low else high, k % 4)
      {
        data := data + [ByteAt(if i < 4 then low else high, i % 4)];
      }
      CountsMeans(low, high, |message|);
      LittleEndianJoin(low, high, 4, 4);
      assert Pow256(4) == TWO32 by { assert Pow256(2) == 0x1_0000; }
      forall k | 0 <= k < 8 ensures data[k] == (LittleEndian(low, 4) + LittleEndian(high, 4))[k] {
        LittleEndianAt(if k < 4 then low else high, 4, k % 4);
      }
    }

    method DigestBytes() returns (digest: seq<byte>)
      ensures digest == Encode(abcd)
    {
      hide LittleEndian, ByteAt, Encode, Unsigned;
      digest := [];
      var words := [Unsigned(abcd.a), Unsigned(abcd.b), Unsigned(abcd.c), Unsigned(abcd.d)];
      for i := 0 to 16
        invariant |digest| == i
        invariant forall k | 0 <= k < i :: digest[k] == ByteAt(words[k / 4], k % 4)
      {
        digest := digest + [ByteAt(words[i / 4], i % 4)];
      }
      forall k | 0 <= k < 16 ensures digest[k] == Encode(abcd)[k] {
        LittleEndianAt(words[k / 4], 4, k % 4);
        EncodeAt(abcd, k);
      }
    }
  }

  lemma NothingYet(q: Quad, s: seq<byte>)
    requires s == []
    ensures Counts(0, 0, |s|) && Whole(|s|) == 0 && Digest(q, s) == q
  {
    hide *;
    NoBlocks(q, s);
    NoCount();
  }

  lemma NoCount()
    ensures Counts(0, 0, 0) && Whole(0) == 0
  {
    hide Digest, Init;
  }

  lemma NoBlocks(q: Quad, s: seq<byte>)
    requires s == []
    ensures Digest(q, s) == q
  {
    hide Compress, Words;
  }

  lemma NoOperations(q: Quad, x: seq<bv32>)
    requires |x| == 16
    ensures Operations(0, q, x) == Quad(q.a, q.b, q.c, q.d)
  {
  }

  lemma CompressedIs(q: Quad, x: seq<bv32>, a: bv32, b: bv32, c: bv32, d: bv32)
    requires |x| == 16 && Operations(64, q, x) == Quad(a, b, c, d)
    ensures Compress(q, x) == Quad(Add(q.a, a), Add(q.b, b), Add(q.c, c), Add(q.d, d))
  {
    hide Operations, Add;
  }

  lemma OneMoreBlock(s: seq<byte>, block: seq<byte>)
    requires |s| % 64 == 0 && |block| == 64
    ensures |s + block| % 64 == 0 && Digest(Init(), s + block) == Compress(Digest(Init(), s), Words(block))
  {
    hide Compress, Words;
    assert (s + block)[..|s|] == s && (s + block)[|s|..] == block;
  }

  /** Appending less than what fills the current block. */
  lemma StaysInBlock(msg: seq<byte>, data: seq<byte>)
    requires |msg| % 64 + |data| < 64
    ensures Whole(|msg + data|) == Whole(|msg|) && |msg + data| % 64 == |msg| % 64 + |data|
    ensures (msg + data)[..Whole(|msg|)] == msg[..Whole(|msg|)]
    ensures (msg + data)[Whole(|msg|)..] == msg[Whole(|msg|)..] + data
  {
  }

  /** What the loop over full blocks leaves. */
  lemma Rest(msg: seq<byte>, data: seq<byte>, p: nat)
    requires p <= |data| && |data| - p < 64 && (|msg| + p) % 64 == 0
    ensures Whole(|msg + data|) == |msg| + p && |msg + data| % 64 == |data| - p
    ensures (msg + data)[..|msg| + p] == msg + data[..p] && (msg + data)[|msg| + p..] == data[p..]
  {
  }

  /** Appending just what fills the current block. */
  lemma BlockDone(msg: seq<byte>, data: seq<byte>)
    requires |msg| % 64 + |data| == 64
    ensures |msg + data| % 64 == 0 && |msg[Whole(|msg|)..] + data| == 64
    ensures Digest(Init(), msg + data)
         == Compress(Digest(Init(), msg[..Whole(|msg|)]), Words(msg[Whole(|msg|)..] + data))
  {
    var w := Whole(|msg|);
    assert msg + data == msg[..w] + (msg[w..] + data);
    OneMoreBlock(msg[..w], msg[w..] + data);
  }

  // ---------------------------------------------------------------- bytes of words

  function Pow256(k: nat): (p: nat)
    ensures p >= 1
  {
    if k == 0 then 1 else 256 * Pow256(k - 1)
  }

  /** "(v >> 8k) & 255". */
  function ByteAt(v: nat, k: nat): byte {
    if k == 0 then v % 256 else ByteAt(v / 256, k - 1)
  }

  lemma {:induction false} LittleEndianAt(v: nat, n: nat, k: nat)
    requires k < n
    ensures LittleEndian(v, n)[k] == ByteAt(v, k)
  {
    if k > 0 {
      LittleEndianAt(v / 256, n - 1, k - 1);
    }
  }

  lemma {:induction false} LittleEndianJoin(low: nat, high: nat, k: nat, n: nat)
    requires low < Pow256(k)
    ensures LittleEndian(low + Pow256(k) * high, k + n) == LittleEndian(low, k) + LittleEndian(high, n)
  {
    if k > 0 {
      var t := Pow256(k - 1) * high;
      assert Pow256(k) * high == 256 * t;
      assert (low + 256 * t) % 256 == low % 256 && (low + 256 * t) / 256 == low / 256 + t;
      LittleEndianJoin(low / 256, high, k - 1, n);
    }
  }

  lemma EncodeAt(q: Quad, k: nat)
    requires k < 16
    ensures Encode(q)[k] ==
            LittleEndian(Unsigned(if k < 4 then q.a else if k < 8 then q.b else if k < 12 then q.c else q.d), 4)[k % 4]
  {
    hide LittleEndian, Unsigned;
  }

  // ---------------------------------------------------------------- whole messages

  function Chunks(chunks: seq<seq<byte>>): seq<byte> {
    if chunks == [] then [] else Chunks(chunks[..|chunks| - 1]) + chunks[|chunks| - 1]
  }

  /** Any way of cutting a message into appends gives the digest of the whole. */
  method DigestOfChunks(chunks: seq<seq<byte>>) returns (digest: seq<byte>)
    requires forall i | 0 <= i < |chunks| :: |chunks[i]| < 0x8000_0000 - 64
    ensures digest == MessageDigest(Chunks(chunks))
  {
    hide MessageDigest, State.Valid;
    var state := new State();
    for i := 0 to |chunks|
      invariant state.Valid() && state.message == Chunks(chunks[..i]) && fresh(state) && fresh(state.buf)
    {
      assert chunks[..i + 1][..i] == chunks[..i];
      state.Append(chunks[i]);
    }
    assert chunks[..|chunks|] == chunks;
    digest := state.Finish();
  }

  function HexDigit(d: nat): (c: char)
    requires d < 16
    ensures c != '\0'
  {
    if d < 10 then ('0' as int + d) as char else ('a' as int + d - 10) as char
  }

  /** "%02x" of each byte. */
  function Hex(s: seq<byte>): (r: string)
    ensures |r| == 2 * |s|
  {
    if s == [] then "" else Hex(s[..|s| - 1]) + [HexDigit(s[|s| - 1] / 16), HexDigit(s[|s| - 1] % 16)]
  }

  /** The hexadecimal form loses nothing. */
  lemma {:induction false} HexIsInjective(s: seq<byte>, s': seq<byte>)
    requires Hex(s) == Hex(s')
    ensures s == s'
    decreases |s|
  {
    assert |s| == |s'|;
    if s != [] {
      var k := |s| - 1;
      var h, h' := Hex(s), Hex(s');
      assert h[..2 * k] == Hex(s[..k]) && h'[..2 * k] == Hex(s'[..k]);
      HexIsInjective(s[..k], s'[..k]);
      assert HexDigit(s[k] / 16) == h[2 * k] == HexDigit(s'[k] / 16);
      assert HexDigit(s[k] % 16) == h[2 * k + 1] == HexDigit(s'[k] % 16);
      HexDigitIsInjective(s[k] / 16, s'[k] / 16);
      HexDigitIsInjective(s[k] % 16, s'[k] % 16);
      assert s == s[..k] + [s[k]] && s' == s'[..k] + [s'[k]];
    }
  }

  lemma HexDigitIsInjective(d: nat, d': nat)
    requires d < 16 && d' < 16 && HexDigit(d) == HexDigit(d')
    ensures d == d'
  {
    var code := (c: char) => c as int;
    assert code(HexDigit(d)) == if d < 10 then 48 + d else 87 + d;
    assert code(HexDigit(d')) == if d' < 10 then 48 + d' else 87 + d';
  }

  /** md5_get_hash_hex: the hexadecimal digest of a byte string. */
  method GetHashHex(str: seq<byte>) returns (r: string)
    requires |str| < 0x8000_0000 - 64
    ensures r == Hex(MessageDigest(str)) && |r| == 32
  {
    hide MessageDigest, State.Valid;
    var state := new State();
    state.Append(str);
    assert [] + str == str;
    var md5 := state.Finish();
    r := "";
    for i := 0 to 16
      invariant r == Hex(md5[..i])
    {
      assert md5[..i + 1][..i] == md5[..i];
      r := r + [HexDigit(md5[i] / 16), HexDigit(md5[i] % 16)];
    }
    assert md5[..16] == md5;
  }
}
