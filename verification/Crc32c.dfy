/** The CRC-32C checksum: four bytes at a time by table, and the mask that hides a
    checksum stored among the bytes it protects. */
module Crc32c {
  import opened ByteStrings
  import opened Coding

  /** Division by the Castagnoli polynomial, its bits reflected, one bit at a time: the
      definition of the code (section 12.1 of RFC 3720). */
  function ShiftBit(x: bv32): bv32 {
    if x & 1 == 1 then (x >> 1) ^ 0x82f6_3b78 else x >> 1
  }

  function Repeat<T>(n: nat, f: T -> T, x: T): T {
    if n == 0 then x else f(Repeat(n - 1, f, x))
  }

  function ShiftByte(x: bv32): bv32 {
    Repeat(8, ShiftBit, x)
  }

  function Fold<S>(step: (S, Byte) -> S, s: S, data: Bytes): S {
    if data == [] then s else step(Fold(step, s, data[..|data| - 1]), data[|data| - 1])
  }

  lemma {:induction false} FoldSplits<S>(step: (S, Byte) -> S, s: S, a: Bytes, b: Bytes)
    ensures Fold(step, s, a + b) == Fold(step, Fold(step, s, a), b)
    decreases |b|
  {
    if b == [] {
      assert a + b == a;
    } else {
      var n := |b| - 1;
      assert (a + b)[..|a + b| - 1] == a + b[..n];
      FoldSplits(step, s, a, b[..n]);
    }
  }

  function Wide(b: Byte): bv32 {
    b as bv32
  }

  function Xor(x: bv32, y: bv32): bv32 {
    x ^ y
  }

  function Feed(l: bv32, b: Byte): bv32 {
    ShiftByte(Xor(l, Wide(b)))
  }

  function Invert(x: bv32): bv32 {
    x ^ 0xffff_ffff
  }

  /** The checksum of a string with checksum `crc` followed by `data`. */
  function Extended(crc: bv32, data: Bytes): bv32 {
    Invert(Fold(Feed, Invert(crc), data))
  }

  function Checksum(data: Bytes): bv32 {
    Extended(0, data)
  }

  lemma {:induction false} Cancels(x: bv32)
    ensures Invert(Invert(x)) == x
  {
  }

  /** A checksum can be taken in parts, as the log writer does with the record type. */
  lemma {:induction false} ExtendsInParts(crc: bv32, a: Bytes, b: Bytes)
    ensures Extended(Extended(crc, a), b) == Extended(crc, a + b)
  {
    FoldSplits(Feed, Invert(crc), a, b);
    Cancels(Fold(Feed, Invert(crc), a));
  }

  // ----- the tables

  /** Entry `c` of the first, second, third and fourth table: the byte `c` followed by
      none, one, two and three zero bytes. */
  function Table0(c: bv32): bv32 { ShiftByte(c) }
  function Table1(c: bv32): bv32 { ShiftByte(Table0(c)) }
  function Table2(c: bv32): bv32 { ShiftByte(Table1(c)) }
  function Table3(c: bv32): bv32 { ShiftByte(Table2(c)) }

  lemma {:induction false} XorFacts(x: bv32, y: bv32, p: bv32)
    ensures (x ^ y) >> 1 == (x >> 1) ^ (y >> 1)
    ensures (x ^ y) & 1 == (x & 1) ^ (y & 1)
    ensures x & 1 == 0 || x & 1 == 1
    ensures (x ^ p) ^ (y ^ p) == x ^ y
    ensures (x ^ p) ^ y == (x ^ y) ^ p
    ensures x ^ (y ^ p) == (x ^ y) ^ p
  {
  }

  lemma {:induction false} BitLinear(x: bv32, y: bv32)
    ensures ShiftBit(x ^ y) == ShiftBit(x) ^ ShiftBit(y)
  {
    XorFacts(x, y, 0);
    XorFacts(y, x, 0);
    XorFacts(x >> 1, y >> 1, 0x82f6_3b78);
  }

  ghost predicate Linear<T(!new)>(f: T -> T, plus: (T, T) -> T) {
    forall x, y :: f(plus(x, y)) == plus(f(x), f(y))
  }

  lemma {:induction false} RepeatLinear<T(!new)>(n: nat, f: T -> T, plus: (T, T) -> T, x: T, y: T)
    requires Linear(f, plus)
    ensures Repeat(n, f, plus(x, y)) == plus(Repeat(n, f, x), Repeat(n, f, y))
  {
    if n > 0 {
      RepeatLinear(n - 1, f, plus, x, y);
    }
  }

  /** Shifting is linear: the table entry of a sum is the sum of the entries. */
  lemma {:induction false} ByteLinear(x: bv32, y: bv32)
    ensures ShiftByte(Xor(x, y)) == Xor(ShiftByte(x), ShiftByte(y))
  {
    forall a, b
      ensures ShiftBit(Xor(a, b)) == Xor(ShiftBit(a), ShiftBit(b))
    {
      BitLinear(a, b);
    }
    assert Linear(ShiftBit, Xor);
    RepeatLinear(8, ShiftBit, Xor, x, y);
  }

  lemma {:induction false} RepeatEight<T>(f: T -> T, x: T)
    ensures Repeat(8, f, x) == f(f(f(f(f(f(f(f(x))))))))
  {
  }

  /** Shifting a register whose low byte is empty only moves it. */
  lemma {:induction false} ByteMoves(x: bv32)
    requires x & 0xff == 0
    ensures ShiftByte(x) == x >> 8
  {
    RepeatEight(ShiftBit, x);
    assert ShiftByte(x) == EightBits(x);
  }

  function Low(l: bv32): bv32 { l & 0xff }

  function High(l: bv32): bv32 { l & 0xffff_ff00 }

  function Down(l: bv32): bv32 { l >> 8 }

  lemma {:induction false} LowByteApart(l: bv32)
    ensures Xor(Low(l), High(l)) == l && High(l) & 0xff == 0 && Down(High(l)) == Down(l)
  {
  }

  lemma {:induction false} HighMoves(l: bv32)
    ensures ShiftByte(High(l)) == Down(l)
  {
    LowByteApart(l);
    ByteMoves(High(l));
  }

  lemma {:induction false} ShiftSplits(l: bv32, low: bv32, high: bv32, down: bv32)
    requires Xor(low, high) == l && ShiftByte(high) == down
    ensures ShiftByte(l) == Xor(ShiftByte(low), down)
  {
    ByteLinear(low, high);
  }

  /** One table step: the low byte selects an entry, the other three move down. */
  lemma {:induction false} TableStep(l: bv32)
    ensures ShiftByte(l) == Xor(ShiftByte(Low(l)), Down(l))
  {
    HighMoves(l);
    LowByteApart(l);
    ShiftSplits(l, Low(l), High(l), Down(l));
  }

  /** The entries at the powers of two; by linearity every other entry is a sum of these. */
  lemma {:induction false} TableEntries()
    ensures Table0(1) == 0xf26b_8303 && Table0(2) == 0xe13b_70f7 && Table0(4) == 0xc79a_971f && Table0(8) == 0x8ad9_58cf
    ensures Table1(1) == 0x13a2_9877 && Table1(2) == 0x2745_30ee && Table1(4) == 0x4e8a_61dc && Table1(8) == 0x9d14_c3b8
    ensures Table2(1) == 0xa541_927e && Table2(2) == 0x4f6f_520d && Table2(4) == 0x9ede_a41a && Table2(8) == 0x3851_3ec5
    ensures Table3(1) == 0xdd45_aab8 && Table3(2) == 0xbf67_2381 && Table3(4) == 0x7b22_31f3 && Table3(8) == 0xf644_63e6
  {
    Entry(1, 0xf26b_8303, 0x13a2_9877, 0xa541_927e, 0xdd45_aab8);
    Entry(2, 0xe13b_70f7, 0x2745_30ee, 0x4f6f_520d, 0xbf67_2381);
    Entry(4, 0xc79a_971f, 0x4e8a_61dc, 0x9ede_a41a, 0x7b22_31f3);
    Entry(8, 0x8ad9_58cf, 0x9d14_c3b8, 0x3851_3ec5, 0xf644_63e6);
  }

  lemma {:induction false} MoreTableEntries()
    ensures Table0(16) == 0x105e_c76f && Table0(32) == 0x20bd_8ede && Table0(64) == 0x417b_1dbc &&
      Table0(128) == 0x82f6_3b78
    ensures Table1(16) == 0x3fc5_f181 && Table1(32) == 0x7f8b_e302 && Table1(64) == 0xff17_c604 &&
      Table1(128) == 0xfbc3_faf9
    ensures Table2(16) == 0x70a2_7d8a && Table2(32) == 0xe144_fb14 && Table2(64) == 0xc765_80d9 &&
      Table2(128) == 0x8b27_7743
    ensures Table3(16) == 0xe964_b13d && Table3(32) == 0xd725_148b && Table3(64) == 0xaba6_5fe7 &&
      Table3(128) == 0x52a0_c93f
  {
    Entry(16, 0x105e_c76f, 0x3fc5_f181, 0x70a2_7d8a, 0xe964_b13d);
    Entry(32, 0x20bd_8ede, 0x7f8b_e302, 0xe144_fb14, 0xd725_148b);
    Entry(64, 0x417b_1dbc, 0xff17_c604, 0xc765_80d9, 0xaba6_5fe7);
    Entry(128, 0x82f6_3b78, 0xfbc3_faf9, 0x8b27_7743, 0x52a0_c93f);
  }

  function EightBits(x: bv32): bv32 {
    ShiftBit(ShiftBit(ShiftBit(ShiftBit(ShiftBit(ShiftBit(ShiftBit(ShiftBit(x))))))))
  }

  lemma {:induction false} Entry(c: bv32, e0: bv32, e1: bv32, e2: bv32, e3: bv32)
    requires EightBits(c) == e0 && EightBits(e0) == e1 && EightBits(e1) == e2 && EightBits(e2) == e3
    ensures Table0(c) == e0 && Table1(c) == e1 && Table2(c) == e2 && Table3(c) == e3
  {
    hide ShiftBit;
    RepeatEight(ShiftBit, c);
    RepeatEight(ShiftBit, e0);
    RepeatEight(ShiftBit, e1);
    RepeatEight(ShiftBit, e2);
  }

  /** Four steps at once. The register takes in a whole word; each of its bytes then
      meets the table for the number of zero bytes that follow it. */
  function Step4(l: bv32, word: bv32): bv32 {
    var c := Xor(l, word);
    Xor(Xor(Xor(Table3(Low(c)), Table2(Low(Down(c)))), Table1(Low(Down(Down(c))))), Table0(Down(Down(Down(c)))))
  }

  lemma {:induction false} XorAssoc(x: bv32, y: bv32, z: bv32)
    ensures Xor(Xor(x, y), z) == Xor(x, Xor(y, z))
  {
  }

  lemma {:induction false} ShiftTwice(x: bv32)
    ensures ShiftByte(ShiftByte(x)) == Xor(Xor(Table1(Low(x)), Table0(Low(Down(x)))), Down(Down(x)))
  {
    TableStep(x);
    TableStep(Down(x));
    ByteLinear(ShiftByte(Low(x)), Down(x));
    XorAssoc(Table1(Low(x)), Table0(Low(Down(x))), Down(Down(x)));
  }

  lemma {:induction false} ShiftThrice(x: bv32)
    ensures ShiftByte(ShiftByte(ShiftByte(x)))
         == Xor(Xor(Xor(Table2(Low(x)), Table1(Low(Down(x)))), Table0(Low(Down(Down(x))))), Down(Down(Down(x))))
  {
    var t0, t1, rest := Table0(Low(x)), Table0(Low(Down(x))), Down(Down(x));
    ShiftTwice(x);
    TableStep(rest);
    ByteLinear(Xor(Table1(Low(x)), t1), rest);
    ByteLinear(Table1(Low(x)), t1);
    XorAssoc(Xor(Table2(Low(x)), Table1(Low(Down(x)))), Table0(Low(rest)), Down(rest));
  }

  lemma {:induction false} ShiftFour(x: bv32)
    ensures ShiftByte(ShiftByte(ShiftByte(ShiftByte(x))))
         == Xor(Xor(Xor(Table3(Low(x)), Table2(Low(Down(x)))), Table1(Low(Down(Down(x))))), Table0(Down(Down(Down(x)))))
  {
    var t2, t1, t0 := Table2(Low(x)), Table1(Low(Down(x))), Table0(Low(Down(Down(x))));
    ShiftThrice(x);
    ByteLinear(Xor(Xor(t2, t1), t0), Down(Down(Down(x))));
    ByteLinear(Xor(t2, t1), t0);
    ByteLinear(t2, t1);
  }

  function Up(b: bv32): bv32 { b << 8 }

  lemma {:induction false} UpDown(b: bv32)
    requires b & 0xff00_0000 == 0
    ensures Up(b) & 0xff == 0 && Up(b) >> 8 == b
  {
  }

  /** A byte fed in after a shift could have been fed in, one byte higher, before it. */
  lemma {:induction false} FeedEarlier(x: bv32, b: bv32)
    requires b & 0xff00_0000 == 0
    ensures Xor(ShiftByte(x), b) == ShiftByte(Xor(x, Up(b)))
  {
    UpDown(b);
    ByteMoves(Up(b));
    ByteLinear(x, Up(b));
  }

  /** A little-endian word. */
  function Word(b0: bv32, b1: bv32, b2: bv32, b3: bv32): bv32 {
    b0 | (b1 << 8) | (b2 << 16) | (b3 << 24)
  }

  predicate IsByte(b: bv32) { b & 0xffff_ff00 == 0 }

  lemma {:induction false} UpByte(b: bv32)
    requires IsByte(b)
    ensures b & 0xff00_0000 == 0 && Up(b) & 0xff00_0000 == 0 && Up(Up(b)) & 0xff00_0000 == 0
    ensures Up(b) == b << 8 && Up(Up(b)) == b << 16 && Up(Up(Up(b))) == b << 24
  {
  }

  lemma {:induction false} OrIsXor(b0: bv32, b1: bv32, b2: bv32, b3: bv32)
    requires IsByte(b0) && IsByte(b1) && IsByte(b2) && IsByte(b3)
    ensures Word(b0, b1, b2, b3) == b0 ^ ((b1 << 8) ^ ((b2 << 16) ^ (b3 << 24)))
  {
  }

  lemma {:induction false} SumOfFour(a: bv32, b: bv32, c: bv32, d: bv32)
    ensures a ^ (b ^ (c ^ d)) == Xor(a, Xor(b, Xor(c, d)))
  {
  }

  lemma {:induction false} WordIsSum(b0: bv32, b1: bv32, b2: bv32, b3: bv32)
    requires IsByte(b0) && IsByte(b1) && IsByte(b2) && IsByte(b3)
    ensures Word(b0, b1, b2, b3) == Xor(b0, Xor(Up(b1), Xor(Up(Up(b2)), Up(Up(Up(b3))))))
  {
    hide Xor, Up, Word, IsByte;
    OrIsXor(b0, b1, b2, b3);
    UpByte(b1);
    UpByte(b2);
    UpByte(b3);
    SumOfFour(b0, b1 << 8, b2 << 16, b3 << 24);
  }

  lemma {:induction false} WordParts(l: bv32, b0: bv32, b1: bv32, b2: bv32, b3: bv32)
    requires IsByte(b0) && IsByte(b1) && IsByte(b2) && IsByte(b3)
    ensures Xor(Xor(Xor(Xor(l, b0), Up(b1)), Up(Up(b2))), Up(Up(Up(b3)))) == Xor(l, Word(b0, b1, b2, b3))
  {
    hide Xor, Up, Word, IsByte;
    WordIsSum(b0, b1, b2, b3);
    var w1, w2, w3 := Up(b1), Up(Up(b2)), Up(Up(Up(b3)));
    XorAssoc(Xor(Xor(l, b0), w1), w2, w3);
    XorAssoc(Xor(l, b0), w1, Xor(w2, w3));
    XorAssoc(l, b0, Xor(w1, Xor(w2, w3)));
  }

  /** Four bytes fed one by one leave the register where the word step leaves it. */
  lemma {:induction false} WordStep(l: bv32, b0: bv32, b1: bv32, b2: bv32, b3: bv32)
    requires IsByte(b0) && IsByte(b1) && IsByte(b2) && IsByte(b3)
    ensures ShiftByte(Xor(ShiftByte(Xor(ShiftByte(Xor(ShiftByte(Xor(l, b0)), b1)), b2)), b3))
         == Step4(l, Word(b0, b1, b2, b3))
  {
    WordParts(l, b0, b1, b2, b3);
    UpByte(b1);
    UpByte(b2);
    UpByte(b3);
    var x0 := Xor(l, b0);
    var x1 := Xor(x0, Up(b1));
    var x2 := Xor(x1, Up(Up(b2)));
    FeedEarlier(x0, b1);
    FeedEarlier(ShiftByte(x1), b2);
    FeedEarlier(x1, Up(b2));
    FeedEarlier(ShiftByte(ShiftByte(x2)), b3);
    FeedEarlier(ShiftByte(x2), Up(b3));
    FeedEarlier(x2, Up(Up(b3)));
    ShiftFour(Xor(l, Word(b0, b1, b2, b3)));
  }

  /** One step: the low byte of the register meets the next byte of the string. */
  function Step1(l: bv32, b: Byte): bv32 {
    Xor(Table0(Xor(Low(l), Wide(b))), Down(l))
  }

  lemma {:induction false} WideIsByte(b: Byte)
    ensures IsByte(Wide(b))
  {
  }

  lemma {:induction false} LowOfXor(l: bv32, b: bv32)
    requires IsByte(b)
    ensures Low(Xor(l, b)) == Xor(Low(l), b) && Down(Xor(l, b)) == Down(l)
  {
  }

  lemma {:induction false} ByteStep(l: bv32, b: Byte)
    ensures Step1(l, b) == Feed(l, b)
  {
    WideIsByte(b);
    LowOfXor(l, Wide(b));
    TableStep(Xor(l, Wide(b)));
  }

  function WordAt(buf: Bytes, p: nat): bv32
    requires p + 4 <= |buf|
  {
    Word(Wide(buf[p]), Wide(buf[p + 1]), Wide(buf[p + 2]), Wide(buf[p + 3]))
  }

  lemma {:induction false} FoldOne<S>(step: (S, Byte) -> S, s: S, buf: Bytes, p: nat)
    requires p < |buf|
    ensures Fold(step, s, buf[..p + 1]) == step(Fold(step, s, buf[..p]), buf[p])
  {
    assert buf[..p + 1][..p] == buf[..p];
  }

  lemma {:induction false} FoldFour<S>(step: (S, Byte) -> S, s: S, buf: Bytes, p: nat)
    requires p + 4 <= |buf|
    ensures Fold(step, s, buf[..p + 4]) ==
        step(step(step(step(Fold(step, s, buf[..p]), buf[p]), buf[p + 1]), buf[p + 2]), buf[p + 3])
  {
    FoldOne(step, s, buf, p);
    FoldOne(step, s, buf, p + 1);
    FoldOne(step, s, buf, p + 2);
    FoldOne(step, s, buf, p + 3);
  }

  lemma {:induction false} FourBytes(s: bv32, buf: Bytes, p: nat, l: bv32)
    requires p + 4 <= |buf| && l == Fold(Feed, s, buf[..p])
    ensures Step4(l, WordAt(buf, p)) == Fold(Feed, s, buf[..p + 4])
  {
    WideIsByte(buf[p]);
    WideIsByte(buf[p + 1]);
    WideIsByte(buf[p + 2]);
    WideIsByte(buf[p + 3]);
    WordStep(l, Wide(buf[p]), Wide(buf[p + 1]), Wide(buf[p + 2]), Wide(buf[p + 3]));
    FoldFour(Feed, s, buf, p);
  }

  /** Byte steps from `from` up to `to`. */
  method FeedBytes(buf: Bytes, from: nat, to: nat, l: bv32, ghost s: bv32) returns (r: bv32)
    requires from <= to <= |buf| && l == Fold(Feed, s, buf[..from])
    ensures r == Fold(Feed, s, buf[..to])
  {
    hide Feed, ShiftByte;
    r := l;
    var p := from;
    while p != to
      invariant from <= p <= to && r == Fold(Feed, s, buf[..p])
    {
      ByteStep(r, buf[p]);
      FoldOne(Feed, s, buf, p);
      r := Step1(r, buf[p]);
      p := p + 1;
    }
  }

  method FeedWord(buf: Bytes, p: nat, l: bv32, ghost s: bv32) returns (r: bv32)
    requires p + 4 <= |buf| && l == Fold(Feed, s, buf[..p])
    ensures r == Fold(Feed, s, buf[..p + 4])
  {
    FourBytes(s, buf, p, l);
    r := Step4(l, WordAt(buf, p));
  }

  /** Word steps, sixteen bytes at a time and then four, while they last. */
  method FeedWords(buf: Bytes, from: nat, l: bv32, ghost s: bv32) returns (p: nat, r: bv32)
    requires from <= |buf| && l == Fold(Feed, s, buf[..from])
    ensures from <= p <= |buf| < p + 4 && r == Fold(Feed, s, buf[..p])
  {
    hide Feed, ShiftByte;
    p, r := from, l;
    while |buf| - p >= 16
      invariant from <= p <= |buf| && r == Fold(Feed, s, buf[..p])
    {
      r := FeedWord(buf, p, r, s);
      r := FeedWord(buf, p + 4, r, s);
      r := FeedWord(buf, p + 8, r, s);
      r := FeedWord(buf, p + 12, r, s);
      p := p + 16;
    }
    while |buf| - p >= 4
      invariant from <= p <= |buf| && r == Fold(Feed, s, buf[..p])
    {
      r := FeedWord(buf, p, r, s);
      p := p + 4;
    }
  }

  /** The table-driven checksum of a buffer at any address: bytes up to a word boundary,
      then words, then the bytes left. */
  method Extend(crc: bv32, buf: Bytes, address: nat) returns (r: bv32)
    ensures r == Extended(crc, buf)
  {
    ghost var s := Invert(crc);
    var p := 0;
    var x := (address + 3) / 4 * 4 - address;
    r := Invert(crc);
    if x <= |buf| {
      r := FeedBytes(buf, 0, x, r, s);
      p := x;
    }
    p, r := FeedWords(buf, p, r, s);
    r := FeedBytes(buf, p, |buf|, r, s);
    assert buf[..|buf|] == buf;
    r := Invert(r);
  }

  // ----- masked checksums

  /** Rotated right by fifteen bits, then moved by a constant. */
  function Mask(crc: bv32): bv32 {
    RotateRight15(crc) + 0xa282_ead8
  }

  function Unmask(masked: bv32): bv32 {
    RotateRight17(masked - 0xa282_ead8)
  }

  function RotateRight15(x: bv32): bv32 { (x >> 15) | (x << 17) }

  function RotateRight17(x: bv32): bv32 { (x >> 17) | (x << 15) }

  lemma {:induction false} RotatesBack(x: bv32)
    ensures RotateRight17(RotateRight15(x)) == x
    ensures RotateRight15(RotateRight17(x)) == x
  {
  }

  lemma {:induction false} MovesBack(x: bv32)
    ensures x + 0xa282_ead8 - 0xa282_ead8 == x
    ensures x - 0xa282_ead8 + 0xa282_ead8 == x
  {
  }

  /** Masking loses nothing, in either direction. */
  lemma {:induction false} UnmaskMask(crc: bv32)
    ensures Unmask(Mask(crc)) == crc && Mask(Unmask(crc)) == crc
  {
    RotatesBack(crc);
    RotatesBack(crc - 0xa282_ead8);
    MovesBack(RotateRight15(crc));
    MovesBack(crc);
  }

  /** The four bytes stored in front of `data`. */
  function Stamp(data: Bytes): (b: Bytes)
    ensures |b| == 4
  {
    EncodeFixed32(Mask(Checksum(data)) as nat)
  }

  predicate StampMatches(stamp: Bytes, data: Bytes)
    requires |stamp| == 4
  {
    FixedValue(stamp) < TWO_32 && Unmask(FixedValue(stamp) as bv32) == Checksum(data)
  }

  lemma {:induction false} OwnStampMatches(data: Bytes)
    ensures StampMatches(Stamp(data), data)
  {
    UnmaskMask(Checksum(data));
  }

  /** The stamp of some data is accepted for other data just if the checksums are the same. */
  lemma {:induction false} StampMatchesIff(data: Bytes, other: Bytes)
    ensures StampMatches(Stamp(data), other) <==> Checksum(data) == Checksum(other)
  {
    hide Mask, Unmask, Checksum;
    UnmaskMask(Checksum(data));
  }
}
