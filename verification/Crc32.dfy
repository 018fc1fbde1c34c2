/** CRC-32 as computed by Source/Core/Misc/Crc32Hash.h: the table loop equals the bit-at-a-time register of
    section 8 of RFC 1952 and section 8.1.1.6.2 of ITU-T V.42, and detects every burst of 32 bits.

    The facts about single words are proved by bit-blasting in lemmas of their own; elsewhere the bodies of
    the word functions are hidden. */
module Crc32 {
  import opened CrcTable

  type byte = bv8

  // ---------- the reference: one bit at a time ----------

  /** The reflected register takes in one message bit. */
  function BitStep(crc: bv32, bit: bool): bv32 {
    if (crc & 1 == 1) != bit then (crc >> 1) ^ POLYNOMIAL else crc >> 1
  }

  function Fold(crc: bv32, bits: seq<bool>): bv32
    decreases |bits|
  {
    if bits == [] then crc else Fold(BitStep(crc, bits[0]), bits[1..])
  }

  /** The CRC of a message of any number of bits: initial value and final complement are all ones. */
  function BitCrc(bits: seq<bool>): bv32 {
    Xor(Fold(0xffffffff, bits), 0xffffffff)
  }

  /** The n low bits of a word in transmission order, least significant first. */
  function WordBits(w: bv32, n: nat): (s: seq<bool>)
    ensures |s| == n
    decreases n
  {
    if n == 0 then [] else [w & 1 == 1] + WordBits(w >> 1, n - 1)
  }

  /** The bits of a string of bytes in transmission order. */
  function Bits(s: seq<byte>): (r: seq<bool>)
    ensures |r| == 8 * |s|
  {
    if s == [] then [] else WordBits(s[0] as bv32, 8) + Bits(s[1..])
  }

  // ---------- the code ----------

  /** A character is signed and is widened to the width of the register before the xor. */
  function Widen(c: byte): bv32 {
    if c & 0x80 == 0x80 then 0xffffff00 | (c as bv32) else c as bv32
  }

  function Xor(a: bv32, b: bv32): bv32 {
    a ^ b
  }

  function LowByte(x: bv32): (i: nat)
    ensures i < 256
  {
    (x & 0xff) as int
  }

  function Lookup(i: nat): (entry: bv32)
    requires i < 256
    ensures entry == Shift8(i as bv32)
  {
    TableEntry(i);
    CRC_TABLE[i]
  }

  method Hash(str: seq<byte>) returns (hash: bv32)
    ensures hash == BitCrc(Bits(str))
  {
    hide Fold, Bits, Xor, Lookup, LowByte, Widen;
    var crc: bv32 := 0xffffffff;
    NoBits();
    for k := 0 to |str|
      invariant crc == Fold(0xffffffff, Bits(str[..k]))
    {
      TableStep(crc, str[k]);
      OneMoreByte(str[..k], str[k]);
      assert str[..k + 1] == str[..k] + [str[k]];
      crc := Xor(crc >> 8, Lookup(LowByte(Xor(crc, Widen(str[k])))));
    }
    assert str[..|str|] == str;
    hash := Xor(crc, 0xffffffff);
  }

  // ---------- words ----------

  lemma XorZero(a: bv32)
    ensures Xor(a, 0) == a && Xor(0, a) == a && Xor(a, a) == 0
  {
  }

  lemma XorCommutes(a: bv32, b: bv32)
    ensures Xor(a, b) == Xor(b, a)
  {
  }

  lemma XorAssociates(a: bv32, b: bv32, c: bv32)
    ensures Xor(Xor(a, b), c) == Xor(a, Xor(b, c))
  {
  }

  lemma XorRight(x: bv32, w: bv32)
    ensures Xor(x, w) >> 1 == Xor(x >> 1, w >> 1)
  {
    hide Xor;
    XorIs(x, w);
    XorIs(x >> 1, w >> 1);
    RawXorRight(x, w);
  }

  lemma XorIs(a: bv32, b: bv32)
    ensures Xor(a, b) == a ^ b
  {
  }

  lemma RawXorRight(x: bv32, w: bv32)
    ensures (x ^ w) >> 1 == (x >> 1) ^ (w >> 1)
  {
  }

  lemma XorLowBit(x: bv32, w: bv32)
    ensures Xor(x, w) & 1 == Xor(x & 1, w & 1)
  {
  }

  lemma LowBit(x: bv32)
    ensures x & 1 == 0 || x & 1 == 1
  {
  }

  lemma ShiftXor(x: bv32)
    ensures Shift(x) == if x & 1 == 1 then Xor(x >> 1, POLYNOMIAL) else x >> 1
  {
  }

  lemma BitStepXor(x: bv32, bit: bool)
    ensures BitStep(x, bit) == if (x & 1 == 1) != bit then Xor(x >> 1, POLYNOMIAL) else x >> 1
  {
  }

  /** Shifting a register into which a word was xored feeds it the lowest bit of the word. */
  lemma PeelBit(x: bv32, w: bv32)
    ensures Shift(Xor(x, w)) == Xor(BitStep(x, w & 1 == 1), w >> 1)
  {
    hide Shift, BitStep, Xor;
    XorRight(x, w);
    XorLowBit(x, w);
    LowBit(x);
    LowBit(w);
    XorZero(0);
    XorZero(1);
    ShiftXor(Xor(x, w));
    BitStepXor(x, w & 1 == 1);
    XorAssociates(x >> 1, w >> 1, POLYNOMIAL);
    XorAssociates(x >> 1, POLYNOMIAL, w >> 1);
    XorCommutes(w >> 1, POLYNOMIAL);
  }

  lemma ZeroBit(y: bv32)
    ensures BitStep(y, false) == Shift(y)
  {
  }

  lemma SplitByte(x: bv32)
    ensures x == Xor(x & 0xff, x & 0xffffff00)
    ensures (x & 0xffffff00) & 0xff == 0 && (x & 0xffffff00) >> 8 == x >> 8
  {
  }

  lemma ByteAbove(crc: bv32, w: bv32)
    requires w >> 8 == 0
    ensures Xor(crc, w) >> 8 == crc >> 8
  {
  }

  lemma WidenedByte(crc: bv32, c: byte)
    ensures Xor(crc, Widen(c)) & 0xff == Xor(crc, c as bv32) & 0xff
  {
  }

  lemma LowByteBack(x: bv32)
    ensures LowByte(x) as bv32 == x & 0xff
  {
    WordBack(x & 0xff);
  }

  lemma WordBack(b: bv32)
    requires b < 256
    ensures (b as int) < 256 && (b as int) as bv32 == b
  {
  }

  lemma NarrowByte(c: byte)
    ensures (c as bv32) >> 8 == 0
  {
  }

  // ---------- the register without input ----------

  function ShiftN(x: bv32, n: nat): bv32
    decreases n
  {
    if n == 0 then x else ShiftN(Shift(x), n - 1)
  }

  function RightN(w: bv32, n: nat): bv32
    decreases n
  {
    if n == 0 then w else RightN(w >> 1, n - 1)
  }

  lemma EightShifts(x: bv32)
    ensures ShiftN(x, 8) == Shift8(x)
  {
    hide Shift;
    var x1 := Shift(x); var x2 := Shift(x1); var x3 := Shift(x2); var x4 := Shift(x3);
    assert ShiftN(x, 8) == ShiftN(x4, 4);
  }

  lemma EightRight(w: bv32)
    ensures RightN(w, 8) == w >> 8
  {
    var w4 := (((w >> 1) >> 1) >> 1) >> 1;
    assert RightN(w, 8) == RightN(w4, 4);
  }

  /** Feeding the low n bits of w, one at a time, is xoring w in at once and shifting n times. */
  lemma {:induction false} PeelBits(x: bv32, w: bv32, n: nat)
    ensures ShiftN(Xor(x, w), n) == Xor(Fold(x, WordBits(w, n)), RightN(w, n))
    decreases n
  {
    hide Shift, BitStep, Xor;
    if n > 0 {
      PeelBit(x, w);
      var bit := w & 1 == 1;
      PeelBits(BitStep(x, bit), w >> 1, n - 1);
      assert ([bit] + WordBits(w >> 1, n - 1))[1..] == WordBits(w >> 1, n - 1);
    }
  }

  /** The n low bits of w are zero. */
  ghost predicate LowZero(w: bv32, n: nat)
    decreases n
  {
    n == 0 || (w & 1 == 0 && LowZero(w >> 1, n - 1))
  }

  lemma LowByteZero(w: bv32)
    requires w & 0xff == 0
    ensures LowZero(w, 8)
  {
    var w4 := (((w >> 1) >> 1) >> 1) >> 1;
    assert LowZero(w, 8) <==> LowZero(w, 4) && LowZero(w4, 4);
  }

  /** Zero bits pass through the register as they are. */
  lemma {:induction false} HighPart(y: bv32, w: bv32, n: nat)
    requires LowZero(w, n)
    ensures ShiftN(Xor(y, w), n) == Xor(ShiftN(y, n), RightN(w, n))
    decreases n
  {
    hide Shift, BitStep, Xor;
    if n > 0 {
      PeelBit(y, w);
      ZeroBit(y);
      HighPart(Shift(y), w >> 1, n - 1);
    }
  }

  /** Of a register shifted eight times, all but the low byte moves down unchanged. */
  lemma Shift8Splits(x: bv32)
    ensures Shift8(x) == Xor(x >> 8, Shift8(x & 0xff))
  {
    hide Shift8, ShiftN, RightN, LowZero, Xor;
    var low, high := x & 0xff, x & 0xffffff00;
    SplitByte(x);
    LowByteZero(high);
    HighPart(low, high, 8);
    EightRight(high);
    EightShifts(x);
    EightShifts(low);
    XorCommutes(Shift8(low), x >> 8);
  }

  // ---------- the table loop is the reference ----------

  /** Feeding the bits of a byte is xoring the byte in and shifting eight times. */
  lemma FoldByte(crc: bv32, w: bv32)
    requires w >> 8 == 0
    ensures Fold(crc, WordBits(w, 8)) == Shift8(Xor(crc, w))
  {
    hide Shift8, Fold, ShiftN, RightN, WordBits, Xor;
    PeelBits(crc, w, 8);
    EightRight(w);
    EightShifts(Xor(crc, w));
    XorZero(Fold(crc, WordBits(w, 8)));
  }

  /** One table step takes in the eight bits of a byte. */
  lemma TableStep(crc: bv32, c: byte)
    ensures Fold(crc, WordBits(c as bv32, 8)) == Xor(crc >> 8, Lookup(LowByte(Xor(crc, Widen(c)))))
  {
    hide Shift8, Fold, WordBits, Xor, Lookup, LowByte, Widen;
    NarrowByte(c);
    ByteAbove(crc, c as bv32);
    WidenedByte(crc, c);
    LowByteBack(Xor(crc, Widen(c)));
    FoldByte(crc, c as bv32);
    Shift8Splits(Xor(crc, c as bv32));
  }

  lemma NoBits()
    ensures Fold(0xffffffff, Bits([])) == 0xffffffff
  {
  }

  lemma {:induction false} FoldAppend(crc: bv32, a: seq<bool>, b: seq<bool>)
    ensures Fold(crc, a + b) == Fold(Fold(crc, a), b)
    decreases |a|
  {
    hide BitStep;
    if a == [] {
      assert a + b == b;
    } else {
      assert (a + b)[1..] == a[1..] + b;
      FoldAppend(BitStep(crc, a[0]), a[1..], b);
    }
  }

  lemma {:induction false} BitsAppend(s: seq<byte>, t: seq<byte>)
    ensures Bits(s + t) == Bits(s) + Bits(t)
  {
    hide WordBits;
    if s == [] {
      assert s + t == t;
    } else {
      assert (s + t)[1..] == s[1..] + t;
      BitsAppend(s[1..], t);
    }
  }

  lemma OneMoreByte(s: seq<byte>, c: byte)
    ensures Fold(0xffffffff, Bits(s + [c])) == Fold(Fold(0xffffffff, Bits(s)), WordBits(c as bv32, 8))
  {
    hide Fold, WordBits;
    BitsAppend(s, [c]);
    assert Bits([c]) == WordBits(c as bv32, 8) + Bits([]) == WordBits(c as bv32, 8);
    FoldAppend(0xffffffff, Bits(s), WordBits(c as bv32, 8));
  }

  lemma NextByte(s: seq<byte>, c: byte, crc: bv32, next: bv32)
    requires Fold(0xffffffff, Bits(s)) == crc && Shift8(Xor(crc, c as bv32)) == next
    ensures Fold(0xffffffff, Bits(s + [c])) == next
  {
    hide Fold, Bits, WordBits, Shift8, Xor;
    OneMoreByte(s, c);
    NarrowByte(c);
    FoldByte(crc, c as bv32);
  }

  /** The check value of CRC-32: the nine digits "123456789" have the CRC 0xCBF43926, and no bytes have 0. */
  lemma CheckValue()
    ensures BitCrc(Bits([0x31, 0x32, 0x33, 0x34, 0x35, 0x36, 0x37, 0x38, 0x39])) == 0xCBF43926
    ensures BitCrc(Bits([])) == 0
  {
    var s: seq<byte> := [0x31, 0x32, 0x33, 0x34, 0x35, 0x36, 0x37, 0x38, 0x39];
    NoBits();
    hide Fold, Bits;
    assert s[..0] == [];
    assert s[..1] == s[..0] + [0x31];
    NextByte(s[..0], 0x31, 0xffffffff, 0x7c231048);
    assert s[..2] == s[..1] + [0x32];
    NextByte(s[..1], 0x32, 0x7c231048, 0xb0acbb32);
    assert s[..3] == s[..2] + [0x33];
    NextByte(s[..2], 0x33, 0xb0acbb32, 0x77b79c2d);
    assert s[..4] == s[..3] + [0x34];
    NextByte(s[..3], 0x34, 0x77b79c2d, 0x641c1f5c);
    assert s[..5] == s[..4] + [0x35];
    NextByte(s[..4], 0x35, 0x641c1f5c, 0x340ac5e3);
    assert s[..6] == s[..5] + [0x36];
    NextByte(s[..5], 0x36, 0x340ac5e3, 0xf68d2c9e);
    assert s[..7] == s[..6] + [0x37];
    NextByte(s[..6], 0x37, 0xf68d2c9e, 0xaffc9660);
    assert s[..8] == s[..7] + [0x38];
    NextByte(s[..7], 0x38, 0xaffc9660, 0x651f2550);
    assert s[..9] == s[..8] + [0x39];
    NextByte(s[..8], 0x39, 0x651f2550, 0x340bc6d9);
    assert s[..9] == s;
  }

  // ---------- bursts ----------

  lemma ShiftInjective(x: bv32, y: bv32)
    requires Shift(x) == Shift(y)
    ensures x == y
  {
  }

  lemma {:induction false} ShiftNInjective(x: bv32, y: bv32, n: nat)
    requires ShiftN(x, n) == ShiftN(y, n)
    ensures x == y
    decreases n
  {
    hide Shift;
    if n > 0 {
      ShiftNInjective(Shift(x), Shift(y), n - 1);
      ShiftInjective(x, y);
    }
  }

  lemma BitStepInjective(x: bv32, y: bv32, bit: bool)
    requires BitStep(x, bit) == BitStep(y, bit)
    ensures x == y
  {
  }

  /** Registers that differ stay different under any common continuation. */
  lemma {:induction false} FoldInjective(x: bv32, y: bv32, bits: seq<bool>)
    requires Fold(x, bits) == Fold(y, bits)
    ensures x == y
    decreases |bits|
  {
    hide BitStep;
    if bits != [] {
      FoldInjective(BitStep(x, bits[0]), BitStep(y, bits[0]), bits[1..]);
      BitStepInjective(x, y, bits[0]);
    }
  }

  function Place(w: bv32, bit: bool): bv32 {
    (w << 1) | (if bit then 1 else 0)
  }

  /** The word whose low bits, least significant first, are the given ones. */
  function Word(u: seq<bool>): bv32 {
    if u == [] then 0 else Place(Word(u[1..]), u[0])
  }

  lemma {:induction false} RightNAdd(w: bv32, n: nat, m: nat)
    ensures RightN(w, n + m) == RightN(RightN(w, n), m)
    decreases n
  {
    if n > 0 { RightNAdd(w >> 1, n - 1, m); }
  }

  lemma {:induction false} RightNZero(n: nat)
    ensures RightN(0, n) == 0
    decreases n
  {
    if n > 0 { RightNZero(n - 1); }
  }

  lemma RightN31(w: bv32)
    ensures RightN(w, 31) == w >> 31
  {
    hide RightN;
    RightNAdd(w, 8, 23); RightNAdd(w >> 8, 8, 15); RightNAdd((w >> 8) >> 8, 8, 7);
    EightRight(w); EightRight(w >> 8); EightRight((w >> 8) >> 8);
    SevenRight(((w >> 8) >> 8) >> 8);
  }

  lemma SevenRight(x: bv32)
    ensures RightN(x, 7) == x >> 7
  {
    assert RightN(x, 7) == RightN((((x >> 1) >> 1) >> 1) >> 1, 3);
  }

  /** A word of at most 31 bits has a free place for one more. */
  lemma RoomForOneMore(w: bv32, n: nat)
    requires n <= 31 && RightN(w, n) == 0
    ensures (w << 1) >> 1 == w
  {
    RightNAdd(w, n, 31 - n);
    RightNZero(31 - n);
    RightN31(w);
    TopBitClear(w);
  }

  lemma TopBitClear(w: bv32)
    requires w >> 31 == 0
    ensures (w << 1) >> 1 == w
  {
  }

  lemma LowPlace(w: bv32, bit: bool)
    requires (w << 1) >> 1 == w
    ensures Place(w, bit) >> 1 == w && (Place(w, bit) & 1 == 1 <==> bit)
  {
  }

  lemma PlaceBack(w: bv32, bit: bool, n: nat)
    requires n <= 31 && RightN(w, n) == 0
    ensures Place(w, bit) >> 1 == w && (Place(w, bit) & 1 == 1) == bit
  {
    RoomForOneMore(w, n);
    LowPlace(w, bit);
  }

  lemma Unfold(w: bv32, n: nat)
    requires n > 0
    ensures WordBits(w, n) == [w & 1 == 1] + WordBits(w >> 1, n - 1) && RightN(w, n) == RightN(w >> 1, n - 1)
  {
  }

  ghost predicate Held(u: seq<bool>) {
    WordBits(Word(u), |u|) == u && RightN(Word(u), |u|) == 0
  }

  lemma WordGrows(bit: bool, u: seq<bool>)
    requires |u| <= 31 && Held(u)
    ensures var w := Place(Word(u), bit);
      WordBits(w, |u| + 1) == [bit] + u && RightN(w, |u| + 1) == 0
  {
    hide Place, WordBits, RightN, Word;
    var w := Place(Word(u), bit);
    PlaceBack(Word(u), bit, |u|);
    Unfold(w, |u| + 1);
  }

  /** Up to 32 bits fit into a word without loss. */
  lemma {:induction false} WordHolds(u: seq<bool>)
    requires |u| <= 32
    ensures Held(u)
  {
    if u != [] {
      WordHolds(u[1..]);
      hide Place;
      WordGrows(u[0], u[1..]);
    }
  }

  lemma XorCancels(s: bv32, x: bv32, y: bv32)
    requires Xor(s, x) == Xor(s, y)
    ensures x == y
  {
  }

  /** From one register state, different bits of the same number, at most 32, lead to different states. */
  lemma WindowDetected(s: bv32, u: seq<bool>, v: seq<bool>)
    requires |u| == |v| <= 32 && Fold(s, u) == Fold(s, v)
    ensures u == v
  {
    hide Fold, ShiftN, RightN, WordBits, Word, Xor;
    WordHolds(u);
    WordHolds(v);
    PeelBits(s, Word(u), |u|);
    PeelBits(s, Word(v), |v|);
    XorZero(Fold(s, u));
    ShiftNInjective(Xor(s, Word(u)), Xor(s, Word(v)), |u|);
    XorCancels(s, Word(u), Word(v));
  }

  /** Two messages of the same length that differ, but only inside a window of 32 consecutive bits at any
      position, have different CRCs. */
  lemma BurstDetected(a: seq<bool>, b: seq<bool>, i: nat, n: nat)
    requires |a| == |b| && i + n <= |a| && n <= 32
    requires a[..i] == b[..i] && a[i + n..] == b[i + n..]
    requires BitCrc(a) == BitCrc(b)
    ensures a == b
  {
    hide Fold, Xor;
    var pre, u, v, post := a[..i], a[i..i + n], b[i..i + n], a[i + n..];
    assert a == pre + (u + post) && b == pre + (v + post);
    var s := Fold(0xffffffff, pre);
    FoldAppend(0xffffffff, pre, u + post); FoldAppend(s, u, post);
    FoldAppend(0xffffffff, pre, v + post); FoldAppend(s, v, post);
    XorCommutes(Fold(0xffffffff, a), 0xffffffff);
    XorCommutes(Fold(0xffffffff, b), 0xffffffff);
    XorCancels(0xffffffff, Fold(0xffffffff, a), Fold(0xffffffff, b));
    FoldInjective(Fold(s, u), Fold(s, v), post);
    WindowDetected(s, u, v);
  }

  lemma BitsSlice(s: seq<byte>, i: nat)
    requires i <= |s|
    ensures Bits(s)[..8 * i] == Bits(s[..i]) && Bits(s)[8 * i..] == Bits(s[i..])
  {
    assert s == s[..i] + s[i..];
    BitsAppend(s[..i], s[i..]);
  }

  lemma ByteFits(c: byte, d: byte)
    requires WordBits(c as bv32, 8) == WordBits(d as bv32, 8)
    ensures c == d
  {
    hide WordBits;
    NarrowByte(c);
    NarrowByte(d);
    FoldByte(0, c as bv32);
    FoldByte(0, d as bv32);
    ByteFolds(c as bv32, d as bv32);
  }

  lemma ByteFolds(x: bv32, y: bv32)
    requires Shift8(Xor(0, x)) == Shift8(Xor(0, y))
    ensures x == y
  {
    hide Shift8, Xor, ShiftN;
    XorZero(x);
    XorZero(y);
    EightShifts(x);
    EightShifts(y);
    ShiftNInjective(x, y, 8);
  }

  lemma {:induction false} BitsInjective(s: seq<byte>, t: seq<byte>)
    requires Bits(s) == Bits(t)
    ensures s == t
  {
    hide WordBits;
    if s != [] && t != [] {
      var x, y := WordBits(s[0] as bv32, 8), WordBits(t[0] as bv32, 8);
      assert Bits(s)[..8] == x && Bits(t)[..8] == y;
      assert Bits(s)[8..] == Bits(s[1..]) && Bits(t)[8..] == Bits(t[1..]);
      ByteFits(s[0], t[0]);
      BitsInjective(s[1..], t[1..]);
    }
  }

  /** Two strings of the same length that differ, but only inside four consecutive characters, hash to
      different values. */
  lemma StringBurstDetected(a: seq<byte>, b: seq<byte>, i: nat, n: nat)
    requires |a| == |b| && i + n <= |a| && n <= 4
    requires a[..i] == b[..i] && a[i + n..] == b[i + n..] && a != b
    ensures BitCrc(Bits(a)) != BitCrc(Bits(b))
  {
    hide Bits, BitCrc;
    BitsSlice(a, i); BitsSlice(a, i + n);
    BitsSlice(b, i); BitsSlice(b, i + n);
    if BitCrc(Bits(a)) == BitCrc(Bits(b)) {
      BurstDetected(Bits(a), Bits(b), 8 * i, 8 * n);
      BitsInjective(a, b);
    }
  }
}
