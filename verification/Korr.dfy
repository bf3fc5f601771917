/**
 The integer codecs of myhttp/http/include: the portable macros of byte_order_generic.h and
 the x86 macros of byte_order_generic_x86_64.h, on machine words, against little-endian
 numerals. A word of a signed type is the word of its bits.
 */
module Korr {
  import opened Arithmetic
  import opened Numerals

  type Byte = bv8

  function Ints(b: seq<Byte>): seq<Digit> {
    seq(|b|, i requires 0 <= i < |b| => b[i] as int)
  }

  // Bytes side by side. They do not overlap, so the word sum is the sum of the numbers.
  lemma Sum2(b0: Byte, b1: Byte)
    ensures ((b0 as bv16) + ((b1 as bv16) << 8)) as int
            == (b0 as int) + 0x100 * (b1 as int)
  {
  }

  function Join2(b0: Byte, b1: Byte): (w: bv16)
    ensures w as int == (b0 as int) + 0x100 * (b1 as int)
  {
    Sum2(b0, b1);
    (b0 as bv16) + ((b1 as bv16) << 8)
  }

  lemma Sum3(b0: Byte, b1: Byte, b2: Byte)
    ensures ((b0 as bv32) + ((b1 as bv32) << 8) + ((b2 as bv32) << 16)) as int
            == (b0 as int) + 0x100 * (b1 as int) + 0x1_0000 * (b2 as int)
  {
  }

  function Join3(b0: Byte, b1: Byte, b2: Byte): (w: bv32)
    ensures w as int == (b0 as int) + 0x100 * (b1 as int) + 0x1_0000 * (b2 as int)
  {
    Sum3(b0, b1, b2);
    (b0 as bv32) + ((b1 as bv32) << 8) + ((b2 as bv32) << 16)
  }

  lemma Sum4(b0: Byte, b1: Byte, b2: Byte, b3: Byte)
    ensures ((b0 as bv32) + ((b1 as bv32) << 8) + ((b2 as bv32) << 16) + ((b3 as bv32) << 24)) as int
            == (b0 as int) + 0x100 * (b1 as int) + 0x1_0000 * (b2 as int) + 0x100_0000 * (b3 as int)
  {
  }

  function Join4(b0: Byte, b1: Byte, b2: Byte, b3: Byte): (w: bv32)
    ensures w as int == (b0 as int) + 0x100 * (b1 as int) + 0x1_0000 * (b2 as int) + 0x100_0000 * (b3 as int)
  {
    Sum4(b0, b1, b2, b3);
    (b0 as bv32) + ((b1 as bv32) << 8) + ((b2 as bv32) << 16) + ((b3 as bv32) << 24)
  }

  lemma Sum5(low: bv32, b4: Byte)
    ensures ((low as bv64) + ((b4 as bv64) << 32)) as int
            == (low as int) + 0x1_0000_0000 * (b4 as int)
  {
  }

  function Join5(low: bv32, b4: Byte): (w: bv64)
    ensures w as int == (low as int) + 0x1_0000_0000 * (b4 as int)
  {
    Sum5(low, b4);
    (low as bv64) + ((b4 as bv64) << 32)
  }

  lemma Sum6(low: bv32, b4: Byte, b5: Byte)
    ensures ((low as bv64) + ((b4 as bv64) << 32) + ((b5 as bv64) << 40)) as int
            == (low as int) + 0x1_0000_0000 * (b4 as int) + 0x100_0000_0000 * (b5 as int)
  {
  }

  function Join6(low: bv32, b4: Byte, b5: Byte): (w: bv64)
    ensures w as int == (low as int) + 0x1_0000_0000 * (b4 as int) + 0x100_0000_0000 * (b5 as int)
  {
    Sum6(low, b4, b5);
    (low as bv64) + ((b4 as bv64) << 32) + ((b5 as bv64) << 40)
  }

  lemma Sum8(low: bv32, high: bv32)
    ensures ((low as bv64) + ((high as bv64) << 32)) as int
            == (low as int) + 0x1_0000_0000 * (high as int)
  {
  }

  function Join8(low: bv32, high: bv32): (w: bv64)
    ensures w as int == (low as int) + 0x1_0000_0000 * (high as int)
  {
    Sum8(low, high);
    (low as bv64) + ((high as bv64) << 32)
  }

  // --- byte_order_generic.h: loads ---

  function Uint2Korr(a: seq<Byte>): bv16
    requires |a| >= 2
  {
    Join2(a[0], a[1])
  }

  function Uint3Korr(a: seq<Byte>): bv32
    requires |a| >= 3
  {
    Join3(a[0], a[1], a[2])
  }

  function Uint4Korr(a: seq<Byte>): bv32
    requires |a| >= 4
  {
    Join4(a[0], a[1], a[2], a[3])
  }

  function Uint5Korr(a: seq<Byte>): bv64
    requires |a| >= 5
  {
    Join5(Join4(a[0], a[1], a[2], a[3]), a[4])
  }

  function Uint6Korr(a: seq<Byte>): bv64
    requires |a| >= 6
  {
    Join6(Join4(a[0], a[1], a[2], a[3]), a[4], a[5])
  }

  function Uint8Korr(a: seq<Byte>): bv64
    requires |a| >= 8
  {
    Join8(Join4(a[0], a[1], a[2], a[3]), Join4(a[4], a[5], a[6], a[7]))
  }
  // The signed macros. An int holds the sum of the first before the cast to int16.
  function Sint2Korr(a: seq<Byte>): bv16
    requires |a| >= 2
  {
    (((a[0] as bv32) + ((a[1] as bv32) << 8)) & 0xFFFF) as bv16
  }

  function Sint4Korr(a: seq<Byte>): bv32
    requires |a| >= 4
  {
    (a[0] as bv32) + ((a[1] as bv32) << 8) + ((a[2] as bv32) << 16) + ((a[3] as bv32) << 24)
  }

  function Sint8Korr(a: seq<Byte>): bv64
    requires |a| >= 8
  {
    Uint8Korr(a)
  }

  lemma UnfilledSum(b0: Byte, b1: Byte, b2: Byte)
    ensures (((b2 as bv32) << 16) | ((b1 as bv32) << 8) | (b0 as bv32)) as int
            == (b0 as int) + 0x100 * (b1 as int) + 0x1_0000 * (b2 as int)
  {
    UnfilledBits(b0, b1, b2);
    Sum3(b0, b1, b2);
  }

  lemma UnfilledBits(b0: Byte, b1: Byte, b2: Byte)
    ensures ((b2 as bv32) << 16) | ((b1 as bv32) << 8) | (b0 as bv32)
            == (b0 as bv32) + ((b1 as bv32) << 8) + ((b2 as bv32) << 16)
  {
  }

  lemma FilledSum(b0: Byte, b1: Byte, b2: Byte)
    ensures (((255 as bv32) << 24) | ((b2 as bv32) << 16) | ((b1 as bv32) << 8) | (b0 as bv32)) as int
            == (b0 as int) + 0x100 * (b1 as int) + 0x1_0000 * (b2 as int) + 0xFF00_0000
  {
    FilledBits(b0, b1, b2);
    Sum4(b0, b1, b2, 255);
  }

  lemma FilledBits(b0: Byte, b1: Byte, b2: Byte)
    ensures ((255 as bv32) << 24) | ((b2 as bv32) << 16) | ((b1 as bv32) << 8) | (b0 as bv32)
            == (b0 as bv32) + ((b1 as bv32) << 8) + ((b2 as bv32) << 16) + ((255 as bv8 as bv32) << 24)
  {
  }

  predicate TopBitSet(b: Byte) {
    b & 128 != 0
  }

  // A set top bit of byte 2 fills byte 3.
  function Extend3(b0: Byte, b1: Byte, b2: Byte): (w: bv32)
    ensures w as int == (b0 as int) + 0x100 * (b1 as int) + 0x1_0000 * (b2 as int)
                        + if TopBitSet(b2) then 0xFF00_0000 else 0
  {
    if TopBitSet(b2) then
      FilledSum(b0, b1, b2);
      ((255 as bv32) << 24) | ((b2 as bv32) << 16) | ((b1 as bv32) << 8) | (b0 as bv32)
    else
      UnfilledSum(b0, b1, b2);
      ((b2 as bv32) << 16) | ((b1 as bv32) << 8) | (b0 as bv32)
  }

  function Sint3Korr(a: seq<Byte>): bv32
    requires |a| >= 3
  {
    Extend3(a[0], a[1], a[2])
  }

  // --- byte_order_generic_x86_64.h: loads ---

  // Word loads of a little-endian machine.
  function Word2(a: seq<Byte>): bv16
    requires |a| >= 2
  {
    ((a[1] as bv16) << 8) | (a[0] as bv16)
  }

  function Word4(a: seq<Byte>): bv32
    requires |a| >= 4
  {
    ((a[3] as bv32) << 24) | ((a[2] as bv32) << 16) | ((a[1] as bv32) << 8) | (a[0] as bv32)
  }

  function Word8(a: seq<Byte>): bv64
    requires |a| >= 8
  {
    ((a[7] as bv64) << 56) | ((a[6] as bv64) << 48) | ((a[5] as bv64) << 40) | ((a[4] as bv64) << 32) |
    ((a[3] as bv64) << 24) | ((a[2] as bv64) << 16) | ((a[1] as bv64) << 8) | (a[0] as bv64)
  }

  // Reads 4 bytes, not 3.
  function X86Uint3Korr(a: seq<Byte>): bv32
    requires |a| >= 4
  {
    Word4(a) & 0xFF_FFFF
  }

  /** The x86 loads and the portable loads agree; the masked 4-byte read does not see byte 3. */
  lemma LoadsAgree(a: seq<Byte>)
    ensures |a| >= 2 ==> Word2(a) == Uint2Korr(a)
    ensures |a| >= 4 ==> X86Uint3Korr(a) == Uint3Korr(a) && Word4(a) == Uint4Korr(a)
    ensures |a| >= 8 ==> Word8(a) == Uint8Korr(a)
  {
  }

  // The signed 2-, 4- and 8-byte loads, portable or x86, are the words of the unsigned ones.
  lemma SignedLoadsAgree(a: seq<Byte>)
    ensures |a| >= 2 ==> Sint2Korr(a) == Uint2Korr(a) == Word2(a)
    ensures |a| >= 4 ==> Sint4Korr(a) == Uint4Korr(a) == Word4(a)
    ensures |a| >= 8 ==> Sint8Korr(a) == Word8(a)
  {
  }

  // --- What the loads mean ---

  // Byte i, or 0 past the end.
  function At(a: seq<Byte>, i: nat): int {
    if i < |a| then a[i] as int else 0
  }

  // The number the bytes from i on spell.
  function Spelled(a: seq<Byte>, i: nat): int {
    if i < |a| then Value(Ints(a)[i..]) else 0
  }

  lemma SpelledStep(a: seq<Byte>, i: nat)
    ensures Spelled(a, i) == At(a, i) + 256 * Spelled(a, i + 1)
  {
    if i < |a| {
      assert Ints(a)[i..][1..] == Ints(a)[i + 1..];
    }
  }

  // Up to 8 bytes, by their weights.
  lemma SpelledSum(a: seq<Byte>)
    requires 0 < |a| <= 8
    ensures Value(Ints(a)) == At(a, 0) + 0x100 * At(a, 1) + 0x1_0000 * At(a, 2) + 0x100_0000 * At(a, 3)
                              + 0x1_0000_0000 * At(a, 4) + 0x100_0000_0000 * At(a, 5)
                              + 0x1_0000_0000_0000 * At(a, 6) + 0x100_0000_0000_0000 * At(a, 7)
  {
    assert Ints(a)[0..] == Ints(a);
    SpelledStep(a, 0);
    SpelledStep(a, 1);
    SpelledStep(a, 2);
    SpelledStep(a, 3);
    SpelledStep(a, 4);
    SpelledStep(a, 5);
    SpelledStep(a, 6);
    SpelledStep(a, 7);
  }

  /** Each load of N bytes is the little-endian number that the bytes spell. */
  lemma Load2Value(a: seq<Byte>)
    requires |a| == 2
    ensures Uint2Korr(a) as int == Value(Ints(a))
  {
    SpelledSum(a);
  }

  lemma Load3Value(a: seq<Byte>)
    requires |a| == 3
    ensures Uint3Korr(a) as int == Value(Ints(a))
  {
    SpelledSum(a);
  }

  lemma Load4Value(a: seq<Byte>)
    requires |a| == 4
    ensures Uint4Korr(a) as int == Value(Ints(a))
  {
    SpelledSum(a);
  }

  lemma Load5Value(a: seq<Byte>)
    requires |a| == 5
    ensures Uint5Korr(a) as int == Value(Ints(a))
  {
    SpelledSum(a);
  }

  lemma Load6Value(a: seq<Byte>)
    requires |a| == 6
    ensures Uint6Korr(a) as int == Value(Ints(a))
  {
    SpelledSum(a);
  }

  lemma Load8Value(a: seq<Byte>)
    requires |a| == 8
    ensures Uint8Korr(a) as int == Value(Ints(a))
  {
    SpelledSum(a);
  }

  lemma SpelledThree(a: seq<Byte>)
    requires |a| == 3
    ensures Value(Ints(a)) == a[0] as int + 0x100 * (a[1] as int) + 0x1_0000 * (a[2] as int)
  {
    SpelledSum(a);
  }

  /** The 3-byte signed load sign-extends: it is the number the bytes spell in two's complement. */
  lemma SignedLoad3Value(a: seq<Byte>)
    requires |a| == 3
    ensures Signed(Sint3Korr(a) as int, 0x1_0000_0000) == Signed(Value(Ints(a)), 0x100_0000)
  {
    SpelledThree(a);
    TopBit(a[2]);
    SignExtend(Value(Ints(a)), a[0] as int + 0x100 * (a[1] as int), a[2] as int, Sint3Korr(a) as int);
  }

  lemma SignExtend(value: nat, low: nat, top: nat, word: nat)
    requires value == low + 0x1_0000 * top && low < 0x1_0000 && top < 0x100
    requires word == value + if top >= 0x80 then 0xFF00_0000 else 0
    ensures Signed(word, 0x1_0000_0000) == Signed(value, 0x100_0000)
  {
  }

  lemma TopBit(b: Byte)
    ensures TopBitSet(b) <==> b as int >= 128
  {
  }

  // --- The stores ---

  // The cast to uchar.
  function Low(a: bv64): Byte {
    (a & 0xFF) as Byte
  }

  // The bytes of the argument as the macros pick them: (A), (A) >> 8, (A) >> 16, ...
  function ByteOf(a: bv64, k: nat): Byte
    requires k < 8
  {
    match k
    case 0 => Low(a)
    case 1 => Low(a >> 8)
    case 2 => Low(a >> 16)
    case 3 => Low(a >> 24)
    case 4 => Low(a >> 32)
    case 5 => Low(a >> 40)
    case 6 => Low(a >> 48)
    case _ => Low(a >> 56)
  }

  function Stored(a: bv64, width: nat): seq<Byte>
    requires width <= 8
  {
    seq(width, k requires 0 <= k < width => ByteOf(a, k))
  }

  // The buffer after the stored bytes of `a` are written at `at`, and nothing else.
  ghost predicate WrittenAt(before: seq<Byte>, after: seq<Byte>, at: nat, a: bv64, width: nat)
    requires width <= 8 && at + width <= |before|
  {
    after == before[..at] + Stored(a, width) + before[at + width..]
  }

  lemma ByteByByte(before: seq<Byte>, after: seq<Byte>, at: nat, a: bv64, width: nat)
    requires width <= 8 && at + width <= |before| == |after|
    requires forall k | 0 <= k < |after| ::
               after[k] == if at <= k < at + width then ByteOf(a, k - at) else before[k]
    ensures WrittenAt(before, after, at, a, width)
  {
  }

  method Int2Store(t: array<Byte>, at: nat, a: bv64)
    requires at + 2 <= t.Length
    modifies t
    ensures WrittenAt(old(t[..]), t[..], at, a, 2)
  {
    t[at], t[at + 1] := Low(a), Low(a >> 8);
  }

  method Int3Store(t: array<Byte>, at: nat, a: bv64)
    requires at + 3 <= t.Length
    modifies t
    ensures WrittenAt(old(t[..]), t[..], at, a, 3)
  {
    t[at], t[at + 1], t[at + 2] := Low(a), Low(a >> 8), Low(a >> 16);
  }

  method Int4Store(t: array<Byte>, at: nat, a: bv64)
    requires at + 4 <= t.Length
    modifies t
    ensures WrittenAt(old(t[..]), t[..], at, a, 4)
  {
    t[at], t[at + 1], t[at + 2], t[at + 3] := Low(a), Low(a >> 8), Low(a >> 16), Low(a >> 24);
  }

  method Int5Store(t: array<Byte>, at: nat, a: bv64)
    requires at + 5 <= t.Length
    modifies t
    ensures WrittenAt(old(t[..]), t[..], at, a, 5)
  {
    t[at], t[at + 1], t[at + 2], t[at + 3] := Low(a), Low(a >> 8), Low(a >> 16), Low(a >> 24);
    t[at + 4] := Low(a >> 32);
    ByteByByte(old(t[..]), t[..], at, a, 5);
  }

  method Int6Store(t: array<Byte>, at: nat, a: bv64)
    requires at + 6 <= t.Length
    modifies t
    ensures WrittenAt(old(t[..]), t[..], at, a, 6)
  {
    t[at], t[at + 1], t[at + 2], t[at + 3] := Low(a), Low(a >> 8), Low(a >> 16), Low(a >> 24);
    t[at + 4], t[at + 5] := Low(a >> 32), Low(a >> 40);
    ByteByByte(old(t[..]), t[..], at, a, 6);
  }

  // The portable 8-byte store is two 4-byte stores.
  method Int8Store(t: array<Byte>, at: nat, a: bv64)
    requires at + 8 <= t.Length
    modifies t
    ensures WrittenAt(old(t[..]), t[..], at, a, 8)
  {
    var temp, temp2 := a & 0xFFFF_FFFF, (a >> 32) & 0xFFFF_FFFF;
    HalvesOfWord(a);
    Int4Store(t, at, temp);
    Int4Store(t, at + 4, temp2);
  }

  lemma HalvesOfWord(a: bv64)
    ensures Stored(a, 8) == Stored(a & 0xFFFF_FFFF, 4) + Stored((a >> 32) & 0xFFFF_FFFF, 4)
  {
  }

  lemma Reassemble(a: bv64)
    ensures Uint8Korr(Stored(a, 8)) == a
  {
  }

  /** A store of N bytes writes the first N digits of its argument. */
  lemma StoredDigits(a: bv64, width: nat)
    requires width <= 8
    ensures Ints(Stored(a, width)) == Digits(a as int, width)
  {
    Reassemble(a);
    Load8Value(Stored(a, 8));
    DigitsOfValue(Ints(Stored(a, 8)));
    DigitsPrefix(a as int, width, 8);
    assert Ints(Stored(a, width)) == Ints(Stored(a, 8))[..width];
  }

  lemma SameInts(b: seq<Byte>, c: seq<Byte>)
    requires Ints(b) == Ints(c)
    ensures b == c
  {
    forall i | 0 <= i < |b|
      ensures b[i] == c[i]
    {
      assert Ints(b)[i] == Ints(c)[i];
    }
  }

  /** Loading a stored value gives it back modulo 256 to the width. */
  lemma StoreThenLoad(a: bv64)
    ensures Uint2Korr(Stored(a, 2)) as int == a as int % 0x1_0000
    ensures Uint3Korr(Stored(a, 3)) as int == a as int % 0x100_0000
    ensures Uint4Korr(Stored(a, 4)) as int == a as int % 0x1_0000_0000
    ensures Uint5Korr(Stored(a, 5)) as int == a as int % 0x100_0000_0000
    ensures Uint6Korr(Stored(a, 6)) as int == a as int % 0x1_0000_0000_0000
    ensures Uint8Korr(Stored(a, 8)) == a
  {
    Load2Value(Stored(a, 2));
    Load3Value(Stored(a, 3));
    Load4Value(Stored(a, 4));
    Load5Value(Stored(a, 5));
    Load6Value(Stored(a, 6));
    Reassemble(a);
    StoredValue(a, 2);
    StoredValue(a, 3);
    StoredValue(a, 4);
    StoredValue(a, 5);
    StoredValue(a, 6);
    Powers();
  }

  lemma StoredValue(a: bv64, width: nat)
    requires width <= 8
    ensures Value(Ints(Stored(a, width))) == a as int % Pow256(width)
  {
    StoredDigits(a, width);
    ValueOfDigits(a as int, width);
  }

  lemma Powers()
    ensures Pow256(2) == 0x1_0000 && Pow256(3) == 0x100_0000 && Pow256(4) == 0x1_0000_0000
    ensures Pow256(5) == 0x100_0000_0000 && Pow256(6) == 0x1_0000_0000_0000
    ensures Pow256(8) == 0x1_0000_0000_0000_0000
  {
    assert Pow256(4) == 256 * Pow256(3);
    assert Pow256(5) == 256 * Pow256(4);
    assert Pow256(6) == 256 * Pow256(5);
    assert Pow256(7) == 256 * Pow256(6);
  }

  lemma SameValue(b: seq<Byte>, c: seq<Byte>)
    requires |b| == |c| && Value(Ints(b)) == Value(Ints(c))
    ensures b == c
  {
    DigitsOfValue(Ints(b));
    DigitsOfValue(Ints(c));
    SameInts(b, c);
  }

  lemma StoredIffValue(b: seq<Byte>, a: bv64)
    requires |b| <= 8
    ensures b == Stored(a, |b|) <==> Value(Ints(b)) == a as int % Pow256(|b|)
  {
    StoredValue(a, |b|);
    if Value(Ints(b)) == a as int % Pow256(|b|) {
      SameValue(b, Stored(a, |b|));
    }
  }

  lemma Word2Value(b: seq<Byte>)
    requires |b| == 2
    ensures Word2(b) as int == Value(Ints(b))
  {
    LoadsAgree(b);
    assert Word2(b) == Uint2Korr(b);
    Load2Value(b);
  }

  lemma Word4Value(b: seq<Byte>)
    requires |b| == 4
    ensures Word4(b) as int == Value(Ints(b))
  {
    LoadsAgree(b);
    assert Word4(b) == Uint4Korr(b);
    Load4Value(b);
  }

  lemma Word8Value(b: seq<Byte>)
    requires |b| == 8
    ensures Word8(b) as int == Value(Ints(b))
  {
    LoadsAgree(b);
    assert Word8(b) == Uint8Korr(b);
    Load8Value(b);
  }

  lemma ValueIffStored(b: seq<Byte>, a: bv64, word: int, modulus: int)
    requires |b| <= 8 && word == Value(Ints(b)) && modulus == Pow256(|b|)
    ensures word == a as int % modulus <==> b == Stored(a, |b|)
  {
    StoredIffValue(b, a);
  }

  /** A word store of the x86 macros puts down the bytes from which the word load reads the low
      part of the argument; they are exactly the bytes the portable store writes. */
  lemma WordStore2Agrees(b: seq<Byte>, a: bv64)
    requires |b| == 2
    ensures Word2(b) as int == a as int % 0x1_0000 <==> b == Stored(a, 2)
  {
    Word2Value(b);
    Powers();
    ValueIffStored(b, a, Word2(b) as int, 0x1_0000);
  }

  lemma WordStore4Agrees(b: seq<Byte>, a: bv64)
    requires |b| == 4
    ensures Word4(b) as int == a as int % 0x1_0000_0000 <==> b == Stored(a, 4)
  {
    Word4Value(b);
    Powers();
    ValueIffStored(b, a, Word4(b) as int, 0x1_0000_0000);
  }

  lemma WordStore8Agrees(b: seq<Byte>, a: bv64)
    requires |b| == 8
    ensures Word8(b) as int == a as int % 0x1_0000_0000_0000_0000 <==> b == Stored(a, 8)
  {
    Word8Value(b);
    Powers();
    ValueIffStored(b, a, Word8(b) as int, 0x1_0000_0000_0000_0000);
  }

  // Any word whose number the bytes spell is stored as those bytes.
  lemma StoredOfValue(b: seq<Byte>, a: bv64)
    requires |b| <= 8 && a as int == Value(Ints(b))
    ensures Stored(a, |b|) == b
  {
    StoredDigits(a, |b|);
    DigitsOfValue(Ints(b));
    SameInts(Stored(a, |b|), b);
  }

  /** Storing a loaded value restores the bytes. */
  lemma LoadThenStore(b: seq<Byte>)
    ensures |b| == 2 ==> Stored(Uint2Korr(b) as bv64, 2) == b
    ensures |b| == 3 ==> Stored(Uint3Korr(b) as bv64, 3) == b
    ensures |b| == 4 ==> Stored(Uint4Korr(b) as bv64, 4) == b
    ensures |b| == 5 ==> Stored(Uint5Korr(b), 5) == b
    ensures |b| == 6 ==> Stored(Uint6Korr(b), 6) == b
    ensures |b| == 8 ==> Stored(Uint8Korr(b), 8) == b
  {
    if |b| == 2 {
      Load2Value(b);
      StoredOfValue(b, Uint2Korr(b) as bv64);
    } else if |b| == 3 {
      Load3Value(b);
      StoredOfValue(b, Uint3Korr(b) as bv64);
    } else if |b| == 4 {
      Load4Value(b);
      StoredOfValue(b, Uint4Korr(b) as bv64);
    } else if |b| == 5 {
      Load5Value(b);
      StoredOfValue(b, Uint5Korr(b));
    } else if |b| == 6 {
      Load6Value(b);
      StoredOfValue(b, Uint6Korr(b));
    } else if |b| == 8 {
      Load8Value(b);
      StoredOfValue(b, Uint8Korr(b));
    }
  }

  /** The signed loads invert the stores over the whole two's-complement range of their width;
      `a` is the argument as a 64-bit word. */
  lemma SignedRoundTrip(v: int, a: bv64)
    requires -0x8000_0000_0000_0000 <= v < 0x8000_0000_0000_0000 && a as int == v % 0x1_0000_0000_0000_0000
    ensures Signed(Sint2Korr(Stored(a, 2)) as int, 0x1_0000) == v <==> -0x8000 <= v < 0x8000
    ensures Signed(Sint3Korr(Stored(a, 3)) as int, 0x1_0000_0000) == v <==> -0x80_0000 <= v < 0x80_0000
    ensures Signed(Sint4Korr(Stored(a, 4)) as int, 0x1_0000_0000) == v <==> -0x8000_0000 <= v < 0x8000_0000
    ensures Signed(Sint8Korr(Stored(a, 8)) as int, 0x1_0000_0000_0000_0000) == v
  {
    StoreThenLoad(a);
    SignedLoadsAgree(Stored(a, 2));
    SignedLoadsAgree(Stored(a, 4));
    SignedLoad3Value(Stored(a, 3));
    Load3Value(Stored(a, 3));
    SignedLowBytes(v, a as int);
  }

  lemma SignedLowBytes(v: int, a: int)
    requires -0x8000_0000_0000_0000 <= v < 0x8000_0000_0000_0000 && a == v % 0x1_0000_0000_0000_0000
    ensures Signed(a % 0x1_0000, 0x1_0000) == v <==> -0x8000 <= v < 0x8000
    ensures Signed(a % 0x100_0000, 0x100_0000) == v <==> -0x80_0000 <= v < 0x80_0000
    ensures Signed(a % 0x1_0000_0000, 0x1_0000_0000) == v <==> -0x8000_0000 <= v < 0x8000_0000
    ensures Signed(a, 0x1_0000_0000_0000_0000) == v
  {
    var k := if v < 0 then 1 else 0;
    assert a == v + k * 0x1_0000_0000_0000_0000;
    SignedLow(v, 0x1_0000, k * 0x1_0000_0000_0000);
    SignedLow(v, 0x100_0000, k * 0x100_0000_0000);
    SignedLow(v, 0x1_0000_0000, k * 0x1_0000_0000);
  }

  // Adding multiples of the modulus does not change what the low part denotes.
  lemma SignedLow(v: int, modulus: nat, k: nat)
    requires modulus > 0 && modulus % 2 == 0 && v + k * modulus >= 0
    ensures Signed((v + k * modulus) % modulus, modulus) == v <==> -(modulus as int) <= 2 * v < modulus
  {
    var n := v + k * modulus;
    var j := n / modulus - k;
    assert v == n % modulus + j * modulus;
    if j <= -2 {
      MulMonotone(j, -2, modulus);
    } else if j >= 1 {
      MulMonotone(1, j, modulus);
    }
    SignedResidue(v, n % modulus, j * modulus, modulus);
  }

  lemma SignedResidue(v: int, r: nat, multiple: int, modulus: nat)
    requires v == r + multiple && r < modulus && modulus % 2 == 0
    requires multiple <= -2 * modulus || multiple == -1 * modulus || multiple == 0 || multiple >= modulus
    ensures Signed(r, modulus) == v <==> -(modulus as int) <= 2 * v < modulus
  {
  }
}
