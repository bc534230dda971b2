/** Counting set bits: the table, the 32-byte form and the 28-byte form with sums inside 32-bit words. */
module Popcount {
  import opened Bits
  import opened BitopSpec
  import opened Bitfield

  // ---------------------------------------------------------------- what is counted

  function PopByte(b: bv8): (n: nat)
    ensures n <= 8
  {
    Digit(Bit(b, 128)) + Digit(Bit(b, 64)) + Digit(Bit(b, 32)) + Digit(Bit(b, 16))
    + Digit(Bit(b, 8)) + Digit(Bit(b, 4)) + Digit(Bit(b, 2)) + Digit(Bit(b, 1))
  }

  /** The number a byte stands for. */
  function ByteValue(b: bv8): (v: nat)
    ensures v < 256
  {
    128 * Digit(Bit(b, 128)) + 64 * Digit(Bit(b, 64)) + 32 * Digit(Bit(b, 32)) + 16 * Digit(Bit(b, 16))
    + 8 * Digit(Bit(b, 8)) + 4 * Digit(Bit(b, 4)) + 2 * Digit(Bit(b, 2)) + Digit(Bit(b, 1))
  }

  function SetBits(s: seq<bv8>): nat {
    if s == [] then 0 else SetBits(s[..|s| - 1]) + PopByte(s[|s| - 1])
  }

  lemma {:induction false} SetBitsAppend(s: seq<bv8>, t: seq<bv8>)
    ensures SetBits(s + t) == SetBits(s) + SetBits(t)
    decreases |t|
  {
    hide PopByte;
    if t == [] {
      assert s + t == s;
    } else {
      var most := t[..|t| - 1];
      assert (s + t)[..|s + t| - 1] == s + most;
      SetBitsAppend(s, most);
    }
  }

  lemma SetBitsNext(s: seq<bv8>, i: nat)
    requires i < |s|
    ensures SetBits(s[..i + 1]) == SetBits(s[..i]) + PopByte(s[i])
  {
    hide PopByte;
    assert s[..i + 1][..i] == s[..i];
  }

  // ---------------------------------------------------------------- the table

  /** An entry of the table: four values of 0, 1, 1, 2 added up, as its macros spell it. */
  function Table(v: nat): nat
    requires v < 256
  {
    Pair(v / 64) + Pair(v / 16 % 4) + Pair(v / 4 % 4) + Pair(v % 4)
  }

  function Pair(d: nat): nat
    requires d < 4
  {
    if d == 0 then 0 else if d == 3 then 2 else 1
  }

  lemma PairBits(hi: nat, lo: nat)
    requires hi <= 1 && lo <= 1
    ensures Pair(2 * hi + lo) == hi + lo
  {
  }

  lemma Digits(c7: nat, c6: nat, c5: nat, c4: nat, c3: nat, c2: nat, c1: nat, c0: nat, v: nat)
    requires c7 <= 1 && c6 <= 1 && c5 <= 1 && c4 <= 1 && c3 <= 1 && c2 <= 1 && c1 <= 1 && c0 <= 1
    requires v == 128 * c7 + 64 * c6 + 32 * c5 + 16 * c4 + 8 * c3 + 4 * c2 + 2 * c1 + c0
    ensures v / 64 == 2 * c7 + c6 && v / 16 % 4 == 2 * c5 + c4 && v / 4 % 4 == 2 * c3 + c2 && v % 4 == 2 * c1 + c0
  {
    assert v / 16 == 4 * (2 * c7 + c6) + (2 * c5 + c4);
    assert v / 4 == 16 * (2 * c7 + c6) + 4 * (2 * c5 + c4) + (2 * c3 + c2);
  }

  lemma TableCounts(b: bv8)
    ensures Table(ByteValue(b)) == PopByte(b)
  {
    hide Bit;
    var c7, c6, c5, c4 := Digit(Bit(b, 128)), Digit(Bit(b, 64)), Digit(Bit(b, 32)), Digit(Bit(b, 16));
    var c3, c2, c1, c0 := Digit(Bit(b, 8)), Digit(Bit(b, 4)), Digit(Bit(b, 2)), Digit(Bit(b, 1));
    Digits(c7, c6, c5, c4, c3, c2, c1, c0, ByteValue(b));
    PairBits(c7, c6);
    PairBits(c5, c4);
    PairBits(c3, c2);
    PairBits(c1, c0);
  }

  // ---------------------------------------------------------------- sums inside a word

  lemma {:induction false} AndSplit(a: nat, m: nat, y: nat, n: nat, k: nat)
    requires a < Pow2(k) && m < Pow2(k)
    ensures And(a + Pow2(k) * y, m + Pow2(k) * n) == And(a, m) + Pow2(k) * And(y, n)
    decreases k
  {
    if k == 0 {
      assert And(0, 0) == 0;
      assert a == 0 && m == 0;
    } else {
      var h := Pow2(k - 1);
      var x, z := a + Pow2(k) * y, m + Pow2(k) * n;
      HalfOf(a, h, y, x);
      HalfOf(m, h, n, z);
      AndHalf(x, z);
      AndHalf(a, m);
      AndSplit(a / 2, m / 2, y, n, k - 1);
      Assoc2(h, And(y, n));
    }
  }

  lemma HalfOf(a: nat, h: nat, y: nat, x: nat)
    requires x == a + 2 * h * y
    ensures x % 2 == a % 2 && x / 2 == a / 2 + h * y
  {
    assert 2 * h * y == 2 * (h * y);
  }

  lemma Assoc2(h: nat, v: nat)
    ensures 2 * (h * v) == (2 * h) * v
  {
  }

  lemma Pow2Small()
    ensures Pow2(2) == 4 && Pow2(4) == 16 && Pow2(6) == 64 && Pow2(7) == 128 && Pow2(8) == 256
  {
  }

  /** And with a mask of each byte, on four bytes at once. */
  lemma AndWord(a0: nat, a1: nat, a2: nat, a3: nat, m: nat)
    requires a0 < 256 && a1 < 256 && a2 < 256 && a3 < 256 && m < 256
    ensures And(Word(a0, a1, a2, a3), Word(m, m, m, m)) == Word(And(a0, m), And(a1, m), And(a2, m), And(a3, m))
  {
    hide And, Pow2;
    Pow2Small();
    AndSplit(a2, m, a3, m, 8);
    AndSplit(a1, m, a2 + 256 * a3, m + 256 * m, 8);
    AndSplit(a0, m, a1 + 256 * (a2 + 256 * a3), m + 256 * (m + 256 * m), 8);
  }

  function Word(b0: nat, b1: nat, b2: nat, b3: nat): nat {
    b0 + 256 * (b1 + 256 * (b2 + 256 * b3))
  }

  function Step1(x: nat): int { x - And(x / 2, 0x5555_5555) }

  function Step2(x: nat): nat { And(x, 0x3333_3333) + And(x / 4, 0x3333_3333) }

  function Step3(x: nat): nat { And(x + x / 16, 0x0F0F_0F0F) }

  /** Bits above a mask do not matter. */
  lemma AndLow(v: nat, e: nat, m: nat, k: nat)
    requires v < Pow2(k) && m < Pow2(k)
    ensures And(v + Pow2(k) * e, m) == And(v, m)
  {
    hide And, Pow2;
    AndSplit(v, m, e, 0, k);
    AndNothing(e);
    TimesZero(Pow2(k));
  }

  lemma TimesZero(p: nat)
    ensures p * 0 == 0
  {
  }

  function B1(b: nat): int { b - And(b / 2, 0x55) }

  function B2(b: nat): nat { And(b, 0x33) + And(b / 4, 0x33) }

  function B3(b: nat): nat { And(b + b / 16, 0x0F) }

  /** Two bits at a time. */
  lemma AndPair(b: nat, m: nat, d: nat)
    requires d == 0 || d == 1 || d == 3
    ensures And(b, 4 * m + d) == (if d == 0 then 0 else if d == 1 then b % 2 else b % 4) + 4 * And(b / 4, m)
  {
    hide And;
    AndHalf(b, 4 * m + d);
    AndHalf(b / 2, 2 * m + d / 2);
    assert (4 * m + d) / 2 == 2 * m + d / 2 && (2 * m + d / 2) / 2 == m;
    assert b / 2 / 2 == b / 4;
    assert b % 4 == b % 2 + 2 * (b / 2 % 2);
  }

  lemma And55(b: nat)
    requires b < 128
    ensures And(b, 0x55) == b % 2 + 4 * (b / 4 % 2) + 16 * (b / 16 % 2) + 64 * (b / 64 % 2)
  {
    hide And;
    AndPair(b, 0x15, 1);
    AndPair(b / 4, 0x05, 1);
    AndPair(b / 16, 0x01, 1);
    AndPair(b / 64, 0, 1);
    AndNothing(b / 256);
    assert b / 4 / 4 == b / 16 && b / 16 / 4 == b / 64 && b / 64 / 4 == b / 256;
  }

  lemma AndNothing(x: nat)
    ensures And(x, 0) == 0
  {
  }

  lemma And33(b: nat)
    requires b < 256
    ensures And(b, 0x33) == b % 4 + 16 * (b / 16 % 4)
  {
    hide And;
    AndPair(b, 0x0C, 3);
    AndPair(b / 4, 0x03, 0);
    AndPair(b / 16, 0, 3);
    AndNothing(b / 64);
    assert b / 4 / 4 == b / 16 && b / 16 / 4 == b / 64;
  }

  lemma And0F(b: nat)
    ensures And(b, 0x0F) == b % 16
  {
    AndMask(b, 4);
    Pow2Small();
  }

  /** The three steps on one byte count its bits. */
  lemma ByteSteps(b: bv8)
    ensures var v := ByteValue(b);
            0 <= B1(v) < 256 && B2(B1(v)) <= 0x44 && B2(B1(v)) % 16 <= 4 && B3(B2(B1(v))) == PopByte(b)
  {
    hide Bit, B1, B2, B3;
    var c7, c6, c5, c4 := Digit(Bit(b, 128)), Digit(Bit(b, 64)), Digit(Bit(b, 32)), Digit(Bit(b, 16));
    var c3, c2, c1, c0 := Digit(Bit(b, 8)), Digit(Bit(b, 4)), Digit(Bit(b, 2)), Digit(Bit(b, 1));
    AllSteps(c7, c6, c5, c4, c3, c2, c1, c0, ByteValue(b));
  }

  lemma AllSteps(c7: nat, c6: nat, c5: nat, c4: nat, c3: nat, c2: nat, c1: nat, c0: nat, v: nat)
    requires c7 <= 1 && c6 <= 1 && c5 <= 1 && c4 <= 1 && c3 <= 1 && c2 <= 1 && c1 <= 1 && c0 <= 1
    requires v == 128 * c7 + 64 * c6 + 32 * c5 + 16 * c4 + 8 * c3 + 4 * c2 + 2 * c1 + c0
    ensures 0 <= B1(v) < 256 && B2(B1(v)) <= 0x44 && B2(B1(v)) % 16 <= 4
    ensures B3(B2(B1(v))) == c7 + c6 + c5 + c4 + c3 + c2 + c1 + c0
  {
    hide B1, B2, B3;
    FirstStep(c7, c6, c5, c4, c3, c2, c1, c0, v);
    SecondStep(c7 + c6, c5 + c4, c3 + c2, c1 + c0, B1(v));
    ThirdStep(c7 + c6 + c5 + c4, c3 + c2 + c1 + c0, B2(B1(v)));
  }

  lemma ThirdStep(q1: nat, q0: nat, x: nat)
    requires q1 <= 4 && q0 <= 4 && x == 16 * q1 + q0
    ensures B3(x) == q1 + q0 && x % 16 == q0
  {
    hide And;
    And0F(x + x / 16);
    assert x / 16 == q1;
    assert (x + x / 16) % 16 == q1 + q0;
  }

  lemma FirstStep(c7: nat, c6: nat, c5: nat, c4: nat, c3: nat, c2: nat, c1: nat, c0: nat, v: nat)
    requires c7 <= 1 && c6 <= 1 && c5 <= 1 && c4 <= 1 && c3 <= 1 && c2 <= 1 && c1 <= 1 && c0 <= 1
    requires v == 128 * c7 + 64 * c6 + 32 * c5 + 16 * c4 + 8 * c3 + 4 * c2 + 2 * c1 + c0
    ensures B1(v) == 64 * (c7 + c6) + 16 * (c5 + c4) + 4 * (c3 + c2) + (c1 + c0)
  {
    hide And;
    var h := v / 2;
    assert h == 64 * c7 + 32 * c6 + 16 * c5 + 8 * c4 + 4 * c3 + 2 * c2 + c1;
    And55(h);
    assert h % 2 == c1;
    assert h / 4 == 16 * c7 + 8 * c6 + 4 * c5 + 2 * c4 + c3;
    assert h / 4 % 2 == c3;
    assert h / 16 == 4 * c7 + 2 * c6 + c5;
    assert h / 16 % 2 == c5;
    assert h / 64 == c7;
  }

  lemma SecondStep(p3: nat, p2: nat, p1: nat, p0: nat, w: nat)
    requires p3 <= 2 && p2 <= 2 && p1 <= 2 && p0 <= 2 && w == 64 * p3 + 16 * p2 + 4 * p1 + p0
    ensures B2(w) == 16 * (p3 + p2) + (p1 + p0)
  {
    hide And;
    And33(w);
    And33(w / 4);
    assert w % 4 == p0 && w / 16 == 4 * p3 + p2 && w / 16 % 4 == p2;
    assert w / 4 == 16 * p3 + 4 * p2 + p1;
    assert w / 4 % 4 == p1 && w / 4 / 16 == p3;
  }

  lemma WordHalves(b0: nat, b1: nat, b2: nat, b3: nat)
    requires b0 < 256 && b1 < 256 && b2 < 256 && b3 < 256
    ensures Word(b0, b1, b2, b3) / 2
            == Word(b0 / 2 + 128 * (b1 % 2), b1 / 2 + 128 * (b2 % 2), b2 / 2 + 128 * (b3 % 2), b3 / 2)
  {
  }

  lemma WordQuarters(b0: nat, b1: nat, b2: nat, b3: nat)
    requires b0 < 256 && b1 < 256 && b2 < 256 && b3 < 256
    ensures Word(b0, b1, b2, b3) / 4
            == Word(b0 / 4 + 64 * (b1 % 4), b1 / 4 + 64 * (b2 % 4), b2 / 4 + 64 * (b3 % 4), b3 / 4)
  {
  }

  lemma WordSixteenths(b0: nat, b1: nat, b2: nat, b3: nat)
    requires b0 < 256 && b1 < 256 && b2 < 256 && b3 < 256
    ensures Word(b0, b1, b2, b3) / 16
            == Word(b0 / 16 + 16 * (b1 % 16), b1 / 16 + 16 * (b2 % 16), b2 / 16 + 16 * (b3 % 16), b3 / 16)
  {
  }

  lemma Step1Bytes(b0: nat, b1: nat, b2: nat, b3: nat)
    requires b0 < 256 && b1 < 256 && b2 < 256 && b3 < 256
    requires B1(b0) >= 0 && B1(b1) >= 0 && B1(b2) >= 0 && B1(b3) >= 0
    ensures Step1(Word(b0, b1, b2, b3)) == Word(B1(b0), B1(b1), B1(b2), B1(b3))
  {
    hide And, Pow2;
    Pow2Small();
    WordHalves(b0, b1, b2, b3);
    assert Word(0x55, 0x55, 0x55, 0x55) == 0x5555_5555;
    AndWord(b0 / 2 + 128 * (b1 % 2), b1 / 2 + 128 * (b2 % 2), b2 / 2 + 128 * (b3 % 2), b3 / 2, 0x55);
    AndLow(b0 / 2, b1 % 2, 0x55, 7);
    AndLow(b1 / 2, b2 % 2, 0x55, 7);
    AndLow(b2 / 2, b3 % 2, 0x55, 7);
  }

  lemma Step2Bytes(b0: nat, b1: nat, b2: nat, b3: nat)
    requires b0 < 256 && b1 < 256 && b2 < 256 && b3 < 256
    ensures Step2(Word(b0, b1, b2, b3)) == Word(B2(b0), B2(b1), B2(b2), B2(b3))
  {
    hide And, Pow2;
    Pow2Small();
    WordQuarters(b0, b1, b2, b3);
    assert Word(0x33, 0x33, 0x33, 0x33) == 0x3333_3333;
    AndWord(b0, b1, b2, b3, 0x33);
    AndWord(b0 / 4 + 64 * (b1 % 4), b1 / 4 + 64 * (b2 % 4), b2 / 4 + 64 * (b3 % 4), b3 / 4, 0x33);
    AndLow(b0 / 4, b1 % 4, 0x33, 6);
    AndLow(b1 / 4, b2 % 4, 0x33, 6);
    AndLow(b2 / 4, b3 % 4, 0x33, 6);
  }

  lemma Step3Bytes(b0: nat, b1: nat, b2: nat, b3: nat)
    requires b0 <= 0x44 && b1 <= 0x44 && b2 <= 0x44 && b3 <= 0x44
    requires b1 % 16 <= 4 && b2 % 16 <= 4 && b3 % 16 <= 4
    ensures Step3(Word(b0, b1, b2, b3)) == Word(B3(b0), B3(b1), B3(b2), B3(b3))
  {
    hide And, B3;
    WordSixteenths(b0, b1, b2, b3);
    var a0, a1 := b0 + b0 / 16 + 16 * (b1 % 16), b1 + b1 / 16 + 16 * (b2 % 16);
    var a2, a3 := b2 + b2 / 16 + 16 * (b3 % 16), b3 + b3 / 16 + 16 * 0;
    WordSum(b0, b1, b2, b3, a0, a1, a2, a3);
    assert Word(0x0F, 0x0F, 0x0F, 0x0F) == 0x0F0F_0F0F;
    AndWord(a0, a1, a2, a3, 0x0F);
    LowNibble(b0, b1 % 16);
    LowNibble(b1, b2 % 16);
    LowNibble(b2, b3 % 16);
    LowNibble(b3, 0);
  }

  lemma WordSum(b0: nat, b1: nat, b2: nat, b3: nat, a0: nat, a1: nat, a2: nat, a3: nat)
    requires a0 == b0 + b0 / 16 + 16 * (b1 % 16) && a1 == b1 + b1 / 16 + 16 * (b2 % 16)
    requires a2 == b2 + b2 / 16 + 16 * (b3 % 16) && a3 == b3 + b3 / 16
    requires Word(b0, b1, b2, b3) / 16
             == Word(b0 / 16 + 16 * (b1 % 16), b1 / 16 + 16 * (b2 % 16), b2 / 16 + 16 * (b3 % 16), b3 / 16)
    ensures Word(b0, b1, b2, b3) + Word(b0, b1, b2, b3) / 16 == Word(a0, a1, a2, a3)
  {
  }

  lemma LowNibble(b: nat, e: nat)
    ensures And(b + b / 16 + 16 * e, 0x0F) == B3(b)
  {
    hide And;
    And0F(b + b / 16 + 16 * e);
    And0F(b + b / 16);
  }

  function WordAt(s: seq<bv8>, off: nat): nat
    requires off + 4 <= |s|
  {
    Word(ByteValue(s[off]), ByteValue(s[off + 1]), ByteValue(s[off + 2]), ByteValue(s[off + 3]))
  }

  function Pops(s: seq<bv8>, off: nat): nat
    requires off + 4 <= |s|
  {
    Word(PopByte(s[off]), PopByte(s[off + 1]), PopByte(s[off + 2]), PopByte(s[off + 3]))
  }

  /** After the three steps each byte of the word holds its own count. */
  lemma WordSteps(s: seq<bv8>, off: nat)
    requires off + 4 <= |s|
    ensures Step1(WordAt(s, off)) >= 0 && Step3(Step2(Step1(WordAt(s, off)))) == Pops(s, off)
  {
    hide And, PopByte, ByteValue, Step1, Step2, Step3;
    var v0, v1, v2, v3 := ByteValue(s[off]), ByteValue(s[off + 1]), ByteValue(s[off + 2]), ByteValue(s[off + 3]);
    ByteSteps(s[off]);
    ByteSteps(s[off + 1]);
    ByteSteps(s[off + 2]);
    ByteSteps(s[off + 3]);
    Step1Bytes(v0, v1, v2, v3);
    Step2Bytes(B1(v0), B1(v1), B1(v2), B1(v3));
    Step3Bytes(B2(B1(v0)), B2(B1(v1)), B2(B1(v2)), B2(B1(v3)));
  }

  /** Multiplying by 0x01010101 adds the four bytes in the highest one; 32-bit arithmetic wraps. */
  lemma MultiplyAdds(b0: nat, b1: nat, b2: nat, b3: nat)
    requires b0 <= 56 && b1 <= 56 && b2 <= 56 && b3 <= 56
    ensures Word(b0, b1, b2, b3) * 0x0101_0101 % 0x1_0000_0000 / 0x100_0000 == b0 + b1 + b2 + b3
  {
    var sum := b0 + b1 + b2 + b3;
    var low := 0x1_0000 * (b0 + b1 + b2) + 0x100 * (b0 + b1) + b0;
    var high := b1 + b2 + b3 + 0x100 * (b2 + b3) + 0x1_0000 * b3;
    var product := Word(b0, b1, b2, b3) * 0x0101_0101;
    assert product == 0x1_0000_0000 * high + (0x100_0000 * sum + low);
    HighByte(product, high, sum, low);
  }

  lemma HighByte(product: nat, high: nat, sum: nat, low: nat)
    requires low < 0x100_0000 && sum < 0x100 && product == 0x1_0000_0000 * high + (0x100_0000 * sum + low)
    ensures product % 0x1_0000_0000 / 0x100_0000 == sum
  {
    assert product % 0x1_0000_0000 == 0x100_0000 * sum + low;
  }

  // ---------------------------------------------------------------- the loops

  lemma FourMore(s: seq<bv8>, off: nat)
    requires off + 4 <= |s|
    ensures SetBits(s[..off + 4])
            == SetBits(s[..off]) + PopByte(s[off]) + PopByte(s[off + 1]) + PopByte(s[off + 2]) + PopByte(s[off + 3])
  {
    hide SetBits, PopByte;
    SetBitsNext(s, off);
    SetBitsNext(s, off + 1);
    SetBitsNext(s, off + 2);
    SetBitsNext(s, off + 3);
  }

  /** One word after the three steps. */
  method Sums(s: seq<bv8>, off: nat) returns (r: nat)
    requires off + 4 <= |s|
    ensures r == Pops(s, off)
  {
    hide Step1, Step2, Step3, Pops;
    WordSteps(s, off);
    var aux := Step1(WordAt(s, off));
    aux := Step2(aux);
    r := Step3(aux);
  }

  lemma NoWord()
    ensures Word(0, 0, 0, 0) == 0
  {
  }

  lemma WordAdd(a0: nat, a1: nat, a2: nat, a3: nat, b0: nat, b1: nat, b2: nat, b3: nat)
    ensures Word(a0, a1, a2, a3) + Word(b0, b1, b2, b3) == Word(a0 + b0, a1 + b1, a2 + b2, a3 + b3)
  {
  }

  /** The sum of seven such words holds four counts of at most 56. */
  method SevenWords(s: seq<bv8>, off: nat) returns (count: nat)
    requires off + 28 <= |s|
    ensures SetBits(s[..off + 28]) == SetBits(s[..off]) + count
  {
    hide SetBits, PopByte, Word;
    var total: nat := 0;
    NoWord();
    var b0: nat, b1: nat, b2: nat, b3: nat := 0, 0, 0, 0;
    for w := 0 to 7
      invariant total == Word(b0, b1, b2, b3) && b0 <= 8 * w && b1 <= 8 * w && b2 <= 8 * w && b3 <= 8 * w
      invariant SetBits(s[..off + 4 * w]) == SetBits(s[..off]) + b0 + b1 + b2 + b3
    {
      var o := off + 4 * w;
      var aux := Sums(s, o);
      FourMore(s, o);
      WordAdd(b0, b1, b2, b3, PopByte(s[o]), PopByte(s[o + 1]), PopByte(s[o + 2]), PopByte(s[o + 3]));
      total := total + aux;
      b0, b1, b2, b3 := b0 + PopByte(s[o]), b1 + PopByte(s[o + 1]), b2 + PopByte(s[o + 2]), b3 + PopByte(s[o + 3]);
    }
    MultiplyAdds(b0, b1, b2, b3);
    count := total * 0x0101_0101 % 0x1_0000_0000 / 0x100_0000;
  }

  /** The count of a 64-bit word by the processor instruction. */
  function PopWord64(s: seq<bv8>, off: nat): nat
    requires off + 8 <= |s|
  {
    SetBits(s[off..off + 8])
  }

  lemma EightMore(s: seq<bv8>, off: nat)
    requires off + 8 <= |s|
    ensures SetBits(s[..off + 8]) == SetBits(s[..off]) + PopWord64(s, off)
  {
    hide SetBits;
    assert s[..off + 8] == s[..off] + s[off..off + 8];
    SetBitsAppend(s[..off], s[off..off + 8]);
  }

  /** `redisPopcount` for a buffer at any address, in both of its forms. */
  method RedisPopcount(s: seq<bv8>, address: nat, usePopcnt: bool) returns (bits: nat)
    ensures bits == SetBits(s)
  {
    hide SetBits, PopByte, Table, ByteValue, PopWord64;
    bits := 0;
    var p := 0;
    var align := if usePopcnt then 8 else 4;
    assert s[..0] == [];
    assert SetBits([]) == 0 by { NoBitsSet(); }
    while (address + p) % align != 0 && p < |s|
      invariant 0 <= p <= |s| && bits == SetBits(s[..p])
      decreases |s| - p
    {
      TableCounts(s[p]);
      SetBitsNext(s, p);
      bits := bits + Table(ByteValue(s[p]));
      p := p + 1;
    }
    if usePopcnt {
      var c0, c1, c2, c3 := 0, 0, 0, 0;
      while |s| - p >= 32
        invariant 0 <= p <= |s| && bits + c0 + c1 + c2 + c3 == SetBits(s[..p])
      {
        EightMore(s, p);
        EightMore(s, p + 8);
        EightMore(s, p + 16);
        EightMore(s, p + 24);
        c0 := c0 + PopWord64(s, p);
        c1 := c1 + PopWord64(s, p + 8);
        c2 := c2 + PopWord64(s, p + 16);
        c3 := c3 + PopWord64(s, p + 24);
        p := p + 32;
      }
      bits := bits + c0 + c1 + c2 + c3;
    } else {
      while |s| - p >= 28
        invariant 0 <= p <= |s| && bits == SetBits(s[..p])
      {
        var count := SevenWords(s, p);
        bits := bits + count;
        p := p + 28;
      }
    }
    while p < |s|
      invariant 0 <= p <= |s| && bits == SetBits(s[..p])
    {
      TableCounts(s[p]);
      SetBitsNext(s, p);
      bits := bits + Table(ByteValue(s[p]));
      p := p + 1;
    }
    assert s[..|s|] == s;
  }

  lemma NoBitsSet()
    ensures SetBits([]) == 0
  {
  }
}
