/** Integers of any width at any bit offset of a string, and arithmetic on them with overflow control. */
module Bitfield {
  import opened Bits
  import opened Words
  import opened BitopSpec

  // ---------------------------------------------------------------- bits of a string

  /** Bit 0 of a byte is its most significant one. */
  function Mask(i: nat): (m: bv8)
    requires i < 8
    ensures OneBit(m)
  {
    if i == 0 then 128 else if i == 1 then 64 else if i == 2 then 32 else if i == 3 then 16
    else if i == 4 then 8 else if i == 5 then 4 else if i == 6 then 2 else 1
  }

  lemma MasksDiffer(i: nat, j: nat)
    requires i < 8 && j < 8 && i != j
    ensures Mask(i) != Mask(j)
  {
  }

  predicate GetBit(s: seq<bv8>, k: nat)
    requires k < 8 * |s|
  {
    Bit(s[k / 8], Mask(k % 8))
  }

  /** The string is continued by zero bits. */
  predicate BitOf(s: seq<bv8>, k: nat) {
    k < 8 * |s| && GetBit(s, k)
  }

  function WithBit(b: bv8, m: bv8, v: bool): bv8 {
    (b & !m) | (if v then m else 0)
  }

  lemma WithBitMeans(b: bv8, m: bv8, v: bool, m': bv8)
    requires OneBit(m) && OneBit(m')
    ensures Bit(WithBit(b, m, v), m') == if m == m' then v else Bit(b, m')
  {
    OneBitsApart(m, m');
    if v {
      assert ((b & !m) | m) & m' == ((b & !m) & m') | (m & m');
    } else {
      assert ((b & !m) | 0) & m' == (b & !m) & m';
    }
  }

  lemma OneBitsApart(m: bv8, m': bv8)
    requires OneBit(m) && OneBit(m')
    ensures m != m' ==> m & m' == 0
    ensures m == m' ==> m & m' != 0
  {
  }

  // ---------------------------------------------------------------- bits of a number

  predicate NatBit(v: nat, i: nat) {
    v / Pow2(i) % 2 == 1
  }

  function Digit(b: bool): nat {
    if b then 1 else 0
  }

  /** The number whose most significant bit is at `off`. */
  function Read(s: seq<bv8>, off: nat, bits: nat): (v: nat)
    ensures v < Pow2(bits)
  {
    if bits == 0 then 0 else 2 * Read(s, off, bits - 1) + Digit(BitOf(s, off + bits - 1))
  }

  // ---------------------------------------------------------------- writing and reading

  method SetUnsigned(p: array<bv8>, offset: nat, bits: nat, value: nat)
    requires offset + bits <= 8 * p.Length
    modifies p
    ensures forall k :: 0 <= k < 8 * p.Length ==>
              GetBit(p[..], k) == if offset <= k < offset + bits then NatBit(value, bits - 1 - (k - offset))
                else old(GetBit(p[..], k))
  {
    hide GetBit, NatBit;
    for j := 0 to bits
      invariant forall k :: 0 <= k < 8 * p.Length ==>
                  GetBit(p[..], k) == if offset <= k < offset + j then NatBit(value, bits - 1 - (k - offset))
                    else old(GetBit(p[..], k))
    {
      var o := offset + j;
      var v := BitValue(value, bits - 1 - j);
      ghost var was := p[..];
      p[o / 8] := WithBit(p[o / 8], Mask(o % 8), v);
      forall k | 0 <= k < 8 * p.Length ensures GetBit(p[..], k) == if k == o then v else GetBit(was, k) {
        OneBitChanged(was, p[..], o, v, k);
      }
    }
  }

  method BitValue(value: nat, i: nat) returns (v: bool)
    ensures v == NatBit(value, i)
  {
    v := value / Pow2(i) % 2 == 1;
  }

  lemma OneBitChanged(s: seq<bv8>, s': seq<bv8>, o: nat, v: bool, k: nat)
    requires o < 8 * |s| && k < 8 * |s| && s' == s[o / 8 := WithBit(s[o / 8], Mask(o % 8), v)]
    ensures GetBit(s', k) == if k == o then v else GetBit(s, k)
  {
    hide Bit, OneBit, WithBit, Mask;
    if k / 8 == o / 8 {
      WithBitMeans(s[o / 8], Mask(o % 8), v, Mask(k % 8));
      if k != o { MasksDiffer(k % 8, o % 8); }
    }
  }

  method GetUnsigned(s: seq<bv8>, offset: nat, bits: nat) returns (value: nat)
    requires offset + bits <= 8 * |s|
    ensures value == Read(s, offset, bits) < Pow2(bits)
  {
    hide GetBit;
    value := 0;
    for j := 0 to bits
      invariant value == Read(s, offset, j)
    {
      var o := offset + j;
      var v := Bit(s[o / 8], Mask(o % 8));
      assert v == GetBit(s, o) by { SameBit(s, o); }
      value := 2 * value + (if v then 1 else 0);
    }
  }

  lemma SameBit(s: seq<bv8>, o: nat)
    requires o < 8 * |s|
    ensures GetBit(s, o) == Bit(s[o / 8], Mask(o % 8))
  {
  }

  // ---------------------------------------------------------------- round trips

  lemma TopBits(value: nat, n: nat, bits: nat)
    requires n < bits
    ensures value / Pow2(bits - 1 - n) == 2 * (value / Pow2(bits - n)) + Digit(NatBit(value, bits - 1 - n))
  {
    var q := Pow2(bits - 1 - n);
    assert Pow2(bits - n) == 2 * q;
    HalfQuotient(value, q);
  }

  lemma HalfQuotient(x: nat, q: nat)
    requires q > 0
    ensures x / q == 2 * (x / (2 * q)) + x / q % 2
  {
    var a, b := x / q, x % q;
    DivParts(x, q);
    HalfQuotientOf(x, q, a, b);
  }

  lemma DivParts(x: nat, q: nat)
    requires q > 0
    ensures x == x / q * q + x % q && x % q < q
  {
  }

  lemma HalfQuotientOf(x: nat, q: nat, a: nat, b: nat)
    requires b < q && x == a * q + b
    ensures a == 2 * (x / (2 * q)) + a % 2
  {
    var h := a / 2;
    Double(h, q);
    if a % 2 == 0 {
      assert a * q == 2 * (h * q) by { Scale(a, 2 * h, q, h); }
      ModUnique(x, 2 * q, h, b);
    } else {
      assert a * q == 2 * (h * q) + q by { ScaleOdd(a, h, q); }
      ModUnique(x, 2 * q, h, q + b);
    }
  }

  lemma Scale(a: nat, b: nat, q: nat, h: nat)
    requires a == b == 2 * h
    ensures a * q == 2 * (h * q)
  {
  }

  lemma ScaleOdd(a: nat, h: nat, q: nat)
    requires a == 2 * h + 1
    ensures a * q == 2 * (h * q) + q
  {
    Scale(2 * h, 2 * h, q, h);
    assert a * q == (2 * h) * q + q;
  }

  /** Reading the written bits gives the low bits of the value. */
  lemma {:induction false} ReadWritten(s: seq<bv8>, off: nat, bits: nat, value: nat, n: nat)
    requires n <= bits && off + bits <= 8 * |s|
    requires forall k :: off <= k < off + bits ==> GetBit(s, k) == NatBit(value, bits - 1 - (k - off))
    ensures Read(s, off, n) == value / Pow2(bits - n) % Pow2(n)
    decreases n
  {
    hide GetBit, NatBit, Pow2, Read, BitOf;
    if n == 0 {
      ModOne(value / Pow2(bits));
      ReadNone(s, off);
    } else {
      ReadWritten(s, off, bits, value, n - 1);
      var x, y, d := value / Pow2(bits - n), value / Pow2(bits - n + 1), Digit(NatBit(value, bits - n));
      assert x == 2 * y + d by { TopBits(value, n - 1, bits); }
      assert GetBit(s, off + n - 1) == NatBit(value, bits - n);
      InString(s, off + n - 1);
      ReadNext(s, off, n);
      NextBits(x, y, d, n);
    }
  }

  lemma ReadNone(s: seq<bv8>, off: nat)
    ensures Read(s, off, 0) == 0
  {
  }

  lemma ReadNext(s: seq<bv8>, off: nat, n: nat)
    requires n > 0
    ensures Read(s, off, n) == 2 * Read(s, off, n - 1) + Digit(BitOf(s, off + n - 1))
  {
  }

  lemma InString(s: seq<bv8>, k: nat)
    requires k < 8 * |s|
    ensures BitOf(s, k) == GetBit(s, k)
  {
  }

  lemma NextBits(x: nat, y: nat, d: nat, n: nat)
    requires d < 2 && x == 2 * y + d && n > 0
    ensures x % Pow2(n) == 2 * (y % Pow2(n - 1)) + d
  {
    hide Pow2;
    HalfMod(x, n);
    LowAndRest(d, y, x);
  }

  lemma ModOne(x: nat)
    ensures x % Pow2(0) == 0
  {
  }

  lemma WholeQuotient(value: nat, bits: nat)
    ensures value / Pow2(bits - bits) == value
  {
  }

  /** Writing then reading a field gives the value back when it fits, and its low bits otherwise. */
  lemma WriteThenRead(s: seq<bv8>, off: nat, bits: nat, value: nat)
    requires off + bits <= 8 * |s|
    requires forall k :: off <= k < off + bits ==> GetBit(s, k) == NatBit(value, bits - 1 - (k - off))
    ensures Read(s, off, bits) == value % Pow2(bits)
  {
    hide GetBit, NatBit, Pow2;
    ReadWritten(s, off, bits, value, bits);
    WholeQuotient(value, bits);
  }

  /** The bits of what was read are the bits of the field. */
  lemma {:induction false} BitsOfRead(s: seq<bv8>, off: nat, bits: nat, k: nat)
    requires off <= k < off + bits
    ensures NatBit(Read(s, off, bits), bits - 1 - (k - off)) == BitOf(s, k)
    decreases bits
  {
    hide BitOf;
    var v, d := Read(s, off, bits - 1), Digit(BitOf(s, off + bits - 1));
    if k == off + bits - 1 {
      assert Pow2(0) == 1;
    } else {
      BitsOfRead(s, off, bits - 1, k);
      var i := bits - 1 - (k - off);
      DropLast(v, d, i);
    }
  }

  lemma DropLast(v: nat, d: nat, i: nat)
    requires d < 2 && i > 0
    ensures (2 * v + d) / Pow2(i) == v / Pow2(i - 1)
  {
    hide Pow2;
    var q, p := Pow2(i - 1), Pow2(i);
    PowStep(i);
    DivParts(v, q);
    var a, b := v / q, v % q;
    DropLastOf(v, d, q, a, b);
    assert p == 2 * q;
  }

  lemma PowStep(i: nat)
    requires i > 0
    ensures Pow2(i) == 2 * Pow2(i - 1)
  {
  }

  lemma DropLastOf(v: nat, d: nat, q: nat, a: nat, b: nat)
    requires d < 2 && b < q && v == a * q + b
    ensures (2 * v + d) / (2 * q) == a
  {
    Double(a, q);
    ModUnique(2 * v + d, 2 * q, a, 2 * b + d);
  }

  lemma Double(a: nat, q: nat)
    ensures 2 * (a * q) == a * (2 * q)
  {
  }

  /** Reading then writing a field changes nothing: every bit is written as it was. */
  lemma ReadThenWrite(s: seq<bv8>, off: nat, bits: nat, k: nat)
    requires off + bits <= 8 * |s| && off <= k < off + bits
    ensures NatBit(Read(s, off, bits), bits - 1 - (k - off)) == GetBit(s, k)
  {
    BitsOfRead(s, off, bits, k);
  }

  predicate SameBitAt(s: seq<bv8>, t: seq<bv8>, off: nat, toff: nat, j: nat) {
    BitOf(s, off + j) == BitOf(t, toff + j)
  }

  /** Two strings whose bits agree have the same fields. */
  lemma {:induction false} SameBitsSameRead(s: seq<bv8>, t: seq<bv8>, off: nat, toff: nat, bits: nat)
    requires forall j :: 0 <= j < bits ==> SameBitAt(s, t, off, toff, j)
    ensures Read(s, off, bits) == Read(t, toff, bits)
    decreases bits
  {
    hide BitOf;
    if bits > 0 {
      SameBitsSameRead(s, t, off, toff, bits - 1);
      assert SameBitAt(s, t, off, toff, bits - 1);
    }
  }

  // ---------------------------------------------------------------- the window of GET

  const WINDOW := 9

  /** GET copies up to nine bytes into a zeroed buffer and reads there. */
  method GetWindow(s: seq<bv8>, offset: nat, bits: nat) returns (value: nat)
    requires bits <= 64
    ensures value == Read(s, offset, bits)
  {
    hide BitOf;
    var buf := new bv8[WINDOW](i => 0);
    var byte := offset / 8;
    var i := 0;
    while i < WINDOW && i + byte < |s|
      invariant 0 <= i <= WINDOW && (i > 0 ==> i + byte <= |s|)
      invariant forall k :: 0 <= k < i ==> buf[k] == s[k + byte]
      invariant forall k :: i <= k < WINDOW ==> buf[k] == 0
    {
      buf[i] := s[i + byte];
      i := i + 1;
    }
    forall j | 0 <= j < bits ensures SameBitAt(buf[..], s, offset % 8, offset, j) {
      WindowBit(s, buf[..], byte, offset % 8 + j);
    }
    value := GetUnsigned(buf[..], offset - 8 * byte, bits);
    SameBitsSameRead(buf[..], s, offset % 8, offset, bits);
  }

  lemma WindowBit(s: seq<bv8>, buf: seq<bv8>, byte: nat, k: nat)
    requires |buf| == WINDOW && k < 8 * WINDOW
    requires forall i :: 0 <= i < WINDOW ==> buf[i] == if i + byte < |s| then s[i + byte] else 0
    ensures BitOf(buf, k) == BitOf(s, 8 * byte + k)
  {
    hide Bit, Mask;
    assert (8 * byte + k) / 8 == byte + k / 8 && (8 * byte + k) % 8 == k % 8;
    assert buf[k / 8] == if k / 8 + byte < |s| then s[k / 8 + byte] else 0;
    ZeroMeans(Mask(k % 8));
  }
}
