/** BITPOS: the first bit of a value, in a buffer and in a range of a string. */
module Bitpos {
  import opened Wrappers
  import opened Bits
  import opened Words
  import opened BitopSpec
  import opened Bitfield
  import opened Popcount
  import opened Bitcount

  // ---------------------------------------------------------------- what is looked for

  predicate NoneIn(s: seq<bv8>, bit: bool, lo: nat, hi: int) {
    forall k :: lo <= k < hi ==> BitOf(s, k) != bit
  }

  predicate FirstAt(s: seq<bv8>, bit: bool, lo: nat, pos: int) {
    lo <= pos && BitOf(s, pos) == bit && NoneIn(s, bit, lo, pos)
  }

  /** What the search in a whole buffer answers: the first such bit; without one, -1 for a set bit and
      the position after the last for a clear one. */
  predicate Answers(s: seq<bv8>, bit: bool, pos: int) {
    if NoneIn(s, bit, 0, 8 * |s|) then pos == (if bit then -1 else 8 * |s|)
    else FirstAt(s, bit, 0, pos) && pos < 8 * |s|
  }

  // ---------------------------------------------------------------- bytes without the bit

  function Skipped(bit: bool): bv8 {
    if bit then 0 else 0xFF
  }

  lemma FullBits(t: nat)
    requires t < 8
    ensures Bit(0xFF, Mask(t)) && !Bit(0, Mask(t))
  {
  }

  lemma BitInByte(s: seq<bv8>, i: nat, t: nat)
    requires i < |s| && t < 8
    ensures BitOf(s, 8 * i + t) == Bit(s[i], Mask(t))
  {
    hide Bit, Mask;
    assert (8 * i + t) / 8 == i && (8 * i + t) % 8 == t;
  }

  /** A byte is all zeros, or all ones, exactly when it has no bit of the other kind. */
  lemma SkippedByte(s: seq<bv8>, bit: bool, i: nat)
    requires i < |s|
    ensures s[i] == Skipped(bit) <==> NoneIn(s, bit, 8 * i, 8 * i + 8)
  {
    hide Bit, Mask, BitOf;
    if s[i] == Skipped(bit) {
      forall k | 8 * i <= k < 8 * i + 8 ensures BitOf(s, k) != bit {
        BitInByte(s, i, k - 8 * i);
        FullBits(k - 8 * i);
      }
    }
    if NoneIn(s, bit, 8 * i, 8 * i + 8) {
      forall t | 0 <= t < 8 ensures Bit(s[i], Mask(t)) == Bit(Skipped(bit), Mask(t)) {
        BitInByte(s, i, t);
        FullBits(t);
      }
      SameByMasks(s[i], Skipped(bit));
    }
  }

  lemma SameByMasks(a: bv8, b: bv8)
    requires forall t :: 0 <= t < 8 ==> Bit(a, Mask(t)) == Bit(b, Mask(t))
    ensures a == b
  {
    hide Bit;
    assert Bit(a, Mask(0)) == Bit(b, Mask(0)) && Bit(a, Mask(1)) == Bit(b, Mask(1));
    assert Bit(a, Mask(2)) == Bit(b, Mask(2)) && Bit(a, Mask(3)) == Bit(b, Mask(3));
    assert Bit(a, Mask(4)) == Bit(b, Mask(4)) && Bit(a, Mask(5)) == Bit(b, Mask(5));
    assert Bit(a, Mask(6)) == Bit(b, Mask(6)) && Bit(a, Mask(7)) == Bit(b, Mask(7));
    EightMasks(a, b);
  }

  lemma EightMasks(a: bv8, b: bv8)
    requires Bit(a, 128) == Bit(b, 128) && Bit(a, 64) == Bit(b, 64) && Bit(a, 32) == Bit(b, 32)
    requires Bit(a, 16) == Bit(b, 16)
    requires Bit(a, 8) == Bit(b, 8) && Bit(a, 4) == Bit(b, 4) && Bit(a, 2) == Bit(b, 2) && Bit(a, 1) == Bit(b, 1)
    ensures a == b
  {
    SameEightBits(a, b);
  }

  lemma NoneJoins(s: seq<bv8>, bit: bool, a: nat, b: nat, c: nat)
    requires a <= b <= c && NoneIn(s, bit, a, b) && NoneIn(s, bit, b, c)
    ensures NoneIn(s, bit, a, c)
  {
    hide BitOf;
  }

  // ---------------------------------------------------------------- the search in a buffer

  /** Eight more bits of a number read from a string, when they are a whole byte. */
  lemma ReadByte(s: seq<bv8>, off: nat, n: nat, v: nat)
    requires (off + n) % 8 == 0 && v == if (off + n) / 8 < |s| then ByteValue(s[(off + n) / 8]) else 0
    ensures Read(s, off, n + 8) == 256 * Read(s, off, n) + v
  {
    hide Bit, Read, BitOf, ByteValue, Digit;
    var i, k := (off + n) / 8, off + n;
    assert k == 8 * i;
    ByteBits(s, i);
    Horner(Read(s, off, n), Read(s, off, n + 1), Read(s, off, n + 2), Read(s, off, n + 3), Read(s, off, n + 4),
           Read(s, off, n + 5), Read(s, off, n + 6), Read(s, off, n + 7), Read(s, off, n + 8),
           Digit(BitOf(s, k)), Digit(BitOf(s, k + 1)), Digit(BitOf(s, k + 2)), Digit(BitOf(s, k + 3)),
           Digit(BitOf(s, k + 4)), Digit(BitOf(s, k + 5)), Digit(BitOf(s, k + 6)), Digit(BitOf(s, k + 7)));
    ReadNext(s, off, n + 1);
    ReadNext(s, off, n + 2);
    ReadNext(s, off, n + 3);
    ReadNext(s, off, n + 4);
    ReadNext(s, off, n + 5);
    ReadNext(s, off, n + 6);
    ReadNext(s, off, n + 7);
    ReadNext(s, off, n + 8);
  }

  lemma Horner(r0: int, r1: int, r2: int, r3: int, r4: int, r5: int, r6: int, r7: int, r8: int,
               d0: int, d1: int, d2: int, d3: int, d4: int, d5: int, d6: int, d7: int)
    ensures r1 == 2 * r0 + d0 && r2 == 2 * r1 + d1 && r3 == 2 * r2 + d2 && r4 == 2 * r3 + d3
            && r5 == 2 * r4 + d4 && r6 == 2 * r5 + d5 && r7 == 2 * r6 + d6 && r8 == 2 * r7 + d7 ==>
            r8 == 256 * r0 + (128 * d0 + 64 * d1 + 32 * d2 + 16 * d3 + 8 * d4 + 4 * d5 + 2 * d6 + d7)
  {
  }

  lemma ByteBits(s: seq<bv8>, i: nat)
    ensures var v := if i < |s| then ByteValue(s[i]) else 0;
            v == 128 * Digit(BitOf(s, 8 * i)) + 64 * Digit(BitOf(s, 8 * i + 1)) + 32 * Digit(BitOf(s, 8 * i + 2))
              + 16 * Digit(BitOf(s, 8 * i + 3))
                 + 8 * Digit(BitOf(s, 8 * i + 4)) + 4 * Digit(BitOf(s, 8 * i + 5)) + 2 * Digit(BitOf(s, 8 * i + 6))
                   + Digit(BitOf(s, 8 * i + 7))
  {
    hide Bit;
    if i < |s| {
      BitsInByte(s, i);
    }
  }

  lemma BitsInByte(s: seq<bv8>, i: nat)
    requires i < |s|
    ensures BitOf(s, 8 * i) == Bit(s[i], 128) && BitOf(s, 8 * i + 1) == Bit(s[i], 64)
    ensures BitOf(s, 8 * i + 2) == Bit(s[i], 32) && BitOf(s, 8 * i + 3) == Bit(s[i], 16)
    ensures BitOf(s, 8 * i + 4) == Bit(s[i], 8) && BitOf(s, 8 * i + 5) == Bit(s[i], 4)
    ensures BitOf(s, 8 * i + 6) == Bit(s[i], 2) && BitOf(s, 8 * i + 7) == Bit(s[i], 1)
  {
    hide Bit, BitOf;
    BitInByte(s, i, 0);
    BitInByte(s, i, 1);
    BitInByte(s, i, 2);
    BitInByte(s, i, 3);
    BitInByte(s, i, 4);
    BitInByte(s, i, 5);
    BitInByte(s, i, 6);
    BitInByte(s, i, 7);
  }

  /** A number is zero exactly when all its bits are. */
  lemma {:induction false} ReadZero(s: seq<bv8>, off: nat, n: nat)
    ensures Read(s, off, n) == 0 <==> NoneIn(s, true, off, off + n)
    decreases n
  {
    hide BitOf;
    if n > 0 {
      ReadZero(s, off, n - 1);
      if Read(s, off, n) == 0 {
        assert NoneIn(s, true, off, off + n);
      }
    }
  }

  /** `redisBitpos` for a buffer at any address. The end of the last loop is never reached. */
  method RedisBitpos(s: seq<bv8>, address: nat, bit: bool) returns (pos: int)
    ensures Answers(s, bit, pos)
  {
    hide BitOf, Read, ByteValue, NatBit, Pow2;
    var c: nat := 0;
    var found := false;
    assert NoneIn(s, bit, 0, 0);
    while (address + c) % 8 != 0 && c < |s| && !found
      invariant c <= |s| && NoneIn(s, bit, 0, 8 * c)
      invariant found ==> c < |s| && s[c] != Skipped(bit)
      decreases |s| - c, !found
    {
      if s[c] != Skipped(bit) {
        found := true;
      } else {
        SkippedByte(s, bit, c);
        NoneJoins(s, bit, 0, 8 * c, 8 * c + 8);
        c := c + 1;
      }
    }
    if !found {
      var differs := false;
      while |s| - c >= 8 && !differs
        invariant c <= |s| && NoneIn(s, bit, 0, 8 * c)
        invariant differs ==> |s| - c >= 8 && exists x :: c <= x < c + 8 && s[x] != Skipped(bit)
        decreases |s| - c, !differs
      {
        if exists x :: c <= x < c + 8 && s[x] != Skipped(bit) {
          differs := true;
        } else {
          SkippedWord(s, bit, c);
          NoneJoins(s, bit, 0, 8 * c, 8 * c + 64);
          c := c + 8;
        }
      }
    }
    var word: nat := 0;
    assert Read(s, 8 * c, 0) == 0 by { ReadNone(s, 8 * c); }
    for j := 0 to 8
      invariant word == Read(s, 8 * c, 8 * j)
    {
      var b := if c + j < |s| then ByteValue(s[c + j]) else 0;
      ReadByte(s, 8 * c, 8 * j, b);
      word := 256 * word + b;
    }
    ReadZero(s, 8 * c, 64);
    SomewhereInWord(s, bit, c);
    if bit && word == 0 {
      NothingLeft(s, c);
      return -1;
    }
    var i := 0;
    while i < 64
      invariant 0 <= i <= 64 && NoneIn(s, bit, 8 * c, 8 * c + i)
    {
      BitsOfRead(s, 8 * c, 64, 8 * c + i);
      var one := BitValue(word, 63 - i);
      if one == bit {
        NoneJoins(s, bit, 0, 8 * c, 8 * c + i);
        Found(s, bit, 8 * c + i);
        return 8 * c + i;
      }
      i := i + 1;
    }
    assert false;
  }

  lemma SkippedWord(s: seq<bv8>, bit: bool, c: nat)
    requires c + 8 <= |s| && forall x :: c <= x < c + 8 ==> s[x] == Skipped(bit)
    ensures NoneIn(s, bit, 8 * c, 8 * c + 64)
  {
    hide BitOf;
    forall k | 8 * c <= k < 8 * c + 64 ensures BitOf(s, k) != bit {
      assert s[k / 8] == Skipped(bit);
      SkippedByte(s, bit, k / 8);
    }
  }

  /** Where the scan of the last word starts: either the word has the bit, or the string ends in it. */
  predicate Stopped(s: seq<bv8>, bit: bool, c: nat) {
    |s| - c < 8 || (exists x :: c <= x < c + 8 && x < |s| && s[x] != Skipped(bit))
  }

  lemma SomewhereInWord(s: seq<bv8>, bit: bool, c: nat)
    requires c <= |s| && Stopped(s, bit, c)
    ensures !bit ==> !NoneIn(s, bit, 8 * c, 8 * c + 64)
    ensures NoneIn(s, bit, 8 * c, 8 * c + 64) ==> |s| - c < 8
  {
    hide Bit, Mask, BitOf;
    if x :| c <= x < c + 8 && x < |s| && s[x] != Skipped(bit) {
      SkippedByte(s, bit, x);
      var k :| 8 * x <= k < 8 * x + 8 && BitOf(s, k) == bit;
      assert 8 * c <= k < 8 * c + 64;
    } else {
      PaddedBit(s);
      assert 8 * c <= 8 * |s| < 8 * c + 64;
    }
  }

  lemma PaddedBit(s: seq<bv8>)
    ensures !BitOf(s, 8 * |s|)
  {
  }

  lemma NothingLeft(s: seq<bv8>, c: nat)
    requires c <= |s| && NoneIn(s, true, 0, 8 * c) && NoneIn(s, true, 8 * c, 8 * c + 64) && |s| - c < 8
    ensures Answers(s, true, -1)
  {
    hide BitOf;
  }

  lemma Found(s: seq<bv8>, bit: bool, k: nat)
    requires NoneIn(s, bit, 0, k) && BitOf(s, k) == bit
    ensures Answers(s, bit, k)
  {
    assert k > 8 * |s| ==> BitOf(s, 8 * |s|) != bit;
  }

  // ---------------------------------------------------------------- masked bytes

  /** The masked bits no longer match. */
  function Masked(b: bv8, bit: bool, m: bv8): bv8 {
    if bit then And8(b, Not8(m)) else Or8(b, m)
  }

  lemma MaskedBits(b: bv8, bit: bool, m: bv8, t: nat)
    requires t < 8
    ensures Bit(Masked(b, bit, m), Mask(t)) == bit <==> Bit(b, Mask(t)) == bit && !Bit(m, Mask(t))
  {
    hide Bit, And8, Or8, Not8, Mask;
    AndMeans(b, Not8(m), Mask(t));
    NotMeans(m, Mask(t));
    OrMeans(b, m, Mask(t));
  }

  /** What a search in a part of the string finds: the first match, or none. */
  ghost predicate Part(s: seq<bv8>, bit: bool, lo: nat, hi: nat, pos: int) {
    if NoneIn(s, bit, lo, hi) then pos == -1 else FirstAt(s, bit, lo, pos) && pos < hi
  }

  /** A search in one byte whose bits outside `from` up to `to` are masked. */
  lemma BytePart(s: seq<bv8>, bit: bool, i: nat, m: bv8, from: nat, to: nat, pos: int)
    requires i < |s| && from <= to <= 8 && Answers([Masked(s[i], bit, m)], bit, pos)
    requires forall t :: 0 <= t < 8 ==> (Bit(m, Mask(t)) <==> !(from <= t < to))
    ensures pos == -1 || pos == 8 ==> Part(s, bit, 8 * i + from, 8 * i + to, -1)
    ensures pos == -1 || 0 <= pos <= 8
    ensures pos != -1 && pos != 8 ==> Part(s, bit, 8 * i + from, 8 * i + to, 8 * i + pos) && from <= pos < to
    ensures pos == -1 ==> bit
    ensures pos == 8 ==> !bit
  {
    hide Bit, Mask, BitOf, Masked;
    var one := [Masked(s[i], bit, m)];
    forall t | 0 <= t < 8 ensures BitOf(one, t) == bit <==> BitOf(s, 8 * i + t) == bit && from <= t < to {
      BitInByte(one, 0, t);
      BitInByte(s, i, t);
      MaskedBits(s[i], bit, m, t);
    }
    if NoneIn(one, bit, 0, 8) {
      forall k | 8 * i + from <= k < 8 * i + to ensures BitOf(s, k) != bit {
        assert BitOf(one, k - 8 * i) != bit;
        assert k == 8 * i + (k - 8 * i);
      }
    } else {
      assert BitOf(one, pos) == bit;
      assert BitOf(s, 8 * i + pos) == bit;
      forall k | 8 * i + from <= k < 8 * i + pos ensures BitOf(s, k) != bit {
        assert BitOf(one, k - 8 * i) != bit;
        assert k == 8 * i + (k - 8 * i);
      }
      assert !NoneIn(s, bit, 8 * i + from, 8 * i + to);
    }
  }

  lemma SliceBit(s: seq<bv8>, a: nat, b: nat, k: nat)
    requires a <= b <= |s| && k < 8 * (b - a)
    ensures BitOf(s[a..b], k) == BitOf(s, 8 * a + k)
  {
    hide Bit, Mask;
    assert (8 * a + k) / 8 == a + k / 8 && (8 * a + k) % 8 == k % 8;
    assert s[a..b][k / 8] == s[a + k / 8];
  }

  /** A search in whole bytes. */
  lemma BytesPart(s: seq<bv8>, bit: bool, a: nat, b: nat, pos: int)
    requires a <= b <= |s| && Answers(s[a..b], bit, pos)
    ensures pos == -1 || pos == 8 * (b - a) ==> Part(s, bit, 8 * a, 8 * b, -1)
    ensures pos == -1 || 0 <= pos <= 8 * (b - a)
    ensures pos != -1 && pos != 8 * (b - a) ==> Part(s, bit, 8 * a, 8 * b, 8 * a + pos)
    ensures pos == -1 ==> bit
    ensures pos == 8 * (b - a) ==> !bit
  {
    hide BitOf;
    var part := s[a..b];
    forall k | 8 * a <= k < 8 * b ensures BitOf(part, k - 8 * a) == BitOf(s, k) {
      SliceBit(s, a, b, k - 8 * a);
    }
    if NoneIn(part, bit, 0, 8 * (b - a)) {
      forall k | 8 * a <= k < 8 * b ensures BitOf(s, k) != bit {
        assert BitOf(part, k - 8 * a) != bit;
      }
    } else {
      assert BitOf(s, 8 * a + pos) == bit;
      forall k | 8 * a <= k < 8 * a + pos ensures BitOf(s, k) != bit {
        assert BitOf(part, k - 8 * a) != bit;
      }
      assert !NoneIn(s, bit, 8 * a, 8 * b);
    }
  }

  /** Parts that follow each other. */
  lemma PartsJoin(s: seq<bv8>, bit: bool, a: nat, b: nat, c: nat, pos: int)
    requires a <= b <= c && NoneIn(s, bit, a, b) && Part(s, bit, b, c, pos)
    ensures Part(s, bit, a, c, pos)
  {
    hide BitOf;
    if !NoneIn(s, bit, b, c) { assert !NoneIn(s, bit, a, c); }
  }

  lemma PartGrows(s: seq<bv8>, bit: bool, a: nat, b: nat, c: nat, pos: int)
    requires a <= b <= c && Part(s, bit, a, b, pos) && pos != -1
    ensures Part(s, bit, a, c, pos)
  {
    hide BitOf;
  }

  // ---------------------------------------------------------------- the command

  datatype PosRange = All | From(start: int) | Between(start: int, end: int, bits: bool)

  /** The same range as for BITCOUNT; without an end it reaches to the last byte. */
  function AsRange(r: PosRange, length: nat): Bitcount.Range {
    match r
    case All => Whole
    case From(start) => Given(start, length - 1, false)
    case Between(start, end, bits) => Given(start, end, bits)
  }

  /** What BITPOS answers. Only without an explicit end is the string continued by zeros. */
  ghost predicate Position(s: seq<bv8>, bit: bool, lo: nat, hi: int, endGiven: bool, pos: int) {
    if hi <= lo then pos == -1
    else if !bit && !endGiven && NoneIn(s, bit, lo, hi) then pos == hi
    else Part(s, bit, lo, hi, pos)
  }

  method BitPos(key: Option<seq<bv8>>, bit: bool, r: PosRange, address: nat) returns (pos: int)
    ensures key.None? ==> pos == if bit then -1 else 0
    ensures key.Some? ==>
              var s := key.value;
              var range := AsRange(r, |s|);
              Position(s, bit, FirstBit(s, range), EndBit(s, range), r.Between?, pos)
  {
    hide Part, FirstBit, EndBit, AsRange, NoneIn;
    if key.None? {
      return if bit then -1 else 0;
    }
    var s := key.value;
    var start, end, first, last := ByteRange(s, AsRange(r, |s|));
    if !r.Between? && start <= end { NoEnd(s, r, end, last); }
    if start > end {
      return -1;
    }
    ghost var lo, hi := 8 * start + first, 8 * end + 8 - last;
    var bytes: int;
    pos, start, bytes := Search(s, bit, start, end, first, last, address);
    Padded(s, bit, lo, hi);
    if r.Between? && !bit && pos == 8 * bytes {
      return -1;
    }
    if pos != -1 { pos := pos + 8 * start; }
  }

  /** Without an end the range reaches to the end of the string. */
  lemma NoEnd(s: seq<bv8>, r: PosRange, end: int, last: nat)
    requires !r.Between? && 0 <= end < |s| && EndBit(s, AsRange(r, |s|)) == 8 * end + 8 - last && last < 8
    ensures end == |s| - 1 && last == 0
  {
  }

  lemma Padded(s: seq<bv8>, bit: bool, lo: nat, hi: nat)
    ensures NoneIn(s, bit, lo, hi) <==> Part(s, bit, lo, hi, -1)
    ensures forall pos :: Part(s, bit, lo, hi, pos) && pos != -1 ==> !NoneIn(s, bit, lo, hi)
  {
  }

  /** The three searches: in the first byte, in the bytes between, and in the last byte. The result is
      relative to the byte where the search that answered began, with the bytes left from there. */
  method Search(s: seq<bv8>, bit: bool, from: nat, end: nat, first: nat, last: nat, address: nat)
    returns (pos: int, start: nat, bytes: nat)
    requires from <= end < |s| && first < 8 && last < 8 && 8 * from + first < 8 * end + 8 - last
    ensures var lo, hi := 8 * from + first, 8 * end + 8 - last;
            && (pos == -1 ==> bit && Part(s, bit, lo, hi, -1))
            && (pos == 8 * bytes ==> !bit && Part(s, bit, lo, hi, -1) && start + bytes == end + 1)
            && (pos != -1 && pos != 8 * bytes ==> 0 <= pos && Part(s, bit, lo, hi, 8 * start + pos))
  {
    hide NoneIn, FirstAt, Part, Masked, Answers, TopMask, LowMask;
    start, bytes := from, end - from + 1;
    var lo, hi := 8 * from + first, 8 * end + 8 - last;
    if first != 0 {
      pos := FirstByte(s, bit, from, first, if bytes == 1 then last else 0, address);
      if bytes == 1 {
        return;
      }
      if pos != -1 && pos != 8 {
        PartGrows(s, bit, lo, 8 * from + 8, hi, 8 * from + pos);
        return;
      }
      Padded(s, bit, lo, 8 * from + 8);
      start := start + 1;
      bytes := bytes - 1;
    } else {
      NoneAtAll(s, bit, lo);
    }
    assert NoneIn(s, bit, lo, 8 * start);
    var cur := bytes - (if last != 0 then 1 else 0);
    if cur > 0 {
      pos := RedisBitpos(s[start..start + cur], address + start, bit);
      BytesPart(s, bit, start, start + cur, pos);
      var found := pos != -1 && pos != 8 * cur;
      PartsJoin(s, bit, lo, 8 * start, 8 * (start + cur), if found then 8 * start + pos else -1);
      if bytes == cur {
        return;
      }
      if found {
        PartGrows(s, bit, lo, 8 * (start + cur), hi, 8 * start + pos);
        return;
      }
      Padded(s, bit, lo, 8 * (start + cur));
      start := start + cur;
      bytes := bytes - cur;
    }
    assert start == end && bytes == 1;
    pos := LastByte(s, bit, end, last, address);
    PartsJoin(s, bit, lo, 8 * start, hi, if pos != -1 && pos != 8 then 8 * end + pos else -1);
  }

  lemma NoneAtAll(s: seq<bv8>, bit: bool, lo: nat)
    ensures NoneIn(s, bit, lo, lo)
  {
  }

  lemma EdgeMask(r: nat, q: nat, t: nat)
    requires r < 8 && q < 8 && t < 8
    ensures Bit(Or8(TopMask(r), LowMask(q)), Mask(t)) <==> !(r <= t < 8 - q)
  {
    hide Bit, Or8, TopMask, LowMask, Mask;
    OrMeans(TopMask(r), LowMask(q), Mask(t));
    TopMaskBits(r, t);
    LowMaskBits(q, t);
  }

  lemma MaskTwice(b: bv8, bit: bool, m: bv8, m': bv8)
    ensures Masked(Masked(b, bit, m), bit, m') == Masked(b, bit, Or8(m, m'))
    ensures Or8(m, 0) == m && Or8(0, m) == m
  {
    assert (b & !m) & !m' == b & !(m | m');
    assert (b | m) | m' == b | (m | m');
  }

  method FirstByte(s: seq<bv8>, bit: bool, i: nat, first: nat, last: nat, address: nat) returns (pos: int)
    requires i < |s| && first < 8 - last && last < 8
    ensures pos == -1 || 0 <= pos <= 8
    ensures pos == -1 ==> bit
    ensures pos == 8 ==> !bit
    ensures pos == -1 || pos == 8 ==> Part(s, bit, 8 * i + first, 8 * i + 8 - last, -1)
    ensures pos != -1 && pos != 8 ==> Part(s, bit, 8 * i + first, 8 * i + 8 - last, 8 * i + pos)
  {
    hide Part, Masked, Answers, TopMask, LowMask, Bit, Or8, Mask;
    var b := Masked(s[i], bit, TopMask(first));
    MaskTwice(s[i], bit, TopMask(first), LowMask(last));
    if last != 0 {
      b := Masked(b, bit, LowMask(last));
    } else {
      NoEdges();
    }
    pos := RedisBitpos([b], address, bit);
    forall t | 0 <= t < 8 ensures Bit(Or8(TopMask(first), LowMask(last)), Mask(t)) <==> !(first <= t < 8 - last) {
      EdgeMask(first, last, t);
    }
    BytePart(s, bit, i, Or8(TopMask(first), LowMask(last)), first, 8 - last, pos);
  }

  method LastByte(s: seq<bv8>, bit: bool, i: nat, last: nat, address: nat) returns (pos: int)
    requires i < |s| && last < 8
    ensures pos == -1 || 0 <= pos <= 8
    ensures pos == -1 ==> bit
    ensures pos == 8 ==> !bit
    ensures pos == -1 || pos == 8 ==> Part(s, bit, 8 * i, 8 * i + 8 - last, -1)
    ensures pos != -1 && pos != 8 ==> Part(s, bit, 8 * i, 8 * i + 8 - last, 8 * i + pos)
  {
    hide Part, Masked, Answers, LowMask, Bit, Mask;
    pos := RedisBitpos([Masked(s[i], bit, LowMask(last))], address, bit);
    forall t | 0 <= t < 8 ensures Bit(LowMask(last), Mask(t)) <==> !(0 <= t < 8 - last) {
      LowMaskBits(last, t);
    }
    BytePart(s, bit, i, LowMask(last), 0, 8 - last, pos);
  }
}
