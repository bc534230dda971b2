/** BITCOUNT: negative, clamped and bit-granular ranges. */
module Bitcount {
  import opened Words
  import opened BitopSpec
  import opened Bitfield
  import opened Popcount

  // ---------------------------------------------------------------- counting bits one by one

  /** The set bits at positions `lo` up to, not including, `hi`. */
  function CountIn(s: seq<bv8>, lo: nat, hi: nat): nat
    decreases hi
  {
    if hi <= lo then 0 else CountIn(s, lo, hi - 1) + Digit(BitOf(s, hi - 1))
  }

  lemma {:induction false} CountSplits(s: seq<bv8>, a: nat, b: nat, c: nat)
    requires a <= b <= c
    ensures CountIn(s, a, c) == CountIn(s, a, b) + CountIn(s, b, c)
    decreases c
  {
    hide BitOf;
    if b < c { CountSplits(s, a, b, c - 1); }
  }

  /** The set bits among the first `r` of a byte. */
  function PopUpTo(b: bv8, r: nat): nat
    requires r <= 8
  {
    if r == 0 then 0 else PopUpTo(b, r - 1) + Digit(Bit(b, Mask(r - 1)))
  }

  lemma PopNext(b: bv8, r: nat)
    requires 0 < r <= 8
    ensures PopUpTo(b, r) == PopUpTo(b, r - 1) + Digit(Bit(b, Mask(r - 1)))
  {
  }

  lemma PopAll(b: bv8)
    ensures PopUpTo(b, 8) == PopByte(b)
  {
    hide Bit;
    PopNext(b, 1);
    PopNext(b, 2);
    PopNext(b, 3);
    PopNext(b, 4);
    PopNext(b, 5);
    PopNext(b, 6);
    PopNext(b, 7);
    PopNext(b, 8);
  }

  lemma {:induction false} CountInByte(s: seq<bv8>, i: nat, r: nat)
    requires i < |s| && r <= 8
    ensures CountIn(s, 8 * i, 8 * i + r) == PopUpTo(s[i], r)
    decreases r
  {
    hide Bit;
    if r > 0 {
      CountInByte(s, i, r - 1);
      var k := 8 * i + (r - 1);
      assert k / 8 == i && k % 8 == r - 1;
    }
  }

  /** Counting bytes is counting their bits. */
  lemma {:induction false} CountBytes(s: seq<bv8>, a: nat, b: nat)
    requires a <= b <= |s|
    ensures CountIn(s, 8 * a, 8 * b) == SetBits(s[a..b])
    decreases b
  {
    hide BitOf, PopByte, PopUpTo;
    if a < b {
      CountBytes(s, a, b - 1);
      CountSplits(s, 8 * a, 8 * (b - 1), 8 * b);
      CountInByte(s, b - 1, 8);
      PopAll(s[b - 1]);
      assert s[a..b][..b - a - 1] == s[a..b - 1];
    }
  }

  // ---------------------------------------------------------------- the edges

  /** The first `r` bits of a byte: `~((1 << (8 - r)) - 1) & 0xFF`. */
  function TopMask(r: nat): bv8
    requires r < 8
  {
    if r == 0 then 0 else if r == 1 then 0x80 else if r == 2 then 0xC0 else if r == 3 then 0xE0
    else if r == 4 then 0xF0 else if r == 5 then 0xF8 else if r == 6 then 0xFC else 0xFE
  }

  /** The last `q` bits of a byte: `(1 << q) - 1`. */
  function LowMask(q: nat): bv8
    requires q < 8
  {
    if q == 0 then 0 else if q == 1 then 0x01 else if q == 2 then 0x03 else if q == 3 then 0x07
    else if q == 4 then 0x0F else if q == 5 then 0x1F else if q == 6 then 0x3F else 0x7F
  }

  lemma TopMaskBits(r: nat, t: nat)
    requires r < 8 && t < 8
    ensures Bit(TopMask(r), Mask(t)) <==> t < r
  {
  }

  lemma LowMaskBits(q: nat, t: nat)
    requires q < 8 && t < 8
    ensures Bit(LowMask(q), Mask(t)) <==> t >= 8 - q
  {
  }

  lemma {:induction false} PopTop(b: bv8, r: nat, t: nat)
    requires r < 8 && t <= 8
    ensures PopUpTo(And8(b, TopMask(r)), t) == PopUpTo(b, if t <= r then t else r)
    decreases t
  {
    hide Bit, And8, TopMask, Mask;
    if t > 0 {
      PopTop(b, r, t - 1);
      AndMeans(b, TopMask(r), Mask(t - 1));
      TopMaskBits(r, t - 1);
    }
  }

  lemma {:induction false} PopLow(b: bv8, q: nat, t: nat)
    requires q < 8 && t <= 8
    ensures PopUpTo(And8(b, LowMask(q)), t) == PopUpTo(b, if t <= 8 - q then 8 - q else t) - PopUpTo(b, 8 - q)
    decreases t
  {
    hide Bit, And8, LowMask, Mask;
    if t > 0 {
      PopLow(b, q, t - 1);
      AndMeans(b, LowMask(q), Mask(t - 1));
      LowMaskBits(q, t - 1);
    }
  }

  // ---------------------------------------------------------------- ranges

  /** A range as given: both ends, and whether they count bits. */
  datatype Range = Whole | Given(start: int, end: int, bits: bool)

  function Clamp(x: int, total: nat): int {
    var y := if x < 0 then total + x else x;
    if y < 0 then 0 else y
  }

  /** The first position that is meant. */
  function First(r: Range, total: nat): nat {
    if r.Whole? then 0 else Clamp(r.start, total)
  }

  /** The last position that is meant; -1 for the last position of an empty string. */
  function Last(r: Range, total: nat): int {
    if r.Whole? then total - 1
    else
      var e := Clamp(r.end, total);
      if e >= total then total - 1 else e
  }

  function Total(s: seq<bv8>, r: Range): nat {
    if r.Given? && r.bits then 8 * |s| else |s|
  }

  /** The bits of the range, as positions from `FirstBit` up to, not including, `EndBit`. */
  function FirstBit(s: seq<bv8>, r: Range): nat {
    var x := First(r, Total(s, r));
    if r.Given? && r.bits then x else 8 * x
  }

  function EndBit(s: seq<bv8>, r: Range): int {
    var x := Last(r, Total(s, r)) + 1;
    if r.Given? && r.bits then x else 8 * x
  }

  /** Two negative ends in the wrong order mean nothing, even where both would be clamped to zero. */
  predicate Backwards(r: Range) {
    r.Given? && r.start < 0 && r.end < 0 && r.start > r.end
  }

  /** BITCOUNT of a string, with any range. */
  method BitCount(s: seq<bv8>, r: Range, address: nat, usePopcnt: bool) returns (count: nat)
    ensures count == if Backwards(r) || EndBit(s, r) < 0 then 0 else CountIn(s, FirstBit(s, r), EndBit(s, r))
  {
    hide CountIn, SetBits, PopByte, And8, TopMask, LowMask, FirstBit, EndBit;
    if r.Given? && r.start < 0 && r.end < 0 && r.start > r.end {
      return 0;
    }
    var start, end, skipped, unused := ByteRange(s, r);
    ghost var lo, hi := FirstBit(s, r), EndBit(s, r);
    if start > end {
      EmptyCount(s, lo, hi);
      return 0;
    }
    var first, last := TopMask(skipped), LowMask(unused);
    count := RedisPopcount(s[start..end + 1], address + start, usePopcnt);
    CountBytes(s, start, end + 1);
    var edges := 0;
    if first != 0 || last != 0 {
      edges := RedisPopcount([And8(s[start], first), And8(s[end], last)], address, usePopcnt);
    }
    BitPlaces(start, end, skipped, unused);
    Edges(s, start, end, lo, hi, first, last, edges);
    count := count - edges;
  }

  lemma BitPlaces(start: nat, end: nat, skipped: nat, unused: nat)
    requires skipped < 8 && unused < 8
    ensures (8 * start + skipped) / 8 == start && (8 * start + skipped) % 8 == skipped
    ensures (8 * end + 8 - unused - 1) / 8 == end && 7 - (8 * end + 8 - unused - 1) % 8 == unused
  {
  }

  /** The range in bytes, with the bits to leave out at both ends. */
  method ByteRange(s: seq<bv8>, r: Range) returns (start: int, end: int, first: nat, last: nat)
    ensures var lo, hi := FirstBit(s, r), EndBit(s, r);
            && (start > end <==> hi <= lo)
            && (start <= end ==>
                  && 0 <= start && end < |s| && first < 8 && last < 8
                  && lo == 8 * start + first && hi == 8 * end + 8 - last && lo < hi)
  {
    start, end := 0, |s| - 1;
    first, last := 0, 0;
    if r.Given? {
      var total := if r.bits then 8 * |s| else |s|;
      start, end := Clamped(r.start, r.end, total);
      assert start == First(r, total) && end == Last(r, total);
      if r.bits && start <= end {
        BitEnds(start, end, |s|);
        first := start % 8;
        last := 7 - end % 8;
        start := start / 8;
        end := end / 8;
      }
    }
  }

  method Clamped(from: int, to: int, total: nat) returns (start: int, end: int)
    ensures start == Clamp(from, total) && end == (if Clamp(to, total) >= total then total - 1 else Clamp(to, total))
  {
    start, end := from, to;
    if start < 0 { start := total + start; }
    if end < 0 { end := total + end; }
    if start < 0 { start := 0; }
    if end < 0 { end := 0; }
    if end >= total { end := total - 1; }
  }

  lemma BitEnds(start: nat, end: nat, n: nat)
    requires start <= end < 8 * n
    ensures start / 8 <= end / 8 < n && start == 8 * (start / 8) + start % 8
    ensures end + 1 == 8 * (end / 8) + 8 - (7 - end % 8)
  {
  }

  lemma NoEdges()
    ensures TopMask(0) == 0 && LowMask(0) == 0
  {
  }

  lemma EmptyCount(s: seq<bv8>, lo: nat, hi: int)
    requires hi <= lo
    ensures hi >= 0 ==> CountIn(s, lo, hi) == 0
  {
  }

  lemma TwoBytes(a: bv8, b: bv8)
    ensures SetBits([a, b]) == PopByte(a) + PopByte(b)
  {
    hide PopByte;
    assert [a, b][..1] == [a] && [a][..0] == [];
    assert SetBits([a]) == PopByte(a);
  }

  /** What was counted too much at the two ends. */
  lemma Edges(s: seq<bv8>, start: nat, end: nat, lo: nat, hi: nat, first: bv8, last: bv8, edges: nat)
    requires start <= end < |s| && lo <= hi
    requires lo / 8 == start && first == TopMask(lo % 8)
    requires (hi - 1) / 8 == end && hi > 0 && last == LowMask(7 - (hi - 1) % 8)
    requires edges == if first != 0 || last != 0 then SetBits([And8(s[start], first), And8(s[end], last)]) else 0
    ensures CountIn(s, 8 * start, 8 * (end + 1)) == edges + CountIn(s, lo, hi)
  {
    hide CountIn, SetBits, PopByte, And8, TopMask, LowMask, PopUpTo;
    var r, q := lo % 8, 7 - (hi - 1) % 8;
    EdgeBits(s, start, r, end, q);
    CountSplits(s, 8 * start, lo, 8 * (end + 1));
    CountSplits(s, lo, hi, 8 * (end + 1));
    assert lo == 8 * start + r && hi == 8 * end + (8 - q);
    EdgePops(s[start], r, s[end], q);
    TwoBytes(And8(s[start], first), And8(s[end], last));
    NoMasks(s[start], s[end]);
  }

  lemma EdgeBits(s: seq<bv8>, start: nat, r: nat, end: nat, q: nat)
    requires start < |s| && end < |s| && r < 8 && q < 8
    ensures CountIn(s, 8 * start, 8 * start + r) == PopUpTo(s[start], r)
    ensures CountIn(s, 8 * end + (8 - q), 8 * (end + 1)) == PopUpTo(s[end], 8) - PopUpTo(s[end], 8 - q)
  {
    hide CountIn, PopUpTo;
    CountInByte(s, start, r);
    CountInByte(s, end, 8 - q);
    CountInByte(s, end, 8);
    CountSplits(s, 8 * end, 8 * end + (8 - q), 8 * (end + 1));
  }

  lemma EdgePops(a: bv8, r: nat, b: bv8, q: nat)
    requires r < 8 && q < 8
    ensures PopByte(And8(a, TopMask(r))) == PopUpTo(a, r)
    ensures PopByte(And8(b, LowMask(q))) == PopUpTo(b, 8) - PopUpTo(b, 8 - q)
  {
    hide PopByte, And8, TopMask, LowMask, PopUpTo;
    PopAll(And8(a, TopMask(r)));
    PopAll(And8(b, LowMask(q)));
    PopTop(a, r, 8);
    PopLow(b, q, 8);
  }

  lemma NoMasks(a: bv8, b: bv8)
    ensures PopByte(And8(a, 0)) == 0 && PopByte(And8(b, 0)) == 0
  {
    assert And8(a, 0) == 0 && And8(b, 0) == 0;
    ZeroMeans(128);
    ZeroMeans(64);
    ZeroMeans(32);
    ZeroMeans(16);
    ZeroMeans(8);
    ZeroMeans(4);
    ZeroMeans(2);
    ZeroMeans(1);
  }
}
