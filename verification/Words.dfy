/** Eight bytes read and written as one 64-bit word, least significant byte first. */
module Words {
  const WORD := 8

  // The operations, on words and on bytes.

  function And64(x: bv64, y: bv64): bv64 { x & y }

  function Or64(x: bv64, y: bv64): bv64 { x | y }

  function Xor64(x: bv64, y: bv64): bv64 { x ^ y }

  function Not64(x: bv64): bv64 { !x }

  function And8(x: bv8, y: bv8): bv8 { x & y }

  function Or8(x: bv8, y: bv8): bv8 { x | y }

  function Xor8(x: bv8, y: bv8): bv8 { x ^ y }

  function Not8(x: bv8): bv8 { !x }

  function Low(w: bv64): bv8 { (w & 0xFF) as bv8 }

  function Shr8(w: bv64): bv64 { w >> 8 }

  function Cons(b: bv8, w: bv64): bv64 { (b as bv64) | (w << 8) }

  /** The lower seven bytes. */
  function Trim(w: bv64): bv64 { w & 0x00FF_FFFF_FFFF_FFFF }

  /** Byte `t` of a word. */
  function ByteOf(w: bv64, t: nat): bv8
    decreases t
  {
    if t == 0 then Low(w) else ByteOf(Shr8(w), t - 1)
  }

  /** The word made of `n` bytes from `off` on. */
  function LoadBytes(s: seq<bv8>, off: nat, n: nat): bv64
    requires off + n <= |s|
    decreases n
  {
    if n == 0 then 0 else Cons(s[off], LoadBytes(s, off + 1, n - 1))
  }

  function Load(s: seq<bv8>, off: nat): bv64
    requires off + WORD <= |s|
  {
    LoadBytes(s, off, WORD)
  }

  // ---------------------------------------------------------------- operations act on bytes

  lemma LowAnd(x: bv64, y: bv64)
    ensures Low(And64(x, y)) == And8(Low(x), Low(y))
  {
  }

  lemma ShrAnd(x: bv64, y: bv64)
    ensures Shr8(And64(x, y)) == And64(Shr8(x), Shr8(y))
  {
  }

  lemma LowOr(x: bv64, y: bv64)
    ensures Low(Or64(x, y)) == Or8(Low(x), Low(y))
  {
  }

  lemma ShrOr(x: bv64, y: bv64)
    ensures Shr8(Or64(x, y)) == Or64(Shr8(x), Shr8(y))
  {
  }

  lemma LowXor(x: bv64, y: bv64)
    ensures Low(Xor64(x, y)) == Xor8(Low(x), Low(y))
  {
  }

  lemma ShrXor(x: bv64, y: bv64)
    ensures Shr8(Xor64(x, y)) == Xor64(Shr8(x), Shr8(y))
  {
  }

  lemma {:induction false} AndBytes(x: bv64, y: bv64, t: nat)
    ensures ByteOf(And64(x, y), t) == And8(ByteOf(x, t), ByteOf(y, t))
    decreases t
  {
    hide And64, And8, Low, Shr8;
    if t == 0 {
      LowAnd(x, y);
    } else {
      ShrAnd(x, y);
      AndBytes(Shr8(x), Shr8(y), t - 1);
    }
  }

  lemma {:induction false} OrBytes(x: bv64, y: bv64, t: nat)
    ensures ByteOf(Or64(x, y), t) == Or8(ByteOf(x, t), ByteOf(y, t))
    decreases t
  {
    hide Or64, Or8, Low, Shr8;
    if t == 0 {
      LowOr(x, y);
    } else {
      ShrOr(x, y);
      OrBytes(Shr8(x), Shr8(y), t - 1);
    }
  }

  lemma {:induction false} XorBytes(x: bv64, y: bv64, t: nat)
    ensures ByteOf(Xor64(x, y), t) == Xor8(ByteOf(x, t), ByteOf(y, t))
    decreases t
  {
    hide Xor64, Xor8, Low, Shr8;
    if t == 0 {
      LowXor(x, y);
    } else {
      ShrXor(x, y);
      XorBytes(Shr8(x), Shr8(y), t - 1);
    }
  }

  predicate FullBytes(w: bv64, n: nat)
    decreases n
  {
    n == 0 || (Low(w) == 0xFF && FullBytes(Shr8(w), n - 1))
  }

  lemma {:induction false} FullByte(w: bv64, n: nat, t: nat)
    requires FullBytes(w, n) && t < n
    ensures ByteOf(w, t) == 0xFF
    decreases t
  {
    hide Low, Shr8;
    if t > 0 { FullByte(Shr8(w), n - 1, t - 1); }
  }

  lemma NextFull(w: bv64, v: bv64, n: nat)
    requires FullBytes(v, n) && Low(w) == 0xFF && Shr8(w) == v
    ensures FullBytes(w, n + 1)
  {
    hide Low, Shr8;
  }

  lemma SevenFull()
    ensures FullBytes(0x00FF_FFFF_FFFF_FFFF, 7)
  {
    NextFull(0xFF, 0, 0);
    NextFull(0xFFFF, 0xFF, 1);
    NextFull(0xFF_FFFF, 0xFFFF, 2);
    NextFull(0xFFFF_FFFF, 0xFF_FFFF, 3);
    NextFull(0xFF_FFFF_FFFF, 0xFFFF_FFFF, 4);
    NextFull(0xFFFF_FFFF_FFFF, 0xFF_FFFF_FFFF, 5);
    NextFull(0xFF_FFFF_FFFF_FFFF, 0xFFFF_FFFF_FFFF, 6);
  }

  lemma SevenBytes(t: nat)
    requires t < 7
    ensures ByteOf(0x00FF_FFFF_FFFF_FFFF, t) == 0xFF
  {
    hide ByteOf, FullBytes;
    SevenFull();
    FullByte(0x00FF_FFFF_FFFF_FFFF, 7, t);
  }

  lemma AllBytes(t: nat)
    requires t < WORD
    ensures ByteOf(0xFFFF_FFFF_FFFF_FFFF, t) == 0xFF
  {
    hide ByteOf, FullBytes;
    SevenFull();
    NextFull(0xFFFF_FFFF_FFFF_FFFF, 0x00FF_FFFF_FFFF_FFFF, 7);
    FullByte(0xFFFF_FFFF_FFFF_FFFF, 8, t);
  }

  lemma AndFull(b: bv8)
    ensures And8(b, 0xFF) == b
  {
  }

  lemma TrimIsAnd(w: bv64)
    ensures Trim(w) == And64(w, 0x00FF_FFFF_FFFF_FFFF)
  {
  }

  lemma TrimmedBytes(w: bv64, t: nat)
    requires t < 7
    ensures ByteOf(Trim(w), t) == ByteOf(w, t)
  {
    hide And64, And8, Low, Shr8, Trim;
    TrimIsAnd(w);
    AndBytes(w, 0x00FF_FFFF_FFFF_FFFF, t);
    SevenBytes(t);
    AndFull(ByteOf(w, t));
  }

  lemma NotIsXor(x: bv64)
    ensures Not64(x) == Xor64(x, 0xFFFF_FFFF_FFFF_FFFF)
  {
  }

  lemma NotIsXor8(b: bv8)
    ensures Xor8(b, 0xFF) == Not8(b)
  {
  }

  lemma NotBytes(x: bv64, t: nat)
    requires t < WORD
    ensures ByteOf(Not64(x), t) == Not8(ByteOf(x, t))
  {
    hide Not64, Not8, Xor64, Xor8, ByteOf;
    NotIsXor(x);
    XorBytes(x, 0xFFFF_FFFF_FFFF_FFFF, t);
    AllBytes(t);
    NotIsXor8(ByteOf(x, t));
  }

  lemma {:induction false} ZeroBytes(t: nat)
    ensures ByteOf(0, t) == 0
  {
    if t > 0 {
      assert Shr8(0) == 0;
      ZeroBytes(t - 1);
    }
  }

  // ---------------------------------------------------------------- memory

  lemma LowCons(b: bv8, w: bv64)
    ensures Low(Cons(b, w)) == b
  {
  }

  lemma ShrCons(b: bv8, w: bv64)
    ensures Shr8(Cons(b, w)) == Trim(w)
  {
  }

  /** Reading a word reads its bytes. */
  lemma {:induction false} LoadedBytes(s: seq<bv8>, off: nat, n: nat, t: nat)
    requires off + n <= |s| && t < n <= WORD
    ensures ByteOf(LoadBytes(s, off, n), t) == s[off + t]
    decreases n
  {
    hide Low, Shr8, Cons, Trim;
    var rest := LoadBytes(s, off + 1, n - 1);
    if t == 0 {
      LowCons(s[off], rest);
    } else {
      ShrCons(s[off], rest);
      TrimmedBytes(rest, t - 1);
      LoadedBytes(s, off + 1, n - 1, t - 1);
    }
  }

  method Store(a: array<bv8>, off: nat, w: bv64)
    requires off + WORD <= a.Length
    modifies a
    ensures forall x :: off <= x < off + WORD ==> a[x] == ByteOf(w, x - off)
    ensures forall x :: 0 <= x < a.Length && !(off <= x < off + WORD) ==> a[x] == old(a[x])
  {
    hide ByteOf;
    for t := 0 to WORD
      invariant forall x :: off <= x < off + t ==> a[x] == ByteOf(w, x - off)
      invariant forall x :: 0 <= x < a.Length && !(off <= x < off + WORD) ==> a[x] == old(a[x])
    {
      a[off + t] := ByteOf(w, t);
    }
  }
}
