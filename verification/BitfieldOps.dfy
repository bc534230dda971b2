/** BITFIELD: overflow checks in 64-bit arithmetic, and the execution of GET, SET and INCRBY. */
module BitfieldOps {
  import opened Bits
  import opened BitopSpec
  import opened Bitfield

  const TWO63 := 0x8000_0000_0000_0000
  const TWO64 := 0x1_0000_0000_0000_0000

  predicate IsInt64(x: int) {
    -TWO63 <= x < TWO63
  }

  /** Conversions to the C types, which wrap around. */
  function U64(x: int): nat {
    x % TWO64
  }

  function I64(x: int): (r: int)
    ensures IsInt64(r)
  {
    var u := x % TWO64;
    if u < TWO63 then u else u - TWO64
  }

  lemma I64Exact(x: int)
    requires IsInt64(x)
    ensures I64(x) == x
  {
  }

  datatype Policy = WRAP | SAT | FAIL

  /** 0, 1 for overflow or -1 for underflow; the limit only counts when it is not 0. */
  datatype Check = Check(code: int, limit: int)

  function UMax(bits: nat): int {
    Pow2(bits) - 1
  }

  function SMax(bits: nat): int
    requires bits > 0
  {
    Pow2(bits - 1) - 1
  }

  function SMin(bits: nat): int
    requires bits > 0
  {
    -(Pow2(bits - 1) as int)
  }

  /** The low bits read as a two's complement number. */
  function ToSigned(u: int, bits: nat): int
    requires bits > 0
  {
    var low := u % Pow2(bits);
    if low >= Pow2(bits - 1) then low - Pow2(bits) else low
  }

  // ---------------------------------------------------------------- the overflow checks

  function CheckUnsigned(value: nat, incr: int, bits: nat, ow: Policy): Check
    requires 0 < bits < 64
  {
    var max := UMax(bits);
    var maxincr := I64(U64(max - value));
    var minincr := I64(-(value as int));
    var wrapped := U64(value + incr) % Pow2(bits);
    if value > max || (incr > 0 && incr > maxincr) then
      (match ow case WRAP => Check(1, wrapped) case SAT => Check(1, max) case FAIL => Check(1, 0))
    else if incr < 0 && incr < minincr then
      (match ow case WRAP => Check(1, wrapped) case SAT => Check(-1, 0) case FAIL => Check(-1, 0))
    else Check(0, 0)
  }

  /** The wrapped value: the sign bit is copied to all higher bits, or they are cleared. */
  function SignExtend(c: nat, bits: nat): int
    requires 0 < bits <= 64
  {
    if bits == 64 then I64(c)
    else if NatBit(c, bits - 1) then I64(TWO64 - Pow2(bits) + c % Pow2(bits))
    else I64(c % Pow2(bits))
  }

  function CheckSigned(value: int, incr: int, bits: nat, ow: Policy): Check
    requires 0 < bits <= 64
  {
    var max := SMax(bits);
    var min := -max - 1;
    var maxincr := I64(U64(max) - value);
    var minincr := I64(min - value);
    var wrapped := SignExtend(U64(U64(value) + U64(incr)), bits);
    if value > max || (bits != 64 && incr > maxincr) || (value >= 0 && incr > 0 && incr > maxincr) then
      (match ow case WRAP => Check(1, wrapped) case SAT => Check(1, max) case FAIL => Check(1, 0))
    else if value < min || (bits != 64 && incr < minincr) || (value < 0 && incr < 0 && incr < minincr) then
      (match ow case WRAP => Check(1, wrapped) case SAT => Check(-1, min) case FAIL => Check(-1, 0))
    else Check(0, 0)
  }

  // ---------------------------------------------------------------- powers of two up to 64

  lemma {:induction false} PowAdd(a: nat, b: nat)
    ensures Pow2(a + b) == Pow2(a) * Pow2(b)
    decreases b
  {
    if b > 0 {
      PowAdd(a, b - 1);
      Assoc(Pow2(a), Pow2(b - 1));
    }
  }

  lemma Assoc(x: nat, y: nat)
    ensures x * (2 * y) == 2 * (x * y)
  {
  }

  lemma Pow64()
    ensures Pow2(64) == TWO64 && Pow2(63) == TWO63
  {
    hide Pow2;
    Pow8();
    PowAdd(8, 8);
    PowAdd(16, 16);
    PowAdd(32, 32);
    PowStep(64);
  }

  lemma Pow8()
    ensures Pow2(8) == 256
  {
    assert Pow2(4) == 16;
  }

  lemma {:induction false} PowGrows(a: nat, b: nat)
    requires a <= b
    ensures Pow2(a) <= Pow2(b)
    decreases b
  {
    if a < b { PowGrows(a, b - 1); }
  }

  lemma PowBounds(bits: nat)
    requires 0 < bits <= 64
    ensures Pow2(bits) == 2 * Pow2(bits - 1) && 1 <= Pow2(bits - 1) <= TWO63 && Pow2(bits) <= TWO64
    ensures bits < 64 ==> Pow2(bits) <= TWO63
  {
    Pow64();
    PowGrows(bits - 1, 63);
    PowGrows(bits, 64);
    if bits < 64 { PowGrows(bits, 63); }
  }

  /** Reducing modulo 2^64 first does not matter. */
  lemma ModOfMod(x: int, bits: nat)
    requires bits <= 64
    ensures x % TWO64 % Pow2(bits) == x % Pow2(bits)
  {
    Pow64();
    PowAdd(64 - bits, bits);
    var p, k := Pow2(bits), Pow2(64 - bits);
    ModMultiple(x, TWO64, p, k);
  }

  lemma ModMultiple(x: int, m: nat, p: nat, k: nat)
    requires p > 0 && m == k * p && m > 0
    ensures x % m % p == x % p
  {
    var q := x / m;
    assert x == m * q + x % m;
    MultipleOf(k, p, q);
    AddMultiple(x % m, p, k * q);
  }

  lemma MultipleOf(k: nat, p: nat, q: int)
    ensures (k * p) * q == p * (k * q)
  {
  }

  lemma AddMultiple(y: int, p: nat, n: int)
    requires p > 0
    ensures (y + p * n) % p == y % p
  {
    var a, b := y / p, y % p;
    assert y == p * a + b;
    assert y + p * n == p * (a + n) + b by { Together(p, a, n); }
    IntModUnique(y + p * n, p, a + n, b);
  }

  lemma Together(p: int, a: int, n: int)
    ensures p * a + p * n == p * (a + n)
  {
  }

  lemma IntModUnique(x: int, m: nat, q: int, r: nat)
    requires m > 0 && r < m && x == m * q + r
    ensures x % m == r && x / m == q
  {
    var e := x / m;
    assert x == m * e + x % m;
    if e > q {
      IntGrows(q, e, m);
    } else if e < q {
      IntGrows(e, q, m);
    }
  }

  lemma {:induction false} IntGrows(a: int, b: int, m: nat)
    requires a < b
    ensures m * a + m <= m * b
    decreases b - a
  {
    assert m * (a + 1) == m * a + m;
    if a + 1 < b { IntGrows(a + 1, b, m); }
  }

  // ---------------------------------------------------------------- the checks are exact

  /** For a value in range: overflow exactly when the sum is not in range, with the sum modulo 2^bits, or
      the nearer bound. */
  lemma UnsignedIsExact(value: nat, incr: int, bits: nat, ow: Policy)
    requires 0 < bits < 64 && value <= UMax(bits) && IsInt64(incr)
    ensures var c, sum := CheckUnsigned(value, incr, bits, ow), value + incr;
            && (c.code == 0 <==> 0 <= sum <= UMax(bits))
            && (c.code != 0 && ow == WRAP ==> c.limit == sum % Pow2(bits))
            && (c.code != 0 && ow == SAT ==> c.limit == if sum > UMax(bits) then UMax(bits) else 0)
  {
    hide Pow2, U64, I64;
    PowBounds(bits);
    ModOfU64(value + incr, bits);
    U64Exact(UMax(bits) - value);
    I64Exact(UMax(bits) - value);
    I64Exact(-(value as int));
  }

  lemma U64Exact(x: int)
    requires 0 <= x < TWO64
    ensures U64(x) == x
  {
  }

  lemma ModOfU64(x: int, bits: nat)
    requires bits <= 64
    ensures U64(x) % Pow2(bits) == x % Pow2(bits)
  {
    ModOfMod(x, bits);
  }

  /** SET of an unsigned field: the argument is taken as an unsigned number first. */
  lemma UnsignedSetIsExact(v: int, bits: nat, ow: Policy)
    requires 0 < bits < 64 && IsInt64(v)
    ensures var c := CheckUnsigned(U64(v), 0, bits, ow);
            && (c.code == 0 <==> U64(v) <= UMax(bits))
            && (c.code == 0 <==> 0 <= v <= UMax(bits))
            && (c.code != 0 && ow == WRAP ==> c.limit == v % Pow2(bits))
            && (c.code != 0 && ow == SAT ==> c.limit == UMax(bits))
  {
    hide Pow2, U64, I64;
    PowBounds(bits);
    U64Cases(v);
    U64Exact(U64(v));
    ModOfU64(v, bits);
  }

  lemma U64Cases(v: int)
    requires IsInt64(v)
    ensures U64(v) == if v >= 0 then v else v + TWO64
  {
  }

  lemma I64Cases(x: int)
    requires -TWO63 <= x < TWO64
    ensures I64(x) == if x < TWO63 then x else x - TWO64
  {
  }

  lemma TopBitOf(c: nat, bits: nat)
    requires bits > 0
    ensures NatBit(c, bits - 1) <==> c % Pow2(bits) >= Pow2(bits - 1)
  {
    hide Pow2;
    var q := Pow2(bits - 1);
    PowStep(bits);
    DivParts(c, q);
    var a, b := c / q, c % q;
    var h := a / 2;
    Double(h, q);
    if a % 2 == 0 {
      Scale(a, 2 * h, q, h);
      ModUnique(c, 2 * q, h, b);
    } else {
      ScaleOdd(a, h, q);
      ModUnique(c, 2 * q, h, q + b);
    }
  }

  lemma SignExtendMeans(x: int, bits: nat)
    requires 0 < bits <= 64
    ensures SignExtend(U64(x), bits) == ToSigned(x, bits)
  {
    hide Pow2, NatBit, U64, I64;
    PowBounds(bits);
    ModOfU64(x, bits);
    TopBitOf(U64(x), bits);
    var low := x % Pow2(bits);
    if bits == 64 {
      Pow64();
      U64Is(x);
      I64Cases(U64(x));
    } else if low >= Pow2(bits - 1) {
      I64Cases(TWO64 - Pow2(bits) + low);
    } else {
      I64Cases(low);
    }
  }

  lemma U64Is(x: int)
    ensures U64(x) == x % TWO64
  {
  }

  lemma SumWraps(a: int, b: int)
    ensures U64(U64(a) + U64(b)) == U64(a + b)
  {
  }

  /** INCRBY of a signed field. */
  lemma SignedIsExact(value: int, incr: int, bits: nat, ow: Policy)
    requires 0 < bits <= 64 && SMin(bits) <= value <= SMax(bits) && IsInt64(incr)
    ensures var c, sum := CheckSigned(value, incr, bits, ow), value + incr;
            && (c.code == 0 <==> SMin(bits) <= sum <= SMax(bits))
            && (c.code != 0 && ow == WRAP ==> c.limit == ToSigned(sum, bits))
            && (c.code != 0 && ow == SAT ==> c.limit == if sum > SMax(bits) then SMax(bits) else SMin(bits))
  {
    hide Pow2, SignExtend, ToSigned, U64, I64;
    PowBounds(bits);
    SumWraps(value, incr);
    SignExtendMeans(value + incr, bits);
    if bits == 64 { Pow64(); }
    U64Exact(SMax(bits));
    if bits < 64 || value >= 0 { I64Exact(SMax(bits) - value); }
    if bits < 64 || value < 0 { I64Exact(SMin(bits) - value); }
  }

  /** Far below zero, the room left above the value is not a signed 64-bit number. */
  predicate TooFarBelow(v: int, bits: nat)
    requires 0 < bits <= 64
  {
    bits < 64 && v <= SMax(bits) - TWO63
  }

  /** SET of a signed field is exact under every policy, except that saturation goes to the wrong
      bound exactly for values too far below zero. */
  lemma SignedSetIsExactIff(v: int, bits: nat, ow: Policy)
    requires 0 < bits <= 64 && IsInt64(v)
    ensures var c := CheckSigned(v, 0, bits, ow);
            && (c.code == 0 <==> SMin(bits) <= v <= SMax(bits))
            && (c.code != 0 && ow == WRAP ==> c.limit == ToSigned(v, bits))
            && (c.code != 0 && ow == SAT ==>
                  (c.limit == (if v > SMax(bits) then SMax(bits) else SMin(bits)) <==> !TooFarBelow(v, bits)))
            && (TooFarBelow(v, bits) && ow == SAT ==> v < SMin(bits) && c == Check(1, SMax(bits)))
  {
    hide Pow2, SignExtend, ToSigned, U64, I64;
    PowBounds(bits);
    SumWraps(v, 0);
    SignExtendMeans(v, bits);
    if bits == 64 { Pow64(); }
    U64Exact(SMax(bits));
    I64Cases(SMax(bits) - v);
    if bits < 64 && v <= SMax(bits) { I64Exact(SMin(bits) - v); }
  }

  /** SET i8 with the least 64-bit number saturates at 127. */
  lemma LeastNumberSaturatesAtTheTop()
    ensures CheckSigned(-TWO63, 0, 8, SAT) == Check(1, 127)
  {
    hide SignExtend, ToSigned;
    assert Pow2(7) == 128;
    assert SMax(8) == 127;
    SignedSetIsExactIff(-TWO63, 8, SAT);
  }

  // ---------------------------------------------------------------- execution

  datatype OpCode = GET | SET | INCRBY

  datatype FieldOp = FieldOp(code: OpCode, offset: nat, bits: nat, signed: bool, i64: int, ow: Policy)

  predicate ValidOp(op: FieldOp) {
    0 < op.bits && op.bits <= (if op.signed then 64 else 63) && IsInt64(op.i64)
  }

  datatype Reply = Number(n: int) | Null

  function Lowest(op: FieldOp): int
    requires op.bits > 0
  {
    if op.signed then SMin(op.bits) else 0
  }

  function Highest(op: FieldOp): int
    requires op.bits > 0
  {
    if op.signed then SMax(op.bits) else UMax(op.bits)
  }

  /** The number a field holds. */
  function FieldOf(s: seq<bv8>, op: FieldOp): int
    requires op.bits > 0
  {
    var u := Read(s, op.offset, op.bits);
    if op.signed then ToSigned(u, op.bits) else u
  }

  /** The exact result an operation aims at. */
  function Target(op: FieldOp, was: int): int {
    if op.code == INCRBY then was + op.i64 else if op.signed then op.i64 else U64(op.i64)
  }

  function Wrapped(op: FieldOp, x: int): int
    requires op.bits > 0
  {
    if op.signed then ToSigned(x, op.bits) else x % Pow2(op.bits)
  }

  /** What is stored; `Null` when nothing is. */
  function Stored(op: FieldOp, was: int): Reply
    requires ValidOp(op)
  {
    var x := Target(op, was);
    if Lowest(op) <= x <= Highest(op) then Number(x)
    else
      match op.ow
      case WRAP => Number(Wrapped(op, x))
      case FAIL => Null
      case SAT =>
        if x > Highest(op) || (op.code == SET && op.signed && TooFarBelow(x, op.bits)) then Number(Highest(op))
          else Number(Lowest(op))
  }

  lemma FieldInRange(s: seq<bv8>, op: FieldOp)
    requires op.bits > 0
    ensures Lowest(op) <= FieldOf(s, op) <= Highest(op)
  {
    hide Pow2;
    PowStep(op.bits);
    SmallModulus(Read(s, op.offset, op.bits), Pow2(op.bits));
  }

  lemma SmallModulus(x: nat, m: nat)
    requires x < m
    ensures x % m == x
  {
  }

  lemma WrappedInRange(op: FieldOp, x: int)
    requires op.bits > 0
    ensures Lowest(op) <= Wrapped(op, x) <= Highest(op)
  {
    hide Pow2;
    PowStep(op.bits);
  }

  lemma StoredInRange(op: FieldOp, was: int)
    requires ValidOp(op) && Stored(op, was).Number?
    ensures Lowest(op) <= Stored(op, was).n <= Highest(op)
  {
    hide Pow2, Wrapped, TooFarBelow;
    WrappedInRange(op, Target(op, was));
    BoundsOrder(op);
  }

  lemma BoundsOrder(op: FieldOp)
    requires op.bits > 0
    ensures Lowest(op) <= Highest(op)
  {
    hide Pow2;
    PowStep(op.bits);
  }

  /** The overflow check and the choice that follows it give what should be stored. */
  method NewValue(op: FieldOp, was: int) returns (overflow: bool, newval: int)
    requires ValidOp(op) && op.code != GET && Lowest(op) <= was <= Highest(op)
    ensures Stored(op, was).Null? <==> overflow && op.ow == FAIL
    ensures Stored(op, was).Number? ==> newval == Stored(op, was).n
  {
    hide Pow2, ToSigned, CheckSigned, CheckUnsigned;
    if op.signed {
      if op.code == INCRBY {
        var c := CheckSigned(was, op.i64, op.bits, op.ow);
        SignedIsExact(was, op.i64, op.bits, op.ow);
        overflow := c.code != 0;
        newval := if overflow then c.limit else was + op.i64;
      } else {
        var c := CheckSigned(op.i64, 0, op.bits, op.ow);
        SignedSetIsExactIff(op.i64, op.bits, op.ow);
        overflow := c.code != 0;
        newval := if overflow then c.limit else op.i64;
      }
    } else {
      if op.code == INCRBY {
        var c := CheckUnsigned(was, op.i64, op.bits, op.ow);
        UnsignedIsExact(was, op.i64, op.bits, op.ow);
        overflow := c.code != 0;
        newval := if overflow then c.limit else was + op.i64;
      } else {
        var v := U64(op.i64);
        var c := CheckUnsigned(v, 0, op.bits, op.ow);
        UnsignedSetIsExact(op.i64, op.bits, op.ow);
        ModOfMod(op.i64, op.bits);
        overflow := c.code != 0;
        newval := if overflow then c.limit else v;
      }
    }
  }

  /** A number in range is read back from its low bits. */
  lemma ReadBack(op: FieldOp, x: int)
    requires 0 < op.bits <= 64 && Lowest(op) <= x <= Highest(op)
    ensures (if op.signed then ToSigned(U64(x) % Pow2(op.bits), op.bits) else U64(x) % Pow2(op.bits)) == x
  {
    hide Pow2;
    PowBounds(op.bits);
    ModOfMod(x, op.bits);
    var p := Pow2(op.bits);
    if x >= 0 {
      SmallModulus(x, p);
      SmallModulus(x % p, p);
    } else {
      AddMultiple(x, p, 1);
      SmallModulus(x + p, p);
      SmallModulus(x % p, p);
    }
  }

  /** What one operation does: its reply, what the field holds afterwards, and that no other bit changes. */
  ghost predicate Effect(s: seq<bv8>, op: FieldOp, s': seq<bv8>, reply: Reply)
    requires ValidOp(op)
  {
    var was := FieldOf(s, op);
    if op.code == GET then s' == s && reply == Number(was)
    else
      match Stored(op, was)
      case Null => s' == s && reply == Null
      case Number(now) =>
        && |s'| == |s| && FieldOf(s', op) == now && reply == Number(if op.code == SET then was else now)
        && forall k :: 0 <= k < 8 * |s| && !(op.offset <= k < op.offset + op.bits) ==> GetBit(s', k) == GetBit(s, k)
  }

  method Execute(p: array<bv8>, op: FieldOp) returns (reply: Reply)
    requires ValidOp(op) && (op.code != GET ==> op.offset + op.bits <= 8 * p.Length)
    modifies p
    ensures Effect(old(p[..]), op, p[..], reply)
  {
    hide Pow2, ToSigned, Stored, GetBit, NatBit, Read;
    FieldInRange(p[..], op);
    if op.code == GET {
      var u := GetWindow(p[..], op.offset, op.bits);
      reply := Number(if op.signed then ToSigned(u, op.bits) else u);
    } else {
      var u := GetUnsigned(p[..], op.offset, op.bits);
      var was := if op.signed then ToSigned(u, op.bits) else u;
      var overflow, newval := NewValue(op, was);
      if overflow && op.ow == FAIL {
        reply := Null;
      } else {
        StoredInRange(op, was);
        reply := Number(if op.code == INCRBY then newval else was);
        SetUnsigned(p, op.offset, op.bits, U64(newval));
        WriteThenRead(p[..], op.offset, op.bits, U64(newval));
        ReadBack(op, newval);
      }
    }
  }

  // ---------------------------------------------------------------- the whole command

  predicate AllValid(ops: seq<FieldOp>) {
    forall i :: 0 <= i < |ops| ==> ValidOp(ops[i])
  }

  /** How long the string must be for all writes. */
  function NeededBytes(ops: seq<FieldOp>): nat
    requires AllValid(ops)
  {
    if ops == [] then 0
    else
      var n, op := NeededBytes(ops[..|ops| - 1]), ops[|ops| - 1];
      var mine := (op.offset + op.bits - 1) / 8 + 1;
      if op.code != GET && n < mine then mine else n
  }

  function Padding(n: nat): seq<bv8> {
    seq(n, _ => 0 as bv8)
  }

  /** The string padded with zero bytes so that every write has room; a missing key is empty. */
  function Grown(s: seq<bv8>, ops: seq<FieldOp>): seq<bv8>
    requires AllValid(ops)
  {
    if NeededBytes(ops) <= |s| then s else s + Padding(NeededBytes(ops) - |s|)
  }

  lemma {:induction false} RoomForAll(ops: seq<FieldOp>, i: nat)
    requires AllValid(ops) && i < |ops| && ops[i].code != GET
    ensures ops[i].offset + ops[i].bits <= 8 * NeededBytes(ops)
    decreases |ops|
  {
    var n := |ops| - 1;
    if i < n { RoomForAll(ops[..n], i); }
  }

  /** Padding changes no field: what lies past the end was zero before. */
  lemma {:induction false} PaddingReads(s: seq<bv8>, n: nat, offset: nat, bits: nat)
    ensures Read(s + Padding(n), offset, bits) == Read(s, offset, bits)
    decreases bits
  {
    if bits > 0 {
      PaddingReads(s, n, offset, bits - 1);
      PaddedBit(s, n, offset + bits - 1);
    }
  }

  lemma PaddedBit(s: seq<bv8>, n: nat, k: nat)
    ensures BitOf(s + Padding(n), k) == BitOf(s, k)
  {
    var t := s + Padding(n);
    if k / 8 < |s| {
      assert t[k / 8] == s[k / 8];
    } else if k / 8 < |t| {
      assert t[k / 8] == 0;
    }
  }

  lemma GrownKeepsFields(s: seq<bv8>, ops: seq<FieldOp>, op: FieldOp)
    requires AllValid(ops) && ValidOp(op)
    ensures FieldOf(Grown(s, ops), op) == FieldOf(s, op)
  {
    hide Read, ToSigned;
    if NeededBytes(ops) > |s| { PaddingReads(s, NeededBytes(ops) - |s|, op.offset, op.bits); }
  }

  /** BITFIELD on a string: after one growth the operations take effect one after the other, each on what
      the one before left; `states[i]` is the string before operation `i`. */
  method RunAll(s: seq<bv8>, ops: seq<FieldOp>)
    returns (result: seq<bv8>, replies: seq<Reply>, ghost states: seq<seq<bv8>>)
    requires AllValid(ops)
    ensures |states| == |ops| + 1 && |replies| == |ops| && states[0] == Grown(s, ops) && states[|ops|] == result
    ensures forall i :: 0 <= i < |ops| ==> Effect(states[i], ops[i], states[i + 1], replies[i])
    ensures forall op :: ValidOp(op) ==> FieldOf(states[0], op) == FieldOf(s, op)
  {
    hide Effect, FieldOf, NeededBytes;
    var size := 0;
    NothingNeeded();
    assert ops[..0] == [];
    for i := 0 to |ops|
      invariant AllValid(ops[..i]) && size == NeededBytes(ops[..i])
    {
      assert ops[..i + 1][..i] == ops[..i] && ops[..i + 1][i] == ops[i];
      NeedsMore(ops, i);
      var mine := (ops[i].offset + ops[i].bits - 1) / 8 + 1;
      if ops[i].code != GET && size < mine { size := mine; }
    }
    assert ops[..|ops|] == ops;
    var start := if size <= |s| then s else s + Padding(size - |s|);
    forall op | ValidOp(op) ensures FieldOf(start, op) == FieldOf(s, op) { GrownKeepsFields(s, ops, op); }
    var p := new bv8[|start|](j requires 0 <= j < |start| => start[j]);
    assert p[..] == start;
    replies, states := [], [start];
    for i := 0 to |ops|
      invariant |replies| == i && |states| == i + 1 && states[0] == start && states[i] == p[..]
      invariant forall j :: 0 <= j < i ==> Effect(states[j], ops[j], states[j + 1], replies[j])
    {
      if ops[i].code != GET { RoomForAll(ops, i); }
      var r := Execute(p, ops[i]);
      replies, states := replies + [r], states + [p[..]];
    }
    result := p[..];
  }

  lemma NothingNeeded()
    ensures NeededBytes([]) == 0
  {
  }

  lemma NeedsMore(ops: seq<FieldOp>, i: nat)
    requires AllValid(ops) && i < |ops|
    ensures AllValid(ops[..i + 1]) && AllValid(ops[..i])
    ensures var n, op := NeededBytes(ops[..i]), ops[i];
            var mine := (op.offset + op.bits - 1) / 8 + 1;
            NeededBytes(ops[..i + 1]) == if op.code != GET && n < mine then mine else n
  {
    assert ops[..i + 1][..i] == ops[..i] && ops[..i + 1][i] == ops[i];
  }
}
