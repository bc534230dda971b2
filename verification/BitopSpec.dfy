/** BITOP byte by byte, and what it means bit by bit. A column holds the bytes of all keys at one place. */
module BitopSpec {
  import opened Words

  datatype Op = AND | OR | XOR | NOT | DIFF | DIFF1 | ANDOR | ONE

  predicate UsesFirst(op: Op) {
    op == DIFF || op == DIFF1 || op == ANDOR
  }

  /** One more key: the first key starts the accumulator, except for the operations that treat it apart. */
  function Step(op: Op, acc: bv8, b: bv8): bv8 {
    match op
    case AND => And8(acc, b)
    case OR => Or8(acc, b)
    case XOR => Xor8(acc, b)
    case NOT => acc
    case ONE => Xor8(acc, b)
    case _ => Or8(acc, b)
  }

  function Acc(op: Op, col: seq<bv8>): bv8
    requires col != []
  {
    if |col| == 1 then (if UsesFirst(op) then 0 else col[0])
    else Step(op, Acc(op, col[..|col| - 1]), col[|col| - 1])
  }

  /** The bits set in two keys or more. */
  function Twice(col: seq<bv8>): bv8
    requires col != []
  {
    if |col| == 1 then 0 else Or8(Twice(col[..|col| - 1]), And8(Acc(ONE, col[..|col| - 1]), col[|col| - 1]))
  }

  function Finish(op: Op, first: bv8, acc: bv8, twice: bv8): bv8 {
    match op
    case NOT => Not8(acc)
    case DIFF => And8(first, Not8(acc))
    case DIFF1 => And8(Not8(first), acc)
    case ANDOR => And8(first, acc)
    case ONE => And8(acc, Not8(twice))
    case _ => acc
  }

  /** The result byte for a column. */
  function ByteResult(op: Op, col: seq<bv8>): bv8
    requires col != []
  {
    Finish(op, col[0], Acc(op, col), Twice(col))
  }

  // ---------------------------------------------------------------- bits

  /** A mask with one bit. */
  predicate OneBit(m: bv8) {
    m != 0 && m & (m - 1) == 0
  }

  predicate Bit(b: bv8, m: bv8) {
    b & m != 0
  }

  lemma BitLaws(a: bv8, b: bv8, m: bv8)
    requires OneBit(m)
    ensures Bit(And8(a, b), m) == (Bit(a, m) && Bit(b, m))
    ensures Bit(Or8(a, b), m) == (Bit(a, m) || Bit(b, m))
    ensures Bit(Xor8(a, b), m) == (Bit(a, m) != Bit(b, m))
    ensures Bit(Not8(a), m) == !Bit(a, m)
    ensures !Bit(0, m)
  {
    hide Bit, OneBit, And8, Or8, Xor8, Not8;
    AndMeans(a, b, m);
    OrMeans(a, b, m);
    XorMeans(a, b, m);
    NotMeans(a, m);
    ZeroMeans(m);
  }

  lemma NotMeans(a: bv8, m: bv8)
    requires OneBit(m)
    ensures Bit(Not8(a), m) == !Bit(a, m)
  {
  }

  lemma AndMeans(a: bv8, b: bv8, m: bv8)
    requires OneBit(m)
    ensures Bit(And8(a, b), m) == (Bit(a, m) && Bit(b, m))
  {
  }

  lemma OrMeans(a: bv8, b: bv8, m: bv8)
    requires OneBit(m)
    ensures Bit(Or8(a, b), m) == (Bit(a, m) || Bit(b, m))
  {
    assert (a | b) & m == (a & m) | (b & m);
    assert (a & m) | (b & m) == 0 <==> a & m == 0 && b & m == 0;
  }

  lemma XorMeans(a: bv8, b: bv8, m: bv8)
    requires OneBit(m)
    ensures Bit(Xor8(a, b), m) == (Bit(a, m) != Bit(b, m))
  {
  }

  lemma ZeroMeans(m: bv8)
    ensures !Bit(0, m)
  {
  }

  lemma SameEightBits(a: bv8, b: bv8)
    requires (a & 1 != 0) == (b & 1 != 0) && (a & 2 != 0) == (b & 2 != 0) && (a & 4 != 0) == (b & 4 != 0)
    requires (a & 8 != 0) == (b & 8 != 0)
    requires (a & 16 != 0) == (b & 16 != 0) && (a & 32 != 0) == (b & 32 != 0) && (a & 64 != 0) == (b & 64 != 0)
    requires (a & 128 != 0) == (b & 128 != 0)
    ensures a == b
  {
  }

  /** How many keys have the bit set. */
  function Count(col: seq<bv8>, m: bv8): (n: nat)
    ensures n <= |col|
  {
    if col == [] then 0
    else Count(col[..|col| - 1], m) + if Bit(col[|col| - 1], m) then 1 else 0
  }

  /** What the operation means for one bit. */
  predicate BitResult(op: Op, col: seq<bv8>, m: bv8)
    requires col != []
  {
    match op
    case AND => Count(col, m) == |col|
    case OR => Count(col, m) > 0
    case XOR => Count(col, m) % 2 == 1
    case NOT => !Bit(col[0], m)
    case DIFF => Bit(col[0], m) && Count(col[1..], m) == 0
    case DIFF1 => !Bit(col[0], m) && Count(col[1..], m) > 0
    case ANDOR => Bit(col[0], m) && Count(col[1..], m) > 0
    case ONE => Count(col, m) == 1
  }

  lemma CountOne(col: seq<bv8>, m: bv8)
    requires |col| == 1
    ensures Count(col, m) == if Bit(col[0], m) then 1 else 0
  {
    assert col[..0] == [];
    assert Count(col[..0], m) == 0;
  }

  lemma CountTail(col: seq<bv8>, m: bv8)
    requires |col| > 1
    ensures Count(col[1..], m) == Count(col[..|col| - 1][1..], m) + if Bit(col[|col| - 1], m) then 1 else 0
  {
    assert col[1..][..|col| - 2] == col[..|col| - 1][1..];
  }

  predicate AccBit(op: Op, col: seq<bv8>, m: bv8)
    requires col != []
  {
    match op
    case AND => Count(col, m) == |col|
    case OR => Count(col, m) > 0
    case XOR => Count(col, m) % 2 == 1
    case NOT => Bit(col[0], m)
    case ONE => Count(col, m) % 2 == 1
    case _ => Count(col[1..], m) > 0
  }

  function StepBit(op: Op, acc: bool, b: bool): bool {
    match op
    case AND => acc && b
    case OR => acc || b
    case XOR => acc != b
    case NOT => acc
    case ONE => acc != b
    case _ => acc || b
  }

  lemma StepMeans(op: Op, acc: bv8, b: bv8, m: bv8)
    requires OneBit(m)
    ensures Bit(Step(op, acc, b), m) == StepBit(op, Bit(acc, m), Bit(b, m))
  {
    hide Bit, OneBit, And8, Or8, Xor8;
    BitLaws(acc, b, m);
  }

  function FinishBit(op: Op, first: bool, acc: bool, twice: bool): bool {
    match op
    case NOT => !acc
    case DIFF => first && !acc
    case DIFF1 => !first && acc
    case ANDOR => first && acc
    case ONE => acc && !twice
    case _ => acc
  }

  lemma FinishMeans(op: Op, first: bv8, acc: bv8, twice: bv8, m: bv8)
    requires OneBit(m)
    ensures Bit(Finish(op, first, acc, twice), m) == FinishBit(op, Bit(first, m), Bit(acc, m), Bit(twice, m))
  {
    hide OneBit, Bit, And8, Not8;
    NotMeans(acc, m);
    NotMeans(first, m);
    NotMeans(twice, m);
    AndMeans(first, acc, m);
    AndMeans(first, Not8(acc), m);
    AndMeans(Not8(first), acc, m);
    AndMeans(acc, Not8(twice), m);
  }

  lemma {:induction false} AccMeans(op: Op, col: seq<bv8>, m: bv8)
    requires col != [] && OneBit(m)
    ensures Bit(Acc(op, col), m) == AccBit(op, col, m)
    decreases |col|
  {
    hide Bit, OneBit, Step;
    if |col| == 1 {
      CountOne(col, m);
      BitLaws(0, 0, m);
      assert col[1..] == [];
    } else {
      var most, last := col[..|col| - 1], col[|col| - 1];
      AccMeans(op, most, m);
      StepMeans(op, Acc(op, most), last, m);
      CountTail(col, m);
      AccBitStep(op, col, m);
    }
  }

  lemma AccBitStep(op: Op, col: seq<bv8>, m: bv8)
    requires |col| > 1
    ensures AccBit(op, col, m) == StepBit(op, AccBit(op, col[..|col| - 1], m), Bit(col[|col| - 1], m))
  {
    hide Bit;
    CountTail(col, m);
  }

  lemma {:induction false} TwiceMeans(col: seq<bv8>, m: bv8)
    requires col != [] && OneBit(m)
    ensures Bit(Twice(col), m) == (Count(col, m) >= 2)
    decreases |col|
  {
    hide Bit, OneBit, Acc, And8, Or8;
    if |col| == 1 {
      CountOne(col, m);
      BitLaws(0, 0, m);
    } else {
      var most, last := col[..|col| - 1], col[|col| - 1];
      TwiceMeans(most, m);
      AccMeans(ONE, most, m);
      BitLaws(Acc(ONE, most), last, m);
      BitLaws(Twice(most), And8(Acc(ONE, most), last), m);
    }
  }

  /** Each result bit is what the operation says of the same bit of all keys. */
  lemma ByteResultMeans(op: Op, col: seq<bv8>, m: bv8)
    requires col != [] && OneBit(m) && (op == NOT ==> |col| == 1)
    ensures Bit(ByteResult(op, col), m) == BitResult(op, col, m)
  {
    hide Bit, OneBit, Acc, Twice, Count, Finish;
    AccMeans(op, col, m);
    TwiceMeans(col, m);
    FinishMeans(op, col[0], Acc(op, col), Twice(col), m);
  }
}
