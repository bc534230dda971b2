/** BITOP: the four-word path and the byte tail with its early exits, against the byte by byte definition. */
module Bitop {
  import opened Words
  import opened BitopSpec

  type Key = seq<bv8>

  const BLOCK := 32

  /** Keys are zero-extended; a missing key is an empty one. */
  function ByteOrZero(key: Key, x: nat): bv8 {
    if x < |key| then key[x] else 0
  }

  /** The bytes of the first `n` keys at one place. */
  function Column(src: seq<Key>, x: nat, n: nat): (col: seq<bv8>)
    requires n <= |src|
    ensures |col| == n && forall i :: 0 <= i < n ==> col[i] == ByteOrZero(src[i], x)
  {
    seq(n, i requires 0 <= i < n => ByteOrZero(src[i], x))
  }

  function AccAt(op: Op, src: seq<Key>, x: nat, n: nat): bv8
    requires 0 < n <= |src|
  {
    Acc(op, Column(src, x, n))
  }

  function TwiceAt(src: seq<Key>, x: nat, n: nat): bv8
    requires 0 < n <= |src|
  {
    Twice(Column(src, x, n))
  }

  function ResultAt(op: Op, src: seq<Key>, x: nat): bv8
    requires src != []
  {
    ByteResult(op, Column(src, x, |src|))
  }

  lemma FirstColumn(op: Op, src: seq<Key>, x: nat)
    requires src != []
    ensures AccAt(op, src, x, 1) == if UsesFirst(op) then 0 else ByteOrZero(src[0], x)
    ensures TwiceAt(src, x, 1) == 0
  {
  }

  lemma NextColumn(op: Op, src: seq<Key>, x: nat, n: nat)
    requires 0 < n < |src|
    ensures AccAt(op, src, x, n + 1) == Step(op, AccAt(op, src, x, n), ByteOrZero(src[n], x))
    ensures TwiceAt(src, x, n + 1) == Or8(TwiceAt(src, x, n), And8(AccAt(ONE, src, x, n), ByteOrZero(src[n], x)))
  {
    hide Step, Or8, And8;
    assert Column(src, x, n + 1)[..n] == Column(src, x, n);
  }

  lemma LastColumn(op: Op, src: seq<Key>, x: nat)
    requires src != []
    ensures ResultAt(op, src, x) == Finish(op, ByteOrZero(src[0], x), AccAt(op, src, x, |src|), TwiceAt(src, x, |src|))
  {
  }

  // ---------------------------------------------------------------- one word

  function StepWord(op: Op, acc: bv64, w: bv64): bv64 {
    match op
    case AND => And64(acc, w)
    case OR => Or64(acc, w)
    case XOR => Xor64(acc, w)
    case NOT => acc
    case ONE => Xor64(acc, w)
    case _ => Or64(acc, w)
  }

  lemma StepWordBytes(op: Op, acc: bv64, w: bv64, t: nat)
    ensures ByteOf(StepWord(op, acc, w), t) == Step(op, ByteOf(acc, t), ByteOf(w, t))
  {
    hide And64, Or64, Xor64, And8, Or8, Xor8, ByteOf;
    AndBytes(acc, w, t);
    OrBytes(acc, w, t);
    XorBytes(acc, w, t);
  }

  function FinishWord(op: Op, first: bv64, acc: bv64): bv64 {
    match op
    case DIFF => And64(first, Not64(acc))
    case DIFF1 => And64(Not64(first), acc)
    case ANDOR => And64(first, acc)
    case _ => acc
  }

  lemma FinishWordBytes(op: Op, first: bv64, acc: bv64, twice: bv8, t: nat)
    requires UsesFirst(op) && t < WORD
    ensures ByteOf(FinishWord(op, first, acc), t) == Finish(op, ByteOf(first, t), ByteOf(acc, t), twice)
  {
    hide And64, Not64, And8, Not8, ByteOf;
    AndNotBytes(first, acc, t);
    NotAndBytes(first, acc, t);
    AndBytes(first, acc, t);
  }

  lemma AndNotBytes(x: bv64, y: bv64, t: nat)
    requires t < WORD
    ensures ByteOf(And64(x, Not64(y)), t) == And8(ByteOf(x, t), Not8(ByteOf(y, t)))
  {
    hide And64, Not64, And8, Not8, ByteOf;
    NotBytes(y, t);
    AndBytes(x, Not64(y), t);
  }

  lemma NotAndBytes(x: bv64, y: bv64, t: nat)
    requires t < WORD
    ensures ByteOf(And64(Not64(x), y), t) == And8(Not8(ByteOf(x, t)), ByteOf(y, t))
  {
    hide And64, Not64, And8, Not8, ByteOf;
    NotBytes(x, t);
    AndBytes(Not64(x), y, t);
  }

  /** One more key for one word; for ONE also the bits seen twice. */
  method AccWord(op: Op, res: array<bv8>, off: nat, key: Key, common: bv64) returns (common': bv64)
    requires off + WORD <= res.Length && off + WORD <= |key|
    modifies res
    ensures forall x :: off <= x < off + WORD ==> res[x] == Step(op, old(res[x]), key[x])
    ensures forall t :: 0 <= t < WORD && op == ONE ==>
              ByteOf(common', t) == Or8(ByteOf(common, t), And8(old(res[off + t]), key[off + t]))
    ensures forall x :: 0 <= x < res.Length && !(off <= x < off + WORD) ==> res[x] == old(res[x])
  {
    hide ByteOf, Step, StepWord, And64, Or64, And8, Or8, LoadBytes;
    var a, b := Load(res[..], off), Load(key, off);
    ghost var was := res[..];
    common' := if op == ONE then Or64(common, And64(a, b)) else common;
    Store(res, off, StepWord(op, a, b));
    forall x | off <= x < off + WORD ensures res[x] == Step(op, was[x], key[x]) {
      LoadedBytes(was, off, WORD, x - off);
      LoadedBytes(key, off, WORD, x - off);
      StepWordBytes(op, a, b, x - off);
    }
    if op == ONE {
      forall t | 0 <= t < WORD ensures ByteOf(common', t) == Or8(ByteOf(common, t), And8(was[off + t], key[off + t])) {
        LoadedBytes(was, off, WORD, t);
        LoadedBytes(key, off, WORD, t);
        AndBytes(a, b, t);
        OrBytes(common, And64(a, b), t);
      }
    }
  }

  /** The last step of NOT and ONE on one word. */
  method SettleWord(op: Op, res: array<bv8>, off: nat, common: bv64)
    requires off + WORD <= res.Length && (op == NOT || op == ONE)
    modifies res
    ensures forall x :: off <= x < off + WORD ==>
              res[x] == if op == NOT then Not8(old(res[x])) else And8(old(res[x]), Not8(ByteOf(common, x - off)))
    ensures forall x :: 0 <= x < res.Length && !(off <= x < off + WORD) ==> res[x] == old(res[x])
  {
    hide ByteOf, And64, Not64, And8, Not8, LoadBytes;
    var a := Load(res[..], off);
    ghost var was := res[..];
    var w := if op == NOT then Not64(a) else And64(a, Not64(common));
    Store(res, off, w);
    forall x | off <= x < off + WORD
      ensures res[x] == if op == NOT then Not8(was[x]) else And8(was[x], Not8(ByteOf(common, x - off)))
    {
      var t := x - off;
      LoadedBytes(was, off, WORD, t);
      NotBytes(a, t);
      NotBytes(common, t);
      AndBytes(a, Not64(common), t);
    }
  }

  /** The last step of DIFF, DIFF1 and ANDOR on one word. */
  method CombineWord(op: Op, res: array<bv8>, off: nat, key: Key)
    requires off + WORD <= res.Length && off + WORD <= |key| && UsesFirst(op)
    modifies res
    ensures forall x :: off <= x < off + WORD ==> res[x] == Finish(op, key[x], old(res[x]), 0)
    ensures forall x :: 0 <= x < res.Length && !(off <= x < off + WORD) ==> res[x] == old(res[x])
  {
    hide ByteOf, Finish, FinishWord, LoadBytes;
    var a, first := Load(res[..], off), Load(key, off);
    ghost var was := res[..];
    Store(res, off, FinishWord(op, first, a));
    forall x | off <= x < off + WORD ensures res[x] == Finish(op, key[x], was[x], 0) {
      var t := x - off;
      LoadedBytes(was, off, WORD, t);
      LoadedBytes(key, off, WORD, t);
      FinishWordBytes(op, first, a, 0, t);
    }
  }

  // ---------------------------------------------------------------- blocks of four words

  predicate LongEnough(src: seq<Key>, n: nat) {
    forall i :: 0 <= i < |src| ==> |src[i]| >= n
  }

  /** The bits that the first `n` keys have twice, word by word. */
  ghost predicate CommonIs(common: seq<bv64>, src: seq<Key>, j: nat, q: nat, n: nat)
    requires |common| == 4 && q < 4 && 0 < n <= |src|
  {
    forall t :: 0 <= t < WORD ==> ByteOf(common[q], t) == TwiceAt(src, j + WORD * q + t, n)
  }

  ghost predicate CommonFrom(common: seq<bv64>, src: seq<Key>, j: nat, lo: nat, hi: nat, n: nat)
    requires |common| == 4 && hi <= 4 && 0 < n <= |src|
  {
    forall q :: lo <= q < hi ==> CommonIs(common, src, j, q, n)
  }

  /** One more key for one block. */
  method AccKey(op: Op, src: seq<Key>, res: array<bv8>, j: nat, i: nat, before: seq<bv64>) returns (common: seq<bv64>)
    requires 0 < i < |src| && j + BLOCK <= res.Length && LongEnough(src, j + BLOCK) && |before| == 4
    requires forall x :: j <= x < j + BLOCK ==> res[x] == AccAt(op, src, x, i)
    requires op == ONE ==> CommonFrom(before, src, j, 0, 4, i)
    modifies res
    ensures |common| == 4
    ensures forall x :: j <= x < j + BLOCK ==> res[x] == AccAt(op, src, x, i + 1)
    ensures op == ONE ==> CommonFrom(common, src, j, 0, 4, i + 1)
    ensures forall x :: 0 <= x < res.Length && !(j <= x < j + BLOCK) ==> res[x] == old(res[x])
  {
    hide AccAt, TwiceAt, ByteOf, Step, Or8, And8;
    common := before;
    for q := 0 to 4
      invariant |common| == 4
      invariant forall x :: j <= x < j + WORD * q ==> res[x] == AccAt(op, src, x, i + 1)
      invariant forall x :: j + WORD * q <= x < j + BLOCK ==> res[x] == AccAt(op, src, x, i)
      invariant op == ONE ==> CommonFrom(common, src, j, 0, q, i + 1)
      invariant op == ONE ==> CommonFrom(common, src, j, q, 4, i)
      invariant forall x :: 0 <= x < res.Length && !(j <= x < j + BLOCK) ==> res[x] == old(res[x])
    {
      var off := j + WORD * q;
      ghost var was := res[..];
      assert |src[i]| >= j + BLOCK;
      var c := AccWord(op, res, off, src[i], common[q]);
      forall x | off <= x < off + WORD ensures res[x] == AccAt(op, src, x, i + 1) {
        NextColumn(op, src, x, i);
        assert was[x] == AccAt(op, src, x, i);
      }
      if op == ONE {
        assert CommonIs(common, src, j, q, i);
        forall t | 0 <= t < WORD ensures ByteOf(c, t) == TwiceAt(src, off + t, i + 1) {
          NextColumn(op, src, off + t, i);
          assert was[off + t] == AccAt(op, src, off + t, i);
        }
        CommonUpdated(common, src, j, q, i, c);
      }
      common := common[q := c];
    }
  }

  lemma CommonUpdated(common: seq<bv64>, src: seq<Key>, j: nat, q: nat, i: nat, c: bv64)
    requires |common| == 4 && q < 4 && 0 < i < |src|
    requires forall t :: 0 <= t < WORD ==> ByteOf(c, t) == TwiceAt(src, j + WORD * q + t, i + 1)
    requires CommonFrom(common, src, j, 0, q, i + 1) && CommonFrom(common, src, j, q, 4, i)
    ensures CommonFrom(common[q := c], src, j, 0, q + 1, i + 1) && CommonFrom(common[q := c], src, j, q + 1, 4, i)
  {
    hide ByteOf, TwiceAt;
    var updated, n := common[q := c], i + 1;
    forall p | 0 <= p < q + 1 ensures CommonIs(updated, src, j, p, n) {
      if p < q { assert CommonIs(common, src, j, p, n); }
    }
    forall p | q + 1 <= p < 4 ensures CommonIs(updated, src, j, p, i) {
      assert CommonIs(common, src, j, p, i);
    }
  }

  /** All keys after the first are folded into one block. */
  method AccBlock(op: Op, src: seq<Key>, res: array<bv8>, j: nat) returns (common: seq<bv64>)
    requires src != [] && j + BLOCK <= res.Length && LongEnough(src, j + BLOCK)
    requires forall x :: j <= x < j + BLOCK ==> res[x] == AccAt(op, src, x, 1)
    modifies res
    ensures |common| == 4
    ensures forall x :: j <= x < j + BLOCK ==> res[x] == AccAt(op, src, x, |src|)
    ensures op == ONE ==> CommonFrom(common, src, j, 0, 4, |src|)
    ensures forall x :: 0 <= x < res.Length && !(j <= x < j + BLOCK) ==> res[x] == old(res[x])
  {
    hide AccAt, LongEnough, CommonFrom;
    common := [0, 0, 0, 0];
    NothingTwice(op, src, j);
    for i := 1 to |src|
      invariant |common| == 4
      invariant forall x :: j <= x < j + BLOCK ==> res[x] == AccAt(op, src, x, i)
      invariant op == ONE ==> CommonFrom(common, src, j, 0, 4, i)
      invariant forall x :: 0 <= x < res.Length && !(j <= x < j + BLOCK) ==> res[x] == old(res[x])
    {
      common := AccKey(op, src, res, j, i, common);
    }
  }

  lemma NothingTwice(op: Op, src: seq<Key>, j: nat)
    requires src != []
    ensures CommonFrom([0, 0, 0, 0], src, j, 0, 4, 1)
  {
    hide ByteOf, TwiceAt;
    forall q, t | 0 <= q < 4 && 0 <= t < WORD ensures ByteOf([0, 0, 0, 0][q], t) == TwiceAt(src, j + WORD * q + t, 1) {
      ZeroBytes(t);
      FirstColumn(op, src, j + WORD * q + t);
    }
  }

  method SettleBlock(op: Op, src: seq<Key>, res: array<bv8>, j: nat, common: seq<bv64>)
    requires src != [] && j + BLOCK <= res.Length && LongEnough(src, j + BLOCK) && |common| == 4
    requires (op == NOT || op == ONE)
    requires forall x :: j <= x < j + BLOCK ==> res[x] == AccAt(op, src, x, |src|)
    requires op == ONE ==> CommonFrom(common, src, j, 0, 4, |src|)
    modifies res
    ensures forall x :: j <= x < j + BLOCK ==> res[x] == ResultAt(op, src, x)
    ensures forall x :: 0 <= x < res.Length && !(j <= x < j + BLOCK) ==> res[x] == old(res[x])
  {
    hide AccAt, TwiceAt, ByteOf, ResultAt, Not8, And8;
    for q := 0 to 4
      invariant forall x :: j <= x < j + WORD * q ==> res[x] == ResultAt(op, src, x)
      invariant forall x :: j + WORD * q <= x < j + BLOCK ==> res[x] == AccAt(op, src, x, |src|)
      invariant forall x :: 0 <= x < res.Length && !(j <= x < j + BLOCK) ==> res[x] == old(res[x])
    {
      var off := j + WORD * q;
      ghost var was := res[..];
      SettleWord(op, res, off, common[q]);
      forall x | off <= x < off + WORD ensures res[x] == ResultAt(op, src, x) {
        assert was[x] == AccAt(op, src, x, |src|);
        assert op == ONE ==>
            && CommonIs(common, src, j, q, |src|)
            && ByteOf(common[q], x - off) == TwiceAt(src, j + WORD * q + (x - off), |src|);
        LastColumn(op, src, x);
      }
    }
  }

  /** The word path: it leaves fewer than 32 of the bytes that all keys have. */
  method WordPath(op: Op, src: seq<Key>, res: array<bv8>, minlen: nat) returns (j: nat)
    requires src != [] && LongEnough(src, minlen) && BLOCK <= minlen <= res.Length && (op == NOT ==> |src| == 1)
    requires forall x :: 0 <= x < res.Length ==> res[x] == 0
    modifies res
    ensures j <= minlen < j + BLOCK
    ensures forall x :: 0 <= x < j ==> res[x] == ResultAt(op, src, x)
  {
    hide AccAt, ResultAt, ByteOf, LongEnough, TwiceAt, CommonFrom;
    if !UsesFirst(op) {
      CopyFirst(src, res, minlen);
    }
    forall x | 0 <= x < minlen ensures res[x] == AccAt(op, src, x, 1) {
      FirstColumn(op, src, x);
      FirstLong(src, minlen);
    }
    j := 0;
    while minlen - j >= BLOCK
      invariant 0 <= j <= minlen && j % WORD == 0
      invariant forall x :: 0 <= x < j ==>
                  res[x] == if UsesFirst(op) then AccAt(op, src, x, |src|) else ResultAt(op, src, x)
      invariant forall x :: j <= x < minlen ==> res[x] == AccAt(op, src, x, 1)
    {
      Shorter(src, minlen, j + BLOCK);
      var common := AccBlock(op, src, res, j);
      if op == NOT || op == ONE {
        SettleBlock(op, src, res, j, common);
      } else if !UsesFirst(op) {
        forall x | j <= x < j + BLOCK ensures res[x] == ResultAt(op, src, x) {
          LastColumn(op, src, x);
        }
      }
      j := j + BLOCK;
    }
    if UsesFirst(op) {
      CombineAll(op, src, res, minlen, j);
    }
  }

  method CopyFirst(src: seq<Key>, res: array<bv8>, minlen: nat)
    requires src != [] && LongEnough(src, minlen) && minlen <= res.Length
    modifies res
    ensures forall x :: 0 <= x < minlen ==> res[x] == src[0][x]
    ensures forall x :: minlen <= x < res.Length ==> res[x] == old(res[x])
  {
    for x := 0 to minlen
      invariant forall k :: 0 <= k < x ==> res[k] == src[0][k]
      invariant forall k :: minlen <= k < res.Length ==> res[k] == old(res[k])
    {
      res[x] := src[0][x];
    }
  }

  /** The second pass of DIFF, DIFF1 and ANDOR. */
  method CombineAll(op: Op, src: seq<Key>, res: array<bv8>, minlen: nat, n: nat)
    requires src != [] && LongEnough(src, minlen) && n <= minlen <= res.Length && n % WORD == 0 && UsesFirst(op)
    requires forall x :: 0 <= x < n ==> res[x] == AccAt(op, src, x, |src|)
    modifies res
    ensures forall x :: 0 <= x < n ==> res[x] == ResultAt(op, src, x)
  {
    hide AccAt, ResultAt, LongEnough, TwiceAt, Finish;
    FirstLong(src, minlen);
    var i := 0;
    while i < n
      invariant 0 <= i <= n && i % WORD == 0
      invariant forall x :: 0 <= x < i ==> res[x] == ResultAt(op, src, x)
      invariant forall x :: i <= x < n ==> res[x] == AccAt(op, src, x, |src|)
    {
      ghost var was := res[..];
      CombineWord(op, res, i, src[0]);
      forall x | i <= x < i + WORD ensures res[x] == ResultAt(op, src, x) {
        assert was[x] == AccAt(op, src, x, |src|);
        LastColumn(op, src, x);
        FinishIgnoresTwice(op, src[0][x], was[x], TwiceAt(src, x, |src|));
      }
      i := i + WORD;
    }
  }

  lemma FinishIgnoresTwice(op: Op, first: bv8, acc: bv8, twice: bv8)
    requires UsesFirst(op)
    ensures Finish(op, first, acc, 0) == Finish(op, first, acc, twice)
  {
  }

  lemma FirstLong(src: seq<Key>, n: nat)
    requires src != [] && LongEnough(src, n)
    ensures |src[0]| >= n
  {
  }

  lemma Shorter(src: seq<Key>, n: nat, m: nat)
    requires LongEnough(src, n) && m <= n
    ensures LongEnough(src, m)
  {
  }

  // ---------------------------------------------------------------- the byte tail

  /** What the byte loop keeps for ONE: the bits seen exactly once. */
  function OnceAt(src: seq<Key>, x: nat, n: nat): bv8
    requires 0 < n <= |src|
  {
    And8(AccAt(ONE, src, x, n), Not8(TwiceAt(src, x, n)))
  }

  /** Masking at every step, as the byte loop does, gives the same as masking once at the end. */
  lemma MaskEveryStep(parity: bv8, twice: bv8, b: bv8)
    ensures var once := And8(parity, Not8(twice));
            var twice' := Or8(twice, And8(parity, b));
            && Or8(twice, And8(once, b)) == twice'
            && And8(Xor8(once, b), Not8(twice')) == And8(Xor8(parity, b), Not8(twice'))
  {
    hide And8, Or8, Xor8, Not8;
    SameTwice(parity, twice, b);
    SameOnce(parity, twice, b);
  }

  lemma SameTwice(parity: bv8, twice: bv8, b: bv8)
    ensures Or8(twice, And8(And8(parity, Not8(twice)), b)) == Or8(twice, And8(parity, b))
  {
    assert twice | ((parity & !twice) & b) == twice | (parity & b);
  }

  lemma SameOnce(parity: bv8, twice: bv8, b: bv8)
    ensures var twice' := Or8(twice, And8(parity, b));
            And8(Xor8(And8(parity, Not8(twice)), b), Not8(twice')) == And8(Xor8(parity, b), Not8(twice'))
  {
    assert ((parity & !twice) ^ b) & !(twice | (parity & b)) == (parity ^ b) & !(twice | (parity & b));
  }

  // When a loop stops early, the remaining keys cannot change the result.

  lemma {:induction false} AndStaysZero(src: seq<Key>, x: nat, n: nat)
    requires 0 < n <= |src| && AccAt(AND, src, x, n) == 0
    ensures AccAt(AND, src, x, |src|) == 0
    decreases |src| - n
  {
    hide AccAt, Or8;
    if n < |src| {
      NextColumn(AND, src, x, n);
      assert And8(0, ByteOrZero(src[n], x)) == 0;
      AndStaysZero(src, x, n + 1);
    }
  }

  lemma OrFull(b: bv8)
    ensures Or8(0xFF, b) == 0xFF
  {
  }

  lemma {:induction false} OrStaysFull(op: Op, src: seq<Key>, x: nat, n: nat)
    requires 0 < n <= |src| && (op == OR || UsesFirst(op)) && AccAt(op, src, x, n) == 0xFF
    ensures AccAt(op, src, x, |src|) == 0xFF
    decreases |src| - n
  {
    hide AccAt, And8, Or8;
    if n < |src| {
      NextColumn(op, src, x, n);
      OrFull(ByteOrZero(src[n], x));
      OrStaysFull(op, src, x, n + 1);
    }
  }

  lemma {:induction false} TwiceStaysFull(src: seq<Key>, x: nat, n: nat)
    requires 0 < n <= |src| && TwiceAt(src, x, n) == 0xFF
    ensures TwiceAt(src, x, |src|) == 0xFF
    decreases |src| - n
  {
    hide AccAt, TwiceAt, And8, Or8;
    if n < |src| {
      NextColumn(ONE, src, x, n);
      OrFull(And8(AccAt(ONE, src, x, n), ByteOrZero(src[n], x)));
      TwiceStaysFull(src, x, n + 1);
    }
  }

  lemma MaskedAway(a: bv8)
    ensures And8(a, Not8(0xFF)) == 0
  {
  }

  /** Which of its variables the byte loop keeps what in, after `n` keys. */
  ghost predicate TailState(op: Op, src: seq<Key>, x: nat, n: nat, output: bv8, disjunction: bv8, common: bv8)
    requires 0 < n <= |src|
  {
    if UsesFirst(op) then output == ByteOrZero(src[0], x) && disjunction == AccAt(op, src, x, n)
    else if op == ONE then output == OnceAt(src, x, n) && common == TwiceAt(src, x, n)
    else if op == NOT then output == Not8(AccAt(NOT, src, x, n))
    else output == AccAt(op, src, x, n)
  }

  lemma TailStart(op: Op, src: seq<Key>, x: nat)
    requires src != []
    ensures var b := ByteOrZero(src[0], x); TailState(op, src, x, 1, if op == NOT then Not8(b) else b, 0, 0)
  {
    hide AccAt, TwiceAt, ByteOrZero;
    FirstColumn(op, src, x);
  }

  lemma OneTailStep(src: seq<Key>, x: nat, n: nat)
    requires 0 < n < |src|
    ensures var b := ByteOrZero(src[n], x);
            && Or8(TwiceAt(src, x, n), And8(OnceAt(src, x, n), b)) == TwiceAt(src, x, n + 1)
            && And8(Xor8(OnceAt(src, x, n), b), Not8(TwiceAt(src, x, n + 1))) == OnceAt(src, x, n + 1)
  {
    hide AccAt, TwiceAt, ByteOrZero, And8, Or8, Xor8, Not8;
    NextColumn(ONE, src, x, n);
    MaskEveryStep(AccAt(ONE, src, x, n), TwiceAt(src, x, n), ByteOrZero(src[n], x));
  }

  /** Stopping early leaves what all keys would leave. */
  lemma TailStop(op: Op, src: seq<Key>, x: nat, n: nat, output: bv8, disjunction: bv8, common: bv8)
    requires 0 < n <= |src| && TailState(op, src, x, n, output, disjunction, common)
    requires op == AND ==> output == 0
    requires op == OR ==> output == 0xFF
    requires UsesFirst(op) ==> disjunction == 0xFF
    requires op == ONE ==> common == 0xFF
    requires op != XOR && op != NOT
    ensures TailState(op, src, x, |src|, output, disjunction, common)
  {
    hide AccAt, TwiceAt, ByteOrZero, And8, Not8;
    if op == AND { AndStaysZero(src, x, n); }
    else if op == ONE {
      TwiceStaysFull(src, x, n);
      MaskedAway(AccAt(ONE, src, x, n));
      MaskedAway(AccAt(ONE, src, x, |src|));
    } else { OrStaysFull(op, src, x, n); }
  }

  /** One byte of the tail, with its early exits. */
  method TailByte(op: Op, src: seq<Key>, x: nat) returns (r: bv8)
    requires src != [] && (op == NOT ==> |src| == 1)
    ensures r == ResultAt(op, src, x)
  {
    hide AccAt, TwiceAt, ByteOrZero, ResultAt, And8, Or8, Xor8, Not8;
    var output := ByteOrZero(src[0], x);
    if op == NOT { output := Not8(output); }
    var disjunction: bv8, common: bv8 := 0, 0;
    TailStart(op, src, x);
    var i := 1;
    while i < |src|
      invariant 1 <= i <= |src| && TailState(op, src, x, i, output, disjunction, common)
    {
      var skip := false;
      var b := ByteOrZero(src[i], x);
      NextColumn(op, src, x, i);
      OneTailStep(src, x, i);
      match op {
        case AND => output := And8(output, b); skip := output == 0;
        case OR => output := Or8(output, b); skip := output == 0xFF;
        case XOR => output := Xor8(output, b);
        case NOT =>
        case ONE =>
          common := Or8(common, And8(output, b));
          output := Xor8(output, b);
          output := And8(output, Not8(common));
          skip := common == 0xFF;
        case _ => disjunction := Or8(disjunction, b); skip := disjunction == 0xFF;
      }
      i := i + 1;
      if skip {
        TailStop(op, src, x, i, output, disjunction, common);
        i := |src|;
      }
    }
    LastColumn(op, src, x);
    match op {
      case DIFF => r := And8(output, Not8(disjunction));
      case DIFF1 => r := And8(Not8(output), disjunction);
      case ANDOR => r := And8(output, disjunction);
      case _ => r := output;
    }
  }

  // ---------------------------------------------------------------- the whole command

  method Lengths(src: seq<Key>) returns (maxlen: nat, minlen: nat)
    requires src != []
    ensures LongEnough(src, minlen) && forall i :: 0 <= i < |src| ==> |src[i]| <= maxlen
    ensures exists i :: 0 <= i < |src| && |src[i]| == maxlen
    ensures minlen <= maxlen
  {
    maxlen, minlen := |src[0]|, |src[0]|;
    for j := 1 to |src|
      invariant forall i :: 0 <= i < j ==> minlen <= |src[i]| <= maxlen
      invariant exists i :: 0 <= i < j && |src[i]| == maxlen
    {
      if |src[j]| > maxlen { maxlen := |src[j]|; }
      if |src[j]| < minlen { minlen := |src[j]|; }
    }
  }

  /** BITOP on the source strings: the result is as long as the longest of them. */
  method Run(op: Op, src: seq<Key>) returns (result: seq<bv8>)
    requires src != [] && (op == NOT ==> |src| == 1) && (UsesFirst(op) ==> |src| >= 2)
    ensures forall i :: 0 <= i < |src| ==> |src[i]| <= |result|
    ensures exists i :: 0 <= i < |src| && |src[i]| == |result|
    ensures forall x :: 0 <= x < |result| ==> result[x] == ResultAt(op, src, x)
  {
    hide ResultAt;
    var maxlen, minlen := Lengths(src);
    var res := new bv8[maxlen](i => 0);
    var j := 0;
    if minlen >= BLOCK {
      j := WordPath(op, src, res, minlen);
    }
    while j < maxlen
      invariant 0 <= j <= maxlen
      invariant forall x :: 0 <= x < j ==> res[x] == ResultAt(op, src, x)
    {
      var b := TailByte(op, src, j);
      res[j] := b;
      j := j + 1;
    }
    result := res[..];
  }

  /** Every bit of the result is the operation on that bit of the zero-extended keys. */
  lemma EveryBit(op: Op, src: seq<Key>, x: nat, m: bv8)
    requires src != [] && OneBit(m) && (op == NOT ==> |src| == 1)
    ensures Bit(ResultAt(op, src, x), m) == BitResult(op, Column(src, x, |src|), m)
  {
    hide Bit, OneBit, ByteResult, BitResult;
    ByteResultMeans(op, Column(src, x, |src|), m);
  }
}
