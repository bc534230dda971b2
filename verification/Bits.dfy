/** Bitwise operations on natural numbers, and powers of two. */
module Bits {
  function Pow2(k: nat): (r: nat)
    ensures r > 0
  {
    if k == 0 then 1 else 2 * Pow2(k - 1)
  }

  function Xor(a: nat, b: nat): nat
    decreases a + b
  {
    if a == 0 && b == 0 then 0 else (a + b) % 2 + 2 * Xor(a / 2, b / 2)
  }

  function And(a: nat, b: nat): nat {
    if a == 0 || b == 0 then 0 else (a % 2) * (b % 2) + 2 * And(a / 2, b / 2)
  }

  predicate IsPowerOfTwo(n: nat) {
    n > 0 && And(n, n - 1) == 0
  }

  /** The test `(n & (n - 1)) == 0` recognises the powers of two. */
  lemma {:induction false} PowerOfTwo(n: nat) returns (k: nat)
    requires IsPowerOfTwo(n)
    ensures n == Pow2(k)
  {
    if n == 1 {
      k := 0;
    } else {
      assert n % 2 == 0 by {
        if n % 2 == 1 {
          AndHalf(n, n - 1);
          AndSelf(n / 2);
        }
      }
      AndHalf(n, n - 1);
      assert (n - 1) / 2 == n / 2 - 1;
      var k' := PowerOfTwo(n / 2);
      k := k' + 1;
    }
  }

  lemma AndHalf(a: nat, b: nat)
    ensures And(a, b) == (a % 2) * (b % 2) + 2 * And(a / 2, b / 2)
  {
    if a == 0 || b == 0 { assert a / 2 == 0 || b / 2 == 0; }
  }

  lemma {:induction false} AndSelf(a: nat)
    ensures And(a, a) == a
  {
    if a != 0 { AndSelf(a / 2); }
  }

  lemma {:induction false} XorHalf(a: nat, b: nat)
    ensures Xor(a, b) == (a + b) % 2 + 2 * Xor(a / 2, b / 2)
    ensures Xor(a, b) % 2 == (a + b) % 2 && Xor(a, b) / 2 == Xor(a / 2, b / 2)
  {
    var h, x := Xor(a / 2, b / 2), Xor(a, b);
    if a == 0 && b == 0 {
      assert h == 0;
    } else {
      assert x == (a + b) % 2 + 2 * h;
    }
  }

  lemma HalfMod(x: nat, k: nat)
    requires k > 0
    ensures x % Pow2(k) == x % 2 + 2 * (x / 2 % Pow2(k - 1))
  {
    var m := Pow2(k - 1);
    var q, r := x / 2 / m, x / 2 % m;
    assert x == x % 2 + 2 * (q * m + r);
    assert x == q * (2 * m) + (x % 2 + 2 * r) by { assert 2 * (q * m) == q * (2 * m); }
    ModUnique(x, 2 * m, q, x % 2 + 2 * r);
  }

  lemma ModUnique(x: nat, m: nat, q: nat, r: nat)
    requires m > 0 && r < m && x == q * m + r
    ensures x % m == r && x / m == q
  {
    var e := x / m;
    assert x == e * m + x % m;
    if e > q {
      Grows(q, e, m);
    } else if e < q {
      Grows(e, q, m);
    }
  }

  lemma {:induction false} Grows(a: nat, b: nat, m: nat)
    requires a < b
    ensures a * m + m <= b * m
    decreases b - a
  {
    assert (a + 1) * m == a * m + m;
    if a + 1 < b {
      Grows(a + 1, b, m);
    }
  }

  /** Masking with `2^k - 1` is the remainder by `2^k`. */
  lemma {:induction false} AndMask(x: nat, k: nat)
    ensures And(x, Pow2(k) - 1) == x % Pow2(k)
  {
    if k > 0 {
      var m := Pow2(k) - 1;
      AndHalf(x, m);
      assert m % 2 == 1 && m / 2 == Pow2(k - 1) - 1;
      AndMask(x / 2, k - 1);
      HalfMod(x, k);
    }
  }

  lemma {:induction false} XorCancel(a: nat, b: nat)
    ensures Xor(Xor(a, b), b) == a
    decreases a + b
  {
    hide Xor;
    if a == 0 && b == 0 {
      XorZero();
    } else {
      var x := Xor(a, b);
      XorHalf(a, b);
      XorHalf(x, b);
      XorCancel(a / 2, b / 2);
      Parity(a + b, b, x, b);
      assert (a + b + b) % 2 == a % 2;
    }
  }

  lemma {:induction false} XorMod(a: nat, b: nat, k: nat)
    ensures Xor(a, b) % Pow2(k) == Xor(a % Pow2(k), b % Pow2(k))
    decreases k
  {
    hide Xor, Pow2;
    if k == 0 {
      XorZero();
      NoBits(a);
      NoBits(b);
      NoBits(Xor(a, b));
    } else {
      var x, y, q := a % Pow2(k), b % Pow2(k), Pow2(k - 1);
      HalfMod(Xor(a, b), k);
      HalfMod(a, k);
      HalfMod(b, k);
      XorHalf(a, b);
      XorHalf(x, y);
      XorMod(a / 2, b / 2, k - 1);
      LowAndRest(a % 2, a / 2 % q, x);
      LowAndRest(b % 2, b / 2 % q, y);
      Parity(a, b, x, y);
      calc {
        Xor(a, b) % Pow2(k);
        (a + b) % 2 + 2 * Xor(a / 2 % q, b / 2 % q);
        Xor(x, y);
      }
    }
  }

  lemma NoBits(x: nat)
    ensures x % Pow2(0) == 0
  {
  }

  lemma Parity(a: nat, b: nat, x: nat, y: nat)
    requires x % 2 == a % 2 && y % 2 == b % 2
    ensures (x + y) % 2 == (a + b) % 2
  {
  }

  lemma XorZero()
    ensures Xor(0, 0) == 0
  {
  }

  lemma LowAndRest(low: nat, rest: nat, x: nat)
    requires low < 2 && x == low + 2 * rest
    ensures x % 2 == low && x / 2 == rest
  {
  }
}
