/** Decimal text of natural numbers: what `ll2string` and "%lld" print and what `atoi`,
    `atoll` and `strtol` read back. Bytes are modelled as characters throughout. */
module Decimal {

  predicate IsDigit(c: char) {
    '0' <= c <= '9'
  }

  predicate AllDigits(s: string) {
    forall i :: 0 <= i < |s| ==> IsDigit(s[i])
  }

  function Print(n: nat): (s: string)
    ensures |s| > 0 && AllDigits(s)
    ensures Value(s) == n
  {
    if n < 10 then [('0' as int + n) as char]
    else
      var hi := Print(n / 10);
      var s := hi + [('0' as int + n % 10) as char];
      assert s[..|s| - 1] == hi;
      s
  }

  /** The number a string of digits denotes. */
  function Value(s: string): nat
    requires AllDigits(s)
  {
    if s == [] then 0 else Value(s[..|s| - 1]) * 10 + (s[|s| - 1] as int - '0' as int)
  }

  /** How many leading characters are digits. */
  function DigitRun(s: string): (n: nat)
    ensures n <= |s| && AllDigits(s[..n])
    ensures n < |s| ==> !IsDigit(s[n])
  {
    if s == [] || !IsDigit(s[0]) then 0 else 1 + DigitRun(s[1..])
  }

  predicate IsSpace(c: char) {
    c == ' ' || '\t' <= c <= '\r'
  }

  /** C's `atoi`, `atoll` and `strtol(.., 10)` without overflow: white space, a sign, then digits. */
  function Atoi(s: string): int {
    if s == [] then 0
    else if IsSpace(s[0]) then Atoi(s[1..])
    else if s[0] == '-' then -(Value(s[1..][..DigitRun(s[1..])]) as int)
    else if s[0] == '+' then Value(s[1..][..DigitRun(s[1..])])
    else Value(s[..DigitRun(s)])
  }

  lemma {:induction false} DigitRunStops(ds: string, rest: string)
    requires AllDigits(ds)
    requires rest == [] || !IsDigit(rest[0])
    ensures DigitRun(ds + rest) == |ds|
  {
    if ds == [] {
      assert ds + rest == rest;
    } else {
      assert (ds + rest)[1..] == ds[1..] + rest;
      DigitRunStops(ds[1..], rest);
    }
  }

  /** Reading a run of digits that is followed by something else gives the run's value. */
  lemma AtoiOfDigits(ds: string, rest: string)
    requires AllDigits(ds) && ds != []
    requires rest == [] || !IsDigit(rest[0])
    ensures Atoi(ds + rest) == Value(ds)
  {
    DigitRunStops(ds, rest);
    assert (ds + rest)[..|ds|] == ds;
  }

  /** Printing loses nothing: a printed number followed by a non-digit is read back exactly. */
  lemma PrintRoundTrip(n: nat, rest: string)
    requires rest == [] || !IsDigit(rest[0])
    ensures Atoi(Print(n) + rest) == n
  {
    AtoiOfDigits(Print(n), rest);
  }

  function Pow10(k: nat): (p: nat)
    ensures p >= 1
  {
    if k == 0 then 1 else 10 * Pow10(k - 1)
  }

  lemma {:induction false} PrintWidth(n: nat, k: nat)
    requires n < Pow10(k) && k >= 1
    ensures |Print(n)| <= k
  {
    if n >= 10 {
      PrintWidth(n / 10, k - 1);
    }
  }

  /** Every value of a C `long long` prints in at most 19 digits. */
  lemma PrintWidth64(n: nat)
    requires n < 0x8000_0000_0000_0000
    ensures |Print(n)| <= 19
  {
    assert Pow10(5) == 100_000;
    assert Pow10(10) == 10_000_000_000;
    assert Pow10(15) == 1_000_000_000_000_000;
    assert Pow10(19) == 10_000_000_000_000_000_000;
    PrintWidth(n, 19);
  }
}
