/** `string2ll`: the strict reading of a signed 64-bit number. */
module Numbers {
  import opened Wrappers
  import opened Decimal

  const LONG_STR_SIZE := 21
  const LLONG_MAX := 0x7FFF_FFFF_FFFF_FFFF
  const ULLONG_MAX := 0xFFFF_FFFF_FFFF_FFFF

  /** Digits without a leading zero. */
  predicate PlainDigits(s: string) {
    s != [] && AllDigits(s) && s[0] != '0'
  }

  function String2ll(s: string): Option<int> {
    if s == [] || |s| >= LONG_STR_SIZE then None
    else if s == "0" then Some(0)
    else if s[0] == '-' then
      if PlainDigits(s[1..]) && Value(s[1..]) <= LLONG_MAX + 1 then Some(-(Value(s[1..]) as int)) else None
    else if PlainDigits(s) && Value(s) <= LLONG_MAX then Some(Value(s)) else None
  }

  lemma {:induction false} ValueGrows(s: string, n: nat)
    requires AllDigits(s) && n <= |s|
    ensures Value(s[..n]) <= Value(s)
    decreases |s| - n
  {
    if n == |s| {
      assert s[..n] == s;
    } else {
      ValueGrows(s, n + 1);
      assert s[..n + 1][..n] == s[..n];
    }
  }

  /** The digit loop with its overflow checks. */
  method ReadDigits(s: string) returns (r: Option<nat>)
    ensures r == if PlainDigits(s) && Value(s) <= ULLONG_MAX then Some(Value(s)) else None
  {
    if s == [] || !('1' <= s[0] <= '9') {
      return None;
    }
    var v: nat := s[0] as int - '0' as int;
    var k := 1;
    assert s[..1][..0] == [];
    while k < |s| && '0' <= s[k] <= '9'
      invariant 1 <= k <= |s| && AllDigits(s[..k]) && v == Value(s[..k]) <= ULLONG_MAX
    {
      assert s[..k + 1][..k] == s[..k];
      ghost var next := Value(s[..k]) * 10 + (s[k] as int - '0' as int);
      assert AllDigits(s[..k + 1]) && Value(s[..k + 1]) == next;
      if v > ULLONG_MAX / 10 {
        TooBig(s, k + 1);
        return None;
      }
      v := v * 10;
      if v > ULLONG_MAX - (s[k] as int - '0' as int) {
        TooBig(s, k + 1);
        return None;
      }
      v := v + (s[k] as int - '0' as int);
      k := k + 1;
    }
    if k < |s| {
      return None;
    }
    assert s[..k] == s;
    return Some(v);
  }

  lemma TooBig(s: string, n: nat)
    requires n <= |s| && AllDigits(s[..n]) && Value(s[..n]) > ULLONG_MAX
    ensures !(PlainDigits(s) && Value(s) <= ULLONG_MAX)
  {
    if PlainDigits(s) { ValueGrows(s, n); }
  }

  method ReadLongLong(s: string) returns (r: Option<int>)
    ensures r == String2ll(s)
  {
    if s == [] || |s| >= LONG_STR_SIZE {
      return None;
    }
    if |s| == 1 && s[0] == '0' {
      assert s == "0";
      return Some(0);
    }
    var negative := s[0] == '-';
    var v := ReadDigits(if negative then s[1..] else s);
    if v.None? {
      return None;
    }
    if negative {
      return if v.value > LLONG_MAX + 1 then None else Some(-(v.value as int));
    } else {
      return if v.value > LLONG_MAX then None else Some(v.value);
    }
  }

  lemma {:induction false} PrintIsPlain(n: nat)
    requires n > 0
    ensures PlainDigits(Print(n))
  {
    if n >= 10 {
      PrintIsPlain(n / 10);
      assert Print(n)[0] == Print(n / 10)[0];
    }
  }

  /** What is printed is read back. */
  lemma ReadsPrinted(n: nat)
    requires n <= LLONG_MAX
    ensures String2ll(Print(n)) == Some(n)
  {
    PrintWidth64(n);
    if n == 0 {
      assert Print(0) == "0";
    } else {
      PrintIsPlain(n);
      assert IsDigit(Print(n)[0]);
      NotZero(Print(n));
    }
  }

  lemma NotZero(s: string)
    requires PlainDigits(s)
    ensures s != "0" && s[0] != '-'
  {
    assert IsDigit(s[0]);
  }
}
