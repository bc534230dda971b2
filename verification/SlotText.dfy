/** Slot range arrays as text (`slotRangeArrayToString`, `slotRangeArrayFromString`). */
module SlotText {
  import opened Wrappers
  import opened Decimal
  import opened Numbers
  import opened Sds
  import opened SlotRanges

  function RangeText(r: Range): string {
    Print(r.start) + "-" + Print(r.end)
  }

  function Texts(rs: seq<Range>): seq<string> {
    if rs == [] then [] else [RangeText(rs[0])] + Texts(rs[1..])
  }

  /** Each range is printed with a space after it; the last space is then cut off. */
  method ToString(rs: seq<Range>) returns (s: string)
    ensures s == Join(Texts(rs))
  {
    hide RangeText;
    s := "";
    if rs == [] {
      return;
    }
    for i := 0 to |rs|
      invariant s == if i == 0 then "" else Join(Texts(rs[..i])) + " "
    {
      s := s + (RangeText(rs[i]) + " ");
      assert rs[..i + 1] == rs[..i] + [rs[i]];
      TextsGrow(rs[..i], rs[i]);
      if i > 0 { JoinAppend(Texts(rs[..i]), [RangeText(rs[i])]); }
    }
    assert rs[..|rs|] == rs;
    s := s[..|s| - 1];
  }

  lemma {:induction false} TextsGrow(rs: seq<Range>, r: Range)
    ensures Texts(rs + [r]) == Texts(rs) + [RangeText(r)]
    ensures rs != [] ==> Texts(rs) != []
  {
    hide RangeText;
    if rs == [] {
      assert rs + [r] == [r] && [r][1..] == [];
    } else {
      assert (rs + [r])[1..] == rs[1..] + [r];
      TextsGrow(rs[1..], r);
    }
  }

  function Dash(s: string): (n: nat)
    ensures n <= |s| && (forall i :: 0 <= i < n ==> s[i] != '-') && (n < |s| ==> s[n] == '-')
  {
    if s == [] || s[0] == '-' then 0 else 1 + Dash(s[1..])
  }

  /** Numbers are stored in 16 bits. */
  function Wrap16(x: int): nat {
    x % 0x1_0000
  }

  function ParseRange(s: string): Option<Range> {
    var n := Dash(s);
    if n == |s| then None
    else
      var start, end := String2ll(s[..n]), String2ll(s[n + 1..]);
      if start.None? || end.None? then None else Some(Range(Wrap16(start.value), Wrap16(end.value)))
  }

  /** Two printed numbers, however large, are read as what is left of them in 16 bits. */
  lemma PrintedRange(a: nat, b: nat)
    requires a <= LLONG_MAX && b <= LLONG_MAX
    ensures ParseRange(Print(a) + "-" + Print(b)) == Some(Range(a % 0x1_0000, b % 0x1_0000))
  {
    hide String2ll;
    var s := Print(a) + "-" + Print(b);
    DashFound(a, Print(b));
    assert s[..|Print(a)|] == Print(a) && s[|Print(a)| + 1..] == Print(b);
    ReadsPrinted(a);
    ReadsPrinted(b);
  }

  lemma DashFound(a: nat, rest: string)
    ensures Dash(Print(a) + "-" + rest) == |Print(a)|
  {
    var s, n := Print(a) + "-" + rest, Dash(Print(a) + "-" + rest);
    assert s[|Print(a)|] == '-';
    assert forall i :: 0 <= i < |Print(a)| ==> s[i] == Print(a)[i] && IsDigit(Print(a)[i]);
  }

  function ParseRanges(parts: seq<string>): Option<seq<Range>> {
    if parts == [] then Some([])
    else
      var r := ParseRange(parts[0]);
      var rest := ParseRanges(parts[1..]);
      if r.None? || rest.None? then None else Some([r.value] + rest.value)
  }

  /** What reading a text gives, up to the order the sort leaves equal starts in. */
  ghost predicate Reads(text: string, r: Option<seq<Range>>) {
    if text == [] then r == None
    else
      var parsed := ParseRanges(SplitSpaces(text, ""));
      if parsed.None? || |parsed.value| >= CLUSTER_SLOTS then r == None
      else exists sorted :: IsSortOf(sorted, parsed.value) && r == if Good(Merge(sorted)) then Some(Merge(sorted))
        else None
  }

  method FromString(text: string) returns (r: Option<seq<Range>>)
    ensures Reads(text, r)
  {
    hide Good, Merge, IsSortOf, SplitSpaces;
    var parts := SplitLen(text);
    if text == [] {
      return None;
    }
    PartsNotEmpty(text, "");
    var a := new Range[|parts|](i => Range(0, 0));
    for i := 0 to |parts|
      invariant a.Length == |parts|
      invariant ParseRanges(parts[..i]) == Some(a[..i])
    {
      var dash := Dash(parts[i]);
      PrefixParse(parts, i);
      if dash == |parts[i]| {
        return None;
      }
      var start := ReadLongLong(parts[i][..dash]);
      var end := ReadLongLong(parts[i][dash + 1..]);
      if start.None? || end.None? {
        return None;
      }
      a[i] := Range(Wrap16(start.value), Wrap16(end.value));
      assert a[..i + 1] == a[..i] + [a[i]];
    }
    assert parts[..|parts|] == parts && a[..|parts|] == a[..];
    var ok, m, sorted := NormalizeAndValidate(a, |parts|);
    if !ok {
      return None;
    }
    return Some(a[..m]);
  }

  lemma {:induction false} PartsNotEmpty(s: string, cur: string)
    ensures SplitSpaces(s, cur) != []
    decreases |s|
  {
    if s != [] && s[0] != ' ' { PartsNotEmpty(s[1..], cur + [s[0]]); }
  }

  lemma {:induction false} ParseAppend(a: seq<string>, b: seq<string>)
    ensures ParseRanges(a + b) == var x, y := ParseRanges(a), ParseRanges(b);
                                  if x.None? || y.None? then None else Some(x.value + y.value)
  {
    hide ParseRange;
    if a == [] {
      assert a + b == b;
      var none: seq<Range> := [];
      assert ParseRanges(b).Some? ==> none + ParseRanges(b).value == ParseRanges(b).value;
    } else {
      assert (a + b)[0] == a[0] && (a + b)[1..] == a[1..] + b;
      ParseAppend(a[1..], b);
      var r, x, y := ParseRange(a[0]), ParseRanges(a[1..]), ParseRanges(b);
      if r.Some? && x.Some? && y.Some? {
        assert [r.value] + (x.value + y.value) == ([r.value] + x.value) + y.value;
      }
    }
  }

  lemma ParseOne(part: string)
    ensures ParseRanges([part]) == var r := ParseRange(part); if r.None? then None else Some([r.value])
  {
    hide ParseRange;
    assert [part][1..] == [];
    var r := ParseRange(part);
    if r.Some? { assert [r.value] + [] == [r.value]; }
  }

  /** A part that does not parse spoils the whole; one that does adds its range. */
  lemma PrefixParse(parts: seq<string>, i: nat)
    requires i < |parts|
    ensures ParseRanges(parts[..i + 1]) == var x, y := ParseRanges(parts[..i]), ParseRange(parts[i]);
                                           if x.None? || y.None? then None else Some(x.value + [y.value])
    ensures ParseRange(parts[i]).None? ==> ParseRanges(parts).None?
  {
    hide ParseRange, ParseRanges;
    var one := [parts[i]];
    ParseOne(parts[i]);
    assert parts[..i + 1] == parts[..i] + one;
    ParseAppend(parts[..i], one);
    assert parts == parts[..i + 1] + parts[i + 1..];
    ParseAppend(parts[..i + 1], parts[i + 1..]);
  }

  // ---------------------------------------------------------------- the round trip

  lemma DigitsNoDash(s: string)
    requires AllDigits(s)
    ensures '-' !in s && ' ' !in s
  {
    assert forall i :: 0 <= i < |s| ==> IsDigit(s[i]);
  }

  lemma ReadsRange(r: Range)
    requires r.start < 0x1_0000 && r.end < 0x1_0000
    ensures ParseRange(RangeText(r)) == Some(r) && ' ' !in RangeText(r)
  {
    hide String2ll, Print, Value;
    var a, b := Print(r.start), Print(r.end);
    var s := RangeText(r);
    DigitsNoDash(a);
    DigitsNoDash(b);
    assert s[|a|] == '-' && forall i :: 0 <= i < |a| ==> s[i] == a[i];
    assert Dash(s) == |a|;
    assert s[..|a|] == a && s[|a| + 1..] == b;
    ReadsPrinted(r.start);
    ReadsPrinted(r.end);
  }

  lemma {:induction false} ReadsTexts(rs: seq<Range>)
    requires forall i :: 0 <= i < |rs| ==> rs[i].start < 0x1_0000 && rs[i].end < 0x1_0000
    ensures ParseRanges(Texts(rs)) == Some(rs) && |Texts(rs)| == |rs|
    ensures forall i :: 0 <= i < |Texts(rs)| ==> ' ' !in Texts(rs)[i]
  {
    hide RangeText, ParseRange;
    if rs != [] {
      ReadsRange(rs[0]);
      ReadsTexts(rs[1..]);
      assert Texts(rs)[1..] == Texts(rs[1..]);
      assert rs == [rs[0]] + rs[1..];
    }
  }

  /** The gaps leave room for at most half of the slots. */
  lemma {:induction false} CanonicalIsShort(rs: seq<Range>, i: nat)
    requires Canonical(rs) && i < |rs|
    ensures 2 * i <= rs[i].start
  {
    if i > 0 {
      CanonicalIsShort(rs, i - 1);
      assert WellFormed(rs[i - 1]);
    }
  }

  lemma CanonicalIsGood(rs: seq<Range>)
    requires Canonical(rs)
    ensures Good(rs) && Sorted(rs)
  {
    forall i, j | 0 <= i < j < |rs| ensures Apart(rs[i], rs[j]) && rs[i].start <= rs[j].start {
      CanonicalOrder(rs, i, j);
      assert WellFormed(rs[i]);
    }
  }

  /** Printing a canonical array and reading the text gives the array back. */
  lemma TextRoundTrip(rs: seq<Range>, r: Option<seq<Range>>)
    requires Canonical(rs) && rs != [] && Reads(Join(Texts(rs)), r)
    ensures r == Some(rs)
  {
    hide Join, SplitSpaces, Texts, Good, Merge, IsSortOf, ParseRanges, Canonical, NoInvertedAdjoins;
    var text := Join(Texts(rs));
    CanonicalBounds(rs);
    ReadsTexts(rs);
    SplitOfJoin(Texts(rs));
    SplitNotEmpty(text, Texts(rs));
    CanonicalIsGood(rs);
    GoodNotInverted(rs);
    var sorted :| IsSortOf(sorted, rs) && r == if Good(Merge(sorted)) then Some(Merge(sorted)) else None;
    NormalizationIsExact(rs, sorted);
    CanonicalIsUnique(Merge(sorted), rs);
  }

  lemma CanonicalBounds(rs: seq<Range>)
    requires Canonical(rs) && rs != []
    ensures |rs| < CLUSTER_SLOTS && forall i :: 0 <= i < |rs| ==> rs[i].start < 0x1_0000 && rs[i].end < 0x1_0000
  {
    CanonicalIsShort(rs, |rs| - 1);
    forall i | 0 <= i < |rs| ensures rs[i].start < 0x1_0000 && rs[i].end < 0x1_0000 {
      assert WellFormed(rs[i]);
    }
    assert WellFormed(rs[|rs| - 1]);
  }

  lemma SplitNotEmpty(text: string, ts: seq<string>)
    requires SplitSpaces(text, "") == ts && ParseRanges(ts).Some? && ts != []
    ensures text != []
  {
    ParseOne("");
  }
}
