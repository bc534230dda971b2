/** The append-only file as bytes: how a command is written (`catAppendOnlyGenericCommand`)
    and how one entry is read back with `fgets` and `fread` (`loadSingleAppendOnlyFile`). */
module AofCodec {
  import opened Decimal

  type Argv = seq<string>

  const ANNOTATION_LINE_MAX := 1024

  /** The bounds that C's `int argc` and `long` string lengths impose. */
  predicate Encodable(argv: Argv) {
    && 1 <= |argv| < 0x8000_0000
    && forall j :: 0 <= j < |argv| ==> |argv[j]| < 0x8000_0000_0000_0000
  }

  // ---------------------------------------------------------------- writing

  function EncodeBulk(a: string): string {
    "$" + Print(|a|) + "\r\n" + a + "\r\n"
  }

  function EncodeBulks(argv: Argv): string {
    if argv == [] then "" else EncodeBulk(argv[0]) + EncodeBulks(argv[1..])
  }

  function EncodeCommand(argv: Argv): string {
    "*" + Print(|argv|) + "\r\n" + EncodeBulks(argv)
  }

  lemma {:induction false} EncodeBulksAppend(xs: Argv, ys: Argv)
    ensures EncodeBulks(xs + ys) == EncodeBulks(xs) + EncodeBulks(ys)
  {
    if xs == [] {
      assert xs + ys == ys;
    } else {
      assert (xs + ys)[1..] == xs[1..] + ys;
      EncodeBulksAppend(xs[1..], ys);
    }
  }

  method CatAppendOnlyGenericCommand(dst: string, argv: Argv) returns (out: string)
    ensures out == dst + EncodeCommand(argv)
  {
    var header := "*" + Print(|argv|) + "\r\n";
    out := dst + header;
    for j := 0 to |argv|
      invariant out == dst + header + EncodeBulks(argv[..j])
    {
      ghost var before := out;
      var size := "$" + Print(|argv[j]|) + "\r\n";
      out := out + size;
      out := out + argv[j];
      out := out + "\r\n";
      PiecesAppended(before, size, argv[j], "\r\n");
      BulksGrow(argv, j);
      assert out == dst + header + EncodeBulks(argv[..j + 1]);
    }
    assert argv[..|argv|] == argv;
  }

  lemma PiecesAppended(before: string, header: string, a: string, end: string)
    ensures before + header + a + end == before + (header + a + end)
  {
  }

  lemma BulksGrow(argv: Argv, j: nat)
    requires j < |argv|
    ensures EncodeBulks(argv[..j + 1]) == EncodeBulks(argv[..j]) + EncodeBulk(argv[j])
  {
    assert argv[..j + 1] == argv[..j] + [argv[j]];
    EncodeBulksAppend(argv[..j], [argv[j]]);
    assert EncodeBulks([argv[j]]) == EncodeBulk(argv[j]) + EncodeBulks([]);
  }

  // ---------------------------------------------------------------- reading

  /** How much `fgets` takes: through the first newline, at most `max` bytes. */
  function LineLength(s: string, max: nat): (n: nat)
    ensures n <= |s| && n <= max
    ensures s != [] && max > 0 ==> n > 0
  {
    if s == [] || max == 0 then 0
    else if s[0] == '\n' then 1
    else 1 + LineLength(s[1..], max - 1)
  }

  function Fgets(s: string): (line: string)
    requires s != []
    ensures 0 < |line| <= |s| && line == s[..|line|]
  {
    s[..LineLength(s, ANNOTATION_LINE_MAX - 1)]
  }

  /** Whether reading that line ran into the end of the file. */
  predicate HitEof(s: string, line: string) {
    |line| == |s| < ANNOTATION_LINE_MAX - 1 && (line == [] || line[|line| - 1] != '\n')
  }

  datatype Bulk = Bulk(arg: string, rest: string) | BulkEof | BulkBad | BulkAbort

  function ReadBulk(s: string): (r: Bulk)
    ensures r.Bulk? ==> |r.rest| < |s|
  {
    if s == [] then BulkEof
    else
      var line := Fgets(s);
      if line[0] != '$' then BulkBad
      else
        var len := Atoi(line[1..]);
        var body := s[|line|..];
        if len < 0 then BulkAbort
        else if |body| < len || |body| - len < 2 then BulkEof
        else Bulk(body[..len], body[len + 2..])
  }

  datatype Args = Args(argv: Argv, rest: string) | ArgsEof | ArgsBad | ArgsAbort

  function ReadArgs(s: string, n: nat): (r: Args)
    ensures r.Args? ==> |r.rest| <= |s| && |r.argv| == n
    decreases n
  {
    if n == 0 then Args([], s)
    else
      match ReadBulk(s)
      case BulkEof => ArgsEof
      case BulkBad => ArgsBad
      case BulkAbort => ArgsAbort
      case Bulk(arg, rest) =>
        var more := ReadArgs(rest, n - 1);
        if more.Args? then Args([arg] + more.argv, more.rest) else more
  }

  /** What the loader meets at one position of the file. */
  datatype Entry =
    | Eof
    | Annotation(rest: string)
    | Command(argv: Argv, rest: string)
    | ShortRead(feof: bool)
    | BadFormat
    | Abort

  function ReadEntry(s: string): (e: Entry)
    ensures e.Annotation? ==> |e.rest| < |s|
    ensures e.Command? ==> |e.rest| < |s| && |e.argv| > 0
    ensures e.Eof? <==> s == []
  {
    if s == [] then Eof
    else
      var line := Fgets(s);
      if line[0] == '#' then Annotation(s[|line|..])
      else if line[0] != '*' then BadFormat
      else if |line| == 1 || line[1] == '\0' then ShortRead(HitEof(s, line))
      else
        var argc := Atoi(line[1..]);
        if argc < 1 then BadFormat
        else
          match ReadArgs(s[|line|..], argc)
          case ArgsEof => ShortRead(true)
          case ArgsBad => BadFormat
          case ArgsAbort => Abort
          case Args(argv, rest) => Command(argv, rest)
  }

  // ---------------------------------------------------------------- lines

  lemma {:induction false} LineStopsAtNewline(body: string, rest: string, max: nat)
    requires '\n' !in body && |body| < max
    ensures LineLength(body + "\n" + rest, max) == |body| + 1
  {
    var s := body + "\n" + rest;
    if body != [] {
      assert s[1..] == body[1..] + "\n" + rest;
      LineStopsAtNewline(body[1..], rest, max - 1);
    }
  }

  lemma {:induction false} LineWithoutNewline(body: string, max: nat)
    requires '\n' !in body && |body| <= max
    ensures LineLength(body, max) == |body|
  {
    if body != [] {
      LineWithoutNewline(body[1..], max - 1);
    }
  }

  /** A complete "<tag><number>\r\n" header is read as one line and its number comes back. */
  lemma HeaderLine(tag: char, n: nat, rest: string)
    requires tag != '\n' && n < 0x8000_0000_0000_0000
    ensures var header := [tag] + Print(n) + "\r\n";
            Fgets(header + rest) == header && Atoi(header[1..]) == n && |header| >= 3
  {
    PrintWidth64(n);
    var body := [tag] + Print(n) + "\r";
    var header := [tag] + Print(n) + "\r\n";
    LineStopsAtNewline(body, rest, ANNOTATION_LINE_MAX - 1);
    assert header + rest == body + "\n" + rest;
    assert (header + rest)[..|header|] == header;
    assert header[1..] == Print(n) + "\r\n";
    PrintRoundTrip(n, "\r\n");
  }

  lemma ReadBulkWhole(a: string, rest: string)
    requires |a| < 0x8000_0000_0000_0000
    ensures ReadBulk(EncodeBulk(a) + rest) == Bulk(a, rest)
  {
    var header := "$" + Print(|a|) + "\r\n";
    var body := a + "\r\n" + rest;
    assert EncodeBulk(a) + rest == header + body;
    HeaderLine('$', |a|, body);
    assert (header + body)[|header|..] == body;
    assert body[..|a|] == a && body[|a| + 2..] == rest;
  }

  lemma {:induction false} ReadArgsWhole(argv: Argv, rest: string)
    requires forall j :: 0 <= j < |argv| ==> |argv[j]| < 0x8000_0000_0000_0000
    ensures ReadArgs(EncodeBulks(argv) + rest, |argv|) == Args(argv, rest)
  {
    hide ReadBulk, EncodeBulk;
    if argv == [] {
      assert EncodeBulks(argv) + rest == rest;
    } else {
      var tail := EncodeBulks(argv[1..]) + rest;
      assert EncodeBulks(argv) + rest == EncodeBulk(argv[0]) + tail;
      ReadBulkWhole(argv[0], tail);
      ReadArgsWhole(argv[1..], rest);
    }
  }

  /** Round trip: an encoded command followed by anything is read back exactly. */
  lemma ReadCommandWhole(argv: Argv, rest: string)
    requires Encodable(argv)
    ensures ReadEntry(EncodeCommand(argv) + rest) == Command(argv, rest)
  {
    var header := "*" + Print(|argv|) + "\r\n";
    var body := EncodeBulks(argv) + rest;
    assert EncodeCommand(argv) + rest == header + body;
    HeaderLine('*', |argv|, body);
    assert (header + body)[|header|..] == body;
    assert header[1] == Print(|argv|)[0];
    ReadArgsWhole(argv, rest);
  }

  // ---------------------------------------------------------------- cuts

  lemma {:induction false} PrefixValue(ds: string, k: nat)
    requires AllDigits(ds) && k <= |ds|
    ensures Value(ds[..k]) <= Value(ds)
  {
    if k < |ds| {
      PrefixValue(ds[..|ds| - 1], k);
      assert ds[..|ds| - 1][..k] == ds[..k];
    } else {
      assert ds[..k] == ds;
    }
  }

  /** A header cut short still reads as one line, whose number is at most the real one. */
  lemma CutHeaderLine(tag: char, n: nat, k: nat)
    requires tag != '\n' && n < 0x8000_0000_0000_0000
    requires 1 <= k < |[tag] + Print(n) + "\r\n"|
    ensures var cut := ([tag] + Print(n) + "\r\n")[..k];
            Fgets(cut) == cut && 0 <= Atoi(cut[1..]) <= n && HitEof(cut, cut)
  {
    PrintWidth64(n);
    var ds := Print(n);
    var cut := ([tag] + ds + "\r\n")[..k];
    LineWithoutNewline(cut, ANNOTATION_LINE_MAX - 1);
    if k == 1 {
      assert cut[1..] == [];
    } else if k <= 1 + |ds| {
      assert cut[1..] == ds[..k - 1] + [];
      AtoiOfDigits(ds[..k - 1], []);
      PrefixValue(ds, k - 1);
    } else {
      assert cut[1..] == ds + "\r";
      AtoiOfDigits(ds, "\r");
    }
  }

  lemma ReadBulkCut(a: string, k: nat)
    requires |a| < 0x8000_0000_0000_0000 && k < |EncodeBulk(a)|
    ensures ReadBulk(EncodeBulk(a)[..k]) == BulkEof
  {
    var header := "$" + Print(|a|) + "\r\n";
    var cut := EncodeBulk(a)[..k];
    if 0 < k < |header| {
      assert cut == header[..k];
      CutHeaderLine('$', |a|, k);
    } else if k >= |header| {
      var body := (a + "\r\n")[..k - |header|];
      assert cut == header + body;
      HeaderLine('$', |a|, body);
      assert cut[|header|..] == body;
    }
  }

  lemma {:induction false} ReadArgsCut(argv: Argv, k: nat)
    requires forall j :: 0 <= j < |argv| ==> |argv[j]| < 0x8000_0000_0000_0000
    requires k < |EncodeBulks(argv)|
    ensures ReadArgs(EncodeBulks(argv)[..k], |argv|) == ArgsEof
  {
    var first := EncodeBulk(argv[0]);
    var cut := EncodeBulks(argv)[..k];
    if k < |first| {
      assert cut == first[..k];
      ReadBulkCut(argv[0], k);
    } else {
      var tail := EncodeBulks(argv[1..])[..k - |first|];
      assert cut == first + tail;
      ReadBulkWhole(argv[0], tail);
      ReadArgsCut(argv[1..], k - |first|);
    }
  }

  lemma ReadCommandCutInHeader(n: nat, k: nat)
    requires 0 < n < 0x8000_0000_0000_0000
    requires 0 < k < |"*" + Print(n) + "\r\n"|
    ensures ReadEntry(("*" + Print(n) + "\r\n")[..k]) == ShortRead(true)
  {
    var cut := ("*" + Print(n) + "\r\n")[..k];
    CutHeaderLine('*', n, k);
    if k > 1 {
      assert cut[1] == Print(n)[0];
      CutCountIsPositive(n, k);
      assert cut[|cut|..] == [];
      assert ReadArgs([], Atoi(cut[1..])) == ArgsEof;
    }
  }

  /** A command cut anywhere strictly inside is always met as an unexpected end of file,
      never as a shorter command and never as a format error. */
  lemma ReadCommandCut(argv: Argv, k: nat)
    requires Encodable(argv) && 0 < k < |EncodeCommand(argv)|
    ensures ReadEntry(EncodeCommand(argv)[..k]) == ShortRead(true)
  {
    var header := "*" + Print(|argv|) + "\r\n";
    var cut := EncodeCommand(argv)[..k];
    if k < |header| {
      assert cut == header[..k];
      ReadCommandCutInHeader(|argv|, k);
    } else {
      var body := EncodeBulks(argv)[..k - |header|];
      assert cut == header + body;
      HeaderLine('*', |argv|, body);
      assert cut[|header|..] == body && cut[1] == Print(|argv|)[0];
      ReadArgsCut(argv, k - |header|);
    }
  }

  lemma {:induction false} PrintLeadingDigit(n: nat)
    requires n > 0
    ensures Print(n)[0] != '0'
  {
    if n >= 10 {
      PrintLeadingDigit(n / 10);
    }
  }

  lemma {:induction false} LeadingDigitValue(ds: string)
    requires AllDigits(ds) && ds != [] && ds[0] != '0'
    ensures Value(ds) > 0
  {
    if |ds| == 1 {
      assert Value(ds[..0]) == 0;
    } else {
      LeadingDigitValue(ds[..|ds| - 1]);
    }
  }

  lemma CutCountIsPositive(n: nat, k: nat)
    requires 0 < n < 0x8000_0000_0000_0000
    requires 2 <= k < |"*" + Print(n) + "\r\n"|
    ensures Atoi(("*" + Print(n) + "\r\n")[..k][1..]) >= 1
  {
    var ds := Print(n);
    var cut := ("*" + ds + "\r\n")[..k][1..];
    PrintLeadingDigit(n);
    if k <= 1 + |ds| {
      assert cut == ds[..k - 1] + [];
      AtoiOfDigits(ds[..k - 1], []);
      LeadingDigitValue(ds[..k - 1]);
    } else {
      assert cut == ds + "\r";
      AtoiOfDigits(ds, "\r");
    }
  }
}
