/** The manifest that lists the append-only files: its text form, how it is read back, and how a
    rewrite changes it. */
module AofManifest {
  import opened Wrappers
  import opened Decimal
  import opened Sds
  import AofCodec

  datatype Result<T> = Ok(value: T) | Err(message: string)

  datatype FileType = Base | History | Incr

  /** An offset of -1 means that it is not known. */
  datatype AofInfo = AofInfo(name: string, num: int, ftype: FileType, startOffset: int, endOffset: int)

  datatype Manifest = Manifest(
    base: Option<AofInfo>,
    history: seq<AofInfo>,
    incr: seq<AofInfo>,
    currBase: int,
    currIncr: int,
    dirty: bool)

  const EmptyManifest := Manifest(None, [], [], 0, 0, false)

  const MAX_LINE := 1024
  const INT64_LIMIT := 0x8000_0000_0000_0000

  // ---------------------------------------------------------------- text form

  function TypeChar(t: FileType): char {
    match t
    case Base => 'b'
    case History => 'h'
    case Incr => 'i'
  }

  /** Words, each preceded by a space. */
  function Spaced(words: seq<string>): string {
    if words == [] then "" else " " + words[0] + Spaced(words[1..])
  }

  /** The words that follow the file name on a manifest line. */
  function InfoWords(ai: AofInfo): seq<string>
    requires ai.num >= 0 && ai.startOffset >= -1 && ai.endOffset >= -1
  {
    ["seq", Print(ai.num), "type", [TypeChar(ai.ftype)]]
    + (if ai.startOffset == -1 then []
       else ["startoffset", Print(ai.startOffset)]
            + if ai.endOffset == -1 then [] else ["endoffset", Print(ai.endOffset)])
  }

  function FormatInfo(ai: AofInfo): string
    requires ai.num >= 0 && ai.startOffset >= -1 && ai.endOffset >= -1
  {
    "file " + Repr(ai.name) + Spaced(InfoWords(ai)) + "\n"
  }

  predicate Formattable(ai: AofInfo) {
    ai.num >= 0 && ai.startOffset >= -1 && ai.endOffset >= -1
  }

  predicate AllFormattable(infos: seq<AofInfo>) {
    forall i :: 0 <= i < |infos| ==> Formattable(infos[i])
  }

  function FormatInfos(infos: seq<AofInfo>): string
    requires AllFormattable(infos)
  {
    if infos == [] then "" else FormatInfo(infos[0]) + FormatInfos(infos[1..])
  }

  /** The files in manifest order: BASE, then HISTORY, then INCR. */
  function Files(m: Manifest): seq<AofInfo> {
    (if m.base.Some? then [m.base.value] else []) + m.history + m.incr
  }

  function FormatManifest(m: Manifest): string
    requires AllFormattable(Files(m))
  {
    FormatInfos(Files(m))
  }

  lemma {:induction false} FormatInfosAppend(xs: seq<AofInfo>, ys: seq<AofInfo>)
    requires AllFormattable(xs) && AllFormattable(ys)
    ensures FormatInfos(xs + ys) == FormatInfos(xs) + FormatInfos(ys)
  {
    hide FormatInfo;
    if xs == [] {
      assert xs + ys == ys;
    } else {
      assert (xs + ys)[1..] == xs[1..] + ys;
      FormatInfosAppend(xs[1..], ys);
    }
  }

  method AppendAofInfoFromList(buf: string, infos: seq<AofInfo>) returns (out: string)
    requires AllFormattable(infos)
    ensures out == buf + FormatInfos(infos)
  {
    hide FormatInfo;
    out := buf;
    for i := 0 to |infos|
      invariant out == buf + FormatInfos(infos[..i])
    {
      out := out + FormatInfo(infos[i]);
      assert infos[..i + 1] == infos[..i] + [infos[i]];
      FormatInfosAppend(infos[..i], [infos[i]]);
      assert FormatInfos([infos[i]]) == FormatInfo(infos[i]) + FormatInfos([]);
    }
    assert infos[..|infos|] == infos;
  }

  lemma BothFormattable(xs: seq<AofInfo>, ys: seq<AofInfo>)
    requires AllFormattable(xs + ys)
    ensures AllFormattable(xs) && AllFormattable(ys)
  {
    hide Formattable;
    forall i | 0 <= i < |xs| ensures Formattable(xs[i]) {
      assert xs[i] == (xs + ys)[i];
    }
    forall i | 0 <= i < |ys| ensures Formattable(ys[i]) {
      assert ys[i] == (xs + ys)[|xs| + i];
    }
  }

  lemma ListsFormattable(m: Manifest, bases: seq<AofInfo>)
    requires AllFormattable(Files(m)) && bases == if m.base.Some? then [m.base.value] else []
    ensures AllFormattable(bases) && AllFormattable(m.history) && AllFormattable(m.incr)
    ensures AllFormattable(bases + m.history)
  {
    hide AllFormattable;
    BothFormattable(bases + m.history, m.incr);
    BothFormattable(bases, m.history);
  }

  method GetAofManifestAsString(m: Manifest) returns (buf: string)
    requires AllFormattable(Files(m))
    ensures buf == FormatManifest(m)
  {
    hide FormatInfos, AllFormattable;
    var bases := if m.base.Some? then [m.base.value] else [];
    ListsFormattable(m, bases);
    buf := AppendAofInfoFromList("", bases);
    assert buf == FormatInfos(bases);
    buf := AppendAofInfoFromList(buf, m.history);
    buf := AppendAofInfoFromList(buf, m.incr);
    FormatInfosAppend(bases, m.history);
    FormatInfosAppend(bases + m.history, m.incr);
  }

  // ---------------------------------------------------------------- reading

  predicate IsTrimmed(c: char) {
    c == ' ' || c == '\t' || c == '\r' || c == '\n'
  }

  function TrimLeft(s: string): string {
    if s != [] && IsTrimmed(s[0]) then TrimLeft(s[1..]) else s
  }

  function TrimRight(s: string): string {
    if s != [] && IsTrimmed(s[|s| - 1]) then TrimRight(s[..|s| - 1]) else s
  }

  /** A line's fields as they are filled in; -1 and 0 are the initial values of the C record. */
  datatype Fields = Fields(name: Option<string>, num: int, ftype: Option<char>, startOffset: int, endOffset: int)

  const NoFields := Fields(None, 0, None, -1, -1)

  function ReadPair(f: Fields, key: string, value: string): Result<Fields> {
    if SameIgnoringCase(key, "file") then
      if '/' in value || '\\' in value then Err("File can't be a path, just a filename")
      else Ok(f.(name := Some(value)))
    else if SameIgnoringCase(key, "seq") then Ok(f.(num := Atoi(value)))
    else if SameIgnoringCase(key, "type") then Ok(f.(ftype := if value == [] then None else Some(value[0])))
    else if SameIgnoringCase(key, "startoffset") then Ok(f.(startOffset := Atoi(value)))
    else if SameIgnoringCase(key, "endoffset") then Ok(f.(endOffset := Atoi(value)))
    else Ok(f)
  }

  function ReadPairs(f: Fields, argv: seq<string>): Result<Fields>
    requires |argv| % 2 == 0
    decreases |argv|
  {
    if argv == [] then Ok(f)
    else
      var r := ReadPair(f, argv[0], argv[1]);
      if r.Err? then r else ReadPairs(r.value, argv[2..])
  }

  const BAD_FORMAT := "Invalid AOF manifest file format"

  function ReadLine(line: string): Result<AofInfo> {
    var text := TrimRight(TrimLeft(line));
    if text == [] then Err(BAD_FORMAT)
    else
      var split := SplitArgs(text);
      if split.SplitError? || |split.argv| < 6 || |split.argv| % 2 != 0 then Err(BAD_FORMAT)
      else
        var r := ReadPairs(NoFields, split.argv);
        if r.Err? then Err(r.message)
        else
          var f := r.value;
          if f.name.None? || f.num == 0 || f.ftype.None? then Err(BAD_FORMAT)
          else if f.ftype.value == 'b' then Ok(AofInfo(f.name.value, f.num, Base, f.startOffset, f.endOffset))
          else if f.ftype.value == 'h' then Ok(AofInfo(f.name.value, f.num, History, f.startOffset, f.endOffset))
          else if f.ftype.value == 'i' then Ok(AofInfo(f.name.value, f.num, Incr, f.startOffset, f.endOffset))
          else Err("Unknown AOF file type")
  }

  /** Adding one line's file to the manifest being built. The highest INCR number seen is `currIncr`. */
  function AddInfo(m: Manifest, ai: AofInfo): Result<Manifest> {
    match ai.ftype
    case Base =>
      if m.base.Some? then Err("Found duplicate base file information")
      else Ok(m.(base := Some(ai), currBase := ai.num))
    case History => Ok(m.(history := m.history + [ai]))
    case Incr =>
      if ai.num <= m.currIncr then Err("Found a non-monotonic sequence number")
      else Ok(m.(incr := m.incr + [ai], currIncr := ai.num))
  }

  function ReadLines(text: string, m: Manifest): Result<Manifest>
    decreases |text|
  {
    if text == [] then Ok(m)
    else
      var n := AofCodec.LineLength(text, MAX_LINE);
      var line, rest := text[..n], text[n..];
      if line[0] == '#' then ReadLines(rest, m)
      else if '\n' !in line then Err("The AOF manifest file contains too long line")
      else
        var ai := ReadLine(line);
        if ai.Err? then Err(ai.message)
        else
          var m' := AddInfo(m, ai.value);
          if m'.Err? then m' else ReadLines(rest, m'.value)
  }

  function ParseManifest(text: string): Result<Manifest> {
    if text == [] then Err("Found an empty AOF manifest") else ReadLines(text, EmptyManifest)
  }

  method LoadManifestFromFile(text: string) returns (r: Result<Manifest>)
    ensures r == ParseManifest(text)
  {
    hide AofCodec.LineLength, ReadLine, AddInfo;
    var s, m, lines := text, EmptyManifest, 0;
    while true
      invariant lines == 0 ==> s == text && m == EmptyManifest
      invariant lines > 0 ==> text != []
      invariant text != [] ==> ParseManifest(text) == ReadLines(s, m)
      decreases |s|
    {
      if s == [] {
        if lines == 0 { return Err("Found an empty AOF manifest"); }
        return Ok(m);
      }
      var n := AofCodec.LineLength(s, MAX_LINE);
      var line := s[..n];
      lines := lines + 1;
      if line[0] == '#' {
        s := s[n..];
        continue;
      }
      if '\n' !in line { return Err("The AOF manifest file contains too long line"); }
      var ai := ReadLine(line);
      if ai.Err? { return Err(ai.message); }
      var added := AddInfo(m, ai.value);
      if added.Err? { return added; }
      m := added.value;
      s := s[n..];
    }
  }

  // ---------------------------------------------------------------- round trip

  /** A file the manifest can carry: see `ReprRoundTripIff` for the condition on quotes. */
  predicate Storable(ai: AofInfo) {
    && ai.name != [] && IsBytes(ai.name) && '/' !in ai.name && '\\' !in ai.name
    && (NeedsRepr(ai.name) || '\'' !in ai.name)
    && 0 < ai.num < INT64_LIMIT
    && -1 <= ai.startOffset < INT64_LIMIT && -1 <= ai.endOffset < INT64_LIMIT
    && (ai.endOffset != -1 ==> ai.startOffset != -1)
    && |FormatInfo(ai)| <= MAX_LINE
  }

  /** A manifest that can be written and read back. */
  predicate StorableManifest(m: Manifest) {
    && Files(m) != []
    && (forall i :: 0 <= i < |Files(m)| ==> Storable(Files(m)[i]))
    && (m.base.Some? ==> m.base.value.ftype == Base)
    && (forall i :: 0 <= i < |m.history| ==> m.history[i].ftype == History)
    && (forall i :: 0 <= i < |m.incr| ==> m.incr[i].ftype == Incr)
    && (forall i, j :: 0 <= i < j < |m.incr| ==> m.incr[i].num < m.incr[j].num)
  }

  /** The manifest in memory after a restart: counters come from the files that are listed. */
  function Reloaded(m: Manifest): Manifest {
    m.(currBase := if m.base.Some? then m.base.value.num else 0,
       currIncr := if m.incr == [] then 0 else m.incr[|m.incr| - 1].num,
       dirty := false)
  }

  lemma PrintIsWord(n: nat)
    ensures IsWord(Print(n))
  {
    assert forall i :: 0 <= i < |Print(n)| ==> IsDigit(Print(n)[i]);
  }

  lemma {:induction false} SplitSpaced(words: seq<string>)
    requires forall i :: 0 <= i < |words| ==> IsWord(words[i])
    ensures SplitArgs(Spaced(words)) == Split(words)
  {
    hide IsWord, SplitArgs;
    if words == [] {
      SplitNothing();
    } else {
      SplitSpaced(words[1..]);
      var tail := words[0] + Spaced(words[1..]);
      assert Spaced(words) == " " + tail;
      SplitBlank(tail);
      SplitWord(words[0], Spaced(words[1..]));
      assert [words[0]] + words[1..] == words;
    }
  }

  lemma SplitNothing()
    ensures SplitArgs("") == Split([])
  {
  }

  lemma SplitBlank(tail: string)
    ensures SplitArgs(" " + tail) == SplitArgs(tail)
  {
    hide ReadToken;
    assert (" " + tail)[1..] == tail;
  }

  lemma InfoWordsAreWords(ai: AofInfo)
    requires Formattable(ai)
    ensures forall i :: 0 <= i < |InfoWords(ai)| ==> IsWord(InfoWords(ai)[i])
  {
    hide IsWord, Print;
    FixedWords(ai.ftype);
    PrintIsWord(ai.num);
    if ai.startOffset != -1 { PrintIsWord(ai.startOffset); }
    if ai.endOffset != -1 { PrintIsWord(ai.endOffset); }
  }

  lemma FixedWords(t: FileType)
    ensures IsWord("seq") && IsWord("type") && IsWord("startoffset") && IsWord("endoffset") && IsWord([TypeChar(t)])
  {
  }

  predicate Quiet(s: string) {
    '\n' !in s && '\'' !in s
  }

  lemma {:induction false} SpacedIsQuiet(words: seq<string>)
    requires forall i :: 0 <= i < |words| ==> IsWord(words[i])
    ensures Quiet(Spaced(words))
  {
    if words != [] {
      var w := words[0];
      assert '\n' !in w;
      SpacedIsQuiet(words[1..]);
    }
  }

  lemma {:induction false} QuotedHasNoNewline(s: string)
    ensures '\n' !in QuoteBody(s)
  {
    if s != [] {
      QuotedHasNoNewline(s[1..]);
      assert '\n' !in QuoteChar(s[0]);
    }
  }

  lemma ReprHasNoNewline(s: string)
    ensures '\n' !in Repr(s)
  {
    if NeedsRepr(s) {
      QuotedHasNoNewline(s);
    }
  }

  /** A line's text splits back into its words. */
  lemma SplitInfo(ai: AofInfo)
    requires Storable(ai)
    ensures SplitArgs("file " + Repr(ai.name) + Spaced(InfoWords(ai))) == Split(["file", ai.name] + InfoWords(ai))
  {
    hide InfoWords, ReadToken, Repr;
    var words := InfoWords(ai);
    InfoWordsAreWords(ai);
    SplitSpaced(words);
    SpacedIsQuiet(words);
    var tail := Spaced(words);
    assert tail == [] || tail[0] == ' ';
    ReprRoundTripIff(ai.name, tail);
    var named := " " + (Repr(ai.name) + tail);
    assert named[1..] == Repr(ai.name) + tail;
    assert SplitArgs(named) == SplitArgs(named[1..]);
    assert IsWord("file");
    SplitWord("file", named);
    assert "file " + Repr(ai.name) + tail == "file" + named;
    assert ["file"] + ([ai.name] + words) == ["file", ai.name] + words;
  }

  lemma PairStep(f: Fields, argv: seq<string>, f': Fields)
    requires |argv| % 2 == 0 && |argv| > 0 && ReadPair(f, argv[0], argv[1]) == Ok(f')
    ensures ReadPairs(f, argv) == ReadPairs(f', argv[2..])
  {
  }

  lemma ReadInfoPairs(ai: AofInfo)
    requires Storable(ai)
    ensures |InfoWords(ai)| % 2 == 0 && |InfoWords(ai)| >= 4
    ensures ReadPairs(NoFields, ["file", ai.name] + InfoWords(ai))
            == Ok(Fields(Some(ai.name), ai.num, Some(TypeChar(ai.ftype)), ai.startOffset, ai.endOffset))
  {
    var argv := ["file", ai.name] + InfoWords(ai);
    PrintRoundTrip(ai.num, []);
    assert Print(ai.num) + [] == Print(ai.num);
    var f1 := NoFields.(name := Some(ai.name));
    assert ReadPair(NoFields, argv[0], argv[1]) == Ok(f1);
    var f2 := f1.(num := ai.num);
    assert argv[2] == "seq" && argv[3] == Print(ai.num) && argv[4] == "type";
    assert ReadPair(f1, argv[2], argv[3]) == Ok(f2);
    assert !SameIgnoringCase("type", "file") by { assert Lower("type"[0]) != Lower("file"[0]); }
    var f3 := f2.(ftype := Some(TypeChar(ai.ftype)));
    assert ReadPair(f2, argv[4], argv[5]) == Ok(f3);
    PairStep(NoFields, argv, f1);
    PairStep(f1, argv[2..], f2);
    assert argv[2..][2..] == argv[4..] && argv[4..][2..] == argv[6..];
    PairStep(f2, argv[4..], f3);
    OffsetPairs(ai, f3);
    assert argv[6..] == InfoWords(ai)[4..];
  }

  lemma OffsetPairs(ai: AofInfo, f: Fields)
    requires Storable(ai) && f.startOffset == -1 && f.endOffset == -1
    ensures |InfoWords(ai)[4..]| % 2 == 0
    ensures ReadPairs(f, InfoWords(ai)[4..]) == Ok(f.(startOffset := ai.startOffset, endOffset := ai.endOffset))
  {
    hide ReadPair, Print, FormatInfo, IsBytes, NeedsRepr;
    var words := InfoWords(ai)[4..];
    if ai.startOffset != -1 {
      var f1 := f.(startOffset := ai.startOffset);
      StartPair(f, ai.startOffset);
      assert words[0] == "startoffset" && words[1] == Print(ai.startOffset);
      PairStep(f, words, f1);
      if ai.endOffset != -1 {
        EndPair(f1, ai.endOffset);
        assert words[2..] == ["endoffset", Print(ai.endOffset)];
        PairStep(f1, words[2..], f1.(endOffset := ai.endOffset));
        assert words[2..][2..] == [];
      } else {
        assert words[2..] == [];
      }
    }
  }

  lemma StartPair(f: Fields, v: nat)
    requires v < INT64_LIMIT
    ensures ReadPair(f, "startoffset", Print(v)) == Ok(f.(startOffset := v))
  {
    PrintRoundTrip(v, []);
    assert Print(v) + [] == Print(v);
  }

  lemma EndPair(f: Fields, v: nat)
    requires v < INT64_LIMIT
    ensures ReadPair(f, "endoffset", Print(v)) == Ok(f.(endOffset := v))
  {
    PrintRoundTrip(v, []);
    assert Print(v) + [] == Print(v);
  }

  lemma {:induction false} LastWordSolid(words: seq<string>)
    requires words != [] && forall i :: 0 <= i < |words| ==> IsWord(words[i])
    ensures Spaced(words) != [] && !IsTrimmed(Spaced(words)[|Spaced(words)| - 1])
  {
    if |words| == 1 {
      var w := words[0];
      assert Spaced(words[1..]) == [];
      assert !IsTrimmed(w[|w| - 1]);
    } else {
      LastWordSolid(words[1..]);
    }
  }

  lemma ReadInfoLine(ai: AofInfo)
    requires Storable(ai)
    ensures ReadLine(FormatInfo(ai)) == Ok(ai)
  {
    hide InfoWords, Repr, SplitArgs, ReadPairs;
    var words := InfoWords(ai);
    var text := "file " + Repr(ai.name) + Spaced(words);
    var line := FormatInfo(ai);
    InfoWordsAreWords(ai);
    ReadInfoPairs(ai);
    LastWordSolid(words);
    assert line[0] == 'f' && TrimLeft(line) == line;
    assert line[..|line| - 1] == text;
    assert text[|text| - 1] == Spaced(words)[|Spaced(words)| - 1];
    assert TrimRight(text) == text;
    assert TrimRight(line) == text;
    SplitInfo(ai);
  }

  lemma FirstLine(ai: AofInfo, rest: string)
    requires Storable(ai)
    ensures AofCodec.LineLength(FormatInfo(ai) + rest, MAX_LINE) == |FormatInfo(ai)|
  {
    hide InfoWords, Repr;
    var words := InfoWords(ai);
    var text := "file " + Repr(ai.name) + Spaced(words);
    InfoWordsAreWords(ai);
    SpacedIsQuiet(words);
    ReprHasNoNewline(ai.name);
    AofCodec.LineStopsAtNewline(text, rest, MAX_LINE);
    assert FormatInfo(ai) + rest == text + "\n" + rest;
  }

  /** Adding files one by one, as reading their lines does. */
  function AddInfos(m: Manifest, infos: seq<AofInfo>): Result<Manifest>
    decreases |infos|
  {
    if infos == [] then Ok(m)
    else
      var r := AddInfo(m, infos[0]);
      if r.Err? then r else AddInfos(r.value, infos[1..])
  }

  lemma {:induction false} ReadFormatted(infos: seq<AofInfo>, m: Manifest)
    requires forall i :: 0 <= i < |infos| ==> Storable(infos[i])
    ensures AllFormattable(infos)
    ensures ReadLines(FormatInfos(infos), m) == AddInfos(m, infos)
    decreases |infos|
  {
    hide Storable, FormatInfo, ReadLine, AddInfo, AofCodec.LineLength;
    assert AllFormattable(infos) by {
      forall i | 0 <= i < |infos| ensures Formattable(infos[i]) { StorableIsFormattable(infos[i]); }
    }
    if infos != [] {
      var line := FormatInfo(infos[0]);
      var rest := FormatInfos(infos[1..]);
      var text := FormatInfos(infos);
      assert text == line + rest;
      FirstLine(infos[0], rest);
      assert text[..|line|] == line && text[|line|..] == rest;
      ReadInfoLine(infos[0]);
      LineShape(infos[0]);
      var added := AddInfo(m, infos[0]);
      if added.Ok? {
        ReadFormatted(infos[1..], added.value);
      }
    }
  }

  lemma StorableIsFormattable(ai: AofInfo)
    requires Storable(ai)
    ensures Formattable(ai)
  {
  }

  lemma LineShape(ai: AofInfo)
    requires Storable(ai)
    ensures FormatInfo(ai)[0] == 'f' && '\n' in FormatInfo(ai)
  {
    hide InfoWords, Repr;
    var line := FormatInfo(ai);
    assert line[|line| - 1] == '\n';
  }

  lemma {:induction false} AddInfosAppend(m: Manifest, xs: seq<AofInfo>, ys: seq<AofInfo>)
    ensures AddInfos(m, xs + ys)
            == if AddInfos(m, xs).Err? then AddInfos(m, xs) else AddInfos(AddInfos(m, xs).value, ys)
    decreases |xs|
  {
    hide AddInfo;
    if xs == [] {
      assert xs + ys == ys;
    } else {
      assert (xs + ys)[1..] == xs[1..] + ys;
      var r := AddInfo(m, xs[0]);
      if r.Ok? { AddInfosAppend(r.value, xs[1..], ys); }
    }
  }

  lemma {:induction false} AddHistory(m: Manifest, hs: seq<AofInfo>)
    requires forall i :: 0 <= i < |hs| ==> hs[i].ftype == History
    ensures AddInfos(m, hs) == Ok(m.(history := m.history + hs))
    decreases |hs|
  {
    if hs == [] {
      assert m.history + hs == m.history;
    } else {
      AddHistory(m.(history := m.history + [hs[0]]), hs[1..]);
      assert m.history + [hs[0]] + hs[1..] == m.history + hs;
    }
  }

  lemma {:induction false} AddIncr(m: Manifest, xs: seq<AofInfo>)
    requires forall i :: 0 <= i < |xs| ==> xs[i].ftype == Incr && xs[i].num > m.currIncr
    requires forall i, j :: 0 <= i < j < |xs| ==> xs[i].num < xs[j].num
    ensures AddInfos(m, xs)
            == Ok(m.(incr := m.incr + xs, currIncr := if xs == [] then m.currIncr else xs[|xs| - 1].num))
    decreases |xs|
  {
    if xs == [] {
      assert m.incr + xs == m.incr;
    } else {
      AddIncr(m.(incr := m.incr + [xs[0]], currIncr := xs[0].num), xs[1..]);
      assert m.incr + [xs[0]] + xs[1..] == m.incr + xs;
    }
  }

  /** Writing a manifest and reading it back restores it, counters included. */
  lemma ManifestRoundTrip(m: Manifest)
    requires StorableManifest(m)
    ensures AllFormattable(Files(m))
    ensures ParseManifest(FormatManifest(m)) == Ok(Reloaded(m))
  {
    hide Storable, FormatInfos, ReadLines, AddInfos, Reloaded;
    ReadFormatted(Files(m), EmptyManifest);
    LineShapeOfFirst(m);
    AddFiles(m, EmptyManifest);
  }

  /** Adding the files of a manifest one by one rebuilds it. */
  lemma AddFiles(m: Manifest, empty: Manifest)
    requires StorableManifest(m) && empty == EmptyManifest
    ensures AddInfos(empty, Files(m)) == Ok(Reloaded(m))
  {
    hide Storable, AddInfos, StorableManifest;
    var bases := if m.base.Some? then [m.base.value] else [];
    var m1 := empty.(base := m.base, currBase := Reloaded(m).currBase);
    var m2 := m1.(history := m.history);
    AddBase(m, empty);
    AddOthers(m, m1);
    AddInfosAppend(empty, bases, m.history);
    AddInfosAppend(empty, bases + m.history, m.incr);
  }

  lemma AddOthers(m: Manifest, m1: Manifest)
    requires StorableManifest(m) && m1.history == [] && m1.incr == [] && m1.currIncr == 0
    ensures AddInfos(m1, m.history) == Ok(m1.(history := m.history))
    ensures AddInfos(m1.(history := m.history), m.incr)
            == Ok(m1.(history := m.history, incr := m.incr,
                      currIncr := if m.incr == [] then 0 else m.incr[|m.incr| - 1].num))
  {
    hide Storable, AddInfos;
    AddHistory(m1, m.history);
    assert [] + m.history == m.history && [] + m.incr == m.incr;
    IncrPositive(m);
    AddIncr(m1.(history := m.history), m.incr);
  }

  lemma AddBase(m: Manifest, empty: Manifest)
    requires StorableManifest(m) && empty == EmptyManifest
    ensures AddInfos(empty, if m.base.Some? then [m.base.value] else [])
            == Ok(empty.(base := m.base, currBase := Reloaded(m).currBase))
  {
    hide Storable;
    if m.base.Some? { assert [m.base.value][1..] == []; }
  }

  lemma IncrPositive(m: Manifest)
    requires StorableManifest(m)
    ensures forall i :: 0 <= i < |m.incr| ==> m.incr[i].num > 0
  {
    hide Storable;
    var files := Files(m);
    var k := |files| - |m.incr|;
    forall i | 0 <= i < |m.incr| ensures m.incr[i].num > 0 {
      assert m.incr[i] == files[k + i];
      StorablePositive(m.incr[i]);
    }
  }

  lemma StorablePositive(ai: AofInfo)
    requires Storable(ai)
    ensures ai.num > 0
  {
  }

  lemma LineShapeOfFirst(m: Manifest)
    requires StorableManifest(m) && AllFormattable(Files(m))
    ensures FormatManifest(m) != []
  {
    hide FormatInfo;
    LineShape(Files(m)[0]);
  }
}
