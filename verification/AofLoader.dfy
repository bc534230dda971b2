/** Replaying one append-only file and repairing its tail (`loadSingleAppendOnlyFile`). */
module AofLoader {
  import opened Decimal
  import opened AofCodec

  /** What command lookup says about an argument vector. */
  datatype Kind = Multi | Exec | Plain | Unknown

  type Lookup = Argv -> Kind

  /** Server settings the loader reads, and whether the `truncate` system call works. */
  datatype Config = Config(loadTruncated: bool, corruptTailMax: nat, truncateOk: bool)

  datatype Status = AofOk | AofEmpty | AofTruncated | AofBrokenRecovered | AofFailed | RdbFormat | Aborted

  /** The outcome: a status, the commands that took effect, and the file left on disk. */
  datatype LoadResult = LoadResult(status: Status, executed: seq<Argv>, file: string)

  /** The fake client that runs the commands. */
  datatype Client = Client(inMulti: bool, queue: seq<Argv>, executed: seq<Argv>)

  const NewClient := Client(false, [], [])

  function Execute(lookup: Lookup, c: Client, argv: Argv): Client {
    var kind := lookup(argv);
    if c.inMulti && kind != Exec then c.(queue := c.queue + [argv])
    else
      match kind
      case Multi => c.(inMulti := true, queue := [])
      case Exec => if c.inMulti then Client(false, [], c.executed + c.queue) else c
      case _ => c.(executed := c.executed + [argv])
  }

  datatype Loader = Loader(client: Client, validUpTo: nat, validBeforeMulti: nat)

  const NewLoader := Loader(NewClient, 0, 0)

  /** Reading one whole command that ends at file offset `end`. */
  function Step(cfg: Config, lookup: Lookup, st: Loader, argv: Argv, end: nat): Loader {
    Loader(Execute(lookup, st.client, argv),
           if cfg.loadTruncated || cfg.corruptTailMax != 0 then end else st.validUpTo,
           if lookup(argv) == Multi then st.validUpTo else st.validBeforeMulti)
  }

  function UnexpectedEof(cfg: Config, file: string, st: Loader): LoadResult
    requires st.validUpTo <= |file|
  {
    if cfg.loadTruncated && cfg.truncateOk
    then LoadResult(AofTruncated, st.client.executed, file[..st.validUpTo])
    else LoadResult(AofFailed, st.client.executed, file)
  }

  function FormatError(cfg: Config, file: string, st: Loader): LoadResult
    requires st.validUpTo <= |file|
  {
    if cfg.corruptTailMax != 0 && |file| - st.validUpTo < cfg.corruptTailMax && cfg.truncateOk
    then LoadResult(AofBrokenRecovered, st.client.executed, file[..st.validUpTo])
    else LoadResult(AofFailed, st.client.executed, file)
  }

  /** The end of the file was met between two entries. */
  function CleanEof(cfg: Config, file: string, st: Loader): LoadResult
    requires st.validUpTo <= |file| && st.validBeforeMulti <= |file|
  {
    if st.client.inMulti then UnexpectedEof(cfg, file, st.(validUpTo := st.validBeforeMulti))
    else LoadResult(AofOk, st.client.executed, file)
  }

  /** Loading from the point where `s` remains unread. */
  function LoadFrom(cfg: Config, lookup: Lookup, file: string, s: string, st: Loader): LoadResult
    requires |s| <= |file| && st.validUpTo <= |file| && st.validBeforeMulti <= |file|
    decreases |s|
  {
    match ReadEntry(s)
    case Eof => CleanEof(cfg, file, st)
    case Annotation(rest) => LoadFrom(cfg, lookup, file, rest, st)
    case Command(argv, rest) =>
      if lookup(argv) == Unknown then LoadResult(AofFailed, st.client.executed, file)
      else LoadFrom(cfg, lookup, file, rest, Step(cfg, lookup, st, argv, |file| - |rest|))
    case ShortRead(feof) =>
      if feof then UnexpectedEof(cfg, file, st) else LoadResult(AofFailed, st.client.executed, file)
    case BadFormat => FormatError(cfg, file, st)
    case Abort => LoadResult(Aborted, st.client.executed, file)
  }

  function LoadFile(cfg: Config, lookup: Lookup, file: string): LoadResult {
    if file == [] then LoadResult(AofEmpty, [], file)
    else if "REDIS" <= file then LoadResult(RdbFormat, [], file)
    else LoadFrom(cfg, lookup, file, file, NewLoader)
  }

  /** What every load keeps to, whatever the bytes it reads: it only ever shortens the file, only
      when it reports so, and only as the settings allow. */
  predicate Obeys(cfg: Config, file: string, r: LoadResult) {
    && r.file <= file
    && (r.status == AofTruncated ==> cfg.loadTruncated && cfg.truncateOk)
    && (r.status == AofBrokenRecovered ==>
          cfg.corruptTailMax != 0 && cfg.truncateOk && |file| - |r.file| < cfg.corruptTailMax)
    && (r.file != file ==> r.status == AofTruncated || r.status == AofBrokenRecovered)
  }

  lemma {:induction false} LoadObeys(cfg: Config, lookup: Lookup, file: string, s: string, st: Loader)
    requires |s| <= |file| && st.validUpTo <= |file| && st.validBeforeMulti <= |file|
    ensures var r := LoadFrom(cfg, lookup, file, s, st);
            && Obeys(cfg, file, r) && r.status != AofEmpty && r.status != RdbFormat
            && st.client.executed <= r.executed
    decreases |s|
  {
    hide ReadEntry;
    match ReadEntry(s) {
      case Annotation(rest) =>
        LoadObeys(cfg, lookup, file, rest, st);
      case Command(argv, rest) =>
        if lookup(argv) != Unknown {
          LoadObeys(cfg, lookup, file, rest, Step(cfg, lookup, st, argv, |file| - |rest|));
        }
      case _ =>
    }
  }

  method LoadSingleAppendOnlyFile(cfg: Config, lookup: Lookup, file: string) returns (r: LoadResult)
    ensures r == LoadFile(cfg, lookup, file)
    ensures r.file <= file
    ensures r.status == AofTruncated ==> cfg.loadTruncated && cfg.truncateOk
    ensures r.status == AofBrokenRecovered ==>
              cfg.corruptTailMax != 0 && cfg.truncateOk && |file| - |r.file| < cfg.corruptTailMax
    ensures r.file != file ==> r.status == AofTruncated || r.status == AofBrokenRecovered
    ensures r.status == AofEmpty <==> file == []
    ensures r.status == RdbFormat <==> "REDIS" <= file
    ensures r.status == AofEmpty || r.status == RdbFormat ==> r.executed == []
  {
    hide ReadEntry, Execute;
    if |file| == 0 { return LoadResult(AofEmpty, [], file); }
    if "REDIS" <= file { return LoadResult(RdbFormat, [], file); }
    LoadObeys(cfg, lookup, file, file, NewLoader);
    var s, st := file, NewLoader;
    while true
      invariant |s| <= |file| && st.validUpTo <= |file| && st.validBeforeMulti <= |file|
      invariant LoadFile(cfg, lookup, file) == LoadFrom(cfg, lookup, file, s, st)
      decreases |s|
    {
      var entry := ReadEntry(s);
      match entry {
        case Eof =>
          return CleanEof(cfg, file, st);
        case Annotation(rest) =>
          s := rest;
        case Command(argv, rest) =>
          if lookup(argv) == Unknown {
            return LoadResult(AofFailed, st.client.executed, file);
          }
          st := Step(cfg, lookup, st, argv, |file| - |rest|);
          s := rest;
        case ShortRead(feof) =>
          if !feof { return LoadResult(AofFailed, st.client.executed, file); }
          return UnexpectedEof(cfg, file, st);
        case BadFormat =>
          return FormatError(cfg, file, st);
        case Abort =>
          return LoadResult(Aborted, st.client.executed, file);
      }
    }
  }

  // ---------------------------------------------------------------- written files

  /** What the server appends: commands, and "#TS:" annotations when they are enabled. */
  datatype Item = Note(timestamp: nat) | Cmd(argv: Argv)

  function EncodeItem(item: Item): (s: string)
    ensures |s| > 0
  {
    match item
    case Note(t) => "#TS:" + Print(t) + "\r\n"
    case Cmd(argv) => EncodeCommand(argv)
  }

  function Encode(items: seq<Item>): string {
    if items == [] then "" else EncodeItem(items[0]) + Encode(items[1..])
  }

  /** Items the server can have written: C-sized, with commands it knows. */
  predicate Writable(lookup: Lookup, item: Item) {
    match item
    case Note(t) => t < 0x8000_0000_0000_0000
    case Cmd(argv) => Encodable(argv) && lookup(argv) != Unknown
  }

  predicate AllWritable(lookup: Lookup, items: seq<Item>) {
    forall i :: 0 <= i < |items| ==> Writable(lookup, items[i])
  }

  /** The meaning of a log: run its commands one after the other. */
  function RunClient(lookup: Lookup, items: seq<Item>, c: Client): Client {
    if items == [] then c
    else RunClient(lookup, items[1..], if items[0].Cmd? then Execute(lookup, c, items[0].argv) else c)
  }

  function Meaning(lookup: Lookup, items: seq<Item>): Client {
    RunClient(lookup, items, NewClient)
  }

  /** The loader's state after reading `items` that start at offset `off`. */
  function RunItems(cfg: Config, lookup: Lookup, items: seq<Item>, off: nat, st: Loader): Loader {
    if items == [] then st
    else
      var end := off + |EncodeItem(items[0])|;
      RunItems(cfg, lookup, items[1..], end,
               if items[0].Cmd? then Step(cfg, lookup, st, items[0].argv, end) else st)
  }

  /** How many items lie wholly within the first `k` bytes. */
  function Whole(items: seq<Item>, k: nat): (n: nat)
    ensures n <= |items|
  {
    if items == [] || |EncodeItem(items[0])| > k then 0
    else 1 + Whole(items[1..], k - |EncodeItem(items[0])|)
  }

  /** The cut at `k` falls strictly inside an item. */
  predicate Torn(items: seq<Item>, k: nat) {
    |Encode(items[..Whole(items, k)])| < k
  }

  lemma {:induction false} EncodeAppend(xs: seq<Item>, ys: seq<Item>)
    ensures Encode(xs + ys) == Encode(xs) + Encode(ys)
  {
    if xs == [] {
      assert xs + ys == ys;
    } else {
      assert (xs + ys)[1..] == xs[1..] + ys;
      EncodeAppend(xs[1..], ys);
    }
  }

  lemma {:induction false} RunClientAppend(lookup: Lookup, xs: seq<Item>, ys: seq<Item>, c: Client)
    ensures RunClient(lookup, xs + ys, c) == RunClient(lookup, ys, RunClient(lookup, xs, c))
  {
    if xs == [] {
      assert xs + ys == ys;
    } else {
      assert (xs + ys)[1..] == xs[1..] + ys;
      RunClientAppend(lookup, xs[1..], ys, if xs[0].Cmd? then Execute(lookup, c, xs[0].argv) else c);
    }
  }

  lemma NoteLine(t: nat, rest: string)
    requires t < 0x8000_0000_0000_0000
    ensures ReadEntry(EncodeItem(Note(t)) + rest) == Annotation(rest)
  {
    PrintWidth64(t);
    var body := "#TS:" + Print(t) + "\r";
    var s := EncodeItem(Note(t)) + rest;
    LineStopsAtNewline(body, rest, ANNOTATION_LINE_MAX - 1);
    assert s == body + "\n" + rest;
    assert s[|body| + 1..] == rest;
  }

  lemma NoteCut(t: nat, k: nat)
    requires t < 0x8000_0000_0000_0000 && 0 < k < |EncodeItem(Note(t))|
    ensures ReadEntry(EncodeItem(Note(t))[..k]) == Annotation([])
  {
    PrintWidth64(t);
    var cut := EncodeItem(Note(t))[..k];
    LineWithoutNewline(cut, ANNOTATION_LINE_MAX - 1);
  }

  lemma ReadItemWhole(lookup: Lookup, item: Item, rest: string)
    requires Writable(lookup, item)
    ensures ReadEntry(EncodeItem(item) + rest)
            == if item.Cmd? then Command(item.argv, rest) else Annotation(rest)
  {
    hide ReadEntry;
    match item {
      case Note(t) => NoteLine(t, rest);
      case Cmd(argv) => ReadCommandWhole(argv, rest);
    }
  }

  lemma ReadItemCut(lookup: Lookup, item: Item, k: nat)
    requires Writable(lookup, item) && 0 < k < |EncodeItem(item)|
    ensures ReadEntry(EncodeItem(item)[..k]) == if item.Cmd? then ShortRead(true) else Annotation([])
  {
    hide ReadEntry;
    match item {
      case Note(t) => NoteCut(t, k);
      case Cmd(argv) => ReadCommandCut(argv, k);
    }
  }

  lemma {:induction false} WholeFits(items: seq<Item>, k: nat)
    requires k <= |Encode(items)|
    ensures |Encode(items[..Whole(items, k)])| <= k
    ensures Torn(items, k) ==> Whole(items, k) < |items|
  {
    hide EncodeItem;
    if items == [] || |EncodeItem(items[0])| > k {
      assert items[..0] == [];
    } else {
      var n := Whole(items, k);
      WholeFits(items[1..], k - |EncodeItem(items[0])|);
      assert items[..n][1..] == items[1..][..n - 1];
    }
  }

  /** One whole item is read and applied. */
  lemma LoadNext(cfg: Config, lookup: Lookup, file: string, item: Item, off: nat, st: Loader)
    requires Writable(lookup, item) && st.validUpTo <= off && st.validBeforeMulti <= off
    requires off + |EncodeItem(item)| <= |file| && file[off..] == EncodeItem(item) + file[off + |EncodeItem(item)|..]
    ensures var end := off + |EncodeItem(item)|;
            var st' := if item.Cmd? then Step(cfg, lookup, st, item.argv, end) else st;
            && st'.validUpTo <= end && st'.validBeforeMulti <= end
            && LoadFrom(cfg, lookup, file, file[off..], st) == LoadFrom(cfg, lookup, file, file[end..], st')
  {
    hide ReadEntry, EncodeItem, Execute, UnexpectedEof, CleanEof;
    ReadItemWhole(lookup, item, file[off + |EncodeItem(item)|..]);
  }

  /** Past the first item the cut is the cut of the other items. */
  lemma CutShift(items: seq<Item>, k: nat)
    requires items != [] && |EncodeItem(items[0])| <= k
    ensures var n, k' := Whole(items, k), k - |EncodeItem(items[0])|;
            && n == 1 + Whole(items[1..], k') && items[..n][1..] == items[1..][..n - 1]
            && Torn(items, k) == Torn(items[1..], k')
  {
    hide EncodeItem;
  }

  lemma BytesShift(file: string, items: seq<Item>, k: nat, off: nat)
    requires items != [] && |EncodeItem(items[0])| <= k <= |Encode(items)|
    requires off + k == |file| && file[off..] == Encode(items)[..k]
    ensures var first := EncodeItem(items[0]);
            && file[off + |first|..] == Encode(items[1..])[..k - |first|]
            && file[off..] == first + file[off + |first|..]
  {
    hide EncodeItem;
    var first := EncodeItem(items[0]);
    assert file[off + |first|..] == file[off..][|first|..];
  }

  /** Loading a log cut at byte `k`: the whole items run, then the torn one decides. */
  lemma {:induction false} LoadCut(cfg: Config, lookup: Lookup, file: string, items: seq<Item>, k: nat, off: nat,
                                   st: Loader)
    requires AllWritable(lookup, items) && k <= |Encode(items)|
    requires off + k == |file| && file[off..] == Encode(items)[..k]
    requires st.validUpTo <= off && st.validBeforeMulti <= off
    ensures var n := Whole(items, k);
            var st' := RunItems(cfg, lookup, items[..n], off, st);
            && st'.validUpTo <= |file| && st'.validBeforeMulti <= |file|
            && (Torn(items, k) ==> n < |items|)
            && LoadFrom(cfg, lookup, file, file[off..], st)
               == if Torn(items, k) && items[n].Cmd? then UnexpectedEof(cfg, file, st') else CleanEof(cfg, file, st')
    decreases |items|
  {
    hide ReadEntry, EncodeItem, Execute, UnexpectedEof, CleanEof;
    WholeFits(items, k);
    var n := Whole(items, k);
    if items == [] || k == 0 {
      assert items[..n] == [];
    } else if |EncodeItem(items[0])| > k {
      assert items[..n] == [];
      assert Encode(items)[..k] == EncodeItem(items[0])[..k];
      ReadItemCut(lookup, items[0], k);
    } else {
      var first := EncodeItem(items[0]);
      var end := off + |first|;
      BytesShift(file, items, k, off);
      LoadNext(cfg, lookup, file, items[0], off, st);
      LoadCut(cfg, lookup, file, items[1..], k - |first|, end,
              if items[0].Cmd? then Step(cfg, lookup, st, items[0].argv, end) else st);
      CutShift(items, k);
    }
  }
}
