/** The multi-file log as a state machine: feeding, flushing, rewriting, committing, deleting history,
    crashing at any point and starting again. It refines a list of dataset versions of which a
    crash may only drop the newest ones that were never flushed. */
module AofProtocol {
  import opened Wrappers
  import opened Decimal
  import opened AofCodec
  import opened AofLoader
  import opened AofRepair
  import opened AofFeed
  import opened AofUnits
  import opened AofManifest
  import opened AofRotation
  import Writer = AofWriter

  /** A file: a snapshot of the dataset (the BASE), or a log of bytes (an INCR). */
  datatype File<D> = Snapshot(data: D) | Log(bytes: string)

  datatype Disk<D> = Disk(files: map<string, File<D>>, manifest: Option<string>)

  datatype Child<D> = NoChild | Rewriting(snapshot: D)

  /** The open descriptor of the current INCR file and the size the server believes the file has. */
  datatype Fd = Fd(append: bool, pos: nat, lastSize: int)

  datatype Server<D> = Server(
    disk: Disk<D>,
    manifest: Manifest,
    buf: string,
    selectedDb: int,
    mem: D,
    child: Child<D>,
    fd: Fd)

  datatype State<D> = Down(disk: Disk<D>) | Up(server: Server<D>)

  /** The configured file name and the loader's settings. */
  datatype Env = Env(prefix: string, cfg: Config)

  // ---------------------------------------------------------------- operations

  function CurrentName(m: Manifest): string
    requires m.incr != []
  {
    m.incr[|m.incr| - 1].name
  }

  function BytesOf<D>(files: map<string, File<D>>, name: string): string {
    if name in files && files[name].Log? then files[name].bytes else ""
  }

  function SetBytes<D>(files: map<string, File<D>>, name: string, bytes: string): map<string, File<D>> {
    if name in files && files[name].Log? then files[name := Log(bytes)] else files
  }

  /** The current file, its descriptor and the buffer, as the writer sees them. */
  function WriterOf<D>(sv: Server<D>): Writer.Writer
    requires sv.manifest.incr != []
  {
    Writer.Writer(BytesOf(sv.disk.files, CurrentName(sv.manifest)), sv.fd.pos, sv.fd.append, sv.buf, sv.fd.lastSize)
  }

  function WithWriter<D>(sv: Server<D>, wr: Writer.Writer): Server<D>
    requires sv.manifest.incr != []
  {
    sv.(disk := sv.disk.(files := SetBytes(sv.disk.files, CurrentName(sv.manifest), wr.file)),
        buf := wr.buf,
        fd := Fd(wr.append, wr.pos, wr.lastSize))
  }

  function Feed<D>(w: World<D>, sv: Server<D>, u: Unit): Server<D>
    requires DbsOk(UnitCommands(u))
  {
    sv.(buf := sv.buf + Encode(UnitItems(sv.selectedDb, u)),
        selectedDb := SelAfter(sv.selectedDb, UnitCommands(u)),
        mem := UnitEffect(w, sv.mem, u))
  }

  /** One step of the writer: `n` buffered bytes reach the file at the descriptor's position, and a
      partial write may be undone by truncating. */
  function Flush<D>(sv: Server<D>, n: nat, undone: bool): Server<D>
    requires sv.manifest.incr != [] && n <= |sv.buf|
  {
    WithWriter(sv, Writer.Next(WriterOf(sv), Writer.Write(n, undone)))
  }

  datatype OpenResult = OpenFails | OpenPersistFails | Opened

  function OpenNewIncr<D>(env: Env, sv: Server<D>, off: int, r: OpenResult): Server<D>
    requires sv.manifest.currIncr >= 0 && AllFormattable(Files(NewIncr(sv.manifest, env.prefix, off)))
  {
    var m := NewIncr(sv.manifest, env.prefix, off);
    var files := sv.disk.files[CurrentName(m) := Log("")];
    match r
    case OpenFails => sv
    case OpenPersistFails => sv.(disk := sv.disk.(files := files))
    case Opened =>
      sv.(disk := Disk(files, Some(FormatManifest(m))), manifest := m.(dirty := false), fd := Fd(false, 0, 0))
  }

  function StartRewrite<D>(env: Env, sv: Server<D>, n: nat, undone: bool, off: int, r: OpenResult,
                           forked: bool): Server<D>
    requires sv.manifest.incr != [] && n <= |sv.buf|
    requires sv.manifest.currIncr >= 0 && AllFormattable(Files(NewIncr(sv.manifest, env.prefix, off)))
  {
    var flushed := Flush(sv.(selectedDb := -1), n, undone);
    var next := OpenNewIncr(env, flushed, off, r);
    if r == Opened && forked then next.(child := Rewriting(next.mem)) else next
  }

  datatype CommitResult = ChildFails | RenameFails | CommitPersistFails | Committed

  /** The manifest that a finished rewrite installs. */
  function CommittedManifest(env: Env, m: Manifest, rdb: bool): Manifest
    requires m.currBase >= 0
  {
    MarkRewritten(NewBase(m, env.prefix, rdb))
  }

  function RewriteDone<D>(env: Env, sv: Server<D>, rdb: bool, r: CommitResult): Server<D>
    requires sv.child.Rewriting? && sv.manifest.currBase >= 0
    requires AllFormattable(Files(CommittedManifest(env, sv.manifest, rdb)))
  {
    var m := CommittedManifest(env, sv.manifest, rdb);
    var name := BaseName(env.prefix, sv.manifest.currBase + 1, rdb);
    var files := sv.disk.files[name := Snapshot(sv.child.snapshot)];
    var done := sv.(child := NoChild);
    match r
    case ChildFails => done
    case RenameFails => done
    case CommitPersistFails => done.(disk := sv.disk.(files := files - {name}))
    case Committed => done.(disk := Disk(files, Some(FormatManifest(m))), manifest := m.(dirty := false))
  }

  function HistoryNames(m: Manifest, k: nat): set<string>
    requires k <= |m.history|
  {
    set i | 0 <= i < k :: m.history[i].name
  }

  function DelHistory<D>(sv: Server<D>, persisted: bool): Server<D>
    requires AllFormattable(Files(sv.manifest.(history := [])))
  {
    if sv.manifest.history == [] then sv
    else
      var files := sv.disk.files - HistoryNames(sv.manifest, |sv.manifest.history|);
      var m := sv.manifest.(history := [], dirty := !persisted);
      sv.(disk := Disk(files, if persisted then Some(FormatManifest(m)) else sv.disk.manifest), manifest := m)
  }

  // ---------------------------------------------------------------- loading

  datatype LoadOutcome<D> = Loaded(data: D, files: map<string, File<D>>) | LoadFails

  /** Loads INCR files in order; only the last one may have been truncated. */
  function LoadIncrs<D>(w: World<D>, cfg: Config, infos: seq<AofInfo>, files: map<string, File<D>>,
                        d: D): LoadOutcome<D>
    decreases |infos|
  {
    if infos == [] then Loaded(d, files)
    else
      var name := infos[0].name;
      if name !in files || files[name].Snapshot? then LoadFails
      else
        var r := LoadFile(cfg, w.lookup, files[name].bytes);
        var d' := Replay(w, Cursor(d, 0), r.executed).data;
        if r.status in {AofOk, AofEmpty} then LoadIncrs(w, cfg, infos[1..], files, d')
        else if r.status in {AofTruncated, AofBrokenRecovered} && |infos| == 1
        then Loaded(d', files[name := Log(r.file)])
        else LoadFails
  }

  function LoadFiles<D>(w: World<D>, cfg: Config, m: Manifest, files: map<string, File<D>>): LoadOutcome<D> {
    if m.base.None? then LoadIncrs(w, cfg, m.incr, files, w.empty)
    else if m.base.value.name !in files || files[m.base.value.name].Log? then LoadFails
    else LoadIncrs(w, cfg, m.incr, files, files[m.base.value.name].data)
  }

  /** The `i`th INCR file is there, is a log and loads; only the last may have been repaired on the way. */
  predicate Loads<D>(w: World<D>, cfg: Config, infos: seq<AofInfo>, files: map<string, File<D>>, i: nat)
    requires i < |infos|
  {
    && infos[i].name in files && files[infos[i].name].Log?
    && var status := LoadFile(cfg, w.lookup, files[infos[i].name].bytes).status;
       status in {AofOk, AofEmpty} || (i == |infos| - 1 && status in {AofTruncated, AofBrokenRecovered})
  }

  /** The files after a load: as before, but for the last INCR file, which is as its own load left it. */
  function Repaired<D>(w: World<D>, cfg: Config, infos: seq<AofInfo>, files: map<string, File<D>>):
    map<string, File<D>>
  {
    if infos == [] then files
    else
      var name := infos[|infos| - 1].name;
      if name in files && files[name].Log?
      then files[name := Log(LoadFile(cfg, w.lookup, files[name].bytes).file)] else files
  }

  lemma {:induction false} LoadIncrsIff<D>(w: World<D>, cfg: Config, infos: seq<AofInfo>,
                                           files: map<string, File<D>>, d: D)
    ensures var r := LoadIncrs(w, cfg, infos, files, d);
            && (r.Loaded? <==> forall i :: 0 <= i < |infos| ==> Loads(w, cfg, infos, files, i))
            && (r.Loaded? ==> r.files == Repaired(w, cfg, infos, files))
    decreases |infos|
  {
    hide LoadFile, Replay;
    if infos != [] {
      var name, rest := infos[0].name, infos[1..];
      FirstLoads(w, cfg, infos, files);
      if name in files && files[name].Log? {
        var r := LoadFile(cfg, w.lookup, files[name].bytes);
        KeptFile(cfg, w.lookup, files[name].bytes);
        LoadIncrsIff(w, cfg, rest, files, Replay(w, Cursor(d, 0), r.executed).data);
        assert files[name := files[name]] == files;
      }
    }
  }

  lemma FirstLoads<D>(w: World<D>, cfg: Config, infos: seq<AofInfo>, files: map<string, File<D>>)
    requires infos != []
    ensures (forall i :: 0 <= i < |infos| ==> Loads(w, cfg, infos, files, i))
            <==> Loads(w, cfg, infos, files, 0)
                 && forall i :: 0 <= i < |infos[1..]| ==> Loads(w, cfg, infos[1..], files, i)
  {
    hide LoadFile;
    var rest := infos[1..];
    forall i | 0 <= i < |rest|
      ensures Loads(w, cfg, rest, files, i) <==> Loads(w, cfg, infos, files, i + 1)
    {
      assert infos[i + 1] == rest[i];
    }
    if forall i :: 0 <= i < |rest| ==> Loads(w, cfg, rest, files, i) {
      forall i | 0 < i < |infos| ensures Loads(w, cfg, infos, files, i) {
        assert Loads(w, cfg, rest, files, i - 1);
      }
    }
  }

  lemma KeptFile(cfg: Config, lookup: Lookup, file: string)
    ensures var r := LoadFile(cfg, lookup, file); r.status in {AofOk, AofEmpty} ==> r.file == file
  {
    hide LoadFrom;
    LoadObeys(cfg, lookup, file, file, NewLoader);
  }

  lemma LoadFilesIff<D>(w: World<D>, cfg: Config, m: Manifest, files: map<string, File<D>>)
    ensures var r := LoadFiles(w, cfg, m, files);
            && (r.Loaded? <==>
                  && (m.base.Some? ==> m.base.value.name in files && files[m.base.value.name].Snapshot?)
                  && forall i :: 0 <= i < |m.incr| ==> Loads(w, cfg, m.incr, files, i))
            && (r.Loaded? ==> r.files == Repaired(w, cfg, m.incr, files))
  {
    hide LoadIncrs, Loads, Repaired;
    if m.base.None? {
      LoadIncrsIff(w, cfg, m.incr, files, w.empty);
    } else if m.base.value.name in files && files[m.base.value.name].Snapshot? {
      LoadIncrsIff(w, cfg, m.incr, files, files[m.base.value.name].data);
    }
  }

  method LoadAppendOnlyFiles<D>(w: World<D>, cfg: Config, m: Manifest, files: map<string, File<D>>)
    returns (r: LoadOutcome<D>)
    ensures r == LoadFiles(w, cfg, m, files)
    ensures r.Loaded? <==>
              && (m.base.Some? ==> m.base.value.name in files && files[m.base.value.name].Snapshot?)
              && forall i :: 0 <= i < |m.incr| ==> Loads(w, cfg, m.incr, files, i)
    ensures r.Loaded? ==> r.files == Repaired(w, cfg, m.incr, files)
  {
    hide LoadFile, Replay, Loads, Repaired;
    LoadFilesIff(w, cfg, m, files);
    var d := w.empty;
    if m.base.Some? {
      var name := m.base.value.name;
      if name !in files || files[name].Log? { return LoadFails; }
      d := files[name].data;
    }
    var i := 0;
    while i < |m.incr|
      invariant 0 <= i <= |m.incr|
      invariant LoadFiles(w, cfg, m, files) == LoadIncrs(w, cfg, m.incr[i..], files, d)
    {
      var name := m.incr[i].name;
      var last := i + 1 == |m.incr|;
      assert m.incr[i..][1..] == m.incr[i + 1..];
      if name !in files || files[name].Snapshot? { return LoadFails; }
      var l := LoadSingleAppendOnlyFile(cfg, w.lookup, files[name].bytes);
      d := Replay(w, Cursor(d, 0), l.executed).data;
      if l.status == AofTruncated || l.status == AofBrokenRecovered {
        if !last { return LoadFails; }
        return Loaded(d, files[name := Log(l.file)]);
      }
      if l.status != AofOk && l.status != AofEmpty { return LoadFails; }
      i := i + 1;
    }
    return Loaded(d, files);
  }

  /** Opening the log for writing after the data is loaded: a BASE and an INCR file are created when
      the manifest lists none. */
  function OpenOnStart(env: Env, m: Manifest, rdb: bool, off: int): Manifest
    requires m.currBase >= 0 && m.currIncr >= 0
  {
    var m1 := if m.base.None? && m.incr == [] then NewBase(m, env.prefix, rdb) else m;
    if m1.incr == [] then NewIncr(m1, env.prefix, off) else m1
  }

  function FilesOnStart<D>(env: Env, m: Manifest, rdb: bool, files: map<string, File<D>>, d: D): map<string, File<D>>
    requires m.currBase >= 0 && m.currIncr >= 0
  {
    var files1 := if m.base.None? && m.incr == [] then files[BaseName(env.prefix, m.currBase + 1, rdb) := Snapshot(d)]
      else files;
    var name := IncrName(env.prefix, m.currIncr + 1);
    if m.incr == [] && name !in files1 then files1[name := Log("")] else files1
  }

  /** The manifest found on disk, if it can be read. */
  function FoundManifest<D>(disk: Disk<D>): Result<Manifest> {
    if disk.manifest.None? then Ok(EmptyManifest) else ParseManifest(disk.manifest.value)
  }

  /** Starting the server; when it cannot start the disk is as the loader left it. */
  function Start<D>(w: World<D>, env: Env, disk: Disk<D>, rdb: bool, off: int): State<D>
    requires off >= 0
  {
    var found := FoundManifest(disk);
    if found.Err? || found.value.currBase < 0 || found.value.currIncr < 0 then Down(disk)
    else
      var loaded := LoadFiles(w, env.cfg, found.value, disk.files);
      if loaded.LoadFails? then Down(disk)
      else
        var m := OpenOnStart(env, found.value, rdb, off);
        var files := FilesOnStart(env, found.value, rdb, loaded.files, loaded.data);
        if !AllFormattable(Files(m)) then Down(disk)
        else
          Up(Server(Disk(files, if m.dirty then Some(FormatManifest(m)) else disk.manifest),
                    m.(dirty := false), "", -1, loaded.data, NoChild,
                    Fd(true, 0, |BytesOf(files, CurrentName(m))|)))
  }

  // ---------------------------------------------------------------- steps

  /** Where a crash can find the disk between two updates of the manifest. */
  datatype CrashPoint = Quiet | MidWrite(n: nat) | BaseRenamed(rdb: bool) | MidDelete(k: nat)

  datatype Event =
    | DoFeed(unit: Unit)
    | DoFlush(n: nat, undone: bool)
    | DoStartRewrite(written: nat, taken: bool, off: int, open: OpenResult, forked: bool)
    | DoRewriteDone(rdb: bool, commit: CommitResult)
    | DoDelHistory(persisted: bool)
    | DoCrash(point: CrashPoint)
    | DoStart(startRdb: bool, startOff: int)
    | DoStartCrash(crashRdb: bool, incrToo: bool)

  predicate OffsetInRange(off: int) {
    0 <= off < INT64_LIMIT
  }

  /** What can happen next. */
  ghost predicate Enabled<D(!new)>(w: World<D>, env: Env, s: State<D>, e: Event) {
    match e
    case DoFeed(u) => s.Up? && UnitFeedable(w, u)
    case DoFlush(n, _) => s.Up? && n <= |s.server.buf|
    case DoStartRewrite(n, _, off, _, _) =>
      && s.Up? && n <= |s.server.buf| && s.server.child.NoChild?
      && OffsetInRange(off) && s.server.manifest.currIncr + 1 < INT64_LIMIT
    case DoRewriteDone(_, _) =>
      s.Up? && s.server.child.Rewriting? && s.server.manifest.currBase + 1 < INT64_LIMIT
    case DoDelHistory(_) => s.Up?
    case DoCrash(p) =>
      && s.Up?
      && (p.MidWrite? ==> p.n <= |s.server.buf|)
      && (p.BaseRenamed? ==> s.server.child.Rewriting?)
      && (p.MidDelete? ==> p.k <= |s.server.manifest.history|)
    case DoStart(_, off) => s.Down? && OffsetInRange(off)
    case DoStartCrash(_, _) => s.Down? && s.disk.manifest.None?
  }

  // ---------------------------------------------------------------- when a step is safe

  /** The next write lands at the end of the current file. */
  predicate AtEnd<D>(sv: Server<D>)
    requires sv.manifest.incr != []
  {
    Writer.Position(WriterOf(sv)) == |WriterOf(sv).file|
  }

  /** A write of `n` bytes that stays. */
  predicate Keeps<D>(sv: Server<D>, n: nat, undone: bool) {
    n == |sv.buf| || !undone
  }

  /** The bytes that stay in the file are written at its end. */
  predicate WritesAtEnd<D>(sv: Server<D>, n: nat, undone: bool)
    requires sv.manifest.incr != []
  {
    n > 0 && Keeps(sv, n, undone) ==> AtEnd(sv)
  }

  /** A partial write is taken back on a descriptor without O_APPEND. */
  predicate Gaps<D>(s: State<D>, e: Event)
    requires s.Up? ==> s.server.manifest.incr != []
  {
    s.Up? &&
    match e
    case DoFlush(n, undone) => Writer.LeavesGap(WriterOf(s.server), Writer.Write(n, undone))
    case DoStartRewrite(n, undone, _, _, _) => Writer.LeavesGap(WriterOf(s.server), Writer.Write(n, undone))
    case _ => false
  }

  /** The bytes of the last INCR file that a start would load. */
  function TailBytes<D>(disk: Disk<D>): string {
    var found := FoundManifest(disk);
    if found.Ok? && found.value.incr != [] then BytesOf(disk.files, CurrentName(found.value)) else ""
  }

  /** The three conditions under which a step keeps the log right: nothing is left behind a gap, a
      rewrite starts with an empty buffer, and a start does not find a command torn inside MULTI. */
  predicate Safe<D>(w: World<D>, s: State<D>, e: Event)
    requires s.Up? ==> s.server.manifest.incr != []
  {
    match e
    case DoFlush(n, undone) => s.Up? ==> WritesAtEnd(s.server, n, undone)
    case DoStartRewrite(n, undone, _, open, _) =>
      s.Up? ==> WritesAtEnd(s.server, n, undone) && (open == Opened ==> n == |s.server.buf|)
    case DoCrash(p) => s.Up? && p.MidWrite? ==> WritesAtEnd(s.server, p.n, false)
    case DoStart(_, _) => s.Down? ==> !TornInMulti(w.lookup, TailBytes(s.disk), false)
    case _ => true
  }

  /** The same without looking at the position: no write is taken back on such a descriptor. */
  predicate Careful<D>(w: World<D>, s: State<D>, e: Event)
    requires s.Up? ==> s.server.manifest.incr != []
  {
    && !Gaps(s, e)
    && (e.DoStartRewrite? && e.open == Opened && s.Up? ==> e.written == |s.server.buf|)
    && (e.DoStart? && s.Down? ==> !TornInMulti(w.lookup, TailBytes(s.disk), false))
  }

  /** What a crash leaves on disk. */
  function Crashed<D>(env: Env, sv: Server<D>, p: CrashPoint): Disk<D>
    requires sv.manifest.incr != [] && sv.manifest.currBase >= 0
    requires p.MidWrite? ==> p.n <= |sv.buf|
    requires p.BaseRenamed? ==> sv.child.Rewriting?
    requires p.MidDelete? ==> p.k <= |sv.manifest.history|
  {
    match p
    case Quiet => sv.disk
    case MidWrite(n) =>
      sv.disk.(files := SetBytes(sv.disk.files, CurrentName(sv.manifest),
                                 Writer.WriteBytes(WriterOf(sv), sv.buf[..n]).file))
    case BaseRenamed(rdb) =>
      var name := BaseName(env.prefix, sv.manifest.currBase + 1, rdb);
      sv.disk.(files := sv.disk.files[name := Snapshot(sv.child.snapshot)])
    case MidDelete(k) => sv.disk.(files := sv.disk.files - HistoryNames(sv.manifest, k))
  }
}
