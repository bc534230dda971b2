/** What each step of the multi-file log does to the files on disk, name by name, and when a set of files
    can be loaded. */
module AofFiles {
  import opened Wrappers
  import opened Decimal
  import opened AofCodec
  import opened AofLoader
  import opened AofFeed
  import opened AofManifest
  import opened AofRotation
  import opened AofProtocol

  /** The file of this name is the same, or missing from both. */
  predicate SameFile<D(==)>(a: map<string, File<D>>, b: map<string, File<D>>, name: string) {
    (name in a <==> name in b) && (name in a ==> a[name] == b[name])
  }

  /** Nothing but the disk, the manifest and the open file differs. */
  predicate SameMemory<D(==)>(a: Server<D>, b: Server<D>) {
    b.buf == a.buf && b.selectedDb == a.selectedDb && b.mem == a.mem
  }

  /** Deleting history removes exactly the history files, and the manifest forgets them, on disk too if it could
      be stored. */
  lemma DelHistoryMeans<D>(sv: Server<D>, persisted: bool, name: string)
    requires AllFormattable(Files(sv.manifest.(history := [])))
    ensures var sv' := DelHistory(sv, persisted);
            && (if name in HistoryNames(sv.manifest, |sv.manifest.history|) then name !in sv'.disk.files
                else SameFile(sv.disk.files, sv'.disk.files, name))
            && sv'.manifest.history == []
            && sv'.manifest == sv.manifest.(history := [], dirty := sv'.manifest.dirty)
            && (sv.manifest.history != [] ==> sv'.manifest.dirty == !persisted)
            && (sv'.disk.manifest == if persisted && sv.manifest.history != []
                                     then Some(FormatManifest(sv'.manifest)) else sv.disk.manifest)
            && SameMemory(sv, sv') && sv'.child == sv.child && sv'.fd == sv.fd
  {
    hide FormatManifest;
    assert sv.manifest.history == [] ==> sv.manifest == sv.manifest.(history := []);
  }

  /** So it never removes a file that a restart would load. */
  lemma DelHistoryKeepsLive<D>(env: Env, sv: Server<D>, persisted: bool, name: string)
    requires AllFormattable(Files(sv.manifest.(history := [])))
    requires Orderly(sv.manifest, env.prefix) && name in LiveNames(sv.manifest)
    ensures SameFile(sv.disk.files, DelHistory(sv, persisted).disk.files, name)
    ensures LiveNames(DelHistory(sv, persisted).manifest) == LiveNames(sv.manifest)
  {
    hide LiveNames, FormatManifest;
    var m := sv.manifest;
    forall i | 0 <= i < |m.history| ensures m.history[i].name != name {
      OldIsNotLive(m, env.prefix, m.history[i]);
    }
    DelHistoryMeans(sv, persisted, name);
    SameLiveNames(m, DelHistory(sv, persisted).manifest);
  }

  lemma SameLiveNames(m: Manifest, m': Manifest)
    requires m'.base == m.base && m'.incr == m.incr
    ensures LiveNames(m') == LiveNames(m)
  {
  }

  /** A rewrite that ends: only the file of the new BASE can differ. It is there if and only if the rewrite was
      committed or was there before and not touched, it holds the child's snapshot, and the manifest changes
      only then. Every INCR file but the current one becomes history, and so does the old BASE. */
  lemma RewriteDoneMeans<D>(env: Env, sv: Server<D>, rdb: bool, r: CommitResult, name: string)
    requires sv.child.Rewriting? && sv.manifest.currBase >= 0
    requires AllFormattable(Files(CommittedManifest(env, sv.manifest, rdb)))
    ensures var sv' := RewriteDone(env, sv, rdb, r);
            var added := BaseName(env.prefix, sv.manifest.currBase + 1, rdb);
            && (name != added ==> SameFile(sv.disk.files, sv'.disk.files, name))
            && (r == ChildFails || r == RenameFails ==> sv'.disk == sv.disk)
            && (r == CommitPersistFails ==> added !in sv'.disk.files)
            && (r != Committed ==> sv'.manifest == sv.manifest && sv'.disk.manifest == sv.disk.manifest)
            && (r == Committed ==>
                  && added in sv'.disk.files && sv'.disk.files[added] == Snapshot(sv.child.snapshot)
                  && sv'.manifest.base == Some(AofInfo(added, sv.manifest.currBase + 1, Base, -1, -1))
                  && Retired(sv.manifest, sv'.manifest)
                  && AllFormattable(Files(sv'.manifest)) && !sv'.manifest.dirty
                  && sv'.disk.manifest == Some(FormatManifest(sv'.manifest)))
            && SameMemory(sv, sv') && sv'.child == NoChild && sv'.fd == sv.fd
  {
    hide FormatInfos, BaseName, Formattable;
    var m := CommittedManifest(env, sv.manifest, rdb);
    SameListing(m, m.(dirty := false));
  }

  lemma SameListing(m: Manifest, m': Manifest)
    requires m'.base == m.base && m'.history == m.history && m'.incr == m.incr
    ensures Files(m') == Files(m)
  {
  }

  /** The current INCR file stays; what is replaced goes to history, before what was there. */
  predicate Retired(m: Manifest, m': Manifest) {
    var moved := if m.incr == [] then 0 else |m.incr| - 1;
    && m'.incr == m.incr[moved..] && m'.currBase == m.currBase + 1 && m'.currIncr == m.currIncr
    && |m'.history| == moved + (if m.base.Some? then 1 else 0) + |m.history|
    && (forall i :: 0 <= i < moved ==> m'.history[i] == m.incr[i].(ftype := History))
    && (m.base.Some? ==> m'.history[moved] == m.base.value.(ftype := History))
    && m'.history[|m'.history| - |m.history|..] == m.history
  }

  /** Opening the next INCR file: only that file can differ, it is empty then, and the manifest lists it only
      when it could be stored; the buffer is left for whichever file is current. */
  lemma OpenNewIncrMeans<D>(env: Env, sv: Server<D>, off: int, r: OpenResult, name: string)
    requires sv.manifest.currIncr >= 0 && AllFormattable(Files(NewIncr(sv.manifest, env.prefix, off)))
    ensures var sv' := OpenNewIncr(env, sv, off, r);
            var n := sv.manifest.currIncr + 1;
            var added := IncrName(env.prefix, n);
            && (name != added ==> SameFile(sv.disk.files, sv'.disk.files, name))
            && (if r == OpenFails then sv'.disk == sv.disk
                else added in sv'.disk.files && sv'.disk.files[added] == Log(""))
            && (r != Opened ==> sv'.manifest == sv.manifest && sv'.disk.manifest == sv.disk.manifest && sv'.fd == sv.fd)
            && (r == Opened ==>
                  && sv'.manifest == sv.manifest.(incr := sv.manifest.incr + [AofInfo(added, n, Incr, off, -1)],
                                                  currIncr := n, dirty := false)
                  && AllFormattable(Files(sv'.manifest))
                  && sv'.disk.manifest == Some(FormatManifest(sv'.manifest)) && sv'.fd == Fd(false, 0, 0))
            && SameMemory(sv, sv') && sv'.child == sv.child
  {
    hide FormatInfos, IncrName, Formattable;
    var m := NewIncr(sv.manifest, env.prefix, off);
    SameListing(m, m.(dirty := false));
  }

  /** What a crash leaves: the manifest on disk as it was, and at most one step's file or files changed. */
  lemma CrashedMeans<D>(env: Env, sv: Server<D>, p: CrashPoint, name: string)
    requires sv.manifest.incr != [] && sv.manifest.currBase >= 0
    requires p.MidWrite? ==> p.n <= |sv.buf|
    requires p.BaseRenamed? ==> sv.child.Rewriting?
    requires p.MidDelete? ==> p.k <= |sv.manifest.history|
    ensures var disk := Crashed(env, sv, p);
            && disk.manifest == sv.disk.manifest
            && match p
               case Quiet => SameFile(sv.disk.files, disk.files, name)
               case MidWrite(_) => name != CurrentName(sv.manifest) ==> SameFile(sv.disk.files, disk.files, name)
               case BaseRenamed(rdb) =>
                 if name == BaseName(env.prefix, sv.manifest.currBase + 1, rdb)
                 then name in disk.files && disk.files[name] == Snapshot(sv.child.snapshot)
                 else SameFile(sv.disk.files, disk.files, name)
               case MidDelete(k) =>
                 if exists i :: 0 <= i < k && sv.manifest.history[i].name == name then name !in disk.files
                 else SameFile(sv.disk.files, disk.files, name)
  {
    hide BaseName;
  }

  /** What is there at a start stays there: a BASE is written only when the manifest lists nothing, and an INCR
      file is created, empty, only when none is listed and there is no file of its name. */
  lemma FilesOnStartMean<D>(env: Env, m: Manifest, rdb: bool, files: map<string, File<D>>, d: D, name: string)
    requires m.currBase >= 0 && m.currIncr >= 0
    ensures var files' := FilesOnStart(env, m, rdb, files, d);
            var base, incr := BaseName(env.prefix, m.currBase + 1, rdb), IncrName(env.prefix, m.currIncr + 1);
            if m.base.None? && m.incr == [] && name == base then name in files' && files'[name] == Snapshot(d)
            else if m.incr == [] && name == incr && name !in files then name in files' && files'[name] == Log("")
            else SameFile(files, files', name)
  {
    hide BaseName, IncrName;
    BaseIsNotIncr(env.prefix, m.currBase + 1, m.currIncr + 1, rdb);
  }

  /** A server comes up only when the manifest can be read and everything it lists can be loaded. It holds the
      loaded data, has nothing to write, and appends to the last INCR file. */
  lemma StartMeans<D>(w: World<D>, env: Env, disk: Disk<D>, rdb: bool, off: int)
    requires OffsetInRange(off)
    ensures var s, found := Start(w, env, disk, rdb, off), FoundManifest(disk);
            && (s.Down? ==> s.disk == disk)
            && (s.Up? ==>
                  && found.Ok? && LoadFiles(w, env.cfg, found.value, disk.files).Loaded?
                  && s.server.mem == LoadFiles(w, env.cfg, found.value, disk.files).data
                  && s.server.buf == "" && s.server.selectedDb == -1 && s.server.child == NoChild
                  && s.server.manifest.incr != [] && !s.server.manifest.dirty
                  && s.server.fd == Fd(true, 0, |BytesOf(s.server.disk.files, CurrentName(s.server.manifest))|)
                  && (found.value.incr != [] ==>
                        && s.server.manifest == found.value.(dirty := false)
                        && s.server.disk.files == LoadFiles(w, env.cfg, found.value, disk.files).files))
  {
    hide LoadFiles, ParseManifest, BaseName, IncrName, FormatManifest, AllFormattable;
  }

  // ---------------------------------------------------------------- where a file's commands run

  /** Running commands one after the other in one database. */
  function RunIn<D>(w: World<D>, d: D, db: int, argvs: seq<Argv>): D
    decreases |argvs|
  {
    if argvs == [] then d else RunIn(w, w.exec(d, db, argvs[0]), db, argvs[1..])
  }

  lemma {:induction false} NoSelect<D>(w: World<D>, d: D, db: int, argvs: seq<Argv>)
    requires forall i :: 0 <= i < |argvs| ==> !IsSelect(argvs[i])
    ensures Replay(w, Cursor(d, db), argvs) == Cursor(RunIn(w, d, db, argvs), db)
    decreases |argvs|
  {
    if argvs != [] { NoSelect(w, w.exec(d, db, argvs[0]), db, argvs[1..]); }
  }

  /** Every INCR file starts in database 0, whatever the file before it had selected. */
  lemma EveryFileStartsInZero<D>(w: World<D>, cfg: Config, infos: seq<AofInfo>, files: map<string, File<D>>, d: D)
    requires infos != [] && infos[0].name in files && files[infos[0].name].Log?
    requires var r := LoadFile(cfg, w.lookup, files[infos[0].name].bytes);
             r.status == AofOk && forall i :: 0 <= i < |r.executed| ==> !IsSelect(r.executed[i])
    ensures var r := LoadFile(cfg, w.lookup, files[infos[0].name].bytes);
            LoadIncrs(w, cfg, infos, files, d) == LoadIncrs(w, cfg, infos[1..], files, RunIn(w, d, 0, r.executed))
  {
    hide LoadFile, RunIn, Replay;
    NoSelect(w, d, 0, LoadFile(cfg, w.lookup, files[infos[0].name].bytes).executed);
  }
}
