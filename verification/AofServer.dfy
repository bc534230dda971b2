/** The server side of the protocol as code that updates its state in place; each method is one of the
    protocol's steps. The environment's choices (does `open`, `rename`, writing the manifest or `fork`
    work) are parameters. */
module AofServer {
  import opened Wrappers
  import opened AofCodec
  import opened AofLoader
  import opened AofFeed
  import opened AofManifest
  import opened AofRotation
  import opened AofProtocol
  import opened AofRefinement
  import AofRepair
  import Writer = AofWriter

  class RedisServer<D> {
    const w: World<D>
    const env: Env
    var files: map<string, File<D>>
    var manifestText: Option<string>
    var manifest: ManifestObject
    var aofBuf: string
    var selectedDb: int
    var mem: D
    var child: Child<D>
    var fd: Fd

    function State(): Server<D>
      reads this, manifest
    {
      Server(Disk(files, manifestText), manifest.Value(), aofBuf, selectedDb, mem, child, fd)
    }

    constructor (w: World<D>, env: Env, sv: Server<D>)
      ensures this.w == w && this.env == env && State() == sv && fresh(manifest)
    {
      this.w, this.env := w, env;
      files, manifestText := sv.disk.files, sv.disk.manifest;
      aofBuf, selectedDb, mem, child, fd := sv.buf, sv.selectedDb, sv.mem, sv.child, sv.fd;
      manifest := new ManifestObject.Dup(sv.manifest);
    }

    /** Runs a command or a transaction and appends it to the buffer. */
    method Propagate(u: Unit)
      requires DbsOk(UnitCommands(u))
      modifies this`aofBuf, this`selectedDb, this`mem
      ensures State() == Feed(w, old(State()), u)
    {
      hide Encode, EncodeCommand, UnitItems, FeedAll, SelAfter, Effects, FeedOne, NextSel;
      var fs := UnitCommands(u);
      FedNothing(w, selectedDb, mem);
      if u.Txn? { aofBuf := CatAppendOnlyGenericCommand(aofBuf, MULTI); }
      ghost var start := aofBuf;
      assert start + Encode([]) == start by { EncodeNothing(); }
      for i := 0 to |fs|
        invariant aofBuf == start + Encode(FeedAll(old(selectedDb), fs[..i]))
        invariant selectedDb == SelAfter(old(selectedDb), fs[..i])
        invariant mem == Effects(w, old(mem), fs[..i])
      {
        ghost var before := aofBuf;
        aofBuf, selectedDb := FeedAppendOnlyFile(aofBuf, selectedDb, fs[i]);
        mem := w.exec(mem, fs[i].db, fs[i].argv);
        FeedGrows(w, old(selectedDb), old(mem), fs, i);
        assert aofBuf == start + Encode(FeedAll(old(selectedDb), fs[..i + 1]));
      }
      assert fs[..|fs|] == fs;
      if u.Txn? { aofBuf := CatAppendOnlyGenericCommand(aofBuf, EXEC); }
      UnitText(old(selectedDb), u, old(aofBuf), start, aofBuf);
    }

    /** Writes `n` bytes of the buffer at the descriptor's position; a short write is taken back when
        `undone` says that the truncation works. */
    method FlushAppendOnlyFile(n: nat, undone: bool)
      requires manifest.incr != [] && n <= |aofBuf|
      modifies this`files, this`aofBuf, this`fd
      ensures State() == Flush(old(State()), n, undone)
    {
      hide Writer.WriteAt;
      var name := manifest.incr[|manifest.incr| - 1].name;
      var bytes := BytesOf(files, name);
      assert SetBytes(files, name, bytes) == files;
      if |aofBuf| == 0 || n == 0 { return; }
      var at := if fd.append then |bytes| else fd.pos;
      var wrote := Writer.WriteAt(bytes, at, aofBuf[..n]);
      fd := fd.(pos := at + n);
      if n < |aofBuf| && undone && 0 <= fd.lastSize <= |wrote| {
        files := SetBytes(files, name, wrote[..fd.lastSize]);
        return;
      }
      files := SetBytes(files, name, wrote);
      fd := fd.(lastSize := fd.lastSize + n);
      aofBuf := aofBuf[n..];
    }

    /** Creates the next INCR file on a copy of the manifest, which is installed once it is on disk. */
    method OpenNewIncrAofForAppend(off: int, r: OpenResult)
      requires off >= 0 && manifest.currIncr >= 0 && AllFormattable(Files(manifest.Value()))
      modifies this`files, this`manifestText, this`manifest, this`fd
      ensures AllFormattable(Files(NewIncr(old(manifest.Value()), env.prefix, off)))
      ensures State() == OpenNewIncr(env, old(State()), off, r)
      ensures manifest == old(manifest) || fresh(manifest)
    {
      hide FormatManifest, IncrName;
      NewIncrFormattable(manifest.Value(), env.prefix, off);
      var temp := new ManifestObject.Dup(manifest.Value());
      var name := temp.GetNewIncrAofName(env.prefix, off);
      if r == OpenFails { return; }
      files := files[name := Log("")];
      if r == OpenPersistFails { return; }
      manifestText := Some(FormatManifest(temp.Value()));
      temp.dirty := false;
      manifest := temp;
      fd := Fd(false, 0, 0);
    }

    method RewriteAppendOnlyFileBackground(n: nat, undone: bool, off: int, r: OpenResult, forked: bool)
      requires Usable(State()) && off >= 0 && n <= |aofBuf|
      modifies this
      ensures AllFormattable(Files(NewIncr(old(manifest.Value()), env.prefix, off)))
      ensures State() == StartRewrite(env, old(State()), n, undone, off, r, forked)
    {
      hide FormatManifest, IncrName, AllFormattable;
      selectedDb := -1;
      FlushAppendOnlyFile(n, undone);
      OpenNewIncrAofForAppend(off, r);
      if r == Opened && forked { child := Rewriting(mem); }
    }

    /** Removes history files one by one, then rewrites the manifest without them. */
    method AofDelHistoryFiles(persisted: bool)
      requires AllFormattable(Files(manifest.Value()))
      modifies this`files, this`manifestText, manifest
      ensures AllFormattable(Files(old(manifest.Value()).(history := [])))
      ensures State() == DelHistory(old(State()), persisted)
    {
      hide AllFormattable, FormatManifest, Files;
      DropFormattable(manifest.Value());
      if |manifest.history| == 0 { return; }
      ghost var m := manifest.Value();
      var i := 0;
      assert files - HistoryNames(m, 0) == files;
      while i < |manifest.history|
        invariant 0 <= i <= |m.history| && manifest.Value() == m && manifestText == old(manifestText)
        invariant files == old(files) - HistoryNames(m, i)
      {
        files := files - {manifest.history[i].name};
        assert HistoryNames(m, i + 1) == HistoryNames(m, i) + {m.history[i].name};
        i := i + 1;
      }
      manifest.history := [];
      manifest.dirty := true;
      SameFiles(m.(history := []), manifest.Value());
      if persisted {
        manifestText := Some(FormatManifest(manifest.Value()));
        manifest.dirty := false;
        AofRefinement.FormatSame(m.(history := [], dirty := true), manifest.Value());
      }
    }

    /** Installs the snapshot of the child as the new BASE; the files it replaces become history. */
    method InstallSnapshot(rdb: bool, r: CommitResult)
      requires child.Rewriting? && manifest.currBase >= 0 && AllFormattable(Files(manifest.Value()))
      modifies this`files, this`manifestText, this`manifest, this`child
      ensures AllFormattable(Files(CommittedManifest(env, old(manifest.Value()), rdb)))
      ensures State() == RewriteDone(env, old(State()), rdb, r)
      ensures manifest == old(manifest) || fresh(manifest)
      ensures AllFormattable(Files(manifest.Value()))
    {
      hide FormatManifest, BaseName, AllFormattable, Files, MarkRewritten;
      CommittedFormattable(env, manifest.Value(), rdb);
      if r == ChildFails {
        child := NoChild;
        return;
      }
      var temp := new ManifestObject.Dup(manifest.Value());
      var name := temp.GetNewBaseFileNameAndMarkPreAsHistory(env.prefix, rdb);
      if r == RenameFails {
        child := NoChild;
        return;
      }
      files := files[name := Snapshot(child.snapshot)];
      temp.MarkRewrittenIncrAofAsHistory();
      child := NoChild;
      if r == CommitPersistFails {
        files := files - {name};
        return;
      }
      manifestText := Some(FormatManifest(temp.Value()));
      temp.dirty := false;
      manifest := temp;
      SameFiles(CommittedManifest(env, old(manifest.Value()), rdb), manifest.Value());
    }

    /** The child has finished: its snapshot is installed, and what it replaces is deleted. */
    method BackgroundRewriteDoneHandler(rdb: bool, r: CommitResult, deleted: bool)
      requires child.Rewriting? && manifest.currBase >= 0 && AllFormattable(Files(manifest.Value()))
      modifies this, manifest
      ensures AllFormattable(Files(CommittedManifest(env, old(manifest.Value()), rdb)))
      ensures var done := RewriteDone(env, old(State()), rdb, r);
              && (r == Committed ==> AllFormattable(Files(done.manifest.(history := []))))
              && State() == if r == Committed then DelHistory(done, deleted) else done
    {
      hide CommittedManifest, RewriteDone, AllFormattable, Files, DelHistory;
      InstallSnapshot(rdb, r);
      if r == Committed { AofDelHistoryFiles(deleted); }
    }
  }

  lemma FedNothing<D>(w: World<D>, sel: int, d: D)
    ensures FeedAll(sel, []) == [] && SelAfter(sel, []) == sel && Effects(w, d, []) == d
  {
  }

  lemma SameFiles(m: Manifest, m': Manifest)
    requires m.base == m'.base && m.history == m'.history && m.incr == m'.incr
    ensures Files(m) == Files(m')
  {
  }

  lemma EncodeNothing()
    ensures Encode([]) == ""
  {
  }

  lemma {:induction false} FeedAllGrows(sel: int, fs: seq<Fed>, f: Fed)
    requires DbsOk(fs + [f]) && DbsOk(fs) && f.db >= -1
    ensures FeedAll(sel, fs + [f]) == FeedAll(sel, fs) + FeedOne(SelAfter(sel, fs), f)
    ensures SelAfter(sel, fs + [f]) == NextSel(SelAfter(sel, fs), f)
    decreases |fs|
  {
    hide FeedOne, NextSel;
    if fs == [] {
      assert fs + [f] == [f] && [f][1..] == [];
      assert FeedAll(NextSel(sel, f), []) == [];
    } else {
      assert (fs + [f])[1..] == fs[1..] + [f];
      FeedAllGrows(NextSel(sel, fs[0]), fs[1..], f);
    }
  }

  lemma {:induction false} EffectsGrow<D>(w: World<D>, d: D, fs: seq<Fed>, f: Fed)
    ensures Effects(w, d, fs + [f]) == w.exec(Effects(w, d, fs), f.db, f.argv)
    decreases |fs|
  {
    if fs == [] {
      assert fs + [f] == [f] && [f][1..] == [];
    } else {
      assert (fs + [f])[1..] == fs[1..] + [f];
      EffectsGrow(w, w.exec(d, fs[0].db, fs[0].argv), fs[1..], f);
    }
  }

  lemma FeedGrows<D>(w: World<D>, sel: int, d: D, fs: seq<Fed>, i: nat)
    requires DbsOk(fs) && i < |fs|
    ensures FeedAll(sel, fs[..i + 1]) == FeedAll(sel, fs[..i]) + FeedOne(SelAfter(sel, fs[..i]), fs[i])
    ensures SelAfter(sel, fs[..i + 1]) == NextSel(SelAfter(sel, fs[..i]), fs[i])
    ensures Effects(w, d, fs[..i + 1]) == w.exec(Effects(w, d, fs[..i]), fs[i].db, fs[i].argv)
    ensures Encode(FeedAll(sel, fs[..i + 1]))
            == Encode(FeedAll(sel, fs[..i])) + Encode(FeedOne(SelAfter(sel, fs[..i]), fs[i]))
  {
    hide Encode, FeedOne, NextSel;
    assert fs[..i + 1] == fs[..i] + [fs[i]];
    FeedAllGrows(sel, fs[..i], fs[i]);
    EffectsGrow(w, d, fs[..i], fs[i]);
    EncodeAppend(FeedAll(sel, fs[..i]), FeedOne(SelAfter(sel, fs[..i]), fs[i]));
  }

  lemma UnitText(sel: int, u: Unit, before: string, start: string, after: string)
    requires DbsOk(UnitCommands(u))
    requires start == if u.Txn? then before + EncodeCommand(MULTI) else before
    requires var body := start + Encode(FeedAll(sel, UnitCommands(u)));
             after == if u.Txn? then body + EncodeCommand(EXEC) else body
    ensures after == before + Encode(UnitItems(sel, u))
  {
    hide EncodeCommand, FeedAll;
    if u.Txn? {
      var body := FeedAll(sel, u.cmds);
      AofRepair.EncodeGrows([Cmd(MULTI)] + body, Cmd(EXEC));
      EncodeAppend([Cmd(MULTI)], body);
      assert Encode([Cmd(MULTI)]) == EncodeCommand(MULTI) + Encode([]);
    }
  }
}
