/** The three conditions under which the protocol is proved: what a caller can do to meet them, and that
    without them it fails. */
module AofConditions {
  import opened Wrappers
  import opened Decimal
  import opened AofCodec
  import opened AofLoader
  import opened AofRepair
  import opened AofFeed
  import opened AofUnits
  import opened AofManifest
  import opened AofRotation
  import opened AofProtocol
  import opened AofVersions
  import opened AofRefinement
  import Writer = AofWriter

  // ---------------------------------------------------------------- runs without gaps

  predicate CarefulRun<D>(w: World<D>, ss: seq<State<D>>, es: seq<Event>)
    requires |es| < |ss| && forall i :: 0 <= i < |es| && ss[i].Up? ==> ss[i].server.manifest.incr != []
  {
    forall i :: 0 <= i < |es| ==> Careful(w, ss[i], es[i])
  }

  ghost predicate EndsOk<D>(s: State<D>) {
    s.Up? ==> s.server.manifest.incr != [] && AtEnd(s.server)
  }

  lemma CarefulIsSafe<D>(w: World<D>, s: State<D>, e: Event)
    requires EndsOk(s) && Careful(w, s, e)
    ensures Safe(w, s, e)
  {
    hide AtEnd, TornInMulti, TailBytes, Gaps;
  }

  /** What the current file holds is what the relation says. */
  lemma AtEndMeans<D>(w: World<D>, env: Env, sv: Server<D>, a: Abs<D>, x: Witness, md: Manifest, written: string)
    requires ServerOk(w, env, sv, a, x, md, written)
    ensures sv.manifest.incr != []
    ensures WriterOf(sv) == Writer.Writer(written, sv.fd.pos, sv.fd.append, sv.buf, sv.fd.lastSize)
    ensures AtEnd(sv) <==> sv.fd.append || sv.fd.pos == |written|
  {
    hide FilesOk, Encode, ReplayLog, AllFormattable, Orderly;
    CurrentBytes(w, sv.disk.files, sv.manifest, a, x, written);
  }

  lemma FlushAtEnd<D>(sv: Server<D>, written: string, n: nat, undone: bool)
    requires sv.manifest.incr != [] && n <= |sv.buf| && AtEnd(sv) && DescriptorOk(sv.fd, |written|)
    requires var name := CurrentName(sv.manifest); name in sv.disk.files && sv.disk.files[name] == Log(written)
    requires !Writer.LeavesGap(WriterOf(sv), Writer.Write(n, undone))
    ensures AtEnd(Flush(sv, n, undone))
  {
    hide Writer.Next, Writer.WriteBytes;
    Writer.WriteStays(WriterOf(sv), n, undone);
  }

  lemma OpenAtEnd<D>(env: Env, sv: Server<D>, off: int, r: OpenResult)
    requires sv.manifest.incr != [] && sv.manifest.currIncr >= 0
    requires AllFormattable(Files(NewIncr(sv.manifest, env.prefix, off)))
    requires AtEnd(sv) && IncrName(env.prefix, sv.manifest.currIncr + 1) != CurrentName(sv.manifest)
    ensures AtEnd(OpenNewIncr(env, sv, off, r))
  {
    hide FormatManifest, IncrName;
  }

  lemma StartRewriteAtEnd<D>(
      w: World<D>, env: Env, sv: Server<D>, a: Abs<D>, x: Witness, md: Manifest, written: string,
      n: nat, undone: bool, off: int, r: OpenResult, forked: bool)
    requires ServerOk(w, env, sv, a, x, md, written) && Usable(sv) && n <= |sv.buf| && AtEnd(sv)
    requires AllFormattable(Files(NewIncr(sv.manifest, env.prefix, off)))
    requires !Writer.LeavesGap(WriterOf(sv), Writer.Write(n, undone))
    ensures var sv' := StartRewrite(env, sv, n, undone, off, r, forked); sv'.manifest.incr != [] && AtEnd(sv')
  {
    hide FilesOk, Encode, ReplayLog, AllFormattable, Orderly, Flush, IncrName, FormatManifest, LiveNames;
    CurrentBytes(w, sv.disk.files, sv.manifest, a, x, written);
    var sv1 := sv.(selectedDb := -1);
    assert WriterOf(sv1) == WriterOf(sv);
    FlushAtEnd(sv1, written, n, undone);
    FlushKeeps(sv1, n, undone);
    NextIncrIsFresh(sv.manifest, env.prefix);
    CurrentIsLive(sv.manifest);
    OpenAtEnd(env, Flush(sv1, n, undone), off, r);
  }

  lemma CurrentIsLive(m: Manifest)
    requires m.incr != []
    ensures CurrentName(m) in LiveNames(m)
  {
    assert m.incr[|m.incr| - 1].name in LiveNames(m);
  }

  /** As long as no partial write is taken back on such a descriptor, every write lands at the end. */
  lemma StepKeepsAtEnd<D(!new)>(w: World<D>, env: Env, s: State<D>, a: Abs<D>, e: Event)
    requires Setting(w, env) && R(w, env, s, a) && Enabled(w, env, s, e) && (s.Up? ==> Usable(s.server))
    requires EndsOk(s) && Careful(w, s, e)
    ensures EndsOk(After(w, env, s, e))
  {
    hide ServerOk, DiskOk, Feed, Flush, StartRewrite, RewriteDone, DelHistory, Crashed, Start, AllFormattable;
    hide UnitFeedable, Setting;
    hide TailBytes, TornInMulti, AtEnd;
    SettingParts(w, env);
    var x, md, written :| Related(w, env, s, a, x, md, written);
    match e {
      case DoFeed(u) =>
        var a', x' := FeedRefines(w, env, s.server, a, x, md, written, u);
        assert DbsOk(UnitCommands(u)) by { FeedableDbs(w, u); }
        FeedFd(w, s.server, u);
        SameEnd(w, env, s.server, Feed(w, s.server, u), a, x, md, a', x', md, written);
      case DoFlush(n, undone) =>
        ServerCurrent(w, env, s.server, a, x, md, written);
        FlushAtEnd(s.server, written, n, undone);
        FlushKeeps(s.server, n, undone);
      case DoStartRewrite(n, undone, off, open, forked) =>
        NewIncrFormattable(s.server.manifest, env.prefix, off);
        StartRewriteAtEnd(w, env, s.server, a, x, md, written, n, undone, off, open, forked);
      case DoRewriteDone(rdb, commit) =>
        CommittedFormattable(env, s.server.manifest, rdb);
        var x', md' := RewriteDoneRefines(w, env, s.server, a, x, md, written, rdb, commit);
        RewriteFd(env, s.server, rdb, commit);
        SameEnd(w, env, s.server, RewriteDone(env, s.server, rdb, commit), a, x, md, a, x', md', written);
      case DoDelHistory(persisted) =>
        DropFormattable(s.server.manifest);
        var md' := DelHistoryRefines(w, env, s.server, a, x, md, written, persisted);
        DelFd(s.server, persisted);
        SameEnd(w, env, s.server, DelHistory(s.server, persisted), a, x, md, a, x, md', written);
      case DoCrash(p) =>
      case DoStart(rdb, off) => StartAtEnd(w, env, s.disk, rdb, off);
      case DoStartCrash(_, _) =>
    }
  }

  lemma ServerCurrent<D>(w: World<D>, env: Env, sv: Server<D>, a: Abs<D>, x: Witness, md: Manifest, written: string)
    requires ServerOk(w, env, sv, a, x, md, written)
    ensures sv.manifest.incr != [] && DescriptorOk(sv.fd, |written|)
    ensures var name := CurrentName(sv.manifest); name in sv.disk.files && sv.disk.files[name] == Log(written)
  {
    hide FilesOk, Encode, ReplayLog, AllFormattable, Orderly;
    CurrentBytes(w, sv.disk.files, sv.manifest, a, x, written);
  }

  lemma SameEnd<D>(
      w: World<D>, env: Env, sv: Server<D>, sv': Server<D>, a: Abs<D>, x: Witness, md: Manifest,
      a': Abs<D>, x': Witness, md': Manifest, written: string)
    requires ServerOk(w, env, sv, a, x, md, written) && ServerOk(w, env, sv', a', x', md', written) && sv'.fd == sv.fd
    requires sv.manifest.incr != [] && AtEnd(sv)
    ensures sv'.manifest.incr != [] && AtEnd(sv')
  {
    hide ServerOk, AtEnd;
    AtEndMeans(w, env, sv, a, x, md, written);
    AtEndMeans(w, env, sv', a', x', md', written);
  }

  lemma FeedableDbs<D(!new)>(w: World<D>, u: Unit)
    requires UnitFeedable(w, u)
    ensures DbsOk(UnitCommands(u))
  {
  }

  lemma FeedFd<D>(w: World<D>, sv: Server<D>, u: Unit)
    requires DbsOk(UnitCommands(u))
    ensures Feed(w, sv, u).fd == sv.fd
  {
  }

  lemma RewriteFd<D>(env: Env, sv: Server<D>, rdb: bool, r: CommitResult)
    requires sv.child.Rewriting? && sv.manifest.currBase >= 0
    requires AllFormattable(Files(CommittedManifest(env, sv.manifest, rdb)))
    ensures RewriteDone(env, sv, rdb, r).fd == sv.fd
  {
  }

  lemma DelFd<D>(sv: Server<D>, persisted: bool)
    requires AllFormattable(Files(sv.manifest.(history := [])))
    ensures DelHistory(sv, persisted).fd == sv.fd
  {
  }

  lemma StartAtEnd<D>(w: World<D>, env: Env, disk: Disk<D>, rdb: bool, off: int)
    requires off >= 0
    ensures EndsOk(Start(w, env, disk, rdb, off))
  {
    hide LoadFiles, ParseManifest, FormatManifest, AllFormattable, FilesOnStart, BaseName, IncrName;
  }

  /** So every run without such a step is a safe one. */
  lemma {:induction false} CarefulRunIsSafe<D(!new)>(w: World<D>, env: Env, ss: seq<State<D>>, es: seq<Event>)
    requires Setting(w, env) && IsRun(w, env, ss, es) && CarefulRun(w, ss, es)
    ensures SafeRun(w, ss, es) && forall i :: 0 <= i < |ss| ==> EndsOk(ss[i])
    decreases |es|
  {
    hide R, After, Enabled, AbsAfter, AllFormattable, Setting, Safe, Careful, EndsOk, Fresh;
    if es == [] {
      FreshEnds(env, ss[0]);
    } else {
      var k := |es| - 1;
      RunPrefix(w, env, ss, es);
      CarefulRunIsSafe(w, env, ss[..k + 1], es[..k]);
      var abs := EveryRunRefines(w, env, ss[..k + 1], es[..k]);
      var ss', es' := ss[..k + 1], es[..k];
      assert ss'[k] == ss[k] && EndsOk(ss'[k]) && R(w, env, ss'[k], abs[k]);
      CarefulIsSafe(w, ss[k], es[k]);
      StepKeepsAtEnd(w, env, ss[k], abs[k], es[k]);
      forall i | 0 <= i < |es| ensures ss[i].Up? ==> Usable(ss[i].server) { }
      forall i | 0 <= i < |es| ensures (ss[i].Up? ==> ss[i].server.manifest.incr != []) && Safe(w, ss[i], es[i]) {
        if i < k { assert ss[i] == ss'[i] && es[i] == es'[i] && Safe(w, ss'[i], es'[i]); }
      }
      forall i | 0 <= i < |ss| ensures EndsOk(ss[i]) {
        if i <= k { assert ss[i] == ss'[i]; }
      }
    }
  }

  lemma FreshEnds<D>(env: Env, s: State<D>)
    requires Fresh(env, s)
    ensures EndsOk(s)
  {
  }

  lemma RunPrefix<D(!new)>(w: World<D>, env: Env, ss: seq<State<D>>, es: seq<Event>)
    requires IsRun(w, env, ss, es) && es != []
    ensures IsRun(w, env, ss[..|es|], es[..|es| - 1])
  {
    hide After, Enabled, Usable, Fresh;
  }

  // ---------------------------------------------------------------- writing past the end

  /** A load that meets zero bytes has run what is before them, and then gives up or cuts off the rest. */
  lemma LoadZeros(cfg: Config, lookup: Lookup, items: seq<Item>, gap: nat, more: string)
    requires cfg.loadTruncated && AllWritable(lookup, items) && NoNesting(lookup, items) && gap > 0
    ensures var r := LoadFile(cfg, lookup, Encode(items) + Writer.Zeros(gap) + more);
            && r.status in {AofFailed, AofBrokenRecovered} && (cfg.corruptTailMax == 0 ==> r.status == AofFailed)
            && r.executed == Meaning(lookup, items).executed
  {
    hide ReadEntry, EncodeItem, RunItems, Meaning;
    var _ := Bookkeeping(cfg, lookup, items);
    var rest := Writer.Zeros(gap) + more;
    var file := Encode(items) + rest;
    assert Encode(items) + Writer.Zeros(gap) + more == file;
    ZerosAreBad(gap, more);
    LoadReaches(cfg, lookup, file, items, rest, 0, NewLoader);
    assert file[0..] == file;
    if items == [] {
      assert file[0] == '\0';
    } else {
      FirstByte(items, |Encode(items)|);
      assert file[0] == Encode(items)[..|Encode(items)|][0];
    }
  }

  lemma ZerosAreBad(gap: nat, more: string)
    requires gap > 0
    ensures ReadEntry(Writer.Zeros(gap) + more) == BadFormat
  {
    var s := Writer.Zeros(gap) + more;
    assert s[0] == '\0';
    assert Fgets(s)[0] == s[0];
  }

  /** What a write `gap` bytes past the end makes of a file. */
  function HoleText(written: string, gap: nat, more: string): string {
    written + Writer.Zeros(gap) + more
  }

  lemma WholeOfPrefix(items: seq<Item>, q: nat)
    requires q <= |items|
    ensures |Encode(items[..q])| <= |Encode(items)| && Whole(items, |Encode(items[..q])|) == q
  {
    hide Encode, Whole;
    var k := |Encode(items[..q])|;
    assert items[..|items|] == items;
    EncodePrefix(items, q, |items|);
    FitsInWhole(items, q, k);
    var n := Whole(items, k);
    if n > q {
      WholeFits(items, k);
      EncodePrefix(items, q + 1, n);
      assert items[..q + 1] == items[..q] + [items[q]];
      EncodeAppend(items[..q], [items[q]]);
      NonEmptyText([items[q]]);
    }
  }

  /** A buffer written past the end leaves a hole at which the next load stops. Either it fails, or it comes back
      with the version that was durable before, so that nothing of the buffer is in it. */
  lemma HoleBreaksLoad<D(!new)>(
      w: World<D>, env: Env, sv: Server<D>, a: Abs<D>, x: Witness, md: Manifest, written: string, q: nat)
    returns (files: map<string, File<D>>)
    requires Setting(w, env) && ServerOk(w, env, sv, a, x, md, written)
    requires q <= |CurrentLog(x)| && written == Encode(CurrentLog(x)[..q])
    requires sv.manifest.incr != [] && sv.buf != [] && !AtEnd(sv)
    ensures var sv' := Flush(sv, |sv.buf|, false);
            && sv'.buf == [] && sv'.manifest == sv.manifest && FoundManifest(sv'.disk).Ok? && AbsOk(a)
            && HoleResult(w, env, LoadFiles(w, env.cfg, FoundManifest(sv'.disk).value, sv'.disk.files),
                          a.versions[a.durable], files)
            && LoadFile(env.cfg, w.lookup, BytesOf(sv'.disk.files, CurrentName(sv'.manifest))).status
               in {AofFailed, AofBrokenRecovered}
  {
    hide Encode, Orderly, LoadFiles, GoodPrefix, ParseManifest, FilesOk, Flush, AtEnd, Setting, ServerOk, CurrentLog;
    hide LoadFile, HoleResult, AbsOk;
    hide HoleText;
    SettingParts(w, env);
    AtEndMeans(w, env, sv, a, x, md, written);
    ServerCurrent(w, env, sv, a, x, md, written);
    ServerFound(w, env, sv, a, x, md, written);
    HoleBytes(sv, written);
    FlushKeeps(sv, |sv.buf|, false);
    files := HoleLoads(w, env, sv.disk.files, md.(dirty := false), a, x, written, q, sv.fd.pos - |written|, sv.buf);
  }

  /** The load fails, or it cuts off the hole and gives the version that was durable before. */
  ghost predicate HoleResult<D>(w: World<D>, env: Env, loaded: LoadOutcome<D>, d: D, files: map<string, File<D>>) {
    && (loaded == LoadFails || loaded == Loaded(d, files))
    && (env.cfg.corruptTailMax == 0 ==> loaded == LoadFails)
  }

  lemma HoleLoads<D>(
      w: World<D>, env: Env, files: map<string, File<D>>, m: Manifest, a: Abs<D>, x: Witness, written: string,
      q: nat, gap: nat, more: string)
    returns (after: map<string, File<D>>)
    requires Repairing(env.cfg) && Orderly(m, env.prefix) && m.incr != [] && gap > 0
    requires FilesOk(w, files, m, a, x, written) && q <= |CurrentLog(x)| && written == Encode(CurrentLog(x)[..q])
    ensures var bytes := HoleText(written, gap, more);
            && AbsOk(a) && LoadFile(env.cfg, w.lookup, bytes).status in {AofFailed, AofBrokenRecovered}
            && HoleResult(w, env, LoadFiles(w, env.cfg, m, files[CurrentName(m) := Log(bytes)]),
                          a.versions[a.durable], after)
  {
    hide Encode, Orderly, LoadFiles, Standing, LoadFile, ReplayLogs, VersionsOk, DurableOk, Replay, OldFilesOk, BaseOk;
    hide Whole, WholeUnits, Meaning;
    VersionsIndex(w, a, x);
    var bytes := HoleText(written, gap, more);
    var files' := files[CurrentName(m) := Log(bytes)];
    OthersKept(w, env.prefix, files, files', m, a.versions[x.v0], x.olds);
    LogStanding(w.lookup, x.units, x.pending);
    WritablePrefix(w.lookup, CurrentLog(x), q);
    LoadZeros(env.cfg, w.lookup, CurrentLog(x)[..q], gap, more);
    LoadReachesTail(w, env.cfg, m, files', x.olds, a.versions[x.v0], bytes);
    LoadedTail(w, env.cfg, a, x, written);
    WholeOfPrefix(CurrentLog(x), q);
    assert written == Encode(CurrentLog(x))[..|written|];
    LoadCutStanding(env.cfg, w.lookup, CurrentLog(x), |written|);
    after := files'[CurrentName(m) := Log(LoadFile(env.cfg, w.lookup, bytes).file)];
  }

  lemma HoleBytes<D>(sv: Server<D>, written: string)
    requires sv.manifest.incr != [] && sv.buf != [] && !sv.fd.append && |written| < sv.fd.pos
    requires var name := CurrentName(sv.manifest); name in sv.disk.files && sv.disk.files[name] == Log(written)
    ensures var sv' := Flush(sv, |sv.buf|, false);
            var bytes := HoleText(written, sv.fd.pos - |written|, sv.buf);
            && sv'.buf == []
            && sv'.disk == Disk(sv.disk.files[CurrentName(sv.manifest) := Log(bytes)], sv.disk.manifest)
  {
    assert sv.buf[..|sv.buf|] == sv.buf;
  }

  lemma WritablePrefix(lookup: Lookup, items: seq<Item>, q: nat)
    requires Standing(lookup, items) && q <= |items|
    ensures AllWritable(lookup, items[..q]) && NoNesting(lookup, items[..q])
  {
    assert forall i :: 0 <= i <= q ==> items[..q][..i] == items[..i];
  }

  /** The exact condition for a flush: when the file ends with a whole item, writing the buffer keeps the
      log right if and only if it lands at the end. */
  lemma FlushRefinesIff<D(!new)>(
      w: World<D>, env: Env, sv: Server<D>, a: Abs<D>, x: Witness, md: Manifest, written: string, q: nat)
    requires Setting(w, env) && ServerOk(w, env, sv, a, x, md, written)
    requires q <= |CurrentLog(x)| && written == Encode(CurrentLog(x)[..q])
    requires sv.manifest.incr != [] && sv.buf != []
    ensures (exists a': Abs<D> :: R(w, env, Up(Flush(sv, |sv.buf|, false)), a')) <==> AtEnd(sv)
  {
    hide ServerOk, Flush, AtEnd, LoadFiles, FoundManifest, Setting, LoadFile, HoleResult;
    var sv' := Flush(sv, |sv.buf|, false);
    if AtEnd(sv) {
      var a', written' := FlushRefines(w, env, sv, a, x, md, written, |sv.buf|, false);
      assert Related(w, env, Up(sv'), a', x, md, written');
      assert R(w, env, Up(sv'), a');
    } else {
      var _ := HoleBreaksLoad(w, env, sv, a, x, md, written, q);
      BadTailUnrelated(w, env, sv');
    }
  }

  /** The current file of a related state loads, at worst after cutting off a torn tail. */
  lemma BadTailUnrelated<D(!new)>(w: World<D>, env: Env, sv: Server<D>)
    requires Setting(w, env) && sv.manifest.incr != []
    requires LoadFile(env.cfg, w.lookup, BytesOf(sv.disk.files, CurrentName(sv.manifest))).status
             in {AofFailed, AofBrokenRecovered}
    ensures forall a: Abs<D> :: !R(w, env, Up(sv), a)
  {
    hide LoadFile, FilesOk, ServerOk, Setting, Encode, WholeUnits, Whole, Replay;
    SettingParts(w, env);
    forall a: Abs<D> ensures !R(w, env, Up(sv), a) {
      if R(w, env, Up(sv), a) {
        var x, md, written :| Related(w, env, Up(sv), a, x, md, written);
        ServerCurrent(w, env, sv, a, x, md, written);
        ServerTail(w, env, sv, a, x, md, written);
      }
    }
  }

  lemma ServerTail<D>(w: World<D>, env: Env, sv: Server<D>, a: Abs<D>, x: Witness, md: Manifest, written: string)
    requires Repairing(env.cfg) && ServerOk(w, env, sv, a, x, md, written)
    ensures LoadFile(env.cfg, w.lookup, written).status in {AofOk, AofEmpty, AofTruncated}
  {
    hide LoadFile, Encode, WholeUnits, Whole, Replay, VersionsOk, DurableOk, LogsOk, OldFilesOk, BaseOk, Orderly;
    hide ReplayLog;
    LoadedTail(w, env.cfg, a, x, written);
  }

  /** A failing run: after a rewrite has opened the next file, a short write is taken back, and the
      write that follows is lost with all the log says it holds. */
  lemma GapRun<D(!new)>(w: World<D>, env: Env, ss: seq<State<D>>, es: seq<Event>, rdb: bool, off: int, off': int,
                 forked: bool, u: Unit, n: nat, k: nat)
    returns (files: map<string, File<D>>)
    requires Setting(w, env) && IsRun(w, env, ss, es)
    requires es
             == [DoStart(rdb, off), DoStartRewrite(0, false, off', Opened, forked), DoFeed(u), DoFlush(n, true),
                 DoFlush(k, false)]
    requires ss[3].Up? && 0 < n < |ss[3].server.buf| == k
    ensures ss[5].Up? && ss[5].server.buf == [] && FoundManifest(ss[5].server.disk).Ok?
    ensures ss[5].server.mem == UnitEffect(w, w.empty, u)
    ensures HoleResult(w, env, LoadFiles(w, env.cfg, FoundManifest(ss[5].server.disk).value, ss[5].server.disk.files),
                       w.empty, files)
    ensures forall a: Abs<D> :: !R(w, env, ss[5], a)
  {
    hide LoadFiles, Setting, Feed, Flush, Start, StartRewrite, FoundManifest, Usable, AtEnd, UnitFeedable, SafeRun;
    hide Fresh, R, HoleResult, UnitEffect, Wrote;
    assert ss[4] == After(w, env, ss[3], es[3]) && ss[5] == After(w, env, ss[4], es[4]);
    assert es[..3] == [DoStart(rdb, off), DoStartRewrite(0, false, off', Opened, forked), DoFeed(u)];
    var sv := GapPrefix(w, env, ss, es, rdb, off, off', forked, u);
    var abs := EveryRunRefines(w, env, ss[..4], es[..3]);
    assert ss[..4][3] == Up(sv) && R(w, env, ss[..4][3], abs[3]);
    GapVersions(w, env, ss[..4], es[..3], abs, rdb, off, off', forked, u);
    files := GapThenFlush(w, env, sv, abs[3], n);
  }

  /** Nothing but the empty dataset is durable before the command is flushed. */
  lemma GapVersions<D(!new)>(w: World<D>, env: Env, ss: seq<State<D>>, es: seq<Event>, abs: seq<Abs<D>>, rdb: bool,
                      off: int, off': int, forked: bool, u: Unit)
    requires AbsRun(w, env, ss, es, abs)
    requires es == [DoStart(rdb, off), DoStartRewrite(0, false, off', Opened, forked), DoFeed(u)]
    ensures abs[3].versions == [w.empty, UnitEffect(w, w.empty, u)] && abs[3].durable == 0
  {
    hide R, Feed, UnitFeedable, UnitEffect, Staying, Wrote;
    assert abs[1] == AbsAfter(w, env, ss[0], abs[0], es[0]) == Abs([w.empty], 0, []);
    assert abs[2] == AbsAfter(w, env, ss[1], abs[1], es[1]);
    WroteMeans(abs[1], Staying(ss[1].server, 0, false));
    assert abs[3] == AbsAfter(w, env, ss[2], abs[2], es[2]);
    assert [w.empty] + [UnitEffect(w, w.empty, u)] == [w.empty, UnitEffect(w, w.empty, u)];
  }

  lemma GapThenFlush<D(!new)>(w: World<D>, env: Env, sv: Server<D>, a: Abs<D>, n: nat)
    returns (files: map<string, File<D>>)
    requires Setting(w, env) && R(w, env, Up(sv), a)
    requires sv.manifest.incr != [] && sv.fd == Fd(false, 0, 0)
    requires BytesOf(sv.disk.files, CurrentName(sv.manifest)) == ""
    requires 0 < n < |sv.buf|
    ensures var sv1 := Flush(sv, n, true);
            && sv1.buf == sv.buf && sv1.manifest == sv.manifest && AbsOk(a) && sv.mem == Newest(a)
            && (var sv2 := Flush(sv1, |sv.buf|, false);
                && sv2.buf == [] && FoundManifest(sv2.disk).Ok? && sv2.mem == sv.mem
                && HoleResult(w, env, LoadFiles(w, env.cfg, FoundManifest(sv2.disk).value, sv2.disk.files),
                              a.versions[a.durable], files)
                && forall b: Abs<D> :: !R(w, env, Up(sv2), b))
  {
    hide LoadFiles, Setting, Flush, ServerOk, ParseManifest, AtEnd, LoadFile, HoleResult, AbsOk, Wrote;
    RelatedAbsOk(w, env, Up(sv), a);
    var x, md, written :| Related(w, env, Up(sv), a, x, md, written);
    ServerCurrent(w, env, sv, a, x, md, written);
    var a', _ := FlushRefines(w, env, sv, a, x, md, written, n, true);
    FlushShape(sv, "", n, true);
    assert sv.buf[0..] == sv.buf;
    GapNotAtEnd(sv, n);
    assert CurrentLog(x)[..0] == [] && Encode([]) == "";
    var sv1 := Flush(sv, n, true);
    FlushKeeps(sv, n, true);
    FlushKeeps(sv1, |sv1.buf|, false);
    files := HoleBreaksLoad(w, env, sv1, a', x, md, "", 0);
    BadTailUnrelated(w, env, Flush(sv1, |sv1.buf|, false));
  }

  lemma GapPrefix<D(!new)>(w: World<D>, env: Env, ss: seq<State<D>>, es: seq<Event>, rdb: bool, off: int, off': int,
                    forked: bool, u: Unit)
    returns (sv: Server<D>)
    requires Setting(w, env) && IsRun(w, env, ss, es) && |es| >= 3
    requires es[..3] == [DoStart(rdb, off), DoStartRewrite(0, false, off', Opened, forked), DoFeed(u)]
    ensures IsRun(w, env, ss[..4], es[..3]) && SafeRun(w, ss[..4], es[..3])
    ensures ss[3] == Up(sv) && sv.fd == Fd(false, 0, 0) && sv.manifest.incr != []
    ensures BytesOf(sv.disk.files, CurrentName(sv.manifest)) == ""
  {
    hide BaseName, IncrName, FormatManifest, Feed, AllFormattable, Writer.Next, ParseManifest, Setting, Start;
    hide StartRewrite;
    FirstFiles(w, env, ss[0].disk, rdb, off);
    assert es[0] == es[..3][0] && es[1] == es[..3][1] && es[2] == es[..3][2];
    var sv1 := ss[1].server;
    assert ss[1] == After(w, env, ss[0], es[0]);
    assert ss[2] == After(w, env, ss[1], es[1]);
    assert ss[3] == After(w, env, ss[2], es[2]);
    NewIncrFormattable(sv1.manifest, env.prefix, off');
    var sv2 := ss[2].server;
    OpenedFile(env, sv1, off', forked);
    sv := ss[3].server;
    FeedFiles(w, sv2, u);
    NothingTorn(w.lookup, false);
    assert TailBytes(ss[0].disk) == "";
  }

  lemma OpenedFile<D>(env: Env, sv: Server<D>, off: int, forked: bool)
    requires Usable(sv) && sv.buf == [] && AllFormattable(Files(NewIncr(sv.manifest, env.prefix, off)))
    ensures var sv' := StartRewrite(env, sv, 0, false, off, Opened, forked);
            && sv'.fd == Fd(false, 0, 0) && sv'.manifest.incr != []
            && BytesOf(sv'.disk.files, CurrentName(sv'.manifest)) == ""
  {
    hide IncrName, FormatManifest, Flush;
    FlushKeeps(sv.(selectedDb := -1), 0, false);
  }

  lemma FeedFiles<D>(w: World<D>, sv: Server<D>, u: Unit)
    requires DbsOk(UnitCommands(u))
    ensures var sv' := Feed(w, sv, u); sv'.fd == sv.fd && sv'.manifest == sv.manifest && sv'.disk == sv.disk
  {
  }

  lemma GapNotAtEnd<D>(sv: Server<D>, n: nat)
    requires sv.manifest.incr != [] && sv.fd == Fd(false, 0, 0) && 0 < n < |sv.buf|
    requires var name := CurrentName(sv.manifest); name in sv.disk.files && sv.disk.files[name] == Log("")
    ensures !AtEnd(Flush(sv, n, true))
  {
    hide Writer.Next;
    Writer.StepKeepsBytes(WriterOf(sv), Writer.Write(n, true));
  }

  // ---------------------------------------------------------------- starting from a torn transaction

  /** A start always comes up with what was loaded; the current file is as the loader left it. */
  lemma StartLoads<D(!new)>(w: World<D>, env: Env, disk: Disk<D>, a: Abs<D>, x: Witness, md: Manifest,
                     written: string, rdb: bool, off: int)
    requires Setting(w, env) && disk.manifest.Some? && off >= 0 && DiskOk(w, env, disk, a, x, md, written)
    ensures AbsOk(a) && x.v0 < |a.versions| && Orderly(md.(dirty := false), env.prefix)
    ensures Start(w, env, disk, rdb, off).Up?
    ensures var sv := Start(w, env, disk, rdb, off).server;
            var r := LoadFile(env.cfg, w.lookup, written);
            && sv.manifest == md.(dirty := false) && sv.manifest.incr != [] && FoundManifest(disk) == Ok(sv.manifest)
            && sv.disk == Disk(disk.files[CurrentName(sv.manifest) := Log(r.file)], disk.manifest)
            && sv.buf == [] && sv.selectedDb == -1 && sv.child.NoChild? && sv.fd == Fd(true, 0, |r.file|)
            && sv.mem == Replay(w, Cursor(a.versions[x.v0], 0), r.executed).data
            && FilesOk(w, disk.files, sv.manifest, a, x, written) && TailBytes(disk) == written
  {
    hide Encode, Orderly, LoadFiles, GoodPrefix, ParseManifest, FormatManifest, ReplayLog, LoadFile, Replay, Setting;
    hide LogsOk, DurableOk, VersionsOk, ReplayLogs, Whole, WholeUnits, TailBytes;
    SettingParts(w, env);
    ManifestFound(w, env, disk, a, x, md, md, written);
    var m := md.(dirty := false);
    VersionsIndex(w, a, x);
    StandingOlds(w.lookup, x);
    LoadReachesTail(w, env.cfg, m, disk.files, x.olds, a.versions[x.v0], written);
    LoadedTail(w, env.cfg, a, x, written);
    FormatSame(md, m);
    OrderlyCounters(m, env.prefix);
    var r := LoadFile(env.cfg, w.lookup, written);
    if r.status != AofTruncated {
      assert disk.files[CurrentName(m) := Log(r.file)] == disk.files;
    }
  }

  lemma StandingOlds(lookup: Lookup, x: Witness)
    requires LogsOk(lookup, x)
    ensures forall i :: 0 <= i < |x.olds| ==> Standing(lookup, x.olds[i])
  {
  }

  /** A related server with nothing buffered has a current file that loads without complaint. */
  lemma RelatedReloads<D(!new)>(w: World<D>, env: Env, sv: Server<D>, a: Abs<D>)
    requires Setting(w, env) && R(w, env, Up(sv), a) && sv.buf == []
    ensures sv.manifest.incr != []
    ensures LoadFile(env.cfg, w.lookup, BytesOf(sv.disk.files, CurrentName(sv.manifest))).status in {AofOk, AofEmpty}
  {
    hide Encode, Orderly, LoadFile, Standing, VersionsOk, DurableOk, OldFilesOk, BaseOk, ReplayLog, Stored;
    hide AllFormattable;
    var x, md, written :| Related(w, env, Up(sv), a, x, md, written);
    ServerCurrent(w, env, sv, a, x, md, written);
    assert written + [] == written;
    LogStanding(w.lookup, x.units, x.pending);
    LoadStanding(env.cfg, w.lookup, CurrentLog(x));
  }

  /** The exact condition for a start: it can go on if and only if the last file does not end in a
      command torn inside a transaction. */
  lemma StartRefinesIff<D(!new)>(w: World<D>, env: Env, disk: Disk<D>, a: Abs<D>, rdb: bool, off: int)
    requires Setting(w, env) && R(w, env, Down(disk), a) && disk.manifest.Some? && OffsetInRange(off)
    ensures (exists a': Abs<D> :: R(w, env, Start(w, env, disk, rdb, off), a'))
            <==> !TornInMulti(w.lookup, TailBytes(disk), false)
  {
    hide Encode, Orderly, LoadFile, FilesOk, GoodPrefix, FoundManifest, TailBytes, Start, TornInMulti, Setting;
    hide Stored, ServerOk;
    SettingParts(w, env);
    var x, md, written :| Related(w, env, Down(disk), a, x, md, written);
    StartLoads(w, env, disk, a, x, md, written, rdb, off);
    var s := Start(w, env, disk, rdb, off);
    if !TornInMulti(w.lookup, written, false) {
      var a', x', written' := StartRefines(w, env, disk, a, x, md, written, rdb, off);
      assert Related(w, env, s, a', x', md, written');
      assert R(w, env, s, a');
    } else {
      CutOfLog(w, disk.files, md.(dirty := false), a, x, written);
      ReloadsCleanlyIff(env.cfg, w.lookup, CurrentLog(x), |written|);
      forall a': Abs<D> ensures !R(w, env, s, a') {
        if R(w, env, s, a') {
          RelatedReloads(w, env, s.server, a');
        }
      }
    }
  }

  lemma CutOfLog<D>(w: World<D>, files: map<string, File<D>>, m: Manifest, a: Abs<D>, x: Witness, written: string)
    requires m.incr != [] && FilesOk(w, files, m, a, x, written)
    ensures Standing(w.lookup, CurrentLog(x)) && |written| <= |Encode(CurrentLog(x))|
    ensures written == Encode(CurrentLog(x))[..|written|]
  {
    hide Encode, Standing, VersionsOk, DurableOk, OldFilesOk, BaseOk;
    LogStanding(w.lookup, x.units, x.pending);
  }

  /** What goes wrong after such a start: a command is run, appended and written, and yet the next load
      gives the dataset without it. */
  lemma TornStartLosesCommands<D(!new)>(w: World<D>, env: Env, disk: Disk<D>, a: Abs<D>, rdb: bool, off: int, f: Fed)
    returns (files: map<string, File<D>>)
    requires Setting(w, env) && R(w, env, Down(disk), a) && disk.manifest.Some? && OffsetInRange(off)
    requires TornInMulti(w.lookup, TailBytes(disk), false) && UnitFeedable(w, Single(f))
    ensures Start(w, env, disk, rdb, off).Up? && DbsOk([f])
    ensures var sv := Start(w, env, disk, rdb, off).server;
            var fed := Feed(w, sv, Single(f));
            && fed.manifest.incr != [] && fed.mem == w.exec(sv.mem, f.db, f.argv)
            && (var sv' := Flush(fed, |fed.buf|, false);
                && sv'.mem == fed.mem && sv'.buf == [] && FoundManifest(sv'.disk).Ok?
                && LoadFiles(w, env.cfg, FoundManifest(sv'.disk).value, sv'.disk.files) == Loaded(sv.mem, files))
  {
    hide Encode, Orderly, LoadFile, LoadFiles, FilesOk, GoodPrefix, ParseManifest, TailBytes, Start, TornInMulti;
    hide Setting, Stored, Flush, Replay;
    hide FeedAll, SelAfter, UnitEffect;
    SettingParts(w, env);
    var x, md, written :| Related(w, env, Down(disk), a, x, md, written);
    StartLoads(w, env, disk, a, x, md, written, rdb, off);
    var sv := Start(w, env, disk, rdb, off).server;
    var more := FeedAll(-1, [f]);
    FeedableDbs(w, Single(f));
    var fed := Feed(w, sv, Single(f));
    SingleEffect(w, sv.mem, f);
    CutOfLog(w, disk.files, sv.manifest, a, x, written);
    SwallowedTail(w, env.cfg, CurrentLog(x), |written|, f);
    var r := LoadFile(env.cfg, w.lookup, written);
    assert fed.buf == "" + Encode(more) == Encode(more);
    AppendedBytes(fed, r.file);
    var name, bytes := CurrentName(sv.manifest), r.file + Encode(more);
    assert disk.files[name := Log(r.file)][name := Log(bytes)] == disk.files[name := Log(bytes)];
    files := TailLoads(w, env, disk.files, sv.manifest, a, x, written, r.file + Encode(more));
  }

  lemma SingleEffect<D>(w: World<D>, d: D, f: Fed)
    ensures UnitEffect(w, d, Single(f)) == w.exec(d, f.db, f.argv)
  {
    assert [f][1..] == [];
    assert Effects(w, d, [f]) == Effects(w, w.exec(d, f.db, f.argv), []);
  }

  lemma SwallowedTail<D(!new)>(w: World<D>, cfg: Config, items: seq<Item>, k: nat, f: Fed)
    requires Repairing(cfg) && Standing(w.lookup, items) && k <= |Encode(items)| && Sane(w)
    requires UnitFeedable(w, Single(f)) && DbsOk([f])
    requires TornInMulti(w.lookup, Encode(items)[..k], false)
    ensures var r := LoadFile(cfg, w.lookup, Encode(items)[..k]);
            var again := LoadFile(cfg, w.lookup, r.file + Encode(FeedAll(-1, [f])));
            again.status == AofTruncated && again.executed == r.executed
  {
    hide Encode, LoadFile, TornInMulti, RunClient, EncodeItem, ReadEntry;
    TornInMultiCut(w.lookup, items, k, NewClient);
    var more := FeedAll(-1, [f]);
    assert [f][1..] == [] && FeedAll(NextSel(-1, f), []) == [];
    assert more == FeedOne(-1, f);
    SelectWritable(w, f);
    AppendAfterTornTransaction(cfg, w.lookup, items, k, more);
  }

  lemma SelectWritable<D(!new)>(w: World<D>, f: Fed)
    requires Sane(w) && UnitFeedable(w, Single(f)) && f.db >= -1
    ensures AllWritable(w.lookup, FeedOne(-1, f)) && MultiFree(w.lookup, FeedOne(-1, f))
  {
    assert Feedable(w, [f][0]);
    if f.db >= 0 { PrintWidth64(f.db); }
  }

  lemma AppendedBytes<D>(sv: Server<D>, written: string)
    requires sv.manifest.incr != [] && sv.fd == Fd(true, 0, |written|)
    requires var name := CurrentName(sv.manifest); name in sv.disk.files && sv.disk.files[name] == Log(written)
    ensures var sv' := Flush(sv, |sv.buf|, false);
            && sv'.buf == [] && sv'.mem == sv.mem
            && sv'.disk == Disk(sv.disk.files[CurrentName(sv.manifest) := Log(written + sv.buf)], sv.disk.manifest)
  {
    hide Flush;
    FlushShape(sv, written, |sv.buf|, false);
    FlushKeeps(sv, |sv.buf|, false);
    assert sv.buf[..|sv.buf|] == sv.buf && sv.buf[|sv.buf|..] == [];
  }

  lemma TailLoads<D>(
      w: World<D>, env: Env, files: map<string, File<D>>, m: Manifest, a: Abs<D>, x: Witness, written: string,
      bytes: string)
    returns (files': map<string, File<D>>)
    requires Repairing(env.cfg) && Orderly(m, env.prefix) && m.incr != [] && FilesOk(w, files, m, a, x, written)
    requires LoadFile(env.cfg, w.lookup, bytes).status == AofTruncated
    ensures AbsOk(a) && x.v0 < |a.versions|
    ensures LoadFiles(w, env.cfg, m, files[CurrentName(m) := Log(bytes)])
            == Loaded(Replay(w, Cursor(a.versions[x.v0], 0), LoadFile(env.cfg, w.lookup, bytes).executed).data, files')
  {
    hide Encode, Orderly, LoadFiles, Standing, LoadFile, ReplayLogs, VersionsOk, DurableOk, Replay, OldFilesOk, BaseOk;
    VersionsIndex(w, a, x);
    var now := files[CurrentName(m) := Log(bytes)];
    OthersKept(w, env.prefix, files, now, m, a.versions[x.v0], x.olds);
    LoadReachesTail(w, env.cfg, m, now, x.olds, a.versions[x.v0], bytes);
    files' := now[CurrentName(m) := Log(LoadFile(env.cfg, w.lookup, bytes).file)];
  }

  // ---------------------------------------------------------------- rewriting with a buffer

  /** A rewrite starts while only `n` bytes could be flushed; then it commits and the buffer drains. */
  function RewriteWithBuffer<D>(env: Env, sv: Server<D>, n: nat, undone: bool, off: int, rdb: bool): Server<D>
    requires Usable(sv) && off >= 0 && n <= |sv.buf|
  {
    NewIncrFormattable(sv.manifest, env.prefix, off);
    var sv1 := StartRewrite(env, sv, n, undone, off, Opened, true);
    CommittedFormattable(env, sv1.manifest, rdb);
    var sv2 := RewriteDone(env, sv1, rdb, Committed);
    Flush(sv2, |sv2.buf|, false)
  }

  /** What the flush before the rewrite leaves in the buffer. */
  function Leftover<D>(sv: Server<D>, n: nat, undone: bool): string
    requires n <= |sv.buf|
  {
    if Keeps(sv, n, undone) then sv.buf[n..] else sv.buf
  }

  lemma FlushLeaves<D>(sv: Server<D>, n: nat, undone: bool)
    requires sv.manifest.incr != [] && n <= |sv.buf|
    requires sv.fd.lastSize == |BytesOf(sv.disk.files, CurrentName(sv.manifest))|
    requires sv.fd.append || sv.fd.lastSize <= sv.fd.pos
    ensures Flush(sv, n, undone).buf == Leftover(sv, n, undone)
  {
    var wr := WriterOf(sv);
    Writer.WriteLands(wr, sv.buf[..n]);
    assert sv.buf[0..] == sv.buf && sv.buf[|sv.buf|..] == [];
  }

  lemma RewriteWithBufferDisk<D>(env: Env, sv: Server<D>, n: nat, undone: bool, off: int, rdb: bool)
    requires Usable(sv) && off >= 0 && n <= |sv.buf|
    requires DescriptorOk(sv.fd, |BytesOf(sv.disk.files, CurrentName(sv.manifest))|)
    ensures var sv' := RewriteWithBuffer(env, sv, n, undone, off, rdb);
            var m := sv'.manifest;
            && sv'.buf == [] && sv'.mem == sv.mem
            && m.base.Some? && |m.incr| == 1
            && m.base.value.name in sv'.disk.files && sv'.disk.files[m.base.value.name] == Snapshot(sv.mem)
            && m.incr[0].name in sv'.disk.files && sv'.disk.files[m.incr[0].name] == Log(Leftover(sv, n, undone))
  {
    hide StartRewrite, RewriteDone, AllFormattable, Flush, Usable, Leftover;
    UsableParts(sv);
    NewIncrFormattable(sv.manifest, env.prefix, off);
    BufferOpened(env, sv, n, undone, off);
    var sv1 := StartRewrite(env, sv, n, undone, off, Opened, true);
    CommittedFormattable(env, sv1.manifest, rdb);
    BufferCommitted(env, sv1, sv.manifest.currIncr + 1, rdb);
    var sv2 := RewriteDone(env, sv1, rdb, Committed);
    FlushShape(sv2, "", |sv2.buf|, false);
    FlushKeeps(sv2, |sv2.buf|, false);
    assert sv2.buf[..|sv2.buf|] == sv2.buf && "" + sv2.buf == sv2.buf && sv2.buf[|sv2.buf|..] == [];
  }

  lemma UsableParts<D>(sv: Server<D>)
    requires Usable(sv)
    ensures sv.manifest.incr != [] && sv.manifest.currBase >= 0 && sv.manifest.currIncr >= 0
    ensures AllFormattable(Files(sv.manifest))
  {
    hide AllFormattable;
  }

  /** The rewrite has started: the leftover waits for a new empty file. */
  lemma BufferOpened<D>(env: Env, sv: Server<D>, n: nat, undone: bool, off: int)
    requires Usable(sv) && off >= 0 && n <= |sv.buf| && AllFormattable(Files(NewIncr(sv.manifest, env.prefix, off)))
    requires DescriptorOk(sv.fd, |BytesOf(sv.disk.files, CurrentName(sv.manifest))|)
    ensures var sv1 := StartRewrite(env, sv, n, undone, off, Opened, true);
            && sv1.buf == Leftover(sv, n, undone) && sv1.mem == sv.mem && sv1.child == Rewriting(sv.mem)
            && sv1.fd == Fd(false, 0, 0) && sv1.manifest.currBase == sv.manifest.currBase && sv1.manifest.incr != []
            && AllFormattable(Files(sv1.manifest))
            && CurrentName(sv1.manifest) == IncrName(env.prefix, sv.manifest.currIncr + 1)
            && CurrentName(sv1.manifest) in sv1.disk.files && sv1.disk.files[CurrentName(sv1.manifest)] == Log("")
  {
    hide IncrName, FormatManifest, AllFormattable, Flush, Leftover;
    var sv0 := sv.(selectedDb := -1);
    FlushLeaves(sv0, n, undone);
    SameLeftover(sv, sv0, n, undone);
    FlushKeeps(sv0, n, undone);
    var m := NewIncr(sv.manifest, env.prefix, off);
    FormatSame(m, m.(dirty := false));
  }

  lemma SameLeftover<D>(sv: Server<D>, sv': Server<D>, n: nat, undone: bool)
    requires sv'.buf == sv.buf && n <= |sv.buf|
    ensures Leftover(sv', n, undone) == Leftover(sv, n, undone)
  {
  }

  /** The rewrite has committed: a snapshot and one file that is still empty. */
  lemma BufferCommitted<D>(env: Env, sv: Server<D>, k: nat, rdb: bool)
    requires sv.child.Rewriting? && sv.manifest.currBase >= 0 && sv.manifest.incr != []
    requires AllFormattable(Files(CommittedManifest(env, sv.manifest, rdb)))
    requires CurrentName(sv.manifest) == IncrName(env.prefix, k)
    requires CurrentName(sv.manifest) in sv.disk.files && sv.disk.files[CurrentName(sv.manifest)] == Log("")
    ensures var sv' := RewriteDone(env, sv, rdb, Committed);
            var m := sv'.manifest;
            && sv'.buf == sv.buf && sv'.mem == sv.mem && sv'.fd == sv.fd && m.base.Some? && |m.incr| == 1
            && m.base.value.name != m.incr[0].name && m.incr[0].name == CurrentName(m) == CurrentName(sv.manifest)
            && m.base.value.name in sv'.disk.files && sv'.disk.files[m.base.value.name] == Snapshot(sv.child.snapshot)
            && m.incr[0].name in sv'.disk.files && sv'.disk.files[m.incr[0].name] == Log("")
  {
    hide BaseName, IncrName, FormatManifest, AllFormattable;
    BaseIsNotIncr(env.prefix, sv.manifest.currBase + 1, k, rdb);
  }

  /** Why the forced flush must empty the buffer: what is left in it is replayed on top of a snapshot that
      already contains it. Whatever bytes are left, the load runs on top of the snapshot what it reads in them,
      and fails when it cannot read them. With nothing left the reload is right; with whole commands left it
      is right only for commands that change nothing when they are run once more. */
  lemma BufferedDataReplayedTwice<D>(
      w: World<D>, env: Env, sv: Server<D>, n: nat, undone: bool, off: int, rdb: bool)
    requires Repairing(env.cfg) && Usable(sv) && off >= 0 && n <= |sv.buf|
    requires DescriptorOk(sv.fd, |BytesOf(sv.disk.files, CurrentName(sv.manifest))|)
    ensures var sv' := RewriteWithBuffer(env, sv, n, undone, off, rdb);
            var loaded := LoadFiles(w, env.cfg, sv'.manifest, sv'.disk.files);
            var left := Leftover(sv, n, undone);
            var r := LoadFile(env.cfg, w.lookup, left);
            && sv'.buf == [] && sv'.mem == sv.mem
            && (loaded.LoadFails? <==> r.status !in {AofOk, AofEmpty, AofTruncated, AofBrokenRecovered})
            && (loaded.Loaded? ==> loaded.data == Replay(w, Cursor(sv.mem, 0), r.executed).data)
            && (left == [] ==> loaded == Loaded(sv'.mem, sv'.disk.files))
            && (forall rest :: Standing(w.lookup, rest) && left == Encode(rest) ==>
                  loaded == Loaded(ReplayLog(w, sv.mem, rest).data, sv'.disk.files))
  {
    hide RewriteWithBuffer, Encode, LoadFile, Standing, Usable, Leftover, Meaning, Replay;
    RewriteWithBufferDisk(env, sv, n, undone, off, rdb);
    var sv' := RewriteWithBuffer(env, sv, n, undone, off, rdb);
    var m, files := sv'.manifest, sv'.disk.files;
    var left := Leftover(sv, n, undone);
    assert m.incr[1..] == [];
    LoadLast(w, env.cfg, m, files, sv.mem, left);
    EmptyLoads(w, env.cfg, sv.mem);
    forall rest | Standing(w.lookup, rest) && left == Encode(rest)
      ensures LoadFiles(w, env.cfg, m, files) == Loaded(ReplayLog(w, sv.mem, rest).data, files)
    {
      LoadStanding(env.cfg, w.lookup, rest);
      ReplayOf(w, sv.mem, rest, LoadFile(env.cfg, w.lookup, left).executed);
    }
  }

  lemma ReplayOf<D>(w: World<D>, d: D, log: seq<Item>, executed: seq<Argv>)
    requires executed == Meaning(w.lookup, log).executed
    ensures Replay(w, Cursor(d, 0), executed) == ReplayLog(w, d, log)
  {
  }

  lemma EmptyLoads<D>(w: World<D>, cfg: Config, d: D)
    ensures LoadFile(cfg, w.lookup, "").status == AofEmpty
    ensures Replay(w, Cursor(d, 0), LoadFile(cfg, w.lookup, "").executed).data == d
  {
  }

  /** Loading a BASE and one INCR file. */
  lemma LoadLast<D>(w: World<D>, cfg: Config, m: Manifest, files: map<string, File<D>>, d: D, bytes: string)
    requires m.base.Some? && |m.incr| == 1 && m.incr[1..] == []
    requires m.base.value.name in files && files[m.base.value.name] == Snapshot(d)
    requires m.incr[0].name in files && files[m.incr[0].name] == Log(bytes)
    ensures var r := LoadFile(cfg, w.lookup, bytes);
            var d' := Replay(w, Cursor(d, 0), r.executed).data;
            LoadFiles(w, cfg, m, files)
            == if r.status in {AofOk, AofEmpty} then Loaded(d', files)
               else if r.status in {AofTruncated, AofBrokenRecovered} then
                 Loaded(d', files[m.incr[0].name := Log(r.file)])
               else LoadFails
  {
    hide LoadFile, Replay;
    var r := LoadFile(cfg, w.lookup, bytes);
    var d' := Replay(w, Cursor(d, 0), r.executed).data;
    assert LoadIncrs(w, cfg, m.incr[1..], files, d') == Loaded(d', files);
    var cut := files[m.incr[0].name := Log(r.file)];
    assert LoadIncrs(w, cfg, m.incr[1..], cut, d') == Loaded(d', cut);
  }

  // ---------------------------------------------------------------- a counter

  const INCR := ["INCR", "k"]

  /** A dataset of one number that INCR increments. */
  function CounterWorld(): World<int> {
    World((d: int, db: int, argv: Argv) => if argv == INCR then d + 1 else d,
          (argv: Argv) => if argv == MULTI then Multi else if argv == EXEC then Exec else Plain,
          0)
  }

  /** A failing run: the rewrite starts while an INCR is still buffered. Memory says 1, and a load of the
      files that the server has written completely says 2. */
  lemma CounterCountedTwice(env: Env, ss: seq<State<int>>, es: seq<Event>, rdb: bool, off: int, off': int, n: nat)
    requires Repairing(env.cfg) && GoodPrefix(env.prefix) && IsRun(CounterWorld(), env, ss, es)
    requires es == [DoStart(rdb, off), DoFeed(Single(Fed(0, INCR))), DoStartRewrite(0, true, off', Opened, true),
                    DoRewriteDone(rdb, Committed), DoFlush(n, false)]
    requires ss[4].Up? && n == |ss[4].server.buf|
    ensures Setting(CounterWorld(), env)
    ensures ss[5].Up? && ss[5].server.buf == [] && ss[5].server.mem == 1
    ensures LoadFiles(CounterWorld(), env.cfg, ss[5].server.manifest, ss[5].server.disk.files)
            == Loaded(2, ss[5].server.disk.files)
  {
    hide LoadFiles, StartRewrite, RewriteDone, Flush, Usable, AllFormattable, Fresh, UnitItems, LoadFile, Replay;
    hide GoodPrefix, Start, Feed, Encode, Standing, ReplayLog, UnitFeedable;
    var w := CounterWorld();
    CounterIsSane();
    assert ss[3] == After(w, env, ss[2], es[2]);
    assert ss[4] == After(w, env, ss[3], es[3]) && ss[5] == After(w, env, ss[4], es[4]);
    CounterFed(env, ss, es, rdb, off);
    var sv := ss[2].server;
    var rest := UnitItems(-1, Single(Fed(0, INCR)));
    CounterReplays();
    assert sv.buf[0..] == sv.buf;
    BufferedDataReplayedTwice(w, env, sv, 0, true, off', rdb);
    assert Leftover(sv, 0, true) == Encode(rest);
    assert ss[5].server == RewriteWithBuffer(env, sv, 0, true, off', rdb);
  }

  /** Started and fed with one INCR: memory is 1 and the buffer holds the command. */
  lemma CounterFed(env: Env, ss: seq<State<int>>, es: seq<Event>, rdb: bool, off: int)
    requires IsRun(CounterWorld(), env, ss, es) && |es| >= 2
    requires es[0] == DoStart(rdb, off) && es[1] == DoFeed(Single(Fed(0, INCR)))
    ensures ss[2].Up? && ss[2].server.mem == 1 && ss[2].server.manifest.incr != []
    ensures ss[2].server.buf == Encode(UnitItems(-1, Single(Fed(0, INCR))))
    ensures var sv := ss[2].server; DescriptorOk(sv.fd, |BytesOf(sv.disk.files, CurrentName(sv.manifest))|)
  {
    hide Start, BaseName, IncrName, FormatManifest, AllFormattable, Fresh, UnitItems, UnitEffect, FeedAll, SelAfter;
    var w, u := CounterWorld(), Single(Fed(0, INCR));
    assert ss[1] == After(w, env, ss[0], es[0]) && ss[2] == After(w, env, ss[1], es[1]);
    FreshDisk(env, ss[0]);
    FirstFiles(w, env, ss[0].disk, rdb, off);
    SingleEffect(w, 0, Fed(0, INCR));
    assert "" + Encode(UnitItems(-1, u)) == Encode(UnitItems(-1, u));
  }

  lemma FreshDisk<D>(env: Env, s: State<D>)
    requires Fresh(env, s)
    ensures s.Down? && s.disk.manifest.None?
    ensures IncrName(env.prefix, 1) in s.disk.files ==> s.disk.files[IncrName(env.prefix, 1)] == Log("")
  {
  }

  lemma CounterReplays()
    ensures var rest := UnitItems(-1, Single(Fed(0, INCR)));
            Standing(CounterWorld().lookup, rest) && ReplayLog(CounterWorld(), 1, rest).data == 2
  {
    hide FeedAll, SelAfter, RunClient, Replay;
    var w, f := CounterWorld(), Fed(0, INCR);
    CounterIsSane();
    assert |INCR| == 2 && INCR[0][0] == 'I';
    assert Feedable(w, f);
    assert UnitFeedable(w, Single(f));
    UnitIsAtomic(w, -1, Single(f));
    ReplayFeed(w, Cursor(1, 0), -1, [f]);
    SingleEffect(w, 1, f);
  }

  lemma CounterIsSane()
    ensures Sane(CounterWorld())
  {
    forall db: nat ensures CounterWorld().lookup(SelectCommand(db)) == Plain {
      assert SelectCommand(db)[0] == "SELECT";
      assert |SelectCommand(db)| == 2 && |MULTI| == 1 && |EXEC| == 1;
    }
    assert MULTI[0][0] == 'M' && EXEC[0][0] == 'E';
  }
}
