/** The proof that the protocol refines the list of versions, for every run. */
module AofRefinement {
  import opened Wrappers
  import opened Decimal
  import opened AofCodec
  import opened AofLoader
  import opened AofRepair
  import opened AofFeed
  import opened AofUnits
  import opened AofManifest
  import opened AofRotation
  import opened AofProtocol
  import opened AofVersions
  import Writer = AofWriter

  // ---------------------------------------------------------------- one step

  predicate Usable<D>(sv: Server<D>) {
    && sv.manifest.incr != [] && sv.manifest.currBase >= 0 && sv.manifest.currIncr >= 0
    && AllFormattable(Files(sv.manifest))
  }

  lemma NewIncrFormattable(m: Manifest, prefix: string, off: int)
    requires m.currIncr >= 0 && off >= 0 && AllFormattable(Files(m))
    ensures AllFormattable(Files(NewIncr(m, prefix, off)))
  {
    var m' := NewIncr(m, prefix, off);
    assert Files(m') == Files(m) + [m'.incr[|m.incr|]];
  }

  predicate PartsFormattable(m: Manifest) {
    && (m.base.Some? ==> Formattable(m.base.value))
    && AllFormattable(m.history) && AllFormattable(m.incr)
  }

  lemma FormattableParts(m: Manifest)
    ensures AllFormattable(Files(m)) <==> PartsFormattable(m)
  {
    hide Formattable;
    var files := Files(m);
    var n := if m.base.Some? then 1 else 0;
    var h := |m.history|;
    assert m.base.Some? ==> files[0] == m.base.value;
    if AllFormattable(files) {
      forall i | 0 <= i < h ensures Formattable(m.history[i]) { assert files[n + i] == m.history[i]; }
      forall i | 0 <= i < |m.incr| ensures Formattable(m.incr[i]) { assert files[n + h + i] == m.incr[i]; }
    }
    if PartsFormattable(m) {
      forall i | 0 <= i < |files| ensures Formattable(files[i]) {
        assert n <= i < n + h ==> files[i] == m.history[i - n];
        assert n + h <= i ==> files[i] == m.incr[i - n - h];
      }
    }
  }

  lemma NewBaseFormattable(m: Manifest, prefix: string, rdb: bool)
    requires m.currBase >= 0 && PartsFormattable(m)
    ensures PartsFormattable(NewBase(m, prefix, rdb))
  {
    hide NumberedName;
    var m1 := NewBase(m, prefix, rdb);
    forall i | 0 <= i < |m1.history| ensures Formattable(m1.history[i]) {
      if m.base.Some? && i > 0 { assert m1.history[i] == m.history[i - 1]; }
    }
  }

  lemma MarkFormattable(m: Manifest)
    requires PartsFormattable(m)
    ensures PartsFormattable(MarkRewritten(m))
  {
    var m2 := MarkRewritten(m);
    if m.incr != [] {
      var last := |m.incr| - 1;
      forall i | 0 <= i < |m2.history| ensures Formattable(m2.history[i]) {
        if i < last {
          assert m2.history[i] == m.incr[i].(ftype := History);
        } else {
          assert m2.history[i] == m.history[i - last];
        }
      }
    }
  }

  lemma CommittedFormattable(env: Env, m: Manifest, rdb: bool)
    requires m.currBase >= 0 && AllFormattable(Files(m))
    ensures AllFormattable(Files(CommittedManifest(env, m, rdb)))
  {
    hide PartsFormattable, AllFormattable;
    FormattableParts(m);
    NewBaseFormattable(m, env.prefix, rdb);
    MarkFormattable(NewBase(m, env.prefix, rdb));
    FormattableParts(CommittedManifest(env, m, rdb));
  }

  lemma DropFormattable(m: Manifest)
    requires AllFormattable(Files(m))
    ensures AllFormattable(Files(m.(history := [])))
  {
    FormattableParts(m);
    FormattableParts(m.(history := []));
  }

  /** The machine's step function. */
  ghost function After<D(!new)>(w: World<D>, env: Env, s: State<D>, e: Event): State<D>
    requires Enabled(w, env, s, e) && (s.Up? ==> Usable(s.server))
  {
    match e
    case DoFeed(u) => Up(Feed(w, s.server, u))
    case DoFlush(n, undone) => Up(Flush(s.server, n, undone))
    case DoStartRewrite(n, undone, off, open, forked) =>
      NewIncrFormattable(s.server.manifest, env.prefix, off);
      Up(StartRewrite(env, s.server, n, undone, off, open, forked))
    case DoRewriteDone(rdb, commit) =>
      CommittedFormattable(env, s.server.manifest, rdb);
      Up(RewriteDone(env, s.server, rdb, commit))
    case DoDelHistory(persisted) =>
      DropFormattable(s.server.manifest);
      Up(DelHistory(s.server, persisted))
    case DoCrash(p) => Down(Crashed(env, s.server, p))
    case DoStart(rdb, off) => Start(w, env, s.disk, rdb, off)
    case DoStartCrash(rdb, incrToo) =>
      var files := s.disk.files[BaseName(env.prefix, 1, rdb) := Snapshot(w.empty)];
      var incr := IncrName(env.prefix, 1);
      Down(s.disk.(files := if incrToo && incr !in files then files[incr := Log("")] else files))
  }

  // ---------------------------------------------------------------- the relation

  /** What the live files hold: finished logs, and the current one as units with an idle tail.
      Version `v0` is the dataset when the current file was opened. */
  datatype Witness = Witness(olds: seq<seq<Item>>, units: seq<seq<Item>>, pending: seq<Item>, v0: nat)

  function CurrentLog(x: Witness): seq<Item> {
    LogOf(x.units, x.pending)
  }

  function ReplayLogs<D>(w: World<D>, d: D, logs: seq<seq<Item>>): D
    decreases |logs|
  {
    if logs == [] then d else ReplayLogs(w, ReplayLog(w, d, logs[0]).data, logs[1..])
  }

  lemma {:induction false} ReplayLogsAppend<D>(w: World<D>, d: D, logs: seq<seq<Item>>, log: seq<Item>)
    ensures ReplayLogs(w, d, logs + [log]) == ReplayLog(w, ReplayLogs(w, d, logs), log).data
    decreases |logs|
  {
    hide ReplayLog;
    if logs == [] {
      assert logs + [log] == [log] && [log][1..] == [];
    } else {
      assert (logs + [log])[1..] == logs[1..] + [log];
      ReplayLogsAppend(w, ReplayLog(w, d, logs[0]).data, logs[1..], log);
    }
  }

  ghost predicate LogsOk(lookup: Lookup, x: Witness) {
    && (forall i :: 0 <= i < |x.olds| ==> Standing(lookup, x.olds[i]))
    && AllAtomic(lookup, x.units) && Idle(lookup, x.pending)
  }

  /** Every version since `v0` is what replaying the units so far gives. */
  ghost predicate VersionsOk<D>(w: World<D>, a: Abs<D>, x: Witness) {
    && AbsOk(a)
    && x.v0 + |x.units| + 1 == |a.versions|
    && forall c :: 0 <= c <= |x.units| ==>
         ReplayLog(w, a.versions[x.v0], Flatten(x.units[..c])).data == a.versions[x.v0 + c]
  }

  /** Where the first `c` units of the current log end. */
  function UnitEnd(x: Witness, c: nat): nat
    requires c <= |x.units|
  {
    |Encode(Flatten(x.units[..c]))|
  }

  /** With `size` bytes in the current file, the lags say where the units that are not durable end. */
  ghost predicate LagFrom<D>(a: Abs<D>, x: Witness, size: int) {
    && x.v0 <= a.durable && a.durable - x.v0 + |a.lag| == |x.units|
    && forall i :: 0 <= i < |a.lag| ==> a.lag[i] == UnitEnd(x, a.durable - x.v0 + i + 1) - size
  }

  /** The durable units are exactly those that lie wholly within the bytes written so far. */
  ghost predicate DurableOk<D>(a: Abs<D>, x: Witness, written: string) {
    && LagFrom(a, x, |written|) && UnitEnd(x, a.durable - x.v0) <= |written|
    && (a.lag != [] ==> a.lag[0] > 0)
  }

  ghost predicate OldFilesOk<D>(files: map<string, File<D>>, m: Manifest, olds: seq<seq<Item>>) {
    && |m.incr| == |olds| + 1
    && forall i :: 0 <= i < |olds| ==>
         m.incr[i].name in files && files[m.incr[i].name] == Log(Encode(olds[i]))
  }

  ghost predicate BaseOk<D>(w: World<D>, files: map<string, File<D>>, m: Manifest, d: D, olds: seq<seq<Item>>) {
    && m.base.Some? && m.base.value.name in files && files[m.base.value.name].Snapshot?
    && ReplayLogs(w, files[m.base.value.name].data, olds) == d
  }

  /** The live files on disk, with `written` in the current one, hold the versions. */
  ghost predicate FilesOk<D>(w: World<D>, files: map<string, File<D>>, m: Manifest, a: Abs<D>, x: Witness,
                             written: string) {
    && LogsOk(w.lookup, x) && VersionsOk(w, a, x) && DurableOk(a, x, written)
    && OldFilesOk(files, m, x.olds) && BaseOk(w, files, m, a.versions[x.v0], x.olds)
    && CurrentName(m) in files && files[CurrentName(m)] == Log(written)
    && written <= Encode(CurrentLog(x))
  }

  /** The manifest text on disk lists the same live files as `m`. */
  ghost predicate Stored<D>(env: Env, disk: Disk<D>, m: Manifest, md: Manifest) {
    && Orderly(md, env.prefix) && md.base == m.base && md.incr == m.incr && md.incr != []
    && md.currBase < INT64_LIMIT && md.currIncr < INT64_LIMIT
    && AllFormattable(Files(md)) && disk.manifest == Some(FormatManifest(md))
  }

  /** The believed size is right, and the next write lands at the end or past it. */
  predicate DescriptorOk(fd: Fd, size: nat) {
    fd.lastSize == size && (fd.append || size <= fd.pos)
  }

  ghost predicate ServerOk<D>(w: World<D>, env: Env, sv: Server<D>, a: Abs<D>, x: Witness, md: Manifest,
                              written: string) {
    && Orderly(sv.manifest, env.prefix) && AllFormattable(Files(sv.manifest)) && Stored(env, sv.disk, sv.manifest, md)
    && FilesOk(w, sv.disk.files, sv.manifest, a, x, written)
    && written + sv.buf == Encode(CurrentLog(x))
    && sv.mem == Newest(a) && DescriptorOk(sv.fd, |written|)
    && (sv.selectedDb == -1 || sv.selectedDb == ReplayLog(w, a.versions[x.v0], CurrentLog(x)).db)
    && (sv.child.Rewriting? ==> sv.child.snapshot == a.versions[x.v0])
  }

  ghost predicate DiskOk<D>(w: World<D>, env: Env, disk: Disk<D>, a: Abs<D>, x: Witness, md: Manifest,
                            written: string) {
    if disk.manifest.None? then
      && a == Abs([w.empty], 0, [])
      && (IncrName(env.prefix, 1) in disk.files ==> disk.files[IncrName(env.prefix, 1)] == Log(""))
    else Stored(env, disk, md, md) && FilesOk(w, disk.files, md, a, x, written)
  }

  ghost predicate Related<D>(w: World<D>, env: Env, s: State<D>, a: Abs<D>, x: Witness, md: Manifest, written: string) {
    if s.Up? then ServerOk(w, env, s.server, a, x, md, written) else DiskOk(w, env, s.disk, a, x, md, written)
  }

  /** The refinement relation. */
  ghost predicate R<D>(w: World<D>, env: Env, s: State<D>, a: Abs<D>) {
    exists x: Witness, md: Manifest, written: string :: Related(w, env, s, a, x, md, written)
  }

  // ---------------------------------------------------------------- feeding

  /** The cursor after the current log is at the newest version. */
  lemma CurrentData<D>(w: World<D>, a: Abs<D>, x: Witness)
    requires LogsOk(w.lookup, x) && VersionsOk(w, a, x)
    ensures ReplayLog(w, a.versions[x.v0], CurrentLog(x)).data == Newest(a)
    ensures Standing(w.lookup, CurrentLog(x))
  {
    hide ReplayLog, Standing, Meaning;
    LogStanding(w.lookup, x.units, x.pending);
    FlattenStanding(w.lookup, x.units);
    assert x.units[..|x.units|] == x.units;
    ReplayPart(w, a.versions[x.v0], Flatten(x.units), x.pending);
  }

  lemma FeedVersions<D(!new)>(w: World<D>, a: Abs<D>, x: Witness, sel: int, u: Unit, more: int)
    requires Sane(w) && UnitFeedable(w, u) && LogsOk(w.lookup, x) && VersionsOk(w, a, x)
    requires sel == -1 || sel == ReplayLog(w, a.versions[x.v0], CurrentLog(x)).db
    ensures var unit := x.pending + UnitItems(sel, u);
            var x' := x.(units := x.units + [unit], pending := []);
            var a' := a.(versions := a.versions + [UnitEffect(w, Newest(a), u)], lag := a.lag + [more]);
            && LogsOk(w.lookup, x') && VersionsOk(w, a', x')
            && CurrentLog(x') == CurrentLog(x) + UnitItems(sel, u)
            && (var sel' := SelAfter(sel, UnitCommands(u));
                sel' == -1 || sel' == ReplayLog(w, a.versions[x.v0], CurrentLog(x')).db)
  {
    hide Standing, Meaning, Replay, Effects, UnitItems, OnlySelects;
    var items := UnitItems(sel, u);
    var unit := x.pending + items;
    var x' := x.(units := x.units + [unit], pending := []);
    var a' := a.(versions := a.versions + [UnitEffect(w, Newest(a), u)], lag := a.lag + [more]);
    var d := a.versions[x.v0];
    UnitIsAtomic(w, sel, u);
    IdleThenAtomic(w.lookup, x.pending, items);
    EmptyIdle(w.lookup);
    FlattenGrows(x.units, unit);
    assert CurrentLog(x') == CurrentLog(x) + items;
    CurrentData(w, a, x);
    ReplayLogAppend(w, d, CurrentLog(x), items);
    ReplayFeed(w, ReplayLog(w, d, CurrentLog(x)), sel, UnitCommands(u));
    forall c | 0 <= c <= |x'.units|
      ensures ReplayLog(w, a'.versions[x.v0], Flatten(x'.units[..c])).data == a'.versions[x.v0 + c]
    {
      if c <= |x.units| {
        assert x'.units[..c] == x.units[..c];
        assert a'.versions[x.v0 + c] == a.versions[x.v0 + c];
      } else {
        assert x'.units[..c] == x'.units;
        assert Flatten(x'.units) == CurrentLog(x');
      }
    }
  }

  lemma EmptyIdle(lookup: Lookup)
    ensures Idle(lookup, [])
  {
    EmptyStanding(lookup);
  }

  lemma FeedRefines<D(!new)>(w: World<D>, env: Env, sv: Server<D>, a: Abs<D>, x: Witness, md: Manifest,
                      written: string, u: Unit)
    returns (a': Abs<D>, x': Witness)
    requires Sane(w) && ServerOk(w, env, sv, a, x, md, written) && UnitFeedable(w, u)
    ensures ServerOk(w, env, Feed(w, sv, u), a', x', md, written)
    ensures a' == Abs(a.versions + [UnitEffect(w, sv.mem, u)], a.durable, a.lag + [|Feed(w, sv, u).buf|])
  {
    hide ReplayLog, UnitItems, UnitEffect, Orderly, Stored, LogsOk, OldFilesOk, BaseOk, VersionsOk, Encode, DurableOk;
    VersionsIndex(w, a, x);
    var items := UnitItems(sv.selectedDb, u);
    var more := |sv.buf| + |Encode(items)|;
    FeedVersions(w, a, x, sv.selectedDb, u, more);
    x' := x.(units := x.units + [x.pending + items], pending := []);
    a' := Abs(a.versions + [UnitEffect(w, sv.mem, u)], a.durable, a.lag + [more]);
    EncodeAppend(CurrentLog(x), items);
    AppendBuffer(written, sv.buf, Encode(items));
    assert a'.versions[x.v0] == a.versions[x.v0];
    UnitNotEmpty(sv.selectedDb, u);
    FeedLag(a, a', x, x', written, more);
  }

  lemma UnitNotEmpty(sel: int, u: Unit)
    requires DbsOk(UnitCommands(u))
    ensures Encode(UnitItems(sel, u)) != []
  {
    NonEmptyText(UnitItems(sel, u));
  }

  /** The new unit is the last one, and none of it is written. */
  lemma FeedLag<D>(a: Abs<D>, a': Abs<D>, x: Witness, x': Witness, written: string, more: int)
    requires DurableOk(a, x, written) && x'.v0 == x.v0 && x'.pending == []
    requires |x'.units| == |x.units| + 1 && x'.units[..|x.units|] == x.units
    requires a'.durable == a.durable && a'.lag == a.lag + [more]
    requires more > 0 && |written| + more == |Encode(CurrentLog(x'))|
    ensures DurableOk(a', x', written)
  {
    hide Encode, Flatten;
    forall c | 0 <= c <= |x.units| ensures UnitEnd(x', c) == UnitEnd(x, c) {
      assert x'.units[..c] == x.units[..c];
    }
    assert x'.units[..|x'.units|] == x'.units;
    assert Flatten(x'.units) + [] == Flatten(x'.units);
  }

  lemma AppendBuffer(written: string, buf: string, more: string)
    ensures written + (buf + more) == written + buf + more
    ensures written <= written + buf + more
  {
  }

  lemma VersionsIndex<D>(w: World<D>, a: Abs<D>, x: Witness)
    requires VersionsOk(w, a, x)
    ensures AbsOk(a) && x.v0 + |x.units| + 1 == |a.versions|
  {
    hide ReplayLog;
  }

  /** Whatever is related can be stepped. */
  lemma ServerUsable<D>(w: World<D>, env: Env, sv: Server<D>, a: Abs<D>, x: Witness, md: Manifest, written: string)
    requires ServerOk(w, env, sv, a, x, md, written)
    ensures Usable(sv)
  {
    hide FilesOk, AllFormattable, Encode, ReplayLog;
  }

  // ---------------------------------------------------------------- files that do not matter

  /** Live files other than the current one are as before. */
  ghost predicate SameOthers<D>(files: map<string, File<D>>, files': map<string, File<D>>, m: Manifest)
    requires m.incr != []
  {
    forall name :: name in LiveNames(m) && name != CurrentName(m) && name in files ==>
      name in files' && files'[name] == files[name]
  }

  lemma OthersKept<D>(w: World<D>, prefix: string, files: map<string, File<D>>, files': map<string, File<D>>,
                      m: Manifest, d: D, olds: seq<seq<Item>>)
    requires Orderly(m, prefix) && m.incr != [] && SameOthers(files, files', m)
    requires OldFilesOk(files, m, olds) && BaseOk(w, files, m, d, olds)
    ensures OldFilesOk(files', m, olds) && BaseOk(w, files', m, d, olds)
  {
    hide ReplayLogs, Encode, BaseName, IncrName;
    var last := |m.incr| - 1;
    assert m.base.value.name in LiveNames(m);
    BaseNotAmongIncr(m, prefix, last);
    forall i | 0 <= i < |olds|
      ensures m.incr[i].name in files' && files'[m.incr[i].name] == Log(Encode(olds[i]))
    {
      assert m.incr[i].name in LiveNames(m);
      IncrNamesDistinct(m, prefix, i, last);
    }
  }

  /** Creating or removing files that are not live changes nothing. */
  lemma NotLiveKept<D>(w: World<D>, prefix: string, files: map<string, File<D>>, files': map<string, File<D>>,
                       m: Manifest, a: Abs<D>, x: Witness, written: string)
    requires Orderly(m, prefix) && m.incr != [] && FilesOk(w, files, m, a, x, written)
    requires forall name :: name in LiveNames(m) && name in files ==> name in files' && files'[name] == files[name]
    ensures FilesOk(w, files', m, a, x, written)
  {
    hide ReplayLogs, Encode, BaseName, IncrName, LogsOk, DurableOk, OldFilesOk, BaseOk, Orderly;
    assert m.incr[|m.incr| - 1].name in LiveNames(m);
    OthersKept(w, prefix, files, files', m, a.versions[x.v0], x.olds);
  }

  // ---------------------------------------------------------------- flushing

  lemma UnitEndMonotone(x: Witness, c: nat, c': nat)
    requires c <= c' <= |x.units|
    ensures UnitEnd(x, c) <= UnitEnd(x, c') <= |Encode(CurrentLog(x))|
  {
    hide Encode, Flatten;
    assert x.units[..c'][..c] == x.units[..c] && x.units[..|x.units|] == x.units;
    FlattenPrefix(x.units[..c'], c);
    FlattenPrefix(x.units, c');
    var part, most := Flatten(x.units[..c]), Flatten(x.units[..c']);
    var log := CurrentLog(x);
    assert part == most[..|part|] && most[..|most|] == most && most == log[..|most|] && log[..|log|] == log;
    EncodePrefix(most, |part|, |most|);
    EncodePrefix(log, |most|, |log|);
  }

  /** Writing `n` more bytes makes durable exactly the units that then lie within the file. */
  lemma {:induction false} WroteLag<D>(a: Abs<D>, x: Witness, size: nat, n: nat)
    requires LagFrom(a, x, size) && UnitEnd(x, a.durable - x.v0) <= size + n
    ensures var a' := Wrote(a, n);
            && LagFrom(a', x, size + n) && UnitEnd(x, a'.durable - x.v0) <= size + n
            && (a'.lag != [] ==> a'.lag[0] > 0)
    decreases |a.lag|
  {
    hide UnitEnd;
    if a.lag == [] || a.lag[0] > n {
    } else {
      WroteLag(Abs(a.versions, a.durable + 1, a.lag[1..]), x, size, n);
    }
  }

  lemma WroteDurable<D>(w: World<D>, a: Abs<D>, x: Witness, written: string, more: string)
    requires VersionsOk(w, a, x) && DurableOk(a, x, written)
    ensures VersionsOk(w, Wrote(a, |more|), x) && DurableOk(Wrote(a, |more|), x, written + more)
  {
    hide VersionsOk, Wrote, UnitEnd, LagFrom;
    VersionsIndex(w, a, x);
    WroteLag(a, x, |written|, |more|);
    WroteMeans(a, |more|);
    SameVersions(w, a, Wrote(a, |more|), x);
  }

  lemma SameVersions<D>(w: World<D>, a: Abs<D>, a': Abs<D>, x: Witness)
    requires VersionsOk(w, a, x) && AbsOk(a') && a'.versions == a.versions
    ensures VersionsOk(w, a', x)
  {
    hide ReplayLog, Flatten;
  }

  lemma NothingWrote<D>(a: Abs<D>, x: Witness, written: string)
    requires DurableOk(a, x, written)
    ensures Wrote(a, 0) == a
  {
    assert Less(a.lag, 0) == a.lag;
  }

  /** Once every byte of the current log is written, everything is durable. */
  lemma AllDurable<D>(a: Abs<D>, x: Witness, written: string)
    requires DurableOk(a, x, written) && x.v0 + |x.units| + 1 == |a.versions| && written == Encode(CurrentLog(x))
    ensures a.durable + 1 == |a.versions| && a.lag == []
  {
    hide Encode, Flatten;
    if a.lag != [] { UnitEndMonotone(x, a.durable - x.v0 + 1, |x.units|); }
  }

  /** And a log that is wholly written holds no lag. */
  lemma WrittenIsDurable<D>(a: Abs<D>, x: Witness)
    requires a.durable == x.v0 + |x.units| && a.lag == []
    ensures DurableOk(a, x, Encode(CurrentLog(x)))
  {
    hide Encode, Flatten;
    UnitEndMonotone(x, |x.units|, |x.units|);
  }

  lemma WriteKept<D>(w: World<D>, env: Env, sv: Server<D>, a: Abs<D>, x: Witness, md: Manifest, written: string, n: nat)
    requires ServerOk(w, env, sv, a, x, md, written) && n <= |sv.buf|
    ensures FilesOk(w, SetBytes(sv.disk.files, CurrentName(sv.manifest), written + sv.buf[..n]), sv.manifest,
                    Wrote(a, n), x, written + sv.buf[..n])
    ensures Wrote(a, n).versions == a.versions
    ensures written + sv.buf[..n] + sv.buf[n..] == Encode(CurrentLog(x))
  {
    hide ReplayLogs, Encode, BaseName, IncrName, LogsOk, DurableOk, OldFilesOk, BaseOk, Orderly, Stored, ReplayLog;
    hide Wrote, VersionsOk;
    VersionsIndex(w, a, x);
    ServerUsable(w, env, sv, a, x, md, written);
    var written' := written + sv.buf[..n];
    assert written' + sv.buf[n..] == written + sv.buf;
    var files' := SetBytes(sv.disk.files, CurrentName(sv.manifest), written');
    OthersKept(w, env.prefix, sv.disk.files, files', sv.manifest, a.versions[x.v0], x.olds);
    WroteDurable(w, a, x, written, sv.buf[..n]);
    WroteMeans(a, n);
  }

  /** A flush whose bytes stay only at the end of the file appends them, or takes everything back. */
  lemma FlushShape<D>(sv: Server<D>, written: string, n: nat, undone: bool)
    requires sv.manifest.incr != [] && n <= |sv.buf| && WritesAtEnd(sv, n, undone)
    requires var name := CurrentName(sv.manifest); name in sv.disk.files && sv.disk.files[name] == Log(written)
    requires DescriptorOk(sv.fd, |written|)
    ensures var sv' := Flush(sv, n, undone);
            var kept := if Keeps(sv, n, undone) then n else 0;
            && sv' == sv.(disk := sv.disk.(files := SetBytes(sv.disk.files, CurrentName(sv.manifest),
                                                             written + sv.buf[..kept])),
                          buf := sv.buf[kept..], fd := sv'.fd)
            && DescriptorOk(sv'.fd, |written| + kept) && sv'.fd.append == sv.fd.append
  {
    hide Writer.Next, Writer.WriteBytes;
    Writer.WriteStays(WriterOf(sv), n, undone);
  }

  lemma FlushRefines<D>(w: World<D>, env: Env, sv: Server<D>, a: Abs<D>, x: Witness, md: Manifest, written: string,
                        n: nat, undone: bool)
    returns (a': Abs<D>, written': string)
    requires ServerOk(w, env, sv, a, x, md, written) && n <= |sv.buf| && sv.manifest.incr != []
    requires WritesAtEnd(sv, n, undone)
    ensures ServerOk(w, env, Flush(sv, n, undone), a', x, md, written') && a' == Wrote(a, Staying(sv, n, undone))
    ensures n == |sv.buf| ==> a' == Abs(a.versions, |a.versions| - 1, []) && Flush(sv, n, undone).buf == []
    ensures !Keeps(sv, n, undone) ==> a' == a && written' == written
  {
    hide ReplayLogs, Encode, BaseName, IncrName, LogsOk, OldFilesOk, BaseOk, Orderly, DurableOk, ReplayLog, Flush;
    hide WritesAtEnd, VersionsOk, Wrote;
    var kept := Staying(sv, n, undone);
    FlushShape(sv, written, n, undone);
    WriteKept(w, env, sv, a, x, md, written, kept);
    a', written' := Wrote(a, kept), written + sv.buf[..kept];
    VersionsIndex(w, a', x);
    if kept == 0 { NothingWrote(a, x, written); }
    if n == |sv.buf| {
      assert sv.buf[n..] == [] && written' + [] == written';
      AllDurable(a', x, written');
    }
  }

  // ---------------------------------------------------------------- rewriting

  lemma StoredSame<D>(env: Env, m: Manifest, files: map<string, File<D>>)
    requires Orderly(m, env.prefix) && m.incr != [] && m.currBase < INT64_LIMIT && m.currIncr < INT64_LIMIT
    requires AllFormattable(Files(m))
    ensures Stored(env, Disk(files, Some(FormatManifest(m))), m.(dirty := false), m)
    ensures Orderly(m.(dirty := false), env.prefix)
    ensures AllFormattable(Files(m.(dirty := false)))
  {
    hide FormatManifest, Formattable, BaseName, IncrName, IsOld;
    assert Files(m.(dirty := false)) == Files(m);
    var m' := m.(dirty := false);
    if m.base.Some? {
      var r := BaseNumber(m, env.prefix);
      assert m'.base.value.name == BaseName(env.prefix, m'.currBase, r);
    }
  }

  /** Opening the next INCR file: the finished log becomes an old one and the version is the newest. */
  lemma NextFileVersions<D>(w: World<D>, a: Abs<D>, x: Witness, d0: D)
    requires LogsOk(w.lookup, x) && VersionsOk(w, a, x) && ReplayLogs(w, d0, x.olds) == a.versions[x.v0]
    ensures var x' := Witness(x.olds + [CurrentLog(x)], [], [], |a.versions| - 1);
            && LogsOk(w.lookup, x') && VersionsOk(w, a, x') && ReplayLogs(w, d0, x'.olds) == a.versions[x'.v0]
  {
    hide Standing, Meaning, OnlySelects, ReplayLog;
    var x' := Witness(x.olds + [CurrentLog(x)], [], [], |a.versions| - 1);
    CurrentData(w, a, x);
    EmptyIdle(w.lookup);
    ReplayLogsAppend(w, d0, x.olds, CurrentLog(x));
    EmptyReplay(w, a.versions[x'.v0]);
    assert x'.units[..0] == [] && Flatten([]) == [];
  }

  lemma EmptyReplay<D>(w: World<D>, d: D)
    ensures ReplayLog(w, d, []) == Cursor(d, 0)
  {
    EmptyStanding(w.lookup);
  }

  lemma OpenRefines<D>(w: World<D>, env: Env, sv: Server<D>, a: Abs<D>, x: Witness, md: Manifest, written: string,
                       off: int, r: OpenResult)
    returns (x': Witness, md': Manifest, written': string)
    requires ServerOk(w, env, sv, a, x, md, written) && sv.selectedDb == -1 && sv.child.NoChild? && OffsetInRange(off)
    requires r == Opened ==> sv.buf == [] && a.durable + 1 == |a.versions| && a.lag == []
    requires sv.manifest.currIncr + 1 < INT64_LIMIT && AllFormattable(Files(NewIncr(sv.manifest, env.prefix, off)))
    ensures ServerOk(w, env, OpenNewIncr(env, sv, off, r), a, x', md', written')
    ensures r == Opened ==> sv.mem == a.versions[x'.v0]
  {
    hide ReplayLogs, Encode, BaseName, IncrName, LogsOk, Orderly, DurableOk, ReplayLog, FormatManifest, VersionsOk;
    VersionsIndex(w, a, x);
    ServerUsable(w, env, sv, a, x, md, written);
    x', md', written' := x, md, written;
    var m := sv.manifest;
    var m' := NewIncr(m, env.prefix, off);
    var name := IncrName(env.prefix, m.currIncr + 1);
    var files' := sv.disk.files[name := Log("")];
    NextIncrIsFresh(m, env.prefix);
    NotLiveKept(w, env.prefix, sv.disk.files, files', m, a, x, written);
    if r == Opened {
      assert written + [] == written;
      x' := Witness(x.olds + [CurrentLog(x)], [], [], |a.versions| - 1);
      NextFileVersions(w, a, x, files'[m.base.value.name].data);
      VersionsIndex(w, a, x');
      md', written' := m', "";
      NewIncrOrderly(m, env.prefix, off);
      CountersOk(m, md, env.prefix);
      StoredSame(env, m', files');
      NextFileKept(files', m, m', x, written);
      DurableAtStart(a, x', "");
      EmptyLog(x');
    }
  }

  lemma CountersOk(m: Manifest, md: Manifest, prefix: string)
    requires Orderly(m, prefix) && Orderly(md, prefix) && md.base == m.base && md.incr == m.incr && m.incr != []
    ensures md.currIncr == m.currIncr && (m.base.Some? ==> md.currBase == m.currBase)
  {
  }

  lemma DurableAtStart<D>(a: Abs<D>, x: Witness, written: string)
    requires a.durable == x.v0 && x.units == [] && a.lag == []
    ensures DurableOk(a, x, written)
  {
    assert x.units[..0] == [] && Encode(Flatten([])) == [];
  }

  lemma EmptyLog(x: Witness)
    requires x.units == [] && x.pending == []
    ensures CurrentLog(x) == [] && Encode(CurrentLog(x)) == ""
  {
  }

  lemma NextFileKept<D>(files: map<string, File<D>>, m: Manifest, m': Manifest, x: Witness, written: string)
    requires m.incr != [] && |m'.incr| == |m.incr| + 1 && m.incr == m'.incr[..|m.incr|]
    requires OldFilesOk(files, m, x.olds) && CurrentName(m) in files && files[CurrentName(m)] == Log(written)
    requires written == Encode(CurrentLog(x))
    ensures OldFilesOk(files, m', x.olds + [CurrentLog(x)])
  {
    hide Encode;
    var olds := x.olds + [CurrentLog(x)];
    forall i | 0 <= i < |olds|
      ensures m'.incr[i].name in files && files[m'.incr[i].name] == Log(Encode(olds[i]))
    {
      assert m'.incr[i] == m.incr[i];
    }
  }

  lemma StartRewriteRefines<D>(
      w: World<D>, env: Env, sv: Server<D>, a: Abs<D>, x: Witness, md: Manifest, written: string,
      n: nat, undone: bool, off: int, r: OpenResult, forked: bool)
    returns (a': Abs<D>, x': Witness, md': Manifest, written': string)
    requires ServerOk(w, env, sv, a, x, md, written) && sv.child.NoChild? && OffsetInRange(off)
    requires sv.manifest.incr != [] && n <= |sv.buf| && WritesAtEnd(sv, n, undone) && (r == Opened ==> n == |sv.buf|)
    requires sv.manifest.currIncr + 1 < INT64_LIMIT && AllFormattable(Files(NewIncr(sv.manifest, env.prefix, off)))
    ensures ServerOk(w, env, StartRewrite(env, sv, n, undone, off, r, forked), a', x', md', written')
    ensures a' == Wrote(a, Staying(sv, n, undone))
  {
    hide Wrote, FilesOk, Stored, Orderly, Encode, NewIncr, SetBytes, ReplayLog, OpenNewIncr, Flush;
    ServerUsable(w, env, sv, a, x, md, written);
    var sv1 := sv.(selectedDb := -1);
    a', written' := FlushRefines(w, env, sv1, a, x, md, written, n, undone);
    var sv2 := Flush(sv1, n, undone);
    FlushKeeps(sv1, n, undone);
    x', md', written' := OpenRefines(w, env, sv2, a', x, md, written', off, r);
    OpenKeeps(env, sv2, off, r);
  }

  lemma FlushKeeps<D>(sv: Server<D>, n: nat, undone: bool)
    requires sv.manifest.incr != [] && n <= |sv.buf|
    ensures var sv' := Flush(sv, n, undone);
            && sv'.manifest == sv.manifest && sv'.mem == sv.mem && sv'.child == sv.child
            && sv'.selectedDb == sv.selectedDb
            && sv'.disk.manifest == sv.disk.manifest
  {
  }

  lemma OpenKeeps<D>(env: Env, sv: Server<D>, off: int, r: OpenResult)
    requires sv.manifest.currIncr >= 0 && AllFormattable(Files(NewIncr(sv.manifest, env.prefix, off)))
    ensures OpenNewIncr(env, sv, off, r).mem == sv.mem && OpenNewIncr(env, sv, off, r).child == sv.child
  {
  }

  // ---------------------------------------------------------------- committing

  /** The snapshot replaces the old BASE and every finished log. */
  lemma CommitRefines<D>(w: World<D>, env: Env, sv: Server<D>, a: Abs<D>, x: Witness, md: Manifest, written: string,
                         rdb: bool)
    requires ServerOk(w, env, sv, a, x, md, written) && sv.child.Rewriting? && sv.manifest.currBase + 1 < INT64_LIMIT
    requires sv.manifest.currBase >= 0 && AllFormattable(Files(CommittedManifest(env, sv.manifest, rdb)))
    ensures ServerOk(w, env, RewriteDone(env, sv, rdb, Committed), a, x.(olds := []),
                     CommittedManifest(env, sv.manifest, rdb), written)
  {
    hide Encode, BaseName, IncrName, LogsOk, Orderly, DurableOk, ReplayLog, FormatManifest, VersionsOk, AllFormattable;
    ServerUsable(w, env, sv, a, x, md, written);
    VersionsIndex(w, a, x);
    var m := sv.manifest;
    var m1 := NewBase(m, env.prefix, rdb);
    var m2 := MarkRewritten(m1);
    var name := BaseName(env.prefix, m.currBase + 1, rdb);
    var files' := sv.disk.files[name := Snapshot(sv.child.snapshot)];
    NewBaseOrderly(m, env.prefix, rdb);
    MarkRewrittenOrderly(m1, env.prefix);
    NextBaseIsFresh(m, env.prefix, rdb);
    assert m.incr[|m.incr| - 1].name in LiveNames(m);
    CountersOk(m, md, env.prefix);
    StoredSame(env, m2, files');
    var x' := x.(olds := []);
    DropOlds(w, a, x, written);
    assert m2.incr == m.incr[|m.incr| - 1..] && CurrentName(m2) == CurrentName(m) != name;
    assert BaseOk(w, files', m2, a.versions[x.v0], []);
    assert OldFilesOk(files', m2, []);
    assert CurrentLog(x') == CurrentLog(x);
  }

  lemma DropOlds<D>(w: World<D>, a: Abs<D>, x: Witness, written: string)
    requires LogsOk(w.lookup, x) && VersionsOk(w, a, x) && DurableOk(a, x, written)
    ensures LogsOk(w.lookup, x.(olds := [])) && VersionsOk(w, a, x.(olds := []))
    ensures DurableOk(a, x.(olds := []), written)
  {
    hide Standing, Atomic, Idle, ReplayLog, Encode, Flatten;
    var x' := x.(olds := []);
    assert forall c :: 0 <= c <= |x.units| ==> UnitEnd(x', c) == UnitEnd(x, c);
  }

  lemma RewriteDoneRefines<D>(w: World<D>, env: Env, sv: Server<D>, a: Abs<D>, x: Witness, md: Manifest,
                              written: string, rdb: bool, r: CommitResult)
    returns (x': Witness, md': Manifest)
    requires ServerOk(w, env, sv, a, x, md, written) && sv.child.Rewriting? && sv.manifest.currBase + 1 < INT64_LIMIT
    requires sv.manifest.currBase >= 0 && AllFormattable(Files(CommittedManifest(env, sv.manifest, rdb)))
    ensures ServerOk(w, env, RewriteDone(env, sv, rdb, r), a, x', md', written)
  {
    hide Encode, BaseName, IncrName, LogsOk, Orderly, DurableOk, ReplayLog, FormatManifest, VersionsOk;
    hide AllFormattable, FilesOk, CommittedManifest;
    ServerUsable(w, env, sv, a, x, md, written);
    x', md' := x, md;
    if r == Committed {
      CommitRefines(w, env, sv, a, x, md, written, rdb);
      x', md' := x.(olds := []), CommittedManifest(env, sv.manifest, rdb);
    } else if r == CommitPersistFails {
      var name := BaseName(env.prefix, sv.manifest.currBase + 1, rdb);
      NextBaseIsFresh(sv.manifest, env.prefix, rdb);
      var files' := sv.disk.files[name := Snapshot(sv.child.snapshot)] - {name};
      NotLiveKept(w, env.prefix, sv.disk.files, files', sv.manifest, a, x, written);
    }
  }

  // ---------------------------------------------------------------- deleting history

  lemma HistoryNotLive(m: Manifest, prefix: string, k: nat)
    requires Orderly(m, prefix) && k <= |m.history|
    ensures HistoryNames(m, k) !! LiveNames(m)
  {
    hide IsOld, LiveNames, BaseName, IncrName;
    forall name | name in HistoryNames(m, k) ensures name !in LiveNames(m) {
      var i :| 0 <= i < k && name == m.history[i].name;
      OldIsNotLive(m, prefix, m.history[i]);
    }
  }

  lemma DelHistoryRefines<D>(w: World<D>, env: Env, sv: Server<D>, a: Abs<D>, x: Witness, md: Manifest,
                             written: string, persisted: bool)
    returns (md': Manifest)
    requires ServerOk(w, env, sv, a, x, md, written) && AllFormattable(Files(sv.manifest.(history := [])))
    ensures ServerOk(w, env, DelHistory(sv, persisted), a, x, md', written)
  {
    hide Encode, LogsOk, Orderly, DurableOk, ReplayLog, FormatManifest, VersionsOk, FilesOk, LiveNames;
    ServerUsable(w, env, sv, a, x, md, written);
    md' := md;
    var m := sv.manifest;
    if m.history != [] {
      var m' := m.(history := [], dirty := !persisted);
      var files' := sv.disk.files - HistoryNames(m, |m.history|);
      HistoryNotLive(m, env.prefix, |m.history|);
      NotLiveKept(w, env.prefix, sv.disk.files, files', m, a, x, written);
      DropHistoryOrderly(m, env.prefix);
      var m1 := m.(history := [], dirty := true);
      HasBase(w, sv.disk.files, m, a, x, written);
      CountersOk(m, md, env.prefix);
      assert Files(m1) == Files(m.(history := []));
      StoredSame(env, m1, files');
      SameLive(w, files', m, m', a, x, written);
      FormatSame(m1, m');
      if persisted { md' := m1; } else { DirtyOrderly(m1, env.prefix); assert m' == m1; }
    }
  }

  lemma HasBase<D>(w: World<D>, files: map<string, File<D>>, m: Manifest, a: Abs<D>, x: Witness, written: string)
    requires FilesOk(w, files, m, a, x, written)
    ensures m.base.Some?
  {
    hide Encode, LogsOk, DurableOk, VersionsOk, ReplayLogs, OldFilesOk;
  }

  lemma DirtyOrderly(m: Manifest, prefix: string)
    requires Orderly(m, prefix)
    ensures Orderly(m.(dirty := false), prefix)
  {
    var m' := m.(dirty := false);
    if m.base.Some? {
      var r := BaseNumber(m, prefix);
      assert m'.base.value.name == BaseName(prefix, m'.currBase, r);
    }
  }

  lemma FormatSame(m: Manifest, m': Manifest)
    requires m.base == m'.base && m.history == m'.history && m.incr == m'.incr && AllFormattable(Files(m))
    ensures AllFormattable(Files(m')) && FormatManifest(m) == FormatManifest(m')
  {
    assert Files(m) == Files(m');
  }

  /** Only the live files matter for the data. */
  lemma SameLive<D>(w: World<D>, files: map<string, File<D>>, m: Manifest, m': Manifest, a: Abs<D>, x: Witness,
                    written: string)
    requires FilesOk(w, files, m, a, x, written) && m.incr != [] && m'.base == m.base && m'.incr == m.incr
    ensures FilesOk(w, files, m', a, x, written)
  {
    hide Encode, LogsOk, DurableOk, VersionsOk, ReplayLogs;
    VersionsIndex(w, a, x);
  }

  // ---------------------------------------------------------------- crashing

  lemma CrashRefines<D>(w: World<D>, env: Env, sv: Server<D>, a: Abs<D>, x: Witness, md: Manifest, written: string,
                        p: CrashPoint)
    returns (a': Abs<D>, written': string)
    requires ServerOk(w, env, sv, a, x, md, written) && Usable(sv)
    requires p.MidWrite? ==> p.n <= |sv.buf|
    requires p.BaseRenamed? ==> sv.child.Rewriting?
    requires p.MidDelete? ==> p.k <= |sv.manifest.history|
    requires p.MidWrite? ==> WritesAtEnd(sv, p.n, false)
    ensures DiskOk(w, env, Crashed(env, sv, p), a', x, md, written') && a' == if p.MidWrite? then Wrote(a, p.n) else a
  {
    hide Encode, LogsOk, Orderly, DurableOk, ReplayLog, FormatManifest, VersionsOk, FilesOk, LiveNames, BaseName;
    hide AllFormattable, Wrote;
    a', written' := a, written;
    var m := sv.manifest;
    var files' := Crashed(env, sv, p).files;
    match p {
      case Quiet =>
      case MidWrite(n) =>
        WriteKept(w, env, sv, a, x, md, written, n);
        CurrentBytes(w, sv.disk.files, m, a, x, written);
        Writer.WriteLands(WriterOf(sv), sv.buf[..n]);
        a', written' := Wrote(a, n), written + sv.buf[..n];
      case BaseRenamed(rdb) =>
        NextBaseIsFresh(m, env.prefix, rdb);
        NotLiveKept(w, env.prefix, sv.disk.files, files', m, a, x, written);
      case MidDelete(k) =>
        HistoryNotLive(m, env.prefix, k);
        NotLiveKept(w, env.prefix, sv.disk.files, files', m, a, x, written);
    }
    SameLive(w, files', m, md, a', x, written');
  }

  // ---------------------------------------------------------------- starting

  /** Loading the finished logs reaches the current one at version `v0`. */
  lemma {:induction false} LoadOlds<D>(w: World<D>, cfg: Config, m: Manifest, files: map<string, File<D>>,
                                       olds: seq<seq<Item>>, i: nat, d: D)
    requires Repairing(cfg) && OldFilesOk(files, m, olds) && i <= |olds|
    requires forall j :: 0 <= j < |olds| ==> Standing(w.lookup, olds[j])
    ensures LoadIncrs(w, cfg, m.incr[i..], files, d)
            == LoadIncrs(w, cfg, m.incr[|olds|..], files, ReplayLogs(w, d, olds[i..]))
    decreases |olds| - i
  {
    hide Standing, Replay, Encode, LoadFile;
    if i < |olds| {
      LoadStanding(cfg, w.lookup, olds[i]);
      var d' := ReplayLog(w, d, olds[i]).data;
      LoadOlds(w, cfg, m, files, olds, i + 1, d');
      assert m.incr[i..][1..] == m.incr[i + 1..] && olds[i..][1..] == olds[i + 1..];
    }
  }

  lemma {:induction false} FitsInWhole(items: seq<Item>, q: nat, k: nat)
    requires q <= |items| && |Encode(items[..q])| <= k <= |Encode(items)|
    ensures q <= Whole(items, k)
  {
    hide Encode, Whole;
    var n := Whole(items, k);
    if n < q {
      WholeIsMaximal(items, k);
      EncodePrefix(items, n + 1, q);
    }
  }

  /** Loading what was written of the current log gives exactly the durable version. This needs no condition
      on the cut. */
  lemma LoadedTail<D>(w: World<D>, cfg: Config, a: Abs<D>, x: Witness, written: string)
    requires Repairing(cfg) && LogsOk(w.lookup, x) && VersionsOk(w, a, x) && DurableOk(a, x, written)
    requires written <= Encode(CurrentLog(x))
    ensures var r := LoadFile(cfg, w.lookup, written);
            && x.v0 + WholeUnits(x.units, Whole(CurrentLog(x), |written|)) == a.durable
            && r.status in {AofOk, AofEmpty, AofTruncated} && (r.status != AofTruncated ==> r.file == written)
            && Replay(w, Cursor(a.versions[x.v0], 0), r.executed).data == a.versions[a.durable]
  {
    hide Encode, Standing, Meaning, ReplayLog, OnlySelects, LoadFile, Flatten, Whole, Atomic, Replay, WholeUnits;
    var log := CurrentLog(x);
    var k := |written|;
    assert written == Encode(log)[..k];
    LogStanding(w.lookup, x.units, x.pending);
    LoadCutStanding(cfg, w.lookup, log, k);
    var n := Whole(log, k);
    PrefixOfUnits(w.lookup, x.units, x.pending, n);
    var c := WholeUnits(x.units, n);
    var whole := Flatten(x.units[..c]);
    var part := log[|whole|..n];
    ReplayPart(w, a.versions[x.v0], whole, part);
    assert log[..n] == whole + part;
    ReplayWhole(w, a.versions[x.v0], log, n, LoadFile(cfg, w.lookup, written).executed);
    DurableIsWhole(a, x, written, n, c);
  }

  lemma LoadCutStanding(cfg: Config, lookup: Lookup, items: seq<Item>, k: nat)
    requires Repairing(cfg) && Standing(lookup, items) && k <= |Encode(items)|
    ensures Whole(items, k) <= |items|
    ensures var text := Encode(items)[..k];
            var r := LoadFile(cfg, lookup, text);
            && r.executed == Meaning(lookup, items[..Whole(items, k)]).executed
            && r.status in {AofOk, AofEmpty, AofTruncated} && (r.status != AofTruncated ==> r.file == text)
  {
    hide RunClient, EncodeItem, LoadFrom, ReadEntry;
    if k == 0 {
      WholeFits(items, k);
      assert items[..0] == [] && Encode(items)[..0] == [];
      EmptyStanding(lookup);
    } else {
      var _ := LoadOfCutLog(cfg, lookup, items, k);
    }
  }

  /** What is left of the current log after it is loaded and repaired: whole units, at least the
      durable ones, and an idle tail; the dataset is the version they stand for. */
  lemma RepairedTail<D>(w: World<D>, cfg: Config, a: Abs<D>, x: Witness, written: string)
    returns (a': Abs<D>, x': Witness)
    requires Repairing(cfg) && LogsOk(w.lookup, x) && VersionsOk(w, a, x) && DurableOk(a, x, written)
    requires written <= Encode(CurrentLog(x)) && !TornInMulti(w.lookup, written, false)
    ensures var r := LoadFile(cfg, w.lookup, written);
            && r.status in {AofOk, AofEmpty, AofTruncated}
            && (r.status != AofTruncated ==> r.file == written)
            && r.file == Encode(CurrentLog(x'))
            && AbsOk(a') && Replay(w, Cursor(a.versions[x.v0], 0), r.executed).data == Newest(a')
            && LogsOk(w.lookup, x') && VersionsOk(w, a', x') && DurableOk(a', x', r.file)
    ensures a' == Restarted(a) && x'.olds == x.olds && x'.v0 == x.v0 && a'.versions[x.v0] == a.versions[x.v0]
  {
    hide Encode, Standing, Meaning, ReplayLog, OnlySelects, LoadFile, Flatten, Whole, Atomic, TornInMulti;
    var log := CurrentLog(x);
    var k := |written|;
    assert written == Encode(log)[..k];
    LogStanding(w.lookup, x.units, x.pending);
    LoadedTail(w, cfg, a, x, written);
    var m := RepairPoint(cfg, w.lookup, log, k);
    var n := Whole(log, k);
    var c := WholeUnits(x.units, n);
    PrefixOfUnits(w.lookup, x.units, x.pending, n);
    var whole := Flatten(x.units[..c]);
    var part := log[|whole|..n];
    assert |whole| <= m by {
      assert log[..|whole|] == whole;
      StandingCloses(w.lookup, whole);
    }
    x' := x.(units := x.units[..c], pending := log[|whole|..m]);
    a' := Restarted(a);
    assert CurrentLog(x') == log[..m];
    assert x'.pending == part[..m - |whole|];
    ExecutedMonotone(w.lookup, part, m - |whole|);
    PrefixOnlySelects(Meaning(w.lookup, x'.pending).executed, Meaning(w.lookup, part).executed);
    assert whole + x'.pending == log[..m];
    CleanPart(w.lookup, whole, x'.pending, log);
    KeptLogs(w.lookup, x, x', c);
    KeptVersions(w, a, x, a', x', c);
    WrittenIsDurable(a', x');
  }

  lemma StandingCloses(lookup: Lookup, items: seq<Item>)
    requires Standing(lookup, items)
    ensures !Meaning(lookup, items).inMulti
  {
  }

  lemma PrefixOnlySelects(xs: seq<Argv>, ys: seq<Argv>)
    requires xs <= ys && OnlySelects(ys)
    ensures OnlySelects(xs)
  {
  }

  lemma ReplayWhole<D>(w: World<D>, d: D, log: seq<Item>, n: nat, executed: seq<Argv>)
    requires n <= |log| && executed == Meaning(w.lookup, log[..n]).executed
    ensures Replay(w, Cursor(d, 0), executed) == ReplayLog(w, d, log[..n])
  {
  }

  lemma KeptLogs(lookup: Lookup, x: Witness, x': Witness, c: nat)
    requires LogsOk(lookup, x) && c <= |x.units| && x'.olds == x.olds && x'.units == x.units[..c]
    requires Idle(lookup, x'.pending)
    ensures LogsOk(lookup, x')
  {
    hide Standing, Atomic, Idle;
  }

  lemma KeptVersions<D>(w: World<D>, a: Abs<D>, x: Witness, a': Abs<D>, x': Witness, c: nat)
    requires VersionsOk(w, a, x) && c <= |x.units| && x'.v0 == x.v0 && x'.units == x.units[..c]
    requires a.durable == x.v0 + c && a' == Restarted(a)
    ensures VersionsOk(w, a', x')
    ensures ReplayLog(w, a.versions[x.v0], Flatten(x.units[..c])).data == Newest(a')
  {
    hide ReplayLog, Flatten;
    forall i | 0 <= i <= |x'.units|
      ensures ReplayLog(w, a'.versions[x.v0], Flatten(x'.units[..i])).data == a'.versions[x.v0 + i]
    {
      assert x'.units[..i] == x.units[..i];
    }
  }

  /** Counting durable units by bytes or by whole items is the same. */
  lemma DurableIsWhole<D>(a: Abs<D>, x: Witness, written: string, n: nat, c: nat)
    requires DurableOk(a, x, written) && written <= Encode(CurrentLog(x))
    requires n == Whole(CurrentLog(x), |written|) && c == WholeUnits(x.units, n)
    ensures a.durable == x.v0 + c
  {
    hide Encode, Whole, WholeUnits, Flatten;
    var log, q := CurrentLog(x), a.durable - x.v0;
    FlattenPrefix(x.units, q);
    var f := |Flatten(x.units[..q])|;
    assert log[..f] == Flatten(x.units[..q]);
    FitsInWhole(log, f, |written|);
    WholeUnitsMost(x.units, n, q);
    if q < c {
      WholeFits(log, |written|);
      WholeUnitsFit(x.units, n);
      FlattenPrefix(x.units, c);
      var g := |Flatten(x.units[..c])|;
      assert log[..g] == Flatten(x.units[..c]) && log[..n][..g] == log[..g];
      EncodePrefix(log, g, n);
      UnitEndMonotone(x, q + 1, c);
    }
  }

  /** Loading comes down to loading the current file on top of the finished logs. */
  lemma LoadReachesTail<D>(w: World<D>, cfg: Config, m: Manifest, files: map<string, File<D>>, olds: seq<seq<Item>>,
                           d: D, bytes: string)
    requires Repairing(cfg) && OldFilesOk(files, m, olds) && BaseOk(w, files, m, d, olds)
    requires forall i :: 0 <= i < |olds| ==> Standing(w.lookup, olds[i])
    requires CurrentName(m) in files && files[CurrentName(m)] == Log(bytes)
    ensures var r := LoadFile(cfg, w.lookup, bytes);
            var d' := Replay(w, Cursor(d, 0), r.executed).data;
            LoadFiles(w, cfg, m, files)
            == if r.status in {AofOk, AofEmpty} then Loaded(d', files)
               else if r.status in {AofTruncated, AofBrokenRecovered} then
                 Loaded(d', files[CurrentName(m) := Log(r.file)])
               else LoadFails
  {
    hide Encode, Standing, LoadFile, Replay, ReplayLogs;
    assert m.incr[0..] == m.incr && olds[0..] == olds;
    LoadOlds(w, cfg, m, files, olds, 0, files[m.base.value.name].data);
    var tail := m.incr[|olds|..];
    assert tail == [m.incr[|m.incr| - 1]];
    assert tail[1..] == [];
  }

  /** Loading the live files yields the durable version; when everything fed was written, that is the
      newest. */
  lemma LoadVersion<D>(w: World<D>, cfg: Config, m: Manifest, files: map<string, File<D>>, a: Abs<D>, x: Witness,
                       written: string)
    returns (files': map<string, File<D>>)
    requires Repairing(cfg) && m.incr != [] && FilesOk(w, files, m, a, x, written)
    ensures AbsOk(a) && LoadFiles(w, cfg, m, files) == Loaded(a.versions[a.durable], files')
    ensures written == Encode(CurrentLog(x)) ==> a.durable == |a.versions| - 1
  {
    hide Encode, LoadFile, LoadFiles, Replay, ReplayLogs, OldFilesOk, BaseOk, WholeUnits, Whole, DurableOk;
    VersionsIndex(w, a, x);
    LoadReachesTail(w, cfg, m, files, x.olds, a.versions[x.v0], written);
    LoadedTail(w, cfg, a, x, written);
    if written == Encode(CurrentLog(x)) { AllDurable(a, x, written); }
    var r := LoadFile(cfg, w.lookup, written);
    files' := if r.status == AofTruncated then files[CurrentName(m) := Log(r.file)] else files;
  }

  /** When in addition no command is torn inside a transaction, the repaired files hold that version and
      the log can go on from it. */
  lemma LoadRefines<D>(w: World<D>, cfg: Config, prefix: string, m: Manifest, files: map<string, File<D>>, a: Abs<D>,
                       x: Witness, written: string)
    returns (a': Abs<D>, x': Witness, written': string, files': map<string, File<D>>)
    requires Repairing(cfg) && Orderly(m, prefix) && m.incr != []
    requires FilesOk(w, files, m, a, x, written) && !TornInMulti(w.lookup, written, false)
    ensures AbsOk(a') && LoadFiles(w, cfg, m, files) == Loaded(Newest(a'), files')
    ensures FilesOk(w, files', m, a', x', written') && written' == Encode(CurrentLog(x'))
    ensures a.durable < |a.versions| && a' == Restarted(a)
  {
    hide Encode, Standing, Orderly, LoadFile, LoadFiles, Replay, ReplayLogs, VersionsOk, DurableOk, TornInMulti;
    VersionsIndex(w, a, x);
    a', x' := RepairedTail(w, cfg, a, x, written);
    var r := LoadFile(cfg, w.lookup, written);
    written' := r.file;
    VersionsIndex(w, a, x);
    LoadReachesTail(w, cfg, m, files, x.olds, a.versions[x.v0], written);
    files' := if r.status == AofTruncated then files[CurrentName(m) := Log(r.file)] else files;
    OthersKept(w, prefix, files, files', m, a.versions[x.v0], x.olds);
  }

  lemma ReloadedIsSame(m: Manifest, prefix: string)
    requires Orderly(m, prefix) && m.incr != [] && m.base.Some?
    ensures Reloaded(m) == m.(dirty := false)
  {
    hide BaseName, IncrName, IsOld;
  }

  /** The manifest that a start finds is the stored one. */
  lemma ManifestFound<D>(w: World<D>, env: Env, disk: Disk<D>, a: Abs<D>, x: Witness, md: Manifest, m: Manifest,
                         written: string)
    requires GoodPrefix(env.prefix) && Stored(env, disk, m, md) && m.incr != []
    requires FilesOk(w, disk.files, m, a, x, written)
    ensures var found := md.(dirty := false);
            && FoundManifest(disk) == Ok(found) && Orderly(found, env.prefix) && found.incr == m.incr
            && FilesOk(w, disk.files, found, a, x, written) && TailBytes(disk) == written
  {
    hide Encode, Orderly, FilesOk, GoodPrefix, ParseManifest, FormatManifest, StorableManifest, ReplayLog;
    HasBase(w, disk.files, m, a, x, written);
    assert Files(md) != [] by { assert Files(md)[0] == md.base.value; }
    OrderlyIsStorable(md, env.prefix);
    ReloadedIsSame(md, env.prefix);
    DirtyOrderly(md, env.prefix);
    SameLive(w, disk.files, m, md.(dirty := false), a, x, written);
    CurrentBytes(w, disk.files, md.(dirty := false), a, x, written);
  }

  lemma ServerFound<D>(w: World<D>, env: Env, sv: Server<D>, a: Abs<D>, x: Witness, md: Manifest, written: string)
    requires GoodPrefix(env.prefix) && ServerOk(w, env, sv, a, x, md, written)
    ensures var found := md.(dirty := false);
            && FoundManifest(sv.disk) == Ok(found) && Orderly(found, env.prefix) && found.incr == sv.manifest.incr != []
            && FilesOk(w, sv.disk.files, found, a, x, written)
  {
    hide Encode, Orderly, FilesOk, GoodPrefix, FoundManifest, TailBytes, ReplayLog, Stored, AllFormattable;
    ServerUsable(w, env, sv, a, x, md, written);
    ManifestFound(w, env, sv.disk, a, x, md, sv.manifest, written);
  }

  lemma StartRefines<D(!new)>(w: World<D>, env: Env, disk: Disk<D>, a: Abs<D>, x: Witness, md: Manifest,
                       written: string, rdb: bool, off: int)
    returns (a': Abs<D>, x': Witness, written': string)
    requires Repairing(env.cfg) && GoodPrefix(env.prefix) && disk.manifest.Some? && off >= 0
    requires DiskOk(w, env, disk, a, x, md, written) && !TornInMulti(w.lookup, TailBytes(disk), false)
    ensures Start(w, env, disk, rdb, off).Up?
    ensures ServerOk(w, env, Start(w, env, disk, rdb, off).server, a', x', md, written')
    ensures a.durable < |a.versions| && a' == Restarted(a)
  {
    hide Encode, Orderly, LoadFiles, FilesOk, TornInMulti, GoodPrefix, ParseManifest, FormatManifest, ReplayLog;
    hide FoundManifest, TailBytes;
    ManifestFound(w, env, disk, a, x, md, md, written);
    var m := md.(dirty := false);
    var files';
    a', x', written', files' := LoadRefines(w, env.cfg, env.prefix, m, disk.files, a, x, written);
    FormatSame(md, m);
    OrderlyCounters(m, env.prefix);
    CurrentBytes(w, files', m, a', x', written');
    assert written' + "" == written';
  }

  lemma OrderlyCounters(m: Manifest, prefix: string)
    requires Orderly(m, prefix)
    ensures m.currBase >= 0 && m.currIncr >= 0
  {
  }

  lemma CurrentBytes<D>(w: World<D>, files: map<string, File<D>>, m: Manifest, a: Abs<D>, x: Witness, written: string)
    requires m.incr != [] && FilesOk(w, files, m, a, x, written)
    ensures CurrentName(m) in files && files[CurrentName(m)] == Log(written)
  {
    hide Encode, LogsOk, DurableOk, VersionsOk, OldFilesOk, BaseOk;
  }

  /** The first start creates a BASE with the empty dataset and an empty INCR file. */
  lemma FirstStart<D(!new)>(w: World<D>, env: Env, disk: Disk<D>, a: Abs<D>, x: Witness, md: Manifest,
                     written: string, rdb: bool, off: int)
    returns (x': Witness, md': Manifest)
    requires disk.manifest.None? && OffsetInRange(off) && DiskOk(w, env, disk, a, x, md, written)
    ensures Start(w, env, disk, rdb, off).Up?
    ensures ServerOk(w, env, Start(w, env, disk, rdb, off).server, a, x', md', "")
  {
    hide BaseName, IncrName, Encode, FormatManifest, ReplayLog, Orderly, Standing, Meaning, Start;
    var m1 := NewBase(EmptyManifest, env.prefix, rdb);
    var m := NewIncr(m1, env.prefix, off);
    EmptyOrderly(env.prefix);
    NewBaseOrderly(EmptyManifest, env.prefix, rdb);
    NewIncrOrderly(m1, env.prefix, off);
    md' := m;
    x' := Witness([], [], [], 0);
    FirstFiles(w, env, disk, rdb, off);
    var sv := Start(w, env, disk, rdb, off).server;
    StoredSame(env, m, sv.disk.files);
    EmptyIdle(w.lookup);
    EmptyReplay(w, w.empty);
    EmptyLog(x');
    assert x'.units[..0] == [] && Flatten([]) == [];
    assert VersionsOk(w, a, x');
    DurableAtStart(a, x', "");
  }

  lemma FirstFiles<D>(w: World<D>, env: Env, disk: Disk<D>, rdb: bool, off: int)
    requires disk.manifest.None? && off >= 0
    requires IncrName(env.prefix, 1) in disk.files ==> disk.files[IncrName(env.prefix, 1)] == Log("")
    ensures var m := NewIncr(NewBase(EmptyManifest, env.prefix, rdb), env.prefix, off);
            var base, incr := BaseName(env.prefix, 1, rdb), IncrName(env.prefix, 1);
            && AllFormattable(Files(m)) && Start(w, env, disk, rdb, off).Up?
            && (var sv := Start(w, env, disk, rdb, off).server;
                && sv == Server(Disk(sv.disk.files, Some(FormatManifest(m))), m.(dirty := false), "", -1, w.empty,
                                NoChild, Fd(true, 0, 0))
                && base in sv.disk.files && sv.disk.files[base] == Snapshot(w.empty)
                && incr in sv.disk.files && sv.disk.files[incr] == Log(""))
  {
    hide BaseName, IncrName, FormatManifest;
    BaseIsNotIncr(env.prefix, 1, 1, rdb);
    var m := NewIncr(NewBase(EmptyManifest, env.prefix, rdb), env.prefix, off);
    FormattableParts(m);
  }

  lemma EmptyOrderly(prefix: string)
    ensures Orderly(EmptyManifest, prefix)
  {
  }

  // ---------------------------------------------------------------- every run

  ghost predicate Setting<D>(w: World<D>, env: Env) {
    Sane(w) && Repairing(env.cfg) && GoodPrefix(env.prefix)
  }

  /** Nothing has been persisted yet. */
  predicate Fresh<D>(env: Env, s: State<D>) {
    s.Down? && s.disk.manifest.None? &&
    (IncrName(env.prefix, 1) in s.disk.files ==> s.disk.files[IncrName(env.prefix, 1)] == Log(""))
  }

  lemma RelatedIsUsable<D>(w: World<D>, env: Env, s: State<D>, a: Abs<D>)
    requires R(w, env, s, a)
    ensures s.Up? ==> Usable(s.server)
  {
    hide ServerOk, DiskOk;
    var x, md, written :| Related(w, env, s, a, x, md, written);
    if s.Up? { ServerUsable(w, env, s.server, a, x, md, written); }
  }

  lemma StartCrashRefines<D(!new)>(w: World<D>, env: Env, s: State<D>, a: Abs<D>, e: Event)
    requires R(w, env, s, a) && e.DoStartCrash? && Enabled(w, env, s, e)
    ensures R(w, env, After(w, env, s, e), a)
  {
    hide BaseName, IncrName;
    BaseIsNotIncr(env.prefix, 1, 1, e.crashRdb);
    var x, md, written :| Related(w, env, s, a, x, md, written);
    assert Related(w, env, After(w, env, s, e), a, x, md, written);
  }

  lemma RelatedAbsOk<D>(w: World<D>, env: Env, s: State<D>, a: Abs<D>)
    requires R(w, env, s, a)
    ensures AbsOk(a) && (s.Up? ==> s.server.mem == Newest(a))
    ensures s.Down? && s.disk.manifest.None? ==> Restarted(a) == a
  {
    hide LogsOk, VersionsOk, DurableOk, OldFilesOk, BaseOk, Stored, Encode, ReplayLog, Orderly, AllFormattable;
    var x, md, written :| Related(w, env, s, a, x, md, written);
    if s.Up? || s.disk.manifest.Some? { VersionsIndex(w, a, x); }
  }

  /** Every step of the protocol is the abstract machine's step for the same event. */
  lemma StepRefines<D(!new)>(w: World<D>, env: Env, s: State<D>, a: Abs<D>, e: Event)
    requires Setting(w, env) && R(w, env, s, a) && Enabled(w, env, s, e) && (s.Up? ==> Usable(s.server))
    requires Safe(w, s, e)
    ensures AbsOk(a) && R(w, env, After(w, env, s, e), AbsAfter(w, env, s, a, e))
  {
    hide ServerOk, DiskOk, Feed, Flush, StartRewrite, RewriteDone, DelHistory, Crashed, Start, AllFormattable;
    hide UnitFeedable, Setting, Wrote, Restarted, Staying, AbsOk;
    hide TailBytes, TornInMulti, WritesAtEnd;
    RelatedIsUsable(w, env, s, a);
    RelatedAbsOk(w, env, s, a);
    SettingParts(w, env);
    var x, md, written :| Related(w, env, s, a, x, md, written);
    var a', x', md', written' := a, x, md, written;
    var s' := After(w, env, s, e);
    match e {
      case DoFeed(u) =>
        a', x' := FeedRefines(w, env, s.server, a, x, md, written, u);
      case DoFlush(n, undone) =>
        a', written' := FlushRefines(w, env, s.server, a, x, md, written, n, undone);
      case DoStartRewrite(n, undone, off, open, forked) =>
        NewIncrFormattable(s.server.manifest, env.prefix, off);
        a', x', md', written' := StartRewriteRefines(w, env, s.server, a, x, md, written, n, undone, off, open, forked);
      case DoRewriteDone(rdb, commit) =>
        CommittedFormattable(env, s.server.manifest, rdb);
        x', md' := RewriteDoneRefines(w, env, s.server, a, x, md, written, rdb, commit);
      case DoDelHistory(persisted) =>
        DropFormattable(s.server.manifest);
        md' := DelHistoryRefines(w, env, s.server, a, x, md, written, persisted);
      case DoCrash(p) =>
        a', written' := CrashRefines(w, env, s.server, a, x, md, written, p);
      case DoStart(rdb, off) =>
        if s.disk.manifest.Some? {
          a', x', written' := StartRefines(w, env, s.disk, a, x, md, written, rdb, off);
        } else {
          x', md' := FirstStart(w, env, s.disk, a, x, md, written, rdb, off);
          written' := "";
        }
      case DoStartCrash(_, _) =>
        StartCrashRefines(w, env, s, a, e);
        return;
    }
    assert Related(w, env, s', a', x', md', written');
  }

  lemma SettingParts<D>(w: World<D>, env: Env)
    requires Setting(w, env)
    ensures Sane(w) && Repairing(env.cfg) && GoodPrefix(env.prefix)
  {
  }

  ghost predicate IsRun<D(!new)>(w: World<D>, env: Env, ss: seq<State<D>>, es: seq<Event>) {
    && |ss| == |es| + 1 && Fresh(env, ss[0])
    && forall i :: 0 <= i < |es| ==>
         && Enabled(w, env, ss[i], es[i]) && (ss[i].Up? ==> Usable(ss[i].server))
         && ss[i + 1] == After(w, env, ss[i], es[i])
  }

  predicate SafeRun<D>(w: World<D>, ss: seq<State<D>>, es: seq<Event>)
    requires |es| < |ss| && forall i :: 0 <= i < |es| && ss[i].Up? ==> ss[i].server.manifest.incr != []
  {
    forall i :: 0 <= i < |es| ==> Safe(w, ss[i], es[i])
  }

  ghost predicate AbsRun<D(!new)>(w: World<D>, env: Env, ss: seq<State<D>>, es: seq<Event>, abs: seq<Abs<D>>) {
    && |abs| == |ss| == |es| + 1 && abs[0] == Abs([w.empty], 0, [])
    && (forall i :: 0 <= i < |ss| ==> R(w, env, ss[i], abs[i]))
    && (forall i :: 0 <= i < |es| ==>
          Enabled(w, env, ss[i], es[i]) && AbsOk(abs[i]) && abs[i + 1] == AbsAfter(w, env, ss[i], abs[i], es[i]))
  }

  /** Every run from an empty disk is explained, state by state, by the run of the abstract machine on the same
      events. */
  lemma {:induction false} EveryRunRefines<D(!new)>(w: World<D>, env: Env, ss: seq<State<D>>, es: seq<Event>)
    returns (abs: seq<Abs<D>>)
    requires Setting(w, env) && IsRun(w, env, ss, es) && SafeRun(w, ss, es)
    ensures AbsRun(w, env, ss, es, abs)
    decreases |es|
  {
    hide R, After, Enabled, AbsAfter, Usable, Setting, Safe, AbsOk;
    if es == [] {
      FreshRelated(w, env, ss[0]);
      abs := [Abs([w.empty], 0, [])];
    } else {
      var k := |es| - 1;
      var prior := EveryRunRefines(w, env, ss[..k + 1], es[..k]);
      StepRefines(w, env, ss[k], prior[k], es[k]);
      abs := prior + [AbsAfter(w, env, ss[k], prior[k], es[k])];
      assert forall i :: 0 <= i < |prior| ==> abs[i] == prior[i];
    }
  }

  lemma FreshRelated<D>(w: World<D>, env: Env, s: State<D>)
    requires Fresh(env, s)
    ensures R(w, env, s, Abs([w.empty], 0, []))
  {
    assert Related(w, env, s, Abs([w.empty], 0, []), Witness([], [], [], 0), EmptyManifest, "");
  }

  // ---------------------------------------------------------------- what it means

  /** At any moment of any run, loading the files on disk gives exactly the durable version, and the live
      dataset when the buffer is empty. */
  lemma LoadAnytime<D(!new)>(w: World<D>, env: Env, sv: Server<D>, a: Abs<D>) returns (files: map<string, File<D>>)
    requires Setting(w, env) && R(w, env, Up(sv), a)
    ensures FoundManifest(sv.disk).Ok? && AbsOk(a) && sv.mem == Newest(a)
    ensures LoadFiles(w, env.cfg, FoundManifest(sv.disk).value, sv.disk.files) == Loaded(a.versions[a.durable], files)
    ensures sv.buf == [] ==> a.durable == |a.versions| - 1
  {
    hide Encode, Orderly, LoadFiles, FilesOk, GoodPrefix, FoundManifest, ReplayLog, Stored, AbsOk;
    var x, md, written :| Related(w, env, Up(sv), a, x, md, written);
    ServerFound(w, env, sv, a, x, md, written);
    files := LoadVersion(w, env.cfg, md.(dirty := false), sv.disk.files, a, x, written);
    assert written + [] == written;
  }

  /** And at any moment at which the server is down. */
  lemma LoadWhenDown<D(!new)>(w: World<D>, env: Env, disk: Disk<D>, a: Abs<D>) returns (files: map<string, File<D>>)
    requires Setting(w, env) && R(w, env, Down(disk), a) && disk.manifest.Some?
    ensures FoundManifest(disk).Ok? && AbsOk(a)
    ensures LoadFiles(w, env.cfg, FoundManifest(disk).value, disk.files) == Loaded(a.versions[a.durable], files)
  {
    hide Encode, Orderly, LoadFiles, FilesOk, GoodPrefix, FoundManifest, TailBytes, ReplayLog, AbsOk;
    var x, md, written :| Related(w, env, Down(disk), a, x, md, written);
    ManifestFound(w, env, disk, a, x, md, md, written);
    files := LoadVersion(w, env.cfg, md.(dirty := false), disk.files, a, x, written);
  }

  /** No live file is ever missing: neither deleting history nor a failed rewrite unlinks one. */
  lemma LiveFilesExist<D>(w: World<D>, env: Env, sv: Server<D>, a: Abs<D>)
    requires R(w, env, Up(sv), a)
    ensures LiveNames(sv.manifest) <= sv.disk.files.Keys
    ensures HistoryNames(sv.manifest, |sv.manifest.history|) !! LiveNames(sv.manifest)
  {
    hide Encode, LogsOk, DurableOk, ReplayLogs, Stored, ReplayLog, BaseName, IncrName, Orderly, VersionsOk;
    var x, md, written :| Related(w, env, Up(sv), a, x, md, written);
    var m := sv.manifest;
    HistoryNotLive(m, env.prefix, |m.history|);
    forall name | name in LiveNames(m) ensures name in sv.disk.files {
      if name != m.base.value.name {
        var i :| 0 <= i < |m.incr| && m.incr[i].name == name;
        if i < |x.olds| { assert m.incr[i].name in sv.disk.files; } else { assert name == CurrentName(m); }
      }
    }
  }
}
