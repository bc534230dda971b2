/** The failing runs exist: each is built step by step from an empty disk. */
module AofFailingRuns {
  import opened Wrappers
  import opened AofCodec
  import opened AofLoader
  import opened AofRepair
  import opened AofFeed
  import opened AofUnits
  import opened AofManifest
  import opened AofRotation
  import opened AofProtocol
  import opened AofVersions
  import opened AofRefinement
  import opened AofConditions

  function EmptyDisk<D>(): State<D> {
    Down(Disk(map[], None))
  }

  lemma NoRun<D(!new)>(w: World<D>, env: Env)
    ensures IsRun(w, env, [EmptyDisk()], [])
  {
  }

  lemma RunGrows<D(!new)>(w: World<D>, env: Env, ss: seq<State<D>>, es: seq<Event>, e: Event)
    requires IsRun(w, env, ss, es)
    requires var s := ss[|es|]; Enabled(w, env, s, e) && (s.Up? ==> Usable(s.server))
    ensures IsRun(w, env, ss + [After(w, env, ss[|es|], e)], es + [e])
  {
    hide Enabled, After, Usable, Fresh;
    var ss', es' := ss + [After(w, env, ss[|es|], e)], es + [e];
    forall i | 0 <= i < |es'|
      ensures Enabled(w, env, ss'[i], es'[i]) && (ss'[i].Up? ==> Usable(ss'[i].server))
      ensures ss'[i + 1] == After(w, env, ss'[i], es'[i])
    {
      if i < |es| { assert ss'[i] == ss[i] && ss'[i + 1] == ss[i + 1] && es'[i] == es[i]; }
    }
  }

  lemma RunIs<D(!new)>(w: World<D>, env: Env, ss: seq<State<D>>, es: seq<Event>)
    requires IsRun(w, env, ss, es)
    ensures |ss| == |es| + 1
  {
  }

  /** The first start comes up with empty files, numbered one. */
  lemma Started<D(!new)>(w: World<D>, env: Env, rdb: bool, off: int) returns (sv: Server<D>, ss: seq<State<D>>)
    requires OffsetInRange(off)
    ensures IsRun(w, env, ss, [DoStart(rdb, off)]) && ss[1] == Up(sv) && Usable(sv)
    ensures sv.buf == "" && sv.child.NoChild? && sv.manifest.currIncr == 1 && sv.manifest.currBase == 1
  {
    hide BaseName, IncrName, FormatManifest, AllFormattable, Start;
    var s := EmptyDisk<D>();
    NoRun(w, env);
    FirstFiles(w, env, s.disk, rdb, off);
    sv := Start(w, env, s.disk, rdb, off).server;
    RunGrows(w, env, [s], [], DoStart(rdb, off));
    ss := [s] + [Up(sv)];
    assert [] + [DoStart(rdb, off)] == [DoStart(rdb, off)];
    var m := NewIncr(NewBase(EmptyManifest, env.prefix, rdb), env.prefix, off);
    FormatSame(m, sv.manifest);
  }

  /** A rewrite that has opened the next file leaves a usable server. */
  lemma OpenedUsable<D>(env: Env, sv: Server<D>, n: nat, undone: bool, off: int, forked: bool)
    requires Usable(sv) && n <= |sv.buf| && off >= 0 && sv.child.NoChild?
    ensures AllFormattable(Files(NewIncr(sv.manifest, env.prefix, off)))
    ensures var sv' := StartRewrite(env, sv, n, undone, off, Opened, forked);
            && Usable(sv') && sv'.manifest.currBase == sv.manifest.currBase && sv'.mem == sv.mem
            && sv'.child == (if forked then Rewriting(sv.mem) else NoChild)
            && ((n == 0 && undone) || sv.buf == "" ==> sv'.buf == sv.buf)
  {
    hide IncrName, FormatManifest, AllFormattable, Flush;
    NewIncrFormattable(sv.manifest, env.prefix, off);
    FlushKeeps(sv.(selectedDb := -1), n, undone);
    NothingFlushed(sv.(selectedDb := -1), n, undone);
    var m := NewIncr(sv.manifest, env.prefix, off);
    FormatSame(m, m.(dirty := false));
  }

  lemma NothingFlushed<D>(sv: Server<D>, n: nat, undone: bool)
    requires sv.manifest.incr != [] && n <= |sv.buf|
    ensures (n == 0 && undone) || sv.buf == "" ==> Flush(sv, n, undone).buf == sv.buf
  {
  }

  lemma LongText(items: seq<Item>)
    requires items != []
    ensures |Encode(items)| >= 2
  {
    hide EncodeItem;
    LongItem(items[0]);
  }

  lemma LongItem(item: Item)
    ensures |EncodeItem(item)| >= 2
  {
  }

  /** Every command gives a run in which it is flushed and lost. */
  lemma GapRunExists<D(!new)>(w: World<D>, env: Env, rdb: bool, off: int, off': int, forked: bool, u: Unit)
    returns (ss: seq<State<D>>, es: seq<Event>, files: map<string, File<D>>)
    requires Setting(w, env) && OffsetInRange(off) && OffsetInRange(off') && UnitFeedable(w, u)
    ensures IsRun(w, env, ss, es) && |es| == 5 && ss[5].Up? && ss[5].server.buf == []
    ensures ss[5].server.mem == UnitEffect(w, w.empty, u) && FoundManifest(ss[5].server.disk).Ok?
    ensures HoleResult(w, env, LoadFiles(w, env.cfg, FoundManifest(ss[5].server.disk).value, ss[5].server.disk.files),
                       w.empty, files)
    ensures forall a: Abs<D> :: !R(w, env, ss[5], a)
  {
    hide Setting, StartRewrite, LoadFiles, FoundManifest, Flush, Feed, R, HoleResult, UnitEffect, Fresh;
    hide AllFormattable, Start, IsRun;
    var sv1, ss1 := Started(w, env, rdb, off);
    var e1, e2, e3 := DoStart(rdb, off), DoStartRewrite(0, false, off', Opened, forked), DoFeed(u);
    OpenedUsable(env, sv1, 0, false, off', forked);
    OpenedFile(env, sv1, off', forked);
    RunIs(w, env, ss1, [e1]);
    RunGrows(w, env, ss1, [e1], e2);
    var sv2 := StartRewrite(env, sv1, 0, false, off', Opened, forked);
    var ss2 := ss1 + [Up(sv2)];
    assert [e1] + [e2] == [e1, e2];
    RunGrows(w, env, ss2, [e1, e2], e3);
    FeedFiles(w, sv2, u);
    var sv3 := Feed(w, sv2, u);
    var ss3 := ss2 + [Up(sv3)];
    assert [e1, e2] + [e3] == [e1, e2, e3];
    FedText(w, sv2, u);
    var n, k := 1, |sv3.buf|;
    ss, es := TwoFlushes(w, env, ss3, [e1, e2, e3], sv3, n);
    assert es == [e1, e2, e3, DoFlush(n, true), DoFlush(k, false)];
    RunIs(w, env, ss, es);
    assert ss[3] == ss3[3];
    files := GapRun(w, env, ss, es, rdb, off, off', forked, u, n, k);
  }

  lemma FedText<D>(w: World<D>, sv: Server<D>, u: Unit)
    requires DbsOk(UnitCommands(u)) && Usable(sv)
    ensures |Feed(w, sv, u).buf| >= 2 && Usable(Feed(w, sv, u)) && Feed(w, sv, u).child == sv.child
    ensures Feed(w, sv, u).manifest == sv.manifest
  {
    hide AllFormattable;
    LongText(UnitItems(sv.selectedDb, u));
  }

  /** A short write that is taken back, and a whole one. */
  lemma TwoFlushes<D(!new)>(w: World<D>, env: Env, ss0: seq<State<D>>, es0: seq<Event>, sv: Server<D>, n: nat)
    returns (ss: seq<State<D>>, es: seq<Event>)
    requires IsRun(w, env, ss0, es0) && ss0[|es0|] == Up(sv) && Usable(sv) && 0 < n < |sv.buf| && sv.fd.lastSize == 0
    ensures es == es0 + [DoFlush(n, true), DoFlush(|sv.buf|, false)] && IsRun(w, env, ss, es)
    ensures forall i :: 0 <= i < |ss0| ==> ss[i] == ss0[i]
  {
    hide Flush, Fresh;
    RunGrows(w, env, ss0, es0, DoFlush(n, true));
    var sv1 := Flush(sv, n, true);
    FlushKeeps(sv, n, true);
    var ss1, es1 := ss0 + [Up(sv1)], es0 + [DoFlush(n, true)];
    TakenBack(sv, n);
    RunGrows(w, env, ss1, es1, DoFlush(|sv.buf|, false));
    ss, es := ss1 + [Up(Flush(sv1, |sv.buf|, false))], es1 + [DoFlush(|sv.buf|, false)];
    assert es == es0 + [DoFlush(n, true), DoFlush(|sv.buf|, false)];
  }

  lemma TakenBack<D>(sv: Server<D>, n: nat)
    requires sv.manifest.incr != [] && n < |sv.buf| && sv.fd.lastSize == 0
    ensures Flush(sv, n, true).buf == sv.buf
  {
  }

  /** A run in which one increment is counted twice. */
  lemma CounterRunExists(env: Env, rdb: bool, off: int, off': int)
    returns (ss: seq<State<int>>, es: seq<Event>)
    requires Repairing(env.cfg) && GoodPrefix(env.prefix) && OffsetInRange(off) && OffsetInRange(off')
    ensures Setting(CounterWorld(), env) && IsRun(CounterWorld(), env, ss, es) && |es| == 5
    ensures ss[5].Up? && ss[5].server.buf == [] && ss[5].server.mem == 1
    ensures LoadFiles(CounterWorld(), env.cfg, ss[5].server.manifest, ss[5].server.disk.files)
            == Loaded(2, ss[5].server.disk.files)
  {
    hide StartRewrite, RewriteDone, LoadFiles, Flush, Feed, AllFormattable, Start, Fresh, GoodPrefix, IsRun;
    var w, u := CounterWorld(), Single(Fed(0, INCR));
    var sv1, ss1 := Started(w, env, rdb, off);
    var e1, e2 := DoStart(rdb, off), DoFeed(u);
    var e3, e4 := DoStartRewrite(0, true, off', Opened, true), DoRewriteDone(rdb, Committed);
    IncrFeedable();
    RunIs(w, env, ss1, [e1]);
    RunGrows(w, env, ss1, [e1], e2);
    FedText(w, sv1, u);
    var sv2 := Feed(w, sv1, u);
    var ss2 := ss1 + [Up(sv2)];
    assert [e1] + [e2] == [e1, e2];
    OpenedUsable(env, sv2, 0, true, off', true);
    RunGrows(w, env, ss2, [e1, e2], e3);
    var sv3 := StartRewrite(env, sv2, 0, true, off', Opened, true);
    var ss3 := ss2 + [Up(sv3)];
    assert [e1, e2] + [e3] == [e1, e2, e3];
    CommittedUsable(env, sv3, rdb);
    RunGrows(w, env, ss3, [e1, e2, e3], e4);
    var sv4 := RewriteDone(env, sv3, rdb, Committed);
    var ss4 := ss3 + [Up(sv4)];
    assert [e1, e2, e3] + [e4] == [e1, e2, e3, e4];
    var n := |sv4.buf|;
    RunGrows(w, env, ss4, [e1, e2, e3, e4], DoFlush(n, false));
    ss, es := ss4 + [Up(Flush(sv4, n, false))], [e1, e2, e3, e4] + [DoFlush(n, false)];
    assert es == [e1, e2, e3, e4, DoFlush(n, false)];
    CounterCountedTwice(env, ss, es, rdb, off, off', n);
  }

  lemma IncrFeedable()
    ensures UnitFeedable(CounterWorld(), Single(Fed(0, INCR))) && DbsOk(UnitCommands(Single(Fed(0, INCR))))
  {
    assert |INCR| == 2 && INCR[0][0] == 'I';
    assert Feedable(CounterWorld(), Fed(0, INCR));
  }

  lemma CommittedUsable<D>(env: Env, sv: Server<D>, rdb: bool)
    requires Usable(sv) && sv.child.Rewriting?
    ensures AllFormattable(Files(CommittedManifest(env, sv.manifest, rdb)))
    ensures Usable(RewriteDone(env, sv, rdb, Committed))
  {
    hide BaseName, FormatManifest, AllFormattable;
    assert sv.manifest.incr != [];
    CommittedFormattable(env, sv.manifest, rdb);
    var m := CommittedManifest(env, sv.manifest, rdb);
    FormatSame(m, m.(dirty := false));
  }
}
