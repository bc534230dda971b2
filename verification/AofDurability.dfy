/** What the refinement means for the data: which commands a load brings back, at every moment of every run. */
module AofDurability {
  import opened Wrappers
  import opened AofManifest
  import opened AofFeed
  import opened AofUnits
  import opened AofProtocol
  import opened AofVersions
  import opened AofRefinement
  import Writer = AofWriter

  function DiskOf<D>(s: State<D>): Disk<D> {
    if s.Up? then s.server.disk else s.disk
  }

  /** In every state of every run, up or down, a load gives exactly the durable version. */
  lemma LoadsDurable<D(!new)>(w: World<D>, env: Env, s: State<D>, a: Abs<D>) returns (files: map<string, File<D>>)
    requires Setting(w, env) && R(w, env, s, a)
    ensures FoundManifest(DiskOf(s)).Ok? && AbsOk(a)
    ensures LoadFiles(w, env.cfg, FoundManifest(DiskOf(s)).value, DiskOf(s).files)
            == Loaded(a.versions[a.durable], files)
  {
    hide Setting, LoadFiles, FoundManifest, R;
    RelatedAbsOk(w, env, s, a);
    if s.Up? {
      files := LoadAnytime(w, env, s.server, a);
    } else if s.disk.manifest.Some? {
      files := LoadWhenDown(w, env, s.disk, a);
    } else {
      files := LoadNothing(w, env, s.disk, a);
    }
  }

  lemma LoadNothing<D(!new)>(w: World<D>, env: Env, disk: Disk<D>, a: Abs<D>) returns (files: map<string, File<D>>)
    requires R(w, env, Down(disk), a) && disk.manifest.None?
    ensures FoundManifest(disk).Ok? && a == Abs([w.empty], 0, [])
    ensures LoadFiles(w, env.cfg, FoundManifest(disk).value, disk.files) == Loaded(w.empty, files)
  {
    files := disk.files;
  }

  /** Over every stretch of a run, what was durable stays what it was and stays durable. */
  lemma {:induction false} RunKeepsDurable<D(!new)>(
      w: World<D>, env: Env, ss: seq<State<D>>, es: seq<Event>, abs: seq<Abs<D>>, i: nat, j: nat)
    requires AbsRun(w, env, ss, es, abs) && i <= j <= |es|
    ensures KeepsDurable(abs[i], abs[j])
    decreases j - i
  {
    hide R, Enabled, AbsAfter, KeepsDurable, AbsOk;
    RelatedAbsOk(w, env, ss[i], abs[i]);
    if i == j {
      SameKeepsDurable(abs[i]);
    } else {
      RunKeepsDurable(w, env, ss, es, abs, i, j - 1);
      StepKeepsDurable(w, env, ss[j - 1], abs[j - 1], es[j - 1]);
      KeepsDurableTwice(abs[i], abs[j - 1], abs[j]);
    }
  }

  /** A whole flush leaves nothing in the buffer. */
  lemma FlushEmpties<D>(sv: Server<D>, undone: bool)
    requires sv.manifest.incr != []
    ensures Flush(sv, |sv.buf|, undone).buf == []
  {
    hide Writer.WriteBytes;
  }

  /** Everything fed before a whole flush survives: whatever happens afterwards, rewrites, crashes at any point
      and restarts included, every later load gives a version that has all of it. */
  lemma FlushedSurvives<D(!new)>(
      w: World<D>, env: Env, ss: seq<State<D>>, es: seq<Event>, abs: seq<Abs<D>>, i: nat, j: nat)
    returns (files: map<string, File<D>>)
    requires Setting(w, env) && IsRun(w, env, ss, es) && AbsRun(w, env, ss, es, abs)
    requires i < j <= |es| && es[i].DoFlush? && ss[i].Up? && es[i].n == |ss[i].server.buf|
    ensures FoundManifest(DiskOf(ss[j])).Ok? && AbsOk(abs[j])
    ensures LoadFiles(w, env.cfg, FoundManifest(DiskOf(ss[j])).value, DiskOf(ss[j]).files)
            == Loaded(abs[j].versions[abs[j].durable], files)
    ensures abs[i].versions <= abs[j].versions[..abs[j].durable + 1]
  {
    hide R, Setting, LoadFiles, FoundManifest, Flush, Wrote, AllFormattable, UnitFeedable;
    files := LoadsDurable(w, env, ss[j], abs[j]);
    FlushEmpties(ss[i].server, es[i].undone);
    var _ := LoadAnytime(w, env, ss[i + 1].server, abs[i + 1]);
    WroteMeans(abs[i], Staying(ss[i].server, es[i].n, es[i].undone));
    RunKeepsDurable(w, env, ss, es, abs, i + 1, j);
  }

  /** A safe start comes up, and with exactly the durable version of the state before. */
  lemma StartBringsDurable<D(!new)>(
      w: World<D>, env: Env, ss: seq<State<D>>, es: seq<Event>, abs: seq<Abs<D>>, i: nat)
    requires Setting(w, env) && IsRun(w, env, ss, es) && AbsRun(w, env, ss, es, abs)
    requires i < |es| && es[i].DoStart? && Safe(w, ss[i], es[i])
    ensures AbsOk(abs[i]) && ss[i + 1].Up? && ss[i + 1].server.mem == abs[i].versions[abs[i].durable]
  {
    hide R, Setting, Start, UnitFeedable, TornInMulti, TailBytes;
    StartComesUp(w, env, ss[i], abs[i], es[i].startRdb, es[i].startOff);
    RelatedAbsOk(w, env, ss[i + 1], abs[i + 1]);
  }

  lemma StartComesUp<D(!new)>(w: World<D>, env: Env, s: State<D>, a: Abs<D>, rdb: bool, off: int)
    requires Setting(w, env) && R(w, env, s, a) && s.Down? && OffsetInRange(off)
    requires !TornInMulti(w.lookup, TailBytes(s.disk), false)
    ensures Start(w, env, s.disk, rdb, off).Up?
  {
    hide Start, DiskOk, Setting, TornInMulti, TailBytes;
    SettingParts(w, env);
    var x, md, written :| Related(w, env, s, a, x, md, written);
    if s.disk.manifest.Some? {
      var _, _, _ := StartRefines(w, env, s.disk, a, x, md, written, rdb, off);
    } else {
      var _, _ := FirstStart(w, env, s.disk, a, x, md, written, rdb, off);
    }
  }
}
