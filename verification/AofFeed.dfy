/** What feeding commands writes (`feedAppendOnlyFile`: SELECT when the database changes, transactions
    wrapped in MULTI/EXEC) and what replaying it does to the dataset. */
module AofFeed {
  import opened Decimal
  import opened AofCodec
  import opened AofLoader
  import opened AofRepair

  /** The command table and its effect: `exec(d, db, argv)` runs `argv` in database `db`. */
  datatype World<!D> = World(exec: (D, int, Argv) -> D, lookup: Lookup, empty: D)

  function SelectCommand(db: nat): Argv {
    ["SELECT", Print(db)]
  }

  predicate IsSelect(argv: Argv) {
    |argv| == 2 && argv[0] == "SELECT"
  }

  const MULTI := ["MULTI"]
  const EXEC := ["EXEC"]

  ghost predicate Sane<D>(w: World<D>) {
    && w.lookup(MULTI) == Multi && w.lookup(EXEC) == Exec
    && forall db: nat :: w.lookup(SelectCommand(db)) == Plain
  }

  /** A command to append; database -1 means that it does not depend on one. */
  datatype Fed = Fed(db: int, argv: Argv)

  ghost predicate Feedable<D(!new)>(w: World<D>, f: Fed) {
    && Encodable(f.argv) && w.lookup(f.argv) == Plain && !IsSelect(f.argv)
    && -1 <= f.db < 0x8000_0000
    && (f.db == -1 ==> forall d, j, k :: w.exec(d, j, f.argv) == w.exec(d, k, f.argv))
  }

  /** One atomic addition to the log: a command, or a transaction. */
  datatype Unit = Single(cmd: Fed) | Txn(cmds: seq<Fed>)

  function UnitCommands(u: Unit): seq<Fed> {
    match u
    case Single(f) => [f]
    case Txn(fs) => fs
  }

  predicate DbsOk(fs: seq<Fed>) {
    forall i :: 0 <= i < |fs| ==> fs[i].db >= -1
  }

  ghost predicate AllFeedable<D(!new)>(w: World<D>, fs: seq<Fed>) {
    DbsOk(fs) && forall i :: 0 <= i < |fs| ==> Feedable(w, fs[i])
  }

  ghost predicate UnitFeedable<D(!new)>(w: World<D>, u: Unit) {
    AllFeedable(w, UnitCommands(u))
  }

  // ---------------------------------------------------------------- what is written

  function FeedOne(sel: int, f: Fed): seq<Item>
    requires f.db >= -1
  {
    (if f.db != -1 && f.db != sel then [Cmd(SelectCommand(f.db))] else []) + [Cmd(f.argv)]
  }

  function NextSel(sel: int, f: Fed): int {
    if f.db != -1 then f.db else sel
  }

  function FeedAll(sel: int, fs: seq<Fed>): seq<Item>
    requires DbsOk(fs)
    decreases |fs|
  {
    if fs == [] then [] else FeedOne(sel, fs[0]) + FeedAll(NextSel(sel, fs[0]), fs[1..])
  }

  function SelAfter(sel: int, fs: seq<Fed>): int
    decreases |fs|
  {
    if fs == [] then sel else SelAfter(NextSel(sel, fs[0]), fs[1..])
  }

  function UnitItems(sel: int, u: Unit): seq<Item>
    requires DbsOk(UnitCommands(u))
  {
    var items := FeedAll(sel, UnitCommands(u));
    if u.Single? then items else [Cmd(MULTI)] + items + [Cmd(EXEC)]
  }

  /** The text that `feedAppendOnlyFile` formats for a database switch is the encoded SELECT. */
  lemma SelectText(db: nat)
    ensures var text := Print(db);
            EncodeCommand(SelectCommand(db))
            == "*2\r\n$6\r\nSELECT\r\n$" + Print(|text|) + "\r\n" + text + "\r\n"
  {
    hide EncodeBulks, EncodeCommand, Print;
    var text := Print(db);
    EncodeTwo("SELECT", text);
    SelectHeader();
    Regroup("*2\r\n", "$6\r\nSELECT\r\n", "$", Print(|text|), "\r\n", text);
  }

  lemma EncodeTwo(x: string, y: string)
    ensures EncodeCommand([x, y]) == "*2\r\n" + (EncodeBulk(x) + (EncodeBulk(y) + ""))
  {
    hide EncodeBulk;
    assert Print(2) == "2" && "*" + "2" + "\r\n" == "*2\r\n";
    assert [x, y][1..] == [y] && [y][1..] == [];
    assert EncodeBulks([y]) == EncodeBulk(y) + EncodeBulks([]);
    assert EncodeBulks([x, y]) == EncodeBulk(x) + EncodeBulks([y]);
  }

  lemma SelectHeader()
    ensures EncodeBulk("SELECT") == "$6\r\nSELECT\r\n"
    ensures "*2\r\n" + "$6\r\nSELECT\r\n" + "$" == "*2\r\n$6\r\nSELECT\r\n$"
  {
    assert Print(6) == "6";
  }

  lemma Regroup(a: string, b: string, c: string, d: string, e: string, f: string)
    ensures a + (b + (c + d + e + f + e + "")) == a + b + c + d + e + f + e
  {
  }

  method FeedAppendOnlyFile(aofBuf: string, selectedDb: int, f: Fed) returns (buf: string, sel: int)
    requires f.db >= -1
    ensures buf == aofBuf + Encode(FeedOne(selectedDb, f))
    ensures sel == NextSel(selectedDb, f)
    ensures var switches := f.db != -1 && f.db != selectedDb;
            && sel == (if switches then f.db else selectedDb)
            && buf == aofBuf + ((if switches then EncodeCommand(["SELECT", Print(f.db)]) else "")
                                + EncodeCommand(f.argv))
  {
    hide EncodeCommand;
    var b := "";
    sel := selectedDb;
    if f.db != -1 && f.db != selectedDb {
      var text := Print(f.db);
      b := "*2\r\n$6\r\nSELECT\r\n$" + Print(|text|) + "\r\n" + text + "\r\n";
      SelectText(f.db);
      sel := f.db;
    }
    ghost var before := b;
    b := CatAppendOnlyGenericCommand(b, f.argv);
    EncodeOneOrTwo(f, selectedDb);
    assert before + EncodeCommand(f.argv) == b;
    buf := aofBuf + b;
  }

  lemma EncodeOneOrTwo(f: Fed, sel: int)
    requires f.db >= -1
    ensures Encode(FeedOne(sel, f))
            == (if f.db != -1 && f.db != sel then EncodeCommand(SelectCommand(f.db)) else "") + EncodeCommand(f.argv)
  {
    hide EncodeCommand;
    EncodeGrows([], Cmd(f.argv));
    assert [] + [Cmd(f.argv)] == [Cmd(f.argv)];
    if f.db != -1 && f.db != sel {
      EncodeGrows([], Cmd(SelectCommand(f.db)));
      assert [] + [Cmd(SelectCommand(f.db))] == [Cmd(SelectCommand(f.db))];
      EncodeAppend([Cmd(SelectCommand(f.db))], [Cmd(f.argv)]);
    } else {
      assert [] + [Cmd(f.argv)] == [Cmd(f.argv)];
    }
  }

  // ---------------------------------------------------------------- what it does

  function Effects<D>(w: World<D>, d: D, fs: seq<Fed>): D
    decreases |fs|
  {
    if fs == [] then d else Effects(w, w.exec(d, fs[0].db, fs[0].argv), fs[1..])
  }

  function UnitEffect<D>(w: World<D>, d: D, u: Unit): D {
    Effects(w, d, UnitCommands(u))
  }

  /** The replaying client: the dataset and the database it has selected. */
  datatype Cursor<D> = Cursor(data: D, db: int)

  function ReplayOne<D>(w: World<D>, c: Cursor<D>, argv: Argv): Cursor<D> {
    if IsSelect(argv) then c.(db := Atoi(argv[1])) else c.(data := w.exec(c.data, c.db, argv))
  }

  function Replay<D>(w: World<D>, c: Cursor<D>, argvs: seq<Argv>): Cursor<D>
    decreases |argvs|
  {
    if argvs == [] then c else Replay(w, ReplayOne(w, c, argvs[0]), argvs[1..])
  }

  lemma {:induction false} ReplayAppend<D>(w: World<D>, c: Cursor<D>, xs: seq<Argv>, ys: seq<Argv>)
    ensures Replay(w, c, xs + ys) == Replay(w, Replay(w, c, xs), ys)
    decreases |xs|
  {
    hide ReplayOne;
    if xs == [] {
      assert xs + ys == ys;
    } else {
      assert (xs + ys)[1..] == xs[1..] + ys;
      ReplayAppend(w, ReplayOne(w, c, xs[0]), xs[1..], ys);
    }
  }

  lemma ReplaySelect<D>(w: World<D>, c: Cursor<D>, db: nat)
    ensures ReplayOne(w, c, SelectCommand(db)) == c.(db := db)
  {
    PrintRoundTrip(db, []);
    assert Print(db) + [] == Print(db);
  }

  lemma {:induction false} CommandsAppend(xs: seq<Item>, ys: seq<Item>)
    ensures Commands(xs + ys) == Commands(xs) + Commands(ys)
  {
    if xs == [] {
      assert xs + ys == ys;
    } else {
      assert (xs + ys)[1..] == xs[1..] + ys;
      CommandsAppend(xs[1..], ys);
    }
  }

  lemma ReplayFeedOne<D(!new)>(w: World<D>, c: Cursor<D>, sel: int, f: Fed)
    requires Feedable(w, f) && (sel == -1 || sel == c.db)
    ensures var c' := Replay(w, c, Commands(FeedOne(sel, f)));
            && c'.data == w.exec(c.data, f.db, f.argv)
            && (NextSel(sel, f) == -1 || NextSel(sel, f) == c'.db)
  {
    var cmd := [f.argv];
    assert cmd[1..] == [];
    assert Replay(w, c, cmd) == ReplayOne(w, c, f.argv);
    assert Commands([Cmd(f.argv)]) == cmd by { assert [Cmd(f.argv)][1..] == []; }
    if f.db != -1 && f.db != sel {
      var s := SelectCommand(f.db);
      var two := [s, f.argv];
      assert Commands(FeedOne(sel, f)) == two by {
        assert FeedOne(sel, f)[1..] == [Cmd(f.argv)];
      }
      assert two[1..] == cmd;
      ReplaySelect(w, c, f.db);
      assert Replay(w, c, two) == Replay(w, c.(db := f.db), cmd);
    } else {
      assert FeedOne(sel, f) == [Cmd(f.argv)];
      if f.db == -1 {
        assert w.exec(c.data, c.db, f.argv) == w.exec(c.data, -1, f.argv);
      }
    }
  }

  /** Replaying what was fed has the effect of running it, and the server's idea of the selected
      database agrees with the replaying client's. */
  lemma {:induction false} ReplayFeed<D(!new)>(w: World<D>, c: Cursor<D>, sel: int, fs: seq<Fed>)
    requires AllFeedable(w, fs)
    requires sel == -1 || sel == c.db
    ensures var c' := Replay(w, c, Commands(FeedAll(sel, fs)));
            && c'.data == Effects(w, c.data, fs)
            && (SelAfter(sel, fs) == -1 || SelAfter(sel, fs) == c'.db)
    decreases |fs|
  {
    hide ReplayOne, FeedOne;
    if fs != [] {
      var first, rest := FeedOne(sel, fs[0]), FeedAll(NextSel(sel, fs[0]), fs[1..]);
      CommandsAppend(first, rest);
      ReplayAppend(w, c, Commands(first), Commands(rest));
      ReplayFeedOne(w, c, sel, fs[0]);
      ReplayFeed(w, Replay(w, c, Commands(first)), NextSel(sel, fs[0]), fs[1..]);
    }
  }

  // ---------------------------------------------------------------- units in a log

  lemma {:induction false} FedAreWritable<D(!new)>(w: World<D>, sel: int, fs: seq<Fed>)
    requires Sane(w) && AllFeedable(w, fs)
    ensures AllWritable(w.lookup, FeedAll(sel, fs)) && MultiFree(w.lookup, FeedAll(sel, fs))
    ensures forall i :: 0 <= i < |FeedAll(sel, fs)| ==> FeedAll(sel, fs)[i].Cmd?
    decreases |fs|
  {
    if fs != [] {
      FedAreWritable(w, NextSel(sel, fs[0]), fs[1..]);
      if fs[0].db != -1 {
        var s := SelectCommand(fs[0].db);
        PrintWidth64(fs[0].db);
        assert w.lookup(s) == Plain && Encodable(s);
      }
      assert forall i :: 0 <= i < |FeedOne(sel, fs[0])| ==>
        Writable(w.lookup, FeedOne(sel, fs[0])[i]) && w.lookup(FeedOne(sel, fs[0])[i].argv) == Plain;
    }
  }

  /** What has been executed before does not influence what is executed next. */
  lemma {:induction false} ExecutedPrefix(lookup: Lookup, items: seq<Item>, c: Client)
    ensures RunClient(lookup, items, c)
            == (var r := RunClient(lookup, items, c.(executed := [])); r.(executed := c.executed + r.executed))
    decreases |items|
  {
    if items == [] {
      assert c.executed + [] == c.executed;
    } else if items[0].Note? {
      ExecutedPrefix(lookup, items[1..], c);
    } else {
      var argv := items[0].argv;
      var c0 := c.(executed := []);
      var c1, d1 := Execute(lookup, c, argv), Execute(lookup, c0, argv);
      assert c1 == d1.(executed := c.executed + d1.executed);
      ExecutedPrefix(lookup, items[1..], c1);
      ExecutedPrefix(lookup, items[1..], d1);
      var r := RunClient(lookup, items[1..], d1.(executed := [])).executed;
      assert c.executed + d1.executed + r == c.executed + (d1.executed + r);
    }
  }

  /** From a clean client a log adds its own meaning. */
  lemma {:induction false} CleanMeaning(lookup: Lookup, xs: seq<Item>, ys: seq<Item>)
    requires Meaning(lookup, xs) == Client(false, [], Meaning(lookup, xs).executed)
    ensures var r := Meaning(lookup, ys);
            Meaning(lookup, xs + ys) == r.(executed := Meaning(lookup, xs).executed + r.executed)
  {
    hide RunClient, Execute;
    RunClientAppend(lookup, xs, ys, NewClient);
    ExecutedPrefix(lookup, ys, Meaning(lookup, xs));
  }

  lemma {:induction false} ClosedMeansEmptyQueue(lookup: Lookup, items: seq<Item>)
    ensures !Meaning(lookup, items).inMulti ==> Meaning(lookup, items).queue == []
  {
    if items != [] {
      var k := |items| - 1;
      assert items == items[..k] + [items[k]];
      ClosedMeansEmptyQueue(lookup, items[..k]);
      MeaningGrows(lookup, items[..k], items[k]);
    }
  }

  predicate OnlySelects(argvs: seq<Argv>) {
    forall i :: 0 <= i < |argvs| ==> IsSelect(argvs[i])
  }

  lemma {:induction false} SelectsKeepData<D>(w: World<D>, c: Cursor<D>, argvs: seq<Argv>)
    requires OnlySelects(argvs)
    ensures Replay(w, c, argvs).data == c.data
    decreases |argvs|
  {
    if argvs != [] {
      SelectsKeepData(w, ReplayOne(w, c, argvs[0]), argvs[1..]);
    }
  }

  /** A log that can stand in a file on its own: written commands, no transaction open or nested. */
  ghost predicate Standing(lookup: Lookup, items: seq<Item>) {
    && AllWritable(lookup, items) && NoNesting(lookup, items)
    && !Meaning(lookup, items).inMulti
    && forall i :: 0 <= i < |items| ==> items[i].Cmd?
  }

  /** An atomic piece of a log: cut anywhere inside, it has done nothing but select a database. */
  ghost predicate Atomic(lookup: Lookup, items: seq<Item>) {
    && Standing(lookup, items)
    && forall m :: 0 <= m < |items| ==> OnlySelects(Meaning(lookup, items[..m]).executed)
  }

  lemma StandingAppend(lookup: Lookup, xs: seq<Item>, ys: seq<Item>)
    requires Standing(lookup, xs) && Standing(lookup, ys)
    ensures Standing(lookup, xs + ys)
    ensures Meaning(lookup, xs + ys).executed == Meaning(lookup, xs).executed + Meaning(lookup, ys).executed
  {
    hide RunClient, Execute;
    NoNestingAppend(lookup, xs, ys);
    ClosedMeansEmptyQueue(lookup, xs);
    CleanMeaning(lookup, xs, ys);
  }

  /** The items of one unit are atomic and replaying them has the unit's effect. */
  lemma SingleIsAtomic<D(!new)>(w: World<D>, sel: int, f: Fed)
    requires Sane(w) && AllFeedable(w, [f])
    ensures Atomic(w.lookup, FeedAll(sel, [f]))
    ensures Meaning(w.lookup, FeedAll(sel, [f])).executed == Commands(FeedAll(sel, [f]))
  {
    hide RunClient, Execute;
    var items := FeedAll(sel, [f]);
    FedAreWritable(w, sel, [f]);
    MultiFreeMeaning(w.lookup, items);
    assert [f][1..] == [] && FeedAll(NextSel(sel, f), []) == [];
    assert items == FeedOne(sel, f);
    forall m | 0 <= m < |items| ensures OnlySelects(Meaning(w.lookup, items[..m]).executed) {
      MultiFreeMeaning(w.lookup, items[..m]);
      if m == 1 {
        assert items[..1] == [Cmd(SelectCommand(f.db))];
        assert Commands(items[..1]) == [SelectCommand(f.db)] by { assert items[..1][1..] == []; }
      } else {
        assert items[..m] == [];
      }
    }
  }

  lemma {:induction false} OpenTransaction<D(!new)>(w: World<D>, body: seq<Item>, m: nat)
    requires Sane(w) && MultiFree(w.lookup, body) && m <= |body|
    ensures Meaning(w.lookup, [Cmd(MULTI)] + body[..m]) == Client(true, Commands(body[..m]), [])
    decreases m
  {
    hide RunClient;
    var open := [Cmd(MULTI)];
    if m == 0 {
      assert open + body[..0] == [] + open;
      MeaningGrows(w.lookup, [], Cmd(MULTI));
      MultiFreeMeaning(w.lookup, []);
      assert Commands(body[..0]) == [];
    } else {
      OpenTransaction(w, body, m - 1);
      var item := body[m - 1];
      assert body[..m] == body[..m - 1] + [item];
      assert open + body[..m] == (open + body[..m - 1]) + [item];
      MeaningGrows(w.lookup, open + body[..m - 1], item);
      CommandsGrow(body[..m - 1], item);
    }
  }

  lemma TxnIsAtomic<D(!new)>(w: World<D>, sel: int, fs: seq<Fed>)
    requires Sane(w) && AllFeedable(w, fs)
    ensures var items := [Cmd(MULTI)] + FeedAll(sel, fs) + [Cmd(EXEC)];
            && Atomic(w.lookup, items)
            && Meaning(w.lookup, items).executed == Commands(FeedAll(sel, fs))
  {
    hide RunClient;
    var body := FeedAll(sel, fs);
    var open := [Cmd(MULTI)];
    var items := open + body + [Cmd(EXEC)];
    FedAreWritable(w, sel, fs);
    assert body[..|body|] == body;
    OpenTransaction(w, body, |body|);
    MeaningGrows(w.lookup, open + body, Cmd(EXEC));
    assert [] + Commands(body) == Commands(body);
    forall m | 0 <= m < |items|
      ensures m > 0 ==> Meaning(w.lookup, items[..m]).inMulti
      ensures m == 0 ==> !Meaning(w.lookup, items[..m]).inMulti
      ensures Meaning(w.lookup, items[..m]).executed == []
    {
      if m == 0 {
        assert items[..0] == [];
        MultiFreeMeaning(w.lookup, []);
      } else {
        assert items[..m] == open + body[..m - 1];
        OpenTransaction(w, body, m - 1);
      }
    }
    assert forall i :: 0 < i < |items| - 1 ==> items[i] == body[i - 1];
    assert items[0] == Cmd(MULTI) && items[|items| - 1] == Cmd(EXEC);
    assert NoNesting(w.lookup, items);
    assert AllWritable(w.lookup, items);
  }

  lemma UnitIsAtomic<D(!new)>(w: World<D>, sel: int, u: Unit)
    requires Sane(w) && UnitFeedable(w, u)
    ensures Atomic(w.lookup, UnitItems(sel, u))
    ensures Meaning(w.lookup, UnitItems(sel, u)).executed == Commands(FeedAll(sel, UnitCommands(u)))
  {
    hide Atomic, RunClient, FeedAll;
    match u {
      case Single(f) => SingleIsAtomic(w, sel, f);
      case Txn(fs) => TxnIsAtomic(w, sel, fs);
    }
  }
}
