/** How the load of an append-only file ends, for every setting: which status it returns, when it
    may shorten the file, and which commands took effect, for a log cut at any byte, a log with a
    broken tail and a log that holds a command the server does not know. */
module AofOutcomes {
  import opened Decimal
  import opened AofCodec
  import opened AofLoader
  import opened AofRepair

  // ---------------------------------------------------------------- what a load keeps in mind

  /** Whatever the settings, the fake client holds the meaning of what was read. */
  lemma {:induction false} ClientMeaning(cfg: Config, lookup: Lookup, items: seq<Item>, off: nat, st: Loader)
    ensures RunItems(cfg, lookup, items, off, st).client == RunClient(lookup, items, st.client)
    decreases |items|
  {
    hide EncodeItem, Execute;
    if items != [] {
      var end := off + |EncodeItem(items[0])|;
      ClientMeaning(cfg, lookup, items[1..], end,
                    if items[0].Cmd? then Step(cfg, lookup, st, items[0].argv, end) else st);
    }
  }

  /** With either kind of repair enabled, the loader knows where the last command ended. */
  lemma {:induction false} LastCommandEnd(cfg: Config, lookup: Lookup, items: seq<Item>)
    requires cfg.loadTruncated || cfg.corruptTailMax != 0
    ensures RunItems(cfg, lookup, items, 0, NewLoader).validUpTo
            == |Encode(items[..ThroughLastCommand(items)])|
    decreases |items|
  {
    hide EncodeItem, Execute;
    if items != [] {
      var k := |items| - 1;
      var xs, item := items[..k], items[k];
      assert items == xs + [item];
      LastCommandEnd(cfg, lookup, xs);
      RunItemsGrows(cfg, lookup, xs, item);
      assert items[..|items|] == items;
      if item.Note? {
        assert items[..ThroughLastCommand(items)] == xs[..ThroughLastCommand(xs)];
      }
    }
  }

  // ---------------------------------------------------------------- transactions

  function AsItems(argvs: seq<Argv>): seq<Item> {
    seq(|argvs|, i requires 0 <= i < |argvs| => Cmd(argvs[i]))
  }

  /** Commands after a MULTI only wait, in order, until an EXEC; then all of them take effect. An
      EXEC that follows no MULTI changes nothing. */
  lemma TransactionMeaning(lookup: Lookup, xs: seq<Item>, multi: Argv, argvs: seq<Argv>, exec: Argv)
    requires !Meaning(lookup, xs).inMulti && lookup(multi) == Multi && lookup(exec) == Exec
    requires forall i :: 0 <= i < |argvs| ==> lookup(argvs[i]) != Exec
    ensures var open := xs + [Cmd(multi)] + AsItems(argvs);
            var before := Meaning(lookup, xs).executed;
            && Meaning(lookup, open) == Client(true, argvs, before)
            && Meaning(lookup, open + [Cmd(exec)]) == Client(false, [], before + argvs)
    ensures Meaning(lookup, xs + [Cmd(exec)]) == Meaning(lookup, xs)
  {
    hide Meaning;
    MeaningGrows(lookup, xs, Cmd(exec));
    Queued(lookup, xs, multi, argvs);
    MeaningGrows(lookup, xs + [Cmd(multi)] + AsItems(argvs), Cmd(exec));
  }

  lemma {:induction false} Queued(lookup: Lookup, xs: seq<Item>, multi: Argv, argvs: seq<Argv>)
    requires !Meaning(lookup, xs).inMulti && lookup(multi) == Multi
    requires forall i :: 0 <= i < |argvs| ==> lookup(argvs[i]) != Exec
    ensures Meaning(lookup, xs + [Cmd(multi)] + AsItems(argvs)) == Client(true, argvs, Meaning(lookup, xs).executed)
    decreases |argvs|
  {
    hide Meaning;
    var begun := xs + [Cmd(multi)];
    if argvs == [] {
      MeaningGrows(lookup, xs, Cmd(multi));
      assert begun + AsItems(argvs) == begun;
    } else {
      var k := |argvs| - 1;
      Queued(lookup, xs, multi, argvs[..k]);
      assert begun + AsItems(argvs) == (begun + AsItems(argvs[..k])) + [Cmd(argvs[k])];
      MeaningGrows(lookup, begun + AsItems(argvs[..k]), Cmd(argvs[k]));
      assert argvs[..k] + [argvs[k]] == argvs;
    }
  }

  // ---------------------------------------------------------------- a log cut at any byte

  /** The cut leaves a command without its end, or a transaction without its EXEC. */
  predicate Interrupted(lookup: Lookup, items: seq<Item>, k: nat)
    requires k <= |Encode(items)|
  {
    var n := Whole(items, k);
    (Torn(items, k) && n < |items| && items[n].Cmd?) || Meaning(lookup, items[..n]).inMulti
  }

  /** For every setting and every cut, the whole items before the cut take effect. The load fails
      exactly when the cut interrupts a command or a transaction and truncation is disabled or does
      not work, and unless it reports a truncation it leaves the file alone. */
  lemma CutLogOutcome(cfg: Config, lookup: Lookup, items: seq<Item>, k: nat)
    requires AllWritable(lookup, items) && k <= |Encode(items)|
    ensures var r := LoadFile(cfg, lookup, Encode(items)[..k]);
            && r.executed == Meaning(lookup, items[..Whole(items, k)]).executed
            && (r.status == AofFailed <==>
                  Interrupted(lookup, items, k) && !(cfg.loadTruncated && cfg.truncateOk))
            && (r.status == AofTruncated <==>
                  Interrupted(lookup, items, k) && cfg.loadTruncated && cfg.truncateOk)
            && (r.status == AofOk <==> k > 0 && !Interrupted(lookup, items, k))
            && (r.status == AofEmpty <==> k == 0)
            && (r.status != AofTruncated ==> r.file == Encode(items)[..k])
  {
    hide Execute, ReadEntry, EncodeItem;
    var file := Encode(items)[..k];
    var n := Whole(items, k);
    if k == 0 {
      assert items[..n] == [];
    } else {
      FirstByte(items, k);
      assert file[0..] == file;
      WholeFits(items, k);
      LoadCut(cfg, lookup, file, items, k, 0, NewLoader);
      ClientMeaning(cfg, lookup, items[..n], 0, NewLoader);
    }
  }

  // ---------------------------------------------------------------- a broken tail

  /** Bytes that are not an entry, after whole items: everything before them takes effect. The load
      recovers exactly when that is enabled, what would be dropped is shorter than the limit and
      the file can be truncated; it then cuts the file at the end of its last command. Otherwise it
      fails and leaves the file alone. */
  lemma BrokenTailOutcome(cfg: Config, lookup: Lookup, items: seq<Item>, tail: string)
    requires AllWritable(lookup, items) && ReadEntry(tail) == BadFormat
    requires items == [] ==> !("REDIS" <= tail)
    ensures var file := Encode(items) + tail;
            var kept := Encode(items[..ThroughLastCommand(items)]);
            var r := LoadFile(cfg, lookup, file);
            && kept <= file
            && r.executed == Meaning(lookup, items).executed
            && (r.status == AofBrokenRecovered <==>
                  cfg.corruptTailMax != 0 && |file| - |kept| < cfg.corruptTailMax && cfg.truncateOk)
            && (r.status == AofBrokenRecovered || r.status == AofFailed)
            && r.file == if r.status == AofBrokenRecovered then kept else file
  {
    hide Execute, ReadEntry, EncodeItem;
    var file := Encode(items) + tail;
    var t := ThroughLastCommand(items);
    NotRdb(items, tail);
    assert file[0..] == file;
    LoadReaches(cfg, lookup, file, items, tail, 0, NewLoader);
    ClientMeaning(cfg, lookup, items, 0, NewLoader);
    EncodePrefix(items, t, |items|);
    assert items[..|items|] == items;
    if cfg.corruptTailMax != 0 {
      LastCommandEnd(cfg, lookup, items);
      assert file[..|Encode(items[..t])|] == Encode(items[..t]);
    }
  }

  lemma NotRdb(items: seq<Item>, tail: string)
    requires tail != [] && (items == [] ==> !("REDIS" <= tail))
    ensures var file := Encode(items) + tail; file != [] && !("REDIS" <= file)
  {
    hide EncodeItem;
    if items == [] {
      assert Encode(items) + tail == tail;
    } else {
      EncodePrefix(items, 0, |items|);
      assert items[..|items|] == items;
      FirstByte(items, |Encode(items)|);
      assert (Encode(items) + tail)[0] == Encode(items)[..|Encode(items)|][0];
    }
  }

  /** What a recovery left on disk loads without complaint to the same commands, unless the tail
      was broken inside a transaction; then the next load finds it open. */
  lemma RecoveredLoadsAgain(cfg: Config, lookup: Lookup, items: seq<Item>, tail: string)
    requires AllWritable(lookup, items) && ReadEntry(tail) == BadFormat
    requires items == [] ==> !("REDIS" <= tail)
    ensures var r := LoadFile(cfg, lookup, Encode(items) + tail);
            var again := LoadFile(cfg, lookup, r.file);
            r.status == AofBrokenRecovered ==>
              && again.executed == r.executed
              && ((again.status == AofOk || again.status == AofEmpty) <==> !Meaning(lookup, items).inMulti)
  {
    hide Execute, ReadEntry, EncodeItem, LoadFile, Meaning;
    var t := ThroughLastCommand(items);
    var kept := items[..t];
    BrokenTailOutcome(cfg, lookup, items, tail);
    TrailingNotes(lookup, items, t);
    CutLogOutcome(cfg, lookup, kept, |Encode(kept)|);
    WholeOfAll(kept);
    assert Encode(kept)[..|Encode(kept)|] == Encode(kept) && kept[..|kept|] == kept;
    WholeIsNotTorn(kept);
    if t == 0 { NothingOpen(lookup); }
  }

  lemma WholeIsNotTorn(items: seq<Item>)
    ensures !Torn(items, |Encode(items)|)
  {
    WholeOfAll(items);
    assert items[..|items|] == items;
  }

  /** A command the server does not know stops the load: what came before it took effect, nothing
      after it does, and the file stays as it is. */
  lemma UnknownCommandOutcome(cfg: Config, lookup: Lookup, items: seq<Item>, argv: Argv, rest: string)
    requires AllWritable(lookup, items) && Encodable(argv) && lookup(argv) == Unknown
    ensures var file := Encode(items) + (EncodeCommand(argv) + rest);
            LoadFile(cfg, lookup, file) == LoadResult(AofFailed, Meaning(lookup, items).executed, file)
  {
    hide Execute, ReadEntry, EncodeItem;
    var tail := EncodeCommand(argv) + rest;
    var file := Encode(items) + tail;
    assert tail[0] == '*';
    NotRdb(items, tail);
    assert file[0..] == file;
    LoadReaches(cfg, lookup, file, items, tail, 0, NewLoader);
    ClientMeaning(cfg, lookup, items, 0, NewLoader);
    ReadCommandWhole(argv, rest);
  }

  // ---------------------------------------------------------------- what is not an entry

  /** An entry starts with '*' or '#'. */
  lemma StrayBytes(s: string)
    requires s != [] && s[0] != '*' && s[0] != '#'
    ensures ReadEntry(s) == BadFormat
  {
    assert Fgets(s)[0] == s[0];
  }

  /** A command has at least one argument. */
  lemma EmptyCommand(rest: string)
    ensures ReadEntry("*" + Print(0) + "\r\n" + rest) == BadFormat
  {
    var header := "*" + Print(0) + "\r\n";
    HeaderLine('*', 0, rest);
    assert header[1] == Print(0)[0];
  }

  /** Where an argument must start, anything but '$' is a format error, however many arguments
      were read before it. */
  lemma StrayArgument(argv: Argv, n: nat, bad: string)
    requires |argv| < n < 0x8000_0000_0000_0000
    requires forall j :: 0 <= j < |argv| ==> |argv[j]| < 0x8000_0000_0000_0000
    requires bad != [] && bad[0] != '$'
    ensures ReadEntry("*" + Print(n) + "\r\n" + (EncodeBulks(argv) + bad)) == BadFormat
  {
    hide EncodeBulks;
    var header := "*" + Print(n) + "\r\n";
    var body := EncodeBulks(argv) + bad;
    HeaderLine('*', n, body);
    assert (header + body)[|header|..] == body;
    assert header[1] == Print(n)[0];
    StrayBulk(argv, n, bad);
  }

  lemma NoDollar(bad: string)
    requires bad != [] && bad[0] != '$'
    ensures ReadBulk(bad) == BulkBad
  {
    assert Fgets(bad)[0] == bad[0];
  }

  lemma {:induction false} StrayBulk(argv: Argv, n: nat, bad: string)
    requires |argv| < n
    requires forall j :: 0 <= j < |argv| ==> |argv[j]| < 0x8000_0000_0000_0000
    requires bad != [] && bad[0] != '$'
    ensures ReadArgs(EncodeBulks(argv) + bad, n) == ArgsBad
    decreases |argv|
  {
    hide ReadBulk, EncodeBulk;
    if argv == [] {
      assert EncodeBulks(argv) + bad == bad;
      NoDollar(bad);
    } else {
      var tail := EncodeBulks(argv[1..]) + bad;
      assert EncodeBulks(argv) + bad == EncodeBulk(argv[0]) + tail;
      ReadBulkWhole(argv[0], tail);
      StrayBulk(argv[1..], n - 1, bad);
    }
  }

  /** The two bytes after an argument are skipped without looking at them. */
  lemma AnyTwoBytes(a: string, two: string, rest: string)
    requires |a| < 0x8000_0000_0000_0000 && |two| == 2
    ensures ReadBulk("$" + Print(|a|) + "\r\n" + (a + two + rest)) == Bulk(a, rest)
  {
    var header := "$" + Print(|a|) + "\r\n";
    var body := a + two + rest;
    HeaderLine('$', |a|, body);
    assert (header + body)[|header|..] == body;
    assert body[..|a|] == a && body[|a| + 2..] == rest;
  }
}
