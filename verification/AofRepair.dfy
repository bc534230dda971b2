/** What the loader makes of a log that was cut at an arbitrary byte, for every log and every cut:
    which commands take effect, what remains on disk, and exactly when the repaired file can
    safely be appended to. */
module AofRepair {
  import opened Decimal
  import opened AofCodec
  import opened AofLoader

  /** Truncation is enabled and works. */
  predicate Repairing(cfg: Config) {
    cfg.loadTruncated && cfg.truncateOk
  }

  /** A MULTI is never propagated inside an open MULTI (the server refuses nesting). */
  predicate NoNesting(lookup: Lookup, items: seq<Item>) {
    forall i :: 0 <= i < |items| && items[i].Cmd? && lookup(items[i].argv) == Multi
                ==> !Meaning(lookup, items[..i]).inMulti
  }

  predicate MultiFree(lookup: Lookup, items: seq<Item>) {
    forall i :: 0 <= i < |items| && items[i].Cmd? ==> lookup(items[i].argv) == Plain
  }

  function Commands(items: seq<Item>): seq<Argv> {
    if items == [] then []
    else (if items[0].Cmd? then [items[0].argv] else []) + Commands(items[1..])
  }

  /** The log up to and including its last command: what remains when trailing annotations go. */
  function ThroughLastCommand(items: seq<Item>): (n: nat)
    ensures n <= |items|
    ensures n > 0 ==> items[n - 1].Cmd?
    ensures forall i :: n <= i < |items| ==> items[i].Note?
  {
    if items == [] then 0
    else if items[|items| - 1].Cmd? then |items|
    else ThroughLastCommand(items[..|items| - 1])
  }

  // ---------------------------------------------------------------- one more item

  lemma {:induction false} RunItemsAppend(cfg: Config, lookup: Lookup, xs: seq<Item>, ys: seq<Item>, off: nat,
                                          st: Loader)
    ensures RunItems(cfg, lookup, xs + ys, off, st)
            == RunItems(cfg, lookup, ys, off + |Encode(xs)|, RunItems(cfg, lookup, xs, off, st))
    decreases |xs|
  {
    hide EncodeItem, Execute;
    if xs == [] {
      assert xs + ys == ys;
    } else {
      assert (xs + ys)[1..] == xs[1..] + ys;
      var end := off + |EncodeItem(xs[0])|;
      RunItemsAppend(cfg, lookup, xs[1..], ys, end,
                     if xs[0].Cmd? then Step(cfg, lookup, st, xs[0].argv, end) else st);
    }
  }

  lemma MeaningGrows(lookup: Lookup, xs: seq<Item>, item: Item)
    ensures Meaning(lookup, xs + [item])
            == if item.Cmd? then Execute(lookup, Meaning(lookup, xs), item.argv) else Meaning(lookup, xs)
  {
    hide Execute;
    RunClientAppend(lookup, xs, [item], NewClient);
    assert [item][1..] == [];
  }

  lemma EncodeGrows(xs: seq<Item>, item: Item)
    ensures Encode(xs + [item]) == Encode(xs) + EncodeItem(item)
  {
    hide EncodeItem;
    EncodeAppend(xs, [item]);
    assert Encode([item]) == EncodeItem(item) + Encode([]);
  }

  lemma RunItemsGrows(cfg: Config, lookup: Lookup, xs: seq<Item>, item: Item)
    ensures var st := RunItems(cfg, lookup, xs, 0, NewLoader);
            RunItems(cfg, lookup, xs + [item], 0, NewLoader)
            == if item.Cmd? then Step(cfg, lookup, st, item.argv, |Encode(xs + [item])|) else st
  {
    hide EncodeItem, Execute;
    RunItemsAppend(cfg, lookup, xs, [item], 0, NewLoader);
    EncodeGrows(xs, item);
    assert [item][1..] == [];
  }

  lemma {:induction false} EncodePrefix(items: seq<Item>, i: nat, j: nat)
    requires i <= j <= |items|
    ensures Encode(items[..i]) <= Encode(items[..j])
    ensures i < j ==> |Encode(items[..i])| < |Encode(items[..j])|
  {
    hide EncodeItem;
    assert items[..j] == items[..i] + items[i..j];
    EncodeAppend(items[..i], items[i..j]);
    if i < j {
      assert Encode(items[i..j]) == EncodeItem(items[i]) + Encode(items[i..j][1..]);
    }
  }

  /** From `m` on there are only annotations until a MULTI, and then the transaction stays open. */
  predicate OpenSince(lookup: Lookup, items: seq<Item>, m: nat) {
    forall j :: m <= j <= |items| && !Meaning(lookup, items[..j]).inMulti
                ==> forall i :: m <= i < j ==> items[i].Note?
  }

  lemma OpenSinceGrows(lookup: Lookup, xs: seq<Item>, item: Item, m: nat)
    requires m <= |xs| && OpenSince(lookup, xs, m) && Meaning(lookup, xs + [item]).inMulti
    ensures OpenSince(lookup, xs + [item], m)
  {
    hide RunClient;
    var items := xs + [item];
    assert items[..|items|] == items;
    forall j | m <= j <= |items| && !Meaning(lookup, items[..j]).inMulti
      ensures forall i :: m <= i < j ==> items[i].Note?
    {
      if j < |items| { assert items[..j] == xs[..j]; }
    }
  }

  /** The loader's bookkeeping, stated without it: the client holds the log's meaning,
      `validUpTo` is the end of the last command, and while a transaction is open
      `validBeforeMulti` is the end of the last command before its MULTI, at which point
      nothing was open and the same commands had taken effect. */
  lemma {:induction false} Bookkeeping(cfg: Config, lookup: Lookup, items: seq<Item>) returns (m: nat)
    requires cfg.loadTruncated && NoNesting(lookup, items)
    ensures var st := RunItems(cfg, lookup, items, 0, NewLoader);
            && st.client == Meaning(lookup, items)
            && st.validUpTo == |Encode(items[..ThroughLastCommand(items)])|
    ensures m <= |items|
    ensures Meaning(lookup, items).inMulti ==>
              && RunItems(cfg, lookup, items, 0, NewLoader).validBeforeMulti == |Encode(items[..m])|
              && !Meaning(lookup, items[..m]).inMulti
              && Meaning(lookup, items[..m]).executed == Meaning(lookup, items).executed
              && OpenSince(lookup, items, m)
    decreases |items|
  {
    hide EncodeItem;
    m := 0;
    if items != [] {
      var k := |items| - 1;
      var xs, item := items[..k], items[k];
      assert items == xs + [item];
      assert NoNesting(lookup, xs) by {
        forall i | 0 <= i < |xs| ensures xs[..i] == items[..i] { }
      }
      var m' := Bookkeeping(cfg, lookup, xs);
      RunItemsGrows(cfg, lookup, xs, item);
      MeaningGrows(lookup, xs, item);
      assert items[..|items|] == items;
      if item.Cmd? {
        assert items[..ThroughLastCommand(items)] == items;
        if lookup(item.argv) == Multi {
          m := ThroughLastCommand(xs);
          assert items[..m] == xs[..m];
          TrailingNotes(lookup, xs, m);
          assert OpenSince(lookup, xs, m);
        } else {
          m := m';
          assert items[..m] == xs[..m];
        }
      } else {
        m := m';
        assert items[..m] == xs[..m];
        assert items[..ThroughLastCommand(items)] == xs[..ThroughLastCommand(xs)];
      }
      if Meaning(lookup, items).inMulti { OpenSinceGrows(lookup, xs, item, m); }
    }
  }

  lemma {:induction false} TrailingNotes(lookup: Lookup, items: seq<Item>, m: nat)
    requires m <= |items| && forall i :: m <= i < |items| ==> items[i].Note?
    ensures Meaning(lookup, items[..m]) == Meaning(lookup, items)
    decreases |items|
  {
    if m < |items| {
      var k := |items| - 1;
      assert items == items[..k] + [items[k]];
      MeaningGrows(lookup, items[..k], items[k]);
      TrailingNotes(lookup, items[..k], m);
      assert items[..k][..m] == items[..m];
    } else {
      assert items[..m] == items;
    }
  }

  // ---------------------------------------------------------------- the cut log

  lemma FirstByte(items: seq<Item>, k: nat)
    requires 0 < k <= |Encode(items)|
    ensures Encode(items)[..k][0] == '*' || Encode(items)[..k][0] == '#'
  {
    assert Encode(items)[0] == EncodeItem(items[0])[0];
  }

  lemma PrefixNoNesting(lookup: Lookup, items: seq<Item>, n: nat)
    requires n <= |items| && NoNesting(lookup, items)
    ensures NoNesting(lookup, items[..n])
  {
    forall i | 0 <= i < n ensures items[..n][..i] == items[..i] { }
  }

  /** For every log and every cut, what runs is the meaning of the whole items. A torn command is
      dropped back to the last command's end; a cut between commands inside an open transaction is
      dropped back to before the transaction; a torn annotation is left in place. */
  lemma LoadOfCutLog(cfg: Config, lookup: Lookup, items: seq<Item>, k: nat) returns (m: nat)
    requires Repairing(cfg) && AllWritable(lookup, items) && NoNesting(lookup, items)
    requires 0 < k <= |Encode(items)|
    ensures Torn(items, k) ==> Whole(items, k) < |items|
    ensures m <= Whole(items, k)
    ensures var whole := items[..Whole(items, k)];
            var r := LoadFile(cfg, lookup, Encode(items)[..k]);
            var open := Meaning(lookup, whole).inMulti;
            && r.executed == Meaning(lookup, whole).executed
            && (if Torn(items, k) && items[Whole(items, k)].Cmd?
                then r.status == AofTruncated && r.file == Encode(whole[..ThroughLastCommand(whole)])
                else if open
                then && r.status == AofTruncated && r.file == Encode(items[..m])
                     && !Meaning(lookup, items[..m]).inMulti
                     && Meaning(lookup, items[..m]).executed == Meaning(lookup, whole).executed
                     && OpenSince(lookup, whole, m)
                else r.status == AofOk && r.file == Encode(items)[..k])
  {
    hide Execute, ReadEntry, EncodeItem;
    var file := Encode(items)[..k];
    var n := Whole(items, k);
    var whole := items[..n];
    FirstByte(items, k);
    assert file[0..] == file;
    WholeFits(items, k);
    LoadCut(cfg, lookup, file, items, k, 0, NewLoader);
    PrefixNoNesting(lookup, items, n);
    m := Bookkeeping(cfg, lookup, whole);
    assert whole[..m] == items[..m];
    CutPrefix(items, m, n, k);
    var t := ThroughLastCommand(whole);
    assert whole[..t] == items[..t];
    CutPrefix(items, t, n, k);
  }

  lemma CutPrefix(items: seq<Item>, m: nat, n: nat, k: nat)
    requires m <= n <= |items| && |Encode(items[..n])| <= k <= |Encode(items)|
    ensures |Encode(items[..m])| <= k
    ensures Encode(items)[..k][..|Encode(items[..m])|] == Encode(items[..m])
  {
    hide EncodeItem;
    EncodePrefix(items, m, n);
    EncodePrefix(items, m, |items|);
    assert items[..|items|] == items;
  }

  /** A log without transactions or annotations: the longest whole-command prefix runs, and
      exactly its encoding remains. */
  lemma TornTailRepaired(cfg: Config, lookup: Lookup, items: seq<Item>, k: nat)
    requires Repairing(cfg) && AllWritable(lookup, items) && MultiFree(lookup, items)
    requires forall i :: 0 <= i < |items| ==> items[i].Cmd?
    requires 0 < k <= |Encode(items)|
    ensures var n := Whole(items, k);
            var r := LoadFile(cfg, lookup, Encode(items)[..k]);
            && r.executed == Commands(items[..n]) && |r.executed| == n
            && r.file == Encode(items[..n])
            && (r.status == AofTruncated <==> Torn(items, k))
            && (n < |items| ==> k < |Encode(items[..n + 1])|)
  {
    hide Execute, ReadEntry, EncodeItem;
    MultiFreeMeaning(lookup, items);
    var n := Whole(items, k);
    var m := LoadOfCutLog(cfg, lookup, items, k);
    MultiFreeMeaning(lookup, items[..n]);
    assert items[..n][..ThroughLastCommand(items[..n])] == items[..n];
    NoNotes(items[..n]);
    WholeFits(items, k);
    if !Torn(items, k) {
      CutPrefix(items, n, n, k);
    }
    if n < |items| { WholeIsMaximal(items, k); }
  }

  lemma {:induction false} WholeIsMaximal(items: seq<Item>, k: nat)
    requires Whole(items, k) < |items|
    ensures k < |Encode(items[..Whole(items, k) + 1])|
  {
    hide EncodeItem;
    var n := Whole(items, k);
    assert items[..n + 1][0] == items[0];
    if |EncodeItem(items[0])| <= k {
      WholeIsMaximal(items[1..], k - |EncodeItem(items[0])|);
      assert items[..n + 1][1..] == items[1..][..n];
    }
  }

  lemma {:induction false} MultiFreeMeaning(lookup: Lookup, items: seq<Item>)
    requires MultiFree(lookup, items)
    ensures Meaning(lookup, items) == Client(false, [], Commands(items))
    ensures NoNesting(lookup, items)
  {
    if items != [] {
      var k := |items| - 1;
      assert items == items[..k] + [items[k]];
      MultiFreeMeaning(lookup, items[..k]);
      MeaningGrows(lookup, items[..k], items[k]);
      CommandsGrow(items[..k], items[k]);
    }
  }

  lemma {:induction false} CommandsGrow(xs: seq<Item>, item: Item)
    ensures Commands(xs + [item]) == Commands(xs) + if item.Cmd? then [item.argv] else []
  {
    var last := if item.Cmd? then [item.argv] else [];
    if xs == [] {
      assert [item][1..] == [] && xs + [item] == [item];
      assert last + [] == last && [] + last == last;
    } else {
      assert (xs + [item])[0] == xs[0] && (xs + [item])[1..] == xs[1..] + [item];
      CommandsGrow(xs[1..], item);
      var first := if xs[0].Cmd? then [xs[0].argv] else [];
      assert first + (Commands(xs[1..]) + last) == (first + Commands(xs[1..])) + last;
    }
  }

  lemma {:induction false} NoNotes(items: seq<Item>)
    requires forall i :: 0 <= i < |items| ==> items[i].Cmd?
    ensures |Commands(items)| == |items|
  {
    if items != [] {
      NoNotes(items[1..]);
    }
  }

  // ---------------------------------------------------------------- when the repair is sound

  /** The file left on disk is a whole prefix of the log with no transaction open, whose meaning
      is what was executed: new commands can be appended to it. */
  ghost predicate Sound(lookup: Lookup, items: seq<Item>, r: LoadResult) {
    exists m: nat :: m <= |items| && r.file == Encode(items[..m]) &&
      !Meaning(lookup, items[..m]).inMulti && Meaning(lookup, items[..m]).executed == r.executed
  }

  /** The exact condition: a torn command needs no transaction open, a torn annotation needs one. */
  lemma RepairSoundIff(cfg: Config, lookup: Lookup, items: seq<Item>, k: nat)
    requires Repairing(cfg) && AllWritable(lookup, items) && NoNesting(lookup, items)
    requires 0 < k <= |Encode(items)|
    ensures Torn(items, k) ==> Whole(items, k) < |items|
    ensures Sound(lookup, items, LoadFile(cfg, lookup, Encode(items)[..k]))
            <==> (Torn(items, k) ==>
                    (items[Whole(items, k)].Cmd? <==> !Meaning(lookup, items[..Whole(items, k)]).inMulti))
  {
    hide Execute, ReadEntry, EncodeItem, LoadFile, RunClient;
    var n := Whole(items, k);
    var whole := items[..n];
    var m := LoadOfCutLog(cfg, lookup, items, k);
    var r := LoadFile(cfg, lookup, Encode(items)[..k]);
    WholeFits(items, k);
    var t := ThroughLastCommand(whole);
    TrailingNotes(lookup, whole, t);
    assert whole[..t] == items[..t];
    if !Torn(items, k) {
      CutPrefix(items, n, n, k);
    } else if items[n].Note? && !Meaning(lookup, whole).inMulti {
      forall m': nat | m' <= |items| ensures r.file != Encode(items[..m']) {
        WholeIsMaximal(items, k);
        if m' <= n { EncodePrefix(items, m', n); } else { EncodePrefix(items, n + 1, m'); }
      }
    } else if items[n].Cmd? && Meaning(lookup, whole).inMulti {
      forall m': nat | m' <= |items| && r.file == Encode(items[..m'])
        ensures Meaning(lookup, items[..m']).inMulti
      {
        if m' < t { EncodePrefix(items, m', t); } else if t < m' { EncodePrefix(items, t, m'); }
      }
    }
  }

  /** After a sound repair the log goes on as if it had never been torn. */
  lemma AppendAfterSoundRepair(cfg: Config, lookup: Lookup, items: seq<Item>, r: LoadResult,
                               more: seq<Item>) returns (m: nat)
    requires Repairing(cfg) && AllWritable(lookup, items) && AllWritable(lookup, more)
    requires Sound(lookup, items, r)
    requires NoNesting(lookup, items) && NoNesting(lookup, more)
    requires r.file + Encode(more) != []
    ensures m <= |items| && r.executed == Meaning(lookup, items[..m]).executed
    ensures LoadFile(cfg, lookup, r.file + Encode(more)).executed
            == Meaning(lookup, items[..m] + more).executed
    ensures Meaning(lookup, items[..m] + more)
            == RunClient(lookup, more, Meaning(lookup, items[..m]))
  {
    hide Execute, ReadEntry, EncodeItem, LoadFile;
    m :| m <= |items| && r.file == Encode(items[..m]) &&
      !Meaning(lookup, items[..m]).inMulti && Meaning(lookup, items[..m]).executed == r.executed;
    var log := items[..m] + more;
    EncodeAppend(items[..m], more);
    RunClientAppend(lookup, items[..m], more, NewClient);
    PrefixNoNesting(lookup, items, m);
    NoNestingAppend(lookup, items[..m], more);
    var _ := LoadOfCutLog(cfg, lookup, log, |Encode(log)|);
    WholeOfAll(log);
    assert Encode(log)[..|Encode(log)|] == Encode(log) && log[..|log|] == log;
  }

  lemma {:induction false} OpenDependsOnOpen(lookup: Lookup, items: seq<Item>, c: Client, d: Client)
    requires c.inMulti == d.inMulti
    ensures RunClient(lookup, items, c).inMulti == RunClient(lookup, items, d).inMulti
  {
    if items != [] && items[0].Cmd? {
      OpenDependsOnOpen(lookup, items[1..], Execute(lookup, c, items[0].argv), Execute(lookup, d, items[0].argv));
    } else if items != [] {
      OpenDependsOnOpen(lookup, items[1..], c, d);
    }
  }

  /** Logs with no transaction left open can be put one after the other. */
  lemma NoNestingAppend(lookup: Lookup, xs: seq<Item>, ys: seq<Item>)
    requires NoNesting(lookup, xs) && NoNesting(lookup, ys) && !Meaning(lookup, xs).inMulti
    ensures NoNesting(lookup, xs + ys)
    ensures Meaning(lookup, xs + ys).inMulti == Meaning(lookup, ys).inMulti
  {
    hide Execute, RunClient;
    var log := xs + ys;
    forall j | 0 <= j <= |ys|
      ensures log[..|xs| + j] == xs + ys[..j]
      ensures Meaning(lookup, log[..|xs| + j]).inMulti == Meaning(lookup, ys[..j]).inMulti
    {
      assert log[..|xs| + j] == xs + ys[..j];
      RunClientAppend(lookup, xs, ys[..j], NewClient);
      OpenDependsOnOpen(lookup, ys[..j], Meaning(lookup, xs), NewClient);
    }
    assert log[..|xs| + |ys|] == log && ys[..|ys|] == ys;
    forall i | 0 <= i < |log| && log[i].Cmd? && lookup(log[i].argv) == Multi
      ensures !Meaning(lookup, log[..i]).inMulti
    {
      if i < |xs| {
        assert log[..i] == xs[..i];
      } else {
        var j := i - |xs|;
        assert log[i] == ys[j] && i == |xs| + j;
      }
    }
  }

  lemma {:induction false} WholeOfAll(items: seq<Item>)
    ensures Whole(items, |Encode(items)|) == |items|
  {
    hide EncodeItem;
    if items != [] {
      WholeOfAll(items[1..]);
    }
  }

  /** Why the condition matters: when a command is torn inside an open transaction, the repaired
      file keeps the open MULTI, and every command appended later is lost at the next load. */
  lemma AppendAfterTornTransaction(cfg: Config, lookup: Lookup, items: seq<Item>, k: nat, more: seq<Item>)
    requires Repairing(cfg) && AllWritable(lookup, items) && NoNesting(lookup, items)
    requires 0 < k <= |Encode(items)| && Torn(items, k) && Whole(items, k) < |items|
    requires items[Whole(items, k)].Cmd? && Meaning(lookup, items[..Whole(items, k)]).inMulti
    requires AllWritable(lookup, more) && MultiFree(lookup, more)
    ensures var r := LoadFile(cfg, lookup, Encode(items)[..k]);
            var again := LoadFile(cfg, lookup, r.file + Encode(more));
            r.status == AofTruncated && again.status == AofTruncated && again.executed == r.executed
  {
    hide Execute, ReadEntry, EncodeItem, LoadFile, RunClient;
    var n := Whole(items, k);
    var _ := LoadOfCutLog(cfg, lookup, items, k);
    var t := ThroughLastCommand(items[..n]);
    TrailingNotes(lookup, items[..n], t);
    assert items[..n][..t] == items[..t];
    PrefixNoNesting(lookup, items, t);
    QueuedForever(lookup, items[..t], more);
    var log := items[..t] + more;
    EncodeAppend(items[..t], more);
    assert t > 0 by { if t == 0 { assert items[..t] == []; NothingOpen(lookup); } }
    EncodePrefix(items, 0, t);
    var _ := LoadOfCutLog(cfg, lookup, log, |Encode(log)|);
    WholeOfAll(log);
    assert Encode(log)[..|Encode(log)|] == Encode(log) && log[..|log|] == log;
  }

  lemma NothingOpen(lookup: Lookup)
    ensures !Meaning(lookup, []).inMulti
  {
  }

  lemma {:induction false} QueuedForever(lookup: Lookup, xs: seq<Item>, more: seq<Item>)
    requires Meaning(lookup, xs).inMulti && MultiFree(lookup, more) && NoNesting(lookup, xs)
    ensures Meaning(lookup, xs + more).inMulti
    ensures Meaning(lookup, xs + more).executed == Meaning(lookup, xs).executed
    ensures NoNesting(lookup, xs + more)
    decreases |more|
  {
    hide RunClient;
    if more == [] {
      assert xs + more == xs;
    } else {
      var k := |more| - 1;
      QueuedForever(lookup, xs, more[..k]);
      var log := xs + more[..k];
      assert xs + more == log + [more[k]];
      MeaningGrows(lookup, log, more[k]);
      forall i | 0 <= i < |log| ensures (xs + more)[..i] == log[..i] { }
    }
  }

  /** And when an annotation is torn outside a transaction, the next command appended is glued to
      it, so the next load stops with a format error. */
  lemma AppendAfterTornAnnotation(cfg: Config, lookup: Lookup, items: seq<Item>, k: nat, argv: Argv)
    requires Repairing(cfg) && cfg.corruptTailMax == 0
    requires AllWritable(lookup, items) && NoNesting(lookup, items)
    requires 0 < k <= |Encode(items)| && Torn(items, k) && Whole(items, k) < |items|
    requires items[Whole(items, k)].Note? && !Meaning(lookup, items[..Whole(items, k)]).inMulti
    requires Writable(lookup, Cmd(argv))
    ensures var r := LoadFile(cfg, lookup, Encode(items)[..k]);
            && r.status == AofOk && r.file == Encode(items)[..k]
            && LoadFile(cfg, lookup, r.file + EncodeCommand(argv)).status == AofFailed
  {
    hide ReadEntry, EncodeItem, EncodeCommand, Execute, RunClient, Encode, LoadFile, Meaning;
    var n := Whole(items, k);
    var _ := LoadOfCutLog(cfg, lookup, items, k);
    TornText(items, k);
    var cut := EncodeItem(items[n])[..k - |Encode(items[..n])|];
    var file := Encode(items)[..k] + EncodeCommand(argv);
    assert file == Encode(items[..n]) + (cut + EncodeCommand(argv));
    FirstByte(items, k);
    assert file[0] == Encode(items)[..k][0];
    GluedLine(items[n].timestamp, |cut|, argv);
    LoadGlued(cfg, lookup, file, items[..n], cut + EncodeCommand(argv));
  }

  /** A log cut inside an item is the whole items before it and a proper part of that item. */
  lemma TornText(items: seq<Item>, k: nat)
    requires 0 < k <= |Encode(items)| && Torn(items, k) && Whole(items, k) < |items|
    ensures var n := Whole(items, k);
            var done := |Encode(items[..n])|;
            && done < k < done + |EncodeItem(items[n])|
            && Encode(items)[..k] == Encode(items[..n]) + EncodeItem(items[n])[..k - done]
  {
    hide EncodeItem;
    var n := Whole(items, k);
    WholeFits(items, k);
    WholeIsMaximal(items, k);
    assert items[..n + 1] == items[..n] + [items[n]];
    EncodeGrows(items[..n], items[n]);
    EncodePrefix(items, n, |items|);
    EncodePrefix(items, n + 1, |items|);
    assert items[..|items|] == items;
  }

  lemma LoadGlued(cfg: Config, lookup: Lookup, file: string, items: seq<Item>, rest: string)
    requires Repairing(cfg) && cfg.corruptTailMax == 0 && AllWritable(lookup, items)
    requires file == Encode(items) + rest && file != [] && (file[0] == '*' || file[0] == '#')
    requires ReadEntry(rest).Annotation? && ReadEntry(ReadEntry(rest).rest) == BadFormat
    ensures LoadFile(cfg, lookup, file).status == AofFailed
  {
    hide ReadEntry, Execute, RunItems, Encode;
    LoadReaches(cfg, lookup, file, items, rest, 0, NewLoader);
    assert file[0..] == file;
  }

  /** Loading a file that starts with whole items reaches what follows them. */
  lemma {:induction false} LoadReaches(cfg: Config, lookup: Lookup, file: string, items: seq<Item>, rest: string,
                                       off: nat, st: Loader)
    requires AllWritable(lookup, items) && off <= |file| && file[off..] == Encode(items) + rest
    requires st.validUpTo <= off && st.validBeforeMulti <= off
    ensures var st' := RunItems(cfg, lookup, items, off, st);
            && st'.validUpTo <= |file| && st'.validBeforeMulti <= |file|
            && LoadFrom(cfg, lookup, file, file[off..], st) == LoadFrom(cfg, lookup, file, rest, st')
    decreases |items|
  {
    hide ReadEntry, EncodeItem, Execute;
    if items == [] {
      assert Encode(items) + rest == rest;
    } else {
      var first := EncodeItem(items[0]);
      var end := off + |first|;
      var tail := Encode(items[1..]) + rest;
      assert file[off..] == first + tail;
      assert file[end..] == file[off..][|first|..] == tail;
      ReadItemWhole(lookup, items[0], tail);
      LoadReaches(cfg, lookup, file, items[1..], rest, end,
                  if items[0].Cmd? then Step(cfg, lookup, st, items[0].argv, end) else st);
    }
  }

  lemma GluedLine(t: nat, k: nat, argv: Argv)
    requires t < 0x8000_0000_0000_0000 && 0 < k < |EncodeItem(Note(t))| && Encodable(argv)
    ensures var s := EncodeItem(Note(t))[..k] + EncodeCommand(argv);
            ReadEntry(s).Annotation? && ReadEntry(ReadEntry(s).rest) == BadFormat
  {
    hide Print, EncodeBulks, LineLength, ReadEntry;
    PrintWidth64(t);
    PrintWidth64(|argv|);
    var cut := EncodeItem(Note(t))[..k];
    var body := cut + "*" + Print(|argv|) + "\r";
    var bulks := EncodeBulks(argv);
    var s := cut + EncodeCommand(argv);
    assert s == body + "\n" + bulks;
    LineStopsAtNewline(body, bulks, ANNOTATION_LINE_MAX - 1);
    NoteEntry(s, body, bulks);
    BulksAreNoEntry(argv);
  }

  lemma NoteEntry(s: string, body: string, rest: string)
    requires s == body + "\n" + rest && body != [] && body[0] == '#'
    requires LineLength(s, ANNOTATION_LINE_MAX - 1) == |body| + 1
    ensures ReadEntry(s) == Annotation(rest)
  {
    assert s[|body| + 1..] == rest;
  }

  lemma BulksAreNoEntry(argv: Argv)
    requires argv != []
    ensures ReadEntry(EncodeBulks(argv)) == BadFormat
  {
    hide Print;
    assert EncodeBulks(argv)[0] == '$';
  }
}
