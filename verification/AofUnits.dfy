/** Logs made of atomic units, and what is left of them after a cut and a repair. */
module AofUnits {
  import opened Decimal
  import opened AofCodec
  import opened AofLoader
  import opened AofRepair
  import opened AofFeed

  function Flatten(units: seq<seq<Item>>): seq<Item> {
    if units == [] then [] else units[0] + Flatten(units[1..])
  }

  lemma {:induction false} FlattenAppend(xs: seq<seq<Item>>, ys: seq<seq<Item>>)
    ensures Flatten(xs + ys) == Flatten(xs) + Flatten(ys)
  {
    if xs == [] {
      assert xs + ys == ys;
    } else {
      assert (xs + ys)[1..] == xs[1..] + ys;
      FlattenAppend(xs[1..], ys);
    }
  }

  lemma FlattenGrows(xs: seq<seq<Item>>, y: seq<Item>)
    ensures Flatten(xs + [y]) == Flatten(xs) + y
  {
    FlattenAppend(xs, [y]);
    assert Flatten([y]) == y + Flatten([]) == y;
  }

  lemma FlattenPrefix(units: seq<seq<Item>>, c: nat)
    requires c <= |units|
    ensures Flatten(units[..c]) <= Flatten(units)
    ensures c < |units| ==> Flatten(units[..c]) + units[c] <= Flatten(units)
  {
    assert units == units[..c] + units[c..];
    FlattenAppend(units[..c], units[c..]);
    if c < |units| {
      assert Flatten(units[c..]) == units[c] + Flatten(units[c..][1..]);
    }
  }

  ghost predicate AllAtomic(lookup: Lookup, units: seq<seq<Item>>) {
    forall i :: 0 <= i < |units| ==> Atomic(lookup, units[i])
  }

  lemma EmptyStanding(lookup: Lookup)
    ensures Standing(lookup, [])
    ensures Meaning(lookup, []).executed == []
  {
  }

  lemma {:induction false} FlattenStanding(lookup: Lookup, units: seq<seq<Item>>)
    requires AllAtomic(lookup, units)
    ensures Standing(lookup, Flatten(units))
    decreases |units|
  {
    hide Standing, RunClient;
    if units == [] {
      EmptyStanding(lookup);
    } else {
      FlattenStanding(lookup, units[1..]);
      AtomicStanding(lookup, units[0]);
      StandingAppend(lookup, units[0], Flatten(units[1..]));
    }
  }

  lemma AtomicStanding(lookup: Lookup, items: seq<Item>)
    requires Atomic(lookup, items)
    ensures Standing(lookup, items)
  {
  }

  /** A tail that only selects databases: what a repair can leave of a torn unit. */
  ghost predicate Idle(lookup: Lookup, items: seq<Item>) {
    Standing(lookup, items) && OnlySelects(Meaning(lookup, items).executed)
  }

  lemma {:induction false} ExecutedMonotone(lookup: Lookup, items: seq<Item>, m: nat)
    requires m <= |items|
    ensures Meaning(lookup, items[..m]).executed <= Meaning(lookup, items).executed
    decreases |items|
  {
    if m == |items| {
      assert items[..m] == items;
    } else {
      var k := |items| - 1;
      assert items == items[..k] + [items[k]];
      MeaningGrows(lookup, items[..k], items[k]);
      ExecutedMonotone(lookup, items[..k], m);
      assert items[..k][..m] == items[..m];
    }
  }

  /** A unit written after an idle tail forms one atomic unit with it. */
  lemma IdleThenAtomic(lookup: Lookup, idle: seq<Item>, unit: seq<Item>)
    requires Idle(lookup, idle) && Atomic(lookup, unit)
    ensures Atomic(lookup, idle + unit)
    ensures Meaning(lookup, idle + unit).executed == Meaning(lookup, idle).executed + Meaning(lookup, unit).executed
  {
    hide RunClient;
    StandingAppend(lookup, idle, unit);
    var items := idle + unit;
    forall m | 0 <= m < |items| ensures OnlySelects(Meaning(lookup, items[..m]).executed) {
      if m < |idle| {
        assert items[..m] == idle[..m];
        ExecutedMonotone(lookup, idle, m);
      } else {
        var j := m - |idle|;
        assert items[..m] == idle + unit[..j];
        ClosedMeansEmptyQueue(lookup, idle);
        CleanMeaning(lookup, idle, unit[..j]);
      }
    }
  }

  // ---------------------------------------------------------------- replaying

  /** The dataset and selected database after a fresh client replays a log. */
  function ReplayLog<D>(w: World<D>, d: D, items: seq<Item>): Cursor<D> {
    Replay(w, Cursor(d, 0), Meaning(w.lookup, items).executed)
  }

  lemma ReplayLogAppend<D>(w: World<D>, d: D, xs: seq<Item>, ys: seq<Item>)
    requires Standing(w.lookup, xs)
    ensures ReplayLog(w, d, xs + ys) == Replay(w, ReplayLog(w, d, xs), Meaning(w.lookup, ys).executed)
  {
    hide RunClient, Replay;
    ClosedMeansEmptyQueue(w.lookup, xs);
    CleanMeaning(w.lookup, xs, ys);
    ReplayAppend(w, Cursor(d, 0), Meaning(w.lookup, xs).executed, Meaning(w.lookup, ys).executed);
  }

  /** What only selects databases leaves the dataset alone. */
  lemma ReplayPart<D>(w: World<D>, d: D, xs: seq<Item>, ys: seq<Item>)
    requires Standing(w.lookup, xs) && OnlySelects(Meaning(w.lookup, ys).executed)
    ensures ReplayLog(w, d, xs + ys).data == ReplayLog(w, d, xs).data
  {
    hide RunClient, Replay;
    ReplayLogAppend(w, d, xs, ys);
    SelectsKeepData(w, ReplayLog(w, d, xs), Meaning(w.lookup, ys).executed);
  }

  // ---------------------------------------------------------------- cutting

  /** How many units lie wholly within the first `n` items. */
  function WholeUnits(units: seq<seq<Item>>, n: nat): (c: nat)
    ensures c <= |units|
  {
    if units == [] || |units[0]| > n then 0 else 1 + WholeUnits(units[1..], n - |units[0]|)
  }

  lemma {:induction false} WholeUnitsFit(units: seq<seq<Item>>, n: nat)
    ensures var c := WholeUnits(units, n);
            && |Flatten(units[..c])| <= n
            && (c < |units| ==> n < |Flatten(units[..c])| + |units[c]|)
  {
    var c := WholeUnits(units, n);
    if units == [] || |units[0]| > n {
      assert units[..c] == [];
    } else {
      WholeUnitsFit(units[1..], n - |units[0]|);
      assert units[..c][1..] == units[1..][..c - 1];
    }
  }

  lemma {:induction false} WholeUnitsMost(units: seq<seq<Item>>, n: nat, c: nat)
    requires c <= |units| && |Flatten(units[..c])| <= n
    ensures c <= WholeUnits(units, n)
  {
    if c > 0 {
      assert units[..c][1..] == units[1..][..c - 1];
      WholeUnitsMost(units[1..], n - |units[0]|, c - 1);
    }
  }

  /** A log of units with an idle tail. */
  function LogOf(units: seq<seq<Item>>, pending: seq<Item>): seq<Item> {
    Flatten(units) + pending
  }

  lemma LogStanding(lookup: Lookup, units: seq<seq<Item>>, pending: seq<Item>)
    requires AllAtomic(lookup, units) && Idle(lookup, pending)
    ensures Standing(lookup, LogOf(units, pending))
  {
    hide Standing, RunClient;
    FlattenStanding(lookup, units);
    IdleStanding(lookup, pending);
    StandingAppend(lookup, Flatten(units), pending);
  }

  lemma IdleStanding(lookup: Lookup, items: seq<Item>)
    requires Idle(lookup, items)
    ensures Standing(lookup, items)
  {
  }

  /** Any `n` items of such a log are whole units followed by something that only selects. */
  lemma PrefixOfUnits(lookup: Lookup, units: seq<seq<Item>>, pending: seq<Item>, n: nat)
    requires AllAtomic(lookup, units) && Idle(lookup, pending) && n <= |LogOf(units, pending)|
    ensures var log := LogOf(units, pending);
            var whole := Flatten(units[..WholeUnits(units, n)]);
            && |whole| <= n
            && log[..n] == whole + log[|whole|..n]
            && OnlySelects(Meaning(lookup, log[|whole|..n]).executed)
            && Standing(lookup, whole)
  {
    hide RunClient;
    var log := LogOf(units, pending);
    var c := WholeUnits(units, n);
    var whole := Flatten(units[..c]);
    WholeUnitsFit(units, n);
    FlattenPrefix(units, c);
    FlattenStanding(lookup, units[..c]);
    var part := log[|whole|..n];
    assert log[..n] == whole + part;
    if c < |units| {
      assert part == units[c][..n - |whole|];
      assert Atomic(lookup, units[c]);
    } else {
      assert units[..c] == units;
      assert part == pending[..n - |whole|];
      ExecutedMonotone(lookup, pending, n - |whole|);
    }
  }

  lemma CleanPart(lookup: Lookup, whole: seq<Item>, part: seq<Item>, log: seq<Item>)
    requires Standing(lookup, whole) && whole + part <= log && Standing(lookup, log)
    requires !Meaning(lookup, whole + part).inMulti && OnlySelects(Meaning(lookup, part).executed)
    ensures Idle(lookup, part)
  {
    hide RunClient;
    ClosedMeansEmptyQueue(lookup, whole);
    CleanMeaning(lookup, whole, part);
    var n := |whole|;
    forall i | 0 <= i < |part| ensures part[i] == log[n + i] { }
    forall i | 0 <= i < |part| && part[i].Cmd? && lookup(part[i].argv) == Multi
      ensures !Meaning(lookup, part[..i]).inMulti
    {
      assert log[..n + i] == whole + part[..i];
      assert !Meaning(lookup, log[..n + i]).inMulti;
      CleanMeaning(lookup, whole, part[..i]);
    }
  }

  /** The file ends inside a command while a transaction is open, as a scan of its entries shows. */
  predicate TornInMulti(lookup: Lookup, s: string, open: bool)
    decreases |s|
  {
    match ReadEntry(s)
    case Annotation(rest) => TornInMulti(lookup, rest, open)
    case Command(argv, rest) =>
      TornInMulti(lookup, rest, lookup(argv) == Multi || (open && lookup(argv) != Exec))
    case ShortRead(_) => open
    case _ => false
  }

  /** Of a log cut at any byte: the cut falls inside a command, and the items before it leave a
      transaction open. */
  lemma {:induction false} TornInMultiCut(lookup: Lookup, items: seq<Item>, k: nat, c: Client)
    requires AllWritable(lookup, items) && k <= |Encode(items)|
    ensures Torn(items, k) ==> Whole(items, k) < |items|
    ensures TornInMulti(lookup, Encode(items)[..k], c.inMulti)
            <==> Torn(items, k) && items[Whole(items, k)].Cmd? && RunClient(lookup, items[..Whole(items, k)], c).inMulti
    decreases |items|
  {
    hide ReadEntry, EncodeItem;
    var text := Encode(items)[..k];
    var n := Whole(items, k);
    WholeFits(items, k);
    if k == 0 {
      assert text == [] && items[..n] == [];
    } else if |EncodeItem(items[0])| > k {
      assert text == EncodeItem(items[0])[..k];
      ReadItemCut(lookup, items[0], k);
      assert items[..n] == [];
      NothingTorn(lookup, c.inMulti);
    } else {
      var first := EncodeItem(items[0]);
      var rest := Encode(items[1..])[..k - |first|];
      assert text == first + rest;
      ReadItemWhole(lookup, items[0], rest);
      var c' := if items[0].Cmd? then Execute(lookup, c, items[0].argv) else c;
      TornInMultiCut(lookup, items[1..], k - |first|, c');
      assert items[..n][1..] == items[1..][..n - 1];
      assert Encode(items[..n]) == first + Encode(items[1..][..n - 1]);
    }
  }

  lemma NothingTorn(lookup: Lookup, open: bool)
    ensures !TornInMulti(lookup, [], open)
  {
  }

  /** The repaired file loads again without complaint. */
  predicate ReloadsCleanly(cfg: Config, lookup: Lookup, bytes: string) {
    LoadFile(cfg, lookup, LoadFile(cfg, lookup, bytes).file).status in {AofOk, AofEmpty}
  }

  /** Loading a log that stands on its own runs all of it and leaves the file alone. */
  lemma LoadStanding(cfg: Config, lookup: Lookup, items: seq<Item>)
    requires Repairing(cfg) && Standing(lookup, items)
    ensures var r := LoadFile(cfg, lookup, Encode(items));
            && r.status == (if items == [] then AofEmpty else AofOk)
            && r.executed == Meaning(lookup, items).executed && r.file == Encode(items)
  {
    hide RunClient, EncodeItem, LoadFrom;
    if items == [] {
      EmptyStanding(lookup);
    } else {
      var text := Encode(items);
      NonEmptyText(items);
      var _ := LoadOfCutLog(cfg, lookup, items, |text|);
      WholeOfAll(items);
      assert text[..|text|] == text && items[..|items|] == items;
    }
  }

  lemma NonEmptyText(items: seq<Item>)
    requires items != []
    ensures Encode(items) != []
  {
    hide EncodeItem;
  }

  /** Unless a command is torn inside a transaction, the repaired file holds the log up to a point `m`
      with no transaction open, reached by rolling back at most the unit that was torn. */
  lemma RepairPoint(cfg: Config, lookup: Lookup, items: seq<Item>, k: nat) returns (m: nat)
    requires Repairing(cfg) && Standing(lookup, items) && k <= |Encode(items)|
    requires !TornInMulti(lookup, Encode(items)[..k], false)
    ensures m <= Whole(items, k) <= |items|
    ensures var r := LoadFile(cfg, lookup, Encode(items)[..k]);
            && r.file == Encode(items[..m]) && r.status in {AofOk, AofEmpty, AofTruncated}
            && r.executed == Meaning(lookup, items[..Whole(items, k)]).executed
            && !Meaning(lookup, items[..m]).inMulti
            && Meaning(lookup, items[..m]).executed == r.executed
            && (r.status != AofTruncated ==> r.file == Encode(items)[..k])
    ensures forall j :: m < j <= Whole(items, k) ==> Meaning(lookup, items[..j]).inMulti
  {
    hide RunClient, EncodeItem, LoadFrom, ReadEntry, TornInMulti;
    var n := Whole(items, k);
    var whole := items[..n];
    WholeFits(items, k);
    TornInMultiCut(lookup, items, k, NewClient);
    if k == 0 {
      m := 0;
      assert items[..0] == [] && Encode(items)[..0] == [];
      assert n == 0;
      EmptyStanding(lookup);
      return;
    }
    m := LoadOfCutLog(cfg, lookup, items, k);
    assert forall i :: 0 <= i < n ==> whole[i] == items[i] && whole[i].Cmd?;
    var t := ThroughLastCommand(whole);
    assert t == n;
    assert whole[..n] == whole;
    if Torn(items, k) {
      m := n;
    } else if Meaning(lookup, whole).inMulti {
      assert OpenSince(lookup, whole, m);
      forall j | m < j <= n ensures Meaning(lookup, items[..j]).inMulti {
        assert whole[..j] == items[..j];
        assert whole[m].Cmd?;
      }
    } else {
      CutPrefix(items, n, n, k);
      m := n;
    }
  }

  /** The exact condition for a repair after which the log can go on: of every log and every cut, the
      repaired file loads without complaint unless a command was torn inside a transaction. */
  lemma ReloadsCleanlyIff(cfg: Config, lookup: Lookup, items: seq<Item>, k: nat)
    requires Repairing(cfg) && Standing(lookup, items) && k <= |Encode(items)|
    ensures ReloadsCleanly(cfg, lookup, Encode(items)[..k]) <==> !TornInMulti(lookup, Encode(items)[..k], false)
  {
    hide RunClient, EncodeItem, LoadFrom, LoadFile, ReadEntry, TornInMulti, Encode;
    var text := Encode(items)[..k];
    if TornInMulti(lookup, text, false) {
      TornInMultiCut(lookup, items, k, NewClient);
      var n := Whole(items, k);
      var whole := items[..n];
      var _ := LoadOfCutLog(cfg, lookup, items, k);
      assert forall i :: 0 <= i < n ==> whole[i].Cmd?;
      assert whole[..ThroughLastCommand(whole)] == whole;
      TornOpenReloads(cfg, lookup, items, n);
    } else {
      var m := RepairPoint(cfg, lookup, items, k);
      PrefixNoNesting(lookup, items, m);
      LoadStanding(cfg, lookup, items[..m]);
    }
  }

  lemma TornOpenReloads(cfg: Config, lookup: Lookup, items: seq<Item>, n: nat)
    requires Repairing(cfg) && Standing(lookup, items) && n <= |items|
    requires Meaning(lookup, items[..n]).inMulti
    ensures LoadFile(cfg, lookup, Encode(items[..n])).status == AofTruncated
  {
    hide RunClient, EncodeItem, LoadFrom, LoadFile;
    var log := items[..n];
    if n == 0 { assert log == []; EmptyStanding(lookup); }
    NonEmptyText(log);
    PrefixNoNesting(lookup, items, n);
    WholeOfAll(log);
    var text := Encode(log);
    assert log[..|log|] == log && text[..|text|] == text;
    var _ := LoadOfCutLog(cfg, lookup, log, |text|);
  }
}
