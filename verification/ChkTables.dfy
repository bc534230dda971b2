/** Cuckoo Heavy Keeper: the two cuckoo tables as values, and what an update does to them. Random draws
    and the heavy hitter test are parameters, so every statement holds for all their outcomes. */
module ChkTables {
  import opened Bits

  const HEAVY_ENTRIES := 2
  const NUM_TABLES := 2
  const LOBBY_PROMOTION_THRESHOLD := 16
  const MAX_KICKS := 16
  const COUNTER_MAX := 0xFFFF_FFFF_FFFF_FFFF

  datatype Entry = Entry(count: nat, fp: nat)

  datatype Bucket = Bucket(heavy: seq<Entry>, lobby: Entry)

  type Table = seq<Bucket>

  datatype Tables = Tables(zero: Table, one: Table)

  /** A fingerprint with its bucket in each table. */
  datatype Item = Item(fp: nat, idx0: nat, idx1: nat)

  // ---------------------------------------------------------------- indices

  const MULTIPLIER := 0x5bd1e995

  function AltIdx(fp: nat, idx: nat, n: nat): nat
    requires n > 0
  {
    And(Xor(idx, MULTIPLIER * fp), n - 1)
  }

  /** The other index of the other index is the index itself. */
  lemma AltIsInvolutive(fp: nat, idx: nat, n: nat)
    requires IsPowerOfTwo(n) && idx < n
    ensures AltIdx(fp, idx, n) < n && AltIdx(fp, AltIdx(fp, idx, n), n) == idx
  {
    hide Xor, And, IsPowerOfTwo, Pow2;
    PositivePower(n);
    var k := PowerOfTwo(n);
    var p := MULTIPLIER * fp;
    var alt := AltIdx(fp, idx, n);
    AndMask(Xor(idx, p), k);
    AndMask(Xor(alt, p), k);
    XorMod(idx, p, k);
    XorMod(alt, p, k);
    XorCancel(idx, p % n);
    SmallMod(idx, n);
    SmallMod(alt, n);
  }

  lemma PositivePower(n: nat)
    requires IsPowerOfTwo(n)
    ensures n > 0
  {
  }

  lemma SmallMod(x: nat, n: nat)
    requires x < n
    ensures x % n == x
  {
  }

  function ItemOf(hash: nat, n: nat): Item
    requires n > 0
  {
    var fp := And(hash, 0xFFFF);
    var idx := And(hash / 0x1_0000_0000, n - 1);
    Item(fp, idx, AltIdx(fp, idx, n))
  }

  predicate ValidItem(item: Item, n: nat)
    requires n > 0
  {
    item.idx0 < n && item.idx1 == AltIdx(item.fp, item.idx0, n)
  }

  lemma ItemOfIsValid(hash: nat, n: nat)
    requires IsPowerOfTwo(n)
    ensures n > 0 && ValidItem(ItemOf(hash, n), n)
    ensures ItemOf(hash, n).fp == hash % 0x1_0000 && ItemOf(hash, n).idx0 == hash / 0x1_0000_0000 % n
  {
    hide Xor, And, IsPowerOfTwo, Pow2;
    PositivePower(n);
    var k := PowerOfTwo(n);
    AndMask(hash / 0x1_0000_0000, k);
    SixteenBits();
    AndMask(hash, 16);
  }

  lemma SixteenBits()
    ensures Pow2(16) == 0x1_0000
  {
    assert Pow2(4) == 16 && Pow2(8) == 256;
  }

  // ---------------------------------------------------------------- slots

  datatype Slot = HeavyAt(t: nat, i: nat, j: nat) | LobbyAt(t: nat, i: nat)

  predicate Shape(ts: Tables, n: nat) {
    && n > 0 && |ts.zero| == n && |ts.one| == n
    && (forall i :: 0 <= i < n ==> |ts.zero[i].heavy| == HEAVY_ENTRIES)
    && (forall i :: 0 <= i < n ==> |ts.one[i].heavy| == HEAVY_ENTRIES)
  }

  predicate IsSlot(s: Slot, n: nat) {
    s.t < NUM_TABLES && s.i < n && (s.HeavyAt? ==> s.j < HEAVY_ENTRIES)
  }

  function BucketAt(ts: Tables, t: nat, i: nat): Bucket
    requires t < NUM_TABLES && i < |ts.zero| && i < |ts.one|
  {
    if t == 0 then ts.zero[i] else ts.one[i]
  }

  function SetBucket(ts: Tables, t: nat, i: nat, b: Bucket): Tables
    requires t < NUM_TABLES && i < |ts.zero| && i < |ts.one|
  {
    if t == 0 then ts.(zero := ts.zero[i := b]) else ts.(one := ts.one[i := b])
  }

  function At(ts: Tables, n: nat, s: Slot): Entry
    requires Shape(ts, n) && IsSlot(s, n)
  {
    var b := BucketAt(ts, s.t, s.i);
    if s.HeavyAt? then b.heavy[s.j] else b.lobby
  }

  function Put(ts: Tables, n: nat, s: Slot, e: Entry): Tables
    requires Shape(ts, n) && IsSlot(s, n)
  {
    var b := BucketAt(ts, s.t, s.i);
    SetBucket(ts, s.t, s.i, if s.HeavyAt? then b.(heavy := b.heavy[s.j := e]) else b.(lobby := e))
  }

  lemma PutAt(ts: Tables, n: nat, s: Slot, e: Entry)
    requires Shape(ts, n) && IsSlot(s, n)
    ensures Shape(Put(ts, n, s, e), n)
    ensures forall s' :: IsSlot(s', n) ==> At(Put(ts, n, s, e), n, s') == if s' == s then e else At(ts, n, s')
  {
  }

  // ---------------------------------------------------------------- what the update does

  function IdxIn(item: Item, t: nat): nat {
    if t == 0 then item.idx0 else item.idx1
  }

  /** The heavy slots of an item in the order they are searched. */
  function HeavySlot(item: Item, k: nat): Slot
  {
    HeavyAt(k / 2, IdxIn(item, k / 2), k % 2)
  }

  predicate Matches(e: Entry, fp: nat) {
    e.count > 0 && e.fp == fp
  }

  /** The first heavy slot holding the item, from position `k`; 4 when there is none. */
  function FirstMatch(ts: Tables, n: nat, item: Item, k: nat): (r: nat)
    requires Shape(ts, n) && item.idx0 < n && item.idx1 < n && k <= 4
    ensures k <= r <= 4 && (r < 4 ==> Matches(At(ts, n, HeavySlot(item, r)), item.fp))
    ensures forall m :: k <= m < r ==> !Matches(At(ts, n, HeavySlot(item, m)), item.fp)
    decreases 4 - k
  {
    if k == 4 || Matches(At(ts, n, HeavySlot(item, k)), item.fp) then k else FirstMatch(ts, n, item, k + 1)
  }

  function FirstEmpty(ts: Tables, n: nat, item: Item, k: nat): (r: nat)
    requires Shape(ts, n) && item.idx0 < n && item.idx1 < n && k <= 4
    ensures k <= r <= 4 && (r < 4 ==> At(ts, n, HeavySlot(item, r)).count == 0)
    ensures forall m :: k <= m < r ==> At(ts, n, HeavySlot(item, m)).count > 0
    decreases 4 - k
  {
    if k == 4 || At(ts, n, HeavySlot(item, k)).count == 0 then k else FirstEmpty(ts, n, item, k + 1)
  }

  /** `checkHeavyEntries`: the tables, and the position (4 when the item is not heavy). */
  function CheckHeavy(ts: Tables, n: nat, item: Item, weight: nat): (Tables, nat)
    requires Shape(ts, n) && item.idx0 < n && item.idx1 < n
  {
    var k := FirstMatch(ts, n, item, 0);
    var e := FirstEmpty(ts, n, item, 0);
    if k < 4 then
      var old_ := At(ts, n, HeavySlot(item, k));
      (Put(ts, n, HeavySlot(item, k), old_.(count := old_.count + weight)), k)
    else if e < 4 then (Put(ts, n, HeavySlot(item, e), Entry(weight, item.fp)), e)
    else (ts, 4)
  }

  /** The first empty heavy entry of a bucket, and otherwise the first with the least count. */
  function Victim(b: Bucket): (j: nat)
    requires |b.heavy| == HEAVY_ENTRIES
    ensures j < HEAVY_ENTRIES
    ensures b.heavy[j].count == 0 || (b.heavy[0].count > 0 && b.heavy[1].count > 0)
    ensures forall i :: 0 <= i < HEAVY_ENTRIES ==> b.heavy[j].count <= b.heavy[i].count
  {
    if b.heavy[0].count == 0 then 0
    else if b.heavy[1].count < b.heavy[0].count then 1
    else 0
  }

  /** `kickout`: the entry moves to its other bucket and kicks out the least entry there. */
  function Kickout(ts: Tables, n: nat, heavy: nat -> bool, entry: Entry, idx: nat, t: nat, kicks: nat): Tables
    requires Shape(ts, n) && IsPowerOfTwo(n) && idx < n && t < NUM_TABLES
    decreases kicks
  {
    if kicks == 0 || !heavy(entry.count) then ts
    else
      AltIsInvolutive(entry.fp, idx, n);
      var t' := 1 - t;
      var idx' := AltIdx(entry.fp, idx, n);
      var s := HeavyAt(t', idx', Victim(BucketAt(ts, t', idx')));
      var victim := At(ts, n, s);
      PutAt(ts, n, s, entry);
      if victim.count == 0 then Put(ts, n, s, entry)
      else Kickout(Put(ts, n, s, entry), n, heavy, victim, idx', t', kicks - 1)
  }

  /** The chances an update takes. `heavy` is the heavy hitter test, `promoted` the draw for a
      promotion against a larger count, `decayed` the lobby count after decay, and `fresh_` the count
      that a replacing lobby entry starts with. */
  datatype Chance = Chance(heavy: nat -> bool, promoted: bool, decayed: nat, fresh_: nat)

  /** `tryPromoteAndKickout`: the tables, and the position of the promoted entry (2 when it stays). */
  function TryPromote(ts: Tables, n: nat, c: Chance, item: Item, newCount: nat, t: nat): (Tables, nat)
    requires Shape(ts, n) && IsPowerOfTwo(n) && item.idx0 < n && item.idx1 < n && t < NUM_TABLES
  {
    var i := IdxIn(item, t);
    var b := BucketAt(ts, t, i);
    var j := Victim(b);
    var victim := b.heavy[j];
    if victim.count == 0 then (Put(ts, n, HeavyAt(t, i, j), Entry(newCount, item.fp)), j)
    else if victim.count > newCount && !c.promoted then (ts, HEAVY_ENTRIES)
    else
      PutAt(ts, n, HeavyAt(t, i, j), Entry(victim.count, b.lobby.fp));
      var ts1 := Put(ts, n, HeavyAt(t, i, j), Entry(victim.count, b.lobby.fp));
      PutAt(ts1, n, LobbyAt(t, i), Entry(0, 0));
      var ts2 := Put(ts1, n, LobbyAt(t, i), Entry(0, 0));
      (Kickout(ts2, n, c.heavy, victim, i, t, MAX_KICKS), j)
  }

  /** The table of the first lobby entry holding the item; 2 when there is none. */
  function LobbyOf(ts: Tables, n: nat, item: Item): (t: nat)
    requires Shape(ts, n) && item.idx0 < n && item.idx1 < n
    ensures t <= NUM_TABLES && (t < NUM_TABLES ==> Matches(At(ts, n, LobbyAt(t, IdxIn(item, t))), item.fp))
    ensures forall u :: 0 <= u < t ==> !Matches(At(ts, n, LobbyAt(u, IdxIn(item, u))), item.fp)
  {
    if Matches(BucketAt(ts, 0, item.idx0).lobby, item.fp) then 0
    else if Matches(BucketAt(ts, 1, item.idx1).lobby, item.fp) then 1
    else NUM_TABLES
  }

  function EmptyLobbyOf(ts: Tables, n: nat, item: Item): (t: nat)
    requires Shape(ts, n) && item.idx0 < n && item.idx1 < n
    ensures t <= NUM_TABLES && (t < NUM_TABLES ==> At(ts, n, LobbyAt(t, IdxIn(item, t))).count == 0)
    ensures forall u :: 0 <= u < t ==> At(ts, n, LobbyAt(u, IdxIn(item, u))).count > 0
  {
    if BucketAt(ts, 0, item.idx0).lobby.count == 0 then 0
    else if BucketAt(ts, 1, item.idx1).lobby.count == 0 then 1
    else NUM_TABLES
  }

  /** `checkLobbyEntries` once the item was found in the lobby of table `t`. */
  function BumpLobby(ts: Tables, n: nat, c: Chance, item: Item, weight: nat, t: nat): (Tables, nat)
    requires Shape(ts, n) && IsPowerOfTwo(n) && item.idx0 < n && item.idx1 < n && t < NUM_TABLES
  {
    var s := LobbyAt(t, IdxIn(item, t));
    var e := At(ts, n, s);
    var newCount := e.count + weight;
    if newCount < LOBBY_PROMOTION_THRESHOLD then (Put(ts, n, s, e.(count := newCount)), HEAVY_ENTRIES)
    else
      var p := TryPromote(ts, n, c, item, newCount, t);
      if p.1 < HEAVY_ENTRIES then p else (Put(ts, n, s, e.(count := LOBBY_PROMOTION_THRESHOLD)), HEAVY_ENTRIES)
  }

  /** A new item takes the empty lobby entry of table `t`. */
  function EnterLobby(ts: Tables, n: nat, c: Chance, item: Item, weight: nat, t: nat): (Tables, nat)
    requires Shape(ts, n) && IsPowerOfTwo(n) && item.idx0 < n && item.idx1 < n && t < NUM_TABLES
  {
    var s := LobbyAt(t, IdxIn(item, t));
    var e := At(ts, n, s);
    PutAt(ts, n, s, e.(fp := item.fp));
    var named := Put(ts, n, s, e.(fp := item.fp));
    if weight < LOBBY_PROMOTION_THRESHOLD then (Put(named, n, s, Entry(weight, item.fp)), HEAVY_ENTRIES)
    else
      var p := TryPromote(named, n, c, item, weight, t);
      if p.1 < HEAVY_ENTRIES then p else (Put(named, n, s, Entry(LOBBY_PROMOTION_THRESHOLD, item.fp)), HEAVY_ENTRIES)
  }

  /** Both lobby entries are taken: one of them is decayed and perhaps replaced. */
  function DecayLobby(ts: Tables, n: nat, c: Chance, item: Item): (Tables, nat)
    requires Shape(ts, n) && IsPowerOfTwo(n) && item.idx0 < n && item.idx1 < n
  {
    var t := item.fp % 2;
    var s := LobbyAt(t, IdxIn(item, t));
    var e := if c.decayed == 0 then Entry(c.fresh_, item.fp) else At(ts, n, s).(count := c.decayed);
    PutAt(ts, n, s, e);
    var ts1 := Put(ts, n, s, e);
    if e.count >= LOBBY_PROMOTION_THRESHOLD then TryPromote(ts1, n, c, item, e.count, t) else (ts1, HEAVY_ENTRIES)
  }

  /** What an update does to the tables. */
  function Update(ts: Tables, n: nat, c: Chance, item: Item, weight: nat): Tables
    requires Shape(ts, n) && IsPowerOfTwo(n) && item.idx0 < n && item.idx1 < n
  {
    if weight == 0 then ts
    else
      var h := CheckHeavy(ts, n, item, weight);
      if h.1 < 4 then h.0
      else
        var t := LobbyOf(ts, n, item);
        var u := EmptyLobbyOf(ts, n, item);
        if t < NUM_TABLES then BumpLobby(ts, n, c, item, weight, t).0
        else if u < NUM_TABLES then EnterLobby(ts, n, c, item, weight, u).0
        else DecayLobby(ts, n, c, item).0
  }

  /** The draws an update can make: decay never raises a count, and a replacing entry counts. */
  predicate Possible(ts: Tables, n: nat, c: Chance, item: Item, weight: nat)
    requires Shape(ts, n) && item.idx0 < n && item.idx1 < n
  {
    var t := item.fp % 2;
    c.decayed <= At(ts, n, LobbyAt(t, IdxIn(item, t))).count && 1 <= c.fresh_ <= 255
      && (c.fresh_ <= weight || c.fresh_ == 1)
  }
}
