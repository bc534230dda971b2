/** Cuckoo Heavy Keeper: the object, its tables updated in place. */
module ChkTopK {
  import opened Bits
  import opened ChkTables
  import opened ChkInvariant
  import opened ChkCounts

  /** Every count is one that the search for the least count can tell from its initial value. */
  ghost predicate Countable(ts: Tables, n: nat) {
    Shape(ts, n) && Bounded(ts, n, COUNTER_MAX - 1)
  }

  /** The loop that looks for an empty heavy entry and for the least one. */
  method ScanBucket(b: Bucket) returns (j: nat, empty: bool)
    requires |b.heavy| == HEAVY_ENTRIES && forall i :: 0 <= i < HEAVY_ENTRIES ==> b.heavy[i].count < COUNTER_MAX
    ensures j == Victim(b) && empty == (b.heavy[j].count == 0)
  {
    var min: nat := COUNTER_MAX;
    var minPos := -1;
    for i := 0 to HEAVY_ENTRIES
      invariant i == 0 ==> min == COUNTER_MAX && minPos == -1
      invariant i > 0 ==> 0 <= minPos < i && min == b.heavy[minPos].count
      invariant forall k :: 0 <= k < i ==> b.heavy[k].count > 0 && min <= b.heavy[k].count
      invariant i > 0 ==> forall k :: 0 <= k < minPos ==> min < b.heavy[k].count
    {
      if b.heavy[i].count == 0 {
        return i, true;
      }
      if b.heavy[i].count < min {
        min := b.heavy[i].count;
        minPos := i;
      }
    }
    return minPos, false;
  }

  /** The binary search of the decay: the least count whose expected decay steps reach those of `cnt`
      less `weight`. */
  method DecaySearch(exp: seq<real>, cnt: nat, weight: real) returns (left: nat)
    requires cnt < |exp| && weight >= 0.0 && forall i, k :: 0 <= i <= k < |exp| ==> exp[i] <= exp[k]
    ensures left <= cnt && exp[left] + weight >= exp[cnt]
    ensures forall i :: 0 <= i < left ==> exp[i] + weight < exp[cnt]
  {
    left := 0;
    var right := cnt;
    while left < right
      invariant 0 <= left <= right <= cnt && exp[right] + weight >= exp[cnt]
      invariant forall i :: 0 <= i < left ==> exp[i] + weight < exp[cnt]
    {
      var mid := left + (right - left) / 2;
      if exp[mid] + weight >= exp[cnt] {
        right := mid;
      } else {
        left := mid + 1;
      }
    }
  }

  class TopK {
    const table0: array<Bucket>
    const table1: array<Bucket>
    const n: nat
    var total: nat

    ghost predicate Valid()
      reads this, table0, table1
    {
      && table0 != table1 && table0.Length == n && table1.Length == n && IsPowerOfTwo(n)
      && Inv(Contents(), n, total)
    }

    ghost function Contents(): Tables
      reads this, table0, table1
    {
      Tables(table0[..], table1[..])
    }

    ghost predicate Ready()
      reads this, table0, table1
    {
      table0 != table1 && table0.Length == n && table1.Length == n && IsPowerOfTwo(n) && Countable(Contents(), n)
    }

    constructor (numbuckets: nat)
      requires IsPowerOfTwo(numbuckets)
      ensures Valid() && n == numbuckets && total == 0 && fresh(table0) && fresh(table1)
    {
      var empty := Bucket([Entry(0, 0), Entry(0, 0)], Entry(0, 0));
      table0 := new Bucket[numbuckets](i => empty);
      table1 := new Bucket[numbuckets](i => empty);
      n := numbuckets;
      total := 0;
      new;
      NewIsInv(n);
      assert table0[..] == EmptyTable(n) && table1[..] == EmptyTable(n);
    }

    method BucketIn(t: nat, i: nat) returns (b: Bucket)
      requires Ready() && t < NUM_TABLES && i < n
      ensures b == BucketAt(Contents(), t, i) && |b.heavy| == HEAVY_ENTRIES
      ensures forall j :: 0 <= j < HEAVY_ENTRIES ==>
              b.heavy[j] == At(Contents(), n, HeavyAt(t, i, j)) && b.heavy[j].count < COUNTER_MAX
      ensures b.lobby == At(Contents(), n, LobbyAt(t, i))
    {
      hide IsPowerOfTwo;
      b := if t == 0 then table0[i] else table1[i];
      ghost var ts := Contents();
      forall j | 0 <= j < HEAVY_ENTRIES
        ensures b.heavy[j] == At(ts, n, HeavyAt(t, i, j)) && b.heavy[j].count < COUNTER_MAX
      {
        assert IsSlot(HeavyAt(t, i, j), n);
      }
    }

    /** One entry is written in place. */
    method Store(s: Slot, e: Entry)
      requires Ready() && IsSlot(s, n) && e.count < COUNTER_MAX
      modifies table0, table1
      ensures Ready() && Contents() == Put(old(Contents()), n, s, e)
    {
      hide IsPowerOfTwo;
      PutAt(Contents(), n, s, e);
      var b := BucketIn(s.t, s.i);
      var b' := if s.HeavyAt? then b.(heavy := b.heavy[s.j := e]) else b.(lobby := e);
      if s.t == 0 {
        table0[s.i] := b';
      } else {
        table1[s.i] := b';
      }
      assert Contents() == Put(old(Contents()), n, s, e);
    }

    /** The two loops over the heavy entries of an item: the first match, and the first empty entry. */
    method ScanHeavyEntries(item: Item) returns (found: nat, empty: nat)
      requires Ready() && item.idx0 < n && item.idx1 < n
      ensures found == FirstMatch(Contents(), n, item, 0)
      ensures found == 4 ==> empty == FirstEmpty(Contents(), n, item, 0)
    {
      hide IsPowerOfTwo, Shape, FirstMatch, FirstEmpty, At, Bounded, HeavySlot, BucketAt, Seen;
      ghost var ts := Contents();
      SeenNothing(ts, n, item);
      empty := 4;
      for i := 0 to NUM_TABLES
        invariant Seen(ts, n, item, 2 * i, empty)
      {
        var idx := IdxIn(item, i);
        var b := BucketIn(i, idx);
        for j := 0 to HEAVY_ENTRIES
          invariant Seen(ts, n, item, 2 * i + j, empty)
        {
          SlotAt(item, i, j);
          SeenNext(ts, n, item, 2 * i + j, empty);
          var e := b.heavy[j];
          assert e == At(ts, n, HeavyAt(i, idx, j));
          if e.count > 0 {
            if e.fp == item.fp {
              return 2 * i + j, empty;
            }
          } else if empty == 4 {
            empty := 2 * i + j;
          }
        }
      }
      SeenAll(ts, n, item, empty);
      return 4, empty;
    }

    method CheckHeavyEntries(item: Item, weight: nat) returns (k: nat)
      requires Ready() && item.idx0 < n && item.idx1 < n && weight < COUNTER_MAX
      requires forall s :: IsSlot(s, n) ==> At(Contents(), n, s).count + weight < COUNTER_MAX
      modifies table0, table1
      ensures Ready() && (Contents(), k) == CheckHeavy(old(Contents()), n, item, weight)
    {
      hide IsPowerOfTwo, Put, FirstMatch, FirstEmpty;
      ghost var ts := Contents();
      var found, empty := ScanHeavyEntries(item);
      if found < 4 {
        var s := HeavySlot(item, found);
        var b := BucketIn(s.t, s.i);
        var e := b.heavy[s.j];
        assert IsSlot(s, n) && e == At(ts, n, s);
        Store(s, e.(count := e.count + weight));
        return found;
      }
      if empty == 4 {
        return 4;
      }
      Store(HeavySlot(item, empty), Entry(weight, item.fp));
      return empty;
    }

    method KickOut(heavy: nat -> bool, first: Entry, start: nat, table: nat)
      requires Ready() && start < n && table < NUM_TABLES && first.count < COUNTER_MAX
      modifies table0, table1
      ensures Ready() && Contents() == Kickout(old(Contents()), n, heavy, first, start, table, MAX_KICKS)
    {
      hide IsPowerOfTwo, Put, AltIdx, Victim, Shape, Bounded;
      var entry := first;
      var idx: nat, t: nat := start, table;
      ghost var goal := Kickout(Contents(), n, heavy, first, start, table, MAX_KICKS);
      for i := 0 to MAX_KICKS
        invariant Ready() && idx < n && t < NUM_TABLES && entry.count < COUNTER_MAX
        invariant Shape(Contents(), n) && Kickout(Contents(), n, heavy, entry, idx, t, MAX_KICKS - i) == goal
      {
        if !heavy(entry.count) {
          return;
        }
        AltIsInvolutive(entry.fp, idx, n);
        t := 1 - t;
        idx := AltIdx(entry.fp, idx, n);
        var b := BucketIn(t, idx);
        var j, empty := ScanBucket(b);
        var victim := b.heavy[j];
        PutAt(Contents(), n, HeavyAt(t, idx, j), entry);
        Store(HeavyAt(t, idx, j), entry);
        if empty {
          return;
        }
        entry := victim;
      }
    }

    method TryPromoteAndKickout(c: Chance, item: Item, newCount: nat, t: nat) returns (pos: nat)
      requires Ready() && item.idx0 < n && item.idx1 < n && t < NUM_TABLES && newCount < COUNTER_MAX
      modifies table0, table1
      ensures Ready() && (Contents(), pos) == TryPromote(old(Contents()), n, c, item, newCount, t)
    {
      hide IsPowerOfTwo, Put, AltIdx, Victim, Shape, Bounded, Kickout;
      var i := IdxIn(item, t);
      var b := BucketIn(t, i);
      var j, empty := ScanBucket(b);
      if empty {
        Store(HeavyAt(t, i, j), Entry(newCount, item.fp));
        return j;
      }
      var victim := b.heavy[j];
      if victim.count > newCount {
        if !c.promoted { return HEAVY_ENTRIES; }
      }
      Store(HeavyAt(t, i, j), Entry(victim.count, b.lobby.fp));
      Store(LobbyAt(t, i), Entry(0, 0));
      KickOut(c.heavy, victim, i, t);
      return j;
    }

    /** The result is the table where the item waits or waited, and its heavy position if it was promoted. */
    method CheckLobbyEntries(c: Chance, item: Item, weight: nat) returns (t: nat, pos: nat)
      requires Ready() && item.idx0 < n && item.idx1 < n
      requires forall s :: IsSlot(s, n) ==> At(Contents(), n, s).count + weight < COUNTER_MAX
      modifies table0, table1
      ensures Ready() && t == LobbyOf(old(Contents()), n, item)
      ensures t < NUM_TABLES ==> (Contents(), pos) == BumpLobby(old(Contents()), n, c, item, weight, t)
      ensures t == NUM_TABLES ==> Contents() == old(Contents())
    {
      hide IsPowerOfTwo, Put, AltIdx, Shape, TryPromote;
      ghost var ts := Contents();
      t := 0;
      pos := HEAVY_ENTRIES;
      while t < NUM_TABLES
        invariant t <= NUM_TABLES && Contents() == ts && pos == HEAVY_ENTRIES
        invariant forall u :: 0 <= u < t ==> !Matches(At(ts, n, LobbyAt(u, IdxIn(item, u))), item.fp)
      {
        var idx := IdxIn(item, t);
        var b := BucketIn(t, idx);
        var e := b.lobby;
        if e.fp != item.fp || e.count == 0 {
          t := t + 1;
        } else {
          var s := LobbyAt(t, idx);
          assert IsSlot(s, n) && e == At(ts, n, s);
          assert t == LobbyOf(ts, n, item);
          var newCount := e.count + weight;
          if newCount < LOBBY_PROMOTION_THRESHOLD {
            Store(s, e.(count := newCount));
            return;
          }
          pos := TryPromoteAndKickout(c, item, newCount, t);
          if pos < HEAVY_ENTRIES {
            return;
          }
          StayedUnchanged(ts, n, c, item, newCount, t);
          Store(s, e.(count := LOBBY_PROMOTION_THRESHOLD));
          return;
        }
      }
    }

    /** The table part of `chkTopKUpdate`: the draws are given by `c`. */
    method UpdateTables(c: Chance, hash: nat, weight: nat)
      requires Valid() && total + weight < COUNTER_MAX
      requires var item := ItemOf(hash, n); item.idx0 < n && item.idx1 < n && Possible(Contents(), n, c, item, weight)
      modifies this`total, table0, table1
      ensures Valid() && total == old(total) + weight
      ensures var item := ItemOf(hash, n);
              && Contents() == Update(old(Contents()), n, c, item, weight)
              && StaysOccupied(old(Contents()), Contents(), n)
              && (if weight == 0 then Contents() == old(Contents())
                  else Counted(old(Contents()), Contents(), n, c, Ident(item.fp, item.idx0), weight))
    {
      hide IsPowerOfTwo, Put, AltIdx, Shape, Update, CheckHeavy, Unique, LobbyWaits, BumpLobby, EnterLobby;
      hide DecayLobby, ItemOf, Counted;
      var item := ItemOf(hash, n);
      ghost var ts := Contents();
      ItemOfIsValid(hash, n);
      UpdateKeeps(ts, n, c, item, weight, total);
      if weight == 0 {
        assert Update(ts, n, c, item, weight) == ts by { NoWeight(ts, n, c, item); }
        return;
      }
      UpdateCounts(ts, n, c, item, weight, total);
      total := total + weight;
      var k := CheckHeavyEntries(item, weight);
      if k < 4 {
        HeavyDone(ts, n, c, item, weight);
        return;
      }
      HeavyMissed(ts, n, c, item, weight);
      var t, pos := CheckLobbyEntries(c, item, weight);
      if t < NUM_TABLES {
        return;
      }
      var u := 0;
      while u < NUM_TABLES
        invariant u <= NUM_TABLES && Contents() == ts && total == old(total) + weight
        invariant forall v :: 0 <= v < u ==> At(ts, n, LobbyAt(v, IdxIn(item, v))).count > 0
      {
        var b := BucketIn(u, IdxIn(item, u));
        if b.lobby.count == 0 {
          assert u == EmptyLobbyOf(ts, n, item);
          EnterEmptyLobby(c, item, weight, u);
          return;
        }
        u := u + 1;
      }
      DecayOneLobby(c, item);
    }

    method EnterEmptyLobby(c: Chance, item: Item, weight: nat, t: nat)
      requires Ready() && item.idx0 < n && item.idx1 < n && t < NUM_TABLES && weight < COUNTER_MAX
      requires At(Contents(), n, LobbyAt(t, IdxIn(item, t))).count == 0
      modifies table0, table1
      ensures Ready() && Contents() == EnterLobby(old(Contents()), n, c, item, weight, t).0
    {
      hide IsPowerOfTwo, Put, AltIdx, Shape, TryPromote, Bounded;
      var idx := IdxIn(item, t);
      var b := BucketIn(t, idx);
      var s := LobbyAt(t, idx);
      Store(s, b.lobby.(fp := item.fp));
      ghost var named := Contents();
      if weight < LOBBY_PROMOTION_THRESHOLD {
        Store(s, Entry(weight, item.fp));
      } else {
        var pos := TryPromoteAndKickout(c, item, weight, t);
        StayedUnchanged(named, n, c, item, weight, t);
        if pos >= HEAVY_ENTRIES {
          Store(s, Entry(LOBBY_PROMOTION_THRESHOLD, item.fp));
        }
      }
    }

    method DecayOneLobby(c: Chance, item: Item)
      requires Ready() && item.idx0 < n && item.idx1 < n && c.decayed < COUNTER_MAX && c.fresh_ < COUNTER_MAX
      modifies table0, table1
      ensures Ready() && Contents() == DecayLobby(old(Contents()), n, c, item).0
    {
      hide IsPowerOfTwo, Put, AltIdx, Shape, TryPromote, Bounded;
      var t := item.fp % 2;
      var idx := IdxIn(item, t);
      var b := BucketIn(t, idx);
      var e := if c.decayed == 0 then Entry(c.fresh_, item.fp) else b.lobby.(count := c.decayed);
      Store(LobbyAt(t, idx), e);
      if e.count >= LOBBY_PROMOTION_THRESHOLD {
        var _ := TryPromoteAndKickout(c, item, e.count, t);
      }
    }
  }

  lemma NextPosition(ts: Tables, n: nat, item: Item, k: nat)
    requires Shape(ts, n) && item.idx0 < n && item.idx1 < n && k < 4
    ensures FirstMatch(ts, n, item, k)
            == if Matches(At(ts, n, HeavySlot(item, k)), item.fp) then k else FirstMatch(ts, n, item, k + 1)
    ensures FirstEmpty(ts, n, item, k)
            == if At(ts, n, HeavySlot(item, k)).count == 0 then k else FirstEmpty(ts, n, item, k + 1)
  {
    hide At;
  }

  lemma SlotAt(item: Item, i: nat, j: nat)
    requires j < HEAVY_ENTRIES
    ensures HeavySlot(item, 2 * i + j) == HeavyAt(i, IdxIn(item, i), j)
  {
  }

  /** What the search knows after `k` entries: no match before, and the first empty entry before, if any. */
  ghost predicate Seen(ts: Tables, n: nat, item: Item, k: nat, empty: nat)
    requires Shape(ts, n) && item.idx0 < n && item.idx1 < n
  {
    && k <= 4 && empty <= 4
    && FirstMatch(ts, n, item, 0) == FirstMatch(ts, n, item, k)
    && FirstEmpty(ts, n, item, 0) == if empty == 4 then FirstEmpty(ts, n, item, k) else empty
  }

  lemma SeenNothing(ts: Tables, n: nat, item: Item)
    requires Shape(ts, n) && item.idx0 < n && item.idx1 < n
    ensures Seen(ts, n, item, 0, 4)
  {
    hide FirstMatch, FirstEmpty;
  }

  lemma SeenNext(ts: Tables, n: nat, item: Item, k: nat, empty: nat)
    requires Shape(ts, n) && item.idx0 < n && item.idx1 < n && k < 4 && Seen(ts, n, item, k, empty)
    ensures var e := At(ts, n, HeavySlot(item, k));
            && (e.count > 0 && e.fp == item.fp ==> FirstMatch(ts, n, item, 0) == k)
            && (e.count > 0 && e.fp != item.fp ==> Seen(ts, n, item, k + 1, empty))
            && (e.count == 0 ==> Seen(ts, n, item, k + 1, if empty == 4 then k else empty))
  {
    hide FirstMatch, FirstEmpty, At, HeavySlot;
    NextPosition(ts, n, item, k);
  }

  lemma SeenAll(ts: Tables, n: nat, item: Item, empty: nat)
    requires Shape(ts, n) && item.idx0 < n && item.idx1 < n && Seen(ts, n, item, 4, empty)
    ensures FirstMatch(ts, n, item, 0) == 4 && FirstEmpty(ts, n, item, 0) == empty
  {
    hide FirstMatch, FirstEmpty;
    NothingLeft(ts, n, item);
  }

  lemma NothingLeft(ts: Tables, n: nat, item: Item)
    requires Shape(ts, n) && item.idx0 < n && item.idx1 < n
    ensures FirstMatch(ts, n, item, 4) == 4 && FirstEmpty(ts, n, item, 4) == 4
  {
  }

  lemma StayedUnchanged(ts: Tables, n: nat, c: Chance, item: Item, newCount: nat, t: nat)
    requires Shape(ts, n) && IsPowerOfTwo(n) && item.idx0 < n && item.idx1 < n && t < NUM_TABLES
    ensures var p := TryPromote(ts, n, c, item, newCount, t);
            p.1 <= HEAVY_ENTRIES && (p.1 == HEAVY_ENTRIES ==> p.0 == ts)
  {
    hide Kickout, IsPowerOfTwo, Put;
  }

  lemma NoWeight(ts: Tables, n: nat, c: Chance, item: Item)
    requires Shape(ts, n) && IsPowerOfTwo(n) && item.idx0 < n && item.idx1 < n
    ensures Update(ts, n, c, item, 0) == ts
  {
  }

  lemma HeavyDone(ts: Tables, n: nat, c: Chance, item: Item, weight: nat)
    requires Shape(ts, n) && IsPowerOfTwo(n) && item.idx0 < n && item.idx1 < n && weight > 0
    requires CheckHeavy(ts, n, item, weight).1 < 4
    ensures Update(ts, n, c, item, weight) == CheckHeavy(ts, n, item, weight).0
  {
    hide IsPowerOfTwo, CheckHeavy, BumpLobby, EnterLobby, DecayLobby;
  }

  lemma HeavyMissed(ts: Tables, n: nat, c: Chance, item: Item, weight: nat)
    requires Shape(ts, n) && IsPowerOfTwo(n) && item.idx0 < n && item.idx1 < n && weight > 0
    requires CheckHeavy(ts, n, item, weight).1 >= 4
    ensures CheckHeavy(ts, n, item, weight).0 == ts
    ensures var t, u := LobbyOf(ts, n, item), EmptyLobbyOf(ts, n, item);
            Update(ts, n, c, item, weight)
            == if t < NUM_TABLES then BumpLobby(ts, n, c, item, weight, t).0
               else if u < NUM_TABLES then EnterLobby(ts, n, c, item, weight, u).0
               else DecayLobby(ts, n, c, item).0
  {
    hide IsPowerOfTwo, BumpLobby, EnterLobby, DecayLobby, Put;
  }
}
