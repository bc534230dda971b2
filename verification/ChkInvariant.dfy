/** Cuckoo Heavy Keeper: every update keeps at most one live copy of each tracked item, in a bucket where
    a lookup finds it, and never empties a heavy entry. */
module ChkInvariant {
  import opened Wrappers
  import opened Bits
  import opened ChkTables

  /** An item as the tables know it: its fingerprint and its bucket in table 0. */
  datatype Ident = Ident(fp: nat, home: nat)

  function IdentOf(s: Slot, fp: nat, n: nat): Ident
    requires n > 0
  {
    Ident(fp, if s.t == 0 then s.i else AltIdx(fp, s.i, n))
  }

  predicate Holds(ts: Tables, n: nat, s: Slot, d: Ident)
    requires Shape(ts, n) && IsSlot(s, n)
  {
    At(ts, n, s).count > 0 && IdentOf(s, At(ts, n, s).fp, n) == d
  }

  ghost predicate Unique(ts: Tables, n: nat)
    requires Shape(ts, n)
  {
    forall s, s', d :: IsSlot(s, n) && IsSlot(s', n) && Holds(ts, n, s, d) && Holds(ts, n, s', d) ==> s == s'
  }

  /** No slot but `s` holds `d`. */
  ghost predicate OnlyAt(ts: Tables, n: nat, d: Ident, s: Slot)
    requires Shape(ts, n)
  {
    forall s' :: IsSlot(s', n) && Holds(ts, n, s', d) ==> s' == s
  }

  ghost predicate Absent(ts: Tables, n: nat, d: Ident)
    requires Shape(ts, n)
  {
    forall s :: IsSlot(s, n) ==> !Holds(ts, n, s, d)
  }

  predicate Full(ts: Tables, n: nat, t: nat, i: nat)
    requires Shape(ts, n) && t < NUM_TABLES && i < n
  {
    At(ts, n, HeavyAt(t, i, 0)).count > 0 && At(ts, n, HeavyAt(t, i, 1)).count > 0
  }

  /** Who waits in a lobby waits because both its buckets have no empty heavy entry. */
  predicate WaitsForGood(ts: Tables, n: nat, t: nat, i: nat)
    requires Shape(ts, n) && IsPowerOfTwo(n) && t < NUM_TABLES && i < n
  {
    var e := At(ts, n, LobbyAt(t, i));
    AltIsInvolutive(e.fp, i, n);
    e.count > 0 ==> Full(ts, n, t, i) && Full(ts, n, 1 - t, AltIdx(e.fp, i, n))
  }

  ghost predicate LobbyWaits(ts: Tables, n: nat)
    requires Shape(ts, n) && IsPowerOfTwo(n)
  {
    forall t, i :: 0 <= t < NUM_TABLES && 0 <= i < n ==> WaitsForGood(ts, n, t, i)
  }

  ghost predicate Bounded(ts: Tables, n: nat, total: nat)
    requires Shape(ts, n)
  {
    forall s :: IsSlot(s, n) ==> At(ts, n, s).count <= total
  }

  ghost predicate Inv(ts: Tables, n: nat, total: nat) {
    IsPowerOfTwo(n) && Shape(ts, n) && Unique(ts, n) && LobbyWaits(ts, n) && Bounded(ts, n, total)
  }

  /** Occupied heavy entries stay occupied. */
  ghost predicate StaysOccupied(ts: Tables, ts': Tables, n: nat)
    requires Shape(ts, n) && Shape(ts', n)
  {
    forall s :: IsSlot(s, n) && s.HeavyAt? && At(ts, n, s).count > 0 ==> At(ts', n, s).count > 0
  }

  // ---------------------------------------------------------------- where an item can be

  /** The identity of an item, and the only buckets that can hold it: those a lookup probes. */
  lemma InItsBuckets(item: Item, n: nat, s: Slot)
    requires IsPowerOfTwo(n) && n > 0 && ValidItem(item, n) && IsSlot(s, n)
    ensures IdentOf(s, item.fp, n) == Ident(item.fp, item.idx0) <==> s.i == IdxIn(item, s.t)
  {
    hide AltIdx, IsPowerOfTwo;
    AltIsInvolutive(item.fp, s.i, n);
    AltIsInvolutive(item.fp, item.idx0, n);
  }

  lemma SlotOfPosition(item: Item, s: Slot)
    requires s.HeavyAt? && s.t < NUM_TABLES && s.j < HEAVY_ENTRIES && s.i == IdxIn(item, s.t)
    ensures s == HeavySlot(item, 2 * s.t + s.j)
  {
  }

  /** An item is tracked exactly when the two searches find it. */
  lemma FoundIffTracked(ts: Tables, n: nat, item: Item)
    requires Shape(ts, n) && IsPowerOfTwo(n) && ValidItem(item, n) && item.idx1 < n
    ensures (FirstMatch(ts, n, item, 0) == 4 && LobbyOf(ts, n, item) == NUM_TABLES)
            <==> Absent(ts, n, Ident(item.fp, item.idx0))
  {
    hide AltIdx, IsPowerOfTwo, At, Shape, FirstMatch, LobbyOf;
    var d := Ident(item.fp, item.idx0);
    var k, t := FirstMatch(ts, n, item, 0), LobbyOf(ts, n, item);
    if k == 4 && t == NUM_TABLES {
      forall s | IsSlot(s, n) ensures !Holds(ts, n, s, d) {
        InItsBuckets(item, n, s);
        if s.HeavyAt? && s.i == IdxIn(item, s.t) {
          SlotOfPosition(item, s);
          assert !Matches(At(ts, n, HeavySlot(item, 2 * s.t + s.j)), item.fp);
        }
      }
    } else if k < 4 {
      InItsBuckets(item, n, HeavySlot(item, k));
      assert Holds(ts, n, HeavySlot(item, k), d);
    } else {
      InItsBuckets(item, n, LobbyAt(t, IdxIn(item, t)));
      assert Holds(ts, n, LobbyAt(t, IdxIn(item, t)), d);
    }
  }

  // ---------------------------------------------------------------- single changes

  lemma PutKeepsUnique(ts: Tables, n: nat, s: Slot, e: Entry)
    requires Shape(ts, n) && IsSlot(s, n) && Unique(ts, n)
    requires e.count > 0 ==> OnlyAt(ts, n, IdentOf(s, e.fp, n), s)
    ensures Shape(Put(ts, n, s, e), n) && Unique(Put(ts, n, s, e), n)
  {
    hide At, Put, Shape, AltIdx;
    PutAt(ts, n, s, e);
    var ts' := Put(ts, n, s, e);
    forall a, b, d | IsSlot(a, n) && IsSlot(b, n) && Holds(ts', n, a, d) && Holds(ts', n, b, d) ensures a == b {
      if a != s { assert Holds(ts, n, a, d); }
      if b != s { assert Holds(ts, n, b, d); }
    }
  }

  lemma HeavyPutKeepsLobby(ts: Tables, n: nat, s: Slot, e: Entry)
    requires Shape(ts, n) && IsPowerOfTwo(n) && IsSlot(s, n) && s.HeavyAt? && e.count > 0 && LobbyWaits(ts, n)
    ensures Shape(Put(ts, n, s, e), n) && LobbyWaits(Put(ts, n, s, e), n) && StaysOccupied(ts, Put(ts, n, s, e), n)
  {
    hide At, Put, Shape, AltIdx, IsPowerOfTwo;
    PutAt(ts, n, s, e);
    OccupiedKeepsLobby(ts, Put(ts, n, s, e), n);
  }

  /** The waiting condition survives when heavy entries stay and lobby entries stay or go. */
  lemma OccupiedKeepsLobby(ts: Tables, ts': Tables, n: nat)
    requires Shape(ts, n) && Shape(ts', n) && IsPowerOfTwo(n) && LobbyWaits(ts, n) && StaysOccupied(ts, ts', n)
    requires forall s :: IsSlot(s, n) && s.LobbyAt? && At(ts', n, s).count > 0 ==>
             At(ts, n, s).count > 0 && At(ts, n, s).fp == At(ts', n, s).fp
    ensures LobbyWaits(ts', n)
  {
    hide At, Shape, AltIdx, IsPowerOfTwo;
    forall t, i | 0 <= t < NUM_TABLES && 0 <= i < n ensures WaitsForGood(ts', n, t, i) {
      var e := At(ts', n, LobbyAt(t, i));
      if e.count > 0 {
        AltIsInvolutive(e.fp, i, n);
        assert WaitsForGood(ts, n, t, i);
      }
    }
  }

  // ---------------------------------------------------------------- kick chains

  /** A kick chain never duplicates, never loses a waiting condition and never empties a heavy entry,
      whatever the heavy hitter test answers. The entry in hand is in no slot. */
  lemma {:induction false} KickoutKeeps(ts: Tables, n: nat, heavy: nat -> bool, entry: Entry, idx: nat, t: nat,
                                        kicks: nat, total: nat)
    requires Inv(ts, n, total) && idx < n && t < NUM_TABLES && 0 < entry.count <= total
    requires Absent(ts, n, IdentOf(LobbyAt(t, idx), entry.fp, n))
    ensures var ts' := Kickout(ts, n, heavy, entry, idx, t, kicks); Inv(ts', n, total) && StaysOccupied(ts, ts', n)
    decreases kicks
  {
    hide At, Put, AltIdx, Victim, IsPowerOfTwo, Shape, LobbyWaits;
    if kicks > 0 && heavy(entry.count) {
      AltIsInvolutive(entry.fp, idx, n);
      var t', idx' := 1 - t, AltIdx(entry.fp, idx, n);
      ShapeParts(ts, n, t', idx');
      var s := HeavyAt(t', idx', Victim(BucketAt(ts, t', idx')));
      var victim := At(ts, n, s);
      MovedIdent(entry.fp, idx, t, n, s);
      PutAt(ts, n, s, entry);
      PutKeepsUnique(ts, n, s, entry);
      HeavyPutKeepsLobby(ts, n, s, entry);
      var ts1 := Put(ts, n, s, entry);
      assert Inv(ts1, n, total);
      if victim.count > 0 {
        var d := IdentOf(s, victim.fp, n);
        assert Holds(ts, n, s, d);
        forall a | IsSlot(a, n) ensures !Holds(ts1, n, a, d) {
          assert a != s ==> Holds(ts1, n, a, d) == Holds(ts, n, a, d);
        }
        KickoutKeeps(ts1, n, heavy, victim, idx', t', kicks - 1, total);
      }
    }
  }

  lemma ShapeParts(ts: Tables, n: nat, t: nat, i: nat)
    requires Shape(ts, n) && t < NUM_TABLES && i < n
    ensures i < |ts.zero| && i < |ts.one| && |BucketAt(ts, t, i).heavy| == HEAVY_ENTRIES
    ensures At(ts, n, LobbyAt(t, i)) == BucketAt(ts, t, i).lobby
    ensures forall j :: 0 <= j < HEAVY_ENTRIES ==> At(ts, n, HeavyAt(t, i, j)) == BucketAt(ts, t, i).heavy[j]
  {
  }

  /** Moving to the other bucket keeps the identity. */
  lemma MovedIdent(fp: nat, idx: nat, t: nat, n: nat, s: Slot)
    requires IsPowerOfTwo(n) && n > 0 && idx < n && t < NUM_TABLES && s.t == 1 - t && s.i == AltIdx(fp, idx, n)
    ensures IdentOf(s, fp, n) == IdentOf(LobbyAt(t, idx), fp, n)
  {
    hide AltIdx, IsPowerOfTwo;
    AltIsInvolutive(fp, idx, n);
  }

  // ---------------------------------------------------------------- promotion

  /** Promoting the lobby entry of a full bucket; the lobby entry may not count yet, but nobody else
      has its identity. */
  lemma PromoteKeeps(ts: Tables, n: nat, c: Chance, item: Item, newCount: nat, t: nat, total: nat)
    requires Inv(ts, n, total) && ValidItem(item, n) && item.idx1 < n && t < NUM_TABLES
    requires Full(ts, n, t, IdxIn(item, t))
    requires var l := LobbyAt(t, IdxIn(item, t)); OnlyAt(ts, n, IdentOf(l, At(ts, n, l).fp, n), l)
    ensures var p := TryPromote(ts, n, c, item, newCount, t);
            Inv(p.0, n, total) && StaysOccupied(ts, p.0, n) && (p.1 == HEAVY_ENTRIES ==> p.0 == ts)
  {
    hide At, Put, AltIdx, IsPowerOfTwo, Shape, LobbyWaits, Kickout, Victim;
    var i := IdxIn(item, t);
    ShapeParts(ts, n, t, i);
    var b := BucketAt(ts, t, i);
    var j := Victim(b);
    var victim := b.heavy[j];
    var h, l := HeavyAt(t, i, j), LobbyAt(t, i);
    var promoted := Entry(victim.count, b.lobby.fp);
    PutAt(ts, n, h, promoted);
    var ts1 := Put(ts, n, h, promoted);
    PutAt(ts1, n, l, Entry(0, 0));
    var ts2 := Put(ts1, n, l, Entry(0, 0));
    SwappedIsInv(ts, n, h, l, ts2, total);
    KickoutKeeps(ts2, n, c.heavy, victim, i, t, MAX_KICKS, total);
  }

  /** The heavy entry `h` has taken the fingerprint of the lobby entry `l`, which is cleared. */
  lemma SwappedIsInv(ts: Tables, n: nat, h: Slot, l: Slot, ts': Tables, total: nat)
    requires Inv(ts, n, total) && Shape(ts', n) && IsSlot(h, n) && IsSlot(l, n) && h.HeavyAt? && l.LobbyAt?
    requires h.t == l.t && h.i == l.i
    requires At(ts, n, h).count > 0 && OnlyAt(ts, n, IdentOf(l, At(ts, n, l).fp, n), l)
    requires forall s :: IsSlot(s, n) ==>
      At(ts', n, s) == if s == l then Entry(0, 0) else if s == h then Entry(At(ts, n, h).count, At(ts, n, l).fp)
        else At(ts, n, s)
    ensures Inv(ts', n, total) && StaysOccupied(ts, ts', n) && Absent(ts', n, IdentOf(l, At(ts, n, h).fp, n))
  {
    hide At, AltIdx, IsPowerOfTwo, Shape, LobbyWaits;
    var d, v := IdentOf(l, At(ts, n, l).fp, n), IdentOf(h, At(ts, n, h).fp, n);
    assert Holds(ts, n, h, v) && v != d;
    OccupiedKeepsLobby(ts, ts', n);
    forall a, b, x | IsSlot(a, n) && IsSlot(b, n) && Holds(ts', n, a, x) && Holds(ts', n, b, x) ensures a == b {
      if a != h { assert Holds(ts, n, a, x); }
      if b != h { assert Holds(ts, n, b, x); }
    }
    forall a | IsSlot(a, n) ensures !Holds(ts', n, a, v) {
      assert a != h && a != l ==> Holds(ts', n, a, v) == Holds(ts, n, a, v);
    }
  }

  // ---------------------------------------------------------------- heavy entries

  lemma AllFull(ts: Tables, n: nat, item: Item)
    requires Shape(ts, n) && item.idx0 < n && item.idx1 < n
    ensures FirstEmpty(ts, n, item, 0) == 4 <==> Full(ts, n, 0, item.idx0) && Full(ts, n, 1, item.idx1)
  {
    hide At, Shape, FirstEmpty;
    var e := FirstEmpty(ts, n, item, 0);
    assert HeavySlot(item, 0) == HeavyAt(0, item.idx0, 0) && HeavySlot(item, 1) == HeavyAt(0, item.idx0, 1);
    assert HeavySlot(item, 2) == HeavyAt(1, item.idx1, 0) && HeavySlot(item, 3) == HeavyAt(1, item.idx1, 1);
    if e < 4 { assert At(ts, n, HeavySlot(item, e)).count == 0; }
  }

  /** While the item has a place among the heavy entries, it does not wait in a lobby. */
  lemma NotWaiting(ts: Tables, n: nat, item: Item)
    requires Shape(ts, n) && IsPowerOfTwo(n) && LobbyWaits(ts, n) && ValidItem(item, n) && item.idx1 < n
    requires FirstEmpty(ts, n, item, 0) < 4
    ensures LobbyOf(ts, n, item) == NUM_TABLES
  {
    hide At, Shape, FirstEmpty, AltIdx, IsPowerOfTwo, LobbyOf;
    AllFull(ts, n, item);
    AltIsInvolutive(item.fp, item.idx0, n);
    var t := LobbyOf(ts, n, item);
    assert WaitsForGood(ts, n, 0, item.idx0) && WaitsForGood(ts, n, 1, item.idx1);
  }

  lemma HeavyKeeps(ts: Tables, n: nat, item: Item, weight: nat, total: nat)
    requires Inv(ts, n, total) && ValidItem(item, n) && item.idx1 < n && weight > 0
    ensures var p := CheckHeavy(ts, n, item, weight);
            Shape(p.0, n) && Inv(p.0, n, total + weight) && StaysOccupied(ts, p.0, n) && (p.1 == 4 ==> p.0 == ts)
    ensures CheckHeavy(ts, n, item, weight).1 <= 4
    ensures CheckHeavy(ts, n, item, weight).1 == 4 ==>
              FirstMatch(ts, n, item, 0) == 4 && Full(ts, n, 0, item.idx0) && Full(ts, n, 1, item.idx1)
  {
    hide At, Put, Shape, FirstEmpty, FirstMatch, AltIdx, IsPowerOfTwo, LobbyOf, LobbyWaits;
    var k, e := FirstMatch(ts, n, item, 0), FirstEmpty(ts, n, item, 0);
    AllFull(ts, n, item);
    if k < 4 {
      var s := HeavySlot(item, k);
      var was := At(ts, n, s);
      assert Holds(ts, n, s, IdentOf(s, was.fp, n));
      HeavyPut(ts, n, s, was.(count := was.count + weight), total, weight);
    } else if e < 4 {
      var s := HeavySlot(item, e);
      NotWaiting(ts, n, item);
      FoundIffTracked(ts, n, item);
      InItsBuckets(item, n, s);
      HeavyPut(ts, n, s, Entry(weight, item.fp), total, weight);
    }
  }

  lemma HeavyPut(ts: Tables, n: nat, s: Slot, e: Entry, total: nat, weight: nat)
    requires Inv(ts, n, total) && IsSlot(s, n) && s.HeavyAt? && 0 < e.count <= total + weight
    requires OnlyAt(ts, n, IdentOf(s, e.fp, n), s)
    ensures var ts' := Put(ts, n, s, e); Inv(ts', n, total + weight) && StaysOccupied(ts, ts', n)
  {
    hide At, Put, Shape, AltIdx, IsPowerOfTwo, LobbyWaits;
    PutAt(ts, n, s, e);
    PutKeepsUnique(ts, n, s, e);
    HeavyPutKeepsLobby(ts, n, s, e);
  }

  // ---------------------------------------------------------------- lobby entries

  /** Changing the lobby entry of a full bucket of an item to one that nobody else is. */
  lemma LobbyPut(ts: Tables, n: nat, s: Slot, e: Entry, total: nat, weight: nat)
    requires Inv(ts, n, total) && IsSlot(s, n) && s.LobbyAt? && e.count <= total + weight
    requires e.count > 0 ==> OnlyAt(ts, n, IdentOf(s, e.fp, n), s)
    requires AltIdx(e.fp, s.i, n) < n
    requires (e.count > 0 ==> Full(ts, n, s.t, s.i) && Full(ts, n, 1 - s.t, AltIdx(e.fp, s.i, n)))
    ensures var ts' := Put(ts, n, s, e); Inv(ts', n, total + weight) && StaysOccupied(ts, ts', n)
  {
    hide At, Put, Shape, AltIdx, IsPowerOfTwo;
    PutAt(ts, n, s, e);
    PutKeepsUnique(ts, n, s, e);
    var ts' := Put(ts, n, s, e);
    forall t, i | 0 <= t < NUM_TABLES && 0 <= i < n ensures WaitsForGood(ts', n, t, i) {
      var was := At(ts, n, LobbyAt(t, i));
      AltIsInvolutive(was.fp, i, n);
      assert WaitsForGood(ts, n, t, i);
    }
  }

  /** The lobby slot of an item, and its other bucket. */
  lemma LobbyOfItem(item: Item, n: nat, t: nat)
    requires IsPowerOfTwo(n) && n > 0 && ValidItem(item, n) && item.idx1 < n && t < NUM_TABLES
    ensures AltIdx(item.fp, IdxIn(item, t), n) == IdxIn(item, 1 - t) < n
    ensures IdentOf(LobbyAt(t, IdxIn(item, t)), item.fp, n) == Ident(item.fp, item.idx0)
  {
    hide AltIdx, IsPowerOfTwo;
    AltIsInvolutive(item.fp, item.idx0, n);
  }

  lemma InvGrows(ts: Tables, n: nat, total: nat, weight: nat)
    requires Inv(ts, n, total)
    ensures Inv(ts, n, total + weight)
  {
    hide At, Shape, AltIdx, IsPowerOfTwo, LobbyWaits, Unique;
  }

  lemma BumpKeeps(ts: Tables, n: nat, c: Chance, item: Item, weight: nat, t: nat, total: nat)
    requires Inv(ts, n, total) && ValidItem(item, n) && item.idx1 < n && weight > 0 && t < NUM_TABLES
    requires Full(ts, n, 0, item.idx0) && Full(ts, n, 1, item.idx1)
    requires Matches(At(ts, n, LobbyAt(t, IdxIn(item, t))), item.fp)
    ensures var p := BumpLobby(ts, n, c, item, weight, t); Inv(p.0, n, total + weight) && StaysOccupied(ts, p.0, n)
  {
    hide At, Put, Shape, AltIdx, IsPowerOfTwo, LobbyWaits, TryPromote;
    var s := LobbyAt(t, IdxIn(item, t));
    var e := At(ts, n, s);
    LobbyOfItem(item, n, t);
    assert Holds(ts, n, s, Ident(item.fp, item.idx0));
    InvGrows(ts, n, total, weight);
    PromoteKeeps(ts, n, c, item, e.count + weight, t, total + weight);
    LobbyPut(ts, n, s,
             e.(count := if e.count + weight < LOBBY_PROMOTION_THRESHOLD then e.count + weight
                         else LOBBY_PROMOTION_THRESHOLD),
             total, weight);
  }

  lemma EnterKeeps(ts: Tables, n: nat, c: Chance, item: Item, weight: nat, t: nat, total: nat)
    requires Inv(ts, n, total) && ValidItem(item, n) && item.idx1 < n && weight > 0 && t < NUM_TABLES
    requires Full(ts, n, 0, item.idx0) && Full(ts, n, 1, item.idx1) && Absent(ts, n, Ident(item.fp, item.idx0))
    requires At(ts, n, LobbyAt(t, IdxIn(item, t))).count == 0
    ensures var p := EnterLobby(ts, n, c, item, weight, t); Inv(p.0, n, total + weight) && StaysOccupied(ts, p.0, n)
  {
    hide At, Put, Shape, AltIdx, IsPowerOfTwo, LobbyWaits, TryPromote;
    var s := LobbyAt(t, IdxIn(item, t));
    var e := At(ts, n, s);
    LobbyOfItem(item, n, t);
    PutAt(ts, n, s, e.(fp := item.fp));
    LobbyPut(ts, n, s, e.(fp := item.fp), total, weight);
    var named := Put(ts, n, s, e.(fp := item.fp));
    forall a | IsSlot(a, n) ensures !Holds(named, n, a, Ident(item.fp, item.idx0)) {
      assert a != s ==> Holds(named, n, a, Ident(item.fp, item.idx0)) == Holds(ts, n, a, Ident(item.fp, item.idx0));
    }
    PromoteKeeps(named, n, c, item, weight, t, total + weight);
    LobbyPut(named, n, s,
             Entry(if weight < LOBBY_PROMOTION_THRESHOLD then weight else LOBBY_PROMOTION_THRESHOLD, item.fp),
             total + weight, 0);
  }

  lemma DecayKeeps(ts: Tables, n: nat, c: Chance, item: Item, weight: nat, total: nat)
    requires Inv(ts, n, total) && ValidItem(item, n) && item.idx1 < n && weight > 0 && Possible(ts, n, c, item, weight)
    requires Full(ts, n, 0, item.idx0) && Full(ts, n, 1, item.idx1) && Absent(ts, n, Ident(item.fp, item.idx0))
    requires var t := item.fp % 2; At(ts, n, LobbyAt(t, IdxIn(item, t))).count > 0
    ensures var p := DecayLobby(ts, n, c, item); Inv(p.0, n, total + weight) && StaysOccupied(ts, p.0, n)
  {
    hide At, Put, Shape, AltIdx, IsPowerOfTwo, TryPromote;
    var t := item.fp % 2;
    var s := LobbyAt(t, IdxIn(item, t));
    var was := At(ts, n, s);
    var e := if c.decayed == 0 then Entry(c.fresh_, item.fp) else was.(count := c.decayed);
    LobbyOfItem(item, n, t);
    AltIsInvolutive(was.fp, s.i, n);
    assert WaitsForGood(ts, n, t, s.i);
    var d := IdentOf(s, was.fp, n);
    assert Holds(ts, n, s, d);
    assert OnlyAt(ts, n, IdentOf(s, e.fp, n), s);
    PutAt(ts, n, s, e);
    LobbyPut(ts, n, s, e, total, weight);
    var ts1 := Put(ts, n, s, e);
    forall a | IsSlot(a, n) ensures Holds(ts1, n, a, IdentOf(s, e.fp, n)) ==> a == s {
      assert a != s ==> Holds(ts1, n, a, IdentOf(s, e.fp, n)) == Holds(ts, n, a, IdentOf(s, e.fp, n));
    }
    PromoteKeeps(ts1, n, c, item, e.count, t, total + weight);
  }

  // ---------------------------------------------------------------- updates and runs

  /** One update, whatever it draws. */
  lemma UpdateKeeps(ts: Tables, n: nat, c: Chance, item: Item, weight: nat, total: nat)
    requires Inv(ts, n, total) && ValidItem(item, n) && item.idx1 < n && Possible(ts, n, c, item, weight)
    ensures var ts' := Update(ts, n, c, item, weight); Inv(ts', n, total + weight) && StaysOccupied(ts, ts', n)
  {
    hide At, Put, Shape, AltIdx, IsPowerOfTwo, LobbyWaits, Unique, CheckHeavy, BumpLobby, EnterLobby, DecayLobby;
    hide LobbyOf, EmptyLobbyOf, Possible, FirstMatch, FirstEmpty, Full, Absent;
    if weight > 0 {
      HeavyKeeps(ts, n, item, weight, total);
      if CheckHeavy(ts, n, item, weight).1 == 4 {
        FoundIffTracked(ts, n, item);
        var t, u := LobbyOf(ts, n, item), EmptyLobbyOf(ts, n, item);
        if t < NUM_TABLES {
          BumpKeeps(ts, n, c, item, weight, t, total);
        } else if u < NUM_TABLES {
          EnterKeeps(ts, n, c, item, weight, u, total);
        } else {
          DecayKeeps(ts, n, c, item, weight, total);
        }
      }
    }
  }

  /** An update never finds an empty heavy entry when it promotes: the branch for it is dead. */
  lemma PromotionFindsNoEmptyEntry(ts: Tables, n: nat, item: Item, weight: nat, t: nat)
    requires Shape(ts, n) && IsPowerOfTwo(n) && item.idx0 < n && item.idx1 < n && t < NUM_TABLES
    requires CheckHeavy(ts, n, item, weight).1 == 4
    ensures var b := BucketAt(ts, t, IdxIn(item, t)); b.heavy[Victim(b)].count > 0
  {
    hide FirstEmpty, FirstMatch, Put;
    AllFull(ts, n, item);
  }

  function EmptyTable(n: nat): Table {
    seq(n, i => Bucket([Entry(0, 0), Entry(0, 0)], Entry(0, 0)))
  }

  lemma NewIsInv(n: nat)
    requires IsPowerOfTwo(n)
    ensures Inv(Tables(EmptyTable(n), EmptyTable(n)), n, 0)
  {
  }

  datatype Call = Call(hash: nat, weight: nat, chance: Chance)

  datatype Ran = Ran(ts: Tables, total: nat)

  ghost function Run(ts: Tables, n: nat, total: nat, calls: seq<Call>): Option<Ran>
    decreases |calls|
  {
    if calls == [] then Some(Ran(ts, total))
    else if !IsPowerOfTwo(n) || !Shape(ts, n) then None
    else
      var item := ItemOf(calls[0].hash, n);
      if item.idx0 >= n || item.idx1 >= n || !Possible(ts, n, calls[0].chance, item, calls[0].weight) then None
      else Run(Update(ts, n, calls[0].chance, item, calls[0].weight), n, total + calls[0].weight, calls[1..])
  }

  /** Over every run: one live copy at most, where a lookup looks, and heavy entries stay occupied. */
  lemma {:induction false} EveryRunKeeps(ts: Tables, n: nat, total: nat, calls: seq<Call>)
    requires Inv(ts, n, total) && Run(ts, n, total, calls).Some?
    ensures var r := Run(ts, n, total, calls).value; Inv(r.ts, n, r.total) && StaysOccupied(ts, r.ts, n)
    decreases |calls|
  {
    hide At, Put, Shape, AltIdx, IsPowerOfTwo, LobbyWaits, Unique, Update, Possible, Bounded;
    if calls != [] {
      var item := ItemOf(calls[0].hash, n);
      ItemOfIsValid(calls[0].hash, n);
      UpdateKeeps(ts, n, calls[0].chance, item, calls[0].weight, total);
      EveryRunKeeps(Update(ts, n, calls[0].chance, item, calls[0].weight), n, total + calls[0].weight, calls[1..]);
    }
  }
}
