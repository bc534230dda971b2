/** Cuckoo Heavy Keeper: what an update does to the counts, said of the slots that hold the items. */
module ChkCounts {
  import opened Bits
  import opened ChkTables
  import opened ChkInvariant

  // ---------------------------------------------------------------- kick chains

  /** What slot `s` holds after `k` moves: the move at `path[m]` puts `hands[m]` there. */
  ghost function After(ts: Tables, n: nat, path: seq<Slot>, hands: seq<Entry>, k: nat, s: Slot): Entry
    requires Shape(ts, n) && IsSlot(s, n) && k <= |path| < |hands|
  {
    if k == 0 then At(ts, n, s) else if path[k - 1] == s then hands[k - 1] else After(ts, n, path, hands, k - 1, s)
  }

  /** The least of the two heavy entries, the first one when they are equal, given their counts. */
  predicate IsLeast(j: nat, mine: nat, other: nat) {
    j < HEAVY_ENTRIES && (if j == 0 then mine <= other else mine < other)
  }

  function Beside(s: Slot): Slot
    requires s.HeavyAt? && s.j < HEAVY_ENTRIES
  {
    HeavyAt(s.t, s.i, 1 - s.j)
  }

  /** Move `k` of a chain that comes from bucket `i` of table `t`: the entry in hand is a heavy hitter, it goes to the
      bucket in the other table in which a lookup finds it, and takes the place of the least entry there. */
  ghost predicate Move(ts: Tables, n: nat, heavy: nat -> bool, t: nat, i: nat, path: seq<Slot>, hands: seq<Entry>,
                       k: nat)
    requires Shape(ts, n) && k < |path| < |hands| && forall m :: 0 <= m < |path| ==> IsSlot(path[m], n)
  {
    var from := if k == 0 then LobbyAt(t, i) else path[k - 1];
    var to, e := path[k], hands[k];
    && e.count > 0 && heavy(e.count)
    && to.HeavyAt? && to.t + from.t == 1 && IdentOf(to, e.fp, n) == IdentOf(from, e.fp, n)
    && hands[k + 1] == After(ts, n, path, hands, k, to)
    && IsLeast(to.j, hands[k + 1].count, After(ts, n, path, hands, k, Beside(to)).count)
  }

  /** A chain of moves that starts with `entry` in hand and ends at an empty entry, at one that is no heavy hitter, or
      after `kicks` moves. Nothing else changes. */
  ghost predicate KickChain(ts: Tables, ts': Tables, n: nat, heavy: nat -> bool, entry: Entry, t: nat, i: nat,
                            kicks: nat, path: seq<Slot>, hands: seq<Entry>)
    requires Shape(ts, n) && Shape(ts', n)
  {
    && |hands| == |path| + 1 && |path| <= kicks && hands[0] == entry
    && (forall m :: 0 <= m < |path| ==> IsSlot(path[m], n))
    && (forall k :: 0 <= k < |path| ==> Move(ts, n, heavy, t, i, path, hands, k))
    && (|path| == kicks || hands[|path|].count == 0 || !heavy(hands[|path|].count))
    && forall s :: IsSlot(s, n) ==> At(ts', n, s) == After(ts, n, path, hands, |path|, s)
  }

  lemma {:induction false} AfterShift(ts: Tables, ts1: Tables, n: nat, path: seq<Slot>, hands: seq<Entry>, k: nat,
                                      s: Slot)
    requires Shape(ts, n) && Shape(ts1, n) && IsSlot(s, n) && 0 < k <= |path| < |hands|
    requires At(ts1, n, s) == if s == path[0] then hands[0] else At(ts, n, s)
    ensures After(ts, n, path, hands, k, s) == After(ts1, n, path[1..], hands[1..], k - 1, s)
    decreases k
  {
    hide At, Shape;
    if k > 1 { AfterShift(ts, ts1, n, path, hands, k - 1, s); }
  }

  lemma VictimIsLeast(ts: Tables, n: nat, t: nat, i: nat)
    requires Shape(ts, n) && t < NUM_TABLES && i < n
    ensures |BucketAt(ts, t, i).heavy| == HEAVY_ENTRIES
    ensures var j := Victim(BucketAt(ts, t, i));
            IsLeast(j, At(ts, n, HeavyAt(t, i, j)).count, At(ts, n, HeavyAt(t, i, 1 - j)).count)
  {
  }

  /** The recursion for kicks is such a chain. */
  lemma {:induction false} KickoutIsChain(ts: Tables, n: nat, heavy: nat -> bool, entry: Entry, idx: nat, t: nat,
                                          kicks: nat)
    returns (path: seq<Slot>, hands: seq<Entry>)
    requires Shape(ts, n) && IsPowerOfTwo(n) && idx < n && t < NUM_TABLES && entry.count > 0
    ensures Shape(Kickout(ts, n, heavy, entry, idx, t, kicks), n)
    ensures KickChain(ts, Kickout(ts, n, heavy, entry, idx, t, kicks), n, heavy, entry, t, idx, kicks, path, hands)
    decreases kicks
  {
    hide At, Put, AltIdx, Victim, IsPowerOfTwo, Shape, KickChain;
    path, hands := [], [entry];
    if kicks == 0 || !heavy(entry.count) {
      NoMove(ts, n, heavy, entry, t, idx, kicks);
    } else {
      AltIsInvolutive(entry.fp, idx, n);
      var t', idx' := 1 - t, AltIdx(entry.fp, idx, n);
      VictimIsLeast(ts, n, t', idx');
      ShapeParts(ts, n, t', idx');
      var s := HeavyAt(t', idx', Victim(BucketAt(ts, t', idx')));
      var victim := At(ts, n, s);
      MovedIdent(entry.fp, idx, t, n, s);
      PutAt(ts, n, s, entry);
      var ts1 := Put(ts, n, s, entry);
      var path1, hands1 := [], [victim];
      if victim.count == 0 {
        NoMove(ts1, n, heavy, victim, t', idx', kicks - 1);
      } else {
        path1, hands1 := KickoutIsChain(ts1, n, heavy, victim, idx', t', kicks - 1);
      }
      var ts' := Kickout(ts, n, heavy, entry, idx, t, kicks);
      ChainGrows(ts, ts1, ts', n, heavy, entry, t, idx, kicks, s, path1, hands1);
      path, hands := [s] + path1, [entry] + hands1;
    }
  }

  lemma NoMove(ts: Tables, n: nat, heavy: nat -> bool, entry: Entry, t: nat, i: nat, kicks: nat)
    requires Shape(ts, n) && (kicks == 0 || entry.count == 0 || !heavy(entry.count))
    ensures KickChain(ts, ts, n, heavy, entry, t, i, kicks, [], [entry])
  {
    hide At, Shape;
  }

  lemma ChainGrows(ts: Tables, ts1: Tables, ts': Tables, n: nat, heavy: nat -> bool, entry: Entry, t: nat, i: nat,
                   kicks: nat, s: Slot, path1: seq<Slot>, hands1: seq<Entry>)
    requires Shape(ts, n) && Shape(ts1, n) && Shape(ts', n) && kicks > 0 && t < NUM_TABLES && i < n
    requires IsSlot(s, n) && s.HeavyAt? && s.t == 1 - t
    requires IdentOf(s, entry.fp, n) == IdentOf(LobbyAt(t, i), entry.fp, n)
    requires entry.count > 0 && heavy(entry.count)
    requires IsLeast(s.j, At(ts, n, s).count, At(ts, n, Beside(s)).count)
    requires forall x :: IsSlot(x, n) ==> At(ts1, n, x) == if x == s then entry else At(ts, n, x)
    requires KickChain(ts1, ts', n, heavy, At(ts, n, s), s.t, s.i, kicks - 1, path1, hands1)
    ensures KickChain(ts, ts', n, heavy, entry, t, i, kicks, [s] + path1, [entry] + hands1)
  {
    hide At, Shape, AltIdx;
    var path, hands := [s] + path1, [entry] + hands1;
    assert path[1..] == path1 && hands[1..] == hands1;
    assert forall m :: 0 <= m < |path| ==> path[m] == if m == 0 then s else path1[m - 1];
    assert forall m :: 0 <= m < |hands| ==> hands[m] == if m == 0 then entry else hands1[m - 1];
    forall x, k | IsSlot(x, n) && 0 < k <= |path|
      ensures After(ts, n, path, hands, k, x) == After(ts1, n, path1, hands1, k - 1, x)
    {
      AfterShift(ts, ts1, n, path, hands, k, x);
    }
    forall k | 0 <= k < |path| ensures Move(ts, n, heavy, t, i, path, hands, k) {
      if k > 0 {
        assert Move(ts1, n, heavy, s.t, s.i, path1, hands1, k - 1);
        MoveShift(ts, ts1, n, heavy, t, i, s, path, hands, path1, hands1, k);
      }
    }
  }

  lemma MoveShift(ts: Tables, ts1: Tables, n: nat, heavy: nat -> bool, t: nat, i: nat, s: Slot, path: seq<Slot>,
                  hands: seq<Entry>, path1: seq<Slot>, hands1: seq<Entry>, k: nat)
    requires Shape(ts, n) && Shape(ts1, n) && 0 < k < |path| < |hands|
    requires |path1| == |path| - 1 && |hands1| == |hands| - 1
    requires forall m :: 0 <= m < |path| ==> IsSlot(path[m], n)
    requires (forall m :: 0 <= m < |path1| ==> path[m + 1] == path1[m]) && path[0] == s
    requires forall m :: 0 <= m < |hands1| ==> hands[m + 1] == hands1[m]
    requires forall x :: IsSlot(x, n) ==> After(ts, n, path, hands, k, x) == After(ts1, n, path1, hands1, k - 1, x)
    requires (forall m :: 0 <= m < |path1| ==> IsSlot(path1[m], n))
    requires Move(ts1, n, heavy, s.t, s.i, path1, hands1, k - 1)
    ensures Move(ts, n, heavy, t, i, path, hands, k)
  {
    hide At, Shape, AltIdx, After;
    assert path1[k - 1] == path[k] && hands1[k - 1] == hands[k] && hands1[k] == hands[k + 1];
    if k > 1 { assert path1[k - 2] == path[k - 1]; }
  }

  // ---------------------------------------------------------------- nothing but one item is lost

  /** The item is among the heavy entries, with this count. */
  ghost predicate Heavy(ts: Tables, n: nat, d: Ident, count: nat)
    requires Shape(ts, n)
  {
    exists s :: IsSlot(s, n) && s.HeavyAt? && Holds(ts, n, s, d) && At(ts, n, s).count == count
  }

  lemma OnePut(ts: Tables, n: nat, s: Slot, e: Entry, d: Ident, count: nat)
    requires Shape(ts, n) && Unique(ts, n) && IsSlot(s, n) && s.HeavyAt? && e.count > 0
    ensures Shape(Put(ts, n, s, e), n)
    ensures Heavy(Put(ts, n, s, e), n, d, count)
            <==> || (d == IdentOf(s, e.fp, n) && count == e.count)
                 || (Heavy(ts, n, d, count) && !Holds(ts, n, s, d))
  {
    hide At, Put, Shape, AltIdx;
    PutAt(ts, n, s, e);
    var ts' := Put(ts, n, s, e);
    if Heavy(ts', n, d, count) {
      var x :| IsSlot(x, n) && x.HeavyAt? && Holds(ts', n, x, d) && At(ts', n, x).count == count;
      if x != s { assert Holds(ts, n, x, d) && At(ts, n, x).count == count; }
    }
    if d == IdentOf(s, e.fp, n) && count == e.count { assert Holds(ts', n, s, d) && At(ts', n, s).count == count; }
    if Heavy(ts, n, d, count) && !Holds(ts, n, s, d) {
      var x :| IsSlot(x, n) && x.HeavyAt? && Holds(ts, n, x, d) && At(ts, n, x).count == count;
      assert Holds(ts', n, x, d) && At(ts', n, x).count == count;
    }
  }

  /** Over a kick chain of any length every item keeps its count, except that the one in hand at the end is lost. */
  lemma {:induction false} KickoutConserves(ts: Tables, n: nat, heavy: nat -> bool, entry: Entry, idx: nat, t: nat,
                                            kicks: nat, total: nat)
    returns (lost: Ident, count: nat)
    requires Inv(ts, n, total) && idx < n && t < NUM_TABLES && 0 < entry.count <= total
    requires Absent(ts, n, IdentOf(LobbyAt(t, idx), entry.fp, n))
    ensures Shape(Kickout(ts, n, heavy, entry, idx, t, kicks), n)
    ensures forall d, c ::
              Heavy(Kickout(ts, n, heavy, entry, idx, t, kicks), n, d, c)
              <==> && (Heavy(ts, n, d, c) || (d == IdentOf(LobbyAt(t, idx), entry.fp, n) && c == entry.count))
                   && !(count > 0 && d == lost && c == count)
    decreases kicks
  {
    hide At, Put, AltIdx, Victim, IsPowerOfTwo, Shape, LobbyWaits, Heavy;
    lost, count := IdentOf(LobbyAt(t, idx), entry.fp, n), entry.count;
    if kicks == 0 || !heavy(entry.count) {
      NotThere(ts, n, lost, count);
    } else {
      AltIsInvolutive(entry.fp, idx, n);
      var t', idx' := 1 - t, AltIdx(entry.fp, idx, n);
      ShapeParts(ts, n, t', idx');
      var s := HeavyAt(t', idx', Victim(BucketAt(ts, t', idx')));
      var victim := At(ts, n, s);
      MovedIdent(entry.fp, idx, t, n, s);
      PutAt(ts, n, s, entry);
      PutKeepsUnique(ts, n, s, entry);
      HeavyPutKeepsLobby(ts, n, s, entry);
      var ts1 := Put(ts, n, s, entry);
      forall d, c
        ensures Heavy(ts1, n, d, c)
                <==> || (d == IdentOf(s, entry.fp, n) && c == entry.count)
                     || (Heavy(ts, n, d, c) && !Holds(ts, n, s, d))
      {
        OnePut(ts, n, s, entry, d, c);
      }
      if victim.count == 0 {
        count := 0;
        NobodyIn(ts, n, s);
      } else {
        var v := IdentOf(s, victim.fp, n);
        assert Holds(ts, n, s, v);
        GoneFrom(ts, ts1, n, s, v);
        lost, count := KickoutConserves(ts1, n, heavy, victim, idx', t', kicks - 1, total);
        OnlyCount(ts, n, s, v);
      }
    }
  }

  lemma NotThere(ts: Tables, n: nat, d: Ident, count: nat)
    requires Shape(ts, n) && Absent(ts, n, d)
    ensures forall c :: !Heavy(ts, n, d, c)
  {
    hide At, Shape, AltIdx;
  }

  lemma NobodyIn(ts: Tables, n: nat, s: Slot)
    requires Shape(ts, n) && IsSlot(s, n) && At(ts, n, s).count == 0
    ensures forall d :: !Holds(ts, n, s, d)
  {
  }

  lemma GoneFrom(ts: Tables, ts1: Tables, n: nat, s: Slot, v: Ident)
    requires Shape(ts, n) && Shape(ts1, n) && IsSlot(s, n) && Unique(ts, n)
    requires Holds(ts, n, s, v) && !Holds(ts1, n, s, v)
    requires forall x :: IsSlot(x, n) && x != s ==> At(ts1, n, x) == At(ts, n, x)
    ensures Absent(ts1, n, v)
  {
    hide At, Shape, AltIdx;
    forall x | IsSlot(x, n) ensures !Holds(ts1, n, x, v) {
      assert x != s ==> Holds(ts1, n, x, v) == Holds(ts, n, x, v);
    }
  }

  /** An item has one count. */
  lemma OnlyCount(ts: Tables, n: nat, s: Slot, d: Ident)
    requires Shape(ts, n) && IsSlot(s, n) && s.HeavyAt? && Unique(ts, n) && Holds(ts, n, s, d)
    ensures forall c :: Heavy(ts, n, d, c) <==> c == At(ts, n, s).count
    ensures forall x :: Holds(ts, n, s, x) <==> x == d
  {
    hide At, Shape, AltIdx;
  }

  // ---------------------------------------------------------------- what an update counts

  /** Slot `s` now holds `e`, and every other slot is as before. */
  ghost predicate OneChange(ts: Tables, ts': Tables, n: nat, s: Slot, e: Entry)
    requires Shape(ts, n) && Shape(ts', n)
  {
    IsSlot(s, n) && forall x :: IsSlot(x, n) ==> At(ts', n, x) == if x == s then e else At(ts, n, x)
  }

  /** The lobby entry `l` has become the heavy entry `h`, with the count that was there. */
  ghost predicate Swapped(ts: Tables, ts': Tables, n: nat, l: Slot, h: Slot, fp: nat)
    requires Shape(ts, n) && Shape(ts', n) && IsSlot(h, n)
  {
    forall x :: IsSlot(x, n) ==>
      At(ts', n, x)
      == if x == l then Entry(0, 0) else if x == h then Entry(At(ts, n, h).count, fp) else At(ts, n, x)
  }

  /** The heavy entry `h` is the least in the bucket of the lobby entry `l`. */
  ghost predicate LeastBeside(ts: Tables, n: nat, l: Slot, h: Slot)
    requires Shape(ts, n)
  {
    && IsSlot(h, n) && h.HeavyAt? && h.t == l.t && h.i == l.i
    && IsLeast(h.j, At(ts, n, h).count, At(ts, n, Beside(h)).count)
  }

  /** The promoted item takes the place and the count of `h`, and who was there is kicked on. */
  ghost predicate Promoted(ts: Tables, ts': Tables, n: nat, c: Chance, l: Slot, h: Slot, fp: nat)
    requires Shape(ts, n) && Shape(ts', n) && IsSlot(h, n)
  {
    exists mid: Tables, path: seq<Slot>, hands: seq<Entry> ::
      && Shape(mid, n) && Swapped(ts, mid, n, l, h, fp)
      && KickChain(mid, ts', n, c.heavy, At(ts, n, h), l.t, l.i, MAX_KICKS, path, hands)
  }

  /** An entry of the lobby `l` that has reached `count` is promoted, unless the least heavy entry beside it counts
      more and the draw is against it; then the lobby holds `otherwise`. */
  ghost predicate Contest(ts: Tables, ts': Tables, n: nat, c: Chance, l: Slot, fp: nat, count: nat, otherwise: Entry)
    requires Shape(ts, n) && Shape(ts', n)
  {
    exists h :: LeastBeside(ts, n, l, h) &&
      if At(ts, n, h).count > count && !c.promoted then OneChange(ts, ts', n, l, otherwise)
      else Promoted(ts, ts', n, c, l, h, fp)
  }

  /** An entry of the lobby counts `count` now. */
  ghost predicate Waits(ts: Tables, ts': Tables, n: nat, c: Chance, l: Slot, fp: nat, count: nat)
    requires Shape(ts, n) && Shape(ts', n)
  {
    if count < LOBBY_PROMOTION_THRESHOLD then OneChange(ts, ts', n, l, Entry(count, fp))
    else Contest(ts, ts', n, c, l, fp, count, Entry(LOBBY_PROMOTION_THRESHOLD, fp))
  }

  /** The entry in the lobby decays; it is replaced by the new item only when nothing is left of it. */
  ghost predicate Decayed(ts: Tables, ts': Tables, n: nat, c: Chance, l: Slot, fp: nat)
    requires Shape(ts, n) && Shape(ts', n) && IsSlot(l, n)
  {
    var e := if c.decayed == 0 then Entry(c.fresh_, fp) else Entry(c.decayed, At(ts, n, l).fp);
    if e.count < LOBBY_PROMOTION_THRESHOLD then OneChange(ts, ts', n, l, e)
    else Contest(ts, ts', n, c, l, e.fp, e.count, e)
  }

  /** Position of a slot in the search: table 0 before table 1. */
  function Order(s: Slot): nat {
    if s.HeavyAt? then 2 * s.t + s.j else s.t
  }

  /** `s` is the first empty one among the heavy slots, or among the lobby slots, in which the item could be. */
  ghost predicate FirstFree(ts: Tables, n: nat, d: Ident, s: Slot)
    requires Shape(ts, n)
  {
    && IsSlot(s, n) && At(ts, n, s).count == 0 && IdentOf(s, d.fp, n) == d
    && forall x :: IsSlot(x, n) && x.HeavyAt? == s.HeavyAt? && IdentOf(x, d.fp, n) == d && Order(x) < Order(s) ==>
         At(ts, n, x).count > 0
  }

  /** No heavy slot, or no lobby slot, is free for the item. */
  ghost predicate NoneFree(ts: Tables, n: nat, d: Ident, lobby: bool)
    requires Shape(ts, n)
  {
    forall x :: IsSlot(x, n) && x.LobbyAt? == lobby && IdentOf(x, d.fp, n) == d ==> At(ts, n, x).count > 0
  }

  /** What an update with a positive weight does, by where the item is. */
  ghost predicate Counted(ts: Tables, ts': Tables, n: nat, c: Chance, d: Ident, weight: nat)
    requires Shape(ts, n) && Shape(ts', n)
  {
    && (forall s :: IsSlot(s, n) && s.HeavyAt? && Holds(ts, n, s, d) ==>
          OneChange(ts, ts', n, s, Entry(At(ts, n, s).count + weight, d.fp)))
    && (forall s :: IsSlot(s, n) && s.LobbyAt? && Holds(ts, n, s, d) ==>
          Waits(ts, ts', n, c, s, d.fp, At(ts, n, s).count + weight))
    && (Absent(ts, n, d) ==>
          && (forall s :: FirstFree(ts, n, d, s) && s.HeavyAt? ==> OneChange(ts, ts', n, s, Entry(weight, d.fp)))
          && (NoneFree(ts, n, d, false) ==>
                && (forall s :: FirstFree(ts, n, d, s) && s.LobbyAt? ==> Waits(ts, ts', n, c, s, d.fp, weight))
                && (NoneFree(ts, n, d, true) ==>
                      forall s :: IsSlot(s, n) && s.LobbyAt? && s.t == d.fp % 2 && IdentOf(s, d.fp, n) == d ==>
                        Decayed(ts, ts', n, c, s, d.fp))))
  }

  // ---------------------------------------------------------------- heavy entries

  lemma PutIsOneChange(ts: Tables, n: nat, s: Slot, e: Entry)
    requires Shape(ts, n) && IsSlot(s, n)
    ensures Shape(Put(ts, n, s, e), n) && OneChange(ts, Put(ts, n, s, e), n, s, e)
  {
    hide At, Put, Shape;
    PutAt(ts, n, s, e);
  }

  lemma HeavyCounted(ts: Tables, n: nat, c: Chance, item: Item, weight: nat, s: Slot, total: nat)
    requires Inv(ts, n, total) && ValidItem(item, n) && item.idx1 < n && weight > 0
    requires IsSlot(s, n) && s.HeavyAt? && Holds(ts, n, s, Ident(item.fp, item.idx0))
    ensures var ts' := Update(ts, n, c, item, weight);
            Shape(ts', n) && OneChange(ts, ts', n, s, Entry(At(ts, n, s).count + weight, item.fp))
  {
    hide At, Put, Shape, FirstEmpty, FirstMatch, AltIdx, IsPowerOfTwo, LobbyWaits, BumpLobby, EnterLobby, DecayLobby;
    var d := Ident(item.fp, item.idx0);
    var k := FirstMatch(ts, n, item, 0);
    InItsBuckets(item, n, s);
    SlotOfPosition(item, s);
    assert Matches(At(ts, n, HeavySlot(item, 2 * s.t + s.j)), item.fp);
    var s' := HeavySlot(item, k);
    InItsBuckets(item, n, s');
    assert Holds(ts, n, s', d);
    PutIsOneChange(ts, n, s, Entry(At(ts, n, s).count + weight, item.fp));
  }

  lemma NewHeavyCounted(ts: Tables, n: nat, c: Chance, item: Item, weight: nat, s: Slot, total: nat)
    requires Inv(ts, n, total) && ValidItem(item, n) && item.idx1 < n && weight > 0
    requires Absent(ts, n, Ident(item.fp, item.idx0)) && FirstFree(ts, n, Ident(item.fp, item.idx0), s) && s.HeavyAt?
    ensures var ts' := Update(ts, n, c, item, weight);
            Shape(ts', n) && OneChange(ts, ts', n, s, Entry(weight, item.fp))
  {
    hide At, Put, Shape, FirstEmpty, FirstMatch, AltIdx, IsPowerOfTwo, LobbyWaits, BumpLobby, EnterLobby, DecayLobby;
    FoundIffTracked(ts, n, item);
    InItsBuckets(item, n, s);
    SlotOfPosition(item, s);
    FirstEmptyIs(ts, n, item, s);
    PutIsOneChange(ts, n, s, Entry(weight, item.fp));
  }

  lemma FirstEmptyIs(ts: Tables, n: nat, item: Item, s: Slot)
    requires Shape(ts, n) && IsPowerOfTwo(n) && ValidItem(item, n) && item.idx1 < n
    requires FirstFree(ts, n, Ident(item.fp, item.idx0), s) && s.HeavyAt?
    ensures FirstEmpty(ts, n, item, 0) == Order(s) && HeavySlot(item, Order(s)) == s
  {
    hide At, Shape, FirstEmpty, AltIdx, IsPowerOfTwo;
    InItsBuckets(item, n, s);
    SlotOfPosition(item, s);
    assert At(ts, n, HeavySlot(item, Order(s))).count == 0;
    forall k | 0 <= k < Order(s) ensures At(ts, n, HeavySlot(item, k)).count > 0 {
      var x := HeavySlot(item, k);
      InItsBuckets(item, n, x);
      assert IsSlot(x, n) && Order(x) == k;
    }
  }

  // ---------------------------------------------------------------- promotion

  /** A promotion from the lobby of a full bucket. */
  lemma PromoteCounted(ts: Tables, n: nat, c: Chance, item: Item, count: nat, t: nat) returns (h: Slot)
    requires Shape(ts, n) && IsPowerOfTwo(n) && item.idx0 < n && item.idx1 < n && t < NUM_TABLES
    requires Full(ts, n, t, IdxIn(item, t))
    ensures var l := LobbyAt(t, IdxIn(item, t));
            var p := TryPromote(ts, n, c, item, count, t);
            && LeastBeside(ts, n, l, h) && Shape(p.0, n)
            && if At(ts, n, h).count > count && !c.promoted then p == (ts, HEAVY_ENTRIES)
               else p.1 < HEAVY_ENTRIES && Promoted(ts, p.0, n, c, l, h, At(ts, n, l).fp)
  {
    hide At, Put, Shape, AltIdx, IsPowerOfTwo, Kickout, Victim, KickChain;
    var i := IdxIn(item, t);
    ShapeParts(ts, n, t, i);
    VictimIsLeast(ts, n, t, i);
    var j := Victim(BucketAt(ts, t, i));
    var l := LobbyAt(t, i);
    h := HeavyAt(t, i, j);
    var victim := At(ts, n, h);
    if !(victim.count > count && !c.promoted) {
      var e := Entry(victim.count, At(ts, n, l).fp);
      PutAt(ts, n, h, e);
      var ts1 := Put(ts, n, h, e);
      PutAt(ts1, n, l, Entry(0, 0));
      var mid := Put(ts1, n, l, Entry(0, 0));
      assert Swapped(ts, mid, n, l, h, At(ts, n, l).fp);
      var path, hands := KickoutIsChain(mid, n, c.heavy, victim, i, t, MAX_KICKS);
    }
  }

  // ---------------------------------------------------------------- lobby entries

  lemma ContestFrom(ts: Tables, ts1: Tables, ts': Tables, n: nat, c: Chance, l: Slot, h: Slot, fp: nat, count: nat,
                    was: Entry, otherwise: Entry)
    requires Shape(ts, n) && Shape(ts1, n) && Shape(ts', n) && IsSlot(l, n) && l.LobbyAt?
    requires OneChange(ts, ts1, n, l, was) && LeastBeside(ts1, n, l, h)
    requires if At(ts1, n, h).count > count && !c.promoted then OneChange(ts1, ts', n, l, otherwise)
             else Promoted(ts1, ts', n, c, l, h, fp)
    ensures Contest(ts, ts', n, c, l, fp, count, otherwise)
  {
    hide At, Shape, KickChain;
    assert LeastBeside(ts, n, l, h);
    if At(ts1, n, h).count > count && !c.promoted {
      assert OneChange(ts, ts', n, l, otherwise);
    } else {
      var mid: Tables, path: seq<Slot>, hands: seq<Entry> :|
        && Shape(mid, n) && Swapped(ts1, mid, n, l, h, fp)
        && KickChain(mid, ts', n, c.heavy, At(ts1, n, h), l.t, l.i, MAX_KICKS, path, hands);
      assert Swapped(ts, mid, n, l, h, fp);
      assert Promoted(ts, ts', n, c, l, h, fp);
    }
  }

  lemma NothingPut(ts: Tables, n: nat, s: Slot)
    requires Shape(ts, n) && IsSlot(s, n)
    ensures OneChange(ts, ts, n, s, At(ts, n, s))
  {
    hide At, Shape;
  }

  lemma BumpCounted(ts: Tables, n: nat, c: Chance, item: Item, weight: nat, t: nat)
    requires Shape(ts, n) && IsPowerOfTwo(n) && ValidItem(item, n) && item.idx1 < n && t < NUM_TABLES
    requires Full(ts, n, t, IdxIn(item, t)) && Matches(At(ts, n, LobbyAt(t, IdxIn(item, t))), item.fp)
    ensures var l := LobbyAt(t, IdxIn(item, t));
            var ts' := BumpLobby(ts, n, c, item, weight, t).0;
            Shape(ts', n) && Waits(ts, ts', n, c, l, item.fp, At(ts, n, l).count + weight)
  {
    hide At, Put, Shape, AltIdx, IsPowerOfTwo, TryPromote, Promoted, OneChange, LeastBeside, Contest, Full;
    var l := LobbyAt(t, IdxIn(item, t));
    var e := At(ts, n, l);
    var count := e.count + weight;
    if count < LOBBY_PROMOTION_THRESHOLD {
      PutIsOneChange(ts, n, l, e.(count := count));
    } else {
      var h := PromoteCounted(ts, n, c, item, count, t);
      LeastIsSlot(ts, n, l, h);
      PutIsOneChange(ts, n, l, e.(count := LOBBY_PROMOTION_THRESHOLD));
      NothingPut(ts, n, l);
      ContestFrom(ts, ts, BumpLobby(ts, n, c, item, weight, t).0, n, c, l, h, item.fp, count, e,
                  Entry(LOBBY_PROMOTION_THRESHOLD, item.fp));
    }
  }

  lemma LeastIsSlot(ts: Tables, n: nat, l: Slot, h: Slot)
    requires Shape(ts, n) && LeastBeside(ts, n, l, h)
    ensures IsSlot(h, n) && h.HeavyAt?
  {
  }

  lemma SameFull(ts: Tables, ts1: Tables, n: nat, t: nat, i: nat, e: Entry)
    requires Shape(ts, n) && Shape(ts1, n) && t < NUM_TABLES && i < n && OneChange(ts, ts1, n, LobbyAt(t, i), e)
    ensures Full(ts1, n, t, i) == Full(ts, n, t, i) && At(ts1, n, LobbyAt(t, i)) == e
  {
    hide At, Shape;
  }

  lemma TwoPuts(ts: Tables, ts1: Tables, ts': Tables, n: nat, s: Slot, a: Entry, b: Entry)
    requires Shape(ts, n) && Shape(ts1, n) && Shape(ts', n)
    requires OneChange(ts, ts1, n, s, a) && OneChange(ts1, ts', n, s, b)
    ensures OneChange(ts, ts', n, s, b)
  {
    hide At, Shape;
  }

  lemma EnterCounted(ts: Tables, n: nat, c: Chance, item: Item, weight: nat, t: nat)
    requires Shape(ts, n) && IsPowerOfTwo(n) && ValidItem(item, n) && item.idx1 < n && t < NUM_TABLES
    requires Full(ts, n, t, IdxIn(item, t))
    ensures var l := LobbyAt(t, IdxIn(item, t));
            var ts' := EnterLobby(ts, n, c, item, weight, t).0;
            Shape(ts', n) && Waits(ts, ts', n, c, l, item.fp, weight)
  {
    hide At, Put, Shape, AltIdx, IsPowerOfTwo, TryPromote, Promoted, OneChange, LeastBeside, Contest, Full;
    var l := LobbyAt(t, IdxIn(item, t));
    var e := At(ts, n, l).(fp := item.fp);
    PutIsOneChange(ts, n, l, e);
    var named := Put(ts, n, l, e);
    SameFull(ts, named, n, t, l.i, e);
    if weight < LOBBY_PROMOTION_THRESHOLD {
      PutIsOneChange(named, n, l, Entry(weight, item.fp));
      TwoPuts(ts, named, Put(named, n, l, Entry(weight, item.fp)), n, l, e, Entry(weight, item.fp));
    } else {
      var h := PromoteCounted(named, n, c, item, weight, t);
      LeastIsSlot(named, n, l, h);
      PutIsOneChange(named, n, l, Entry(LOBBY_PROMOTION_THRESHOLD, item.fp));
      ContestFrom(ts, named, EnterLobby(ts, n, c, item, weight, t).0, n, c, l, h, item.fp, weight, e,
                  Entry(LOBBY_PROMOTION_THRESHOLD, item.fp));
    }
  }

  lemma DecayCounted(ts: Tables, n: nat, c: Chance, item: Item)
    requires Shape(ts, n) && IsPowerOfTwo(n) && ValidItem(item, n) && item.idx1 < n
    requires Full(ts, n, item.fp % 2, IdxIn(item, item.fp % 2))
    ensures var l := LobbyAt(item.fp % 2, IdxIn(item, item.fp % 2));
            var ts' := DecayLobby(ts, n, c, item).0;
            Shape(ts', n) && Decayed(ts, ts', n, c, l, item.fp)
  {
    hide At, Put, Shape, AltIdx, IsPowerOfTwo, TryPromote, Promoted, OneChange, LeastBeside, Contest, Full;
    var t := item.fp % 2;
    var l := LobbyAt(t, IdxIn(item, t));
    var e := if c.decayed == 0 then Entry(c.fresh_, item.fp) else Entry(c.decayed, At(ts, n, l).fp);
    PutIsOneChange(ts, n, l, e);
    var ts1 := Put(ts, n, l, e);
    SameFull(ts, ts1, n, t, l.i, e);
    if e.count >= LOBBY_PROMOTION_THRESHOLD {
      var h := PromoteCounted(ts1, n, c, item, e.count, t);
      LeastIsSlot(ts1, n, l, h);
      NothingPut(ts1, n, l);
      ContestFrom(ts, ts1, DecayLobby(ts, n, c, item).0, n, c, l, h, e.fp, e.count, e, e);
    }
  }

  // ---------------------------------------------------------------- the whole update

  lemma LobbyCounted(ts: Tables, n: nat, c: Chance, item: Item, weight: nat, s: Slot, total: nat)
    requires Inv(ts, n, total) && ValidItem(item, n) && item.idx1 < n && weight > 0
    requires IsSlot(s, n) && s.LobbyAt? && Holds(ts, n, s, Ident(item.fp, item.idx0))
    ensures var ts' := Update(ts, n, c, item, weight);
            Shape(ts', n) && Waits(ts, ts', n, c, s, item.fp, At(ts, n, s).count + weight)
  {
    hide At, Put, Shape, AltIdx, IsPowerOfTwo, FirstMatch, FirstEmpty, BumpLobby, EnterLobby, DecayLobby;
    hide Waits, LobbyOf;
    hide EmptyLobbyOf;
    var d := Ident(item.fp, item.idx0);
    InItsBuckets(item, n, s);
    assert Matches(At(ts, n, LobbyAt(s.t, IdxIn(item, s.t))), item.fp);
    NotHeavyWhenWaiting(ts, n, item, s);
    var t := LobbyOf(ts, n, item);
    assert t < NUM_TABLES;
    var l := LobbyAt(t, IdxIn(item, t));
    InItsBuckets(item, n, l);
    assert Holds(ts, n, l, d) && l == s;
    assert WaitsForGood(ts, n, s.t, s.i);
    BumpCounted(ts, n, c, item, weight, t);
  }

  lemma NotHeavyWhenWaiting(ts: Tables, n: nat, item: Item, s: Slot)
    requires Shape(ts, n) && IsPowerOfTwo(n) && Unique(ts, n) && LobbyWaits(ts, n)
    requires ValidItem(item, n) && item.idx1 < n
    requires IsSlot(s, n) && s.LobbyAt? && Holds(ts, n, s, Ident(item.fp, item.idx0))
    ensures FirstMatch(ts, n, item, 0) == 4 && FirstEmpty(ts, n, item, 0) == 4
  {
    hide At, Shape, AltIdx, IsPowerOfTwo, FirstMatch, FirstEmpty, LobbyOf;
    var d := Ident(item.fp, item.idx0);
    forall k | 0 <= k < 4 ensures !Matches(At(ts, n, HeavySlot(item, k)), item.fp) {
      InItsBuckets(item, n, HeavySlot(item, k));
      assert Matches(At(ts, n, HeavySlot(item, k)), item.fp) ==> Holds(ts, n, HeavySlot(item, k), d);
    }
    InItsBuckets(item, n, s);
    if FirstEmpty(ts, n, item, 0) < 4 { NotWaiting(ts, n, item); }
  }

  lemma AbsentMeans(ts: Tables, n: nat, item: Item)
    requires Shape(ts, n) && IsPowerOfTwo(n) && ValidItem(item, n) && item.idx1 < n
    requires Absent(ts, n, Ident(item.fp, item.idx0)) && NoneFree(ts, n, Ident(item.fp, item.idx0), false)
    ensures FirstMatch(ts, n, item, 0) == 4 && FirstEmpty(ts, n, item, 0) == 4 && LobbyOf(ts, n, item) == NUM_TABLES
    ensures Full(ts, n, 0, item.idx0) && Full(ts, n, 1, item.idx1)
  {
    hide At, Shape, AltIdx, IsPowerOfTwo, FirstMatch, FirstEmpty, LobbyOf;
    FoundIffTracked(ts, n, item);
    forall k | 0 <= k < 4 ensures At(ts, n, HeavySlot(item, k)).count > 0 {
      InItsBuckets(item, n, HeavySlot(item, k));
      assert IsSlot(HeavySlot(item, k), n);
    }
    AllFull(ts, n, item);
  }

  lemma EnteringCounted(ts: Tables, n: nat, c: Chance, item: Item, weight: nat, s: Slot, total: nat)
    requires Inv(ts, n, total) && ValidItem(item, n) && item.idx1 < n && weight > 0
    requires Absent(ts, n, Ident(item.fp, item.idx0)) && NoneFree(ts, n, Ident(item.fp, item.idx0), false)
    requires FirstFree(ts, n, Ident(item.fp, item.idx0), s) && s.LobbyAt?
    ensures var ts' := Update(ts, n, c, item, weight); Shape(ts', n) && Waits(ts, ts', n, c, s, item.fp, weight)
  {
    hide At, Put, Shape, AltIdx, IsPowerOfTwo, FirstMatch, FirstEmpty, BumpLobby, EnterLobby, DecayLobby;
    hide Waits, LobbyOf;
    hide EmptyLobbyOf, Absent;
    AbsentMeans(ts, n, item);
    InItsBuckets(item, n, s);
    var u := EmptyLobbyOf(ts, n, item);
    if u < NUM_TABLES { InItsBuckets(item, n, LobbyAt(u, IdxIn(item, u))); }
    assert At(ts, n, LobbyAt(s.t, IdxIn(item, s.t))).count == 0;
    assert u == s.t;
    EnterCounted(ts, n, c, item, weight, u);
  }

  lemma DecayingCounted(ts: Tables, n: nat, c: Chance, item: Item, weight: nat, s: Slot, total: nat)
    requires Inv(ts, n, total) && ValidItem(item, n) && item.idx1 < n && weight > 0
    requires Absent(ts, n, Ident(item.fp, item.idx0)) && NoneFree(ts, n, Ident(item.fp, item.idx0), false)
    requires NoneFree(ts, n, Ident(item.fp, item.idx0), true)
    requires IsSlot(s, n) && s.LobbyAt? && s.t == item.fp % 2
    requires IdentOf(s, item.fp, n) == Ident(item.fp, item.idx0)
    ensures var ts' := Update(ts, n, c, item, weight); Shape(ts', n) && Decayed(ts, ts', n, c, s, item.fp)
  {
    hide At, Put, Shape, AltIdx, IsPowerOfTwo, FirstMatch, FirstEmpty, BumpLobby, EnterLobby, DecayLobby, Decayed;
    hide EmptyLobbyOf, Absent, LobbyOf;
    AbsentMeans(ts, n, item);
    InItsBuckets(item, n, s);
    var u := EmptyLobbyOf(ts, n, item);
    if u < NUM_TABLES { InItsBuckets(item, n, LobbyAt(u, IdxIn(item, u))); }
    DecayCounted(ts, n, c, item);
  }

  /** Every update counts, in every state: the item that is updated grows by the weight where it is, a new one starts
      with it, and nothing but promotion and decay touches anyone else. */
  lemma UpdateCounts(ts: Tables, n: nat, c: Chance, item: Item, weight: nat, total: nat)
    requires Inv(ts, n, total) && ValidItem(item, n) && item.idx1 < n && weight > 0
    requires Shape(Update(ts, n, c, item, weight), n)
    ensures Counted(ts, Update(ts, n, c, item, weight), n, c, Ident(item.fp, item.idx0), weight)
  {
    hide At, Shape, AltIdx, IsPowerOfTwo, Update, Waits, Decayed, OneChange, Absent, FirstFree, NoneFree;
    hide Unique, LobbyWaits, Bounded;
    var d := Ident(item.fp, item.idx0);
    var ts' := Update(ts, n, c, item, weight);
    forall s | IsSlot(s, n) && s.HeavyAt? && Holds(ts, n, s, d)
      ensures OneChange(ts, ts', n, s, Entry(At(ts, n, s).count + weight, d.fp))
    {
      HeavyCounted(ts, n, c, item, weight, s, total);
    }
    forall s | IsSlot(s, n) && s.LobbyAt? && Holds(ts, n, s, d)
      ensures Waits(ts, ts', n, c, s, d.fp, At(ts, n, s).count + weight)
    {
      LobbyCounted(ts, n, c, item, weight, s, total);
    }
    if Absent(ts, n, d) {
      forall s | FirstFree(ts, n, d, s) && s.HeavyAt? ensures OneChange(ts, ts', n, s, Entry(weight, d.fp)) {
        NewHeavyCounted(ts, n, c, item, weight, s, total);
      }
      if NoneFree(ts, n, d, false) {
        forall s | FirstFree(ts, n, d, s) && s.LobbyAt? ensures Waits(ts, ts', n, c, s, d.fp, weight) {
          EnteringCounted(ts, n, c, item, weight, s, total);
        }
        if NoneFree(ts, n, d, true) {
          forall s | IsSlot(s, n) && s.LobbyAt? && s.t == d.fp % 2 && IdentOf(s, d.fp, n) == d
            ensures Decayed(ts, ts', n, c, s, d.fp)
          {
            DecayingCounted(ts, n, c, item, weight, s, total);
          }
        }
      }
    }
  }
}
