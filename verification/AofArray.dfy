/** Rewriting an array through its directory and slices (`aofEmitArrayElement`, `aofEmitSliceElements`,
    `rewriteArrayObject`). */
module AofArray {
  import opened Decimal
  import opened AofCodec
  import opened AofLoader
  import opened AofRepair
  import opened AofRewrite

  const SUPER_BLOCK_SLOTS := 2048

  datatype Cell = Empty | Value(text: string)

  /** A window of cells, or a list of offsets with their values. */
  datatype Slice = Dense(offset: nat, cells: seq<Cell>) | Sparse(entries: seq<Slot>)

  datatype Place = NoSlice | At(slice: Slice)

  datatype Block = Block(id: nat, slots: seq<Place>)

  datatype Directory = Flat(slots: seq<Place>) | Super(blocks: seq<Block>)

  datatype Array = Array(dir: Directory, sliceSize: nat, insertIdx: int)

  /** `arMakeIdx`. */
  function MakeIdx(id: nat, off: nat, size: nat): nat {
    id * size + off
  }

  // ---------------------------------------------------------------- the order of the iteration

  function DenseSlots(base: nat, cells: seq<Cell>): seq<Slot> {
    if cells == [] then []
    else
      var n := |cells| - 1;
      DenseSlots(base, cells[..n]) + if cells[n].Empty? then [] else [Slot(base + n, cells[n].text)]
  }

  function SparseSlots(base: nat, entries: seq<Slot>): seq<Slot> {
    if entries == [] then []
    else
      var n := |entries| - 1;
      SparseSlots(base, entries[..n]) + [Slot(base + entries[n].idx, entries[n].value)]
  }

  function SliceSlots(p: Place, id: nat, size: nat): seq<Slot> {
    match p
    case NoSlice => []
    case At(Dense(offset, cells)) => DenseSlots(MakeIdx(id, offset, size), cells)
    case At(Sparse(entries)) => SparseSlots(MakeIdx(id, 0, size), entries)
  }

  function SlotsFrom(places: seq<Place>, first: nat, size: nat): seq<Slot> {
    if places == [] then []
    else
      var n := |places| - 1;
      SlotsFrom(places[..n], first, size) + SliceSlots(places[n], first + n, size)
  }

  function BlockSlots(blocks: seq<Block>, size: nat): seq<Slot> {
    if blocks == [] then []
    else
      var n := |blocks| - 1;
      BlockSlots(blocks[..n], size) + SlotsFrom(blocks[n].slots, blocks[n].id * SUPER_BLOCK_SLOTS, size)
  }

  function ArraySlots(a: Array): seq<Slot> {
    match a.dir
    case Flat(slots) => SlotsFrom(slots, 0, a.sliceSize)
    case Super(blocks) => BlockSlots(blocks, a.sliceSize)
  }

  // ---------------------------------------------------------------- the loops

  const PAIRS := ITEMS_PER_COMMAND / 2

  /** `done` slots of `all` have been emitted. */
  ghost predicate SlotsEmitted(out: string, key: string, all: seq<Slot>, done: seq<Slot>, count: nat, items: int) {
    done <= all && Emitted(out, "ARMSET", key, SlotArgs(all), 2, PAIRS, |done|, count, items)
  }

  method EmitSlot(out0: string, key: string, slot: Slot, count0: nat, items0: int, ghost all: seq<Slot>,
                  ghost done: seq<Slot>)
    returns (out: string, count: nat, items: int)
    requires SlotsEmitted(out0, key, all, done, count0, items0) && done + [slot] <= all
    ensures SlotsEmitted(out, key, all, done + [slot], count, items)
  {
    hide Emitted, Print;
    assert all[|done|] == (done + [slot])[|done|] == slot;
    var elem := [Print(slot.idx), slot.value];
    assert SlotArgs(all)[|done|] == elem;
    out, count, items := EmitElement(out0, "ARMSET", key, elem, count0, items0, SlotArgs(all), 2, PAIRS, |done|);
  }

  method EmitDense(out0: string, key: string, offset: nat, cells: seq<Cell>, id: nat, size: nat, count0: nat,
                   items0: int,
                   ghost all: seq<Slot>, ghost done: seq<Slot>)
    returns (out: string, count: nat, items: int)
    requires SlotsEmitted(out0, key, all, done, count0, items0)
    requires done + DenseSlots(MakeIdx(id, offset, size), cells) <= all
    ensures SlotsEmitted(out, key, all, done + DenseSlots(MakeIdx(id, offset, size), cells), count, items)
  {
    hide SlotsEmitted, MakeIdx, DenseSlots;
    out, count, items := out0, count0, items0;
    ghost var base := MakeIdx(id, offset, size);
    NoCells(base);
    assert cells[..0] == [] && done + [] == done;
    for i := 0 to |cells|
      invariant count >= 0 && SlotsEmitted(out, key, all, done + DenseSlots(base, cells[..i]), count, items)
    {
      ghost var sofar := done + DenseSlots(base, cells[..i]);
      DenseGrows(base, cells, i);
      if cells[i].Empty? {
        assert DenseSlots(base, cells[..i]) + [] == DenseSlots(base, cells[..i]);
        continue;
      }
      var slot := Slot(MakeIdx(id, offset + i, size), cells[i].text);
      NextIdx(id, offset, i, size);
      assert done + DenseSlots(base, cells[..i + 1]) == sofar + [slot];
      DensePrefix(base, cells, i + 1);
      PrefixOfAll(all, done, DenseSlots(base, cells), DenseSlots(base, cells[..i + 1]));
      out, count, items := EmitSlot(out, key, slot, count, items, all, sofar);
    }
    assert cells[..|cells|] == cells;
  }

  lemma NextIdx(id: nat, offset: nat, i: nat, size: nat)
    ensures MakeIdx(id, offset + i, size) == MakeIdx(id, offset, size) + i
  {
  }

  lemma NoCells(base: nat)
    ensures DenseSlots(base, []) == [] && SparseSlots(base, []) == []
  {
  }

  method EmitSparse(out0: string, key: string, entries: seq<Slot>, id: nat, size: nat, count0: nat, items0: int,
                    ghost all: seq<Slot>, ghost done: seq<Slot>)
    returns (out: string, count: nat, items: int)
    requires SlotsEmitted(out0, key, all, done, count0, items0)
    requires done + SparseSlots(MakeIdx(id, 0, size), entries) <= all
    ensures SlotsEmitted(out, key, all, done + SparseSlots(MakeIdx(id, 0, size), entries), count, items)
  {
    hide SlotsEmitted, MakeIdx, SparseSlots;
    out, count, items := out0, count0, items0;
    ghost var base := MakeIdx(id, 0, size);
    NoCells(base);
    assert entries[..0] == [] && done + [] == done;
    for i := 0 to |entries|
      invariant count >= 0 && SlotsEmitted(out, key, all, done + SparseSlots(base, entries[..i]), count, items)
    {
      ghost var sofar := done + SparseSlots(base, entries[..i]);
      SparseGrows(base, entries, i);
      var slot := Slot(MakeIdx(id, entries[i].idx, size), entries[i].value);
      NextIdx(id, 0, entries[i].idx, size);
      assert done + SparseSlots(base, entries[..i + 1]) == sofar + [slot];
      SparsePrefix(base, entries, i + 1);
      PrefixOfAll(all, done, SparseSlots(base, entries), SparseSlots(base, entries[..i + 1]));
      out, count, items := EmitSlot(out, key, slot, count, items, all, sofar);
    }
    assert entries[..|entries|] == entries;
  }

  method EmitSlice(out0: string, key: string, slice: Slice, id: nat, size: nat, count0: nat, items0: int,
                   ghost all: seq<Slot>, ghost done: seq<Slot>)
    returns (out: string, count: nat, items: int)
    requires SlotsEmitted(out0, key, all, done, count0, items0) && done + SliceSlots(At(slice), id, size) <= all
    ensures SlotsEmitted(out, key, all, done + SliceSlots(At(slice), id, size), count, items)
  {
    hide SlotsEmitted, MakeIdx, DenseSlots, SparseSlots;
    match slice {
      case Dense(offset, cells) =>
        out, count, items := EmitDense(out0, key, offset, cells, id, size, count0, items0, all, done);
      case Sparse(entries) =>
        out, count, items := EmitSparse(out0, key, entries, id, size, count0, items0, all, done);
    }
  }

  method EmitPlaces(out0: string, key: string, places: seq<Place>, first: nat, size: nat, count0: nat, items0: int,
                    ghost all: seq<Slot>, ghost done: seq<Slot>)
    returns (out: string, count: nat, items: int)
    requires SlotsEmitted(out0, key, all, done, count0, items0) && done + SlotsFrom(places, first, size) <= all
    ensures SlotsEmitted(out, key, all, done + SlotsFrom(places, first, size), count, items)
  {
    hide SlotsEmitted, SliceSlots;
    out, count, items := out0, count0, items0;
    assert SlotsFrom(places[..0], first, size) == [] && done + [] == done;
    for i := 0 to |places|
      invariant count >= 0 && SlotsEmitted(out, key, all, done + SlotsFrom(places[..i], first, size), count, items)
    {
      ghost var sofar := done + SlotsFrom(places[..i], first, size);
      PlacesGrow(places, first, size, i);
      assert done + SlotsFrom(places[..i + 1], first, size) == sofar + SliceSlots(places[i], first + i, size);
      if places[i].NoSlice? {
        NoSlotsHere(first + i, size);
        assert sofar + [] == sofar;
        continue;
      }
      PlacesPrefix(places, first, size, i + 1);
      PrefixOfAll(all, done, SlotsFrom(places, first, size), SlotsFrom(places[..i + 1], first, size));
      out, count, items := EmitSlice(out, key, places[i].slice, first + i, size, count, items, all, sofar);
    }
    assert places[..|places|] == places;
  }

  /** `rewriteArrayObject`, for an array whose element count is right. */
  method RewriteArrayObject(key: string, a: Array, elements: nat) returns (out: string)
    requires a.insertIdx >= -1 && elements == |ArraySlots(a)|
    ensures out == EncodeAll(ArrayCommands(key, ArraySlots(a), a.insertIdx))
  {
    hide EncodeCommand, Batches, SlotArgs, SlotsEmitted, SlotsFrom, Emitted;
    if elements == 0 { return ""; }
    ghost var all := ArraySlots(a);
    out := "";
    var count, items := 0, elements;
    StartEmitted(key, all);
    match a.dir {
      case Flat(slots) =>
        assert [] + SlotsFrom(slots, 0, a.sliceSize) == all;
        out, count, items := EmitPlaces(out, key, slots, 0, a.sliceSize, count, items, all, []);
      case Super(blocks) =>
        for i := 0 to |blocks|
          invariant count >= 0 && SlotsEmitted(out, key, all, BlockSlots(blocks[..i], a.sliceSize), count, items)
        {
          BlocksGrow(blocks, a.sliceSize, i);
          BlocksPrefix(blocks, a.sliceSize, i + 1);
          out, count, items := EmitPlaces(out, key, blocks[i].slots, blocks[i].id * SUPER_BLOCK_SLOTS,
                                          a.sliceSize, count, items,
                                          all, BlockSlots(blocks[..i], a.sliceSize));
        }
        assert blocks[..|blocks|] == blocks;
    }
    EndEmitted(out, key, all, count, items);
    var batches := Batches("ARMSET", key, SlotArgs(all), PAIRS);
    if a.insertIdx != -1 {
      var seek := ["ARSEEK", key, Print(a.insertIdx + 1)];
      EncodeAllGrows(batches, seek);
      out := CatAppendOnlyGenericCommand(out, seek);
    } else {
      assert batches + [] == batches;
    }
  }

  lemma StartEmitted(key: string, all: seq<Slot>)
    ensures SlotsEmitted("", key, all, [], 0, |all|)
  {
    hide Emitted;
    NothingYet("ARMSET", key, SlotArgs(all), 2, PAIRS);
  }

  lemma EndEmitted(out: string, key: string, all: seq<Slot>, count: nat, items: int)
    requires SlotsEmitted(out, key, all, all, count, items)
    ensures out == EncodeAll(Batches("ARMSET", key, SlotArgs(all), PAIRS))
  {
    hide Emitted;
    AllEmitted(out, "ARMSET", key, SlotArgs(all), 2, PAIRS, count, items);
  }

  lemma PrefixOfAll(all: seq<Slot>, done: seq<Slot>, whole: seq<Slot>, part: seq<Slot>)
    requires done + whole <= all && part <= whole
    ensures done + part <= all
  {
    assert done + part == (done + whole)[..|done| + |part|];
  }

  lemma DenseGrows(base: nat, cells: seq<Cell>, i: nat)
    requires i < |cells|
    ensures DenseSlots(base, cells[..i + 1])
            == DenseSlots(base, cells[..i]) + if cells[i].Empty? then [] else [Slot(base + i, cells[i].text)]
  {
    assert cells[..i + 1][..i] == cells[..i] && cells[..i + 1][i] == cells[i];
  }

  lemma {:induction false} DensePrefix(base: nat, cells: seq<Cell>, n: nat)
    requires n <= |cells|
    ensures DenseSlots(base, cells[..n]) <= DenseSlots(base, cells)
    decreases |cells|
  {
    if n == |cells| {
      assert cells[..n] == cells;
    } else {
      DensePrefix(base, cells[..|cells| - 1], n);
      assert cells[..|cells| - 1][..n] == cells[..n];
    }
  }

  lemma SparseGrows(base: nat, entries: seq<Slot>, i: nat)
    requires i < |entries|
    ensures SparseSlots(base, entries[..i + 1])
            == SparseSlots(base, entries[..i]) + [Slot(base + entries[i].idx, entries[i].value)]
  {
    assert entries[..i + 1][..i] == entries[..i] && entries[..i + 1][i] == entries[i];
  }

  lemma {:induction false} SparsePrefix(base: nat, entries: seq<Slot>, n: nat)
    requires n <= |entries|
    ensures SparseSlots(base, entries[..n]) <= SparseSlots(base, entries)
    decreases |entries|
  {
    if n == |entries| {
      assert entries[..n] == entries;
    } else {
      SparsePrefix(base, entries[..|entries| - 1], n);
      assert entries[..|entries| - 1][..n] == entries[..n];
    }
  }

  lemma NoSlotsHere(id: nat, size: nat)
    ensures SliceSlots(NoSlice, id, size) == []
  {
  }

  lemma PlacesGrow(places: seq<Place>, first: nat, size: nat, i: nat)
    requires i < |places|
    ensures SlotsFrom(places[..i + 1], first, size)
            == SlotsFrom(places[..i], first, size) + SliceSlots(places[i], first + i, size)
  {
    hide SliceSlots;
    assert places[..i + 1][..i] == places[..i] && places[..i + 1][i] == places[i];
  }

  lemma {:induction false} PlacesPrefix(places: seq<Place>, first: nat, size: nat, n: nat)
    requires n <= |places|
    ensures SlotsFrom(places[..n], first, size) <= SlotsFrom(places, first, size)
    decreases |places|
  {
    hide SliceSlots;
    if n == |places| {
      assert places[..n] == places;
    } else {
      PlacesPrefix(places[..|places| - 1], first, size, n);
      assert places[..|places| - 1][..n] == places[..n];
    }
  }

  lemma BlocksGrow(blocks: seq<Block>, size: nat, i: nat)
    requires i < |blocks|
    ensures BlockSlots(blocks[..i + 1], size)
            == BlockSlots(blocks[..i], size) + SlotsFrom(blocks[i].slots, blocks[i].id * SUPER_BLOCK_SLOTS, size)
  {
    hide SlotsFrom;
    assert blocks[..i + 1][..i] == blocks[..i] && blocks[..i + 1][i] == blocks[i];
  }

  lemma {:induction false} BlocksPrefix(blocks: seq<Block>, size: nat, n: nat)
    requires n <= |blocks|
    ensures BlockSlots(blocks[..n], size) <= BlockSlots(blocks, size)
    decreases |blocks|
  {
    hide SlotsFrom;
    if n == |blocks| {
      assert blocks[..n] == blocks;
    } else {
      BlocksPrefix(blocks[..|blocks| - 1], size, n);
      assert blocks[..|blocks| - 1][..n] == blocks[..n];
    }
  }

  // ---------------------------------------------------------------- what the slots mean

  /** What a slice holds at an offset. */
  ghost predicate SliceHolds(s: Slice, off: nat, v: string) {
    match s
    case Dense(offset, cells) => offset <= off < offset + |cells| && cells[off - offset] == Value(v)
    case Sparse(entries) => Slot(off, v) in entries
  }

  /** Looking up an index: its slice is the quotient by the slice size, its offset the remainder. */
  ghost predicate PlacesHold(places: seq<Place>, first: nat, size: nat, k: nat, v: string)
    requires size > 0
  {
    var id := k / size;
    first <= id < first + |places| && places[id - first].At? && SliceHolds(places[id - first].slice, k % size, v)
  }

  ghost predicate Holds(a: Array, k: nat, v: string)
    requires a.sliceSize > 0
  {
    match a.dir
    case Flat(slots) => PlacesHold(slots, 0, a.sliceSize, k, v)
    case Super(blocks) =>
      exists b :: 0 <= b < |blocks| && PlacesHold(blocks[b].slots, blocks[b].id * SUPER_BLOCK_SLOTS, a.sliceSize, k, v)
  }

  predicate SliceFits(p: Place, size: nat) {
    match p
    case NoSlice => true
    case At(Dense(offset, cells)) => offset + |cells| <= size
    case At(Sparse(entries)) => forall i :: 0 <= i < |entries| ==> entries[i].idx < size
  }

  predicate PlacesFit(places: seq<Place>, size: nat) {
    forall i :: 0 <= i < |places| ==> SliceFits(places[i], size)
  }

  predicate Fits(a: Array) {
    a.sliceSize > 0 &&
    match a.dir
    case Flat(slots) => PlacesFit(slots, a.sliceSize)
    case Super(blocks) => forall b :: 0 <= b < |blocks| ==> PlacesFit(blocks[b].slots, a.sliceSize)
  }

  lemma {:induction false} DenseMeans(base: nat, cells: seq<Cell>, k: nat, v: string)
    ensures Slot(k, v) in DenseSlots(base, cells) <==> base <= k < base + |cells| && cells[k - base] == Value(v)
    decreases |cells|
  {
    if cells != [] { DenseMeans(base, cells[..|cells| - 1], k, v); }
  }

  lemma {:induction false} SparseMeans(base: nat, entries: seq<Slot>, k: nat, v: string)
    ensures Slot(k, v) in SparseSlots(base, entries) <==> base <= k && Slot(k - base, v) in entries
    decreases |entries|
  {
    if entries != [] {
      var n := |entries| - 1;
      SparseMeans(base, entries[..n], k, v);
      assert entries == entries[..n] + [entries[n]];
    }
  }

  lemma Quotient(id: nat, off: nat, size: nat)
    requires off < size
    ensures (id * size + off) / size == id && (id * size + off) % size == off
  {
    DivideUnique(id * size + off, size, id, off);
  }

  lemma DivideUnique(x: nat, size: nat, q: nat, r: nat)
    requires r < size && x == q * size + r
    ensures x / size == q && x % size == r
  {
    var q', r' := x / size, x % size;
    assert x == q' * size + r';
    if q < q' {
      assert (q + 1) * size <= q' * size by { Monotone(q + 1, q', size); }
    } else if q' < q {
      assert (q' + 1) * size <= q * size by { Monotone(q' + 1, q, size); }
    }
  }

  lemma Monotone(a: nat, b: nat, size: nat)
    requires a <= b
    ensures a * size <= b * size
  {
  }

  lemma SliceMeans(p: Place, id: nat, size: nat, k: nat, v: string)
    requires size > 0 && SliceFits(p, size)
    ensures Slot(k, v) in SliceSlots(p, id, size) <==> p.At? && k / size == id && SliceHolds(p.slice, k % size, v)
  {
    hide DenseSlots, SparseSlots;
    var low := id * size;
    if low <= k < low + size { Quotient(id, k - low, size); }
    if k / size == id { DivideUnique(k, size, k / size, k % size); }
    match p {
      case NoSlice =>
      case At(Dense(offset, cells)) => DenseMeans(MakeIdx(id, offset, size), cells, k, v);
      case At(Sparse(entries)) =>
        SparseMeans(MakeIdx(id, 0, size), entries, k, v);
        if k >= low && Slot(k - low, v) in entries {
          var i :| 0 <= i < |entries| && entries[i] == Slot(k - low, v);
          assert entries[i].idx < size;
        }
    }
  }

  lemma {:induction false} PlacesMean(places: seq<Place>, first: nat, size: nat, k: nat, v: string)
    requires size > 0 && PlacesFit(places, size)
    ensures Slot(k, v) in SlotsFrom(places, first, size) <==> PlacesHold(places, first, size, k, v)
    decreases |places|
  {
    hide SliceSlots, SliceHolds, SliceFits;
    if places != [] {
      var n := |places| - 1;
      PlacesMean(places[..n], first, size, k, v);
      assert SliceFits(places[n], size);
      SliceMeans(places[n], first + n, size, k, v);
    }
  }

  lemma {:induction false} BlocksMean(blocks: seq<Block>, size: nat, k: nat, v: string)
    requires size > 0 && forall b :: 0 <= b < |blocks| ==> PlacesFit(blocks[b].slots, size)
    ensures Slot(k, v) in BlockSlots(blocks, size)
            <==> exists b ::
                   0 <= b < |blocks| && PlacesHold(blocks[b].slots, blocks[b].id * SUPER_BLOCK_SLOTS, size, k, v)
    decreases |blocks|
  {
    hide SlotsFrom, PlacesHold, PlacesFit;
    if blocks != [] {
      var n := |blocks| - 1;
      BlocksMean(blocks[..n], size, k, v);
      PlacesMean(blocks[n].slots, blocks[n].id * SUPER_BLOCK_SLOTS, size, k, v);
      forall b | 0 <= b < n ensures blocks[..n][b] == blocks[b] { }
      if PlacesHold(blocks[n].slots, blocks[n].id * SUPER_BLOCK_SLOTS, size, k, v) { assert 0 <= n < |blocks|; }
    }
  }

  /** What is emitted is what lookups find, in both forms of the directory. */
  lemma SlotsMean(a: Array, k: nat, v: string)
    requires Fits(a)
    ensures Slot(k, v) in ArraySlots(a) <==> Holds(a, k, v)
  {
    hide SlotsFrom, PlacesHold, PlacesFit, BlockSlots;
    match a.dir {
      case Flat(slots) => PlacesMean(slots, 0, a.sliceSize, k, v);
      case Super(blocks) => BlocksMean(blocks, a.sliceSize, k, v);
    }
  }

  /** Running the emitted commands on an empty key rebuilds the array: for every index the value that a
      lookup in the original finds, and its insertion index. */
  lemma RebuildArrayObject(key: string, a: Array, m: map<nat, string>)
    requires Fits(a) && a.insertIdx >= -1 && ArraySlots(a) != []
    requires forall k, v :: (k in m && m[k] == v) <==> Holds(a, k, v)
    ensures RunAll(Missing, ArrayCommands(key, ArraySlots(a), a.insertIdx)) == ArrayObject(m, a.insertIdx)
  {
    hide RunAll, ArrayCommands, ArraySlots, Holds, Fits;
    var slots := ArraySlots(a);
    forall i | 0 <= i < |slots| ensures slots[i].idx in m && m[slots[i].idx] == slots[i].value {
      SlotsMean(a, slots[i].idx, slots[i].value);
      assert Slot(slots[i].idx, slots[i].value) in slots;
    }
    forall k | k in m ensures exists i :: 0 <= i < |slots| && slots[i].idx == k {
      SlotsMean(a, k, m[k]);
      var i :| 0 <= i < |slots| && slots[i] == Slot(k, m[k]);
    }
    RebuildArray(key, m, slots, a.insertIdx);
  }
}
