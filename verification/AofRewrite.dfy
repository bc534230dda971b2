/** Rewriting a value as commands (`rewriteListObject`, `rewriteSetObject`, `rewriteSortedSetObject`,
    `rewriteHashObject`, `rewriteArrayObject`) and what running those commands rebuilds. */
module AofRewrite {
  import opened Decimal
  import opened AofCodec
  import opened AofLoader
  import opened AofRepair

  const ITEMS_PER_COMMAND := 64

  // ---------------------------------------------------------------- batches

  /** An element's arguments, one after the other. */
  function Concat(elems: seq<Argv>): Argv {
    if elems == [] then [] else elems[0] + Concat(elems[1..])
  }

  /** Consecutive pieces of at most `limit` elements. */
  function Chunks(elems: seq<Argv>, limit: nat): (r: seq<seq<Argv>>)
    requires limit > 0
    ensures forall i :: 0 <= i < |r| ==> 0 < |r[i]| <= limit
  {
    if elems == [] then []
    else if |elems| <= limit then [elems]
    else [elems[..limit]] + Chunks(elems[limit..], limit)
  }

  function Joined(chunks: seq<seq<Argv>>): seq<Argv> {
    if chunks == [] then [] else chunks[0] + Joined(chunks[1..])
  }

  /** Every piece but the last is full, and together they are the elements, in order. */
  lemma {:induction false} ChunksAreFull(elems: seq<Argv>, limit: nat)
    requires limit > 0
    ensures var r := Chunks(elems, limit);
            && Joined(r) == elems && (forall i :: 0 <= i < |r| - 1 ==> |r[i]| == limit)
    decreases |elems|
  {
    if |elems| > limit {
      ChunksAreFull(elems[limit..], limit);
    } else if elems != [] {
      assert [elems][1..] == [] && elems + [] == elems;
    }
  }

  function BatchCommand(name: string, key: string, chunk: seq<Argv>): Argv {
    [name, key] + Concat(chunk)
  }

  function ChunkCommands(name: string, key: string, chunks: seq<seq<Argv>>): (r: seq<Argv>)
    ensures |r| == |chunks|
  {
    if chunks == [] then [] else [BatchCommand(name, key, chunks[0])] + ChunkCommands(name, key, chunks[1..])
  }

  /** The commands that a rewrite of `elems` consists of. */
  function Batches(name: string, key: string, elems: seq<Argv>, limit: nat): seq<Argv>
    requires limit > 0
  {
    ChunkCommands(name, key, Chunks(elems, limit))
  }

  function EncodeAll(cmds: seq<Argv>): string {
    if cmds == [] then "" else EncodeCommand(cmds[0]) + EncodeAll(cmds[1..])
  }

  lemma {:induction false} EncodeAllGrows(cmds: seq<Argv>, c: Argv)
    ensures EncodeAll(cmds + [c]) == EncodeAll(cmds) + EncodeCommand(c)
  {
    hide EncodeCommand;
    if cmds == [] {
      assert cmds + [c] == [c] && [c][1..] == [];
    } else {
      assert (cmds + [c])[1..] == cmds[1..] + [c];
      EncodeAllGrows(cmds[1..], c);
    }
  }

  lemma {:induction false} ConcatAppend(xs: seq<Argv>, ys: seq<Argv>)
    ensures Concat(xs + ys) == Concat(xs) + Concat(ys)
  {
    if xs == [] {
      assert xs + ys == ys;
    } else {
      assert (xs + ys)[1..] == xs[1..] + ys;
      ConcatAppend(xs[1..], ys);
    }
  }

  predicate AllWide(elems: seq<Argv>, width: nat) {
    forall i :: 0 <= i < |elems| ==> |elems[i]| == width
  }

  lemma {:induction false} ConcatWidth(elems: seq<Argv>, width: nat)
    requires AllWide(elems, width)
    ensures |Concat(elems)| == |elems| * width
  {
    if elems != [] {
      ConcatWidth(elems[1..], width);
    }
  }

  /** `n` is a whole number of full pieces. */
  predicate IsMultiple(n: nat, limit: nat)
    requires limit > 0
  {
    n == 0 || (n >= limit && IsMultiple(n - limit, limit))
  }

  /** A full piece can be split off the front of the elements seen so far. */
  lemma {:induction false} BatchesGrow(name: string, key: string, elems: seq<Argv>, limit: nat, chunk: seq<Argv>)
    requires limit > 0 && IsMultiple(|elems|, limit) && 0 < |chunk| <= limit
    ensures Batches(name, key, elems + chunk, limit)
            == Batches(name, key, elems, limit) + [BatchCommand(name, key, chunk)]
    decreases |elems|
  {
    hide BatchCommand;
    if elems == [] {
      assert elems + chunk == chunk;
      assert ChunkCommands(name, key, [chunk]) == [BatchCommand(name, key, chunk)] + ChunkCommands(name, key, []);
    } else {
      var all := elems + chunk;
      assert all[..limit] == elems[..limit] && all[limit..] == elems[limit..] + chunk;
      BatchesGrow(name, key, elems[limit..], limit, chunk);
      var rest := Chunks(all[limit..], limit);
      assert Chunks(all, limit) == [all[..limit]] + rest;
      ChunkCons(name, key, all[..limit], rest);
      if |elems| == limit {
        assert elems[limit..] == [] && elems[..limit] == elems;
        ChunkCons(name, key, elems, []);
        assert Chunks(elems, limit) == [elems] + [];
      } else {
        ChunkCons(name, key, elems[..limit], Chunks(elems[limit..], limit));
      }
    }
  }

  lemma ChunkCons(name: string, key: string, chunk: seq<Argv>, rest: seq<seq<Argv>>)
    ensures ChunkCommands(name, key, [chunk] + rest)
            == [BatchCommand(name, key, chunk)] + ChunkCommands(name, key, rest)
  {
    assert ([chunk] + rest)[1..] == rest;
  }

  function WriteBulkCount(prefix: char, count: nat): string {
    [prefix] + Print(count) + "\r\n"
  }

  method WriteBulks(out: string, args: Argv) returns (r: string)
    ensures r == out + EncodeBulks(args)
  {
    hide EncodeBulks, EncodeBulk;
    r := out;
    ConcatNone();
    assert args[..0] == [];
    for j := 0 to |args|
      invariant r == out + EncodeBulks(args[..j])
    {
      r := r + EncodeBulk(args[j]);
      BulksGrow(args, j);
    }
    assert args[..|args|] == args;
  }

  method WriteHeader(out: string, name: string, key: string, items: nat, width: nat) returns (r: string)
    ensures r == out + Header(name, key, items, width)
  {
    hide EncodeBulk, WriteBulkCount;
    r := out + WriteBulkCount('*', 2 + items * width);
    r := r + EncodeBulk(name);
    r := r + EncodeBulk(key);
    PiecesAppended(out, WriteBulkCount('*', 2 + items * width), EncodeBulk(name), EncodeBulk(key));
  }

  /** The state of a rewrite after `i` elements: whole batches, and part of the next one. */
  ghost predicate Emitted(out: string, name: string, key: string, elems: seq<Argv>, width: nat, limit: nat, i: nat,
                          count: nat, items: int)
    requires limit > 0
  {
    && i <= |elems| && count < limit && count <= i && items == |elems| - i && IsMultiple(i - count, limit)
    && out == EncodeAll(Batches(name, key, elems[..i - count], limit))
       + Partial(name, key, elems, width, limit, i - count, count)
  }

  /** One element, with a header before every `limit` of them; the header's count is computed from the
      number of elements still to come. */
  method EmitElement(out0: string, name: string, key: string, elem: Argv, count0: nat, items0: int,
                     ghost elems: seq<Argv>, width: nat, limit: nat, ghost i: nat)
    returns (out: string, count: nat, items: int)
    requires limit > 0 && AllWide(elems, width) && i < |elems| && elems[i] == elem
    requires Emitted(out0, name, key, elems, width, limit, i, count0, items0)
    ensures Emitted(out, name, key, elems, width, limit, i + 1, count, items)
  {
    hide EncodeBulks, EncodeBulk, Batches, Partial, Header, EncodeAll, AllWide;
    out, count, items := out0, count0, items0;
    ghost var s := i - count;
    ghost var done := EncodeAll(Batches(name, key, elems[..s], limit));
    if count == 0 {
      out := WriteHeader(out, name, key, if items > limit then limit else items, width);
    }
    ghost var headed := out;
    out := WriteBulks(out, elem);
    PartialGrows(name, key, elems, width, limit, s, count, done, out0, headed, out);
    count := count + 1;
    if count == limit {
      BatchDone(name, key, elems, width, limit, s, count);
      count := 0;
      NothingEmitted(name, key, elems, width, limit, i + 1);
    }
    items := items - 1;
  }

  lemma NothingYet(name: string, key: string, elems: seq<Argv>, width: nat, limit: nat)
    requires limit > 0
    ensures Emitted("", name, key, elems, width, limit, 0, 0, |elems|)
  {
    hide EncodeAll, Batches, Partial;
    BatchesOfNone(name, key, limit);
    NothingEmitted(name, key, elems, width, limit, 0);
    assert elems[..0] == [];
  }

  /** Once all elements are emitted the last batch is complete too. */
  lemma AllEmitted(out: string, name: string, key: string, elems: seq<Argv>, width: nat, limit: nat, count: nat,
                   items: int)
    requires limit > 0 && AllWide(elems, width) && Emitted(out, name, key, elems, width, limit, |elems|, count, items)
    ensures out == EncodeAll(Batches(name, key, elems, limit))
  {
    hide EncodeAll, Batches, Partial, AllWide;
    var s := |elems| - count;
    if count > 0 {
      BatchDone(name, key, elems, width, limit, s, count);
    } else {
      NothingEmitted(name, key, elems, width, limit, s);
    }
    assert elems[..|elems|] == elems;
  }

  method RewriteBatched(name: string, key: string, elems: seq<Argv>, width: nat, limit: nat) returns (out: string)
    requires limit > 0 && AllWide(elems, width)
    ensures out == EncodeAll(Batches(name, key, elems, limit))
  {
    hide Emitted, EncodeAll, Batches, AllWide;
    out := "";
    var count, items := 0, |elems|;
    NothingYet(name, key, elems, width, limit);
    for i := 0 to |elems|
      invariant count >= 0 && Emitted(out, name, key, elems, width, limit, i, count, items)
    {
      out, count, items := EmitElement(out, name, key, elems[i], count, items, elems, width, limit, i);
    }
    AllEmitted(out, name, key, elems, width, limit, count, items);
  }

  lemma BatchesOfNone(name: string, key: string, limit: nat)
    requires limit > 0
    ensures EncodeAll(Batches(name, key, [], limit)) == ""
  {
  }

  /** A batch's header: how many arguments follow, the command and the key. */
  function Header(name: string, key: string, items: nat, width: nat): string {
    WriteBulkCount('*', 2 + items * width) + EncodeBulk(name) + EncodeBulk(key)
  }

  /** What has been emitted of the batch that starts at `s`. */
  ghost function Partial(name: string, key: string, elems: seq<Argv>, width: nat, limit: nat, s: nat,
                         count: nat): string
    requires s + count <= |elems|
  {
    if count == 0 then ""
    else
      var size := if |elems| - s > limit then limit else |elems| - s;
      Header(name, key, size, width) + EncodeBulks(Concat(elems[s..s + count]))
  }

  lemma NothingEmitted(name: string, key: string, elems: seq<Argv>, width: nat, limit: nat, s: nat)
    requires s <= |elems|
    ensures Partial(name, key, elems, width, limit, s, 0) == ""
  {
  }

  lemma PartialGrows(name: string, key: string, elems: seq<Argv>, width: nat, limit: nat, s: nat, count: nat,
                     done: string, before: string, headed: string, out: string)
    requires limit > 0 && s + count < |elems| && count < limit
    requires before == done + Partial(name, key, elems, width, limit, s, count)
    requires var size := if |elems| - s - count > limit then limit else |elems| - s - count;
             headed == if count == 0 then before + Header(name, key, size, width) else before
    requires out == headed + EncodeBulks(elems[s + count])
    ensures out == done + Partial(name, key, elems, width, limit, s, count + 1)
  {
    hide EncodeBulks, Header, Concat;
    var i := s + count;
    var size := if |elems| - s > limit then limit else |elems| - s;
    var head, one := Header(name, key, size, width), EncodeBulks(elems[i]);
    OneMoreElement(elems, s, i);
    if count == 0 {
      assert elems[s..i] == [];
      ConcatNone();
      BulksOfNothing(one);
      Glue(done, "", head, one);
      assert "" + head == head && "" + (head + one) == head + one && done + "" == done;
    } else {
      Glue(done, head, EncodeBulks(Concat(elems[s..i])), one);
    }
  }

  lemma OneMoreElement(elems: seq<Argv>, s: nat, i: nat)
    requires s <= i < |elems|
    ensures EncodeBulks(Concat(elems[s..i + 1])) == EncodeBulks(Concat(elems[s..i])) + EncodeBulks(elems[i])
  {
    hide EncodeBulks, Concat;
    assert elems[s..i + 1] == elems[s..i] + [elems[i]];
    ConcatAppend(elems[s..i], [elems[i]]);
    ConcatOne(elems[i]);
    EncodeBulksAppend(Concat(elems[s..i]), elems[i]);
  }

  lemma BulksOfNothing(one: string)
    ensures EncodeBulks([]) + one == one
  {
  }

  lemma Glue(a: string, b: string, c: string, d: string)
    ensures (a + (b + c)) + d == a + (b + (c + d))
  {
  }

  lemma ConcatOne(e: Argv)
    ensures Concat([e]) == e
  {
    assert [e][1..] == [];
  }

  lemma ConcatNone()
    ensures Concat([]) == [] && EncodeBulks([]) == ""
  {
  }

  /** A batch that has all its elements is its encoded command: the header's count was right. */
  lemma BatchDone(name: string, key: string, elems: seq<Argv>, width: nat, limit: nat, s: nat, count: nat)
    requires limit > 0 && AllWide(elems, width) && IsMultiple(s, limit) && 0 < count <= limit && s + count <= |elems|
    requires count == limit || s + count == |elems|
    ensures EncodeAll(Batches(name, key, elems[..s], limit)) + Partial(name, key, elems, width, limit, s, count)
            == EncodeAll(Batches(name, key, elems[..s + count], limit)) + ""
  {
    hide EncodeBulks, Print, EncodeBulk, Batches, Concat;
    var chunk := elems[s..s + count];
    var args := Concat(chunk);
    ConcatWidth(chunk, width);
    BatchesGrow(name, key, elems[..s], limit, chunk);
    assert elems[..s + count] == elems[..s] + chunk;
    var cmd := BatchCommand(name, key, chunk);
    EncodeAllGrows(Batches(name, key, elems[..s], limit), cmd);
    assert cmd == [name, key] + args && |cmd| == 2 + count * width;
    EncodeBulksAppend([name, key], args);
    TwoBulks(name, key);
    PiecesAppended(WriteBulkCount('*', 2 + count * width), EncodeBulk(name), EncodeBulk(key), EncodeBulks(args));
  }

  lemma TwoBulks(x: string, y: string)
    ensures EncodeBulks([x, y]) == EncodeBulk(x) + EncodeBulk(y)
  {
    hide EncodeBulk;
    assert [x, y][1..] == [y] && [y][1..] == [];
    assert EncodeBulks([y]) == EncodeBulk(y) + EncodeBulks([]);
  }

  // ---------------------------------------------------------------- running commands

  datatype Object =
    | Missing
    | ListObject(items: seq<string>)
    | SetObject(members: set<string>)
    | ZsetObject(scores: map<string, string>)
    | HashObject(fields: map<string, string>, expires: map<string, string>)
    | ArrayObject(slots: map<nat, string>, insertIdx: int)  // -1: nothing inserted yet

  function PutAll(m: map<string, string>, pairs: Argv): map<string, string>
    requires |pairs| % 2 == 0
    decreases |pairs|
  {
    if pairs == [] then m else PutAll(m[pairs[0] := pairs[1]], pairs[2..])
  }

  /** ZADD lists the score before the member. */
  function PutScores(m: map<string, string>, pairs: Argv): map<string, string>
    requires |pairs| % 2 == 0
    decreases |pairs|
  {
    if pairs == [] then m else PutScores(m[pairs[1] := pairs[0]], pairs[2..])
  }

  function PutSlots(m: map<nat, string>, pairs: Argv): map<nat, string>
    requires |pairs| % 2 == 0
    decreases |pairs|
  {
    if pairs == [] then m
    else
      var idx := Atoi(pairs[0]);
      PutSlots(if idx < 0 then m else m[idx := pairs[1]], pairs[2..])
  }

  /** Running one of the emitted commands on the key; anything else is an error that changes nothing. */
  function Run(o: Object, argv: Argv): Object {
    if |argv| < 3 then o
    else
      var args := argv[2..];
      match o
      case Missing =>
        if argv[0] == "RPUSH" then ListObject(args)
        else if argv[0] == "SADD" then SetObject(set x | x in args)
        else if |args| % 2 != 0 then o
        else if argv[0] == "ZADD" then ZsetObject(PutScores(map[], args))
        else if argv[0] == "HMSET" then HashObject(PutAll(map[], args), map[])
        else if argv[0] == "ARMSET" then ArrayObject(PutSlots(map[], args), -1)
        else o
      case ListObject(items) => if argv[0] == "RPUSH" then ListObject(items + args) else o
      case SetObject(members) => if argv[0] == "SADD" then SetObject(members + set x | x in args) else o
      case ZsetObject(scores) =>
        if argv[0] == "ZADD" && |args| % 2 == 0 then ZsetObject(PutScores(scores, args)) else o
      case HashObject(fields, expires) =>
        if argv[0] == "HMSET" && |args| % 2 == 0 then
          HashObject(PutAll(fields, args), expires - set i | 0 <= i < |args| && i % 2 == 0 :: args[i])
        else if argv[0] == "HPEXPIREAT" && |args| == 4 && args[1] == "FIELDS" && args[2] == "1"
                && args[3] in fields then
          HashObject(fields, expires[args[3] := args[0]])
        else o
      case ArrayObject(slots, insertIdx) =>
        if argv[0] == "ARMSET" && |args| % 2 == 0 then ArrayObject(PutSlots(slots, args), insertIdx)
        else if argv[0] == "ARSEEK" && |args| == 1 then ArrayObject(slots, Atoi(args[0]) - 1)
        else o
  }

  function RunAll(o: Object, cmds: seq<Argv>): Object
    decreases |cmds|
  {
    if cmds == [] then o else RunAll(Run(o, cmds[0]), cmds[1..])
  }

  lemma {:induction false} RunAllAppend(o: Object, xs: seq<Argv>, ys: seq<Argv>)
    ensures RunAll(o, xs + ys) == RunAll(RunAll(o, xs), ys)
    decreases |xs|
  {
    hide Run;
    if xs == [] {
      assert xs + ys == ys;
    } else {
      assert (xs + ys)[1..] == xs[1..] + ys;
      RunAllAppend(Run(o, xs[0]), xs[1..], ys);
    }
  }

  /** Commands that each add a chunk, given what adding a chunk does, add everything. */
  ghost predicate AddsUp(name: string, key: string, width: nat, build: seq<Argv> -> Object) {
    forall done: seq<Argv>, chunk: seq<Argv> {:trigger build(done), BatchCommand(name, key, chunk)} ::
      AllWide(done, width) && AllWide(chunk, width) && chunk != [] ==>
        Run(if done == [] then Missing else build(done), BatchCommand(name, key, chunk)) == build(done + chunk)
  }

  lemma AddsUpAt(name: string, key: string, width: nat, build: seq<Argv> -> Object, done: seq<Argv>, chunk: seq<Argv>)
    requires AddsUp(name, key, width, build) && AllWide(done, width) && AllWide(chunk, width) && chunk != []
    ensures Run(if done == [] then Missing else build(done), BatchCommand(name, key, chunk)) == build(done + chunk)
  {
    hide Run, BatchCommand;
    var _, _ := build(done), BatchCommand(name, key, chunk);
  }

  lemma FirstBatch(name: string, key: string, elems: seq<Argv>, limit: nat)
    requires limit > 0 && elems != []
    ensures Batches(name, key, elems, limit)
            == if |elems| <= limit then [BatchCommand(name, key, elems)]
               else [BatchCommand(name, key, elems[..limit])] + Batches(name, key, elems[limit..], limit)
  {
    hide BatchCommand;
    if |elems| <= limit {
      ChunkCons(name, key, elems, []);
      assert [elems] + [] == [elems];
    } else {
      ChunkCons(name, key, elems[..limit], Chunks(elems[limit..], limit));
    }
  }

  lemma RunFirst(o: Object, cmd: Argv, rest: seq<Argv>)
    ensures RunAll(o, [cmd] + rest) == RunAll(Run(o, cmd), rest)
  {
    hide Run;
    assert ([cmd] + rest)[1..] == rest;
  }

  lemma {:induction false} BatchesBuild(name: string, key: string, width: nat, limit: nat, build: seq<Argv> -> Object,
                                        done: seq<Argv>, elems: seq<Argv>)
    requires limit > 0 && AllWide(done, width) && AllWide(elems, width) && AddsUp(name, key, width, build)
    requires elems != []
    ensures RunAll(if done == [] then Missing else build(done), Batches(name, key, elems, limit)) == build(done + elems)
    decreases |elems|
  {
    hide Run, BatchCommand, RunAll, Batches, AddsUp;
    var o := if done == [] then Missing else build(done);
    FirstBatch(name, key, elems, limit);
    if |elems| <= limit {
      var cmd := BatchCommand(name, key, elems);
      AddsUpAt(name, key, width, build, done, elems);
      RunFirst(o, cmd, []);
      assert [cmd] + [] == [cmd];
      RunNothing(Run(o, cmd));
    } else {
      var chunk, rest := elems[..limit], elems[limit..];
      AddsUpAt(name, key, width, build, done, chunk);
      RunFirst(o, BatchCommand(name, key, chunk), Batches(name, key, rest, limit));
      BatchesBuild(name, key, width, limit, build, done + chunk, rest);
      assert done + chunk + rest == done + elems;
    }
  }

  lemma RunNothing(o: Object)
    ensures RunAll(o, []) == o
  {
  }

  // ---------------------------------------------------------------- lists and sets

  /** One-argument elements. */
  function Singles(items: seq<string>): (r: seq<Argv>)
    ensures |r| == |items| && AllWide(r, 1) && forall i :: 0 <= i < |items| ==> r[i] == [items[i]]
  {
    seq(|items|, i requires 0 <= i < |items| => [items[i]])
  }

  lemma {:induction false} ConcatSingles(items: seq<string>)
    ensures Concat(Singles(items)) == items
  {
    if items != [] {
      assert Singles(items)[1..] == Singles(items[1..]);
      ConcatSingles(items[1..]);
    }
  }

  lemma RebuildList(key: string, items: seq<string>)
    requires items != []
    ensures RunAll(Missing, Batches("RPUSH", key, Singles(items), ITEMS_PER_COMMAND)) == ListObject(items)
  {
    var build := (es: seq<Argv>) => ListObject(Concat(es));
    forall done: seq<Argv>, chunk: seq<Argv> | AllWide(done, 1) && AllWide(chunk, 1) && chunk != []
      ensures Run(if done == [] then Missing else build(done), BatchCommand("RPUSH", key, chunk)) == build(done + chunk)
    {
      ConcatAppend(done, chunk);
      ConcatWidth(chunk, 1);
      assert BatchCommand("RPUSH", key, chunk)[2..] == Concat(chunk);
      assert done == [] ==> done + chunk == chunk;
    }
    BatchesBuild("RPUSH", key, 1, ITEMS_PER_COMMAND, build, [], Singles(items));
    assert [] + Singles(items) == Singles(items);
    ConcatSingles(items);
  }

  /** Whatever order the set is iterated in. */
  lemma RebuildSet(key: string, order: seq<string>)
    requires order != []
    ensures RunAll(Missing, Batches("SADD", key, Singles(order), ITEMS_PER_COMMAND)) == SetObject(set x | x in order)
  {
    var build := (es: seq<Argv>) => SetObject(set x | x in Concat(es));
    forall done: seq<Argv>, chunk: seq<Argv> | AllWide(done, 1) && AllWide(chunk, 1) && chunk != []
      ensures Run(if done == [] then Missing else build(done), BatchCommand("SADD", key, chunk)) == build(done + chunk)
    {
      ConcatAppend(done, chunk);
      ConcatWidth(chunk, 1);
      assert BatchCommand("SADD", key, chunk)[2..] == Concat(chunk);
      assert done == [] ==> done + chunk == chunk;
    }
    BatchesBuild("SADD", key, 1, ITEMS_PER_COMMAND, build, [], Singles(order));
    assert [] + Singles(order) == Singles(order);
    ConcatSingles(order);
  }

  // ---------------------------------------------------------------- sorted sets and hashes

  datatype Pair = Pair(key: string, value: string)

  /** An enumeration of a dictionary: every entry once, in any order. */
  predicate Enumerates(m: map<string, string>, order: seq<Pair>) {
    && (forall i :: 0 <= i < |order| ==> order[i].key in m && m[order[i].key] == order[i].value)
    && (forall k :: k in m ==> exists i :: 0 <= i < |order| && order[i].key == k)
  }

  function KeyValue(order: seq<Pair>): (r: seq<Argv>)
    ensures |r| == |order| && AllWide(r, 2) && forall i :: 0 <= i < |order| ==> r[i] == [order[i].key, order[i].value]
  {
    seq(|order|, i requires 0 <= i < |order| => [order[i].key, order[i].value])
  }

  function ValueKey(order: seq<Pair>): (r: seq<Argv>)
    ensures |r| == |order| && AllWide(r, 2) && forall i :: 0 <= i < |order| ==> r[i] == [order[i].value, order[i].key]
  {
    seq(|order|, i requires 0 <= i < |order| => [order[i].value, order[i].key])
  }

  lemma {:induction false} PutAllAppend(m: map<string, string>, xs: Argv, ys: Argv)
    requires |xs| % 2 == 0 && |ys| % 2 == 0
    ensures PutAll(m, xs + ys) == PutAll(PutAll(m, xs), ys)
    decreases |xs|
  {
    if xs == [] {
      assert xs + ys == ys;
    } else {
      assert (xs + ys)[2..] == xs[2..] + ys;
      PutAllAppend(m[xs[0] := xs[1]], xs[2..], ys);
    }
  }

  lemma {:induction false} PutScoresAppend(m: map<string, string>, xs: Argv, ys: Argv)
    requires |xs| % 2 == 0 && |ys| % 2 == 0
    ensures PutScores(m, xs + ys) == PutScores(PutScores(m, xs), ys)
    decreases |xs|
  {
    if xs == [] {
      assert xs + ys == ys;
    } else {
      assert (xs + ys)[2..] == xs[2..] + ys;
      PutScoresAppend(m[xs[1] := xs[0]], xs[2..], ys);
    }
  }

  /** Putting an enumeration of `m` on top of part of `m` gives the enumerated entries. */
  lemma {:induction false} PutScoresOrder(done: map<string, string>, m: map<string, string>, order: seq<Pair>)
    requires forall k :: k in done ==> k in m && m[k] == done[k]
    requires forall i :: 0 <= i < |order| ==> order[i].key in m && m[order[i].key] == order[i].value
    ensures |Concat(ValueKey(order))| % 2 == 0
    ensures var r := PutScores(done, Concat(ValueKey(order)));
            && (forall k :: k in r <==> k in done || exists i :: 0 <= i < |order| && order[i].key == k)
            && (forall k :: k in r ==> k in m && m[k] == r[k])
    decreases |order|
  {
    ConcatWidth(ValueKey(order), 2);
    if order != [] {
      var p := order[0];
      assert ValueKey(order)[1..] == ValueKey(order[1..]);
      var args := Concat(ValueKey(order));
      assert args == [p.value, p.key] + Concat(ValueKey(order[1..]));
      assert args[2..] == Concat(ValueKey(order[1..]));
      PutScoresOrder(done[p.key := p.value], m, order[1..]);
      assert forall i :: 1 <= i < |order| ==> order[i] == order[1..][i - 1];
    }
  }

  lemma {:induction false} PutAllOrder(done: map<string, string>, m: map<string, string>, order: seq<Pair>)
    requires forall k :: k in done ==> k in m && m[k] == done[k]
    requires forall i :: 0 <= i < |order| ==> order[i].key in m && m[order[i].key] == order[i].value
    ensures |Concat(KeyValue(order))| % 2 == 0
    ensures var r := PutAll(done, Concat(KeyValue(order)));
            && (forall k :: k in r <==> k in done || exists i :: 0 <= i < |order| && order[i].key == k)
            && (forall k :: k in r ==> k in m && m[k] == r[k])
    decreases |order|
  {
    ConcatWidth(KeyValue(order), 2);
    if order != [] {
      var p := order[0];
      assert KeyValue(order)[1..] == KeyValue(order[1..]);
      var args := Concat(KeyValue(order));
      assert args == [p.key, p.value] + Concat(KeyValue(order[1..]));
      assert args[2..] == Concat(KeyValue(order[1..]));
      PutAllOrder(done[p.key := p.value], m, order[1..]);
      assert forall i :: 1 <= i < |order| ==> order[i] == order[1..][i - 1];
    }
  }

  function ScoresOf(es: seq<Argv>): Object {
    var args := Concat(es);
    if |args| % 2 == 0 then ZsetObject(PutScores(map[], args)) else Missing
  }

  lemma RebuildSortedSet(key: string, m: map<string, string>, order: seq<Pair>)
    requires order != [] && Enumerates(m, order)
    ensures RunAll(Missing, Batches("ZADD", key, ValueKey(order), ITEMS_PER_COMMAND)) == ZsetObject(m)
  {
    hide Enumerates, RunAll, Batches;
    forall done: seq<Argv>, chunk: seq<Argv> | AllWide(done, 2) && AllWide(chunk, 2) && chunk != []
      ensures Run(if done == [] then Missing else ScoresOf(done), BatchCommand("ZADD", key, chunk))
              == ScoresOf(done + chunk)
    {
      ConcatAppend(done, chunk);
      ConcatWidth(chunk, 2);
      ConcatWidth(done, 2);
      PutScoresAppend(map[], Concat(done), Concat(chunk));
      assert BatchCommand("ZADD", key, chunk)[2..] == Concat(chunk);
      assert done == [] ==> done + chunk == chunk;
    }
    BatchesBuild("ZADD", key, 2, ITEMS_PER_COMMAND, ScoresOf, [], ValueKey(order));
    assert [] + ValueKey(order) == ValueKey(order);
    ScoresEnumerated(m, order);
  }

  lemma ScoresEnumerated(m: map<string, string>, order: seq<Pair>)
    requires Enumerates(m, order)
    ensures ScoresOf(ValueKey(order)) == ZsetObject(m)
  {
    PutScoresOrder(map[], m, order);
    assert PutScores(map[], Concat(ValueKey(order))) == m;
  }

  function FieldsOf(es: seq<Argv>): Object {
    var args := Concat(es);
    if |args| % 2 == 0 then HashObject(PutAll(map[], args), map[]) else Missing
  }

  /** A hash without field expiry. */
  lemma HashStep(name: string, key: string, done: seq<Argv>, chunk: seq<Argv>)
    requires name == "HMSET" && AllWide(done, 2) && AllWide(chunk, 2) && chunk != []
    ensures Run(if done == [] then Missing else FieldsOf(done), BatchCommand(name, key, chunk))
            == FieldsOf(done + chunk)
  {
    hide Concat, PutAll;
    ConcatAppend(done, chunk);
    ConcatWidth(chunk, 2);
    ConcatWidth(done, 2);
    PutAllAppend(map[], Concat(done), Concat(chunk));
    assert BatchCommand(name, key, chunk)[2..] == Concat(chunk);
    assert done == [] ==> done + chunk == chunk;
  }

  lemma RebuildHash(key: string, m: map<string, string>, order: seq<Pair>)
    requires order != [] && Enumerates(m, order)
    ensures RunAll(Missing, Batches("HMSET", key, KeyValue(order), ITEMS_PER_COMMAND)) == HashObject(m, map[])
  {
    hide Enumerates, RunAll, Batches, Run, BatchCommand, FieldsOf, KeyValue;
    forall done: seq<Argv>, chunk: seq<Argv> | AllWide(done, 2) && AllWide(chunk, 2) && chunk != []
      ensures Run(if done == [] then Missing else FieldsOf(done), BatchCommand("HMSET", key, chunk))
              == FieldsOf(done + chunk)
    {
      HashStep("HMSET", key, done, chunk);
    }
    BatchesBuild("HMSET", key, 2, ITEMS_PER_COMMAND, FieldsOf, [], KeyValue(order));
    assert [] + KeyValue(order) == KeyValue(order);
    FieldsEnumerated(m, order);
  }

  lemma FieldsEnumerated(m: map<string, string>, order: seq<Pair>)
    requires Enumerates(m, order)
    ensures FieldsOf(KeyValue(order)) == HashObject(m, map[])
  {
    PutAllOrder(map[], m, order);
    assert PutAll(map[], Concat(KeyValue(order))) == m;
  }

  // ---------------------------------------------------------------- hashes with field expiry

  datatype Field = Field(name: string, value: string, expire: string)  // "" when the field does not expire

  function FieldCommands(key: string, f: Field): seq<Argv> {
    [["HMSET", key, f.name, f.value]]
    + if f.expire == "" then [] else [["HPEXPIREAT", key, f.expire, "FIELDS", "1", f.name]]
  }

  function AllFieldCommands(key: string, fs: seq<Field>): seq<Argv> {
    if fs == [] then [] else FieldCommands(key, fs[0]) + AllFieldCommands(key, fs[1..])
  }

  /** One HMSET per field, and its expiry when it has one. */
  method RewriteExpiringHash(key: string, fs: seq<Field>) returns (out: string)
    ensures out == EncodeAll(AllFieldCommands(key, fs))
  {
    hide EncodeCommand, AllFieldCommands;
    out := "";
    ghost var cmds: seq<Argv> := [];
    NoFields(key);
    assert fs[..0] == [];
    for i := 0 to |fs|
      invariant cmds == AllFieldCommands(key, fs[..i]) && out == EncodeAll(cmds)
    {
      FieldCommandsGrow(key, fs, i);
      var put := ["HMSET", key, fs[i].name, fs[i].value];
      out := CatAppendOnlyGenericCommand(out, put);
      EncodeAllGrows(cmds, put);
      cmds := cmds + [put];
      if fs[i].expire != "" {
        var expire := ["HPEXPIREAT", key, fs[i].expire, "FIELDS", "1", fs[i].name];
        out := CatAppendOnlyGenericCommand(out, expire);
        EncodeAllGrows(cmds, expire);
        cmds := cmds + [expire];
      }
    }
    assert fs[..|fs|] == fs;
  }

  lemma NoFields(key: string)
    ensures AllFieldCommands(key, []) == [] && EncodeAll([]) == ""
  {
  }

  lemma {:induction false} FieldCommandsAppend(key: string, xs: seq<Field>, ys: seq<Field>)
    ensures AllFieldCommands(key, xs + ys) == AllFieldCommands(key, xs) + AllFieldCommands(key, ys)
  {
    hide FieldCommands;
    if xs == [] {
      assert xs + ys == ys;
    } else {
      assert (xs + ys)[1..] == xs[1..] + ys;
      FieldCommandsAppend(key, xs[1..], ys);
    }
  }

  lemma FieldCommandsGrow(key: string, fs: seq<Field>, i: nat)
    requires i < |fs|
    ensures AllFieldCommands(key, fs[..i + 1]) == AllFieldCommands(key, fs[..i]) + FieldCommands(key, fs[i])
  {
    hide FieldCommands;
    assert fs[..i + 1] == fs[..i] + [fs[i]];
    FieldCommandsAppend(key, fs[..i], [fs[i]]);
    assert AllFieldCommands(key, [fs[i]]) == FieldCommands(key, fs[i]) + AllFieldCommands(key, []);
  }

  predicate DistinctFields(fs: seq<Field>) {
    forall i, j :: 0 <= i < j < |fs| ==> fs[i].name != fs[j].name
  }

  /** The fields listed so far, each once. */
  ghost predicate HoldsFields(o: Object, fs: seq<Field>) {
    && o.HashObject?
    && (forall n :: n in o.fields <==> exists i :: 0 <= i < |fs| && fs[i].name == n)
    && (forall i :: 0 <= i < |fs| ==> o.fields[fs[i].name] == fs[i].value)
    && (forall n :: n in o.expires ==> n in o.fields)
    && (forall i :: 0 <= i < |fs| ==>
          if fs[i].expire == "" then fs[i].name !in o.expires
          else fs[i].name in o.expires && o.expires[fs[i].name] == fs[i].expire)
  }

  /** Running the commands of one more field adds exactly that field. */
  lemma AddField(key: string, o: Object, fs: seq<Field>, f: Field)
    requires fs == [] ==> o == Missing
    requires fs != [] ==> HoldsFields(o, fs)
    requires forall i :: 0 <= i < |fs| ==> fs[i].name != f.name
    ensures HoldsFields(RunAll(o, FieldCommands(key, f)), fs + [f])
  {
    var set1 := ["HMSET", key, f.name, f.value];
    var args := set1[2..];
    assert args == [f.name, f.value] && args[2..] == [];
    var o1 := Run(o, set1);
    var before := if o.Missing? then map[] else o.fields;
    assert PutAll(before, args) == before[f.name := f.value];
    assert o1.HashObject? && o1.fields == before[f.name := f.value];
    assert f.name !in o1.expires by {
      if o.HashObject? { assert args[0] == f.name && 0 % 2 == 0; }
    }
    var all := fs + [f];
    assert forall i :: 0 <= i < |fs| ==> all[i] == fs[i];
    assert all[|fs|] == f;
    ExpiresKept(o, fs, set1, f);
    if f.expire == "" {
      assert FieldCommands(key, f) == [set1];
      RunFirst(o, set1, []);
      assert [set1] + [] == [set1];
    } else {
      var exp := ["HPEXPIREAT", key, f.expire, "FIELDS", "1", f.name];
      assert FieldCommands(key, f) == [set1] + [exp];
      RunFirst(o, set1, [exp]);
      RunFirst(o1, exp, []);
      assert [exp] + [] == [exp];
      assert exp[2..] == [f.expire, "FIELDS", "1", f.name];
      assert Run(o1, exp) == HashObject(o1.fields, o1.expires[f.name := f.expire]);
    }
  }

  lemma ExpiresKept(o: Object, fs: seq<Field>, set1: Argv, f: Field)
    requires fs == [] ==> o == Missing
    requires fs != [] ==> HoldsFields(o, fs)
    requires |set1| == 4 && set1[0] == "HMSET" && set1[2] == f.name && set1[3] == f.value
    requires forall i :: 0 <= i < |fs| ==> fs[i].name != f.name
    ensures var o1 := Run(o, set1);
            && o1.HashObject? && f.name !in o1.expires
            && (o.HashObject? ==> forall n :: n != f.name ==> (n in o1.expires <==> n in o.expires))
            && (o.HashObject? ==> forall n :: n in o1.expires ==> n in o.expires && o1.expires[n] == o.expires[n])
            && (o.Missing? ==> o1.expires == map[])
  {
    var args := set1[2..];
    assert args == [f.name, f.value];
    if o.HashObject? {
      var gone := set i | 0 <= i < |args| && i % 2 == 0 :: args[i];
      assert gone == {f.name} by {
        assert args[0] in gone;
      }
    }
  }

  lemma {:induction false} RebuildExpiringHash(key: string, fs: seq<Field>)
    requires fs != [] && DistinctFields(fs)
    ensures HoldsFields(RunAll(Missing, AllFieldCommands(key, fs)), fs)
    decreases |fs|
  {
    hide RunAll, FieldCommands, HoldsFields;
    var k := |fs| - 1;
    var done := fs[..k];
    FieldCommandsGrow(key, fs, k);
    assert fs[..k + 1] == fs && done + [fs[k]] == fs;
    RunAllAppend(Missing, AllFieldCommands(key, done), FieldCommands(key, fs[k]));
    if k > 0 {
      RebuildExpiringHash(key, done);
    } else {
      assert AllFieldCommands(key, done) == [];
      RunNothing(Missing);
    }
    AddField(key, RunAll(Missing, AllFieldCommands(key, done)), done, fs[k]);
  }

  // ---------------------------------------------------------------- arrays

  datatype Slot = Slot(idx: nat, value: string)

  function SlotArgs(slots: seq<Slot>): (r: seq<Argv>)
    ensures |r| == |slots| && AllWide(r, 2)
    ensures forall i :: 0 <= i < |slots| ==> r[i] == [Print(slots[i].idx), slots[i].value]
  {
    seq(|slots|, i requires 0 <= i < |slots| => [Print(slots[i].idx), slots[i].value])
  }

  /** Half as many pairs fit in one command as single elements; the insert position follows. */
  function ArrayCommands(key: string, slots: seq<Slot>, insertIdx: int): seq<Argv>
    requires insertIdx >= -1
  {
    if slots == [] then []
    else Batches("ARMSET", key, SlotArgs(slots), ITEMS_PER_COMMAND / 2)
         + if insertIdx == -1 then [] else [["ARSEEK", key, Print(insertIdx + 1)]]
  }

  lemma {:induction false} PutSlotsAppend(m: map<nat, string>, xs: Argv, ys: Argv)
    requires |xs| % 2 == 0 && |ys| % 2 == 0
    ensures PutSlots(m, xs + ys) == PutSlots(PutSlots(m, xs), ys)
    decreases |xs|
  {
    hide Atoi;
    if xs == [] {
      assert xs + ys == ys;
    } else {
      assert (xs + ys)[2..] == xs[2..] + ys;
      var idx := Atoi(xs[0]);
      PutSlotsAppend(if idx < 0 then m else m[idx := xs[1]], xs[2..], ys);
    }
  }

  /** An enumeration of an array's occupied slots. */
  predicate EnumeratesSlots(m: map<nat, string>, slots: seq<Slot>) {
    && (forall i :: 0 <= i < |slots| ==> slots[i].idx in m && m[slots[i].idx] == slots[i].value)
    && (forall k :: k in m ==> exists i :: 0 <= i < |slots| && slots[i].idx == k)
  }

  lemma SlotArgsEven(slots: seq<Slot>)
    ensures |Concat(SlotArgs(slots))| % 2 == 0
  {
    ConcatWidth(SlotArgs(slots), 2);
  }

  lemma NothingPut(done: map<nat, string>)
    ensures |Concat(SlotArgs([]))| % 2 == 0 && PutSlots(done, Concat(SlotArgs([]))) == done
  {
  }

  lemma FirstSlot(done: map<nat, string>, slots: seq<Slot>)
    requires slots != []
    ensures |Concat(SlotArgs(slots))| % 2 == 0 && |Concat(SlotArgs(slots[1..]))| % 2 == 0
    ensures PutSlots(done, Concat(SlotArgs(slots)))
            == PutSlots(done[slots[0].idx := slots[0].value], Concat(SlotArgs(slots[1..])))
  {
    hide Atoi, Print;
    SlotArgsEven(slots);
    SlotArgsEven(slots[1..]);
    var p := slots[0];
    assert SlotArgs(slots)[1..] == SlotArgs(slots[1..]);
    var args := Concat(SlotArgs(slots));
    assert args == [Print(p.idx), p.value] + Concat(SlotArgs(slots[1..]));
    assert args[2..] == Concat(SlotArgs(slots[1..]));
    PrintRoundTrip(p.idx, []);
    assert Print(p.idx) + [] == Print(p.idx);
  }

  lemma {:induction false} PutSlotsOrder(done: map<nat, string>, m: map<nat, string>, slots: seq<Slot>)
    requires forall k :: k in done ==> k in m && m[k] == done[k]
    requires forall i :: 0 <= i < |slots| ==> slots[i].idx in m && m[slots[i].idx] == slots[i].value
    ensures |Concat(SlotArgs(slots))| % 2 == 0
    ensures var r := PutSlots(done, Concat(SlotArgs(slots)));
            && (forall k :: k in r <==> k in done || exists i :: 0 <= i < |slots| && slots[i].idx == k)
            && (forall k :: k in r ==> k in m && m[k] == r[k])
    decreases |slots|
  {
    hide PutSlots, Concat, SlotArgs;
    SlotArgsEven(slots);
    if slots == [] {
      NothingPut(done);
    } else {
      var p := slots[0];
      FirstSlot(done, slots);
      PutSlotsOrder(done[p.idx := p.value], m, slots[1..]);
      assert forall i :: 1 <= i < |slots| ==> slots[i] == slots[1..][i - 1];
    }
  }

  function SlotsOf(es: seq<Argv>): Object {
    var args := Concat(es);
    if |args| % 2 == 0 then ArrayObject(PutSlots(map[], args), -1) else Missing
  }

  lemma RebuildSlots(key: string, slots: seq<Slot>)
    requires slots != []
    ensures RunAll(Missing, Batches("ARMSET", key, SlotArgs(slots), ITEMS_PER_COMMAND / 2)) == SlotsOf(SlotArgs(slots))
  {
    hide RunAll, Batches, SlotArgs, Atoi, PutSlots;
    forall done: seq<Argv>, chunk: seq<Argv> | AllWide(done, 2) && AllWide(chunk, 2) && chunk != []
      ensures Run(if done == [] then Missing else SlotsOf(done), BatchCommand("ARMSET", key, chunk))
              == SlotsOf(done + chunk)
    {
      ConcatAppend(done, chunk);
      ConcatWidth(chunk, 2);
      ConcatWidth(done, 2);
      PutSlotsAppend(map[], Concat(done), Concat(chunk));
      assert BatchCommand("ARMSET", key, chunk)[2..] == Concat(chunk);
      assert done == [] ==> done + chunk == chunk;
      NoSlots();
    }
    BatchesBuild("ARMSET", key, 2, ITEMS_PER_COMMAND / 2, SlotsOf, [], SlotArgs(slots));
    assert [] + SlotArgs(slots) == SlotArgs(slots);
  }

  lemma NoSlots()
    ensures PutSlots(map[], []) == map[]
  {
  }

  lemma RebuildArray(key: string, m: map<nat, string>, slots: seq<Slot>, insertIdx: int)
    requires slots != [] && EnumeratesSlots(m, slots) && insertIdx >= -1
    ensures RunAll(Missing, ArrayCommands(key, slots, insertIdx)) == ArrayObject(m, insertIdx)
  {
    hide RunAll, Batches, SlotArgs, PutSlots, Print, Atoi;
    RebuildSlots(key, slots);
    PutSlotsOrder(map[], m, slots);
    assert PutSlots(map[], Concat(SlotArgs(slots))) == m;
    var batches := Batches("ARMSET", key, SlotArgs(slots), ITEMS_PER_COMMAND / 2);
    if insertIdx == -1 {
      assert batches + [] == batches;
    } else {
      var seek := ["ARSEEK", key, Print(insertIdx + 1)];
      RunAllAppend(Missing, batches, [seek]);
      RunFirst(ArrayObject(m, -1), seek, []);
      assert [seek] + [] == [seek] && seek[2..] == [Print(insertIdx + 1)];
      PrintRoundTrip(insertIdx + 1, []);
      assert Print(insertIdx + 1) + [] == Print(insertIdx + 1);
      RunNothing(Run(ArrayObject(m, -1), seek));
    }
  }

  // ---------------------------------------------------------------- through the file

  function AsItems(cmds: seq<Argv>): (r: seq<Item>)
    ensures |r| == |cmds| && forall i :: 0 <= i < |cmds| ==> r[i] == Cmd(cmds[i])
  {
    seq(|cmds|, i requires 0 <= i < |cmds| => Cmd(cmds[i]))
  }

  lemma {:induction false} EncodeAllItems(cmds: seq<Argv>)
    ensures EncodeAll(cmds) == Encode(AsItems(cmds)) && Commands(AsItems(cmds)) == cmds
  {
    hide EncodeCommand;
    if cmds != [] {
      assert AsItems(cmds)[1..] == AsItems(cmds[1..]);
      EncodeAllItems(cmds[1..]);
    }
  }

  /** The emitted text is loaded as exactly the emitted commands: together with
      the rebuilding lemmas, loading a rewritten file restores the value. */
  lemma RewrittenTextReloads(cfg: Config, lookup: Lookup, cmds: seq<Argv>)
    requires Repairing(cfg) && cmds != []
    requires forall i :: 0 <= i < |cmds| ==> Encodable(cmds[i]) && lookup(cmds[i]) == Plain
    ensures var r := LoadFile(cfg, lookup, EncodeAll(cmds));
            r.status == AofOk && r.executed == cmds && r.file == EncodeAll(cmds)
  {
    hide LoadFile, EncodeAll, Encode, Commands;
    var items := AsItems(cmds);
    EncodeAllItems(cmds);
    SomeText(items);
    LoadOfWhole(cfg, lookup, items);
  }

  /** Emitting, loading and running: whatever commands a value is rewritten as, loading their text and
      running what is loaded gives what running them gives. */
  lemma ReloadRebuilds(cfg: Config, lookup: Lookup, cmds: seq<Argv>, o: Object)
    requires Repairing(cfg) && cmds != [] && RunAll(Missing, cmds) == o
    requires forall i :: 0 <= i < |cmds| ==> Encodable(cmds[i]) && lookup(cmds[i]) == Plain
    ensures RunAll(Missing, LoadFile(cfg, lookup, EncodeAll(cmds)).executed) == o
  {
    RewrittenTextReloads(cfg, lookup, cmds);
  }

  lemma SomeText(items: seq<Item>)
    requires items != []
    ensures Encode(items) != []
  {
    hide EncodeItem;
  }

  lemma WholeNotTorn(items: seq<Item>)
    ensures !Torn(items, |Encode(items)|)
  {
    hide Encode;
    WholeOfAll(items);
    assert items[..|items|] == items;
  }

  lemma LoadOfWhole(cfg: Config, lookup: Lookup, items: seq<Item>)
    requires Repairing(cfg) && AllWritable(lookup, items) && MultiFree(lookup, items) && Encode(items) != []
    ensures var r := LoadFile(cfg, lookup, Encode(items));
            r.status == AofOk && r.executed == Commands(items) && r.file == Encode(items)
  {
    hide LoadFrom, EncodeItem, Encode, LoadFile;
    var text := Encode(items);
    MultiFreeMeaning(lookup, items);
    var _ := LoadOfCutLog(cfg, lookup, items, |text|);
    WholeNotTorn(items);
    WholeOfAll(items);
    assert text[..|text|] == text && items[..|items|] == items;
  }
}
