/** Which node serves a request (`getNodeByQuery`), over all keys of all queued commands. */
module Routing {
  import opened Wrappers
  import opened Numbers
  import opened HashSlot

  type Node = nat

  datatype Redir = NoRedir | CrossSlot | Unstable | Ask | Moved | DownState | DownRoState | DownUnbound | Trimming

  datatype Answer = Answer(node: Option<Node>, code: Redir)

  /** What the node knows of the cluster and of its keys. */
  datatype View = View(
    myself: Node,
    owner: nat -> Option<Node>,
    migratingTo: nat -> Option<Node>,
    importingFrom: nat -> Option<Node>,
    healthy: bool,
    pubsubWhenDown: bool,
    readsWhenDown: bool,
    replicaOf: Option<Node>,
    trimming: nat -> bool,
    present: string -> bool,
    crc: string -> nat)

  /** A queued command: its keys, the slot cached for it, whether it was found to cross slots, and
      whether it is a sharded pub/sub command. */
  datatype Command = Command(keys: seq<string>, cached: Option<nat>, crosses: bool, pubsub: bool)

  datatype Request = Request(
    noRedirection: bool,
    isExec: bool,
    inMulti: bool,
    commands: seq<Command>,
    isMigrate: bool,
    isWrite: bool,
    execWrites: bool,
    asking: bool,
    readonly: bool)

  // ---------------------------------------------------------------- the keys of a request

  /** One key as the loop meets it. A key is looked up unless a pub/sub command came before or with it. */
  datatype Ref = Ref(key: string, slot: nat, crosses: bool, looked: bool)

  function SlotFor(v: View, cmd: Command, key: string): nat {
    if cmd.cached.Some? then cmd.cached.value else KeySlot(v.crc, key)
  }

  function RefsOf(v: View, cmd: Command, pubsub: bool): (rs: seq<Ref>)
    ensures |rs| == |cmd.keys|
  {
    seq(|cmd.keys|, j requires 0 <= j < |cmd.keys| =>
          Ref(cmd.keys[j], SlotFor(v, cmd, cmd.keys[j]), cmd.crosses, !pubsub))
  }

  predicate AnyPubsub(cmds: seq<Command>) {
    exists i :: 0 <= i < |cmds| && cmds[i].pubsub
  }

  function Refs(v: View, cmds: seq<Command>): seq<Ref> {
    if cmds == [] then []
    else
      var n := |cmds| - 1;
      Refs(v, cmds[..n]) + RefsOf(v, cmds[n], AnyPubsub(cmds))
  }

  // ---------------------------------------------------------------- the decision

  predicate Migrating(v: View, slot: nat) {
    v.owner(slot) == Some(v.myself) && v.migratingTo(slot).Some?
  }

  predicate Importing(v: View, slot: nat) {
    !Migrating(v, slot) && v.importingFrom(slot).Some?
  }

  predicate Open(v: View, slot: nat) {
    Migrating(v, slot) || Importing(v, slot)
  }

  predicate SomeMissing(v: View, rs: seq<Ref>) {
    exists i :: 0 <= i < |rs| && rs[i].looked && !v.present(rs[i].key)
  }

  predicate SomePresent(v: View, rs: seq<Ref>) {
    exists i :: 0 <= i < |rs| && rs[i].looked && v.present(rs[i].key)
  }

  predicate DifferentKeys(rs: seq<Ref>) {
    exists i :: 0 <= i < |rs| && rs[i].key != rs[0].key
  }

  predicate OneSlot(rs: seq<Ref>) {
    forall i :: 0 <= i < |rs| ==> rs[i].slot == rs[0].slot && !rs[i].crosses
  }

  predicate Writes(req: Request) {
    req.isWrite || (req.isExec && req.execWrites)
  }

  function WhenDown(v: View, req: Request, pubsub: bool): Redir {
    if v.healthy then NoRedir
    else if pubsub then (if v.pubsubWhenDown then NoRedir else DownState)
    else if !v.readsWhenDown then DownState
    else if req.isWrite then DownRoState
    else NoRedir
  }

  /** The answer once all keys are known to be in one slot that has an owner. */
  function Route(v: View, req: Request, slot: nat, owner: Node, pubsub: bool, missing: bool, present: bool,
                 several: bool): Answer {
    var down := WhenDown(v, req, pubsub);
    if down != NoRedir then Answer(None, down)
    else if Open(v, slot) && req.isMigrate then Answer(Some(v.myself), NoRedir)
    else if Migrating(v, slot) && missing then
      (if present then Answer(None, Unstable) else Answer(v.migratingTo(slot), Ask))
    else if Importing(v, slot) && req.asking then
      (if several && missing then Answer(None, Unstable) else Answer(Some(v.myself), NoRedir))
    else if (req.readonly || pubsub) && !Writes(req) && v.replicaOf == Some(owner) then Answer(Some(v.myself), NoRedir)
    else if owner == v.myself && Writes(req) && v.trimming(slot) then Answer(None, Trimming)
    else Answer(Some(owner), if owner == v.myself then NoRedir else Moved)
  }

  /** What the whole request is answered. */
  function Decide(v: View, req: Request): Answer {
    if req.noRedirection || (req.isExec && !req.inMulti) then Answer(Some(v.myself), NoRedir)
    else
      var rs := Refs(v, req.commands);
      if rs == [] then Answer(Some(v.myself), NoRedir)
      else if rs[0].crosses then Answer(None, CrossSlot)
      else if v.owner(rs[0].slot).None? then Answer(None, DownUnbound)
      else if !OneSlot(rs) then Answer(None, CrossSlot)
      else
        var slot := rs[0].slot;
        var open := Open(v, slot);
        Route(v, req, slot, v.owner(slot).value, AnyPubsub(req.commands), open && SomeMissing(v, rs),
              open && SomePresent(v, rs), DifferentKeys(rs))
  }

  // ---------------------------------------------------------------- the loops

  /** The variables the loops accumulate, for the keys met so far. */
  ghost predicate Accumulated(v: View, rs: seq<Ref>, first: Option<string>, slot: nat, owner: Option<Node>,
                              migrating: bool, importing: bool, several: bool, missing: nat, present: nat)
  {
    if rs == [] then first == None && owner == None && !migrating && !importing && !several && missing == 0
      && present == 0
    else
      && OneSlot(rs) && first == Some(rs[0].key) && slot == rs[0].slot && owner == v.owner(slot) && owner.Some?
      && migrating == Migrating(v, slot) && importing == Importing(v, slot)
      && several == (importing && DifferentKeys(rs))
      && (missing > 0 <==> Open(v, slot) && SomeMissing(v, rs))
      && (present > 0 <==> Open(v, slot) && SomePresent(v, rs))
  }

  /** The whole function. Of a keyed request with prepared commands: it is served here, answered with ASK
      or MOVED or refused only for what is true of the hash slots of its keys. */
  method GetNodeByQuery(v: View, req: Request) returns (a: Answer)
    ensures a == Decide(v, req)
    ensures !Redirecting(req) || !HasKeys(req.commands) ==> a == Answer(Some(v.myself), NoRedir)
    ensures Redirecting(req) && HasKeys(req.commands) && AllPrepared(v, req.commands) ==> Truthful(v, req, a)
  {
    hide Decide, Truthful, AllPrepared, HasKeys, Refs;
    a := Decided(v, req);
    NothingYet(v, req);
    KeyedHasRefs(v, req.commands);
    if Redirecting(req) && HasKeys(req.commands) && AllPrepared(v, req.commands) {
      DecidesTruthfully(v, req);
    }
  }

  /** The loops over the queued commands and their keys. */
  method Decided(v: View, req: Request) returns (a: Answer)
    ensures a == Decide(v, req)
  {
    hide OneSlot, DifferentKeys, SomeMissing, SomePresent, Route, SlotFor, Decide, Refs, AnyPubsub, Accumulated;
    hide Migrating, Importing, Open;
    NothingYet(v, req);
    AccNothing(v);
    if req.noRedirection {
      return Answer(Some(v.myself), NoRedir);
    }
    if req.isExec && !req.inMulti {
      return Answer(Some(v.myself), NoRedir);
    }
    var first: Option<string> := None;
    var slot: nat := 0;
    var owner: Option<Node> := None;
    var migrating, importing, several, pubsub := false, false, false, false;
    var missing, present: nat := 0, 0;
    ghost var all := Refs(v, req.commands);
    ghost var rs: seq<Ref> := [];
    for i := 0 to |req.commands|
      invariant pubsub == AnyPubsub(req.commands[..i])
      invariant rs == Refs(v, req.commands[..i]) && rs <= all
      invariant Accumulated(v, rs, first, slot, owner, migrating, importing, several, missing, present)
    {
      var cmd := req.commands[i];
      if !pubsub && cmd.pubsub {
        pubsub := true;
      }
      PubsubGrows(req.commands, i);
      ghost var mine := RefsOf(v, cmd, pubsub);
      ghost var before := rs;
      RefsGrow(v, req.commands, i);
      for j := 0 to |cmd.keys|
        invariant rs == before + mine[..j] && rs <= all
        invariant Accumulated(v, rs, first, slot, owner, migrating, importing, several, missing, present)
      {
        ghost var r := mine[j];
        NextRef(all, before, mine, j);
        AccParts(v, rs, first, slot, owner, migrating, importing, several, missing, present);
        if cmd.crosses {
          CrossesHere(v, req, rs, r);
          return Answer(None, CrossSlot);
        }
        var key := cmd.keys[j];
        var thisSlot := SlotFor(v, cmd, key);
        if first.None? {
          first := Some(key);
          slot := thisSlot;
          owner := v.owner(slot);
          if owner.None? {
            UnboundHere(v, req, r);
            return Answer(None, DownUnbound);
          }
          if owner.value == v.myself && v.migratingTo(slot).Some? {
            migrating := true;
          } else if v.importingFrom(slot).Some? {
            importing := true;
          }
          AccFirst(v, r);
        } else {
          if slot != thisSlot {
            CrossesHere(v, req, rs, r);
            return Answer(None, CrossSlot);
          }
          AccNext(v, rs, r, first, slot, owner, migrating, importing, several, missing, present);
          if importing && !several && first.value != key {
            several := true;
          }
        }
        if (migrating || importing) && !pubsub {
          if !v.present(key) { missing := missing + 1; } else { present := present + 1; }
        }
        rs := rs + [r];
        assert before + mine[..j + 1] == rs;
      }
      assert mine[..|cmd.keys|] == mine;
    }
    assert req.commands[..|req.commands|] == req.commands;
    AccParts(v, rs, first, slot, owner, migrating, importing, several, missing, present);
    if owner.None? {
      return Answer(Some(v.myself), NoRedir);
    }
    a := Answered(v, req, slot, owner.value, pubsub, migrating, importing, missing, present, several);
    Concluded(v, req, rs, several, missing > 0, present > 0);
  }

  lemma AccNothing(v: View)
    ensures Accumulated(v, [], None, 0, None, false, false, false, 0, 0)
  {
  }

  /** What the accumulated variables say. */
  lemma AccParts(v: View, rs: seq<Ref>, first: Option<string>, slot: nat, owner: Option<Node>, migrating: bool,
                 importing: bool, several: bool, missing: nat, present: nat)
    requires Accumulated(v, rs, first, slot, owner, migrating, importing, several, missing, present)
    ensures (first.None? <==> rs == []) && (owner.None? <==> rs == [])
    ensures rs == [] ==> !migrating && !importing && !several && missing == 0 && present == 0
    ensures rs != [] ==>
              && OneSlot(rs) && slot == rs[0].slot && owner == v.owner(slot) && first == Some(rs[0].key)
              && migrating == Migrating(v, slot) && importing == Importing(v, slot)
              && several == (importing && DifferentKeys(rs))
              && (missing > 0 <==> Open(v, slot) && SomeMissing(v, rs))
              && (present > 0 <==> Open(v, slot) && SomePresent(v, rs))
  {
    hide OneSlot, DifferentKeys, SomeMissing, SomePresent, Migrating, Importing, Open;
  }

  lemma AccFirst(v: View, r: Ref)
    requires !r.crosses && v.owner(r.slot).Some?
    ensures var migrating := v.owner(r.slot) == Some(v.myself) && v.migratingTo(r.slot).Some?;
            var importing := !migrating && v.importingFrom(r.slot).Some?;
            var looked := (migrating || importing) && r.looked;
            Accumulated(v, [] + [r], Some(r.key), r.slot, v.owner(r.slot), migrating, importing, false,
                        if looked && !v.present(r.key) then 1 else 0, if looked && v.present(r.key) then 1 else 0)
  {
    hide OneSlot, DifferentKeys, SomeMissing, SomePresent;
    OneMore(v, [], r);
  }

  lemma AccNext(v: View, rs: seq<Ref>, r: Ref, first: Option<string>, slot: nat, owner: Option<Node>,
                migrating: bool, importing: bool, several: bool, missing: nat, present: nat)
    requires Accumulated(v, rs, first, slot, owner, migrating, importing, several, missing, present)
    requires rs != [] && r.slot == slot && !r.crosses
    ensures first.Some?
    ensures var looked := (migrating || importing) && r.looked;
            Accumulated(v, rs + [r], first, slot, owner, migrating, importing,
                        several || (importing && first.value != r.key),
                        if looked && !v.present(r.key) then missing + 1 else missing,
                        if looked && v.present(r.key) then present + 1 else present)
  {
    hide OneSlot, DifferentKeys, SomeMissing, SomePresent;
    OneMore(v, rs, r);
  }

  lemma NothingYet(v: View, req: Request)
    ensures Refs(v, req.commands[..0]) == [] && !AnyPubsub(req.commands[..0])
    ensures req.noRedirection || (req.isExec && !req.inMulti) || Refs(v, req.commands) == [] ==>
            Decide(v, req) == Answer(Some(v.myself), NoRedir)
  {
  }

  lemma UnboundHere(v: View, req: Request, r: Ref)
    requires !req.noRedirection && !(req.isExec && !req.inMulti) && [r] <= Refs(v, req.commands)
    requires !r.crosses && v.owner(r.slot).None?
    ensures Decide(v, req) == Answer(None, DownUnbound)
  {
    hide Refs, Route;
  }

  lemma Concluded(v: View, req: Request, rs: seq<Ref>, several: bool, missing: bool, present: bool)
    requires !req.noRedirection && !(req.isExec && !req.inMulti) && rs == Refs(v, req.commands) && rs != []
    requires OneSlot(rs)
    requires v.owner(rs[0].slot).Some? && several == (Importing(v, rs[0].slot) && DifferentKeys(rs))
    requires missing == (Open(v, rs[0].slot) && SomeMissing(v, rs))
    requires present == (Open(v, rs[0].slot) && SomePresent(v, rs))
    ensures Decide(v, req)
            == Route(v, req, rs[0].slot, v.owner(rs[0].slot).value, AnyPubsub(req.commands), missing, present, several)
  {
    hide Refs, SomeMissing, SomePresent, DifferentKeys, AnyPubsub, Route, OneSlot;
    FirstDoesNotCross(rs);
    SeveralOnlyWhenImporting(v, req, rs[0].slot, v.owner(rs[0].slot).value, AnyPubsub(req.commands), missing, present,
                             several, DifferentKeys(rs));
  }

  /** The tail of the function, after the loops. */
  method Answered(v: View, req: Request, slot: nat, owner: Node, pubsub: bool, migrating: bool, importing: bool,
                  missing: nat, present: nat, several: bool) returns (a: Answer)
    requires migrating == Migrating(v, slot) && importing == Importing(v, slot)
    ensures a == Route(v, req, slot, owner, pubsub, missing > 0, present > 0, several)
  {
    if !v.healthy {
      if pubsub {
        if !v.pubsubWhenDown { return Answer(None, DownState); }
      } else if !v.readsWhenDown {
        return Answer(None, DownState);
      } else if req.isWrite {
        return Answer(None, DownRoState);
      }
    }
    if (migrating || importing) && req.isMigrate { return Answer(Some(v.myself), NoRedir); }
    if migrating && missing > 0 {
      if present > 0 { return Answer(None, Unstable); } else { return Answer(v.migratingTo(slot), Ask); }
    }
    if importing && req.asking {
      if several && missing > 0 { return Answer(None, Unstable); } else { return Answer(Some(v.myself), NoRedir); }
    }
    var isWrite := req.isWrite || (req.isExec && req.execWrites);
    if (req.readonly || pubsub) && !isWrite && v.replicaOf.Some? && v.replicaOf.value == owner {
      return Answer(Some(v.myself), NoRedir);
    }
    if owner == v.myself && isWrite && v.trimming(slot) { return Answer(None, Trimming); }
    return Answer(Some(owner), if owner != v.myself then Moved else NoRedir);
  }

  lemma SeveralOnlyWhenImporting(v: View, req: Request, slot: nat, owner: Node, pubsub: bool, missing: bool,
                                 present: bool, several: bool, different: bool)
    requires several == (Importing(v, slot) && different)
    ensures Route(v, req, slot, owner, pubsub, missing, present, several)
            == Route(v, req, slot, owner, pubsub, missing, present, different)
  {
  }

  lemma FirstDoesNotCross(rs: seq<Ref>)
    requires rs != [] && OneSlot(rs)
    ensures !rs[0].crosses
  {
  }

  lemma PubsubGrows(cmds: seq<Command>, i: nat)
    requires i < |cmds|
    ensures AnyPubsub(cmds[..i + 1]) == (AnyPubsub(cmds[..i]) || cmds[i].pubsub)
  {
    if AnyPubsub(cmds[..i]) {
      var k :| 0 <= k < i && cmds[..i][k].pubsub;
      assert cmds[..i + 1][k].pubsub;
    }
    if cmds[i].pubsub { assert cmds[..i + 1][i].pubsub; }
    if AnyPubsub(cmds[..i + 1]) {
      var k :| 0 <= k < i + 1 && cmds[..i + 1][k].pubsub;
      if k < i { assert cmds[..i][k].pubsub; }
    }
  }

  lemma RefsGrow(v: View, cmds: seq<Command>, i: nat)
    requires i < |cmds|
    ensures Refs(v, cmds[..i + 1]) == Refs(v, cmds[..i]) + RefsOf(v, cmds[i], AnyPubsub(cmds[..i + 1]))
    ensures Refs(v, cmds[..i + 1]) <= Refs(v, cmds)
  {
    hide RefsOf, AnyPubsub;
    assert cmds[..i + 1][..i] == cmds[..i] && cmds[..i + 1][i] == cmds[i];
    PrefixOfRefs(v, cmds, i + 1);
  }

  lemma {:induction false} PrefixOfRefs(v: View, cmds: seq<Command>, n: nat)
    requires n <= |cmds|
    ensures Refs(v, cmds[..n]) <= Refs(v, cmds)
    decreases |cmds|
  {
    hide RefsOf, AnyPubsub;
    if n == |cmds| {
      assert cmds[..n] == cmds;
    } else {
      var most := cmds[..|cmds| - 1];
      PrefixOfRefs(v, most, n);
      assert most[..n] == cmds[..n];
    }
  }

  lemma NextRef(all: seq<Ref>, before: seq<Ref>, mine: seq<Ref>, j: nat)
    requires j < |mine| && before + mine <= all
    ensures before + mine[..j] + [mine[j]] <= all
  {
    assert before + mine[..j] + [mine[j]] == (before + mine)[..|before| + j + 1];
  }

  /** A key of another slot, or of a command that crosses slots, is answered with an error. */
  lemma CrossesHere(v: View, req: Request, rs: seq<Ref>, r: Ref)
    requires !req.noRedirection && !(req.isExec && !req.inMulti) && rs + [r] <= Refs(v, req.commands)
    requires r.crosses || (rs != [] && r.slot != rs[0].slot)
    requires rs != [] ==> OneSlot(rs) && v.owner(rs[0].slot).Some?
    ensures Decide(v, req) == Answer(None, CrossSlot)
  {
    hide Refs, Route;
    var all := Refs(v, req.commands);
    assert all[|rs|] == (rs + [r])[|rs|] == r;
    if rs != [] {
      assert all[0] == (rs + [r])[0] == rs[0];
    }
  }

  lemma OneMore(v: View, rs: seq<Ref>, r: Ref)
    ensures SomeMissing(v, rs + [r]) == (SomeMissing(v, rs) || (r.looked && !v.present(r.key)))
    ensures SomePresent(v, rs + [r]) == (SomePresent(v, rs) || (r.looked && v.present(r.key)))
    ensures rs != [] ==> DifferentKeys(rs + [r]) == (DifferentKeys(rs) || r.key != rs[0].key)
    ensures rs == [] ==> !DifferentKeys(rs + [r]) && (OneSlot(rs + [r]) <==> !r.crosses)
    ensures rs != [] && OneSlot(rs) ==> (OneSlot(rs + [r]) <==> r.slot == rs[0].slot && !r.crosses)
    ensures !SomeMissing(v, []) && !SomePresent(v, [])
  {
    var all := rs + [r];
    assert all[|rs|] == r && forall i :: 0 <= i < |rs| ==> all[i] == rs[i];
    if SomeMissing(v, rs) { var i :| 0 <= i < |rs| && rs[i].looked && !v.present(rs[i].key); assert all[i] == rs[i]; }
    if SomePresent(v, rs) { var i :| 0 <= i < |rs| && rs[i].looked && v.present(rs[i].key); assert all[i] == rs[i]; }
    if rs != [] && DifferentKeys(rs) { var i :| 0 <= i < |rs| && rs[i].key != rs[0].key; assert all[i] == rs[i]; }
  }

  // ---------------------------------------------------------------- what the answers mean

  predicate Crosses(v: View, keys: seq<string>) {
    exists j :: 0 <= j < |keys| && KeySlot(v.crc, keys[j]) != KeySlot(v.crc, keys[0])
  }

  /** A command as its preparation left it: a cached slot is that of all its keys, and only commands whose
      keys cross slots are flagged. Scripts and modules prepare nothing, so a crossing may be unflagged. */
  predicate Prepared(v: View, cmd: Command) {
    && (cmd.crosses ==> Crosses(v, cmd.keys))
    && (cmd.cached.Some? ==>
          && !cmd.crosses
          && forall j :: 0 <= j < |cmd.keys| ==> KeySlot(v.crc, cmd.keys[j]) == cmd.cached.value)
  }

  ghost predicate AllPrepared(v: View, cmds: seq<Command>) {
    forall i :: 0 <= i < |cmds| ==> Prepared(v, cmds[i])
  }

  predicate Redirecting(req: Request) {
    !req.noRedirection && (req.isExec ==> req.inMulti)
  }

  predicate IsKey(cmds: seq<Command>, i: int, j: int) {
    0 <= i < |cmds| && 0 <= j < |cmds[i].keys|
  }

  predicate HasKeys(cmds: seq<Command>) {
    exists i :: 0 <= i < |cmds| && cmds[i].keys != []
  }

  /** Every key of every queued command hashes to this slot. */
  ghost predicate KeysInSlot(v: View, cmds: seq<Command>, slot: nat) {
    forall i, j :: IsKey(cmds, i, j) ==> KeySlot(v.crc, cmds[i].keys[j]) == slot
  }

  /** The keys of a command are looked up unless a sharded pub/sub command came before or is meant. */
  predicate LookedUp(cmds: seq<Command>, i: nat)
    requires i < |cmds|
  {
    !AnyPubsub(cmds[..i + 1])
  }

  ghost predicate MissingKey(v: View, cmds: seq<Command>) {
    exists i, j :: IsKey(cmds, i, j) && LookedUp(cmds, i) && !v.present(cmds[i].keys[j])
  }

  ghost predicate PresentKey(v: View, cmds: seq<Command>) {
    exists i, j :: IsKey(cmds, i, j) && LookedUp(cmds, i) && v.present(cmds[i].keys[j])
  }

  ghost predicate SeveralKeys(cmds: seq<Command>) {
    exists i, j, i', j' :: IsKey(cmds, i, j) && IsKey(cmds, i', j') && cmds[i].keys[j] != cmds[i'].keys[j']
  }

  /** The reasons for serving a request for keys of this slot here. */
  ghost predicate Justified(v: View, req: Request, slot: nat) {
    || (v.owner(slot) == Some(v.myself) && !(Migrating(v, slot) && MissingKey(v, req.commands))
        && !(Writes(req) && v.trimming(slot)))
    || (req.isMigrate && Open(v, slot))
    || (req.asking && Importing(v, slot) && !(SeveralKeys(req.commands) && MissingKey(v, req.commands)))
    || (ReadsFromReplica(v, req) && v.owner(slot) == v.replicaOf)
  }

  /** A client that is content with a replica, or a sharded pub/sub command, and nothing is written. */
  predicate ReadsFromReplica(v: View, req: Request) {
    (req.readonly || AnyPubsub(req.commands)) && !Writes(req) && v.replicaOf.Some?
  }

  /** Neither a cluster that is down nor MIGRATE decides. */
  predicate Ordinary(v: View, req: Request, slot: nat) {
    && !Closed(v, AnyPubsub(req.commands)) && !(ReadsOnly(v, AnyPubsub(req.commands)) && req.isWrite)
    && !(req.isMigrate && Open(v, slot))
  }

  /** The slot is on its way out and a key is not here any more. */
  ghost predicate LeftAlready(v: View, req: Request, slot: nat) {
    Migrating(v, slot) && MissingKey(v, req.commands)
  }

  /** The slot is on its way in and the client was sent here. */
  predicate SentHere(v: View, req: Request, slot: nat) {
    Importing(v, slot) && req.asking
  }

  /** Who the node is to the slot decides. */
  ghost predicate Settled(v: View, req: Request, slot: nat) {
    Ordinary(v, req, slot) && !LeftAlready(v, req, slot) && !SentHere(v, req, slot)
  }

  /** What an answer to a request for keys of this slot means: each answer is given exactly in its case. */
  ghost predicate TruthfulIn(v: View, req: Request, slot: nat, a: Answer) {
    var cmds, owner := req.commands, v.owner(slot);
    if owner.None? then a == Answer(None, DownUnbound)
    else
      && (a.code == DownState <==> Closed(v, AnyPubsub(cmds)))
      && (a.code == DownRoState <==> ReadsOnly(v, AnyPubsub(cmds)) && req.isWrite)
      && (a.code == Ask <==> Ordinary(v, req, slot) && LeftAlready(v, req, slot) && !PresentKey(v, cmds))
      && (a.code == Unstable <==>
            Ordinary(v, req, slot) && MissingKey(v, cmds) &&
            ((Migrating(v, slot) && PresentKey(v, cmds)) || (SentHere(v, req, slot) && SeveralKeys(cmds))))
      && (a.code == Trimming <==>
            Settled(v, req, slot) && owner == Some(v.myself) && Writes(req) && v.trimming(slot))
      && (a.code == Moved <==>
            Settled(v, req, slot) && owner != Some(v.myself) && !(ReadsFromReplica(v, req) && v.replicaOf == owner))
      && a.code != DownUnbound && a.code != CrossSlot
      && (a.code == NoRedir ==> a.node == Some(v.myself) && Justified(v, req, slot))
      && (a.code == Ask ==> a.node == v.migratingTo(slot) && v.migratingTo(slot).Some?)
      && (a.code == Moved ==> a.node == owner)
      && (a.node.None? <==> a.code !in {NoRedir, Ask, Moved})
  }

  /** The cluster is down and requests of this kind are not served meanwhile. */
  predicate Closed(v: View, pubsub: bool) {
    !v.healthy && if pubsub then !v.pubsubWhenDown else !v.readsWhenDown
  }

  /** The cluster is down and only reads are served meanwhile. */
  predicate ReadsOnly(v: View, pubsub: bool) {
    !v.healthy && !pubsub && v.readsWhenDown
  }

  /** What an answer to a keyed request promises about the hash slots of all its keys. */
  ghost predicate Truthful(v: View, req: Request, a: Answer) {
    var cmds := req.commands;
    && (a.code == CrossSlot ==> forall slot :: !KeysInSlot(v, cmds, slot))
    && (a.code != CrossSlot && a.code != DownUnbound ==> exists slot :: KeysInSlot(v, cmds, slot))
    && forall slot :: KeysInSlot(v, cmds, slot) ==> TruthfulIn(v, req, slot, a)
  }

  /** The reference that stands for key `j` of command `i`. */
  lemma {:induction false} RefOfKey(v: View, cmds: seq<Command>, i: nat, j: nat) returns (k: nat)
    requires IsKey(cmds, i, j)
    ensures k < |Refs(v, cmds)|
    ensures var key := cmds[i].keys[j];
            Refs(v, cmds)[k] == Ref(key, SlotFor(v, cmds[i], key), cmds[i].crosses, LookedUp(cmds, i))
    decreases |cmds|
  {
    hide AnyPubsub, SlotFor;
    var n := |cmds| - 1;
    if i < n {
      k := RefOfKey(v, cmds[..n], i, j);
      assert cmds[..n][..i + 1] == cmds[..i + 1];
    } else {
      k := |Refs(v, cmds[..n])| + j;
      assert cmds[..i + 1] == cmds;
    }
  }

  /** The key that reference `k` stands for. */
  lemma {:induction false} KeyOfRef(v: View, cmds: seq<Command>, k: nat) returns (i: nat, j: nat)
    requires k < |Refs(v, cmds)|
    ensures IsKey(cmds, i, j)
    ensures var key := cmds[i].keys[j];
            Refs(v, cmds)[k] == Ref(key, SlotFor(v, cmds[i], key), cmds[i].crosses, LookedUp(cmds, i))
    decreases |cmds|
  {
    hide AnyPubsub, SlotFor;
    var n := |cmds| - 1;
    var most := Refs(v, cmds[..n]);
    if k < |most| {
      i, j := KeyOfRef(v, cmds[..n], k);
      assert cmds[..n][..i + 1] == cmds[..i + 1];
    } else {
      i, j := n, k - |most|;
      assert cmds[..i + 1] == cmds;
    }
  }

  /** The first command that has keys. */
  function FirstKeyed(cmds: seq<Command>): (i: nat)
    requires HasKeys(cmds)
    ensures i < |cmds| && cmds[i].keys != [] && forall k :: 0 <= k < i ==> cmds[k].keys == []
  {
    if cmds[0].keys != [] then 0
    else
      assert HasKeys(cmds[1..]) by {
        var i :| 0 <= i < |cmds| && cmds[i].keys != [];
        assert cmds[1..][i - 1].keys != [];
      }
      1 + FirstKeyed(cmds[1..])
  }

  /** The first key that the loops meet is the first key of that command. */
  lemma {:induction false} FirstRef(v: View, cmds: seq<Command>)
    requires HasKeys(cmds)
    ensures Refs(v, cmds) != []
    ensures var i := FirstKeyed(cmds);
            var r := Refs(v, cmds)[0];
            r.key == cmds[i].keys[0] && r.slot == SlotFor(v, cmds[i], cmds[i].keys[0]) && r.crosses == cmds[i].crosses
    decreases |cmds|
  {
    hide AnyPubsub, SlotFor, FirstKeyed;
    var n := |cmds| - 1;
    var i := FirstKeyed(cmds);
    if i < n {
      assert cmds[..n][i].keys != [];
      FirstRef(v, cmds[..n]);
      SameFirst(cmds, n);
    } else {
      KeylessRefs(v, cmds[..n]);
    }
  }

  lemma SameFirst(cmds: seq<Command>, n: nat)
    requires n < |cmds| && HasKeys(cmds) && HasKeys(cmds[..n])
    ensures FirstKeyed(cmds[..n]) == FirstKeyed(cmds)
  {
    var i, k := FirstKeyed(cmds), FirstKeyed(cmds[..n]);
    assert cmds[..n][k] == cmds[k];
    assert forall q :: 0 <= q < n ==> cmds[..n][q] == cmds[q];
  }

  lemma {:induction false} KeylessRefs(v: View, cmds: seq<Command>)
    requires forall i :: 0 <= i < |cmds| ==> cmds[i].keys == []
    ensures Refs(v, cmds) == []
    decreases |cmds|
  {
    if cmds != [] { KeylessRefs(v, cmds[..|cmds| - 1]); }
  }

  lemma PreparedSlot(v: View, cmd: Command, j: nat)
    requires Prepared(v, cmd) && j < |cmd.keys|
    ensures SlotFor(v, cmd, cmd.keys[j]) == KeySlot(v.crc, cmd.keys[j])
  {
    hide KeySlot;
  }

  lemma KeyedHasRefs(v: View, cmds: seq<Command>)
    ensures HasKeys(cmds) <==> Refs(v, cmds) != []
  {
    hide Refs, SlotFor, LookedUp;
    if HasKeys(cmds) {
      var i :| 0 <= i < |cmds| && cmds[i].keys != [];
      var _ := RefOfKey(v, cmds, i, 0);
    }
    if Refs(v, cmds) != [] {
      var i, j := KeyOfRef(v, cmds, 0);
    }
  }

  lemma MissingMeans(v: View, cmds: seq<Command>)
    ensures SomeMissing(v, Refs(v, cmds)) <==> MissingKey(v, cmds)
    ensures SomePresent(v, Refs(v, cmds)) <==> PresentKey(v, cmds)
  {
    hide Refs, SlotFor, LookedUp;
    var rs := Refs(v, cmds);
    forall k | 0 <= k < |rs| && rs[k].looked
      ensures (v.present(rs[k].key) ==> PresentKey(v, cmds)) && (!v.present(rs[k].key) ==> MissingKey(v, cmds))
    {
      var i, j := KeyOfRef(v, cmds, k);
    }
    forall i, j | IsKey(cmds, i, j) && LookedUp(cmds, i)
      ensures if v.present(cmds[i].keys[j]) then SomePresent(v, rs) else SomeMissing(v, rs)
    {
      var k := RefOfKey(v, cmds, i, j);
    }
  }

  lemma SeveralMeans(v: View, cmds: seq<Command>)
    requires Refs(v, cmds) != []
    ensures DifferentKeys(Refs(v, cmds)) <==> SeveralKeys(cmds)
  {
    hide Refs, SlotFor, LookedUp;
    var rs := Refs(v, cmds);
    if DifferentKeys(rs) {
      var k :| 0 <= k < |rs| && rs[k].key != rs[0].key;
      var i, j := KeyOfRef(v, cmds, k);
      var i', j' := KeyOfRef(v, cmds, 0);
      assert cmds[i].keys[j] != cmds[i'].keys[j'];
    }
    if SeveralKeys(cmds) {
      var i, j, i', j' :| IsKey(cmds, i, j) && IsKey(cmds, i', j') && cmds[i].keys[j] != cmds[i'].keys[j'];
      var k := RefOfKey(v, cmds, i, j);
      var k' := RefOfKey(v, cmds, i', j');
      assert rs[k].key != rs[0].key || rs[k'].key != rs[0].key;
    }
  }

  /** What the loops compare, cached or not, is the hash slot of every key. */
  lemma OneSlotMeans(v: View, cmds: seq<Command>, slot: nat)
    requires AllPrepared(v, cmds) && Refs(v, cmds) != []
    ensures OneSlot(Refs(v, cmds)) && Refs(v, cmds)[0].slot == slot <==> KeysInSlot(v, cmds, slot)
  {
    hide Refs, SlotFor, LookedUp, KeySlot, Crosses;
    var rs := Refs(v, cmds);
    if OneSlot(rs) && rs[0].slot == slot {
      forall i, j | IsKey(cmds, i, j) ensures KeySlot(v.crc, cmds[i].keys[j]) == slot {
        var k := RefOfKey(v, cmds, i, j);
        PreparedSlot(v, cmds[i], j);
        assert rs[k].slot == rs[0].slot;
      }
    }
    if KeysInSlot(v, cmds, slot) {
      forall k | 0 <= k < |rs| ensures rs[k].slot == slot && !rs[k].crosses {
        var i, j := KeyOfRef(v, cmds, k);
        PreparedSlot(v, cmds[i], j);
        NoCrossing(v, cmds, i, slot);
      }
    }
  }

  lemma NoCrossing(v: View, cmds: seq<Command>, i: nat, slot: nat)
    requires i < |cmds| && Prepared(v, cmds[i]) && KeysInSlot(v, cmds, slot)
    ensures !cmds[i].crosses
  {
    hide KeySlot;
    assert forall j :: 0 <= j < |cmds[i].keys| ==> IsKey(cmds, i, j);
  }

  /** The decision once the keys are known to be in one slot, in terms of the request. */
  lemma DecideInSlot(v: View, req: Request, slot: nat)
    requires Redirecting(req) && HasKeys(req.commands) && AllPrepared(v, req.commands)
    requires KeysInSlot(v, req.commands, slot)
    ensures Decide(v, req)
            == if v.owner(slot).None? then Answer(None, DownUnbound)
               else
                 var missing := Open(v, slot) && MissingKey(v, req.commands);
                 var present := Open(v, slot) && PresentKey(v, req.commands);
                 Route(v, req, slot, v.owner(slot).value, AnyPubsub(req.commands), missing, present,
                       SeveralKeys(req.commands))
  {
    hide Refs, SlotFor, KeySlot, SomeMissing, SomePresent, DifferentKeys, AnyPubsub, Route, OneSlot, HasKeys;
    hide AllPrepared;
    hide KeysInSlot, MissingKey, PresentKey, SeveralKeys, Open;
    KeyedHasRefs(v, req.commands);
    OneSlotMeans(v, req.commands, slot);
    MissingMeans(v, req.commands);
    SeveralMeans(v, req.commands);
    FirstDoesNotCross(Refs(v, req.commands));
  }

  /** Refused as crossing exactly when no slot has all keys, unless the first slot is unbound. */
  lemma DecideAcross(v: View, req: Request)
    requires Redirecting(req) && HasKeys(req.commands) && AllPrepared(v, req.commands)
    ensures Decide(v, req).code == CrossSlot ==> forall slot :: !KeysInSlot(v, req.commands, slot)
    ensures var i := FirstKeyed(req.commands);
            (forall slot :: !KeysInSlot(v, req.commands, slot)) ==>
              Decide(v, req)
              == if !req.commands[i].crosses && v.owner(KeySlot(v.crc, req.commands[i].keys[0])).None? then
                   Answer(None, DownUnbound)
                 else Answer(None, CrossSlot)
  {
    FirstRef(v, req.commands);
    PreparedSlot(v, req.commands[FirstKeyed(req.commands)], 0);
    hide Refs, FirstKeyed, SlotFor, KeySlot, SomeMissing, SomePresent, DifferentKeys, AnyPubsub, OneSlot, HasKeys;
    hide KeysInSlot, AllPrepared;
    var rs := Refs(v, req.commands);
    KeyedHasRefs(v, req.commands);
    OneSlotMeans(v, req.commands, rs[0].slot);
    if Decide(v, req).code == CrossSlot {
      forall slot ensures !KeysInSlot(v, req.commands, slot) {
        OneSlotMeans(v, req.commands, slot);
        if OneSlot(rs) { FirstDoesNotCross(rs); }
      }
    }
  }

  lemma RouteInSlot(v: View, req: Request, slot: nat, owner: Node, missing: bool, present: bool, several: bool)
    requires v.owner(slot) == Some(owner)
    requires missing == (Open(v, slot) && MissingKey(v, req.commands))
    requires present == (Open(v, slot) && PresentKey(v, req.commands)) && several == SeveralKeys(req.commands)
    ensures TruthfulIn(v, req, slot, Route(v, req, slot, owner, AnyPubsub(req.commands), missing, present, several))
  {
    hide AnyPubsub, MissingKey, PresentKey, SeveralKeys;
  }

  lemma UnboundIsTrue(v: View, req: Request, slot: nat)
    requires v.owner(slot).None?
    ensures TruthfulIn(v, req, slot, Answer(None, DownUnbound))
  {
  }

  lemma DecidesTruthfully(v: View, req: Request)
    requires Redirecting(req) && HasKeys(req.commands) && AllPrepared(v, req.commands)
    ensures Truthful(v, req, Decide(v, req))
  {
    hide Refs, KeySlot, AnyPubsub, Route, HasKeys, AllPrepared, KeysInSlot, MissingKey, PresentKey, SeveralKeys;
    hide Decide, Migrating, Importing, Settled, Ordinary, LeftAlready, SentHere, Justified, TruthfulIn;
    var cmds := req.commands;
    DecideAcross(v, req);
    forall slot | KeysInSlot(v, cmds, slot) ensures TruthfulIn(v, req, slot, Decide(v, req)) {
      DecideInSlot(v, req, slot);
      if v.owner(slot).None? {
        UnboundIsTrue(v, req, slot);
      } else {
        RouteInSlot(v, req, slot, v.owner(slot).value, Open(v, slot) && MissingKey(v, cmds),
                    Open(v, slot) && PresentKey(v, cmds), SeveralKeys(cmds));
      }
    }
  }

  /** A keyed request is served here only if all keys of all its commands hash to one slot and there is a
      reason to serve that slot here. */
  lemma ServedHereIsJustified(v: View, req: Request) returns (slot: nat)
    requires Redirecting(req) && HasKeys(req.commands) && AllPrepared(v, req.commands)
    requires Decide(v, req) == Answer(Some(v.myself), NoRedir)
    ensures forall i, j :: IsKey(req.commands, i, j) ==> KeySlot(v.crc, req.commands[i].keys[j]) == slot
    ensures Justified(v, req, slot)
  {
    hide HasKeys, AllPrepared, Justified, Decide, KeySlot;
    DecidesTruthfully(v, req);
    slot :| KeysInSlot(v, req.commands, slot);
  }

  /** With the cluster up, when the owner of the slot serves a request instead of answering an error or a
      redirection. */
  lemma OwnerServesIff(v: View, req: Request, slot: nat)
    requires Redirecting(req) && HasKeys(req.commands) && AllPrepared(v, req.commands) && v.healthy
    requires KeysInSlot(v, req.commands, slot) && v.owner(slot) == Some(v.myself)
    ensures var cmds := req.commands;
            Decide(v, req).code == NoRedir
            <==> || (req.isMigrate && Open(v, slot))
                 || (Migrating(v, slot) && !MissingKey(v, cmds) && !(Writes(req) && v.trimming(slot)))
                 || (Importing(v, slot) && req.asking && !(SeveralKeys(cmds) && MissingKey(v, cmds)))
                 || (!Migrating(v, slot) && !(Importing(v, slot) && req.asking) && !(Writes(req) && v.trimming(slot)))
  {
    hide KeySlot, AnyPubsub, HasKeys, AllPrepared, KeysInSlot, MissingKey, PresentKey, SeveralKeys, Decide;
    DecideInSlot(v, req, slot);
  }

  /** The same for a node that does not own the slot, such as the target of a migration or a replica; every other
      request is sent to the owner, unless some of several keys of an open slot are missing. */
  lemma OtherServesIff(v: View, req: Request, slot: nat, owner: Node)
    requires Redirecting(req) && HasKeys(req.commands) && AllPrepared(v, req.commands) && v.healthy
    requires KeysInSlot(v, req.commands, slot) && v.owner(slot) == Some(owner) && owner != v.myself
    ensures var cmds := req.commands;
            var a := Decide(v, req);
            var here := || (req.isMigrate && Open(v, slot))
                        || (Importing(v, slot) && req.asking && !(SeveralKeys(cmds) && MissingKey(v, cmds)))
                        || (!(Importing(v, slot) && req.asking) && (req.readonly || AnyPubsub(cmds)) && !Writes(req)
                            && v.replicaOf == Some(owner));
            && (a == Answer(Some(v.myself), NoRedir) <==> here)
            && (a == Answer(None, Unstable) <==>
                  !here && Importing(v, slot) && req.asking && SeveralKeys(cmds) && MissingKey(v, cmds))
            && (a == Answer(Some(owner), Moved) <==> !here && !(Importing(v, slot) && req.asking))
  {
    hide KeySlot, AnyPubsub, HasKeys, AllPrepared, KeysInSlot, MissingKey, PresentKey, SeveralKeys, Decide;
    DecideInSlot(v, req, slot);
  }

  // ---------------------------------------------------------------- cached slots

  /** `extractSlotFromKeysResult`: the common slot, `None` without keys, or a crossing. */
  datatype Extracted = SlotIs(slot: nat) | NoKeys | Crossing

  method ExtractSlot(v: View, keys: seq<string>) returns (r: Extracted)
    ensures r == NoKeys <==> keys == []
    ensures r.SlotIs? ==> forall j :: 0 <= j < |keys| ==> KeySlot(v.crc, keys[j]) == r.slot
    ensures r == Crossing <==> exists j :: 0 <= j < |keys| && KeySlot(v.crc, keys[j]) != KeySlot(v.crc, keys[0])
  {
    hide KeySlot;
    r := NoKeys;
    for j := 0 to |keys|
      invariant r == NoKeys <==> j == 0
      invariant r != Crossing && (r.SlotIs? ==> forall k :: 0 <= k < j ==> KeySlot(v.crc, keys[k]) == r.slot)
    {
      var slot := KeyHashSlot(v.crc, keys[j]);
      if r.NoKeys? {
        r := SlotIs(slot);
      } else if r.slot != slot {
        assert KeySlot(v.crc, keys[0]) == r.slot;
        return Crossing;
      }
    }
  }

  function Fresh(cmd: Command): Command {
    cmd.(cached := None, crosses := false)
  }

  function FreshAll(cmds: seq<Command>): (r: seq<Command>)
    ensures |r| == |cmds| && forall i :: 0 <= i < |r| ==> r[i] == Fresh(cmds[i])
  {
    seq(|cmds|, i requires 0 <= i < |cmds| => Fresh(cmds[i]))
  }

  /** The same keys, looked up in the same cases, in the same slots; only the flag differs. */
  ghost predicate SameRefs(v: View, a: seq<Ref>, b: seq<Ref>) {
    |a| == |b| && forall i :: 0 <= i < |a| ==>
      a[i].key == b[i].key && a[i].looked == b[i].looked && !b[i].crosses && b[i].slot == KeySlot(v.crc, b[i].key)
        && a[i].slot == b[i].slot
  }

  lemma FreshPubsub(cmds: seq<Command>)
    ensures AnyPubsub(FreshAll(cmds)) == AnyPubsub(cmds)
  {
    var fs := FreshAll(cmds);
    assert forall i :: 0 <= i < |cmds| ==> fs[i].pubsub == cmds[i].pubsub;
    if AnyPubsub(cmds) { var i :| 0 <= i < |cmds| && cmds[i].pubsub; assert fs[i].pubsub; }
  }

  lemma {:induction false} FreshRefs(v: View, cmds: seq<Command>)
    requires forall i :: 0 <= i < |cmds| ==> Prepared(v, cmds[i])
    ensures SameRefs(v, Refs(v, cmds), Refs(v, FreshAll(cmds)))
    decreases |cmds|
  {
    hide KeySlot, Crosses, AnyPubsub;
    if cmds != [] {
      var n := |cmds| - 1;
      var fs := FreshAll(cmds);
      assert fs[..n] == FreshAll(cmds[..n]);
      FreshRefs(v, cmds[..n]);
      FreshPubsub(cmds);
      var p := AnyPubsub(cmds);
      RefsOfFresh(v, cmds[n], p);
      JoinSame(v, Refs(v, cmds[..n]), Refs(v, fs[..n]), RefsOf(v, cmds[n], p), RefsOf(v, fs[n], p));
    }
  }

  lemma RefsOfFresh(v: View, cmd: Command, pubsub: bool)
    requires Prepared(v, cmd)
    ensures SameRefs(v, RefsOf(v, cmd, pubsub), RefsOf(v, Fresh(cmd), pubsub))
  {
    hide KeySlot, Crosses;
  }

  lemma JoinSame(v: View, a: seq<Ref>, b: seq<Ref>, a': seq<Ref>, b': seq<Ref>)
    requires SameRefs(v, a, b) && SameRefs(v, a', b')
    ensures SameRefs(v, a + a', b + b')
  {
    hide KeySlot;
  }

  /** Where a flag stands, two keys have different slots. */
  lemma {:induction false} FlagMeansTwoSlots(v: View, cmds: seq<Command>, i: nat)
    requires (forall k :: 0 <= k < |cmds| ==> Prepared(v, cmds[k])) && i < |Refs(v, cmds)| && Refs(v, cmds)[i].crosses
    ensures exists a, b ::
              && 0 <= a < |Refs(v, cmds)| && 0 <= b < |Refs(v, cmds)|
              && Refs(v, cmds)[a].slot != Refs(v, cmds)[b].slot
    decreases |cmds|
  {
    hide KeySlot, AnyPubsub;
    var n := |cmds| - 1;
    var most := Refs(v, cmds[..n]);
    var last := RefsOf(v, cmds[n], AnyPubsub(cmds));
    var all := Refs(v, cmds);
    assert all == most + last;
    if i < |most| {
      FlagMeansTwoSlots(v, cmds[..n], i);
      var a, b :| 0 <= a < |most| && 0 <= b < |most| && most[a].slot != most[b].slot;
      assert all[a].slot != all[b].slot;
    } else {
      assert last[i - |most|].crosses && Crosses(v, cmds[n].keys);
      var j :| 0 <= j < |cmds[n].keys| && KeySlot(v.crc, cmds[n].keys[j]) != KeySlot(v.crc, cmds[n].keys[0]);
      assert all[|most| + j].slot != all[|most|].slot;
    }
  }

  lemma SameOneSlot(v: View, cmds: seq<Command>)
    requires forall i :: 0 <= i < |cmds| ==> Prepared(v, cmds[i])
    ensures OneSlot(Refs(v, cmds)) == OneSlot(Refs(v, FreshAll(cmds)))
  {
    hide KeySlot, Refs, Prepared;
    FreshRefs(v, cmds);
    var a, b := Refs(v, cmds), Refs(v, FreshAll(cmds));
    if OneSlot(b) {
      forall i | 0 <= i < |a| ensures a[i].slot == a[0].slot && !a[i].crosses {
        assert b[i].slot == b[0].slot;
        if a[i].crosses { FlagMeansTwoSlots(v, cmds, i); }
      }
    }
  }

  /** Cached slots and flags change the answer only for a request whose first command crosses slots and
      whose first key is in a slot without owner. */
  lemma CacheIsTransparentIff(v: View, req: Request)
    requires AllPrepared(v, req.commands) && Redirecting(req)
    ensures var rs := Refs(v, req.commands);
            Decide(v, req) == Decide(v, req.(commands := FreshAll(req.commands)))
            <==> !(rs != [] && rs[0].crosses && v.owner(rs[0].slot).None?)
  {
    hide KeySlot, Refs, Prepared, OneSlot, Route;
    var fs := FreshAll(req.commands);
    var a, b := Refs(v, req.commands), Refs(v, fs);
    FreshRefs(v, req.commands);
    FreshPubsub(req.commands);
    SameOneSlot(v, req.commands);
    SameAnswers(v, a, b);
    if a != [] && v.owner(a[0].slot).Some? {
      var slot := a[0].slot;
      RouteIgnoresCommands(v, req, fs, slot, v.owner(slot).value, AnyPubsub(fs), Open(v, slot) && SomeMissing(v, a),
                           Open(v, slot) && SomePresent(v, a), DifferentKeys(a));
    }
    if a != [] && a[0].crosses { assert !OneSlot(a) by { FlagBreaks(a); } }
  }

  lemma RouteIgnoresCommands(v: View, req: Request, cmds: seq<Command>, slot: nat, owner: Node, pubsub: bool,
                             missing: bool, present: bool, several: bool)
    ensures Route(v, req.(commands := cmds), slot, owner, pubsub, missing, present, several)
            == Route(v, req, slot, owner, pubsub, missing, present, several)
  {
  }

  lemma FlagBreaks(a: seq<Ref>)
    requires a != [] && a[0].crosses
    ensures !OneSlot(a)
  {
  }

  lemma SameAnswers(v: View, a: seq<Ref>, b: seq<Ref>)
    requires SameRefs(v, a, b)
    ensures SomeMissing(v, a) == SomeMissing(v, b) && SomePresent(v, a) == SomePresent(v, b)
    ensures a != [] ==> DifferentKeys(a) == DifferentKeys(b)
  {
    hide KeySlot;
    if SomeMissing(v, a) { var i :| 0 <= i < |a| && a[i].looked && !v.present(a[i].key); assert b[i].looked; }
    if SomePresent(v, a) { var i :| 0 <= i < |a| && a[i].looked && v.present(a[i].key); assert b[i].looked; }
    if a != [] && DifferentKeys(a) { var i :| 0 <= i < |a| && a[i].key != a[0].key; assert b[i].key != b[0].key; }
  }
}
