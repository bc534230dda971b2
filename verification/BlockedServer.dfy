/** Clients blocked on keys: the operations on the shared dictionaries, lists and counters. */
module BlockedServer {
  import opened BlockedIndex

  /** What a command that runs again does: it may signal keys, and it may block again. */
  datatype Rerun = Rerun(signals: seq<(Key, BType, bool)>, blocks: bool, t: BType, keys: seq<Key>, onNokey: bool)

  class Server {
    var clients: map<Client, BState>
    var blocking: map<Key, seq<Client>>
    var nokey: map<Key, nat>
    var byType: map<BType, nat>
    var ready: set<Key>
    var live: seq<Key>
    var detached: seq<Key>
    var clock: nat

    function Now(): State
      reads this
    {
      State(clients, blocking, nokey, byType, ready, live, detached, clock)
    }

    ghost predicate Valid()
      reads this
    {
      Inv(Now())
    }

    constructor (who: set<Client>)
      ensures Valid() && Now() == AllFree(who)
    {
      clients := map c | c in who :: BState(NONE, {}, false, 0);
      blocking := map[];
      nokey := map[];
      byType := map[LIST := 0, ZSET := 0, STREAM := 0, MODULE := 0, OTHER := 0];
      ready := {};
      live := [];
      detached := [];
      clock := 1;
      new;
      AllFreeInv(who);
    }

    /** `blockForKeys`: the client is entered in both indexes for every key it does not hold yet. */
    method BlockForKeys(c: Client, t: BType, keys: seq<Key>, onNokey: bool)
      requires Valid() && c in clients && clients[c].btype == NONE && t != NONE && (OnKeys(t) || keys == [])
      modifies this
      ensures Valid() && t in old(byType) && Now() == BlockedIndex.BlockForKeys(old(Now()), c, t, keys, onNokey)
      ensures clients == old(clients)[c := BState(t, (set k | k in keys), onNokey, old(clock))]
      ensures ready == old(ready) && live == old(live) && detached == old(detached)
    {
      hide Inv, AddKey;
      BlockKeepsInv(Now(), c, t, keys, onNokey);
      clients := clients[c := clients[c].(onNokey := onNokey, since := clock)];
      clock := clock + 1;
      ghost var marked := Now();
      for j := 0 to |keys|
        invariant Now() == AddKeys(marked, c, keys[..j])
      {
        assert keys[..j + 1][..j] == keys[..j];
        AddOneKey(c, keys[j]);
      }
      assert keys[..|keys|] == keys;
      clients := clients[c := clients[c].(btype := t)];
      byType := byType[t := byType[t] + 1];
    }

    method AddOneKey(c: Client, k: Key)
      requires c in clients
      modifies this
      ensures Now() == AddKey(old(Now()), c, k)
    {
      if k in clients[c].keys {
        return;
      }
      if clients[c].onNokey {
        if k !in nokey {
          nokey := nokey[k := 1];
        } else {
          nokey := nokey[k := nokey[k] + 1];
        }
      }
      clients := clients[c := clients[c].(keys := clients[c].keys + {k})];
      if k !in blocking {
        var none: seq<Client> := [];
        assert none + [c] == [c];
        blocking := blocking[k := [c]];
      } else {
        blocking := blocking[k := blocking[k] + [c]];
      }
    }

    /** `releaseBlockedEntry`; its two assertions hold. */
    method ReleaseBlockedEntry(c: Client, k: Key)
      requires Valid() && c in clients && k in clients[c].keys
      modifies this
      ensures Valid() && Now() == Release(old(Now()), c, k)
      ensures clients == old(clients)[c := old(clients)[c].(keys := old(clients)[c].keys - {k})]
      ensures ready == old(ready) && live == old(live) && detached == old(detached)
    {
      hide Without;
      ReleaseKeepsIndex(Now(), c, k);
      ReleaseKeepsInv(Now(), c, k);
      assert k in blocking;
      var l := Without(blocking[k], c);
      if l == [] {
        blocking := blocking - {k};
        nokey := nokey - {k};
      } else {
        blocking := blocking[k := l];
        if clients[c].onNokey {
          assert k in nokey;
          if nokey[k] <= 1 {
            nokey := nokey - {k};
          } else {
            nokey := nokey[k := nokey[k] - 1];
          }
        }
      }
      clients := clients[c := clients[c].(keys := clients[c].keys - {k})];
    }

    /** `unblockClientWaitingData`: every key of the client is released, in any order. */
    method UnblockClientWaitingData(c: Client)
      requires Valid() && c in clients
      modifies this
      ensures Valid() && clients == old(clients)[c := old(clients)[c].(keys := {})] && byType == old(byType)
      ensures ready == old(ready) && live == old(live) && detached == old(detached) && clock == old(clock)
      ensures forall q :: q !in old(clients)[c].keys ==> Waiting(Now(), q) == old(Waiting(Now(), q))
    {
      hide Inv, Without, Release;
      while clients[c].keys != {}
        invariant Valid() && c in clients
        invariant clients[c].keys <= old(clients)[c].keys
        invariant forall q :: q !in old(clients)[c].keys ==> Waiting(Now(), q) == old(Waiting(Now(), q))
        invariant clients == old(clients)[c := old(clients)[c].(keys := clients[c].keys)] && byType == old(byType)
        invariant ready == old(ready) && live == old(live) && detached == old(detached) && clock == old(clock)
        decreases |clients[c].keys|
      {
        var k :| k in clients[c].keys;
        ghost var before := Now();
        ReleaseBlockedEntry(c, k);
        ReleasedClients(before, c, k);
        forall q ensures Waiting(Now(), q) == if q == k then Without(Waiting(before, k), c) else Waiting(before, q) {
          ReleaseWaiting(before, c, k, q);
        }
        ReleasedRest(before, c, k);
      }
    }

    /** `unblockClient`: only clients that wait for keys have keys to be released. */
    method UnblockClient(c: Client)
      requires Valid() && c in clients && clients[c].btype != NONE
      modifies this
      ensures Valid() && c in clients
      ensures clients == old(clients)[c := old(clients)[c].(btype := NONE, keys := {}, onNokey := false)]
      ensures ready == old(ready) && live == old(live) && detached == old(detached) && clock == old(clock)
      ensures forall d :: d != c && d in clients && d in old(clients) ==> clients[d] == old(clients)[d]
      ensures forall q :: q !in old(clients)[c].keys ==> Waiting(Now(), q) == old(Waiting(Now(), q))
    {
      hide IndexOk, OfType, ReadyOk;
      if OnKeys(clients[c].btype) {
        UnblockClientWaitingData(c);
      }
      FreeKeepsInv(Now(), c);
      var t := clients[c].btype;
      byType := byType[t := byType[t] - 1];
      clients := clients[c := clients[c].(btype := NONE, onNokey := false)];
    }

    method SignalKeyAsReady(k: Key, t: BType, deleted: bool)
      requires Valid()
      modifies this
      ensures Valid() && Now() == Signal(old(Now()), k, t, deleted)
      ensures Signalled(old(Now()), Now(), k, t, deleted)
    {
      hide Inv, Signalled;
      SignalKeepsInv(Now(), k, t, deleted);
      SignalMeans(Now(), k, t, deleted);
      if t == NONE {
        return;
      }
      if (t !in byType || byType[t] == 0) && (MODULE !in byType || byType[MODULE] == 0) {
        return;
      }
      if deleted {
        if k !in nokey { return; }
      } else {
        if k !in blocking { return; }
      }
      if k in ready {
        return;
      }
      ready := ready + {k};
      live := live + [k];
    }

    /** The client leaves the waiting list of the key, then every other one. */
    method LeaveKey(c: Client, k: Key)
      requires Valid() && c in clients && k in clients[c].keys && clients[c].btype != MODULE
      modifies this
      ensures Valid() && detached == old(detached)
      ensures clients == old(clients)[c := old(clients)[c].(btype := NONE, keys := {}, onNokey := false)]
      ensures Waiting(Now(), k) == Without(old(Waiting(Now(), k)), c)
    {
      hide IndexOk, CountsOk, ReadyOk, Without, Release;
      assert clients[c].btype == STREAM || clients[c].btype == LIST || clients[c].btype == ZSET;
      ghost var before := Now();
      ReleaseBlockedEntry(c, k);
      ReleasedClients(before, c, k);
      ReleaseWaiting(before, c, k, k);
      ReleasedRest(before, c, k);
      UnblockClient(c);
    }

    /** A client leaves the waiting list of a key that is ready, and its command runs again. */
    method UnblockClientOnKey(c: Client, k: Key, again: Rerun)
      requires Valid() && c in clients && k in clients[c].keys && clients[c].btype != MODULE && Sensible(again)
      modifies this
      ensures Valid() && clients.Keys == old(clients).Keys && detached == old(detached)
      ensures forall d :: d != c && d in clients ==> d in old(clients) && clients[d] == old(clients)[d]
      ensures c in clients && HasRun(clients[c], again)
      ensures Waiting(Now(), k) == Without(old(Waiting(Now(), k)), c) + Rejoins(again, c, k)
    {
      hide IndexOk, CountsOk, ReadyOk, FreeOk, Without, Release;
      LeaveKey(c, k);
      ghost var left := Waiting(Now(), k);
      for i := 0 to |again.signals|
        invariant Valid() && clients.Keys == old(clients).Keys && detached == old(detached)
        invariant c in clients && clients[c].btype == NONE && clients[c].keys == {} && !clients[c].onNokey
        invariant forall d :: d != c && d in clients ==> d in old(clients) && clients[d] == old(clients)[d]
        invariant Waiting(Now(), k) == left
      {
        SignalKeyAsReady(again.signals[i].0, again.signals[i].1, again.signals[i].2);
      }
      if again.blocks {
        ghost var now := Now();
        BlockForKeys(c, again.t, again.keys, again.onNokey);
        BlockedOthers(now, c, again.t, again.keys, again.onNokey);
        BlockedWaiting(now, c, again.t, again.keys, again.onNokey, k);
      } else {
        assert left + [] == left;
      }
    }

    /** `moduleUnblockClientOnKey`: the module's callback runs and may signal keys. A module client leaves its
        lists later, when the module's request to unblock it is handled. */
    method TryModuleClient(again: Rerun)
      requires Valid()
      modifies this
      ensures Valid() && clients == old(clients) && blocking == old(blocking) && detached == old(detached)
    {
      hide Inv;
      for i := 0 to |again.signals|
        invariant Valid() && clients == old(clients) && blocking == old(blocking) && detached == old(detached)
      {
        SignalKeyAsReady(again.signals[i].0, again.signals[i].1, again.signals[i].2);
      }
    }

    /** What is done for one client of the list: it is served when its type is that of the key, or when it
        waits for the key to go away. A module client is tried for a key of any type. */
    method VisitClient(c: Client, k: Key, o: BType, again: Rerun) returns (hit: bool, tried: bool)
      requires Valid() && c in clients && k in clients[c].keys && Sensible(again)
      modifies this
      ensures Valid() && clients.Keys == old(clients).Keys && detached == old(detached)
      ensures forall d :: d != c && d in clients ==> d in old(clients) && clients[d] == old(clients)[d]
      ensures hit
              <==> && ((o != NONE && old(clients)[c].btype == o) || old(clients)[c].onNokey)
                   && old(clients)[c].btype != MODULE
      ensures hit ==> HasRun(clients[c], again)
      ensures hit ==> Waiting(Now(), k) == Without(old(Waiting(Now(), k)), c) + Rejoins(again, c, k)
      ensures tried <==> old(clients)[c].btype == MODULE && (o != NONE || old(clients)[c].onNokey)
      ensures !hit ==> clients == old(clients) && blocking == old(blocking)
      ensures !hit && !tried ==> Now() == old(Now())
    {
      hide Inv, Without, HasRun;
      hit, tried := false, false;
      if (o != NONE && clients[c].btype == o) || (o != NONE && clients[c].btype == MODULE) || clients[c].onNokey {
        if clients[c].btype != MODULE {
          UnblockClientOnKey(c, k, again);
          hit := true;
        } else {
          TryModuleClient(again);
          tried := true;
        }
      }
    }

    /** `handleClientsBlockedOnKey`: it walks the waiting list itself, with the next node saved before a
        client is served and no more steps than the list had clients at first. Meanwhile served clients
        leave the list, and those that block again join its end; `typeAt` is the type of the key when the
        n-th client is visited. */
    method HandleClientsBlockedOnKey(k: Key, typeAt: nat -> BType, rerun: Client -> Rerun)
      returns (visited: seq<Client>, served: seq<Client>, tried: seq<Client>)
      requires Valid() && forall c :: Sensible(rerun(c))
      modifies this
      ensures Valid() && detached == old(detached)
      ensures visited == old(Waiting(Now(), k))
      ensures served == ToServe(old(Now()), old(Waiting(Now(), k)), typeAt, |old(Waiting(Now(), k))|)
      ensures tried == ToTry(old(Now()), old(Waiting(Now(), k)), typeAt, |old(Waiting(Now(), k))|)
      ensures Served(old(Now()), Now(), served, rerun)
    {
      hide Inv, Without, Rejoins, Sensible, IndexOf, Walk, ToServe, ToTry, HasRun, Served;
      visited, served, tried := [], [], [];
      ghost var s0 := Now();
      ghost var waiting := Waiting(s0, k);
      ghost var skipped: seq<Client>, added: seq<Client> := [], [];
      WaitingOk(s0, k);
      WalkStarts(s0, k, typeAt);
      NobodyServed(s0, rerun);
      if k !in blocking { return; }
      var next := if |blocking[k]| == 0 then Nobody else Node(blocking[k][0]);
      var count := |blocking[k]|;
      while next.Node? && count > 0
        invariant 0 <= count == |waiting| - |visited| && visited == waiting[..|visited|]
        invariant Valid() && detached == s0.detached && Walk(Now(), s0, k, skipped, added, |visited|)
        invariant count > 0 ==> next == Node(waiting[|visited|])
        invariant served == ToServe(s0, waiting, typeAt, |visited|) && Served(s0, Now(), served, rerun)
        invariant tried == ToTry(s0, waiting, typeAt, |visited|)
        decreases count
      {
        var c := next.client;
        ghost var before := Now();
        WalkAt(before, s0, k, skipped, added, |visited|);
        var pos := IndexOf(blocking[k], c);
        WalkNext(before, s0, k, skipped, added, |visited|, pos);
        next := if pos + 1 < |blocking[k]| then Node(blocking[k][pos + 1]) else Nobody;
        count := count - 1;
        var again := rerun(c);
        var hit, asked := VisitClient(c, k, typeAt(|visited|), again);
        ServeOne(s0, waiting, typeAt, |visited|);
        ServedMore(s0, before, Now(), served, rerun, c, hit);
        if hit {
          served := served + [c];
          WalkServed(before, Now(), s0, k, skipped, added, |visited|, Rejoins(again, c, k));
          added := added + Rejoins(again, c, k);
        } else {
          WalkSkipped(before, Now(), s0, k, skipped, added, |visited|);
          skipped := skipped + [c];
          if asked { tried := tried + [c]; }
        }
        visited := visited + [c];
      }
      assert waiting[..|waiting|] == waiting;
    }

    /** One round of `handleClientsBlockedOnKeys`: the list is taken over and emptied key by key. Keys
        signalled meanwhile go to the new list. `at[i]` is the state in which the i-th key is taken up. */
    method ServeRound(r: Round) returns (handled: seq<Key>, ghost served: seq<seq<Client>>, ghost at: seq<State>)
      requires Valid() && detached == [] && forall c :: Sensible(r.rerun(c))
      modifies this
      ensures Valid() && RoundDone(old(Now()), Now(), r, handled, served, at)
    {
      hide Inv, HandledKey, Served, Sensible, SoFar, RoundDone, ToServe;
      ghost var s0 := Now();
      DetachKeepsInv(s0);
      detached := live;
      live := [];
      handled, served, at := [], [], [Now()];
      SoFarStarts(s0, r);
      while detached != []
        invariant Valid() && SoFar(s0, Now(), r, handled, served, at)
        decreases |detached|
      {
        var k := detached[0];
        ghost var before := Now();
        TakeHeadKeepsInv(before);
        ready := ready - {k};
        detached := detached[1..];
        WaitingOk(Now(), k);
        var _, who, _ := HandleClientsBlockedOnKey(k, r.typeAt(k), r.rerun);
        KeyHandled(before, Now(), k, r, who);
        SoFarNext(s0, before, Now(), r, handled, served, at, who);
        handled, served, at := handled + [k], served + [who], at + [Now()];
      }
      SoFarEnds(s0, Now(), r, handled, served, at);
    }

    /** `handleClientsBlockedOnKeys`: rounds until no key is ready. The commands of round `i` behave as
        `rounds[i]` says; as commands may signal keys for ever, the rounds considered are given. */
    method HandleClientsBlockedOnKeys(rounds: seq<Round>) returns (n: nat, ghost at: seq<State>)
      requires Valid() && detached == []
      requires forall i, c :: 0 <= i < |rounds| ==> Sensible(rounds[i].rerun(c))
      modifies this
      ensures Valid() && detached == [] && n <= |rounds| && (n < |rounds| ==> live == [])
      ensures |at| == n + 1 && at[0] == old(Now()) && at[n] == Now()
      ensures forall i :: 0 <= i < n ==> at[i].live != [] && SomeRound(at[i], at[i + 1], rounds[i])
    {
      hide Inv, RoundDone, Sensible;
      n, at := 0, [Now()];
      while |live| != 0 && n < |rounds|
        invariant Valid() && detached == [] && n <= |rounds|
        invariant |at| == n + 1 && at[0] == old(Now()) && at[n] == Now()
        invariant forall i :: 0 <= i < n ==> at[i].live != [] && SomeRound(at[i], at[i + 1], rounds[i])
        decreases |rounds| - n
      {
        ghost var before := Now();
        var handled, served, inner := ServeRound(rounds[n]);
        RoundEnds(before, Now(), rounds[n], handled, served, inner);
        n, at := n + 1, at + [Now()];
      }
    }
  }

  /** What the keys hold and what the commands do in one round. */
  datatype Round = Round(typeAt: Key -> nat -> BType, rerun: Client -> Rerun)

  /** The keys that were ready are handled in order, each from the state in which the one before left the server. */
  ghost predicate RoundDone(s: State, s': State, r: Round, handled: seq<Key>, served: seq<seq<Client>>,
                            at: seq<State>)
    requires s.detached == []
  {
    && s'.detached == [] && handled == s.live
    && |at| == |handled| + 1 && |served| == |handled| && at[0] == Detach(s) && at[|handled|] == s'
    && forall i :: 0 <= i < |handled| ==> HandledKey(at[i], at[i + 1], handled[i], r, served[i])
  }

  /** The round so far: the keys handled and those still to be taken up are the ones that were ready. */
  ghost predicate SoFar(s0: State, s: State, r: Round, handled: seq<Key>, served: seq<seq<Client>>, at: seq<State>)
    requires s0.detached == []
  {
    && handled + s.detached == s0.live
    && |at| == |handled| + 1 && |served| == |handled| && at[0] == Detach(s0) && at[|handled|] == s
    && forall i :: 0 <= i < |handled| ==> HandledKey(at[i], at[i + 1], handled[i], r, served[i])
  }

  lemma SoFarStarts(s0: State, r: Round)
    requires s0.detached == []
    ensures SoFar(s0, Detach(s0), r, [], [], [Detach(s0)])
  {
    assert [] + Detach(s0).detached == s0.live;
  }

  lemma SoFarNext(s0: State, s: State, s': State, r: Round, handled: seq<Key>, served: seq<seq<Client>>,
                  at: seq<State>, who: seq<Client>)
    requires s0.detached == [] && SoFar(s0, s, r, handled, served, at) && s.detached != []
    requires s'.detached == s.detached[1..] && HandledKey(s, s', s.detached[0], r, who)
    ensures SoFar(s0, s', r, handled + [s.detached[0]], served + [who], at + [s'])
  {
    hide HandledKey;
    var handled', served', at' := handled + [s.detached[0]], served + [who], at + [s'];
    assert handled' + s'.detached == handled + s.detached;
    forall i | 0 <= i < |handled'| ensures HandledKey(at'[i], at'[i + 1], handled'[i], r, served'[i]) {
      if i < |handled| {
        assert at'[i] == at[i] && at'[i + 1] == at[i + 1] && handled'[i] == handled[i] && served'[i] == served[i];
      }
    }
  }

  lemma SoFarEnds(s0: State, s: State, r: Round, handled: seq<Key>, served: seq<seq<Client>>, at: seq<State>)
    requires s0.detached == [] && SoFar(s0, s, r, handled, served, at) && s.detached == []
    ensures RoundDone(s0, s, r, handled, served, at)
  {
    hide HandledKey;
    assert handled + [] == handled;
  }

  ghost predicate SomeRound(s: State, s': State, r: Round) {
    s.detached == [] && exists handled, served, at :: RoundDone(s, s', r, handled, served, at)
  }

  lemma RoundEnds(s: State, s': State, r: Round, handled: seq<Key>, served: seq<seq<Client>>, at: seq<State>)
    requires s.detached == [] && RoundDone(s, s', r, handled, served, at)
    ensures s'.detached == [] && SomeRound(s, s', r)
  {
    hide HandledKey;
  }

  /** The cursor of a list iteration: the node to visit next. */
  datatype Cursor = Node(client: Client) | Nobody

  /** A command that blocks again does so on keys, or on something that is not a key. */
  predicate Sensible(again: Rerun) {
    again.blocks ==> again.t != NONE && (OnKeys(again.t) || again.keys == [])
  }

  /** A client whose command ran again is free, or blocked on what the command waits for. */
  ghost predicate HasRun(b: BState, again: Rerun) {
    && b.btype == (if again.blocks then again.t else NONE)
    && b.keys == (if again.blocks then set q | q in again.keys else {})
    && b.onNokey == (again.blocks && again.onNokey)
  }

  /** The served clients have run, and every other client is as before. */
  ghost predicate Served(s: State, s': State, served: seq<Client>, rerun: Client -> Rerun) {
    && s'.clients.Keys == s.clients.Keys
    && forall d :: d in s'.clients ==>
         if d in served then HasRun(s'.clients[d], rerun(d)) else s'.clients[d] == s.clients[d]
  }

  lemma NobodyServed(s: State, rerun: Client -> Rerun)
    ensures Served(s, s, [], rerun)
  {
  }

  /** One more client is served, or passed over. */
  lemma ServedMore(s0: State, s: State, s': State, served: seq<Client>, rerun: Client -> Rerun, c: Client, hit: bool)
    requires Served(s0, s, served, rerun) && c in s.clients && s'.clients.Keys == s.clients.Keys
    requires forall d :: d != c && d in s'.clients ==> d in s.clients && s'.clients[d] == s.clients[d]
    requires if hit then HasRun(s'.clients[c], rerun(c)) else s'.clients == s.clients
    ensures Served(s0, s', if hit then served + [c] else served, rerun)
  {
    hide HasRun;
  }

  /** The end of the waiting list of a key after the command ran again. */
  function Rejoins(again: Rerun, c: Client, k: Key): seq<Client> {
    if again.blocks && k in again.keys then [c] else []
  }

  /** The list during the walk: clients passed over, those still to be visited, and those that joined. */
  ghost predicate Walk(s: State, s0: State, k: Key, skipped: seq<Client>, added: seq<Client>, i: nat) {
    var waiting := Waiting(s0, k);
    && i <= |waiting| && Waiting(s, k) == skipped + waiting[i..] + added
    && Inv(s0) && s.clients.Keys == s0.clients.Keys
    && forall j :: i <= j < |waiting| ==>
         && waiting[j] in s.clients && waiting[j] in s0.clients
         && s.clients[waiting[j]] == s0.clients[waiting[j]]
  }

  lemma WalkStarts(s: State, k: Key, typeAt: nat -> BType)
    requires Inv(s)
    ensures Walk(s, s, k, [], [], 0)
    ensures KnownClients(s, Waiting(s, k))
    ensures ToServe(s, Waiting(s, k), typeAt, 0) == [] && ToTry(s, Waiting(s, k), typeAt, 0) == []
  {
    hide Inv;
    WaitingOk(s, k);
    var l := Waiting(s, k);
    assert [] + l[0..] + [] == l;
  }

  lemma WalkAt(s: State, s0: State, k: Key, skipped: seq<Client>, added: seq<Client>, i: nat)
    requires Inv(s) && Walk(s, s0, k, skipped, added, i) && i < |Waiting(s0, k)|
    ensures var c := Waiting(s0, k)[i];
            && c in s.clients && c in s0.clients && s.clients[c] == s0.clients[c] && k in s.clients[c].keys
            && k in s.blocking && c in s.blocking[k]
    ensures var waiting := Waiting(s0, k); waiting[..i] + [waiting[i]] == waiting[..i + 1]
  {
    hide Inv;
    WaitingOk(s0, k);
    var l := Waiting(s, k);
    assert l[|skipped|] == Waiting(s0, k)[i];
  }

  /** The saved next node is the next client of the initial list. */
  lemma WalkNext(s: State, s0: State, k: Key, skipped: seq<Client>, added: seq<Client>, i: nat, pos: nat)
    requires Inv(s) && Walk(s, s0, k, skipped, added, i) && i < |Waiting(s0, k)|
    requires pos < |Waiting(s, k)| && Waiting(s, k)[pos] == Waiting(s0, k)[i]
    ensures i + 1 < |Waiting(s0, k)| ==> pos + 1 < |Waiting(s, k)| && Waiting(s, k)[pos + 1] == Waiting(s0, k)[i + 1]
  {
    hide Inv;
    WaitingOk(s, k);
    var l := Waiting(s, k);
    assert l[|skipped|] == Waiting(s0, k)[i];
    UniquePlace(l, pos, |skipped|);
  }

  lemma WalkSkipped(s: State, s': State, s0: State, k: Key, skipped: seq<Client>, added: seq<Client>, i: nat)
    requires Walk(s, s0, k, skipped, added, i) && i < |Waiting(s0, k)|
    requires s'.clients == s.clients && s'.blocking == s.blocking
    ensures Walk(s', s0, k, skipped + [Waiting(s0, k)[i]], added, i + 1)
  {
    hide Inv;
    var waiting := Waiting(s0, k);
    assert waiting[i..] == [waiting[i]] + waiting[i + 1..];
    assert skipped + waiting[i..] + added == (skipped + [waiting[i]]) + waiting[i + 1..] + added;
  }

  lemma WalkServed(s: State, s': State, s0: State, k: Key, skipped: seq<Client>, added: seq<Client>, i: nat,
                   re: seq<Client>)
    requires Inv(s) && Walk(s, s0, k, skipped, added, i) && i < |Waiting(s0, k)| && s'.clients.Keys == s.clients.Keys
    requires Waiting(s', k) == Without(Waiting(s, k), Waiting(s0, k)[i]) + re
    requires forall d :: d != Waiting(s0, k)[i] && d in s'.clients ==> d in s.clients && s'.clients[d] == s.clients[d]
    ensures Walk(s', s0, k, skipped, added + re, i + 1)
  {
    hide Inv;
    var waiting := Waiting(s0, k);
    var c, rest := waiting[i], waiting[i + 1..] + added;
    WaitingOk(s, k);
    WaitingOk(s0, k);
    assert waiting[i..] == [c] + waiting[i + 1..];
    assert Waiting(s, k) == skipped + [c] + rest;
    NotElsewhere(skipped, c, rest);
    WithoutMiddle(skipped, c, rest);
    assert skipped + rest + re == skipped + waiting[i + 1..] + (added + re);
    forall j | i + 1 <= j < |waiting|
      ensures waiting[j] in s'.clients && s'.clients[waiting[j]] == s0.clients[waiting[j]]
    {
      assert waiting[j] != c;
    }
  }

  lemma ServeOne(s: State, waiting: seq<Client>, typeAt: nat -> BType, n: nat)
    requires n < |waiting| && KnownClients(s, waiting)
    ensures var c, o := waiting[n], typeAt(n);
            var b := s.clients[c];
            && ToServe(s, waiting, typeAt, n + 1)
               == ToServe(s, waiting, typeAt, n)
                  + (if ((o != NONE && b.btype == o) || b.onNokey) && b.btype != MODULE then [c] else [])
            && ToTry(s, waiting, typeAt, n + 1)
               == ToTry(s, waiting, typeAt, n) + if b.btype == MODULE && (o != NONE || b.onNokey) then [c] else []
  {
  }

  function IndexOf(l: seq<Client>, c: Client): (i: nat)
    requires c in l
    ensures i < |l| && l[i] == c
  {
    if l[0] == c then 0 else 1 + IndexOf(l[1..], c)
  }

  lemma UniquePlace(l: seq<Client>, i: nat, j: nat)
    requires i < |l| && j < |l| && l[i] == l[j] && NoDuplicates(l)
    ensures i == j
  {
  }

  lemma NotElsewhere(a: seq<Client>, c: Client, b: seq<Client>)
    requires NoDuplicates(a + [c] + b)
    ensures c !in a && c !in b
  {
    var l := a + [c] + b;
    assert l[|a|] == c;
    forall i | 0 <= i < |a| ensures a[i] != c { assert l[i] == a[i]; }
    forall i | 0 <= i < |b| ensures b[i] != c { assert l[|a| + 1 + i] == b[i]; }
  }

  lemma ReleasedRest(s: State, c: Client, k: Key)
    requires c in s.clients
    ensures var s' := Release(s, c, k);
            s'.byType == s.byType && s'.ready == s.ready && s'.live == s.live && s'.detached == s.detached
              && s'.clock == s.clock
  {
    hide Without;
  }

  /** Exactly the waiting clients whose type matches are served, in blocking order; nobody else changes. */
  ghost predicate HandledKey(s: State, s': State, k: Key, r: Round, served: seq<Client>) {
    && KnownClients(s, Waiting(s, k)) && served == ToServe(s, Waiting(s, k), r.typeAt(k), |Waiting(s, k)|)
    && Served(s, s', served, r.rerun)
  }

  lemma {:induction false} SameToServe(s: State, s': State, waiting: seq<Client>, typeAt: nat -> BType, n: nat)
    requires n <= |waiting| && KnownClients(s, waiting) && s'.clients == s.clients
    ensures ToServe(s', waiting, typeAt, n) == ToServe(s, waiting, typeAt, n)
  {
    if n > 0 { SameToServe(s, s', waiting, typeAt, n - 1); }
  }

  lemma KeyHandled(s: State, s': State, k: Key, r: Round, served: seq<Client>)
    requires Inv(s) && s.detached != []
    requires KnownClients(s, Waiting(s, k))
    requires served == ToServe(TakeHead(s), Waiting(s, k), r.typeAt(k), |Waiting(s, k)|)
    requires Served(TakeHead(s), s', served, r.rerun)
    ensures HandledKey(s, s', k, r, served)
  {
    hide Inv, ToServe, HasRun;
    SameToServe(s, TakeHead(s), Waiting(s, k), r.typeAt(k), |Waiting(s, k)|);
  }

  /** The clients of the waiting list that a ready key serves, in order. */
  function ToServe(s: State, waiting: seq<Client>, typeAt: nat -> BType, n: nat): seq<Client>
    requires n <= |waiting| && forall j :: 0 <= j < |waiting| ==> waiting[j] in s.clients
  {
    if n == 0 then []
    else
      var c, o := waiting[n - 1], typeAt(n - 1);
      var b := s.clients[c];
      ToServe(s, waiting, typeAt, n - 1)
      + if ((o != NONE && b.btype == o) || b.onNokey) && b.btype != MODULE then [c] else []
  }

  /** A client of the list is to be served when its type is that of the key as it is visited, or when it waits for the
      key to go away; module clients are not served here. */
  predicate IsDue(s: State, waiting: seq<Client>, typeAt: nat -> BType, i: nat)
    requires i < |waiting| && waiting[i] in s.clients
  {
    var b := s.clients[waiting[i]];
    b.btype != MODULE && (b.onNokey || (b.btype == typeAt(i) && typeAt(i) != NONE))
  }

  /** `served` are the clients at the places `at`, which are exactly the due ones before `n`, in order. */
  ghost predicate DueClients(s: State, waiting: seq<Client>, typeAt: nat -> BType, n: nat, served: seq<Client>,
                             at: seq<nat>)
    requires n <= |waiting| && KnownClients(s, waiting)
  {
    && |at| == |served|
    && (forall p :: 0 <= p < |at| ==> at[p] < n && served[p] == waiting[at[p]])
    && (forall p, q :: 0 <= p < q < |at| ==> at[p] < at[q])
    && forall i :: 0 <= i < n ==> (i in at <==> IsDue(s, waiting, typeAt, i))
  }

  lemma {:induction false} ToServeMeans(s: State, waiting: seq<Client>, typeAt: nat -> BType, n: nat)
    returns (at: seq<nat>)
    requires n <= |waiting| && KnownClients(s, waiting)
    ensures DueClients(s, waiting, typeAt, n, ToServe(s, waiting, typeAt, n), at)
  {
    hide DueClients;
    if n == 0 {
      at := [];
      NobodyDue(s, waiting, typeAt);
    } else {
      at := ToServeMeans(s, waiting, typeAt, n - 1);
      NextDue(s, waiting, typeAt, n - 1, ToServe(s, waiting, typeAt, n - 1), at);
      if IsDue(s, waiting, typeAt, n - 1) { at := at + [n - 1]; }
      assert ToServe(s, waiting, typeAt, n - 1) + [] == ToServe(s, waiting, typeAt, n - 1);
    }
  }

  lemma NobodyDue(s: State, waiting: seq<Client>, typeAt: nat -> BType)
    requires KnownClients(s, waiting)
    ensures DueClients(s, waiting, typeAt, 0, [], [])
  {
  }

  lemma NextDue(s: State, waiting: seq<Client>, typeAt: nat -> BType, n: nat, served: seq<Client>, at: seq<nat>)
    requires n < |waiting| && KnownClients(s, waiting) && DueClients(s, waiting, typeAt, n, served, at)
    ensures if IsDue(s, waiting, typeAt, n) then
              DueClients(s, waiting, typeAt, n + 1, served + [waiting[n]], at + [n])
            else DueClients(s, waiting, typeAt, n + 1, served, at)
  {
    hide IsDue;
    assert n !in at;
    if IsDue(s, waiting, typeAt, n) {
      var at' := at + [n];
      assert at'[|at|] == n;
      assert forall i :: i in at' <==> i in at || i == n;
    }
  }

  /** The module clients of the waiting list whose callback is called, in order. */
  function ToTry(s: State, waiting: seq<Client>, typeAt: nat -> BType, n: nat): seq<Client>
    requires n <= |waiting| && forall j :: 0 <= j < |waiting| ==> waiting[j] in s.clients
  {
    if n == 0 then []
    else
      var b := s.clients[waiting[n - 1]];
      ToTry(s, waiting, typeAt, n - 1)
      + if b.btype == MODULE && (typeAt(n - 1) != NONE || b.onNokey) then [waiting[n - 1]] else []
  }

  lemma WaitingOk(s: State, k: Key)
    requires Inv(s)
    ensures var l := Waiting(s, k);
            && (forall j :: 0 <= j < |l| ==> l[j] in s.clients && k in s.clients[l[j]].keys)
            && NoDuplicates(l)
  {
    hide OnNokey;
    assert KnownClients(s, Waiting(s, k)) && InOrder(s, Waiting(s, k));
  }

  lemma BlockedOthers(s: State, c: Client, t: BType, keys: seq<Key>, onNokey: bool)
    requires Inv(s) && c in s.clients && s.clients[c].btype == NONE && t != NONE && t in s.byType
    requires (OnKeys(t) || keys == [])
    ensures var s' := BlockedIndex.BlockForKeys(s, c, t, keys, onNokey);
            s'.clients.Keys == s.clients.Keys && s'.detached == s.detached && s'.clients[c].btype == t
              && s'.clients[c].onNokey == onNokey
            && forall d :: d != c && d in s'.clients ==> s'.clients[d] == s.clients[d]
  {
    hide IndexOk, AddKeys;
    MarkKeepsIndex(s, c, onNokey);
    AddKeysKeepsIndex(Mark(s, c, onNokey), c, keys);
  }
}
