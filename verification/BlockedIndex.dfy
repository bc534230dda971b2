/** Clients blocked on keys: the indexes kept for them and what every operation keeps true of them. */
module BlockedIndex {
  /** A key of one of the databases. */
  datatype Key = Key(db: nat, name: string)

  type Client = nat

  datatype BType = NONE | LIST | ZSET | STREAM | MODULE | OTHER

  /** The blocking state of a client. `since` orders clients by the moment they blocked. */
  datatype BState = BState(btype: BType, keys: set<Key>, onNokey: bool, since: nat)

  datatype State = State(
    clients: map<Client, BState>,
    blocking: map<Key, seq<Client>>,
    nokey: map<Key, nat>,
    byType: map<BType, nat>,
    ready: set<Key>,
    live: seq<Key>,
    detached: seq<Key>,
    clock: nat)

  // ---------------------------------------------------------------- the agreement of the indexes

  function Waiting(s: State, k: Key): seq<Client> {
    if k in s.blocking then s.blocking[k] else []
  }

  predicate KnownClients(s: State, l: seq<Client>) {
    forall i :: 0 <= i < |l| ==> l[i] in s.clients
  }

  /** In the order in which they blocked. */
  predicate InOrder(s: State, l: seq<Client>)
    requires KnownClients(s, l)
  {
    forall i, j :: 0 <= i < j < |l| ==> s.clients[l[i]].since < s.clients[l[j]].since
  }

  /** How many of these clients also wait for the key to go away. */
  function OnNokey(s: State, l: seq<Client>): nat
    requires KnownClients(s, l)
  {
    if l == [] then 0 else OnNokey(s, l[..|l| - 1]) + if s.clients[l[|l| - 1]].onNokey then 1 else 0
  }

  /** A client holds a key exactly when it is in the waiting list of the key. */
  ghost predicate HoldsIffWaits(s: State) {
    forall c, k :: c in s.clients ==> (k in s.clients[c].keys <==> c in Waiting(s, k))
  }

  ghost predicate ListsOk(s: State) {
    && (forall k :: k in s.blocking ==> s.blocking[k] != [])
    && (forall k :: KnownClients(s, Waiting(s, k)) && InOrder(s, Waiting(s, k)))
  }

  ghost predicate NokeyOk(s: State)
    requires forall k :: KnownClients(s, Waiting(s, k))
  {
    forall k ::
      && (if k in s.nokey then s.nokey[k] else 0) == OnNokey(s, Waiting(s, k))
      && (k in s.nokey ==> s.nokey[k] > 0)
  }

  ghost predicate ClockOk(s: State) {
    forall c :: c in s.clients ==> s.clients[c].since < s.clock
  }

  /** The lists, the keys and the counters per key. */
  ghost predicate IndexOk(s: State) {
    HoldsIffWaits(s) && ListsOk(s) && NokeyOk(s) && ClockOk(s)
  }

  ghost function OfType(s: State, t: BType): set<Client> {
    set c | c in s.clients && s.clients[c].btype == t
  }

  ghost predicate CountsOk(s: State) {
    forall t :: t != NONE ==> t in s.byType && s.byType[t] == |OfType(s, t)|
  }

  /** Clients of these types wait for keys; the others wait for something else. */
  predicate OnKeys(t: BType) {
    t == LIST || t == ZSET || t == STREAM || t == MODULE
  }

  ghost predicate FreeOk(s: State) {
    forall c :: c in s.clients ==>
      && (s.clients[c].btype == NONE ==> !s.clients[c].onNokey)
      && (!OnKeys(s.clients[c].btype) ==> s.clients[c].keys == {})
  }

  predicate NoRepeats(l: seq<Key>) {
    forall i, j :: 0 <= i < j < |l| ==> l[i] != l[j]
  }

  /** Each ready key is queued exactly once, in one of the two lists. */
  ghost predicate ReadyOk(s: State) {
    NoRepeats(s.live + s.detached) && forall k :: k in s.ready <==> k in s.live + s.detached
  }

  ghost predicate Inv(s: State) {
    IndexOk(s) && CountsOk(s) && FreeOk(s) && ReadyOk(s)
  }

  // ---------------------------------------------------------------- lists

  function Without(l: seq<Client>, c: Client): seq<Client> {
    if l == [] then [] else if l[|l| - 1] == c then l[..|l| - 1] else Without(l[..|l| - 1], c) + [l[|l| - 1]]
  }

  predicate NoDuplicates(l: seq<Client>) {
    forall i, j :: 0 <= i < j < |l| ==> l[i] != l[j]
  }

  lemma {:induction false} WithoutElements(l: seq<Client>, c: Client)
    requires NoDuplicates(l)
    ensures forall d :: d in Without(l, c) <==> d in l && d != c
    decreases |l|
  {
    if l != [] {
      var most, last := l[..|l| - 1], l[|l| - 1];
      assert l == most + [last];
      assert NoDuplicates(most) && last !in most;
      if last != c { WithoutElements(most, c); }
    }
  }

  lemma {:induction false} WithoutOrder(s: State, l: seq<Client>, c: Client)
    requires KnownClients(s, l) && InOrder(s, l) && NoDuplicates(l)
    ensures KnownClients(s, Without(l, c)) && InOrder(s, Without(l, c))
    decreases |l|
  {
    if l != [] {
      var most, last := l[..|l| - 1], l[|l| - 1];
      if last != c {
        WithoutOrder(s, most, c);
        WithoutElements(most, c);
        var w := Without(most, c);
        forall i | 0 <= i < |w| ensures s.clients[w[i]].since < s.clients[last].since {
          assert w[i] in most;
          var j :| 0 <= j < |most| && most[j] == w[i];
          assert l[j] == most[j];
        }
      }
    }
  }

  lemma WithoutMembers(s: State, l: seq<Client>, c: Client)
    requires KnownClients(s, l) && InOrder(s, l)
    ensures forall d :: d in Without(l, c) <==> d in l && d != c
    ensures KnownClients(s, Without(l, c)) && InOrder(s, Without(l, c))
  {
    hide Without;
    assert NoDuplicates(l);
    WithoutElements(l, c);
    WithoutOrder(s, l, c);
  }

  lemma {:induction false} WithoutCount(s: State, l: seq<Client>, c: Client)
    requires KnownClients(s, l) && InOrder(s, l) && c in s.clients
    ensures KnownClients(s, Without(l, c))
    ensures OnNokey(s, Without(l, c)) == OnNokey(s, l) - if c in l && s.clients[c].onNokey then 1 else 0
    decreases |l|
  {
    hide OnNokey, InOrder;
    WithoutMembers(s, l, c);
    if l != [] {
      var most, last := l[..|l| - 1], l[|l| - 1];
      assert l == most + [last];
      OrderedPrefix(s, l);
      OnNokeyPush(s, most, last);
      if last != c {
        WithoutCount(s, most, c);
        WithoutMembers(s, most, c);
        OnNokeyPush(s, Without(most, c), last);
      } else {
        NotBefore(s, l, c);
      }
    }
  }

  lemma OrderedPrefix(s: State, l: seq<Client>)
    requires KnownClients(s, l) && InOrder(s, l) && l != []
    ensures KnownClients(s, l[..|l| - 1]) && InOrder(s, l[..|l| - 1])
  {
  }

  lemma NotBefore(s: State, l: seq<Client>, c: Client)
    requires KnownClients(s, l) && InOrder(s, l) && l != [] && l[|l| - 1] == c
    ensures c !in l[..|l| - 1]
  {
    forall j | 0 <= j < |l| - 1 ensures l[j] != c {
    }
  }

  /** Only the flags of the listed clients matter. */
  lemma {:induction false} SameFlags(s: State, s': State, l: seq<Client>)
    requires KnownClients(s, l) && KnownClients(s', l)
    requires forall i :: 0 <= i < |l| ==> s.clients[l[i]].onNokey == s'.clients[l[i]].onNokey
    ensures OnNokey(s, l) == OnNokey(s', l)
    decreases |l|
  {
    if l != [] { SameFlags(s, s', l[..|l| - 1]); }
  }

  lemma OnNokeyPush(s: State, l: seq<Client>, c: Client)
    requires KnownClients(s, l) && c in s.clients
    ensures OnNokey(s, l + [c]) == OnNokey(s, l) + if s.clients[c].onNokey then 1 else 0
  {
    assert (l + [c])[..|l|] == l;
  }

  // ---------------------------------------------------------------- blocking

  /** A client that is about to wait: it comes after all others. */
  function Mark(s: State, c: Client, onNokey: bool): State
    requires c in s.clients
  {
    s.(clients := s.clients[c := s.clients[c].(onNokey := onNokey, since := s.clock)], clock := s.clock + 1)
  }

  /** One key of `blockForKeys`; a key the client already holds is ignored. */
  function AddKey(s: State, c: Client, k: Key): State
    requires c in s.clients
  {
    if k in s.clients[c].keys then s
    else
      var nokey := if s.clients[c].onNokey then s.nokey[k := (if k in s.nokey then s.nokey[k] else 0) + 1] else s.nokey;
      s.(clients := s.clients[c := s.clients[c].(keys := s.clients[c].keys + {k})],
         blocking := s.blocking[k := Waiting(s, k) + [c]],
         nokey := nokey)
  }

  function AddKeys(s: State, c: Client, keys: seq<Key>): (s': State)
    requires c in s.clients
    ensures c in s'.clients && s'.clients[c].btype == s.clients[c].btype && s'.byType == s.byType
    decreases |keys|
  {
    if keys == [] then s else AddKey(AddKeys(s, c, keys[..|keys| - 1]), c, keys[|keys| - 1])
  }

  /** `blockClient`. */
  function BlockClient(s: State, c: Client, t: BType): State
    requires c in s.clients && t in s.byType
  {
    s.(clients := s.clients[c := s.clients[c].(btype := t)], byType := s.byType[t := s.byType[t] + 1])
  }

  function BlockForKeys(s: State, c: Client, t: BType, keys: seq<Key>, onNokey: bool): State
    requires c in s.clients && t in s.byType
  {
    BlockClient(AddKeys(Mark(s, c, onNokey), c, keys), c, t)
  }

  /** A client in no list can be marked. */
  lemma MarkKeepsIndex(s: State, c: Client, onNokey: bool)
    requires IndexOk(s) && c in s.clients && s.clients[c].keys == {}
    ensures IndexOk(Mark(s, c, onNokey))
    ensures Latest(Mark(s, c, onNokey), c)
  {
    hide OnNokey;
    var s' := Mark(s, c, onNokey);
    forall k
      ensures KnownClients(s', Waiting(s', k)) && InOrder(s', Waiting(s', k))
      ensures OnNokey(s', Waiting(s', k)) == OnNokey(s, Waiting(s, k))
    {
      assert KnownClients(s, Waiting(s, k)) && InOrder(s, Waiting(s, k));
      assert c !in Waiting(s, k);
      SameFlags(s, s', Waiting(s, k));
    }
  }

  /** The client blocked after everyone else. */
  ghost predicate Latest(s: State, c: Client) {
    c in s.clients && forall d :: d in s.clients && d != c ==> s.clients[d].since < s.clients[c].since
  }

  lemma AddKeyLists(s: State, c: Client, k: Key)
    requires HoldsIffWaits(s) && ListsOk(s) && Latest(s, c) && k !in s.clients[c].keys
    ensures ListsOk(AddKey(s, c, k))
  {
    hide OnNokey;
    var s', l := AddKey(s, c, k), Waiting(s, k);
    assert KnownClients(s, l) && InOrder(s, l) && c !in l;
    forall q ensures KnownClients(s', Waiting(s', q)) && InOrder(s', Waiting(s', q)) {
      assert KnownClients(s, Waiting(s, q)) && InOrder(s, Waiting(s, q));
    }
  }

  lemma AddKeyHeld(s: State, c: Client, k: Key)
    requires HoldsIffWaits(s) && c in s.clients && k !in s.clients[c].keys
    ensures HoldsIffWaits(AddKey(s, c, k)) && c in Waiting(AddKey(s, c, k), k)
  {
    var s', l := AddKey(s, c, k), Waiting(s, k);
    assert Waiting(s', k) == l + [c] && (l + [c])[|l|] == c;
    forall d, q | d in s'.clients ensures q in s'.clients[d].keys <==> d in Waiting(s', q) {
      assert q in s.clients[d].keys <==> d in Waiting(s, q);
      if q != k { assert Waiting(s', q) == Waiting(s, q); }
    }
  }

  lemma AddKeyNokey(s: State, c: Client, k: Key)
    requires c in s.clients && k !in s.clients[c].keys && ListsOk(s) && NokeyOk(s) && ListsOk(AddKey(s, c, k))
    ensures NokeyOk(AddKey(s, c, k))
  {
    hide OnNokey, InOrder;
    var s', l := AddKey(s, c, k), Waiting(s, k);
    assert KnownClients(s, l);
    OnNokeyPush(s, l, c);
    forall q
      ensures OnNokey(s', Waiting(s', q)) == OnNokey(s, Waiting(s, q)) + if q == k && s.clients[c].onNokey then 1 else 0
    {
      assert KnownClients(s, Waiting(s, q));
      assert KnownClients(s', Waiting(s', q));
      SameFlags(s, s', Waiting(s', q));
    }
  }

  lemma AddKeyKeepsIndex(s: State, c: Client, k: Key)
    requires IndexOk(s) && Latest(s, c)
    ensures IndexOk(AddKey(s, c, k)) && Latest(AddKey(s, c, k), c)
    ensures c in Waiting(AddKey(s, c, k), k)
  {
    hide HoldsIffWaits, ListsOk, NokeyOk;
    if k in s.clients[c].keys {
      HeldMeansWaits(s, c, k);
    } else {
      AddKeyLists(s, c, k);
      AddKeyHeld(s, c, k);
      AddKeyNokey(s, c, k);
    }
  }

  lemma HeldMeansWaits(s: State, c: Client, k: Key)
    requires HoldsIffWaits(s) && c in s.clients && k in s.clients[c].keys
    ensures c in Waiting(s, k)
  {
  }

  lemma {:induction false} AddKeysKeepsIndex(s: State, c: Client, keys: seq<Key>)
    requires IndexOk(s) && Latest(s, c)
    ensures IndexOk(AddKeys(s, c, keys)) && Latest(AddKeys(s, c, keys), c)
    ensures var s' := AddKeys(s, c, keys);
            s'.clients[c].keys == s.clients[c].keys + (set k | k in keys)
            && s'.clients == s.clients[c := s.clients[c].(keys := s'.clients[c].keys)]
            && s'.live == s.live && s'.detached == s.detached && s'.ready == s.ready && s'.byType == s.byType
    decreases |keys|
  {
    hide IndexOk;
    if keys != [] {
      var most, last := keys[..|keys| - 1], keys[|keys| - 1];
      assert keys == most + [last];
      AddKeysKeepsIndex(s, c, most);
      AddKeyKeepsIndex(AddKeys(s, c, most), c, last);
      assert (set k | k in keys) == (set k | k in most) + {last};
    }
  }

  lemma TypesMove(s: State, s': State, c: Client, t: BType)
    requires c in s.clients && s.clients[c].btype == NONE && t != NONE
    requires s'.clients.Keys == s.clients.Keys && s'.clients[c].btype == t
    requires forall d :: d in s.clients && d != c ==> s'.clients[d].btype == s.clients[d].btype
    ensures OfType(s', t) == OfType(s, t) + {c} && c !in OfType(s, t)
    ensures forall u :: u != t && u != NONE ==> OfType(s', u) == OfType(s, u)
  {
    forall u | u != t && u != NONE ensures OfType(s', u) == OfType(s, u) {
      forall d ensures d in OfType(s', u) <==> d in OfType(s, u) {
      }
    }
  }

  /** Changing the type of a client touches no index of keys. */
  lemma SameIndex(s: State, s': State)
    requires IndexOk(s) && s'.blocking == s.blocking && s'.nokey == s.nokey && s'.clock == s.clock
    requires s'.clients.Keys == s.clients.Keys
    requires forall c :: c in s.clients ==>
               && s'.clients[c].keys == s.clients[c].keys
               && s'.clients[c].onNokey == s.clients[c].onNokey && s'.clients[c].since == s.clients[c].since
    ensures IndexOk(s')
  {
    hide OnNokey;
    forall k
      ensures KnownClients(s', Waiting(s', k)) && InOrder(s', Waiting(s', k))
      ensures OnNokey(s', Waiting(s', k)) == OnNokey(s, Waiting(s, k))
    {
      assert KnownClients(s, Waiting(s, k)) && InOrder(s, Waiting(s, k));
      SameFlags(s, s', Waiting(s, k));
    }
  }

  lemma BlockCounts(s: State, s': State, c: Client, t: BType)
    requires CountsOk(s) && c in s.clients && s.clients[c].btype == NONE && t != NONE && t in s.byType
    requires s'.clients.Keys == s.clients.Keys && s'.clients[c].btype == t
    requires forall d :: d in s.clients && d != c ==> s'.clients[d].btype == s.clients[d].btype
    requires s'.byType == s.byType[t := s.byType[t] + 1]
    ensures CountsOk(s')
  {
    hide OfType;
    TypesMove(s, s', c, t);
  }

  /** A client that blocks on keys waits for exactly those keys, behind everyone else. */
  lemma BlockKeepsInv(s: State, c: Client, t: BType, keys: seq<Key>, onNokey: bool)
    requires Inv(s) && c in s.clients && s.clients[c].btype == NONE && t != NONE && (OnKeys(t) || keys == [])
    ensures t in s.byType && Inv(BlockForKeys(s, c, t, keys, onNokey))
    ensures var s' := BlockForKeys(s, c, t, keys, onNokey);
            && s'.clients == s.clients[c := BState(t, (set k | k in keys), onNokey, s.clock)]
            && s'.ready == s.ready && s'.live == s.live && s'.detached == s.detached
  {
    hide IndexOk, OfType, AddKeys, ReadyOk, FreeOk, BlockClient;
    assert t in s.byType;
    FreeHolds(s, c);
    MarkKeepsIndex(s, c, onNokey);
    var s1 := Mark(s, c, onNokey);
    AddKeysKeepsIndex(s1, c, keys);
    var s2 := AddKeys(s1, c, keys);
    assert s2.clients[c].keys == set k | k in keys;
    BlockedShape(s, s2, c, t, s2.clients[c].keys, onNokey);
  }

  lemma FreeHolds(s: State, c: Client)
    requires FreeOk(s) && c in s.clients && s.clients[c].btype == NONE
    ensures s.clients[c].keys == {}
  {
  }

  /** What remains of the invariant once the client is marked and in its lists. */
  lemma BlockedShape(s: State, s2: State, c: Client, t: BType, held: set<Key>, onNokey: bool)
    requires Inv(s) && c in s.clients && s.clients[c].btype == NONE && t != NONE && t in s.byType
    requires OnKeys(t) || held == {}
    requires IndexOk(s2) && s.clients[c].keys == {}
    requires s2.clients == Mark(s, c, onNokey).clients[c := Mark(s, c, onNokey).clients[c].(keys := held)]
    requires s2.live == s.live && s2.detached == s.detached && s2.ready == s.ready && s2.byType == s.byType
    ensures Inv(BlockClient(s2, c, t))
    ensures var s3 := BlockClient(s2, c, t);
            && s3.clients == s.clients[c := BState(t, held, onNokey, s.clock)]
            && s3.ready == s.ready && s3.live == s.live && s3.detached == s.detached
  {
    hide IndexOk, OfType, NoRepeats;
    var s3 := BlockClient(s2, c, t);
    SameIndex(s2, s3);
    BlockCounts(s, s3, c, t);
  }

  // ---------------------------------------------------------------- unblocking

  /** `releaseBlockedEntry`, with the key removed from the client. */
  function Release(s: State, c: Client, k: Key): State
    requires c in s.clients
  {
    var l := Without(Waiting(s, k), c);
    var blocking := if l == [] then s.blocking - {k} else s.blocking[k := l];
    var n := (if k in s.nokey then s.nokey[k] as int else 0) - 1;
    var nokey :=
      if l == [] then s.nokey - {k}
      else if s.clients[c].onNokey && n >= 0 then (if n == 0 then s.nokey - {k} else s.nokey[k := n])
      else s.nokey;
    s.(clients := s.clients[c := s.clients[c].(keys := s.clients[c].keys - {k})], blocking := blocking, nokey := nokey)
  }

  lemma ReleaseKeepsIndex(s: State, c: Client, k: Key)
    requires IndexOk(s) && c in s.clients && k in s.clients[c].keys
    ensures IndexOk(Release(s, c, k))
    ensures k in s.blocking && (s.clients[c].onNokey ==> k in s.nokey)
  {
    hide OnNokey;
    var s' := Release(s, c, k);
    var l := Waiting(s, k);
    assert KnownClients(s, l) && InOrder(s, l) && c in l;
    WithoutMembers(s, l, c);
    WithoutCount(s, l, c);
    var w := Without(l, c);
    assert Waiting(s', k) == w;
    forall q ensures KnownClients(s', Waiting(s', q)) && InOrder(s', Waiting(s', q)) {
      assert KnownClients(s, Waiting(s, q)) && InOrder(s, Waiting(s, q));
    }
    forall q ensures OnNokey(s', Waiting(s', q)) == if q == k then OnNokey(s, w) else OnNokey(s, Waiting(s, q)) {
      SameFlags(s, s', Waiting(s', q));
    }
    NoneWaiting(s);
    HeldAfterRelease(s, c, k);
  }

  lemma NoneWaiting(s: State)
    ensures OnNokey(s, []) == 0
  {
  }

  lemma HeldAfterRelease(s: State, c: Client, k: Key)
    requires HoldsIffWaits(s) && c in s.clients && KnownClients(s, Waiting(s, k)) && InOrder(s, Waiting(s, k))
    ensures HoldsIffWaits(Release(s, c, k))
  {
    hide OnNokey;
    WithoutMembers(s, Waiting(s, k), c);
    var s' := Release(s, c, k);
    assert Waiting(s', k) == Without(Waiting(s, k), c);
    forall d, q | d in s'.clients ensures q in s'.clients[d].keys <==> d in Waiting(s', q) {
      assert q in s.clients[d].keys <==> d in Waiting(s, q);
      if q != k { assert Waiting(s', q) == Waiting(s, q); }
    }
  }

  /** The rest of `unblockClient`, once the client holds no key. */
  function Free(s: State, c: Client): State
    requires c in s.clients && s.clients[c].btype in s.byType && s.byType[s.clients[c].btype] > 0
  {
    var t := s.clients[c].btype;
    s.(clients := s.clients[c := s.clients[c].(btype := NONE, onNokey := false)],
       byType := s.byType[t := s.byType[t] - 1])
  }

  lemma TypesMoveBack(s: State, s': State, c: Client, t: BType)
    requires c in s.clients && s.clients[c].btype == t && t != NONE
    requires s'.clients.Keys == s.clients.Keys && s'.clients[c].btype == NONE
    requires forall d :: d in s.clients && d != c ==> s'.clients[d].btype == s.clients[d].btype
    ensures OfType(s', t) == OfType(s, t) - {c} && c in OfType(s, t)
    ensures forall u :: u != t && u != NONE ==> OfType(s', u) == OfType(s, u)
  {
    forall u | u != t && u != NONE ensures OfType(s', u) == OfType(s, u) {
      forall d ensures d in OfType(s', u) <==> d in OfType(s, u) {
      }
    }
  }

  lemma SomeOfType(s: State, c: Client)
    requires CountsOk(s) && c in s.clients && s.clients[c].btype != NONE
    ensures s.byType[s.clients[c].btype] > 0
  {
    assert c in OfType(s, s.clients[c].btype);
  }

  lemma FreeKeepsInv(s: State, c: Client)
    requires Inv(s) && c in s.clients && s.clients[c].btype != NONE && s.clients[c].keys == {}
    ensures s.byType[s.clients[c].btype] > 0 && Inv(Free(s, c))
    ensures var s' := Free(s, c);
            && s'.clients == s.clients[c := s.clients[c].(btype := NONE, onNokey := false)]
            && s'.ready == s.ready && s'.live == s.live && s'.detached == s.detached
  {
    hide OfType, OnNokey;
    SomeOfType(s, c);
    var s' := Free(s, c);
    TypesMoveBack(s, s', c, s.clients[c].btype);
    forall k
      ensures KnownClients(s', Waiting(s', k)) && InOrder(s', Waiting(s', k))
      ensures OnNokey(s', Waiting(s', k)) == OnNokey(s, Waiting(s, k))
    {
      assert KnownClients(s, Waiting(s, k)) && InOrder(s, Waiting(s, k)) && c !in Waiting(s, k);
      SameFlags(s, s', Waiting(s, k));
    }
  }

  lemma ReleaseKeepsInv(s: State, c: Client, k: Key)
    requires Inv(s) && c in s.clients && k in s.clients[c].keys
    ensures Inv(Release(s, c, k))
    ensures var s' := Release(s, c, k);
            && s'.clients == s.clients[c := s.clients[c].(keys := s.clients[c].keys - {k})]
            && s'.ready == s.ready && s'.live == s.live && s'.detached == s.detached
  {
    hide IndexOk, Without;
    ReleaseKeepsIndex(s, c, k);
    var s' := Release(s, c, k);
    forall t ensures OfType(s', t) == OfType(s, t) {
      forall d ensures d in OfType(s', t) <==> d in OfType(s, t) {
      }
    }
  }

  lemma ReleaseWaiting(s: State, c: Client, k: Key, q: Key)
    requires c in s.clients
    ensures Waiting(Release(s, c, k), q) == if q == k then Without(Waiting(s, k), c) else Waiting(s, q)
  {
    hide Without;
  }

  lemma {:induction false} AddKeysWaiting(s: State, c: Client, keys: seq<Key>, q: Key)
    requires c in s.clients
    ensures var s' := AddKeys(s, c, keys);
            && Waiting(s', q) == Waiting(s, q) + (if q in keys && q !in s.clients[c].keys then [c] else [])
            && (q in s'.clients[c].keys <==> q in s.clients[c].keys || q in keys)
    decreases |keys|
  {
    if keys == [] {
      assert Waiting(s, q) + [] == Waiting(s, q);
    } else {
      var most, last := keys[..|keys| - 1], keys[|keys| - 1];
      assert keys == most + [last];
      AddKeysWaiting(s, c, most, q);
      AddKeysWaiting(s, c, most, last);
    }
  }

  /** A client that blocks is last in the waiting lists of its keys and in no other. */
  lemma BlockedWaiting(s: State, c: Client, t: BType, keys: seq<Key>, onNokey: bool, q: Key)
    requires c in s.clients && s.clients[c].keys == {} && t in s.byType
    ensures Waiting(BlockForKeys(s, c, t, keys, onNokey), q) == Waiting(s, q) + (if q in keys then [c] else [])
  {
    hide AddKeys;
    AddKeysWaiting(Mark(s, c, onNokey), c, keys, q);
  }

  lemma {:induction false} WithoutMiddle(a: seq<Client>, c: Client, b: seq<Client>)
    requires c !in a && c !in b
    ensures Without(a + [c] + b, c) == a + b
    decreases |b|
  {
    var l := a + [c] + b;
    if b == [] {
      assert l[..|l| - 1] == a && a + b == a;
    } else {
      var most := b[..|b| - 1];
      assert l[..|l| - 1] == a + [c] + most && l[|l| - 1] == b[|b| - 1];
      WithoutMiddle(a, c, most);
      assert a + b == a + most + [b[|b| - 1]];
    }
  }

  // ---------------------------------------------------------------- signalling and serving

  /** `signalKeyAsReadyLogic`, for a key of a type clients can block on. */
  function Signal(s: State, k: Key, t: BType, deleted: bool): State {
    if t == NONE || ((t !in s.byType || s.byType[t] == 0) && (MODULE !in s.byType || s.byType[MODULE] == 0)) then s
    else if deleted && k !in s.nokey then s
    else if !deleted && k !in s.blocking then s
    else if k in s.ready then s
    else s.(ready := s.ready + {k}, live := s.live + [k])
  }

  /** The list is taken over for processing and a new one is started. */
  function Detach(s: State): State
    requires s.detached == []
  {
    s.(detached := s.live, live := [])
  }

  /** The next key to process leaves the table, so that it can be signalled again. */
  function TakeHead(s: State): State
    requires s.detached != []
  {
    s.(ready := s.ready - {s.detached[0]}, detached := s.detached[1..])
  }

  lemma SameButReady(s: State, s': State)
    requires Inv(s) && s'.clients == s.clients && s'.blocking == s.blocking && s'.nokey == s.nokey
    requires s'.byType == s.byType && s'.clock == s.clock
    ensures IndexOk(s') && CountsOk(s') && FreeOk(s')
  {
    hide OnNokey;
    forall k
      ensures KnownClients(s', Waiting(s', k)) && InOrder(s', Waiting(s', k))
      ensures OnNokey(s', Waiting(s', k)) == OnNokey(s, Waiting(s, k))
    {
      assert KnownClients(s, Waiting(s, k)) && InOrder(s, Waiting(s, k));
      SameFlags(s, s', Waiting(s, k));
    }
    forall t ensures OfType(s', t) == OfType(s, t) {
    }
  }

  lemma SignalKeepsInv(s: State, k: Key, t: BType, deleted: bool)
    requires Inv(s)
    ensures Inv(Signal(s, k, t, deleted))
  {
    hide IndexOk, CountsOk, FreeOk;
    var s' := Signal(s, k, t, deleted);
    SameButReady(s, s');
    if s' != s {
      InsertOnce(s.live, s.detached, k);
      assert k !in s.live + s.detached;
    }
  }

  /** Someone is blocked whom a signal of this type may concern, and someone holds the key; for a deletion, someone
      who waits for the key to go away. */
  ghost predicate Concerns(s: State, k: Key, t: BType, deleted: bool) {
    && t != NONE
    && (exists c :: c in s.clients && (s.clients[c].btype == t || s.clients[c].btype == MODULE))
    && exists c :: c in s.clients && k in s.clients[c].keys && (deleted ==> s.clients[c].onNokey)
  }

  /** What a signal does, said of the clients alone: the key is queued last if the signal concerns anyone and the key
      is not queued yet, and nothing else changes. */
  ghost predicate Signalled(s: State, s': State, k: Key, t: BType, deleted: bool) {
    if Concerns(s, k, t, deleted) && k !in s.live + s.detached then
      s' == s.(ready := s.ready + {k}, live := s.live + [k])
    else s' == s
  }

  lemma CountedIff(s: State, t: BType)
    requires CountsOk(s) && t != NONE
    ensures t in s.byType && (s.byType[t] > 0 <==> exists c :: c in s.clients && s.clients[c].btype == t)
  {
    var cs := OfType(s, t);
    if s.byType[t] > 0 {
      assert cs != {};
      var c :| c in cs;
    }
    if c :| c in s.clients && s.clients[c].btype == t { assert c in cs; }
  }

  lemma {:induction false} OnNokeyIff(s: State, l: seq<Client>)
    requires KnownClients(s, l)
    ensures OnNokey(s, l) > 0 <==> exists i :: 0 <= i < |l| && s.clients[l[i]].onNokey
    decreases |l|
  {
    if l != [] {
      var most := l[..|l| - 1];
      OnNokeyIff(s, most);
      if OnNokey(s, most) > 0 {
        var i :| 0 <= i < |most| && s.clients[most[i]].onNokey;
        assert s.clients[l[i]].onNokey;
      }
      if i :| 0 <= i < |l| && s.clients[l[i]].onNokey {
        if i < |most| { assert s.clients[most[i]].onNokey; }
      }
    }
  }

  lemma HeldIff(s: State, k: Key)
    requires IndexOk(s)
    ensures k in s.blocking <==> exists c :: c in s.clients && k in s.clients[c].keys
    ensures k in s.nokey <==> exists c :: c in s.clients && k in s.clients[c].keys && s.clients[c].onNokey
  {
    hide OnNokey;
    var l := Waiting(s, k);
    assert KnownClients(s, l);
    OnNokeyIff(s, l);
    if k in s.blocking { assert l[0] in s.clients && l[0] in l; }
    if k in s.nokey {
      var i :| 0 <= i < |l| && s.clients[l[i]].onNokey;
      assert l[i] in l;
    }
    if c :| c in s.clients && k in s.clients[c].keys && s.clients[c].onNokey {
      var i :| 0 <= i < |l| && l[i] == c;
    }
  }

  /** Signalling queues a key exactly when the signal concerns someone. */
  lemma SignalMeans(s: State, k: Key, t: BType, deleted: bool)
    requires Inv(s)
    ensures Signalled(s, Signal(s, k, t, deleted), k, t, deleted)
  {
    hide IndexOk, CountsOk, FreeOk, NoRepeats;
    HeldIff(s, k);
    if t != NONE { CountedIff(s, t); }
    CountedIff(s, MODULE);
  }

  /** No wake-up is lost: after a signal of its type a blocked client has its key queued. */
  lemma NoWakeUpLost(s: State, s': State, k: Key, t: BType, c: Client)
    requires Inv(s) && Signalled(s, s', k, t, false) && c in s.clients && k in s.clients[c].keys
    requires t != NONE && (s.clients[c].btype == t || s.clients[c].btype == MODULE)
    ensures k in s'.live + s'.detached && k in s'.ready
  {
    hide IndexOk, CountsOk, FreeOk, NoRepeats;
    assert Concerns(s, k, t, false);
    InsertOnce(s.live, s.detached, k);
  }

  /** And a client that waits for the key to go away has it queued when it is deleted. */
  lemma NoDeletionLost(s: State, s': State, k: Key, t: BType, c: Client)
    requires Inv(s) && Signalled(s, s', k, t, true) && c in s.clients && k in s.clients[c].keys
    requires t != NONE && s.clients[c].onNokey && (s.clients[c].btype == t || s.clients[c].btype == MODULE)
    ensures k in s'.live + s'.detached && k in s'.ready
  {
    hide IndexOk, CountsOk, FreeOk, NoRepeats;
    assert Concerns(s, k, t, true);
    InsertOnce(s.live, s.detached, k);
  }

  lemma InsertOnce(a: seq<Key>, b: seq<Key>, k: Key)
    ensures forall q :: q in a + [k] + b <==> q in a + b || q == k
    ensures NoRepeats(a + b) && k !in a + b ==> NoRepeats(a + [k] + b)
  {
    var l, l', n := a + b, a + [k] + b, |a|;
    assert forall i :: 0 <= i < |l'| ==> l'[i] == if i < n then l[i] else if i == n then k else l[i - 1];
    forall q ensures q in l' <==> q in l || q == k {
      if q in l {
        var i :| 0 <= i < |l| && l[i] == q;
        assert l'[if i < n then i else i + 1] == q;
      }
      if q == k { assert l'[n] == k; }
    }
    if NoRepeats(l) && k !in l {
      forall i, j | 0 <= i < j < |l'| ensures l'[i] != l'[j] {
        var i', j' := if i < n then i else i - 1, if j < n then j else j - 1;
        if i == n {
          assert l'[j] == l[j'] && l[j'] in l;
        } else if j == n {
          assert l'[i] == l[i'] && l[i'] in l;
        } else {
          assert l'[i] == l[i'] && l'[j] == l[j'];
        }
      }
    }
  }

  lemma DetachKeepsInv(s: State)
    requires Inv(s) && s.detached == []
    ensures Inv(Detach(s))
  {
    hide IndexOk, CountsOk, FreeOk;
    SameButReady(s, Detach(s));
    assert s.live + s.detached == s.live && Detach(s).live + Detach(s).detached == s.live;
  }

  lemma TakeHeadKeepsInv(s: State)
    requires Inv(s) && s.detached != []
    ensures Inv(TakeHead(s))
  {
    hide IndexOk, CountsOk, FreeOk;
    var s' := TakeHead(s);
    SameButReady(s, s');
    var l, l', n := s.live + s.detached, s'.live + s'.detached, |s.live|;
    assert forall i :: 0 <= i < |l'| ==> l'[i] == l[if i < n then i else i + 1];
    assert l[n] == s.detached[0];
    forall q ensures q in l' <==> q in l && q != s.detached[0] {
      if q in l && q != s.detached[0] {
        var i :| 0 <= i < |l| && l[i] == q;
        assert l'[if i < n then i else i - 1] == q;
      }
    }
  }

  /** A deleted key that is signalled has waiting clients. */
  lemma NokeyMeansBlocking(s: State, k: Key)
    requires IndexOk(s) && k in s.nokey
    ensures k in s.blocking
  {
    NoneWaiting(s);
  }

  // ---------------------------------------------------------------- runs

  /** What can happen. Serving a client is `Unblock`, after which its command runs again: it may signal
      keys and may block again. */
  datatype Event =
    | Block(c: Client, t: BType, keys: seq<Key>, onNokey: bool)
    | Unblock(c: Client)
    | SignalKey(k: Key, t: BType, deleted: bool)
    | TakeList
    | NextKey

  /** Releasing the keys of a client one by one, in any order given. */
  function ReleaseAll(s: State, c: Client, order: seq<Key>): (s': State)
    requires c in s.clients
    ensures c in s'.clients && s'.byType == s.byType && s'.clients[c].btype == s.clients[c].btype
    decreases |order|
  {
    if order == [] then s
    else
      var s1 := ReleaseAll(s, c, order[..|order| - 1]);
      var k := order[|order| - 1];
      if k in s1.clients[c].keys then Release(s1, c, k) else s1
  }

  lemma {:induction false} ReleaseAllKeepsInv(s: State, c: Client, order: seq<Key>)
    requires Inv(s) && c in s.clients
    ensures Inv(ReleaseAll(s, c, order))
    ensures ReleaseAll(s, c, order).clients
            == s.clients[c := s.clients[c].(keys := s.clients[c].keys - set k | k in order)]
    decreases |order|
  {
    hide Inv, Release;
    if order == [] {
      assert (set k | k in order) == {};
      assert s.clients[c].keys - {} == s.clients[c].keys;
    } else {
      var most, k := order[..|order| - 1], order[|order| - 1];
      assert order == most + [k];
      ReleaseAllKeepsInv(s, c, most);
      var s1 := ReleaseAll(s, c, most);
      assert (set q | q in order) == (set q | q in most) + {k};
      assert s.clients[c].keys - (set q | q in order) == (s.clients[c].keys - (set q | q in most)) - {k};
      if k in s1.clients[c].keys {
        ReleaseKeepsInv(s1, c, k);
        ReleasedClients(s1, c, k);
      } else {
        assert s1.clients[c].keys - {k} == s1.clients[c].keys;
      }
    }
  }

  lemma ReleasedClients(s: State, c: Client, k: Key)
    requires c in s.clients
    ensures Release(s, c, k).clients == s.clients[c := s.clients[c].(keys := s.clients[c].keys - {k})]
  {
    hide Without;
  }

  /** An event can happen when its subject is in the right state. */
  predicate Enabled(s: State, e: Event) {
    match e
    case Block(c, t, keys, _) => c in s.clients && s.clients[c].btype == NONE && t != NONE && (OnKeys(t) || keys == [])
    case Unblock(c) => c in s.clients && s.clients[c].btype != NONE
    case SignalKey(_, _, _) => true
    case TakeList => s.detached == []
    case NextKey => s.detached != []
  }

  /** One step; the order in which keys are released is free. */
  ghost predicate Step(s: State, e: Event, s': State) {
    && Enabled(s, e)
    && match e
       case Block(c, t, keys, onNokey) => t in s.byType && s' == BlockForKeys(s, c, t, keys, onNokey)
       case Unblock(c) => exists order :: Unblocks(s, c, order, s')
       case SignalKey(k, t, deleted) => s' == Signal(s, k, t, deleted)
       case TakeList => s' == Detach(s)
       case NextKey => s' == TakeHead(s)
  }

  ghost predicate Unblocks(s: State, c: Client, order: seq<Key>, s': State)
    requires c in s.clients
  {
    && (forall k :: k in s.clients[c].keys ==> k in order)
    && s.clients[c].btype in s.byType && s.byType[s.clients[c].btype] > 0
    && s' == Free(ReleaseAll(s, c, order), c)
  }

  lemma UnblockKeepsInv(s: State, c: Client, order: seq<Key>, s': State)
    requires Inv(s) && c in s.clients && s.clients[c].btype != NONE && Unblocks(s, c, order, s')
    ensures Inv(s') && s'.clients[c].keys == {} && s'.clients[c].btype == NONE
  {
    hide Inv, ReleaseAll;
    ReleaseAllKeepsInv(s, c, order);
    var s1 := ReleaseAll(s, c, order);
    assert s.clients[c].keys - (set k | k in order) == {};
    FreeKeepsInv(s1, c);
  }

  /** Every step keeps all indexes in agreement. */
  lemma StepKeepsInv(s: State, e: Event, s': State)
    requires Inv(s) && Step(s, e, s')
    ensures Inv(s')
  {
    hide Inv, BlockForKeys, Unblocks, Signal;
    match e
    case Block(c, t, keys, onNokey) => BlockKeepsInv(s, c, t, keys, onNokey);
    case Unblock(c) =>
      var order :| Unblocks(s, c, order, s');
      UnblockKeepsInv(s, c, order, s');
    case SignalKey(k, t, deleted) => SignalKeepsInv(s, k, t, deleted);
    case TakeList => DetachKeepsInv(s);
    case NextKey => TakeHeadKeepsInv(s);
  }

  ghost predicate IsRun(states: seq<State>, events: seq<Event>) {
    && |states| == |events| + 1
    && forall i :: 0 <= i < |events| ==> Step(states[i], events[i], states[i + 1])
  }

  /** Over every run from a state in agreement, in particular from one without blocked clients. */
  lemma {:induction false} EveryRunKeepsInv(states: seq<State>, events: seq<Event>, n: nat)
    requires IsRun(states, events) && Inv(states[0]) && n < |states|
    ensures Inv(states[n])
    decreases n
  {
    hide Inv, Step;
    if n > 0 {
      EveryRunKeepsInv(states, events, n - 1);
      StepKeepsInv(states[n - 1], events[n - 1], states[n]);
    }
  }

  function AllFree(clients: set<Client>): State {
    State(map c | c in clients :: BState(NONE, {}, false, 0), map[], map[],
          map[LIST := 0, ZSET := 0, STREAM := 0, MODULE := 0, OTHER := 0], {}, [], [], 1)
  }

  lemma AllFreeInv(clients: set<Client>)
    ensures Inv(AllFree(clients))
  {
    var s := AllFree(clients);
    forall t | t != NONE ensures t in s.byType && s.byType[t] == |OfType(s, t)| {
      assert OfType(s, t) == {};
    }
  }
}
