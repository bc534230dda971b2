/** The abstract machine behind the log: a list of dataset versions, and exactly how many of them a load
    of the files on disk would bring back. */
module AofVersions {
  import opened AofFeed
  import opened AofProtocol

  /** Dataset versions, oldest first, one per command or transaction. Those up to `durable` are whole on
      disk. `lag[i]` is the number of buffered bytes that must be written until version
      `durable + 1 + i` is whole on disk too. */
  datatype Abs<D> = Abs(versions: seq<D>, durable: nat, lag: seq<int>)

  predicate AbsOk<D>(a: Abs<D>) {
    a.durable + 1 + |a.lag| == |a.versions|
  }

  function Newest<D>(a: Abs<D>): D
    requires |a.versions| > 0
  {
    a.versions[|a.versions| - 1]
  }

  function Less(lag: seq<int>, n: nat): (r: seq<int>)
    ensures |r| == |lag| && forall i :: 0 <= i < |lag| ==> r[i] == lag[i] - n
  {
    seq(|lag|, i requires 0 <= i < |lag| => lag[i] - n)
  }

  /** The first `n` buffered bytes reach the disk for good. */
  function Wrote<D>(a: Abs<D>, n: nat): Abs<D>
    decreases |a.lag|
  {
    if a.lag == [] || a.lag[0] > n then a.(lag := Less(a.lag, n))
    else Wrote(Abs(a.versions, a.durable + 1, a.lag[1..]), n)
  }

  /** A start brings back the durable version and forgets the newer ones. */
  function Restarted<D>(a: Abs<D>): Abs<D>
    requires a.durable < |a.versions|
  {
    Abs(a.versions[..a.durable + 1], a.durable, [])
  }

  /** How many of `n` written bytes stay in the file. */
  function Staying<D>(sv: Server<D>, n: nat, undone: bool): nat {
    if Keeps(sv, n, undone) then n else 0
  }

  /** What each event does to the versions: feeding appends one, bytes that stay make versions durable, a
      start keeps the durable ones, and nothing else matters. */
  ghost function AbsAfter<D(!new)>(w: World<D>, env: Env, s: State<D>, a: Abs<D>, e: Event): Abs<D>
    requires Enabled(w, env, s, e) && AbsOk(a)
  {
    match e
    case DoFeed(u) =>
      Abs(a.versions + [UnitEffect(w, Newest(a), u)], a.durable, a.lag + [|Feed(w, s.server, u).buf|])
    case DoFlush(n, undone) => Wrote(a, Staying(s.server, n, undone))
    case DoStartRewrite(n, undone, _, _, _) => Wrote(a, Staying(s.server, n, undone))
    case DoCrash(p) => if p.MidWrite? then Wrote(a, p.n) else a
    case DoStart(_, _) => Restarted(a)
    case DoRewriteDone(_, _) => a
    case DoDelHistory(_) => a
    case DoStartCrash(_, _) => a
  }

  // ---------------------------------------------------------------- what the steps keep

  /** Writing makes durable exactly the versions up to the first that needs more bytes. */
  lemma {:induction false} WroteMeans<D>(a: Abs<D>, n: nat)
    ensures var a' := Wrote(a, n);
            var more := a'.durable - a.durable;
            && a'.versions == a.versions && 0 <= more <= |a.lag|
            && (forall i :: 0 <= i < more ==> a.lag[i] <= n)
            && (more < |a.lag| ==> a.lag[more] > n)
            && a'.lag == Less(a.lag[more..], n)
    ensures AbsOk(a) ==> AbsOk(Wrote(a, n))
    decreases |a.lag|
  {
    if a.lag == [] || a.lag[0] > n {
      assert a.lag[0..] == a.lag;
    } else {
      var a1 := Abs(a.versions, a.durable + 1, a.lag[1..]);
      WroteMeans(a1, n);
      var more := Wrote(a, n).durable - a.durable;
      forall i | 0 <= i < more ensures a.lag[i] <= n {
        if i > 0 { assert a.lag[i] == a1.lag[i - 1]; }
      }
      assert a.lag[more..] == a1.lag[more - 1..];
    }
  }

  /** Durable versions stay what they are and stay durable. */
  ghost predicate KeepsDurable<D>(a: Abs<D>, a': Abs<D>) {
    AbsOk(a) && AbsOk(a') && a.durable <= a'.durable && a.versions[..a.durable + 1] <= a'.versions
  }

  lemma StepKeepsDurable<D(!new)>(w: World<D>, env: Env, s: State<D>, a: Abs<D>, e: Event)
    requires Enabled(w, env, s, e) && AbsOk(a)
    ensures KeepsDurable(a, AbsAfter(w, env, s, a, e))
  {
    hide Wrote, Staying, KeepsDurable, Feed, UnitEffect;
    match e {
      case DoFlush(n, undone) => WroteKeepsDurable(a, Staying(s.server, n, undone));
      case DoStartRewrite(n, undone, _, _, _) => WroteKeepsDurable(a, Staying(s.server, n, undone));
      case DoCrash(p) => WroteKeepsDurable(a, if p.MidWrite? then p.n else 0); SameKeepsDurable(a);
      case DoFeed(u) => MoreKeepsDurable(a, UnitEffect(w, Newest(a), u), |Feed(w, s.server, u).buf|);
      case DoStart(_, _) => RestartKeepsDurable(a);
      case _ => SameKeepsDurable(a);
    }
  }

  lemma SameKeepsDurable<D>(a: Abs<D>)
    requires AbsOk(a)
    ensures KeepsDurable(a, a)
  {
  }

  lemma WroteKeepsDurable<D>(a: Abs<D>, n: nat)
    requires AbsOk(a)
    ensures KeepsDurable(a, Wrote(a, n))
  {
    hide Wrote;
    WroteMeans(a, n);
  }

  lemma MoreKeepsDurable<D>(a: Abs<D>, d: D, lag: int)
    requires AbsOk(a)
    ensures KeepsDurable(a, Abs(a.versions + [d], a.durable, a.lag + [lag]))
  {
  }

  lemma RestartKeepsDurable<D>(a: Abs<D>)
    requires AbsOk(a)
    ensures KeepsDurable(a, Restarted(a))
  {
  }

  lemma KeepsDurableTwice<D>(a: Abs<D>, b: Abs<D>, c: Abs<D>)
    requires KeepsDurable(a, b) && KeepsDurable(b, c)
    ensures KeepsDurable(a, c)
  {
    assert a.versions[..a.durable + 1] <= b.versions[..b.durable + 1];
  }
}
