/** Writing the AOF buffer to its descriptor: `aofWrite`, `flushAppendOnlyFile` and the buffer half of
    `feedAppendOnlyFile`, over short writes, failed writes and failed truncations. */
module AofWriter {

  /** What one call of `write` did. */
  datatype Sys = Wrote(n: nat) | Interrupted | Failed

  function Zeros(n: nat): (s: string)
    ensures |s| == n && forall i :: 0 <= i < n ==> s[i] == '\0'
  {
    seq(n, _ => '\0')
  }

  /** The file after `data` is written at offset `at`: a gap past the end reads as zeros. */
  function WriteAt(file: string, at: nat, data: string): string {
    if data == [] then file
    else if at >= |file| then file + Zeros(at - |file|) + data
    else file[..at] + data + if at + |data| < |file| then file[at + |data|..] else []
  }

  /** A non-empty write extends the file exactly when it happens at its end. */
  lemma WriteAtEndIff(file: string, at: nat, data: string)
    requires data != []
    ensures WriteAt(file, at, data) == file + data <==> at == |file|
  {
    if at > |file| {
      assert |WriteAt(file, at, data)| != |file + data|;
    } else if at == |file| {
      assert file + Zeros(0) + data == file + data;
    } else {
      assert |WriteAt(file, at, data)| < |file + data|;
    }
  }

  /** An open descriptor, its file, the buffer, and the size the server believes the file has. */
  datatype Writer = Writer(file: string, pos: nat, append: bool, buf: string, lastSize: int)

  function Position(w: Writer): nat {
    if w.append then |w.file| else w.pos
  }

  function WriteBytes(w: Writer, data: string): Writer {
    if data == [] then w
    else w.(file := WriteAt(w.file, Position(w), data), pos := Position(w) + |data|)
  }

  datatype Event =
    | Feed(bytes: string)
    | Postpone
    | Write(n: nat, truncated: bool)  // n bytes reached the file; a failed write was undone

  predicate Enabled(w: Writer, e: Event) {
    e.Write? ==> e.n <= |w.buf|
  }

  function Next(w: Writer, e: Event): Writer
    requires Enabled(w, e)
  {
    match e
    case Feed(bytes) => w.(buf := w.buf + bytes)
    case Postpone => w
    case Write(n, truncated) =>
      if w.buf == [] then w
      else
        var wrote := WriteBytes(w, w.buf[..n]);
        if n == |w.buf| then wrote.(buf := [], lastSize := w.lastSize + n)
        else if n == 0 then w
        else if truncated && 0 <= w.lastSize <= |wrote.file| then wrote.(file := wrote.file[..w.lastSize])
        else wrote.(buf := w.buf[n..], lastSize := w.lastSize + n)
  }

  /** The server's belief is right and the next write lands at the end. */
  predicate Good(w: Writer) {
    w.lastSize == |w.file| && Position(w) == |w.file|
  }

  /** A partial write taken back by `ftruncate` on a descriptor without O_APPEND. */
  predicate LeavesGap(w: Writer, e: Event) {
    !w.append && e.Write? && e.truncated && 0 < e.n < |w.buf|
  }

  lemma WriteNothing(w: Writer)
    ensures WriteBytes(w, []) == w
  {
  }

  /** Two writes after each other are one write of both. */
  lemma WriteTwice(w: Writer, a: string, b: string)
    requires Good(w)
    ensures WriteBytes(WriteBytes(w, a), b) == WriteBytes(w, a + b)
  {
    hide WriteAt;
    if a == [] {
      assert a + b == b;
    } else if b == [] {
      assert a + b == a;
    } else {
      WriteAtEndIff(w.file, |w.file|, a);
      WriteAtEndIff(w.file + a, |w.file| + |a|, b);
      WriteAtEndIff(w.file, |w.file|, a + b);
      assert (w.file + a) + b == w.file + (a + b);
    }
  }

  lemma WriteBytesAtEnd(w: Writer, data: string)
    requires Good(w)
    ensures WriteBytes(w, data).file == w.file + data
    ensures Position(WriteBytes(w, data)) == |w.file| + |data|
  {
    if data == [] {
      assert w.file + data == w.file;
    } else {
      WriteAtEndIff(w.file, |w.file|, data);
    }
  }

  /** What a write leaves in the file, before any truncation. */
  lemma WriteLands(w: Writer, data: string)
    requires |w.file| <= Position(w)
    ensures var w' := WriteBytes(w, data);
            && w.file <= w'.file && |w.file| <= Position(w')
            && (data == [] || Position(w) == |w.file| ==> w'.file == w.file + data)
            && (Position(w) == |w.file| ==> Position(w') == |w'.file|)
  {
    if data != [] && Position(w) == |w.file| {
      WriteAtEndIff(w.file, |w.file|, data);
    }
  }

  /** A write whose bytes stay only at the end of the file appends them, and one that is taken back
      leaves the file as it was, even past the end. */
  lemma WriteStays(w: Writer, n: nat, truncated: bool)
    requires n <= |w.buf| && w.lastSize == |w.file| <= Position(w)
    requires n > 0 && (n == |w.buf| || !truncated) ==> Position(w) == |w.file|
    ensures var w' := Next(w, Write(n, truncated));
            var kept := if n == |w.buf| || !truncated then n else 0;
            && w'.file == w.file + w.buf[..kept] && w'.buf == w.buf[kept..] && w'.append == w.append
            && w'.lastSize == |w'.file| <= Position(w')
            && (Position(w) == |w.file| && !LeavesGap(w, Write(n, truncated)) ==> Position(w') == |w'.file|)
  {
    hide WriteAt;
    WriteLands(w, w.buf[..n]);
    WriteNothing(w);
    assert w.file + w.buf[..0] == w.file && w.buf[0..] == w.buf && w.buf[|w.buf|..] == [];
    assert w.buf[..|w.buf|] == w.buf;
  }

  function Added(e: Event): string {
    if e.Feed? then e.bytes else []
  }

  /** Every step keeps the bytes: what is on disk followed by the buffer is what was fed. The
      writer stays good exactly when no partial write is undone without O_APPEND. */
  lemma StepKeepsBytes(w: Writer, e: Event)
    requires Good(w) && Enabled(w, e)
    ensures var w' := Next(w, e);
            && w'.file + w'.buf == w.file + w.buf + Added(e)
            && w'.lastSize == |w'.file| && w'.append == w.append
            && (Good(w') <==> !LeavesGap(w, e))
  {
    hide WriteAt;
    var w' := Next(w, e);
    match e {
      case Feed(bytes) =>
      case Postpone =>
      case Write(n, truncated) =>
        WriteBytesAtEnd(w, w.buf[..n]);
        assert w.buf[..n] + w.buf[n..] == w.buf;
        assert (w.file + w.buf[..n])[..|w.file|] == w.file;
    }
  }

  /** After such a gap the next successful write does not continue the file. */
  lemma GapCorruptsNextWrite(w: Writer, e: Event)
    requires Good(w) && Enabled(w, e) && LeavesGap(w, e)
    ensures var w' := Next(w, e);
            var all := Write(|w'.buf|, false);
            w'.buf != [] && Next(w', all).file != w.file + w.buf
  {
    hide WriteAt;
    StepKeepsBytes(w, e);
    var w' := Next(w, e);
    WriteBytesAtEnd(w, w.buf[..e.n]);
    assert w'.file == w.file && w'.buf == w.buf by {
      assert (w.file + w.buf[..e.n])[..|w.file|] == w.file;
    }
    assert w'.buf[..|w'.buf|] == w'.buf;
    WriteAtEndIff(w'.file, w'.pos, w'.buf);
  }

  // ---------------------------------------------------------------- whole runs

  predicate RunOk(w: Writer, es: seq<Event>)
    decreases |es|
  {
    es == [] || (Enabled(w, es[0]) && !LeavesGap(w, es[0]) && RunOk(Next(w, es[0]), es[1..]))
  }

  function Run(w: Writer, es: seq<Event>): Writer
    requires RunOk(w, es)
    decreases |es|
  {
    if es == [] then w else Run(Next(w, es[0]), es[1..])
  }

  function AllAdded(es: seq<Event>): string {
    if es == [] then [] else Added(es[0]) + AllAdded(es[1..])
  }

  /** Over every run: file, then buffer, is everything fed since the file was opened. */
  lemma {:induction false} RunKeepsBytes(w: Writer, es: seq<Event>)
    requires Good(w) && RunOk(w, es)
    ensures var w' := Run(w, es);
            && Good(w')
            && w'.file + w'.buf == w.file + w.buf + AllAdded(es)
    decreases |es|
  {
    hide Next, Good;
    if es == [] {
      assert w.file + w.buf + [] == w.file + w.buf;
    } else {
      var e := es[0];
      StepKeepsBytes(w, e);
      RunKeepsBytes(Next(w, e), es[1..]);
      assert w.file + w.buf + Added(e) + AllAdded(es[1..]) == w.file + w.buf + AllAdded(es);
    }
  }

  // ---------------------------------------------------------------- the code

  /** How many of `len` bytes a sequence of `write` results delivers before it fails. */
  function Delivered(len: nat, calls: seq<Sys>): (n: nat)
    ensures n <= len
    decreases |calls|
  {
    if len == 0 || calls == [] || calls[0].Failed? then 0
    else if calls[0].Interrupted? then Delivered(len, calls[1..])
    else
      var k := if calls[0].n < len then calls[0].n else len;
      k + Delivered(len - k, calls[1..])
  }

  lemma NextCall(len: nat, calls: seq<Sys>, i: nat)
    requires len > 0 && i <= |calls|
    ensures i == |calls| || calls[i].Failed? ==> Delivered(len, calls[i..]) == 0
    ensures i < |calls| && calls[i].Interrupted? ==> Delivered(len, calls[i..]) == Delivered(len, calls[i + 1..])
    ensures i < |calls| && calls[i].Wrote? ==>
              var k := if calls[i].n < len then calls[i].n
                else len; Delivered(len, calls[i..]) == k + Delivered(len - k, calls[i + 1..])
  {
    if i < |calls| { assert calls[i..][0] == calls[i] && calls[i..][1..] == calls[i + 1..]; }
  }

  lemma NoneDelivered(calls: seq<Sys>)
    ensures Delivered(0, calls) == 0
  {
  }

  datatype Policy = Always | EverySec | No

  datatype Outcome = Done | Postponed | Complete | Partial(n: nat) | Undone(n: nat) | Nothing | Exit

  /** The writer's step that an outcome stands for, when `len` bytes were buffered. */
  function EventOf(o: Outcome, len: nat): Event {
    match o
    case Complete => Write(len, false)
    case Partial(n) => Write(n, false)
    case Undone(n) => Write(n, true)
    case _ => Postpone
  }

  class AofFile {
    var file: string
    var pos: nat
    var append: bool
    var buf: string
    var lastSize: int
    var currentSize: int
    var postponedStart: int
    var lastWriteOk: bool

    function State(): Writer
      reads this
    {
      Writer(file, pos, append, buf, lastSize)
    }

    method SysWrite(data: string)
      modifies this`file, this`pos
      ensures State() == WriteBytes(old(State()), data)
    {
      if |data| > 0 {
        var at := if append then |file| else pos;
        file := WriteAt(file, at, data);
        pos := at + |data|;
      }
    }

    /** Retries interrupted and short writes until everything is written or a call fails. */
    method AofWrite(data: string, calls: seq<Sys>) returns (r: int)
      requires Good(State())
      modifies this`file, this`pos
      ensures file == old(file) + data[..Delivered(|data|, calls)]
      ensures Position(State()) == |file|
      ensures State() == WriteBytes(old(State()), data[..Delivered(|data|, calls)])
      ensures var n := Delivered(|data|, calls); r == if n > 0 || |data| == 0 then n else -1
    {
      hide WriteAt, WriteBytes, Delivered, Good, Position;
      ghost var w0 := State();
      WriteNothing(w0);
      var total, i := 0, 0;
      assert calls[0..] == calls && data[..0] == [];
      while total < |data|
        invariant 0 <= i <= |calls| && 0 <= total <= |data|
        invariant Delivered(|data|, calls) == total + Delivered(|data| - total, calls[i..])
        invariant State() == WriteBytes(w0, data[..total])
        decreases |calls| - i
      {
        NextCall(|data| - total, calls, i);
        if i == |calls| || calls[i].Failed? {
          WriteBytesAtEnd(w0, data[..total]);
          return if total > 0 then total else -1;
        }
        if calls[i].Wrote? {
          var k := if calls[i].n < |data| - total then calls[i].n else |data| - total;
          SysWrite(data[total..total + k]);
          WriteTwice(w0, data[..total], data[total..total + k]);
          assert data[..total] + data[total..total + k] == data[..total + k];
          total := total + k;
        }
        i := i + 1;
      }
      NoneDelivered(calls[i..]);
      r := total;
      WriteBytesAtEnd(w0, data[..total]);
    }

    /** Under everysec an unforced flush waits for a running fsync, for two seconds at most. */
    static predicate MustWait(force: bool, policy: Policy, syncInProgress: bool, now: int, since: int) {
      policy == EverySec && !force && syncInProgress && (since == 0 || now - since < 2000)
    }

    /** What becomes of a flush that is due: `n` of the buffered bytes reached the file. */
    static predicate Ends(o: Outcome, n: nat, size: nat, policy: Policy, truncateOk: bool) {
      && (o == Complete <==> n == size)
      && (o == Exit <==> n < size && policy == Always)
      && (o == Nothing <==> n == 0 < size && policy != Always)
      && (o == Undone(n) <==> 0 < n < size && policy != Always && truncateOk)
      && (o == Partial(n) <==> 0 < n < size && policy != Always && !truncateOk)
      && o != Done && o != Postponed
    }

    /** Each outcome is one step of the writer; with fsync always a failed write ends the process. */
    method Flush(force: bool, policy: Policy, syncInProgress: bool, now: int, calls: seq<Sys>, truncateOk: bool)
      returns (o: Outcome)
      requires Good(State())
      modifies this
      ensures o.Partial? || o.Undone? ==> 0 < o.n < old(|buf|) && o.n == Delivered(old(|buf|), calls)
      ensures o != Exit ==> State() == Next(old(State()), EventOf(o, old(|buf|)))
      ensures o == Done <==> old(buf) == []
      ensures o == Postponed <==> old(buf) != [] && MustWait(force, policy, syncInProgress, now, old(postponedStart))
      ensures o == Postponed ==> postponedStart == if old(postponedStart) == 0 then now else old(postponedStart)
      ensures o == Done || o == Postponed ==> file == old(file) && buf == old(buf) && lastWriteOk == old(lastWriteOk)
      ensures o != Done && o != Postponed ==>
                var n := Delivered(old(|buf|), calls);
                && postponedStart == 0 && Ends(o, n, old(|buf|), policy, truncateOk)
                && file == old(file) + (if n < old(|buf|) && truncateOk then [] else old(buf)[..n])
                && (o != Exit ==> buf == if o == Complete || o.Partial? then old(buf)[n..] else old(buf))
      ensures o != Exit ==> lastSize == |file| && currentSize - old(currentSize) == lastSize - old(lastSize)
      ensures o == Complete ==> lastWriteOk
      ensures o.Partial? || o.Undone? || o == Nothing ==> !lastWriteOk
    {
      hide Delivered, Next, WriteAt, Position, Ends;
      if |buf| == 0 {
        NothingToWrite(State());
        return Done;
      }
      if policy == EverySec && !force && syncInProgress {
        if postponedStart == 0 {
          postponedStart := now;
          StillWaiting(State());
          return Postponed;
        } else if now - postponedStart < 2000 {
          StillWaiting(State());
          return Postponed;
        }
      }
      postponedStart := 0;
      o := WriteBuffer(policy, calls, truncateOk);
      EndsMean(o, Delivered(old(|buf|), calls), old(|buf|), policy, truncateOk);
    }

    /** The flush from the point where the buffer goes to the file. */
    method WriteBuffer(policy: Policy, calls: seq<Sys>, truncateOk: bool) returns (o: Outcome)
      requires Good(State()) && buf != []
      modifies this`file, this`pos, this`buf, this`lastSize, this`currentSize, this`lastWriteOk
      ensures var n := Delivered(old(|buf|), calls);
              && Ends(o, n, old(|buf|), policy, truncateOk) && n <= old(|buf|)
              && (o.Partial? || o.Undone? ==> o.n == n && 0 < n < old(|buf|))
              && file == old(file) + (if n < old(|buf|) && truncateOk then [] else old(buf)[..n])
              && (o != Exit ==> buf == if o == Complete || o.Partial? then old(buf)[n..] else old(buf))
      ensures o != Exit ==> State() == Next(old(State()), EventOf(o, old(|buf|)))
      ensures o != Exit ==> lastSize == |file| && currentSize - old(currentSize) == lastSize - old(lastSize)
      ensures o == Complete ==> lastWriteOk
      ensures o.Partial? || o.Undone? || o == Nothing ==> !lastWriteOk
    {
      hide WriteAt, Delivered, Position;
      var n := AofWrite(buf, calls);
      assert buf[..|buf|] == buf && buf[|buf|..] == [];
      if n != |buf| {
        var wrote := n;
        if n != -1 && truncateOk {
          assert 0 <= lastSize <= |file|;
          file := file[..lastSize];
          n := -1;
        }
        if policy == Always { return Exit; }
        lastWriteOk := false;
        if n > 0 {
          currentSize := currentSize + n;
          lastSize := lastSize + n;
          buf := buf[n..];
          return Partial(n);
        }
        return if wrote > 0 then Undone(wrote) else Nothing;
      }
      lastWriteOk := true;
      currentSize := currentSize + n;
      lastSize := lastSize + n;
      buf := [];
      return Complete;
    }
  }

  lemma NothingToWrite(w: Writer)
    requires w.buf == []
    ensures Enabled(w, EventOf(Done, 0)) && Next(w, EventOf(Done, 0)) == w
  {
  }

  lemma StillWaiting(w: Writer)
    ensures Enabled(w, EventOf(Postponed, |w.buf|)) && Next(w, EventOf(Postponed, |w.buf|)) == w
  {
  }

  lemma EndsMean(o: Outcome, n: nat, size: nat, policy: Policy, truncateOk: bool)
    requires AofFile.Ends(o, n, size, policy, truncateOk)
    ensures o != Done && o != Postponed
  {
  }
}
