/** File naming and the changes a rewrite makes to the manifest. */
module AofRotation {
  import opened Wrappers
  import opened Decimal
  import opened Sds
  import opened AofManifest

  // ---------------------------------------------------------------- names

  function BaseSuffix(rdb: bool): string {
    ".base" + if rdb then ".rdb" else ".aof"
  }

  const INCR_SUFFIX := ".incr" + ".aof"

  function NumberedName(prefix: string, n: nat, suffix: string): string {
    prefix + "." + Print(n) + suffix
  }

  function BaseName(prefix: string, n: nat, rdb: bool): string {
    NumberedName(prefix, n, BaseSuffix(rdb))
  }

  function IncrName(prefix: string, n: nat): string {
    NumberedName(prefix, n, INCR_SUFFIX)
  }

  lemma NumberedNameInjective(prefix: string, m: nat, s: string, n: nat, t: string)
    requires |s| == |t| && NumberedName(prefix, m, s) == NumberedName(prefix, n, t)
    ensures m == n && s == t
  {
    var x := NumberedName(prefix, m, s);
    var y := NumberedName(prefix, n, t);
    assert x[|prefix| + 1..|x| - |s|] == Print(m);
    assert y[|prefix| + 1..|y| - |t|] == Print(n);
    assert x[|x| - |s|..] == s && y[|y| - |t|..] == t;
  }

  lemma IncrNamesDiffer(prefix: string, m: nat, n: nat)
    requires m != n
    ensures IncrName(prefix, m) != IncrName(prefix, n)
  {
    if IncrName(prefix, m) == IncrName(prefix, n) {
      NumberedNameInjective(prefix, m, INCR_SUFFIX, n, INCR_SUFFIX);
    }
  }

  lemma BaseNamesDiffer(prefix: string, m: nat, n: nat, p: bool, q: bool)
    requires m != n
    ensures BaseName(prefix, m, p) != BaseName(prefix, n, q)
  {
    if BaseName(prefix, m, p) == BaseName(prefix, n, q) {
      NumberedNameInjective(prefix, m, BaseSuffix(p), n, BaseSuffix(q));
    }
  }

  lemma BaseIsNotIncr(prefix: string, m: nat, n: nat, p: bool)
    ensures BaseName(prefix, m, p) != IncrName(prefix, n)
  {
    assert BaseSuffix(p)[1] == 'b' && INCR_SUFFIX[1] == 'i';
    if BaseName(prefix, m, p) == IncrName(prefix, n) {
      NumberedNameInjective(prefix, m, BaseSuffix(p), n, INCR_SUFFIX);
    }
  }

  // ---------------------------------------------------------------- changes

  /** Give the manifest a new BASE file; the old one becomes HISTORY. */
  function NewBase(m: Manifest, prefix: string, rdb: bool): Manifest
    requires m.currBase >= 0
  {
    var n := m.currBase + 1;
    m.(base := Some(AofInfo(BaseName(prefix, n, rdb), n, Base, -1, -1)),
       history := (if m.base.Some? then [m.base.value.(ftype := History)] else []) + m.history,
       currBase := n,
       dirty := true)
  }

  /** Append a new INCR file. */
  function NewIncr(m: Manifest, prefix: string, startOffset: int): Manifest
    requires m.currIncr >= 0
  {
    var n := m.currIncr + 1;
    m.(incr := m.incr + [AofInfo(IncrName(prefix, n), n, Incr, startOffset, -1)],
       currIncr := n,
       dirty := true)
  }

  function ToHistory(infos: seq<AofInfo>): (r: seq<AofInfo>)
    ensures |r| == |infos|
    ensures forall i :: 0 <= i < |infos| ==> r[i] == infos[i].(ftype := History)
  {
    seq(|infos|, i requires 0 <= i < |infos| => infos[i].(ftype := History))
  }

  /** Every INCR file but the one being written becomes HISTORY. */
  function MarkRewritten(m: Manifest): Manifest {
    if m.incr == [] then m
    else
      var last := |m.incr| - 1;
      m.(incr := m.incr[last..], history := ToHistory(m.incr[..last]) + m.history, dirty := true)
  }

  /** The manifest object: the C code edits a duplicate in place and then installs it. */
  class ManifestObject {
    var base: Option<AofInfo>
    var history: seq<AofInfo>
    var incr: seq<AofInfo>
    var currBase: int
    var currIncr: int
    var dirty: bool

    function Value(): Manifest
      reads this
    {
      Manifest(base, history, incr, currBase, currIncr, dirty)
    }

    constructor Dup(orig: Manifest)
      ensures Value() == orig
    {
      base, history, incr := orig.base, orig.history, orig.incr;
      currBase, currIncr, dirty := orig.currBase, orig.currIncr, orig.dirty;
    }

    method GetNewBaseFileNameAndMarkPreAsHistory(prefix: string, rdb: bool) returns (name: string)
      requires currBase >= 0
      modifies this
      ensures Value() == NewBase(old(Value()), prefix, rdb)
      ensures currBase == old(currBase) + 1 && base == Some(AofInfo(name, currBase, Base, -1, -1))
      ensures name == prefix + "." + Print(currBase) + ".base" + if rdb then ".rdb" else ".aof"
      ensures history == (if old(base).Some? then [old(base).value.(ftype := History)] else []) + old(history)
      ensures incr == old(incr) && currIncr == old(currIncr) && dirty
    {
      if base.Some? {
        history := [base.value.(ftype := History)] + history;
      } else {
        assert [] + history == history;
      }
      currBase := currBase + 1;
      name := BaseName(prefix, currBase, rdb);
      base := Some(AofInfo(name, currBase, Base, -1, -1));
      dirty := true;
    }

    method GetNewIncrAofName(prefix: string, startOffset: int) returns (name: string)
      requires currIncr >= 0
      modifies this
      ensures Value() == NewIncr(old(Value()), prefix, startOffset)
      ensures currIncr == old(currIncr) + 1 && incr == old(incr) + [AofInfo(name, currIncr, Incr, startOffset, -1)]
      ensures name == prefix + "." + Print(currIncr) + ".incr.aof"
      ensures base == old(base) && history == old(history) && currBase == old(currBase) && dirty
    {
      currIncr := currIncr + 1;
      name := IncrName(prefix, currIncr);
      incr := incr + [AofInfo(name, currIncr, Incr, startOffset, -1)];
      dirty := true;
    }

    /** Walks the INCR list from the tail, skipping the file being written, and moves each
        entry to the head of the HISTORY list. */
    method MarkRewrittenIncrAofAsHistory()
      modifies this
      ensures Value() == MarkRewritten(old(Value()))
      ensures base == old(base) && currBase == old(currBase) && currIncr == old(currIncr)
      ensures old(incr) == [] ==> incr == [] && history == old(history) && dirty == old(dirty)
      ensures old(incr) != [] ==>
                var last := old(|incr|) - 1;
                && incr == [old(incr)[last]] && dirty
                && |history| == last + old(|history|) && history[last..] == old(history)
                && forall i :: 0 <= i < last ==> history[i] == old(incr)[i].(ftype := History)
    {
      if |incr| == 0 { return; }
      var i := |incr| - 1;
      while i > 0
        invariant 0 <= i < old(|incr|)
        invariant incr == old(incr)[..i] + [old(incr)[old(|incr|) - 1]]
        invariant history == ToHistory(old(incr)[i..old(|incr|) - 1]) + old(history)
        invariant base == old(base) && currBase == old(currBase) && currIncr == old(currIncr)
      {
        i := i - 1;
        var ai := incr[i];
        history := [ai.(ftype := History)] + history;
        incr := incr[..i] + incr[i + 1..];
        assert ToHistory(old(incr)[i..old(|incr|) - 1])
            == [ai.(ftype := History)] + ToHistory(old(incr)[i + 1..old(|incr|) - 1]);
      }
      dirty := true;
      assert old(incr)[0..old(|incr|) - 1] == old(incr)[..old(|incr|) - 1];
      assert incr == old(incr)[old(|incr|) - 1..];
    }
  }

  // ---------------------------------------------------------------- invariant

  predicate OffsetsOk(ai: AofInfo) {
    && -1 <= ai.startOffset < INT64_LIMIT && -1 <= ai.endOffset < INT64_LIMIT
    && (ai.endOffset != -1 ==> ai.startOffset != -1)
  }

  /** A file the manifest no longer needs: a BASE older than the current one, or an INCR older
      than the oldest live one. */
  ghost predicate IsOld(prefix: string, ai: AofInfo, currBase: int, oldestIncr: int) {
    && ai.num > 0 && OffsetsOk(ai)
    && (|| (exists rdb: bool :: ai.num < currBase && ai.name == BaseName(prefix, ai.num, rdb))
        || (ai.num < oldestIncr && ai.name == IncrName(prefix, ai.num)))
  }

  function OldestIncr(m: Manifest): int {
    if m.incr == [] then m.currIncr + 1 else m.incr[0].num
  }

  /** What every manifest of a run satisfies: live files are named by their numbers, INCR numbers
      grow up to the counter, and HISTORY files are old. */
  ghost predicate Orderly(m: Manifest, prefix: string) {
    && m.currBase >= 0 && m.currIncr >= 0
    && (m.base.Some? ==>
          && m.base.value.num == m.currBase > 0 && m.base.value.ftype == Base && OffsetsOk(m.base.value)
          && exists rdb :: m.base.value.name == BaseName(prefix, m.currBase, rdb))
    && (forall i :: 0 <= i < |m.incr| ==>
          && m.incr[i].ftype == Incr && m.incr[i].num > 0 && OffsetsOk(m.incr[i])
          && m.incr[i].name == IncrName(prefix, m.incr[i].num))
    && (forall i, j :: 0 <= i < j < |m.incr| ==> m.incr[i].num < m.incr[j].num)
    && (m.incr != [] ==> m.incr[|m.incr| - 1].num == m.currIncr)
    && (forall i :: 0 <= i < |m.history| ==>
          m.history[i].ftype == History && IsOld(prefix, m.history[i], m.currBase, OldestIncr(m)))
  }

  lemma OldIsMonotone(prefix: string, ai: AofInfo, b: int, i: int, b': int, i': int)
    requires IsOld(prefix, ai, b, i) && b <= b' && i <= i'
    ensures IsOld(prefix, ai, b', i')
  {
  }

  lemma NewBaseOrderly(m: Manifest, prefix: string, rdb: bool)
    requires Orderly(m, prefix)
    ensures Orderly(NewBase(m, prefix, rdb), prefix)
  {
    var m' := NewBase(m, prefix, rdb);
    assert m'.base.value.name == BaseName(prefix, m'.currBase, rdb);
    forall i | 0 <= i < |m'.history|
      ensures m'.history[i].ftype == History && IsOld(prefix, m'.history[i], m'.currBase, OldestIncr(m'))
    {
      if m.base.Some? && i == 0 {
        var r :| m.base.value.name == BaseName(prefix, m.currBase, r);
        assert m'.history[0].name == BaseName(prefix, m.currBase, r);
      } else {
        var j := if m.base.Some? then i - 1 else i;
        assert m'.history[i] == m.history[j];
        OldIsMonotone(prefix, m.history[j], m.currBase, OldestIncr(m), m'.currBase, OldestIncr(m'));
      }
    }
  }

  lemma NewIncrOrderly(m: Manifest, prefix: string, off: int)
    requires Orderly(m, prefix) && 0 <= off < INT64_LIMIT
    ensures Orderly(NewIncr(m, prefix, off), prefix)
  {
    var m' := NewIncr(m, prefix, off);
    assert OldestIncr(m') == OldestIncr(m);
    forall i | 0 <= i < |m'.history|
      ensures m'.history[i].ftype == History && IsOld(prefix, m'.history[i], m'.currBase, OldestIncr(m'))
    {
      assert m'.history[i] == m.history[i];
    }
    if m.base.Some? {
      var r :| m.base.value.name == BaseName(prefix, m.currBase, r);
      assert m'.base.value.name == BaseName(prefix, m'.currBase, r);
    }
    forall i, j | 0 <= i < j < |m'.incr| ensures m'.incr[i].num < m'.incr[j].num {
      if j == |m.incr| && i < j { assert m.incr[i].num <= m.incr[|m.incr| - 1].num; }
    }
  }

  lemma MarkRewrittenOrderly(m: Manifest, prefix: string)
    requires Orderly(m, prefix)
    ensures Orderly(MarkRewritten(m), prefix)
  {
    var m' := MarkRewritten(m);
    if m.incr != [] {
      var last := |m.incr| - 1;
      assert OldestIncr(m) <= OldestIncr(m');
      forall i | 0 <= i < |m'.history|
        ensures m'.history[i].ftype == History && IsOld(prefix, m'.history[i], m'.currBase, OldestIncr(m'))
      {
        if i < last {
          assert m'.history[i] == m.incr[i].(ftype := History);
          assert m'.history[i].name == IncrName(prefix, m.incr[i].num) && m.incr[i].num < m.incr[last].num;
        } else {
          assert m'.history[i] == m.history[i - last];
          OldIsMonotone(prefix, m.history[i - last], m.currBase, OldestIncr(m), m'.currBase, OldestIncr(m'));
        }
      }
      if m.base.Some? {
        var r :| m.base.value.name == BaseName(prefix, m.currBase, r);
        assert m'.base.value.name == BaseName(prefix, m'.currBase, r);
      }
    }
  }

  lemma DropHistoryOrderly(m: Manifest, prefix: string)
    requires Orderly(m, prefix)
    ensures Orderly(m.(history := [], dirty := true), prefix)
  {
    var m' := m.(history := [], dirty := true);
    if m.base.Some? {
      var r :| m.base.value.name == BaseName(prefix, m.currBase, r);
      assert m'.base.value.name == BaseName(prefix, m'.currBase, r);
    }
  }

  /** The names of the files a restart would load. */
  function LiveNames(m: Manifest): set<string> {
    (if m.base.Some? then {m.base.value.name} else {}) + set i | 0 <= i < |m.incr| :: m.incr[i].name
  }

  lemma BaseNumber(m: Manifest, prefix: string) returns (rdb: bool)
    requires Orderly(m, prefix) && m.base.Some?
    ensures m.base.value.name == BaseName(prefix, m.currBase, rdb)
  {
    rdb :| m.base.value.name == BaseName(prefix, m.currBase, rdb);
  }

  /** An old file is never live: deleting history files cannot touch what a restart loads. */
  lemma OldIsNotLive(m: Manifest, prefix: string, ai: AofInfo)
    requires Orderly(m, prefix) && IsOld(prefix, ai, m.currBase, OldestIncr(m))
    ensures ai.name !in LiveNames(m)
  {
    if rdb: bool :| ai.num < m.currBase && ai.name == BaseName(prefix, ai.num, rdb) {
      if m.base.Some? {
        var r := BaseNumber(m, prefix);
        BaseNamesDiffer(prefix, ai.num, m.currBase, rdb, r);
      }
      forall i | 0 <= i < |m.incr| ensures m.incr[i].name != ai.name {
        BaseIsNotIncr(prefix, ai.num, m.incr[i].num, rdb);
      }
    } else {
      if m.base.Some? {
        var r := BaseNumber(m, prefix);
        BaseIsNotIncr(prefix, m.currBase, ai.num, r);
      }
      forall i | 0 <= i < |m.incr| ensures m.incr[i].name != ai.name {
        assert m.incr[0].num <= m.incr[i].num;
        IncrNamesDiffer(prefix, ai.num, m.incr[i].num);
      }
    }
  }

  /** A name about to be created for an INCR file belongs to no live file. */
  lemma NextIncrIsFresh(m: Manifest, prefix: string)
    requires Orderly(m, prefix)
    ensures IncrName(prefix, m.currIncr + 1) !in LiveNames(m)
  {
    if m.base.Some? {
      var r := BaseNumber(m, prefix);
      BaseIsNotIncr(prefix, m.currBase, m.currIncr + 1, r);
    }
    forall i | 0 <= i < |m.incr| ensures m.incr[i].name != IncrName(prefix, m.currIncr + 1) {
      assert m.incr[i].num <= m.currIncr by {
        if i < |m.incr| - 1 { assert m.incr[i].num < m.incr[|m.incr| - 1].num; }
      }
      IncrNamesDiffer(prefix, m.incr[i].num, m.currIncr + 1);
    }
  }

  lemma NextBaseIsFresh(m: Manifest, prefix: string, rdb: bool)
    requires Orderly(m, prefix)
    ensures BaseName(prefix, m.currBase + 1, rdb) !in LiveNames(m)
  {
    if m.base.Some? {
      var r := BaseNumber(m, prefix);
      BaseNamesDiffer(prefix, m.currBase, m.currBase + 1, r, rdb);
    }
    forall i | 0 <= i < |m.incr| ensures m.incr[i].name != BaseName(prefix, m.currBase + 1, rdb) {
      BaseIsNotIncr(prefix, m.currBase + 1, m.incr[i].num, rdb);
    }
  }

  /** Distinct live files have distinct names. */
  lemma IncrNamesDistinct(m: Manifest, prefix: string, i: nat, j: nat)
    requires Orderly(m, prefix) && i < |m.incr| && j < |m.incr| && i != j
    ensures m.incr[i].name != m.incr[j].name
  {
    assert m.incr[i].num != m.incr[j].num by {
      if i < j { assert m.incr[i].num < m.incr[j].num; } else { assert m.incr[j].num < m.incr[i].num; }
    }
    IncrNamesDiffer(prefix, m.incr[i].num, m.incr[j].num);
  }

  lemma BaseNotAmongIncr(m: Manifest, prefix: string, i: nat)
    requires Orderly(m, prefix) && i < |m.incr| && m.base.Some?
    ensures m.base.value.name != m.incr[i].name
  {
    var r := BaseNumber(m, prefix);
    BaseIsNotIncr(prefix, m.currBase, m.incr[i].num, r);
  }

  // ---------------------------------------------------------------- storable names

  /** A configured file name that the manifest can carry. */
  predicate GoodPrefix(prefix: string) {
    && prefix != [] && IsBytes(prefix) && '/' !in prefix && '\\' !in prefix
    && (NeedsRepr(prefix) || '\'' !in prefix)
    && |Repr(prefix)| <= 896
  }

  /** Characters that are written as they are. */
  predicate Tame(s: string) {
    forall i :: 0 <= i < |s| ==> '.' <= s[i] <= 'z' && s[i] != '/' && s[i] != '\\'
  }

  lemma {:induction false} QuoteBodyAppend(s: string, t: string)
    ensures QuoteBody(s + t) == QuoteBody(s) + QuoteBody(t)
  {
    hide QuoteChar;
    if s == [] {
      assert s + t == t;
    } else {
      assert (s + t)[1..] == s[1..] + t;
      QuoteBodyAppend(s[1..], t);
    }
  }

  lemma {:induction false} QuoteBodyTame(s: string)
    requires Tame(s)
    ensures QuoteBody(s) == s
  {
    if s != [] {
      QuoteBodyTame(s[1..]);
      assert [s[0]] + s[1..] == s;
    }
  }

  lemma TameNumber(n: nat, suffix: string)
    requires Tame(suffix)
    ensures Tame("." + Print(n) + suffix)
  {
    var ds := Print(n);
    var t := "." + ds + suffix;
    forall i | 0 <= i < |t| ensures '.' <= t[i] <= 'z' && t[i] != '/' && t[i] != '\\' {
      if i == 0 {
      } else if i <= |ds| {
        assert t[i] == ds[i - 1] && IsDigit(ds[i - 1]);
      } else {
        assert t[i] == suffix[i - 1 - |ds|];
      }
    }
  }

  lemma ReprOfNumbered(prefix: string, tail: string)
    requires Tame(tail)
    ensures NeedsRepr(prefix + tail) <==> NeedsRepr(prefix)
    ensures |Repr(prefix + tail)| == |Repr(prefix)| + |tail|
  {
    var name := prefix + tail;
    assert forall i :: 0 <= i < |prefix| ==> name[i] == prefix[i];
    assert forall i :: 0 <= i < |tail| ==> name[|prefix| + i] == tail[i];
    if NeedsRepr(name) {
      var i :| 0 <= i < |name| && (name[i] == '\\' || name[i] == '"' || !IsPrint(name[i]) || IsSpace(name[i]));
      assert i < |prefix|;
    }
    if NeedsRepr(prefix) {
      var i :| && 0 <= i < |prefix|
               && (prefix[i] == '\\' || prefix[i] == '"' || !IsPrint(prefix[i]) || IsSpace(prefix[i]));
      assert name[i] == prefix[i];
      QuoteBodyAppend(prefix, tail);
      QuoteBodyTame(tail);
    }
  }

  lemma SpacedLength(words: seq<string>)
    ensures |words| == 4 ==> |Spaced(words)| == 4 + |words[0]| + |words[1]| + |words[2]| + |words[3]|
    ensures |words| == 6 ==>
              |Spaced(words)| == 6 + |words[0]| + |words[1]| + |words[2]| + |words[3]| + |words[4]| + |words[5]|
    ensures |words| == 8 ==> |Spaced(words)|
                             == 8 + |words[0]| + |words[1]| + |words[2]| + |words[3]| + |words[4]| + |words[5]|
                               + |words[6]| + |words[7]|
  {
    if |words| >= 4 {
      SpacedUnfold(words);
      if |words| >= 6 {
        SpacedUnfold(words[2..]);
      }
      if |words| == 8 {
        SpacedUnfold(words[4..]);
      }
    }
  }

  lemma SpacedUnfold(words: seq<string>)
    requires |words| >= 4
    ensures |Spaced(words)| == 2 + |words[0]| + |words[1]| + |Spaced(words[2..])|
    ensures |Spaced(words[2..])| == 2 + |words[2]| + |words[3]| + |Spaced(words[4..])|
  {
    assert words[1..][1..] == words[2..];
    assert words[2..][1..] == words[3..] && words[3..][1..] == words[4..];
  }

  /** The words of a line are short: numbers have at most 19 digits. */
  lemma InfoWordsWidth(ai: AofInfo)
    requires 0 < ai.num < INT64_LIMIT && OffsetsOk(ai)
    ensures |Spaced(InfoWords(ai))| <= 93
  {
    PrintWidth64(ai.num);
    if ai.startOffset != -1 { PrintWidth64(ai.startOffset); }
    if ai.endOffset != -1 { PrintWidth64(ai.endOffset); }
    SpacedLength(InfoWords(ai));
  }

  lemma TameTailName(prefix: string, tail: string)
    requires GoodPrefix(prefix) && Tame(tail)
    ensures var name := prefix + tail;
            && name != [] && IsBytes(name) && '/' !in name && '\\' !in name
            && (NeedsRepr(name) || '\'' !in name)
  {
    hide Repr;
    var name := prefix + tail;
    ReprOfNumbered(prefix, tail);
    assert '/' !in tail && '\\' !in tail && '\'' !in tail;
    forall i | 0 <= i < |name| ensures 0 < name[i] as int < 256 {
      if i < |prefix| { assert name[i] == prefix[i]; } else { assert name[i] == tail[i - |prefix|]; }
    }
  }

  lemma NamedIsStorable(prefix: string, ai: AofInfo, suffix: string)
    requires GoodPrefix(prefix) && Tame(suffix) && |suffix| == 9
    requires 0 < ai.num < INT64_LIMIT && OffsetsOk(ai) && ai.name == NumberedName(prefix, ai.num, suffix)
    ensures Storable(ai)
  {
    hide Repr, InfoWords, Spaced, NeedsRepr, IsBytes;
    var tail := "." + Print(ai.num) + suffix;
    assert ai.name == prefix + tail;
    TameNumber(ai.num, suffix);
    TameTailName(prefix, tail);
    ReprOfNumbered(prefix, tail);
    PrintWidth64(ai.num);
    InfoWordsWidth(ai);
  }

  lemma OldIsStorable(prefix: string, ai: AofInfo, b: int, i: int)
    requires GoodPrefix(prefix) && IsOld(prefix, ai, b, i) && b < INT64_LIMIT && i <= INT64_LIMIT
    ensures Storable(ai)
  {
    hide Storable, GoodPrefix, NumberedName;
    if rdb: bool :| ai.num < b && ai.name == BaseName(prefix, ai.num, rdb) {
      NamedIsStorable(prefix, ai, BaseSuffix(rdb));
    } else {
      NamedIsStorable(prefix, ai, INCR_SUFFIX);
    }
  }

  lemma FileIsStorable(m: Manifest, prefix: string, k: nat)
    requires Orderly(m, prefix) && GoodPrefix(prefix) && k < |Files(m)|
    requires m.currBase < INT64_LIMIT && m.currIncr < INT64_LIMIT
    ensures Storable(Files(m)[k])
  {
    hide Storable, GoodPrefix, IsOld, NumberedName;
    var ai := Files(m)[k];
    var nb := if m.base.Some? then 1 else 0;
    if k < nb {
      var r := BaseNumber(m, prefix);
      NamedIsStorable(prefix, ai, BaseSuffix(r));
    } else if k < nb + |m.history| {
      assert ai == m.history[k - nb];
      OldIsStorable(prefix, ai, m.currBase, OldestIncr(m));
    } else {
      var i := k - nb - |m.history|;
      assert ai == m.incr[i];
      NamedIsStorable(prefix, ai, INCR_SUFFIX);
    }
  }

  /** Every orderly manifest whose numbers fit a `long long` can be stored and read back. */
  lemma OrderlyIsStorable(m: Manifest, prefix: string)
    requires Orderly(m, prefix) && GoodPrefix(prefix) && Files(m) != []
    requires m.currBase < INT64_LIMIT && m.currIncr < INT64_LIMIT
    ensures StorableManifest(m) && AllFormattable(Files(m))
    ensures ParseManifest(FormatManifest(m)) == Ok(Reloaded(m))
  {
    hide Storable, ParseManifest, FormatManifest, GoodPrefix;
    forall k | 0 <= k < |Files(m)| ensures Storable(Files(m)[k]) {
      FileIsStorable(m, prefix, k);
    }
    ManifestRoundTrip(m);
  }
}
