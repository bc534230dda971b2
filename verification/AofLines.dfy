/** Which manifest texts are accepted, and what an accepted one says: the text is taken line by line
    first, and judged as a whole afterwards. */
module AofLines {
  import opened Wrappers
  import opened Decimal
  import opened Sds
  import opened AofManifest
  import AofCodec

  /** The files that the lines of a text name, in order; comments are skipped. */
  function Listed(text: string): Result<seq<AofInfo>>
    decreases |text|
  {
    if text == [] then Ok([])
    else
      var n := AofCodec.LineLength(text, MAX_LINE);
      var line := text[..n];
      if line[0] == '#' then Listed(text[n..])
      else if '\n' !in line then Err("The AOF manifest file contains too long line")
      else
        var ai := ReadLine(line);
        var rest := Listed(text[n..]);
        if ai.Err? then Err(ai.message)
        else if rest.Err? then rest
        else Ok([ai.value] + rest.value)
  }

  /** The files of one type, in order. */
  function OfType(infos: seq<AofInfo>, t: FileType): (r: seq<AofInfo>)
    ensures |r| <= |infos| && forall i :: 0 <= i < |r| ==> r[i].ftype == t && r[i] in infos
  {
    if infos == [] then []
    else (if infos[0].ftype == t then [infos[0]] else []) + OfType(infos[1..], t)
  }

  predicate StrictlyUp(infos: seq<AofInfo>, above: int) {
    && (infos != [] ==> above < infos[0].num)
    && forall i, j :: 0 <= i < j < |infos| ==> infos[i].num < infos[j].num
  }

  function LastNumber(infos: seq<AofInfo>, otherwise: int): int {
    if infos == [] then otherwise else infos[|infos| - 1].num
  }

  /** What the listed files make of a manifest read so far. */
  predicate Extends(m: Manifest, infos: seq<AofInfo>, m': Manifest) {
    var bases, incrs := OfType(infos, Base), OfType(infos, Incr);
    && m'.base == (if bases == [] then m.base else Some(bases[0]))
    && m'.history == m.history + OfType(infos, History) && m'.incr == m.incr + incrs
    && m'.currBase == LastNumber(bases, m.currBase) && m'.currIncr == LastNumber(incrs, m.currIncr)
    && m'.dirty == m.dirty
  }

  /** One BASE at most, and INCR numbers that only grow. */
  predicate Acceptable(m: Manifest, infos: seq<AofInfo>) {
    && |OfType(infos, Base)| + (if m.base.Some? then 1 else 0) <= 1
    && StrictlyUp(OfType(infos, Incr), m.currIncr)
  }

  lemma {:induction false} ReadLinesIff(text: string, m: Manifest)
    ensures var r, l := ReadLines(text, m), Listed(text);
            && (r.Ok? <==> l.Ok? && Acceptable(m, l.value))
            && (r.Ok? ==> Extends(m, l.value, r.value))
    decreases |text|
  {
    hide ReadLine, AofCodec.LineLength, Acceptable, Extends, AddInfo;
    if text == [] {
      NothingListed(m);
    } else {
      var n := AofCodec.LineLength(text, MAX_LINE);
      var line, rest := text[..n], text[n..];
      if line[0] == '#' {
        ReadLinesIff(rest, m);
      } else if '\n' in line && ReadLine(line).Ok? {
        var ai := ReadLine(line).value;
        var added := AddInfo(m, ai);
        if Listed(rest).Ok? { Refused(m, ai, Listed(rest).value); }
        if added.Ok? {
          ReadLinesIff(rest, added.value);
          if Listed(rest).Ok? { OneMoreAccepted(m, ai, Listed(rest).value); }
          if ReadLines(rest, added.value).Ok? {
            OneMoreListed(m, ai, Listed(rest).value, ReadLines(rest, added.value).value);
          }
        }
      }
    }
  }

  lemma NothingListed(m: Manifest)
    ensures Acceptable(m, []) && Extends(m, [], m)
  {
  }

  /** A line that is refused makes the whole list unacceptable. */
  lemma Refused(m: Manifest, ai: AofInfo, infos: seq<AofInfo>)
    ensures AddInfo(m, ai).Err? ==> !Acceptable(m, [ai] + infos)
  {
    FirstListed(ai, infos);
  }

  /** How one more file at the front shows in each list. */
  lemma FirstListed(ai: AofInfo, infos: seq<AofInfo>)
    ensures OfType([ai] + infos, Base) == if ai.ftype == Base then [ai] + OfType(infos, Base) else OfType(infos, Base)
    ensures OfType([ai] + infos, History)
            == if ai.ftype == History then [ai] + OfType(infos, History) else OfType(infos, History)
    ensures OfType([ai] + infos, Incr) == if ai.ftype == Incr then [ai] + OfType(infos, Incr) else OfType(infos, Incr)
  {
    FirstOfType(ai, infos, Base);
    FirstOfType(ai, infos, History);
    FirstOfType(ai, infos, Incr);
  }

  lemma FirstOfType(ai: AofInfo, infos: seq<AofInfo>, t: FileType)
    ensures OfType([ai] + infos, t) == if ai.ftype == t then [ai] + OfType(infos, t) else OfType(infos, t)
  {
    var all := [ai] + infos;
    assert all[1..] == infos && all[0] == ai;
    assert [] + OfType(infos, t) == OfType(infos, t);
  }

  /** A line that is taken leaves the others to be judged behind it. */
  lemma OneMoreAccepted(m: Manifest, ai: AofInfo, infos: seq<AofInfo>)
    requires AddInfo(m, ai).Ok?
    ensures Acceptable(AddInfo(m, ai).value, infos) <==> Acceptable(m, [ai] + infos)
  {
    hide OfType, StrictlyUp;
    FirstListed(ai, infos);
    UpFrom(ai, OfType(infos, Incr), m.currIncr);
  }

  lemma OneMoreListed(m: Manifest, ai: AofInfo, infos: seq<AofInfo>, m': Manifest)
    requires AddInfo(m, ai).Ok? && Acceptable(AddInfo(m, ai).value, infos)
    requires Extends(AddInfo(m, ai).value, infos, m')
    ensures Extends(m, [ai] + infos, m')
  {
    hide OfType, StrictlyUp, LastNumber, AddInfo, Extends, Acceptable;
    match ai.ftype
    case Base => OneBase(m, ai, infos, m');
    case History => OneHistory(m, ai, infos, m');
    case Incr => OneIncr(m, ai, infos, m');
  }

  lemma OneBase(m: Manifest, ai: AofInfo, infos: seq<AofInfo>, m': Manifest)
    requires ai.ftype == Base && AddInfo(m, ai).Ok? && Acceptable(AddInfo(m, ai).value, infos)
    requires Extends(AddInfo(m, ai).value, infos, m')
    ensures Extends(m, [ai] + infos, m')
  {
    hide OfType, StrictlyUp;
    FirstListed(ai, infos);
    assert OfType(infos, Base) == [];
  }

  lemma OneHistory(m: Manifest, ai: AofInfo, infos: seq<AofInfo>, m': Manifest)
    requires ai.ftype == History && Extends(AddInfo(m, ai).value, infos, m')
    ensures Extends(m, [ai] + infos, m')
  {
    hide OfType, LastNumber;
    FirstListed(ai, infos);
    Regrouped(m.history, ai, OfType(infos, History));
  }

  lemma Regrouped(xs: seq<AofInfo>, ai: AofInfo, ys: seq<AofInfo>)
    ensures (xs + [ai]) + ys == xs + ([ai] + ys)
  {
  }

  lemma OneIncr(m: Manifest, ai: AofInfo, infos: seq<AofInfo>, m': Manifest)
    requires ai.ftype == Incr && AddInfo(m, ai).Ok? && Extends(AddInfo(m, ai).value, infos, m')
    ensures Extends(m, [ai] + infos, m')
  {
    hide OfType, LastNumber;
    FirstListed(ai, infos);
    Regrouped(m.incr, ai, OfType(infos, Incr));
    LastOf(ai, OfType(infos, Incr), m.currIncr);
  }

  lemma LastOf(ai: AofInfo, infos: seq<AofInfo>, otherwise: int)
    ensures LastNumber([ai] + infos, otherwise) == LastNumber(infos, ai.num)
  {
  }

  lemma UpFrom(ai: AofInfo, infos: seq<AofInfo>, above: int)
    ensures StrictlyUp([ai] + infos, above) <==> above < ai.num && StrictlyUp(infos, ai.num)
  {
    var all := [ai] + infos;
    if StrictlyUp(all, above) {
      forall i, j | 0 <= i < j < |infos| ensures infos[i].num < infos[j].num {
        assert all[i + 1].num < all[j + 1].num;
      }
      if infos != [] { assert all[0].num < all[1].num; }
    }
    if above < ai.num && StrictlyUp(infos, ai.num) {
      forall i, j | 0 <= i < j < |all| ensures all[i].num < all[j].num {
        if i == 0 && j > 1 { assert infos[0].num < infos[j - 1].num; }
      }
    }
  }

  /** A text is accepted exactly when it is not empty, each of its lines can be read, at most one names a BASE
      and the INCR numbers grow from line to line. The manifest then lists what the lines say, in their order,
      and its counters are those of the BASE and of the last INCR file. */
  lemma ParseManifestIff(text: string)
    ensures var r, l := ParseManifest(text), Listed(text);
            && (r.Ok? <==> text != [] && l.Ok? && |OfType(l.value, Base)| <= 1 && StrictlyUp(OfType(l.value, Incr), 0))
            && (r.Ok? ==>
                  var m := r.value;
                  && (if m.base.Some? then [m.base.value] else []) == OfType(l.value, Base)
                  && m.history == OfType(l.value, History) && m.incr == OfType(l.value, Incr)
                  && m.currBase == (if m.base.Some? then m.base.value.num else 0)
                  && m.currIncr == LastNumber(m.incr, 0) && !m.dirty)
  {
    hide ReadLines, Listed, OfType, StrictlyUp;
    ReadLinesIff(text, EmptyManifest);
    if Listed(text).Ok? {
      var hist, incrs := OfType(Listed(text).value, History), OfType(Listed(text).value, Incr);
      assert [] + hist == hist && [] + incrs == incrs;
    }
  }

  // ---------------------------------------------------------------- one line

  /** Every accepted line names a file, not a path, and has a number other than 0. */
  lemma ReadLineSound(line: string)
    ensures var r := ReadLine(line); r.Ok? ==> r.value.num != 0 && '/' !in r.value.name && '\\' !in r.value.name
  {
    hide SplitArgs, ReadPairs, TrimLeft, TrimRight;
    var split := SplitArgs(TrimRight(TrimLeft(line)));
    if split.Split? && |split.argv| % 2 == 0 { NamesNoPath(NoFields, split.argv); }
  }

  lemma {:induction false} NamesNoPath(f: Fields, argv: seq<string>)
    requires |argv| % 2 == 0 && (f.name.Some? ==> '/' !in f.name.value && '\\' !in f.name.value)
    ensures var r := ReadPairs(f, argv); r.Ok? && r.value.name.Some? ==>
              '/' !in r.value.name.value && '\\' !in r.value.name.value
    decreases |argv|
  {
    hide SameIgnoringCase, Atoi;
    if argv != [] {
      var r := ReadPair(f, argv[0], argv[1]);
      if r.Ok? { NamesNoPath(r.value, argv[2..]); }
    }
  }
}
