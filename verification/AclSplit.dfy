/** What is lost when a selector in parentheses is split as a command line: quotes and blanks in what it
    stores. Every operation costs at least as much text as it stores, and splitting such a description
    leaves less text than the selector needs. */
module AclSplit {
  import opened Decimal
  import opened Sds
  import opened AclRules
  import opened AclSelector
  import opened AclReplay
  import opened AclUser
  import opened AclDescribe

  // ---------------------------------------------------------------- reading one argument

  predicate IsQuote(c: char) {
    c == '"' || c == '\''
  }

  predicate HasQuote(s: string) {
    exists i :: 0 <= i < |s| && IsQuote(s[i])
  }

  predicate NoBlanks(s: string) {
    forall i :: 0 <= i < |s| ==> !IsSpace(s[i])
  }

  lemma {:induction false} TextExtends(s: string, mode: Mode, cur: string)
    ensures var t := ReadToken(s, mode, cur); t.Token? ==> cur <= t.text
    decreases |s|
  {
    if s != [] {
      match mode {
        case Double =>
          if IsHexEscape(s) {
            TextExtends(s[4..], Double, cur + [(HexValue(s[2]) * 16 + HexValue(s[3])) as char]);
          } else if s[0] == '\\' && |s| > 1 {
            TextExtends(s[2..], Double, cur + [Unescape(s[1])]);
          } else if s[0] != '"' {
            TextExtends(s[1..], Double, cur + [s[0]]);
          }
        case Single =>
          if s[0] == '\\' && |s| > 1 && s[1] == '\'' {
            TextExtends(s[2..], Single, cur + "'");
          } else if s[0] != '\'' {
            TextExtends(s[1..], Single, cur + [s[0]]);
          }
        case Bare =>
          if s[0] == '"' {
            TextExtends(s[1..], Double, cur);
          } else if s[0] == '\'' {
            TextExtends(s[1..], Single, cur);
          } else if s[0] != ' ' && s[0] != '\n' && s[0] != '\r' && s[0] != '\t' {
            TextExtends(s[1..], Bare, cur + [s[0]]);
          }
      }
    }
  }

  /** A blank that is taken into an argument stays in it. */
  lemma BlankStays(s: string, mode: Mode, cur: string)
    ensures var t := ReadToken(s, mode, cur + " "); t.Token? ==> ' ' in t.text
  {
    TextExtends(s, mode, cur + " ");
    var t := ReadToken(s, mode, cur + " ");
    if t.Token? { assert t.text[|cur|] == (cur + " ")[|cur|] == ' '; }
  }

  /** What was read of `a` when nothing of `tail` was taken in. */
  predicate StaysIn(t: Token, a: string, tail: string, cur: string, lossy: bool) {
    t.Token? && ' ' !in t.text ==>
      && (t.rest == tail || (tail != [] && t.rest == tail[1..]))
      && |t.text| <= |cur| + |a| && (lossy ==> |t.text| < |cur| + |a|)
  }

  lemma {:induction false} ReadPart(a: string, tail: string, mode: Mode, cur: string)
    requires NoBlanks(a) && (tail == [] || tail[0] == ' ')
    ensures StaysIn(ReadToken(a + tail, mode, cur), a, tail, cur, mode != Bare || HasQuote(a))
    decreases |a|
  {
    var s := a + tail;
    if a == [] {
      assert s == tail;
      if mode != Bare && tail != [] { BlankStays(tail[1..], mode, cur); }
    } else {
      assert s[0] == a[0] && s[1..] == a[1..] + tail;
      match mode {
        case Double => ReadPartDouble(a, tail, cur);
        case Single => ReadPartSingle(a, tail, cur);
        case Bare =>
          if a[0] == '"' {
            ReadPart(a[1..], tail, Double, cur);
          } else if a[0] == '\'' {
            ReadPart(a[1..], tail, Single, cur);
          } else {
            ReadPart(a[1..], tail, Bare, cur + [a[0]]);
            if HasQuote(a) {
              var i :| 0 <= i < |a| && IsQuote(a[i]);
              assert IsQuote(a[1..][i - 1]);
            }
          }
      }
    }
  }

  lemma {:induction false} ReadPartDouble(a: string, tail: string, cur: string)
    requires a != [] && NoBlanks(a) && (tail == [] || tail[0] == ' ')
    ensures StaysIn(ReadToken(a + tail, Double, cur), a, tail, cur, true)
    decreases |a|, 0
  {
    var s := a + tail;
    assert s[0] == a[0] && s[1..] == a[1..] + tail;
    if IsHexEscape(s) {
      assert |a| >= 4;
      assert s[4..] == a[4..] + tail;
      ReadPart(a[4..], tail, Double, cur + [(HexValue(s[2]) * 16 + HexValue(s[3])) as char]);
    } else if s[0] == '\\' && |s| > 1 {
      if |a| == 1 {
        assert s[1] == ' ';
        BlankStays(s[2..], Double, cur);
      } else {
        assert s[2..] == a[2..] + tail;
        ReadPart(a[2..], tail, Double, cur + [Unescape(s[1])]);
      }
    } else if s[0] == '"' {
      if |a| > 1 { assert s[1] == a[1]; } else { assert s[1..] == tail; }
    } else {
      ReadPart(a[1..], tail, Double, cur + [a[0]]);
    }
  }

  lemma {:induction false} ReadPartSingle(a: string, tail: string, cur: string)
    requires a != [] && NoBlanks(a) && (tail == [] || tail[0] == ' ')
    ensures StaysIn(ReadToken(a + tail, Single, cur), a, tail, cur, true)
    decreases |a|, 0
  {
    var s := a + tail;
    assert s[0] == a[0] && s[1..] == a[1..] + tail;
    if s[0] == '\\' && |s| > 1 && s[1] == '\'' {
      assert |a| > 1;
      assert s[2..] == a[2..] + tail;
      ReadPart(a[2..], tail, Single, cur + "'");
    } else if s[0] == '\'' {
      if |a| > 1 { assert s[1] == a[1]; } else { assert s[1..] == tail; }
    } else {
      ReadPart(a[1..], tail, Single, cur + [a[0]]);
    }
  }

  lemma {:induction false} ReadBare(pre: string, s: string, cur: string)
    requires IsBare(pre)
    ensures ReadToken(pre + s, Bare, cur) == ReadToken(s, Bare, cur + pre)
    decreases |pre|
  {
    if pre == [] {
      assert pre + s == s && cur + pre == cur;
    } else {
      assert (pre + s)[0] == pre[0] && (pre + s)[1..] == pre[1..] + s;
      ReadBare(pre[1..], s, cur + [pre[0]]);
      assert cur + [pre[0]] + pre[1..] == cur + pre;
    }
  }

  /** The first argument of a text that starts with `pre` and `a`: it keeps `pre`, and unless a blank is
      taken in, the rest is split as before and what is left of `a` is shorter when it had a quote. */
  lemma SplitPart(pre: string, a: string, tail: string)
    requires pre != [] && IsWord(pre) && NoBlanks(a) && (tail == [] || tail[0] == ' ')
    ensures var r := SplitArgs(pre + a + tail);
            && (r.Split? ==> r.argv != [] && pre <= r.argv[0])
            && (r.Split? && ' ' !in r.argv[0] ==>
                  && SplitArgs(tail) == Split(r.argv[1..])
                  && |r.argv[0]| <= |pre| + |a| && (HasQuote(a) ==> |r.argv[0]| < |pre| + |a|))
  {
    hide ReadToken, HasQuote, IsBare;
    var s := pre + a + tail;
    assert s == pre + (a + tail);
    ReadBare(pre, a + tail, "");
    assert "" + pre == pre;
    assert s[0] == pre[0];
    ReadPart(a, tail, Bare, pre);
    TextExtends(a + tail, Bare, pre);
    if tail != [] { assert SplitArgs(tail) == SplitArgs(tail[1..]); }
    var r := SplitArgs(s);
    if r.Split? {
      var t := ReadToken(s, Bare, "");
      assert r.argv == [t.text] + SplitArgs(t.rest).argv;
      assert r.argv[1..] == SplitArgs(t.rest).argv;
    }
  }

  // ---------------------------------------------------------------- what a selector stores

  function Weight(ts: seq<string>, c: nat): nat {
    if ts == [] then 0 else |ts[0]| + c + Weight(ts[1..], c)
  }

  function PatternWeight(ps: seq<KeyPattern>, c: nat): nat {
    if ps == [] then 0 else |ps[0].pattern| + 1 + c + PatternWeight(ps[1..], c)
  }

  /** The length of all that is stored, and `c` for each pattern, channel and rule. */
  function Content(sel: Selector, c: nat): nat {
    PatternWeight(sel.patterns, c) + Weight(sel.channels, c + 1) + Weight(sel.rules, c)
  }

  lemma {:induction false} WeightAppend(xs: seq<string>, x: string, c: nat)
    ensures Weight(xs + [x], c) == Weight(xs, c) + |x| + c
  {
    if xs == [] {
      assert xs + [x] == [x] && [x][1..] == [];
    } else {
      assert (xs + [x])[1..] == xs[1..] + [x];
      WeightAppend(xs[1..], x, c);
    }
  }

  lemma {:induction false} KeepWeight(rules: seq<string>, text: string, c: nat)
    requires AllRules(rules)
    ensures Weight(Keep(rules, text), c) <= Weight(rules, c)
  {
    hide Replaces;
    if rules != [] {
      KeepWeight(rules[1..], text, c);
      var more := Keep(rules[1..], text);
      assert ([rules[0]] + more)[1..] == more && [] + more == more;
    }
  }

  lemma {:induction false} PatternUpdate(ps: seq<KeyPattern>, i: nat, p: KeyPattern, c: nat)
    requires i < |ps| && ps[i].pattern == p.pattern
    ensures PatternWeight(ps[i := p], c) == PatternWeight(ps, c)
  {
    if i > 0 {
      assert ps[i := p][1..] == ps[1..][i - 1 := p];
      PatternUpdate(ps[1..], i - 1, p, c);
    } else {
      assert ps[i := p][1..] == ps[1..];
    }
  }

  lemma {:induction false} PatternAppend(ps: seq<KeyPattern>, p: KeyPattern, c: nat)
    ensures PatternWeight(ps + [p], c) == PatternWeight(ps, c) + |p.pattern| + 1 + c
  {
    if ps == [] {
      assert ps + [p] == [p] && [p][1..] == [];
    } else {
      assert (ps + [p])[1..] == ps[1..] + [p];
      PatternAppend(ps[1..], p, c);
    }
  }

  lemma AddPatternWeight(ps: seq<KeyPattern>, p: KeyPattern, c: nat)
    ensures PatternWeight(AddPattern(ps, p), c) <= PatternWeight(ps, c) + |p.pattern| + 1 + c
  {
    hide FindPattern, PatternWeight;
    var i := FindPattern(ps, p.pattern);
    if i == |ps| {
      PatternAppend(ps, p, c);
    } else {
      PatternUpdate(ps, i, KeyPattern(p.pattern, ps[i].read || p.read, ps[i].write || p.write), c);
    }
  }

  lemma {:induction false} RemovedShorter(kept: string, s: string, text: string)
    ensures |RemovedFrom(kept, s, text)| <= |kept| + |s|
    decreases |s|
  {
    hide Replaces, RuleEnd;
    if s != [] {
      var end := RuleEnd(s, 1);
      if end < |s| {
        RemovedShorter(if Replaces(text, s[1..end]) then kept else kept + s[..end + 1], s[end + 1..], text);
      }
    }
  }

  /** When rules are counted with the space behind them, it does not matter how they are told apart. */
  predicate Countable(rules: seq<string>, c: nat) {
    c == 1 || AllRules(rules)
  }

  lemma PrunedWeight(rules: seq<string>, text: string, c: nat)
    requires Countable(rules, c)
    ensures Weight(Pruned(rules, text), c) <= Weight(rules, c)
  {
    hide Keep, RemovedFrom;
    if AllRules(rules) {
      KeepWeight(rules, text, c);
    } else {
      JoinedLength(rules);
      RemovedShorter([], Join(rules), text);
      var s := Removed(Join(rules), text);
      assert [s][1..] == [];
    }
  }

  lemma AddRuleWeight(sel: Selector, rule: string, allow: bool, c: nat)
    requires Countable(sel.rules, c)
    ensures Content(AddRule(sel, rule, allow), c) <= Content(sel, c) + 1 + |rule| + c
  {
    hide Pruned, Weight, PatternWeight, Countable;
    PrunedWeight(sel.rules, ToLower(rule), c);
    WeightAppend(Pruned(sel.rules, ToLower(rule)), Sign(allow) + ToLower(rule), c);
  }

  lemma {:induction false} PermsRest(s: string, read: bool, write: bool)
    ensures var p := ParsePerms(s, read, write); p.Perms? ==> |p.rest| <= |s|
  {
    if s != [] {
      if (s[0] == 'R' || s[0] == 'r') && !read {
        PermsRest(s[1..], true, write);
      } else if (s[0] == 'W' || s[0] == 'w') && !write {
        PermsRest(s[1..], read, true);
      }
    }
  }

  lemma KeysStep(sel: Selector, op: string, c: nat)
    requires op != [] && (op[0] == '~' || op[0] == '%')
    ensures SetKeys(sel, op).Done? ==> Content(SetKeys(sel, op).sel, c) <= Content(sel, c) + |op| + c
  {
    hide AddPattern, PatternWeight, Weight, ParsePerms, HasSpaces;
    PermsRest(op[1..], false, false);
    var perms := if op[0] == '%' then ParsePerms(op[1..], false, false) else Perms(true, true, op[1..]);
    if perms.Perms? { AddPatternWeight(sel.patterns, KeyPattern(perms.rest, perms.read, perms.write), c); }
  }

  lemma ChannelsStep(sel: Selector, op: string, c: nat)
    requires op != []
    ensures SetChannels(sel, op).Done? ==> Content(SetChannels(sel, op).sel, c) <= Content(sel, c) + |op| + c
  {
    hide PatternWeight, Weight, HasSpaces;
    WeightAppend(sel.channels, op[1..], c + 1);
  }

  lemma AllowStep(t: Table, sel: Selector, text: string, c: nat)
    requires Countable(sel.rules, c)
    ensures var r := AllowCommand(t, sel, text); r.Done? ==> Content(r.sel, c) <= Content(sel, c) + 1 + |text| + c
  {
    hide Lookup, FullName, LastBar, TargetBits, AddRule, Weight, PatternWeight;
    var n := LastBar(text);
    if n < 0 {
      var cmd := Lookup(t, text);
      if !cmd.NotFound? {
        NameLength(t, text);
        AddRuleWeight(ChangePerm(t, sel, cmd, true), FullName(t, cmd), true, c);
      }
    } else {
      var cmd := Lookup(t, text[..n]);
      if cmd.Top? {
        var sub := Lookup(t, text);
        if !sub.NotFound? { AddRuleWeight(ChangePerm(t, sel, sub, true), text, true, c); }
        AddRuleWeight(AddFirstArg(sel, t.commands[cmd.i].id, text[n + 1..]), text, true, c);
      }
    }
  }

  lemma NameLength(t: Table, text: string)
    requires !Lookup(t, text).NotFound?
    ensures |FullName(t, Lookup(t, text))| == |text|
  {
    hide Lookup, FullName;
    FullNameIsLowered(t, text);
    assert |ToLower(text)| == |text|;
  }

  lemma DenyStep(t: Table, sel: Selector, text: string, c: nat)
    requires Countable(sel.rules, c)
    ensures var r := DenyCommand(t, sel, text); r.Done? ==> Content(r.sel, c) <= Content(sel, c) + 1 + |text| + c
  {
    hide Lookup, FullName, TargetBits, AddRule, Weight, PatternWeight;
    var cmd := Lookup(t, text);
    if !cmd.NotFound? {
      NameLength(t, text);
      AddRuleWeight(ChangePerm(t, sel, cmd, false), FullName(t, cmd), false, c);
    }
  }

  lemma CategoryStep(t: Table, sel: Selector, text: string, allow: bool, c: nat)
    requires Countable(sel.rules, c) && text != []
    ensures var r := SetCategory(t, sel, text, allow); r.Done? ==> Content(r.sel, c) <= Content(sel, c) + 1 + |text| + c
  {
    hide AddRule, Weight, PatternWeight, CategoryBits, CategoryResets;
    AddRuleWeight(sel, text, allow, c);
  }

  lemma DroppedWeight(sel: Selector, c: nat)
    ensures Content(sel.(allKeys := true, patterns := []), c) <= Content(sel, c)
    ensures Content(sel.(allKeys := false, patterns := []), c) <= Content(sel, c)
    ensures Content(sel.(allChannels := true, channels := []), c) <= Content(sel, c)
    ensures Content(sel.(allChannels := false, channels := []), c) <= Content(sel, c)
    ensures Content(AllCommands(sel), c) <= Content(sel, c) && Content(NoCommands(sel), c) <= Content(sel, c)
  {
  }

  /** An operation stores no more than its own text. */
  lemma OpStep(t: Table, sel: Selector, op: string, c: nat)
    requires Countable(sel.rules, c)
    ensures var r := SetSelector(t, sel, op); r.Done? ==> Content(r.sel, c) <= Content(sel, c) + |op| + c
  {
    hide SameIgnoringCase, SetKeys, SetChannels, AllowCommand, DenyCommand, SetCategory, Content, AllCommands;
    hide NoCommands;
    DroppedWeight(sel, c);
    if op != [] {
      if op[0] == '~' || op[0] == '%' {
        KeysStep(sel, op, c);
      } else if op[0] == '&' {
        ChannelsStep(sel, op, c);
      } else if op[0] == '+' || op[0] == '-' {
        AllowStep(t, sel, op[1..], c);
        DenyStep(t, sel, op[1..], c);
        if |op| > 1 { CategoryStep(t, sel, op[1..], op[0] == '+', c); }
      }
    }
  }

  predicate NoSpaces(ops: seq<string>) {
    forall i :: 0 <= i < |ops| ==> ' ' !in ops[i]
  }

  /** Operations without spaces keep the rules free of spaces. */
  lemma OpKeepsRules(t: Table, sel: Selector, op: string)
    requires AllRules(sel.rules) && ' ' !in op && SetSelector(t, sel, op).Done?
    ensures AllRules(SetSelector(t, sel, op).sel.rules)
  {
    hide SetSelector, Keep, Lookup, FullName, LastBar, TargetBits, AllowCommand, DenyCommand, SetCategory;
    var sel' := SetSelector(t, sel, op).sel;
    if IsCommandOp(op) {
      CommandOpBranches(t, sel, op);
      var text := op[1..];
      assert forall i :: 0 <= i < |text| ==> text[i] == op[i + 1];
      if |op| > 1 && op[1] == '@' {
        CategoryRules(t, sel, text, op[0] == '+');
      } else if op[0] == '+' {
        AllowRules(t, sel, text);
      } else {
        DenyRules(t, sel, text);
      }
    } else {
      OtherOpIsMild(t, sel, op);
    }
  }

  lemma AddedRules(sel: Selector, rule: string, allow: bool, text: string)
    requires AllRules(sel.rules) && ' ' !in text && ToLower(rule) == ToLower(text)
    ensures AllRules(AddRule(sel, rule, allow).rules)
  {
    hide Keep;
    SameSpaces(text, ToLower(text));
  }

  lemma CategoryRules(t: Table, sel: Selector, text: string, allow: bool)
    requires AllRules(sel.rules) && ' ' !in text && text != []
    ensures var r := SetCategory(t, sel, text, allow); r.Done? ==> AllRules(r.sel.rules)
  {
    hide AddRule, CategoryBits, CategoryResets;
    AddedRules(sel, text, allow, text);
  }

  lemma DenyRules(t: Table, sel: Selector, text: string)
    requires AllRules(sel.rules) && ' ' !in text
    ensures var r := DenyCommand(t, sel, text); r.Done? ==> AllRules(r.sel.rules)
  {
    hide AddRule, Lookup, FullName, TargetBits;
    var cmd := Lookup(t, text);
    if !cmd.NotFound? {
      FullNameIsLowered(t, text);
      AddedRules(ChangePerm(t, sel, cmd, false), FullName(t, cmd), false, text);
    }
  }

  lemma AllowRules(t: Table, sel: Selector, text: string)
    requires AllRules(sel.rules) && ' ' !in text
    ensures var r := AllowCommand(t, sel, text); r.Done? ==> AllRules(r.sel.rules)
  {
    hide AddRule, Lookup, FullName, TargetBits, LastBar, ToLower, AllRules;
    var n := LastBar(text);
    if n < 0 {
      var cmd := Lookup(t, text);
      if !cmd.NotFound? {
        FullNameIsLowered(t, text);
        AddedRules(ChangePerm(t, sel, cmd, true), FullName(t, cmd), true, text);
      }
    } else {
      var cmd := Lookup(t, text[..n]);
      if cmd.Top? {
        var sub := Lookup(t, text);
        if !sub.NotFound? { AddedRules(ChangePerm(t, sel, sub, true), text, true, text); }
        AddedRules(AddFirstArg(sel, t.commands[cmd.i].id, text[n + 1..]), text, true, text);
      }
    }
  }

  lemma {:induction false} ApplyWeight(t: Table, sel: Selector, ops: seq<string>, c: nat)
    requires c == 1 || (AllRules(sel.rules) && NoSpaces(ops))
    ensures var r := ApplyAll(t, sel, ops); r.Done? ==> Content(r.sel, c) <= Content(sel, c) + Weight(ops, c)
    decreases |ops|
  {
    hide SetSelector, Content, AllRules;
    if ops != [] {
      OpStep(t, sel, ops[0], c);
      var r := SetSelector(t, sel, ops[0]);
      if r.Done? {
        if c != 1 { OpKeepsRules(t, sel, ops[0]); }
        ApplyWeight(t, r.sel, ops[1..], c);
      }
    }
  }

  // ---------------------------------------------------------------- splitting and applying

  /** Splitting a text and applying its arguments. */
  function Applied(t: Table, start: Selector, s: string): Outcome {
    match SplitArgs(s)
    case SplitError => Failed(EINVAL)
    case Split(argv) => ApplyAll(t, start, argv)
  }

  function TailText(rest: seq<string>): string {
    if rest == [] then "" else " " + Join(rest)
  }

  lemma JoinCons(a: string, rest: seq<string>)
    ensures Join([a] + rest) == a + TailText(rest)
    ensures SplitArgs(TailText(rest)) == SplitArgs(Join(rest))
  {
    assert ([a] + rest)[1..] == rest;
    if rest != [] {
      assert TailText(rest)[1..] == Join(rest);
      assert TailText(rest)[0] == ' ';
    }
  }

  lemma AppliedStep(t: Table, start: Selector, s: string, rest: seq<string>)
    requires var r := SplitArgs(s); r.Split? ==> r.argv != [] && SplitArgs(Join(rest)) == Split(r.argv[1..])
    ensures Applied(t, start, s).Done? ==>
              var op := SplitArgs(s).argv[0];
              && SetSelector(t, start, op).Done?
              && Applied(t, start, s) == Applied(t, SetSelector(t, start, op).sel, Join(rest))
  {
    hide SetSelector, SplitArgs, Join;
  }

  lemma DoneSplits(t: Table, start: Selector, s: string)
    ensures Applied(t, start, s).Done? ==> SplitArgs(s).Split?
  {
    hide SplitArgs, ApplyAll;
  }

  /** A text is split and applied like its first operation and then the others, unless it fails. */
  predicate GoesOn(t: Table, start: Selector, s: string, next: Selector, rest: seq<string>, more: int, c: nat) {
    Applied(t, start, s).Done? ==>
      Applied(t, next, Join(rest)) == Applied(t, start, s) && Content(next, c) <= Content(start, c) + more
  }

  predicate IsFixed(w: string) {
    w == "~*" || w == "&*" || w == "resetchannels" || w == "+@all" || w == "-@all"
  }

  lemma FixedOp(t: Table, sel: Selector, w: string, c: nat)
    requires IsFixed(w)
    ensures SetSelector(t, sel, w).Done? && Content(SetSelector(t, sel, w).sel, c) <= Content(sel, c)
  {
    hide Content, AllCommands, NoCommands, SetKeys, SetChannels, AllowCommand, DenyCommand, SetCategory;
    DroppedWeight(sel, c);
    assert SameIgnoringCase(w, w);
  }

  lemma FixedRules(t: Table, sel: Selector, w: string)
    requires w == "+@all" || w == "-@all"
    ensures SetSelector(t, sel, w).Done? && SetSelector(t, sel, w).sel.rules == []
  {
    hide SetKeys, SetChannels, AllowCommand, DenyCommand, SetCategory;
    assert SameIgnoringCase(w, w);
  }

  lemma FixedIsWord(w: string)
    requires IsFixed(w)
    ensures IsWord(w)
  {
  }

  lemma FixedSection(t: Table, start: Selector, w: string, rest: seq<string>, c: nat) returns (next: Selector)
    requires IsFixed(w)
    ensures GoesOn(t, start, Join([w] + rest), next, rest, 0, c)
    ensures Applied(t, start, Join([w] + rest)).Done? && (w == "+@all" || w == "-@all") ==> next.rules == []
  {
    hide SetSelector, SplitArgs, Join, Content, IsFixed, IsWord, ApplyAll, Applied;
    next := start;
    JoinCons(w, rest);
    FixedIsWord(w);
    SplitWord(w, TailText(rest));
    var s := Join([w] + rest);
    AppliedStep(t, start, s, rest);
    DoneSplits(t, start, s);
    if Applied(t, start, s).Done? {
      assert SplitArgs(s).argv[0] == w;
      FixedOp(t, start, w, c);
      next := SetSelector(t, start, w).sel;
      if w == "+@all" || w == "-@all" { FixedRules(t, start, w); }
    }
  }

  // ---------------------------------------------------------------- patterns and channels

  function Prefix(p: KeyPattern): string {
    if p.read && p.write then "~" else if p.read then "%R~" else "%W~"
  }

  lemma PatternOp(t: Table, sel: Selector, pre: string, q: string, c: nat)
    requires (pre == "~" || pre == "%R~" || pre == "%W~")
    ensures var r := SetSelector(t, sel, pre + q);
            r.Done? ==> ' ' !in q && Content(r.sel, c) <= Content(sel, c) + |q| + 1 + c
  {
    hide SameIgnoringCase, Content, AllCommands, NoCommands, SetKeys;
    var op := pre + q;
    assert op[0] in {'~', '%'};
    NotThese(op);
    DroppedWeight(sel, c);
    PatternKeys(sel, pre, q, c);
    if SameIgnoringCase(op, "~*") { StarHasNoBlank(op, q); }
  }

  lemma StarHasNoBlank(op: string, q: string)
    requires SameIgnoringCase(op, "~*") && |q| <= |op| && forall i :: 0 <= i < |q| ==> q[i] == op[|op| - |q| + i]
    ensures ' ' !in q
  {
    assert Lower(op[0]) == '~' && Lower(op[1]) == '*';
  }

  lemma ParsePrefix(letter: char, q: string)
    requires letter == 'R' || letter == 'W'
    ensures ParsePerms([letter] + ("~" + q), false, false) == Perms(letter == 'R', letter == 'W', q)
  {
    var rest := "~" + q;
    assert ([letter] + rest)[1..] == rest && rest[1..] == q;
    assert ParsePerms(rest, letter == 'R', letter == 'W') == Perms(letter == 'R', letter == 'W', q);
  }

  lemma PatternKeys(sel: Selector, pre: string, q: string, c: nat)
    requires pre == "~" || pre == "%R~" || pre == "%W~"
    ensures var r := SetKeys(sel, pre + q);
            r.Done? ==> ' ' !in q && Content(r.sel, c) <= Content(sel, c) + |q| + 1 + c
  {
    hide AddPattern, PatternWeight, Weight;
    var op := pre + q;
    var perms := if op[0] == '%' then ParsePerms(op[1..], false, false) else Perms(true, true, op[1..]);
    if pre == "~" {
      assert op[1..] == q;
    } else {
      ParsePrefix(pre[1], q);
      assert op[1..] == [pre[1]] + ("~" + q);
    }
    AddPatternWeight(sel.patterns, KeyPattern(q, perms.read, perms.write), c);
  }

  lemma PatternSection(t: Table, start: Selector, p: KeyPattern, rest: seq<string>, c: nat) returns (next: Selector)
    requires !HasSpaces(p.pattern)
    ensures var w := |p.pattern| + 1 + c;
            GoesOn(t, start, Join([PatternToken(p)] + rest), next, rest, if HasQuote(p.pattern) then w - 1 else w, c)
  {
    hide SetSelector, SplitArgs, Join, Content, ApplyAll, Applied, HasQuote;
    next := start;
    var pre, tail := Prefix(p), TailText(rest);
    JoinCons(PatternToken(p), rest);
    var s := Join([PatternToken(p)] + rest);
    assert s == pre + p.pattern + tail;
    SplitPart(pre, p.pattern, tail);
    DoneSplits(t, start, s);
    if Applied(t, start, s).Done? {
      var op := SplitArgs(s).argv[0];
      var q := op[|pre|..];
      assert op == pre + q;
      FirstOp(t, start, s);
      PatternOp(t, start, pre, q, c);
      assert ' ' !in op;
      AppliedStep(t, start, s, rest);
      next := SetSelector(t, start, op).sel;
    }
  }

  lemma FirstOp(t: Table, start: Selector, s: string)
    requires Applied(t, start, s).Done? && SplitArgs(s).Split? && SplitArgs(s).argv != []
    ensures SetSelector(t, start, SplitArgs(s).argv[0]).Done?
  {
    hide SetSelector, SplitArgs;
  }

  predicate AnyQuote(ts: seq<string>) {
    exists i :: 0 <= i < |ts| && HasQuote(ts[i])
  }

  predicate QuotedPattern(ps: seq<KeyPattern>) {
    exists i :: 0 <= i < |ps| && HasQuote(ps[i].pattern)
  }

  lemma {:induction false} PatternsSection(t: Table, start: Selector, ps: seq<KeyPattern>, rest: seq<string>, c: nat)
    returns (next: Selector)
    requires forall i :: 0 <= i < |ps| ==> !HasSpaces(ps[i].pattern)
    ensures var w := PatternWeight(ps, c);
            GoesOn(t, start, Join(PatternTokens(ps) + rest), next, rest, if QuotedPattern(ps) then w - 1 else w, c)
    decreases |ps|
  {
    hide Applied, Join, HasQuote, HasSpaces, PatternToken, Content;
    next := start;
    if ps == [] {
      assert PatternTokens(ps) + rest == rest;
    } else {
      var more := PatternTokens(ps[1..]) + rest;
      assert PatternTokens(ps) + rest == [PatternToken(ps[0])] + more;
      next := PatternSection(t, start, ps[0], more, c);
      next := PatternsSection(t, next, ps[1..], rest, c);
      if QuotedPattern(ps) {
        var i :| 0 <= i < |ps| && HasQuote(ps[i].pattern);
        if i > 0 { assert HasQuote(ps[1..][i - 1].pattern); }
      }
    }
  }

  lemma ChannelOp(t: Table, sel: Selector, q: string, c: nat)
    ensures var r := SetSelector(t, sel, "&" + q);
            r.Done? ==> ' ' !in q && Content(r.sel, c) <= Content(sel, c) + |q| + 1 + c
  {
    hide SameIgnoringCase, Content, AllCommands, NoCommands, SetChannels;
    var op := "&" + q;
    NotThese(op);
    DroppedWeight(sel, c);
    ChannelsStep(sel, op, c);
    ChannelBlank(sel, q);
    if SameIgnoringCase(op, "&*") { AmpersandStar(op, q); }
  }

  lemma ChannelBlank(sel: Selector, q: string)
    ensures SetChannels(sel, "&" + q).Done? ==> ' ' !in q
  {
    assert ("&" + q)[1..] == q;
  }

  lemma AmpersandStar(op: string, q: string)
    requires SameIgnoringCase(op, "&*") && op == "&" + q
    ensures ' ' !in q
  {
    assert Lower(op[1]) == '*' && |op| == 2;
  }

  lemma ChannelSection(t: Table, start: Selector, ch: string, rest: seq<string>, c: nat) returns (next: Selector)
    requires !HasSpaces(ch)
    ensures var w := |ch| + 1 + c;
            GoesOn(t, start, Join(["&" + ch] + rest), next, rest, if HasQuote(ch) then w - 1 else w, c)
  {
    hide SetSelector, SplitArgs, Join, Content, ApplyAll, Applied, HasQuote;
    next := start;
    var tail := TailText(rest);
    JoinCons("&" + ch, rest);
    var s := Join(["&" + ch] + rest);
    assert s == "&" + ch + tail;
    SplitPart("&", ch, tail);
    DoneSplits(t, start, s);
    if Applied(t, start, s).Done? {
      var op := SplitArgs(s).argv[0];
      var q := op[1..];
      assert op == "&" + q;
      FirstOp(t, start, s);
      ChannelOp(t, start, q, c);
      assert ' ' !in op;
      AppliedStep(t, start, s, rest);
      next := SetSelector(t, start, op).sel;
    }
  }

  lemma {:induction false} ChannelsSection(t: Table, start: Selector, cs: seq<string>, rest: seq<string>, c: nat)
    returns (next: Selector)
    requires forall i :: 0 <= i < |cs| ==> !HasSpaces(cs[i])
    ensures var w := Weight(cs, c + 1);
            GoesOn(t, start, Join(ChannelTokens(cs) + rest), next, rest, if AnyQuote(cs) then w - 1 else w, c)
    decreases |cs|
  {
    hide Applied, Join, HasQuote, HasSpaces, Content;
    next := start;
    if cs == [] {
      assert ChannelTokens(cs) + rest == rest;
    } else {
      var more := ChannelTokens(cs[1..]) + rest;
      assert ChannelTokens(cs) + rest == ["&" + cs[0]] + more;
      next := ChannelSection(t, start, cs[0], more, c);
      next := ChannelsSection(t, next, cs[1..], rest, c);
      if AnyQuote(cs) {
        var i :| 0 <= i < |cs| && HasQuote(cs[i]);
        if i > 0 { assert HasQuote(cs[1..][i - 1]); }
      }
    }
  }

  // ---------------------------------------------------------------- rules

  /** An argument never holds more than the text it was read from, and quotes are lost in pairs. */
  lemma {:induction false} ReadWeight(s: string, mode: Mode, cur: string)
    ensures var t := ReadToken(s, mode, cur);
            t.Token? ==>
              && |t.text| + |t.rest| + (if mode == Bare && t.rest == [] then 0 else 1) <= |cur| + |s|
              && (mode == Bare && HasQuote(s) ==> HasQuote(t.rest) || |t.text| + |t.rest| + 2 <= |cur| + |s|)
    decreases |s|
  {
    if s != [] {
      match mode {
        case Double =>
          if IsHexEscape(s) {
            ReadWeight(s[4..], Double, cur + [(HexValue(s[2]) * 16 + HexValue(s[3])) as char]);
          } else if s[0] == '\\' && |s| > 1 {
            ReadWeight(s[2..], Double, cur + [Unescape(s[1])]);
          } else if s[0] != '"' {
            ReadWeight(s[1..], Double, cur + [s[0]]);
          }
        case Single =>
          if s[0] == '\\' && |s| > 1 && s[1] == '\'' {
            ReadWeight(s[2..], Single, cur + "'");
          } else if s[0] != '\'' {
            ReadWeight(s[1..], Single, cur + [s[0]]);
          }
        case Bare =>
          QuoteMoves(s);
          if s[0] == '"' {
            ReadWeight(s[1..], Double, cur);
          } else if s[0] == '\'' {
            ReadWeight(s[1..], Single, cur);
          } else if s[0] != ' ' && s[0] != '\n' && s[0] != '\r' && s[0] != '\t' {
            ReadWeight(s[1..], Bare, cur + [s[0]]);
          }
      }
    }
  }

  lemma QuoteMoves(s: string)
    requires s != []
    ensures HasQuote(s) && !IsQuote(s[0]) ==> HasQuote(s[1..])
  {
    if HasQuote(s) && !IsQuote(s[0]) {
      var i :| 0 <= i < |s| && IsQuote(s[i]);
      assert IsQuote(s[1..][i - 1]);
    }
  }

  lemma {:induction false} SplitWeight(s: string)
    ensures var r := SplitArgs(s);
            r.Split? ==> Weight(r.argv, 1) <= |s| + 1 && (HasQuote(s) ==> Weight(r.argv, 1) <= |s|)
    decreases |s|
  {
    hide ReadToken, HasQuote;
    if s != [] {
      if IsSpace(s[0]) {
        SplitWeight(s[1..]);
      } else {
        ReadWeight(s, Bare, "");
        var t := ReadToken(s, Bare, "");
        if t.Token? {
          SplitWeight(t.rest);
          NoQuoteInNothing();
          if SplitArgs(t.rest).Split? {
            assert SplitArgs(s).argv[1..] == SplitArgs(t.rest).argv;
          }
        }
      }
    } else {
      NoQuoteInNothing();
    }
  }

  lemma NoQuoteInNothing()
    ensures !HasQuote([])
  {
  }

  lemma {:induction false} JoinedLength(ts: seq<string>)
    requires ts != []
    ensures |Join(ts)| + 1 == Weight(ts, 1)
  {
    if |ts| > 1 {
      JoinedLength(ts[1..]);
    } else {
      assert ts[1..] == [];
    }
  }

  lemma {:induction false} JoinedQuote(ts: seq<string>)
    requires AnyQuote(ts)
    ensures HasQuote(Join(ts))
  {
    var i :| 0 <= i < |ts| && HasQuote(ts[i]);
    var all := Join(ts);
    if i == 0 {
      var j :| 0 <= j < |ts[0]| && IsQuote(ts[0][j]);
      assert all[j] == ts[0][j];
    } else {
      assert HasQuote(ts[1..][i - 1]);
      JoinedQuote(ts[1..]);
      var rest := Join(ts[1..]);
      var j :| 0 <= j < |rest| && IsQuote(rest[j]);
      assert all[|ts[0]| + 1 + j] == rest[j];
    }
  }

  // ---------------------------------------------------------------- rules with blanks

  predicate Separates(c: char) {
    c == ' ' || c == '\n' || c == '\r' || c == '\t'
  }

  function Letters(s: string): nat {
    if s == [] then 0 else (if Separates(s[0]) then 0 else 1) + Letters(s[1..])
  }

  lemma {:induction false} LettersAppend(a: string, b: string)
    ensures Letters(a + b) == Letters(a) + Letters(b)
  {
    if a == [] {
      assert a + b == b;
    } else {
      assert (a + b)[1..] == a[1..] + b;
      LettersAppend(a[1..], b);
    }
  }

  lemma {:induction false} LettersAtMost(s: string)
    ensures Letters(s) <= |s|
    ensures !HasQuote(s) && !IsBare(s) ==> Letters(s) < |s|
  {
    if s != [] {
      LettersAtMost(s[1..]);
      if !HasQuote(s) && !IsBare(s) && !Separates(s[0]) {
        assert !IsQuote(s[0]);
        var i :| 0 <= i < |s| && s[i] in {' ', '\n', '\r', '\t', '"', '\''};
        assert s[1..][i - 1] == s[i];
        forall k | 0 <= k < |s[1..]| ensures !IsQuote(s[1..][k]) { assert s[1..][k] == s[k + 1]; }
      }
    }
  }

  lemma {:induction false} ReadLetters(s: string, cur: string)
    requires !HasQuote(s) && ' ' !in cur
    ensures var t := ReadToken(s, Bare, cur);
            && t.Token? && |t.text| + Letters(t.rest) == |cur| + Letters(s) && !HasQuote(t.rest)
            && ' ' !in t.text
    decreases |s|
  {
    if s != [] {
      assert !IsQuote(s[0]);
      forall k | 0 <= k < |s[1..]| ensures !IsQuote(s[1..][k]) { assert s[1..][k] == s[k + 1]; }
      if !Separates(s[0]) { ReadLetters(s[1..], cur + [s[0]]); }
    }
  }

  lemma {:induction false} SplitLetters(s: string)
    requires !HasQuote(s)
    ensures SplitArgs(s).Split? && Weight(SplitArgs(s).argv, 0) <= Letters(s) && NoSpaces(SplitArgs(s).argv)
    decreases |s|
  {
    hide ReadToken;
    if s != [] {
      if IsSpace(s[0]) {
        forall k | 0 <= k < |s[1..]| ensures !IsQuote(s[1..][k]) { assert s[1..][k] == s[k + 1]; }
        SplitLetters(s[1..]);
      } else {
        ReadLetters(s, "");
        var t := ReadToken(s, Bare, "");
        SplitLetters(t.rest);
        assert SplitArgs(s).argv[1..] == SplitArgs(t.rest).argv;
      }
    }
  }

  predicate SomeBlank(ts: seq<string>) {
    exists i :: 0 <= i < |ts| && !IsBare(ts[i])
  }

  lemma {:induction false} JoinedLetters(ts: seq<string>)
    requires !AnyQuote(ts)
    ensures Letters(Join(ts)) <= Weight(ts, 0) && (SomeBlank(ts) ==> Letters(Join(ts)) < Weight(ts, 0))
    ensures !HasQuote(Join(ts))
  {
    hide HasQuote, IsBare;
    if |ts| == 0 {
      NoQuoteInNothing();
    } else {
      assert !HasQuote(ts[0]);
      LettersAtMost(ts[0]);
      forall i | 0 <= i < |ts[1..]| ensures !HasQuote(ts[1..][i]) { assert ts[1..][i] == ts[i + 1]; }
      JoinedLetters(ts[1..]);
      if SomeBlank(ts) {
        var i :| 0 <= i < |ts| && !IsBare(ts[i]);
        if i > 0 { assert !IsBare(ts[1..][i - 1]); }
      }
      if |ts| > 1 {
        LettersAppend(ts[0] + " ", Join(ts[1..]));
        LettersAppend(ts[0], " ");
        assert Letters(" ") == 0 by { assert " "[1..] == []; }
        NoQuoteJoined(ts[0], Join(ts[1..]));
      } else {
        assert ts[1..] == [] && Join(ts) == ts[0];
      }
    }
  }

  lemma NoQuoteJoined(a: string, b: string)
    requires !HasQuote(a) && !HasQuote(b)
    ensures !HasQuote(a + " " + b)
  {
    var s := a + " " + b;
    forall i | 0 <= i < |s| ensures !IsQuote(s[i]) {
      if i < |a| { assert !IsQuote(a[i]); } else if i > |a| { assert !IsQuote(b[i - |a| - 1]); }
    }
  }

  // ---------------------------------------------------------------- whole selectors

  /** Something is stored that the splitter does not leave as it stands. */
  predicate Stores(sel: Selector) {
    QuotedPattern(sel.patterns) || AnyQuote(sel.channels) || AnyQuote(sel.rules) || SomeBlank(sel.rules)
  }

  lemma {:induction false} PatternWords(ps: seq<KeyPattern>)
    requires !QuotedPattern(ps) && forall i :: 0 <= i < |ps| ==> !HasSpaces(ps[i].pattern)
    ensures forall i :: 0 <= i < |PatternTokens(ps)| ==> IsWord(PatternTokens(ps)[i])
    decreases |ps|
  {
    if ps != [] {
      assert !HasQuote(ps[0].pattern);
      forall i | 0 <= i < |ps[1..]| ensures !HasQuote(ps[1..][i].pattern) { assert ps[1..][i] == ps[i + 1]; }
      PatternWords(ps[1..]);
      PlainIsBare(ps[0].pattern);
      BareWord(Prefix(ps[0]), ps[0].pattern);
    }
  }

  lemma PlainIsBare(s: string)
    requires !HasQuote(s) && !HasSpaces(s)
    ensures IsBare(s)
  {
    forall i | 0 <= i < |s| ensures s[i] !in {' ', '\n', '\r', '\t', '"', '\''} {
      assert !IsQuote(s[i]);
    }
  }

  lemma BareWord(pre: string, s: string)
    requires IsWord(pre) && IsBare(s)
    ensures IsWord(pre + s)
  {
  }

  lemma {:induction false} ChannelWords(cs: seq<string>)
    requires !AnyQuote(cs) && forall i :: 0 <= i < |cs| ==> !HasSpaces(cs[i])
    ensures forall i :: 0 <= i < |ChannelTokens(cs)| ==> IsWord(ChannelTokens(cs)[i])
    decreases |cs|
  {
    if cs != [] {
      assert !HasQuote(cs[0]);
      forall i | 0 <= i < |cs[1..]| ensures !HasQuote(cs[1..][i]) { assert cs[1..][i] == cs[i + 1]; }
      ChannelWords(cs[1..]);
      PlainIsBare(cs[0]);
      BareWord("&", cs[0]);
    }
  }

  lemma RuleWords(t: Table, rules: seq<string>)
    requires RulesOk(t, rules) && !AnyQuote(rules) && !SomeBlank(rules)
    ensures forall i :: 0 <= i < |rules| ==> IsWord(rules[i])
  {
    forall i | 0 <= i < |rules| ensures IsWord(rules[i]) {
      assert ValidRule(t, rules[i]) && IsBare(rules[i]);
    }
  }

  lemma AllWords(a: seq<string>, b: seq<string>)
    requires (forall i :: 0 <= i < |a| ==> IsWord(a[i])) && forall i :: 0 <= i < |b| ==> IsWord(b[i])
    ensures forall i :: 0 <= i < |a + b| ==> IsWord((a + b)[i])
  {
    hide IsWord;
  }

  /** A selector prints as plain words exactly when it stores none of these. */
  lemma SplittableMeans(t: Table, sel: Selector)
    requires SelectorInv(t, sel)
    ensures !Stores(sel) ==> Splittable(sel)
  {
    hide IsWord, PatternTokens, ChannelTokens, HasSpaces;
    if !Stores(sel) {
      SelectorInvParts(t, sel);
      PatternWords(sel.patterns);
      ChannelWords(sel.channels);
      RuleWords(t, sel.rules);
      FixedIsWord("~*");
      FixedIsWord("&*");
      FixedIsWord("resetchannels");
      FixedIsWord("+@all");
      FixedIsWord("-@all");
      AllWords(["resetchannels"], ChannelTokens(sel.channels));
      AllWords([if FUTURE_BIT in sel.allowed then "+@all" else "-@all"], sel.rules);
      AllWords(KeyTokens(sel), ChannelPart(sel));
      AllWords(KeyTokens(sel) + ChannelPart(sel), CommandPart(sel));
    }
  }

  lemma GoesFurther(t: Table, a: Selector, s: string, b: Selector, mid: seq<string>, c: Selector, rest: seq<string>,
                    x: int, y: int, k: nat)
    requires GoesOn(t, a, s, b, mid, x, k) && GoesOn(t, b, Join(mid), c, rest, y, k)
    ensures GoesOn(t, a, s, c, rest, x + y, k)
  {
    hide Applied, Content, Join;
  }

  lemma ChannelPartSection(t: Table, start: Selector, sel: Selector, rest: seq<string>, c: nat) returns (next: Selector)
    requires ChannelsOk(sel)
    ensures var w := Weight(sel.channels, c + 1);
            GoesOn(t, start, Join(ChannelPart(sel) + rest), next, rest, if AnyQuote(sel.channels) then w - 1 else w, c)
  {
    hide GoesOn, Join, HasSpaces, HasQuote;
    if sel.allChannels {
      next := FixedSection(t, start, "&*", rest, c);
    } else {
      var more := ChannelTokens(sel.channels) + rest;
      assert ChannelPart(sel) + rest == ["resetchannels"] + more;
      var mid := FixedSection(t, start, "resetchannels", more, c);
      next := ChannelsSection(t, mid, sel.channels, rest, c);
      var w := Weight(sel.channels, c + 1);
      GoesFurther(t, start, Join(ChannelPart(sel) + rest), mid, more, next, rest, 0,
                  if AnyQuote(sel.channels) then w - 1 else w, c);
    }
  }

  lemma KeyPartSection(t: Table, start: Selector, sel: Selector, rest: seq<string>, c: nat) returns (next: Selector)
    requires KeysOk(sel)
    ensures var w := PatternWeight(sel.patterns, c);
            GoesOn(t, start, Join(KeyTokens(sel) + rest), next, rest,
                   if QuotedPattern(sel.patterns) then w - 1 else w, c)
  {
    hide GoesOn, Join, HasSpaces, HasQuote;
    if sel.allKeys {
      next := FixedSection(t, start, "~*", rest, c);
    } else {
      next := PatternsSection(t, start, sel.patterns, rest, c);
    }
  }

  /** Reading a description up to its rules stores at most what the selector stores besides them. */
  lemma DescriptionSections(t: Table, start: Selector, sel: Selector, c: nat) returns (next: Selector)
    requires KeysOk(sel) && ChannelsOk(sel)
    ensures var w := PatternWeight(sel.patterns, c) + Weight(sel.channels, c + 1);
            var lost := QuotedPattern(sel.patterns) || AnyQuote(sel.channels);
            GoesOn(t, start, Join(DescribeSelector(sel)), next, sel.rules, if lost then w - 1 else w, c)
    ensures Applied(t, start, Join(DescribeSelector(sel))).Done? ==> next.rules == []
  {
    hide GoesOn, Join, KeysOk, ChannelsOk, QuotedPattern, AnyQuote, PatternWeight, Weight, Applied;
    var first := if FUTURE_BIT in sel.allowed then "+@all" else "-@all";
    var cmds := [first] + sel.rules;
    var more := ChannelPart(sel) + cmds;
    var s := Join(DescribeSelector(sel));
    assert DescribeSelector(sel) == KeyTokens(sel) + more;
    var a := KeyPartSection(t, start, sel, more, c);
    var b := ChannelPartSection(t, a, sel, cmds, c);
    next := FixedSection(t, b, first, sel.rules, c);
    var x: int := if QuotedPattern(sel.patterns) then PatternWeight(sel.patterns, c) - 1
      else PatternWeight(sel.patterns, c);
    var y: int := if AnyQuote(sel.channels) then Weight(sel.channels, c + 1) - 1 else Weight(sel.channels, c + 1);
    GoesFurther(t, start, s, a, more, b, cmds, x, y, c);
    GoesMeans(t, start, s, b, cmds, x + y, c);
    GoesFurther(t, start, s, b, cmds, next, sel.rules, x + y, 0, c);
    MoreGoes(t, start, s, next, sel.rules, x + y, c);
  }

  lemma GoesMeans(t: Table, start: Selector, s: string, next: Selector, rest: seq<string>, x: int, c: nat)
    requires GoesOn(t, start, s, next, rest, x, c)
    ensures Applied(t, start, s).Done? ==> Applied(t, next, Join(rest)).Done?
  {
    hide Applied, Content, Join;
  }

  lemma MoreGoes(t: Table, start: Selector, s: string, next: Selector, rest: seq<string>, x: int, c: nat)
    requires GoesOn(t, start, s, next, rest, x, c)
    ensures forall y :: x <= y ==> GoesOn(t, start, s, next, rest, y, c)
  {
    hide Applied, Content, Join;
  }

  lemma RulesLose(rules: seq<string>, quoted: bool)
    requires SplitArgs(Join(rules)).Split? && (AnyQuote(rules) ==> quoted)
    ensures var c := if quoted then 1 else 0;
            var w := Weight(SplitArgs(Join(rules)).argv, c);
            && w <= Weight(rules, c) && (AnyQuote(rules) ==> w < Weight(rules, c))
            && (!quoted && SomeBlank(rules) ==> w < Weight(rules, c))
            && (!quoted ==> NoSpaces(SplitArgs(Join(rules)).argv))
  {
    hide HasQuote, IsBare, SplitArgs, Join, NoSpaces;
    if quoted {
      if rules == [] {
        assert Join(rules) == "" && SplitArgs("").argv == [] by { NothingSplits(); }
      } else {
        JoinedLength(rules);
        SplitWeight(Join(rules));
        if AnyQuote(rules) { JoinedQuote(rules); }
      }
    } else {
      JoinedLetters(rules);
      SplitLetters(Join(rules));
    }
  }

  lemma NothingSplits()
    ensures Join([]) == "" && SplitArgs("") == Split([])
  {
  }

  /** What is read back from such a description stores strictly less, so it is another selector. */
  lemma LossyNotSame(t: Table, byDefault: bool, sel: Selector)
    requires KeysOk(sel) && ChannelsOk(sel) && Stores(sel)
    ensures var r := Applied(t, NewSelector(byDefault), Join(DescribeSelector(sel)));
            r.Done? ==> !SameSelector(t, sel, r.sel)
  {
    hide SplitArgs, Join, HasQuote, IsBare, DescribeSelector, ApplyAll, SamePermits, Weight, PatternWeight;
    hide KeysOk, ChannelsOk;
    var start := NewSelector(byDefault);
    var quoted := QuotedPattern(sel.patterns) || AnyQuote(sel.channels) || AnyQuote(sel.rules);
    var c := if quoted then 1 else 0;
    var next := DescriptionSections(t, start, sel, c);
    var r := Applied(t, start, Join(DescribeSelector(sel)));
    if r.Done? {
      var text := Join(sel.rules);
      DoneSplits(t, next, text);
      RulesLose(sel.rules, quoted);
      ApplyWeight(t, next, SplitArgs(text).argv, c);
      NewIsEmpty(byDefault, c);
      if SameSelector(t, sel, r.sel) { SameContent(t, sel, r.sel, c); }
    }
  }

  lemma NewIsEmpty(byDefault: bool, c: nat)
    ensures Content(NewSelector(byDefault), c) == 0
  {
  }

  lemma SameContent(t: Table, a: Selector, b: Selector, c: nat)
    requires SameSelector(t, a, b)
    ensures Content(a, c) == Content(b, c) && (Stores(a) <==> Stores(b))
  {
  }

  /** A selector in parentheses that stores a quote, or a blank in a rule, is never restored. */
  lemma NotRestored(t: Table, byDefault: bool, sel: Selector)
    requires KeysOk(sel) && ChannelsOk(sel) && Stores(sel)
    ensures var r := ApplyAll(t, NewSelector(byDefault), InnerOps("(" + Join(DescribeSelector(sel)) + ")"));
            r.Done? ==> !SameSelector(t, sel, r.sel)
  {
    hide SplitArgs, Join, DescribeSelector, SameSelector, Stores, KeysOk, ChannelsOk;
    var text := Join(DescribeSelector(sel));
    var op := "(" + text + ")";
    assert op[1..|op| - 1] == text;
    LossyNotSame(t, byDefault, sel);
    if SplitArgs(text).SplitError? {
      var new_ := NewSelector(byDefault);
      NewStoresNothing(byDefault);
      if SameSelector(t, sel, new_) { SameContent(t, sel, new_, 0); }
    }
  }

  lemma NewStoresNothing(byDefault: bool)
    ensures !Stores(NewSelector(byDefault))
  {
  }
}
