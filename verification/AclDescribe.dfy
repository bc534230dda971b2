/** Describing users (`ACLDescribeSelector`, `ACLDescribeUser`) and reading the description back. */
module AclDescribe {
  import opened Sds
  import opened AclRules
  import opened AclSelector
  import opened AclReplay
  import opened AclUser

  function PatternToken(p: KeyPattern): string {
    (if p.read && p.write then "~" else if p.read then "%R~" else "%W~") + p.pattern
  }

  function PatternTokens(ps: seq<KeyPattern>): seq<string> {
    if ps == [] then [] else [PatternToken(ps[0])] + PatternTokens(ps[1..])
  }

  function ChannelTokens(cs: seq<string>): seq<string> {
    if cs == [] then [] else ["&" + cs[0]] + ChannelTokens(cs[1..])
  }

  function KeyTokens(sel: Selector): seq<string> {
    if sel.allKeys then ["~*"] else PatternTokens(sel.patterns)
  }

  function ChannelPart(sel: Selector): seq<string> {
    if sel.allChannels then ["&*"] else ["resetchannels"] + ChannelTokens(sel.channels)
  }

  function CommandPart(sel: Selector): seq<string> {
    [if FUTURE_BIT in sel.allowed then "+@all" else "-@all"] + sel.rules
  }

  /** The operations a selector is described by, in order. */
  function DescribeSelector(sel: Selector): seq<string> {
    KeyTokens(sel) + ChannelPart(sel) + CommandPart(sel)
  }

  function PasswordTokens(ps: seq<string>): seq<string> {
    if ps == [] then [] else ["#" + ps[0]] + PasswordTokens(ps[1..])
  }

  function SelectorTokens(ss: seq<Selector>): seq<string> {
    if ss == [] then [] else ["(" + Join(DescribeSelector(ss[0])) + ")"] + SelectorTokens(ss[1..])
  }

  function FlagTokens(u: User): seq<string> {
    [if u.enabled then "on" else "off"] + (if u.nopass then ["nopass"] else [])
    + [if u.skipSanitize then "skip-sanitize-payload" else "sanitize-payload"]
  }

  /** The operations a user is described by; each further selector is one operation in parentheses. */
  function DescribeUser(u: User): seq<string> {
    FlagTokens(u) + PasswordTokens(u.passwords) + DescribeSelector(u.root) + SelectorTokens(u.others)
  }

  // ---------------------------------------------------------------- the printed text

  /** Tokens each followed by a space, as they are printed. */
  function Terminated(ts: seq<string>): string {
    if ts == [] then "" else ts[0] + " " + Terminated(ts[1..])
  }

  lemma {:induction false} TerminatedGrows(ts: seq<string>, x: string)
    ensures Terminated(ts + [x]) == Terminated(ts) + (x + " ")
  {
    if ts == [] {
      assert ts + [x] == [x] && [x][1..] == [];
    } else {
      assert (ts + [x])[1..] == ts[1..] + [x];
      TerminatedGrows(ts[1..], x);
    }
  }

  lemma {:induction false} PatternTokensGrow(ps: seq<KeyPattern>, p: KeyPattern)
    ensures PatternTokens(ps + [p]) == PatternTokens(ps) + [PatternToken(p)]
  {
    hide PatternToken;
    if ps == [] {
      assert ps + [p] == [p] && [p][1..] == [];
    } else {
      assert (ps + [p])[1..] == ps[1..] + [p];
      PatternTokensGrow(ps[1..], p);
    }
  }

  lemma {:induction false} ChannelTokensGrow(cs: seq<string>, c: string)
    ensures ChannelTokens(cs + [c]) == ChannelTokens(cs) + ["&" + c]
  {
    if cs == [] {
      assert cs + [c] == [c] && [c][1..] == [];
    } else {
      assert (cs + [c])[1..] == cs[1..] + [c];
      ChannelTokensGrow(cs[1..], c);
    }
  }

  lemma {:induction false} PasswordTokensGrow(hs: seq<string>, h: string)
    ensures PasswordTokens(hs + [h]) == PasswordTokens(hs) + ["#" + h]
  {
    if hs == [] {
      assert hs + [h] == [h] && [h][1..] == [];
    } else {
      assert (hs + [h])[1..] == hs[1..] + [h];
      PasswordTokensGrow(hs[1..], h);
    }
  }

  lemma {:induction false} SelectorTokensGrow(ss: seq<Selector>, x: Selector)
    ensures SelectorTokens(ss + [x]) == SelectorTokens(ss) + ["(" + Join(DescribeSelector(x)) + ")"]
  {
    hide Join, DescribeSelector;
    if ss == [] {
      assert ss + [x] == [x] && [x][1..] == [];
    } else {
      assert (ss + [x])[1..] == ss[1..] + [x];
      SelectorTokensGrow(ss[1..], x);
    }
  }

  lemma {:induction false} TerminatedAppend(a: seq<string>, b: seq<string>)
    ensures Terminated(a + b) == Terminated(a) + Terminated(b)
  {
    if a == [] {
      assert a + b == b;
    } else {
      assert (a + b)[1..] == a[1..] + b;
      TerminatedAppend(a[1..], b);
    }
  }

  lemma {:induction false} TerminatedThenJoin(a: seq<string>, b: seq<string>)
    requires b != []
    ensures Terminated(a) + Join(b) == Join(a + b)
  {
    if a == [] {
      assert a + b == b;
    } else {
      assert (a + b)[1..] == a[1..] + b;
      TerminatedThenJoin(a[1..], b);
    }
  }

  method CatPatterns(base: string, ps: seq<KeyPattern>) returns (out: string)
    ensures out == base + Terminated(PatternTokens(ps))
  {
    out := base;
    for i := 0 to |ps|
      invariant out == base + Terminated(PatternTokens(ps[..i]))
    {
      out := out + PatternToken(ps[i]);
      out := out + " ";
      assert ps[..i + 1] == ps[..i] + [ps[i]];
      PatternTokensGrow(ps[..i], ps[i]);
      TerminatedGrows(PatternTokens(ps[..i]), PatternToken(ps[i]));
    }
    assert ps[..|ps|] == ps;
  }

  method CatChannels(base: string, cs: seq<string>) returns (out: string)
    ensures out == base + Terminated(ChannelTokens(cs))
  {
    out := base;
    for i := 0 to |cs|
      invariant out == base + Terminated(ChannelTokens(cs[..i]))
    {
      out := out + "&";
      out := out + cs[i];
      out := out + " ";
      assert cs[..i + 1] == cs[..i] + [cs[i]];
      ChannelTokensGrow(cs[..i], cs[i]);
      TerminatedGrows(ChannelTokens(cs[..i]), "&" + cs[i]);
    }
    assert cs[..|cs|] == cs;
  }

  /** `ACLDescribeSelector`: the text is the printed operations, separated by single spaces. */
  method DescribeSelectorText(sel: Selector) returns (out: string)
    ensures out == Join(DescribeSelector(sel))
  {
    hide PatternTokens, ChannelTokens;
    out := "";
    if sel.allKeys {
      out := out + "~* ";
    } else {
      out := CatPatterns(out, sel.patterns);
    }
    assert out == Terminated(KeyTokens(sel));
    if sel.allChannels {
      out := out + "&* ";
    } else {
      out := out + "resetchannels ";
      ghost var sofar := out;
      out := CatChannels(out, sel.channels);
      TerminatedAppend(["resetchannels"], ChannelTokens(sel.channels));
      assert Terminated(["resetchannels"]) == "resetchannels ";
    }
    TerminatedAppend(KeyTokens(sel), ChannelPart(sel));
    assert out == Terminated(KeyTokens(sel) + ChannelPart(sel));
    var first := if FUTURE_BIT in sel.allowed then "+@all" else "-@all";
    var rules := first + if sel.rules == [] then "" else " " + Join(sel.rules);
    assert rules == Join(CommandPart(sel)) by { FirstAndRules(first, sel.rules); }
    TerminatedThenJoin(KeyTokens(sel) + ChannelPart(sel), CommandPart(sel));
    out := out + rules;
  }

  lemma FirstAndRules(first: string, rules: seq<string>)
    ensures Join([first] + rules) == first + if rules == [] then "" else " " + Join(rules)
  {
    assert ([first] + rules)[1..] == rules;
  }

  method CatFlags(names: seq<string>) returns (out: string)
    ensures out == Terminated(names)
  {
    out := "";
    for i := 0 to |names|
      invariant out == Terminated(names[..i])
    {
      out := out + names[i];
      out := out + " ";
      assert names[..i + 1] == names[..i] + [names[i]];
      TerminatedGrows(names[..i], names[i]);
    }
    assert names[..|names|] == names;
  }

  /** `ACLDescribeUser`. */
  method DescribeUserText(u: User) returns (out: string)
    ensures out == Join(DescribeUser(u))
  {
    hide DescribeSelector, Join, PasswordTokens, SelectorTokens, Terminated;
    ghost var flags, passwords := FlagTokens(u), PasswordTokens(u.passwords);
    out := CatFlags(FlagTokens(u));
    out := CatPasswords(out, u.passwords);
    TerminatedAppend(flags, passwords);
    var root := DescribeSelectorText(u.root);
    DescriptionNotEmpty(u.root);
    TerminatedThenJoin(flags + passwords, DescribeSelector(u.root));
    out := out + root;
    out := CatSelectors(out, flags + passwords + DescribeSelector(u.root), u.others);
  }

  method CatPasswords(base: string, hs: seq<string>) returns (out: string)
    ensures out == base + Terminated(PasswordTokens(hs))
  {
    out := base;
    for i := 0 to |hs|
      invariant out == base + Terminated(PasswordTokens(hs[..i]))
    {
      out := out + "#";
      out := out + hs[i];
      out := out + " ";
      assert hs[..i + 1] == hs[..i] + [hs[i]];
      PasswordTokensGrow(hs[..i], hs[i]);
      TerminatedGrows(PasswordTokens(hs[..i]), "#" + hs[i]);
    }
    assert hs[..|hs|] == hs;
  }

  method CatSelectors(base: string, ghost head: seq<string>, ss: seq<Selector>) returns (out: string)
    requires head != [] && base == Join(head)
    ensures out == Join(head + SelectorTokens(ss))
  {
    hide DescribeSelector, Join;
    out := base;
    assert head + SelectorTokens(ss[..0]) == head;
    for i := 0 to |ss|
      invariant out == Join(head + SelectorTokens(ss[..i]))
    {
      var text := DescribeSelectorText(ss[i]);
      out := out + " (" + text + ")";
      assert ss[..i + 1] == ss[..i] + [ss[i]];
      SelectorTokensGrow(ss[..i], ss[i]);
      ghost var before := head + SelectorTokens(ss[..i]);
      assert head + SelectorTokens(ss[..i + 1]) == before + ["(" + text + ")"];
      JoinedOne(before, "(" + text + ")");
    }
    assert ss[..|ss|] == ss;
  }

  lemma DescriptionNotEmpty(sel: Selector)
    ensures DescribeSelector(sel) != []
  {
  }

  lemma JoinedOne(a: seq<string>, x: string)
    requires a != []
    ensures Join(a + [x]) == Join(a) + " " + x
  {
    JoinAppend(a, [x]);
  }

  // ---------------------------------------------------------------- what is restored

  /** The same selector, up to the case of first arguments and the "all commands" shortcut, which only
      ever stands for a full bitmap. */
  ghost predicate SameSelector(t: Table, a: Selector, b: Selector) {
    && a.allKeys == b.allKeys && a.patterns == b.patterns && a.allChannels == b.allChannels && a.channels == b.channels
    && a.rules == b.rules && SamePermits(a, b) && SelectorInv(t, b)
  }

  /** The command part of `ACLSelectorCheckCmd`. */
  predicate MayRun(sel: Selector, id: nat, arg: string) {
    sel.allCommands || id in sel.allowed || HasArg(ArgsOf(sel, id), arg)
  }

  lemma SameSelectorSameAnswers(t: Table, a: Selector, b: Selector, id: nat, arg: string)
    requires SelectorInv(t, a) && SameSelector(t, a, b) && id < COMMAND_BITS
    ensures MayRun(a, id, arg) == MayRun(b, id, arg)
  {
    assert a.allowed == b.allowed;
  }

  predicate NoStar(sel: Selector) {
    forall i :: 0 <= i < |sel.patterns| ==>
      !(sel.patterns[i].pattern == "*" && sel.patterns[i].read && sel.patterns[i].write)
  }

  /** What every printed selector operation looks like. */
  predicate Printed(op: string) {
    op != [] && (op[0] in {'~', '%', '&', '+', '-'} || op == "resetchannels")
  }

  predicate AllPrinted(ops: seq<string>) {
    forall i :: 0 <= i < |ops| ==> Printed(ops[i])
  }

  // ---------------------------------------------------------------- keys

  lemma NotThese(op: string)
    requires op != [] && op[0] in {'~', '%', '&', '+', '-'}
    ensures !SameIgnoringCase(op, "allkeys") && !SameIgnoringCase(op, "resetkeys")
    ensures !SameIgnoringCase(op, "allchannels")
    ensures !SameIgnoringCase(op, "resetchannels") && !SameIgnoringCase(op, "allcommands")
    ensures !SameIgnoringCase(op, "nocommands")
    ensures op[0] != '~' ==> !SameIgnoringCase(op, "~*")
    ensures op[0] != '&' ==> !SameIgnoringCase(op, "&*")
    ensures op[0] != '+' ==> !SameIgnoringCase(op, "+@all")
    ensures op[0] != '-' ==> !SameIgnoringCase(op, "-@all")
  {
    hide SameIgnoringCase;
    OtherWord(op, "allkeys");
    OtherWord(op, "resetkeys");
    OtherWord(op, "allchannels");
    OtherWord(op, "resetchannels");
    OtherWord(op, "allcommands");
    OtherWord(op, "nocommands");
    if op[0] != '~' { OtherWord(op, "~*"); }
    if op[0] != '&' { OtherWord(op, "&*"); }
    if op[0] != '+' { OtherWord(op, "+@all"); }
    if op[0] != '-' { OtherWord(op, "-@all"); }
  }

  lemma StarKey(op: string)
    requires op != [] && op[0] == '~'
    ensures SameIgnoringCase(op, "~*") <==> op[1..] == "*"
  {
    assert op == "~" + op[1..];
  }

  lemma KeyOp(t: Table, sel: Selector, op: string)
    requires op != [] && (op[0] == '~' || op[0] == '%') && !(op[0] == '~' && op[1..] == "*")
    ensures SetSelector(t, sel, op) == SetKeys(sel, op)
  {
    hide SameIgnoringCase, SetKeys, SetChannels, AllowCommand, DenyCommand, SetCategory, AllCommands, NoCommands;
    NotThese(op);
    if op[0] == '~' { StarKey(op); }
  }

  lemma TokenPerms(p: KeyPattern)
    requires p.read || p.write
    ensures var op := PatternToken(p);
            && op != [] && (p.read && p.write ==> op[0] == '~' && op[1..] == p.pattern)
            && (!(p.read && p.write) ==>
                  op[0] == '%' && ParsePerms(op[1..], false, false) == Perms(p.read, p.write, p.pattern))
  {
    var op := PatternToken(p);
    if !(p.read && p.write) {
      var c := if p.read then 'R' else 'W';
      assert op[1..] == [c, '~'] + p.pattern;
      assert op[1..][1..] == "~" + p.pattern && op[1..][1..][1..] == p.pattern;
    }
  }

  lemma PatternOp(t: Table, sel: Selector, p: KeyPattern)
    requires (p.read || p.write) && !HasSpaces(p.pattern) && !sel.allKeys
    requires !(p.pattern == "*" && p.read && p.write)
    ensures SetSelector(t, sel, PatternToken(p))
            == Done(sel.(patterns := AddPattern(sel.patterns, p), allKeys := false))
  {
    hide SetSelector, ParsePerms, AddPattern, HasSpaces, PatternToken;
    TokenPerms(p);
    KeyOp(t, sel, PatternToken(p));
  }

  lemma NewPatternLast(ps: seq<KeyPattern>, p: KeyPattern)
    requires DistinctPatterns(ps + [p])
    ensures AddPattern(ps, p) == ps + [p]
  {
    var i := FindPattern(ps, p.pattern);
    var all := ps + [p];
    assert all[|ps|] == p;
    assert forall j :: 0 <= j < |ps| ==> all[j] == ps[j];
  }

  predicate GoodPatterns(ps: seq<KeyPattern>) {
    forall i :: 0 <= i < |ps| ==> (ps[i].read || ps[i].write) && !HasSpaces(ps[i].pattern)
  }

  /** Printed patterns are added one by one, in order. */
  lemma {:induction false} PatternsApplied(t: Table, sel: Selector, ps: seq<KeyPattern>)
    requires !sel.allKeys && GoodPatterns(ps) && DistinctPatterns(sel.patterns + ps)
    requires forall i :: 0 <= i < |ps| ==> !(ps[i].pattern == "*" && ps[i].read && ps[i].write)
    ensures ApplyAll(t, sel, PatternTokens(ps)) == Done(sel.(patterns := sel.patterns + ps))
    decreases |ps|
  {
    hide SetSelector, AddPattern, HasSpaces, PatternToken;
    if ps == [] {
      assert sel.patterns + ps == sel.patterns;
    } else {
      var all := sel.patterns + ps;
      assert sel.patterns + [ps[0]] == all[..|sel.patterns| + 1];
      assert DistinctPatterns(sel.patterns + [ps[0]]);
      PatternOp(t, sel, ps[0]);
      NewPatternLast(sel.patterns, ps[0]);
      var sel1 := sel.(patterns := sel.patterns + [ps[0]]);
      assert sel1.patterns + ps[1..] == all;
      PatternsApplied(t, sel1, ps[1..]);
    }
  }

  // ---------------------------------------------------------------- channels

  lemma ChannelOp(t: Table, sel: Selector, c: string)
    requires !sel.allChannels && c != "*" && !HasSpaces(c)
    ensures SetSelector(t, sel, "&" + c)
            == Done(sel.(channels := if c in sel.channels then sel.channels else sel.channels + [c],
                         allChannels := false))
  {
    hide SameIgnoringCase, SetKeys, AllowCommand, DenyCommand, SetCategory, AllCommands, NoCommands, HasSpaces;
    var op := "&" + c;
    assert op[1..] == c;
    NotThese(op);
    assert !SameIgnoringCase(op, "&*") by { NotStarChannel(c); }
  }

  lemma NotStarChannel(c: string)
    requires c != "*"
    ensures !SameIgnoringCase("&" + c, "&*")
  {
    var op := "&" + c;
    if |c| == 1 { assert op[1] == c[0]; assert c == [c[0]]; }
  }

  lemma {:induction false} ChannelsApplied(t: Table, sel: Selector, cs: seq<string>)
    requires !sel.allChannels && Distinct(sel.channels + cs)
    requires forall i :: 0 <= i < |cs| ==> cs[i] != "*" && !HasSpaces(cs[i])
    ensures ApplyAll(t, sel, ChannelTokens(cs)) == Done(sel.(channels := sel.channels + cs))
    decreases |cs|
  {
    hide SetSelector, HasSpaces;
    if cs == [] {
      assert sel.channels + cs == sel.channels;
    } else {
      var all := sel.channels + cs;
      ChannelOp(t, sel, cs[0]);
      assert all[|sel.channels|] == cs[0];
      assert cs[0] !in sel.channels by {
        forall i | 0 <= i < |sel.channels| ensures sel.channels[i] != cs[0] { assert all[i] == sel.channels[i]; }
      }
      var sel1 := sel.(channels := sel.channels + [cs[0]]);
      assert sel1.channels + cs[1..] == all;
      ChannelsApplied(t, sel1, cs[1..]);
    }
  }

  lemma ResetChannelsOp(t: Table, sel: Selector, op: string)
    ensures op == "resetchannels" ==> SetSelector(t, sel, op) == Done(sel.(allChannels := false, channels := []))
    ensures op == "&*" ==> SetSelector(t, sel, op) == Done(sel.(allChannels := true, channels := []))
    ensures op == "~*" ==> SetSelector(t, sel, op) == Done(sel.(allKeys := true, patterns := []))
    ensures op == "+@all" ==> SetSelector(t, sel, op) == Done(AllCommands(sel))
    ensures op == "-@all" ==> SetSelector(t, sel, op) == Done(NoCommands(sel))
  {
    hide SetKeys, SetChannels, AllowCommand, DenyCommand, SetCategory;
    if op == "&*" || op == "+@all" || op == "-@all" { NotThese(op); }
  }

  lemma ApplyOne(t: Table, sel: Selector, op: string)
    ensures ApplyAll(t, sel, [op]) == SetSelector(t, sel, op)
  {
    hide SetSelector;
    assert [op][1..] == [];
    var r := SetSelector(t, sel, op);
  }

  lemma KeyPartApplied(t: Table, start: Selector, sel: Selector)
    requires !start.allKeys && start.patterns == [] && KeysOk(sel) && NoStar(sel)
    ensures ApplyAll(t, start, KeyTokens(sel)) == Done(start.(allKeys := sel.allKeys, patterns := sel.patterns))
  {
    hide SetSelector, HasSpaces, ApplyAll, PatternTokens;
    if sel.allKeys {
      ResetChannelsOp(t, start, "~*");
      ApplyOne(t, start, "~*");
    } else {
      assert start.patterns + sel.patterns == sel.patterns;
      PatternsApplied(t, start, sel.patterns);
    }
  }

  lemma ChannelPartApplied(t: Table, start: Selector, sel: Selector)
    requires ChannelsOk(sel)
    ensures ApplyAll(t, start, ChannelPart(sel))
            == Done(start.(allChannels := sel.allChannels, channels := sel.channels))
  {
    hide SetSelector, HasSpaces, ApplyAll, ChannelTokens;
    if sel.allChannels {
      ResetChannelsOp(t, start, "&*");
      ApplyOne(t, start, "&*");
    } else {
      ResetChannelsOp(t, start, "resetchannels");
      ApplyOne(t, start, "resetchannels");
      var s1 := start.(allChannels := false, channels := []);
      assert s1.channels + sel.channels == sel.channels;
      ChannelsApplied(t, s1, sel.channels);
      ApplyAllAppend(t, start, ["resetchannels"], ChannelTokens(sel.channels));
    }
  }

  // ---------------------------------------------------------------- commands

  lemma {:induction false} RulesApplied(t: Table, sel: Selector, toks: seq<string>)
    requires ValidTable(t) && SelectorInv(t, sel) && RulesOk(t, sel.rules + toks)
    ensures var r := ApplyAll(t, sel, toks);
            && Replay(t, sel, toks).Replayed? && r == Done(Replay(t, sel, toks).sel)
            && r.sel.allKeys == sel.allKeys && r.sel.patterns == sel.patterns
            && r.sel.allChannels == sel.allChannels && r.sel.channels == sel.channels && SelectorInv(t, r.sel)
    decreases |toks|
  {
    hide SetSelector, SelectorInv, Replaces, ValidRule, RulesOk, Inv;
    SelectorInvParts(t, sel);
    ReplayAppends(t, sel, toks);
    if toks != [] {
      FirstIsRule(t, sel.rules, toks);
      RuleIsOp(t, toks[0]);
      CommandOpKeepsRest(t, sel, toks[0]);
      SelectorOpKeepsInv(t, sel, toks[0]);
      var sel1 := SetSelector(t, sel, toks[0]).sel;
      SelectorInvParts(t, sel1);
      RuleAppended(t, sel, toks);
      RulesApplied(t, sel1, toks[1..]);
    }
  }

  lemma SelectorInvParts(t: Table, sel: Selector)
    requires SelectorInv(t, sel)
    ensures Inv(t, sel) && AllRules(sel.rules) && KeysOk(sel) && ChannelsOk(sel) && RulesOk(t, sel.rules)
  {
    InvParts(t, sel);
    InvRules(t, sel);
  }

  lemma FirstIsRule(t: Table, rules: seq<string>, toks: seq<string>)
    requires RulesOk(t, rules + toks) && toks != []
    ensures ValidRule(t, toks[0])
  {
    hide ValidRule, Replaces;
    assert (rules + toks)[|rules|] == toks[0];
  }

  /** Applying the next rule of a list that is already pruned appends it. */
  lemma RuleAppended(t: Table, sel: Selector, toks: seq<string>)
    requires ValidTable(t) && Inv(t, sel) && AllRules(sel.rules) && toks != [] && RulesOk(t, sel.rules + toks)
    requires IsCommandOp(toks[0]) && SetSelector(t, sel, toks[0]).Done? && ' ' !in toks[0] && RuleOf(toks[0]) == toks[0]
    ensures RulesOk(t, SetSelector(t, sel, toks[0]).sel.rules + toks[1..])
  {
    hide SetSelector, Inv, Replaces, ValidRule, Keep, Denotes, Decides, IsCommandOp, RuleOf;
    var tok, all, n := toks[0], sel.rules + toks, |sel.rules|;
    CommandOp(t, sel, tok);
    assert all[n] == tok;
    FirstIsRule(t, sel.rules, toks);
    RuleShape(t, tok);
    forall i | 0 <= i < n ensures !Replaces(tok[1..], sel.rules[i][1..]) {
      assert all[i] == sel.rules[i];
    }
    KeepsAll(sel.rules, tok[1..]);
    assert (sel.rules + [tok]) + toks[1..] == all;
  }

  lemma CommandPartApplied(t: Table, start: Selector, sel: Selector)
    requires ValidTable(t) && AllRules(start.rules) && KeysOk(start) && ChannelsOk(start) && SelectorInv(t, sel)
    ensures var r := ApplyAll(t, start, CommandPart(sel));
            && r.Done? && r.sel.rules == sel.rules && SamePermits(sel, r.sel) && SelectorInv(t, r.sel)
            && r.sel.allKeys == start.allKeys && r.sel.patterns == start.patterns
            && r.sel.allChannels == start.allChannels && r.sel.channels == start.channels
  {
    hide SetSelector, Inv, ApplyAll, RulesOk, SamePermits, Replay, KeysOk, ChannelsOk;
    SelectorInvParts(t, sel);
    var first := if FUTURE_BIT in sel.allowed then "+@all" else "-@all";
    ResetChannelsOp(t, start, first);
    ApplyOne(t, start, first);
    var s1 := SetSelector(t, start, first).sel;
    ResetInv(t, start);
    SameKeys(start, s1);
    assert s1.rules + sel.rules == sel.rules;
    RulesApplied(t, s1, sel.rules);
    ReplayAppends(t, s1, sel.rules);
    ApplyAllAppend(t, start, [first], sel.rules);
    SameEvalSamePermits(t, sel, Replay(t, s1, sel.rules).sel);
  }

  // ---------------------------------------------------------------- one selector

  predicate Blank(s: Selector) {
    AllRules(s.rules) && !s.allKeys && s.patterns == []
  }

  lemma SelectorRestored(t: Table, start: Selector, sel: Selector)
    requires ValidTable(t) && Blank(start) && SelectorInv(t, sel) && NoStar(sel)
    ensures var r := ApplyAll(t, start, DescribeSelector(sel)); r.Done? && SameSelector(t, sel, r.sel)
  {
    hide Inv, ApplyAll, KeyTokens, ChannelPart, CommandPart, SelectorInv, SamePermits, NoStar;
    SelectorInvParts(t, sel);
    KeyPartApplied(t, start, sel);
    var s1 := start.(allKeys := sel.allKeys, patterns := sel.patterns);
    ChannelPartApplied(t, s1, sel);
    var s2 := s1.(allChannels := sel.allChannels, channels := sel.channels);
    SameKeys(sel, s2);
    CommandPartApplied(t, s2, sel);
    ApplyAllAppend(t, start, KeyTokens(sel), ChannelPart(sel));
    ApplyAllAppend(t, start, KeyTokens(sel) + ChannelPart(sel), CommandPart(sel));
  }

  // A stored "*" pattern with both permissions is printed as "~*", which reads as all keys.

  lemma PrintedKeepsAllKeys(t: Table, sel: Selector, op: string)
    requires sel.allKeys && Printed(op) && SetSelector(t, sel, op).Done?
    ensures SetSelector(t, sel, op).sel.allKeys
  {
    hide SetSelector;
    if op == "resetchannels" {
      ResetChannelsOp(t, sel, op);
    } else {
      PrintedOpKeepsAllKeys(t, sel, op);
    }
  }

  lemma PrintedOpKeepsAllKeys(t: Table, sel: Selector, op: string)
    requires sel.allKeys && op != [] && op[0] in {'~', '%', '&', '+', '-'}
    requires SetSelector(t, sel, op).Done?
    ensures SetSelector(t, sel, op).sel.allKeys
  {
    hide SameIgnoringCase, AllowCommand, DenyCommand, SetCategory;
    NotThese(op);
    if IsCommandOp(op) {
      CommandOpKeepsRest(t, sel, op);
    }
  }

  lemma {:induction false} AllKeysStay(t: Table, sel: Selector, ops: seq<string>)
    requires sel.allKeys && AllPrinted(ops) && ApplyAll(t, sel, ops).Done?
    ensures ApplyAll(t, sel, ops).sel.allKeys
    decreases |ops|
  {
    hide SetSelector, Printed;
    if ops != [] {
      PrintedKeepsAllKeys(t, sel, ops[0]);
      AllKeysStay(t, SetSelector(t, sel, ops[0]).sel, ops[1..]);
    }
  }

  lemma {:induction false} PatternsPrinted(ps: seq<KeyPattern>)
    ensures AllPrinted(PatternTokens(ps))
  {
    if ps != [] { PatternsPrinted(ps[1..]); }
  }

  lemma {:induction false} ChannelsPrinted(cs: seq<string>)
    ensures AllPrinted(ChannelTokens(cs))
  {
    if cs != [] { ChannelsPrinted(cs[1..]); }
  }

  lemma RulesPrinted(t: Table, rules: seq<string>)
    requires RulesOk(t, rules)
    ensures AllPrinted(rules)
  {
    hide Denotes;
  }

  lemma AllPrintedAppend(a: seq<string>, b: seq<string>)
    requires AllPrinted(a) && AllPrinted(b)
    ensures AllPrinted(a + b)
  {
    hide Printed;
  }

  lemma PartsPrinted(t: Table, sel: Selector)
    requires SelectorInv(t, sel)
    ensures AllPrinted(KeyTokens(sel)) && AllPrinted(ChannelPart(sel) + CommandPart(sel))
    ensures AllPrinted(DescribeSelector(sel))
  {
    hide Inv, RulesOk, PatternTokens, ChannelTokens;
    SelectorInvParts(t, sel);
    PatternsPrinted(sel.patterns);
    ChannelsPrinted(sel.channels);
    RulesPrinted(t, sel.rules);
    AllPrintedAppend(["resetchannels"], ChannelTokens(sel.channels));
    AllPrintedAppend([if FUTURE_BIT in sel.allowed then "+@all" else "-@all"], sel.rules);
    AllPrintedAppend(ChannelPart(sel), CommandPart(sel));
    AllPrintedAppend(KeyTokens(sel), ChannelPart(sel));
    AllPrintedAppend(KeyTokens(sel) + ChannelPart(sel), CommandPart(sel));
  }

  lemma {:induction false} PatternTokensAppend(a: seq<KeyPattern>, b: seq<KeyPattern>)
    ensures PatternTokens(a + b) == PatternTokens(a) + PatternTokens(b)
  {
    hide PatternToken;
    if a == [] {
      assert a + b == b;
    } else {
      assert (a + b)[1..] == a[1..] + b;
      PatternTokensAppend(a[1..], b);
    }
  }

  lemma StarNotRestored(t: Table, start: Selector, sel: Selector, k: nat)
    requires ValidTable(t) && Blank(start) && SelectorInv(t, sel) && k < |sel.patterns|
    requires sel.patterns[k].pattern == "*" && sel.patterns[k].read && sel.patterns[k].write
    ensures var r := ApplyAll(t, start, DescribeSelector(sel)); r.Done? ==> r.sel.allKeys != sel.allKeys
  {
    hide Inv, ApplyAll, SelectorInv, PatternTokens, ChannelPart, CommandPart, AllPrinted, HasSpaces, SetSelector;
    SelectorInvParts(t, sel);
    var ps := sel.patterns;
    assert start.patterns + ps[..k] == ps[..k];
    PatternsApplied(t, start, ps[..k]);
    var s1 := start.(patterns := start.patterns + ps[..k]);
    ResetChannelsOp(t, s1, "~*");
    var s2 := SetSelector(t, s1, "~*").sel;
    SplitAtStar(ps, k);
    var before, after := PatternTokens(ps[..k]), PatternTokens(ps[k + 1..]);
    var rest := after + (ChannelPart(sel) + CommandPart(sel));
    assert DescribeSelector(sel) == before + (["~*"] + rest);
    PartsPrinted(t, sel);
    PatternsPrinted(ps[k + 1..]);
    AllPrintedAppend(after, ChannelPart(sel) + CommandPart(sel));
    ApplyOne(t, s1, "~*");
    ApplyAllAppend(t, s1, ["~*"], rest);
    ApplyAllAppend(t, start, before, ["~*"] + rest);
    if ApplyAll(t, s2, rest).Done? { AllKeysStay(t, s2, rest); }
  }

  lemma SplitAtStar(ps: seq<KeyPattern>, k: nat)
    requires k < |ps| && ps[k].pattern == "*" && ps[k].read && ps[k].write
    ensures PatternTokens(ps) == PatternTokens(ps[..k]) + ["~*"] + PatternTokens(ps[k + 1..])
  {
    hide PatternTokens;
    assert ps == ps[..k] + [ps[k]] + ps[k + 1..];
    PatternTokensAppend(ps[..k], [ps[k]]);
    PatternTokensAppend(ps[..k] + [ps[k]], ps[k + 1..]);
    StarTokens(ps[k]);
  }

  lemma StarTokens(p: KeyPattern)
    requires p.pattern == "*" && p.read && p.write
    ensures PatternTokens([p]) == ["~*"]
  {
    assert [p][1..] == [];
    assert PatternToken(p) == "~" + "*" == "~*";
  }

  /** A description restores its selector exactly when no stored pattern is "*" with both permissions. */
  lemma SelectorRoundTripIff(t: Table, start: Selector, sel: Selector)
    requires ValidTable(t) && Blank(start) && SelectorInv(t, sel)
    ensures var r := ApplyAll(t, start, DescribeSelector(sel));
            (r.Done? && SameSelector(t, sel, r.sel)) <==> NoStar(sel)
  {
    hide ApplyAll, DescribeSelector, SelectorInv;
    if NoStar(sel) {
      SelectorRestored(t, start, sel);
    } else {
      var k :| 0 <= k < |sel.patterns| && sel.patterns[k].pattern == "*" && sel.patterns[k].read
          && sel.patterns[k].write;
      StarNotRestored(t, start, sel, k);
    }
  }

  // ---------------------------------------------------------------- the whole user

  /** A selector in parentheses is split again on blanks, so its operations must be plain words. */
  predicate Splittable(sel: Selector) {
    forall i :: 0 <= i < |DescribeSelector(sel)| ==> IsWord(DescribeSelector(sel)[i])
  }

  lemma FlagOp(w: Setup, u: User, op: string)
    ensures op == "on" ==> SetUser(w, u, op) == Ok(u.(enabled := true))
    ensures op == "off" ==> SetUser(w, u, op) == Ok(u.(enabled := false))
    ensures op == "nopass" ==> SetUser(w, u, op) == Ok(u.(nopass := true, passwords := []))
    ensures op == "skip-sanitize-payload" ==> SetUser(w, u, op) == Ok(u.(skipSanitize := true))
    ensures op == "sanitize-payload" ==> SetUser(w, u, op) == Ok(u.(skipSanitize := false))
  {
    hide SetSelector, ApplyAll, InnerOps, ValidHash, IsSelectorOp, Reset;
  }

  lemma UserApplyOne(w: Setup, u: User, op: string)
    ensures ApplyUser(w, u, [op]) == SetUser(w, u, op)
  {
    hide SetUser;
    assert [op][1..] == [];
    var r := SetUser(w, u, op);
  }

  lemma FlagsApplied(w: Setup, u: User, v: User)
    requires u.passwords == [] && !u.nopass
    ensures ApplyUser(w, u, FlagTokens(v))
            == Ok(u.(enabled := v.enabled, nopass := v.nopass, skipSanitize := v.skipSanitize))
  {
    hide SetUser, ApplyUser;
    var on := if v.enabled then "on" else "off";
    var san := if v.skipSanitize then "skip-sanitize-payload" else "sanitize-payload";
    var pass := if v.nopass then ["nopass"] else [];
    FlagOp(w, u, on);
    UserApplyOne(w, u, on);
    var u1 := u.(enabled := v.enabled);
    FlagOp(w, u1, "nopass");
    UserApplyOne(w, u1, "nopass");
    var u2 := u1.(nopass := v.nopass);
    NothingApplied(w, u1);
    assert ApplyUser(w, u1, pass) == Ok(u2);
    FlagOp(w, u2, san);
    UserApplyOne(w, u2, san);
    ApplyUserAppend(w, u, [on], pass);
    ApplyUserAppend(w, u, [on] + pass, [san]);
  }

  lemma NothingApplied(w: Setup, u: User)
    ensures ApplyUser(w, u, []) == Ok(u)
  {
  }

  lemma PasswordOp(w: Setup, u: User, h: string)
    requires ValidHash(h)
    ensures SetUser(w, u, "#" + h) == Ok(AddPassword(u, h))
  {
    hide SetSelector, ApplyAll, InnerOps, ValidHash, IsSelectorOp, Reset, SameIgnoringCase, AddPassword;
    var op := "#" + h;
    assert op[1..] == h;
    OtherWord(op, "on");
    OtherWord(op, "off");
    OtherWord(op, "nopass");
    OtherWord(op, "resetpass");
    OtherWord(op, "skip-sanitize-payload");
    OtherWord(op, "sanitize-payload");
  }

  lemma {:induction false} PasswordsApplied(w: Setup, u: User, hs: seq<string>)
    requires (forall i :: 0 <= i < |hs| ==> ValidHash(hs[i])) && Distinct(u.passwords + hs)
    ensures ApplyUser(w, u, PasswordTokens(hs)) == Ok(u.(passwords := u.passwords + hs, nopass := u.nopass && hs == []))
    decreases |hs|
  {
    hide SetUser, ValidHash;
    if hs == [] {
      assert u.passwords + hs == u.passwords;
    } else {
      var all := u.passwords + hs;
      PasswordOp(w, u, hs[0]);
      assert all[|u.passwords|] == hs[0];
      assert hs[0] !in u.passwords by {
        forall i | 0 <= i < |u.passwords| ensures u.passwords[i] != hs[0] { assert all[i] == u.passwords[i]; }
      }
      var u1 := u.(passwords := u.passwords + [hs[0]], nopass := false);
      assert u1.passwords + hs[1..] == all;
      PasswordsApplied(w, u1, hs[1..]);
    }
  }

  lemma PrintedGoesToRoot(w: Setup, u: User, op: string)
    requires Printed(op)
    ensures var r := SetSelector(w.t, u.root, op);
            SetUser(w, u, op) == if r.Failed? then SelectorError(r.errno) else Ok(u.(root := r.sel))
  {
    hide SetSelector, ApplyAll, InnerOps, ValidHash, Reset, SetAuth;
    if op != "resetchannels" {
      PrintedIsNoWord(op);
    }
  }

  lemma PrintedIsNoWord(op: string)
    requires op != [] && op[0] in {'~', '%', '&', '+', '-'}
    ensures !IsAuthOp(op) && !IsSelectorOp(op) && !SameIgnoringCase(op, "clearselectors")
    ensures !SameIgnoringCase(op, "reset")
  {
    hide SameIgnoringCase;
    OtherWord(op, "on");
    OtherWord(op, "off");
    OtherWord(op, "nopass");
    OtherWord(op, "resetpass");
    OtherWord(op, "skip-sanitize-payload");
    OtherWord(op, "sanitize-payload");
    OtherWord(op, "clearselectors");
    OtherWord(op, "reset");
  }

  /** Printed selector operations on a user are operations on its root selector. */
  lemma {:induction false} RootApplied(w: Setup, u: User, ops: seq<string>)
    requires AllPrinted(ops)
    ensures var r := ApplyAll(w.t, u.root, ops);
            ApplyUser(w, u, ops) == if r.Failed? then SelectorError(r.errno) else Ok(u.(root := r.sel))
    decreases |ops|
  {
    hide SetUser, SetSelector, Printed;
    if ops != [] {
      PrintedGoesToRoot(w, u, ops[0]);
      var r := SetSelector(w.t, u.root, ops[0]);
      if r.Done? { RootApplied(w, u.(root := r.sel), ops[1..]); }
    }
  }

  lemma NewIsBlank(byDefault: bool)
    ensures Blank(NewSelector(byDefault)) && AllRules(NewSelector(byDefault).rules)
  {
  }

  predicate AllTidy(ops: seq<string>) {
    forall i :: 0 <= i < |ops| ==> Tidy(ops[i])
  }

  lemma AllTidyAppend(a: seq<string>, b: seq<string>)
    requires AllTidy(a) && AllTidy(b)
    ensures AllTidy(a + b)
  {
    hide Tidy;
  }

  lemma {:induction false} PatternsTidy(ps: seq<KeyPattern>)
    ensures AllTidy(PatternTokens(ps))
  {
    hide SameIgnoringCase;
    if ps != [] { PatternsTidy(ps[1..]); }
  }

  lemma {:induction false} ChannelsTidy(cs: seq<string>)
    ensures AllTidy(ChannelTokens(cs))
  {
    hide SameIgnoringCase;
    if cs != [] { ChannelsTidy(cs[1..]); }
  }

  lemma RulesTidy(rules: seq<string>)
    requires AllRules(rules)
    ensures AllTidy(rules)
  {
    hide SameIgnoringCase;
  }

  lemma DescriptionTidy(t: Table, sel: Selector)
    requires SelectorInv(t, sel)
    ensures AllTidy(DescribeSelector(sel))
  {
    hide Inv, RulesOk, PatternTokens, ChannelTokens;
    SelectorInvParts(t, sel);
    PatternsTidy(sel.patterns);
    ChannelsTidy(sel.channels);
    RulesTidy(sel.rules);
    AllTidyAppend(["resetchannels"], ChannelTokens(sel.channels));
    AllTidyAppend([if FUTURE_BIT in sel.allowed then "+@all" else "-@all"], sel.rules);
    AllTidyAppend(KeyTokens(sel), ChannelPart(sel));
    AllTidyAppend(KeyTokens(sel) + ChannelPart(sel), CommandPart(sel));
  }

  lemma DescribedRules(t: Table, start: Selector, sel: Selector)
    requires ValidTable(t) && SelectorInv(t, start) && SelectorInv(t, sel)
    requires ApplyAll(t, start, DescribeSelector(sel)).Done?
    ensures AllRules(ApplyAll(t, start, DescribeSelector(sel)).sel.rules)
  {
    hide SelectorInv, ApplyAll, DescribeSelector, Tidy;
    DescriptionTidy(t, sel);
    ApplyAllKeepsInv(t, start, DescribeSelector(sel));
    SelectorInvParts(t, ApplyAll(t, start, DescribeSelector(sel)).sel);
  }
}
