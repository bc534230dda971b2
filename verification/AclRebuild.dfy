/** When the printed rules of a selector stand for it: the text is split as a command line and replayed. */
module AclRebuild {
  import opened Sds
  import opened AclRules
  import opened AclSelector
  import opened AclReplay
  import opened AclObject
  import opened AclUser
  import opened AclDescribe
  import opened AclSplit

  /** What the printed rules are read back as. */
  function Rebuilt(t: Table, sel: Selector): Replayed {
    match SplitArgs(Join(sel.rules))
    case SplitError => ReplayFails
    case Split(argv) => Replay(t, ReplayStart(sel), argv)
  }

  predicate SameRules(t: Table, sel: Selector) {
    Rebuilt(t, sel).Replayed? && Rebuilt(t, sel).sel.rules == sel.rules
  }

  predicate PlainRules(rules: seq<string>) {
    forall i :: 0 <= i < |rules| ==> IsWord(rules[i])
  }

  lemma {:induction false} ReplayApplies(t: Table, sel: Selector, toks: seq<string>)
    ensures var r := ApplyAll(t, sel, toks);
            Replay(t, sel, toks) == if r.Done? then Replayed(r.sel) else ReplayFails
    decreases |toks|
  {
    hide SetSelector;
    if toks != [] {
      var r := SetSelector(t, sel, toks[0]);
      if r.Done? { ReplayApplies(t, r.sel, toks[1..]); }
    }
  }

  lemma StartIsEmpty(sel: Selector, c: nat)
    ensures Content(ReplayStart(sel), c) == 0 && ReplayStart(sel).rules == []
  {
  }

  lemma RulesAreContent(a: Selector, c: nat)
    ensures Weight(a.rules, c) <= Content(a, c)
  {
  }

  /** Rules with a quote or a blank are never read back as they are, whatever the selector. */
  lemma LossyRules(t: Table, sel: Selector)
    requires AnyQuote(sel.rules) || SomeBlank(sel.rules)
    ensures !SameRules(t, sel)
  {
    hide SplitArgs, Join, AnyQuote, SomeBlank, Replay, ApplyAll, Weight, Content, ReplayStart;
    if SameRules(t, sel) {
      var quoted := AnyQuote(sel.rules);
      var c := if quoted then 1 else 0;
      var start, argv := ReplayStart(sel), SplitArgs(Join(sel.rules)).argv;
      RulesLose(sel.rules, quoted);
      ReplayApplies(t, start, argv);
      StartIsEmpty(sel, c);
      ApplyWeight(t, start, argv, c);
      RulesAreContent(ApplyAll(t, start, argv).sel, c);
    }
  }

  /** The printed rules are read back as the same rules if and only if all of them are plain words, and then they
      give the same permissions. */
  lemma RulesRebuiltIff(t: Table, sel: Selector)
    requires ValidTable(t) && Inv(t, sel)
    ensures SameRules(t, sel) <==> PlainRules(sel.rules)
    ensures PlainRules(sel.rules) ==> SamePermits(sel, Rebuilt(t, sel).sel)
  {
    hide SplitArgs, Join, AnyQuote, SomeBlank, Replay, Inv, SamePermits, IsWord, SameRules, ReplayStart;
    InvRules(t, sel);
    if AnyQuote(sel.rules) || SomeBlank(sel.rules) {
      LossyRules(t, sel);
      PlainMeans(sel.rules);
    } else {
      RuleWords(t, sel.rules);
    }
    if PlainRules(sel.rules) {
      SplitJoined(sel.rules);
      ReplayRebuilds(t, sel);
      RebuiltMeans(t, sel);
    }
  }

  lemma RebuiltMeans(t: Table, sel: Selector)
    requires SplitArgs(Join(sel.rules)) == Split(sel.rules)
    ensures Rebuilt(t, sel) == Replay(t, ReplayStart(sel), sel.rules)
    ensures Rebuilt(t, sel).Replayed? && Rebuilt(t, sel).sel.rules == sel.rules ==> SameRules(t, sel)
  {
    hide SplitArgs, Join, Replay, ReplayStart;
  }

  lemma PlainMeans(rules: seq<string>)
    ensures PlainRules(rules) ==> !AnyQuote(rules) && !SomeBlank(rules)
  {
    if PlainRules(rules) {
      forall i | 0 <= i < |rules| ensures !HasQuote(rules[i]) && IsBare(rules[i]) {
        assert IsWord(rules[i]);
      }
    }
  }

  /** Then the text is produced as well: the panic is not reached. */
  lemma PlainRulesDescribed(t: Table, sel: Selector)
    requires ValidTable(t) && Inv(t, sel) && PlainRules(sel.rules)
    ensures Described(t, sel.allowed, Join(sel.rules)) == Text(RulesText(FUTURE_BIT in sel.allowed, Join(sel.rules)))
  {
    hide SplitArgs, Join, Replay, Inv, IsWord, ReplayStart, RulesText;
    RulesRebuiltIff(t, sel);
    SplitJoined(sel.rules);
    RebuiltMeans(t, sel);
    ReplayRebuilds(t, sel);
    assert ReplayStart(sel) == StartFor(sel.allowed) by { StartSame(sel); }
  }

  lemma StartSame(sel: Selector)
    ensures ReplayStart(sel) == StartFor(sel.allowed)
  {
  }

  /** Every operation that puts a space into a rule makes the rules unreadable. */
  lemma SpaceBreaksRules(t: Table, sel: Selector, op: string)
    requires ValidTable(t) && Inv(t, sel) && SetSelector(t, sel, op).Done? && !Tidy(op)
    ensures !SameRules(t, SetSelector(t, sel, op).sel)
  {
    hide SetSelector, Inv, SameRules, Decides, Denotes, Keep, GoodRule;
    InvParts(t, sel);
    CommandOp(t, sel, op);
    RuleOfShape(op);
    var sel' := SetSelector(t, sel, op).sel;
    assert sel'.rules[|sel'.rules| - 1] == RuleOf(op);
    assert !IsBare(RuleOf(op)) by { SpaceIsBlank(RuleOf(op)); }
    LossyRules(t, sel');
  }

  lemma SpaceIsBlank(s: string)
    requires ' ' in s
    ensures !IsBare(s)
  {
    var i :| 0 <= i < |s| && s[i] == ' ';
    assert s[i] in {' ', '\n', '\r', '\t', '"', '\''};
  }

  // ---------------------------------------------------------------- every run

  /** Every command operation that is accepted retains a plain word. */
  predicate PlainRun(t: Table, sel: Selector, ops: seq<string>)
    decreases |ops|
  {
    ops == [] ||
    var r := SetSelector(t, sel, ops[0]);
    && (r.Done? && IsCommandOp(ops[0]) ==> IsWord(RuleOf(ops[0])))
    && PlainRun(t, if r.Done? then r.sel else sel, ops[1..])
  }

  lemma WordIsTidy(op: string)
    requires IsCommandOp(op) && IsWord(RuleOf(op))
    ensures Tidy(op)
  {
    RuleOfShape(op);
    if ' ' in RuleOf(op) { SpaceIsBlank(RuleOf(op)); }
  }

  lemma {:induction false} KeepsPlain(rules: seq<string>, text: string)
    requires AllRules(rules) && PlainRules(rules)
    ensures PlainRules(Keep(rules, text))
  {
    hide Replaces, IsWord;
    if rules != [] { KeepsPlain(rules[1..], text); }
  }

  lemma PlainOp(t: Table, sel: Selector, op: string)
    requires ValidTable(t) && Inv(t, sel) && PlainRules(sel.rules) && SetSelector(t, sel, op).Done?
    requires IsCommandOp(op) ==> IsWord(RuleOf(op))
    ensures var sel' := SetSelector(t, sel, op).sel; Inv(t, sel') && PlainRules(sel'.rules)
  {
    hide SetSelector, Inv, Keep, Denotes, Decides, GoodRule, IsWord, SameIgnoringCase;
    InvParts(t, sel);
    if IsCommandOp(op) {
      WordIsTidy(op);
      CommandOp(t, sel, op);
      KeepsPlain(sel.rules, RuleOf(op)[1..]);
    } else {
      OtherIsTidy(op);
      OtherOpIsMild(t, sel, op);
    }
    OperationKeepsInv(t, sel, op);
  }

  lemma OtherIsTidy(op: string)
    requires !IsCommandOp(op)
    ensures Tidy(op)
  {
  }

  /** An operation whose rule is not a plain word leaves rules that are not read back. */
  lemma OddOp(t: Table, sel: Selector, op: string)
    requires ValidTable(t) && Inv(t, sel) && IsCommandOp(op) && SetSelector(t, sel, op).Done?
    requires !IsWord(RuleOf(op))
    ensures !SameRules(t, SetSelector(t, sel, op).sel)
  {
    hide SetSelector, Inv, SameRules, Decides, Denotes, Keep, IsBare, HasQuote;
    InvParts(t, sel);
    CommandOp(t, sel, op);
    var sel', tok := SetSelector(t, sel, op).sel, RuleOf(op);
    assert sel'.rules[|sel'.rules| - 1] == tok;
    assert !IsBare(tok);
    LossyRules(t, sel');
  }

  lemma NextState(t: Table, sel: Selector, ops: seq<string>, k: nat)
    requires 0 < k <= |ops|
    ensures var r := SetSelector(t, sel, ops[0]);
            Apply(t, sel, ops[..k]) == Apply(t, if r.Done? then r.sel else sel, ops[1..][..k - 1])
  {
    hide SetSelector;
    assert ops[..k][0] == ops[0] && ops[..k][1..] == ops[1..][..k - 1];
  }

  /** After every prefix of the run the rules are read back as they are. */
  ghost predicate RebuiltThroughout(t: Table, sel: Selector, ops: seq<string>) {
    forall k :: 0 <= k <= |ops| ==> SameRules(t, Apply(t, sel, ops[..k]))
  }

  lemma {:induction false} RunRebuildsIff(t: Table, sel: Selector, ops: seq<string>)
    requires ValidTable(t) && Inv(t, sel) && PlainRules(sel.rules)
    ensures RebuiltThroughout(t, sel, ops) <==> PlainRun(t, sel, ops)
    decreases |ops|
  {
    hide SetSelector, Inv, SameRules, PlainRules, IsWord, SameIgnoringCase, ValidTable;
    RulesRebuiltIff(t, sel);
    assert Apply(t, sel, ops[..0]) == sel;
    if ops != [] {
      var r := SetSelector(t, sel, ops[0]);
      var next := if r.Done? then r.sel else sel;
      if r.Done? && IsCommandOp(ops[0]) && !IsWord(RuleOf(ops[0])) {
        OddOp(t, sel, ops[0]);
        NextState(t, sel, ops, 1);
        assert ops[1..][..0] == [];
        assert !SameRules(t, Apply(t, sel, ops[..1]));
      } else {
        if r.Done? { PlainOp(t, sel, ops[0]); }
        RunRebuildsIff(t, next, ops[1..]);
        forall k | 0 < k <= |ops| ensures Apply(t, sel, ops[..k]) == Apply(t, next, ops[1..][..k - 1]) {
          NextState(t, sel, ops, k);
        }
        ShiftRebuilt(t, sel, next, ops);
      }
    }
  }

  lemma ShiftRebuilt(t: Table, sel: Selector, next: Selector, ops: seq<string>)
    requires ops != [] && Apply(t, sel, ops[..0]) == sel && SameRules(t, sel)
    requires forall k :: 0 < k <= |ops| ==> Apply(t, sel, ops[..k]) == Apply(t, next, ops[1..][..k - 1])
    ensures RebuiltThroughout(t, sel, ops) <==> RebuiltThroughout(t, next, ops[1..])
  {
    hide SameRules, Apply;
    if RebuiltThroughout(t, sel, ops) {
      forall j | 0 <= j <= |ops[1..]| ensures SameRules(t, Apply(t, next, ops[1..][..j])) {
        assert Apply(t, sel, ops[..j + 1]) == Apply(t, next, ops[1..][..j + 1 - 1]);
      }
    }
    if RebuiltThroughout(t, next, ops[1..]) {
      forall k | 0 <= k <= |ops| ensures SameRules(t, Apply(t, sel, ops[..k])) {
        if k > 0 { assert SameRules(t, Apply(t, next, ops[1..][..k - 1])); }
      }
    }
  }

  /** For every sequence of operations on a new selector: the printed rules stand for the selector at every moment if
      and only if each accepted command operation retained a plain word. */
  lemma EveryRunRebuildsIff(t: Table, byDefault: bool, ops: seq<string>)
    requires ValidTable(t)
    ensures RebuiltThroughout(t, NewSelector(byDefault), ops) <==> PlainRun(t, NewSelector(byDefault), ops)
  {
    NewIsInv(t, byDefault);
    RunRebuildsIff(t, NewSelector(byDefault), ops);
  }

  // ---------------------------------------------------------------- failing cases

  const SELECT := Command("select", 7, {}, [])
  const GET := Command("get", 8, {}, [])

  /** A table of two commands without subcommands. */
  const SELECT_AND_GET := Table([SELECT, GET], {})

  lemma SelectAndGetValid()
    ensures ValidTable(SELECT_AND_GET)
  {
    hide IsWord;
    var t := SELECT_AND_GET;
    assert t.commands[0] == SELECT && t.commands[1] == GET;
    NamesArePlain();
    assert forall i :: 0 <= i < |t.commands| ==> PlainName(t.commands[i].name);
    assert SELECT.name[0] != GET.name[0];
  }

  lemma NamesArePlain()
    ensures PlainName("select") && PlainName("get")
  {
    assert ToLower("select") == "select" && ToLower("get") == "get";
  }

  lemma FoundByName(name: string)
    requires name == "select" || name == "get"
    ensures Lookup(SELECT_AND_GET, name) == Top(if name == "select" then 0 else 1)
    ensures FullName(SELECT_AND_GET, Lookup(SELECT_AND_GET, name)) == name
  {
    hide SameIgnoringCase;
    var cs := SELECT_AND_GET.commands;
    NoBar(name);
    assert name[..|name|] == name;
    SameSelf(name);
    if name == "get" {
      OtherWord("select", "get");
      assert cs[1..][0] == GET;
      assert FindCommand(cs[1..], name) == 0;
    }
  }

  lemma NoBar(name: string)
    requires name == "select" || name == "get"
    ensures FirstBar(name) == |name| && LastBar(name) < 0
  {
    hide FirstBar, LastBar;
    assert forall i :: 0 <= i < |name| ==> name[i] != '|';
  }

  /** The operation that allows a first argument of SELECT. */
  lemma AllowsArgument(sel: Selector, arg: string)
    requires sel.rules == [] && arg != [] && '|' !in arg && ToLower(arg) == arg
    ensures var op := "+select|" + arg;
            && SetSelector(SELECT_AND_GET, sel, op).Done?
            && SetSelector(SELECT_AND_GET, sel, op).sel.rules == [op]
            && SetSelector(SELECT_AND_GET, sel, op).sel.allowed == sel.allowed
  {
    hide SetSelector, AllowCommand, DenyCommand, SetCategory, Lookup, SameIgnoringCase;
    var op := "+select|" + arg;
    OtherWordAt(op, "+@all");
    OtherWord(op, "-@all");
    CommandOpBranches(SELECT_AND_GET, sel, op);
    assert op[1..] == "select|" + arg;
    ArgumentStored(sel, arg);
  }

  lemma ArgumentStored(sel: Selector, arg: string)
    requires sel.rules == [] && arg != [] && '|' !in arg && ToLower(arg) == arg
    ensures var r := AllowCommand(SELECT_AND_GET, sel, "select|" + arg);
            r.Done? && r.sel.rules == ["+select|" + arg] && r.sel.allowed == sel.allowed
  {
    hide Lookup, Keep, FirstBar, LastBar;
    var text := "select|" + arg;
    BarAt(arg);
    assert text[..6] == "select" && text[7..] == arg;
    FoundByName("select");
    KeepNothing(ToLower(text));
    LowerText(arg);
    assert "+" + text == "+select|" + arg;
    assert [] + ["+" + text] == ["+" + text];
  }

  lemma BarAt(arg: string)
    requires '|' !in arg
    ensures LastBar("select|" + arg) == 6
  {
    var text := "select|" + arg;
    assert text[6] == '|';
    assert forall i :: 6 < i < |text| ==> text[i] == arg[i - 7];
    assert forall i :: 0 <= i < |arg| ==> arg[i] in arg;
  }

  lemma LowerText(arg: string)
    requires ToLower(arg) == arg
    ensures ToLower("select|" + arg) == "select|" + arg
  {
    var text := "select|" + arg;
    forall i | 0 <= i < |text| ensures Lower(text[i]) == text[i] {
      if i >= 7 { assert ToLower(arg)[i - 7] == arg[i - 7] == text[i]; }
    }
  }

  lemma TwoWords(a: string, b: string)
    requires IsWord(a) && IsWord(b)
    ensures SplitArgs(a + " " + b) == Split([a, b])
  {
    hide IsWord, SplitArgs;
    SplitJoined([a, b]);
    assert [a, b][1..] == [b] && Join([a, b]) == a + " " + b;
  }

  /** A first argument "a b" is accepted, and its rule is read back as two operations of which the second is
      refused: the assertion in the source fails. */
  lemma SpacedArgumentIsRefused(sel: Selector)
    requires sel == NewSelector(false)
    ensures var t, op := SELECT_AND_GET, "+select|a b";
            && ValidTable(t) && SetSelector(t, sel, op).Done?
            && (var sel' := SetSelector(t, sel, op).sel;
                sel'.rules == [op] && Described(t, sel'.allowed, Join(sel'.rules)) == Panic)
  {
    hide SetSelector, SplitArgs, ValidTable, IsWord;
    var t, op := SELECT_AND_GET, "+select|a b";
    SelectAndGetValid();
    assert "a b" != [] && '|' !in "a b" && ToLower("a b") == "a b" && "+select|" + "a b" == op;
    AllowsArgument(sel, "a b");
    var sel' := SetSelector(t, sel, op).sel;
    assert IsWord("+select|a") && IsWord("b") && "+select|a" + " " + "b" == op by { WordsHere(); }
    TwoWords("+select|a", "b");
    assert Join([op]) == op;
    var start := StartFor(sel'.allowed);
    assert ToLower("a") == "a" && "+select|" + "a" == "+select|a";
    AllowsArgument(start, "a");
    Refused(SetSelector(t, start, "+select|a").sel);
    assert ["+select|a", "b"][1..] == ["b"];
  }

  lemma WordsHere()
    ensures IsWord("+select|a") && IsWord("b") && IsWord("+get")
    ensures "+select|a" + " " + "b" == "+select|a b" && "+select|a" + " " + "+get" == "+select|a +get"
  {
  }

  lemma Refused(sel: Selector)
    ensures SetSelector(SELECT_AND_GET, sel, "b") == Failed(EINVAL)
  {
    hide AllowCommand, DenyCommand, SetCategory, SetKeys, SetChannels, SameIgnoringCase;
    OtherWord("b", "allkeys");
    OtherWord("b", "~*");
    OtherWord("b", "resetkeys");
    OtherWord("b", "allchannels");
    OtherWord("b", "&*");
    OtherWord("b", "resetchannels");
    OtherWord("b", "allcommands");
    OtherWord("b", "+@all");
    OtherWord("b", "nocommands");
    OtherWord("b", "-@all");
  }

  /** A first argument "a +get" is accepted without allowing GET, and its rule is read back as a rule for SELECT and
      one that allows GET: the bitmaps differ and the process ends. */
  lemma SpacedArgumentPanics(sel: Selector)
    requires sel == NewSelector(false)
    ensures var t, op := SELECT_AND_GET, "+select|a +get";
            && ValidTable(t) && SetSelector(t, sel, op).Done?
            && (var sel' := SetSelector(t, sel, op).sel;
                && sel'.rules == [op] && sel'.allowed == {} && Rebuilt(t, sel').Replayed?
                && Rebuilt(t, sel').sel.allowed == {GET.id}
                && Described(t, sel'.allowed, Join(sel'.rules)) == Panic)
  {
    hide SetSelector, SplitArgs, ValidTable, IsWord;
    var t, op := SELECT_AND_GET, "+select|a +get";
    SelectAndGetValid();
    assert "a +get" != [] && '|' !in "a +get" && ToLower("a +get") == "a +get" && "+select|" + "a +get" == op;
    AllowsArgument(sel, "a +get");
    var sel' := SetSelector(t, sel, op).sel;
    WordsHere();
    TwoWords("+select|a", "+get");
    assert Join([op]) == op;
    var start := StartFor(sel'.allowed);
    assert ToLower("a") == "a" && "+select|" + "a" == "+select|a";
    AllowsArgument(start, "a");
    var mid := SetSelector(t, start, "+select|a").sel;
    AllowsGet(mid);
    var toks := ["+select|a", "+get"];
    assert toks[1..] == ["+get"] && toks[1..][1..] == [];
    assert GET.id in {GET.id} && GET.id !in sel'.allowed;
  }

  lemma AllowsGet(sel: Selector)
    ensures SetSelector(SELECT_AND_GET, sel, "+get").Done?
    ensures SetSelector(SELECT_AND_GET, sel, "+get").sel.allowed == sel.allowed + {GET.id}
  {
    hide SetSelector, DenyCommand, SetCategory, Lookup, SameIgnoringCase, LastBar, Pruned;
    OtherWordAt("+get", "+@all");
    OtherWord("+get", "-@all");
    CommandOpBranches(SELECT_AND_GET, sel, "+get");
    assert "+get"[1..] == "get";
    NoBar("get");
    FoundByName("get");
    assert CommandBits(GET) == {GET.id};
  }
}
