/** The retained rules regenerate the permissions: after any sequence of selector operations, replaying
    them from "+@all" or "-@all" rebuilds the bitmap, the first arguments and the rules themselves. */
module AclReplay {
  import opened Sds
  import opened AclRules
  import opened AclSelector

  // ---------------------------------------------------------------- what a rule means

  datatype Meaning =
    | OnCommand(i: nat)
    | OnSub(i: nat, j: nat)
    | OnFirstArg(i: nat, arg: string)
    | OnCategory(cat: string)
    | NoMeaning

  predicate InTable(t: Table, m: Meaning) {
    && (m.OnCommand? || m.OnFirstArg? ==> m.i < |t.commands|)
    && (m.OnSub? ==> m.i < |t.commands| && m.j < |t.commands[m.i].subs|)
  }

  function DenotesTop(t: Table, text: string): (m: Meaning)
    ensures InTable(t, m) && (m.OnCommand? || m.NoMeaning?)
  {
    var cmd := Lookup(t, text);
    if cmd.Top? then OnCommand(cmd.i) else NoMeaning
  }

  function DenotesBelow(t: Table, cmd: Target, arg: string, text: string): (m: Meaning)
    requires cmd.Top? ==> cmd.i < |t.commands|
    ensures InTable(t, m) && (m.OnSub? || m.OnFirstArg? || m.NoMeaning?)
  {
    if !cmd.Top? || arg == [] then NoMeaning
    else if t.commands[cmd.i].subs == [] then OnFirstArg(cmd.i, arg)
    else
      var sub := Lookup(t, text);
      if sub.SubOf? then OnSub(sub.i, sub.j) else NoMeaning
  }

  /** What a rule text in lower case stands for. */
  function Denotes(t: Table, text: string): (m: Meaning)
    ensures InTable(t, m)
  {
    if text != [] && text[0] == '@' then (if text[1..] in t.categories then OnCategory(text[1..]) else NoMeaning)
    else
      var n := LastBar(text);
      if n < 0 then DenotesTop(t, text)
      else DenotesBelow(t, Lookup(t, text[..n]), text[n + 1..], text)
  }

  /** A rule without a space that the code can have retained. */
  predicate ValidRule(t: Table, tok: string) {
    ' ' !in tok && GoodRule(t, tok)
  }

  /** A rule that the code can have retained. */
  predicate GoodRule(t: Table, tok: string) {
    && tok != [] && (tok[0] == '+' || tok[0] == '-')
    && ToLower(tok) == tok
    && !Denotes(t, tok[1..]).NoMeaning?
    && (Denotes(t, tok[1..]).OnFirstArg? ==> tok[0] == '+')
  }

  /** One permission: a command bit, or a first argument of a command. */
  datatype Position = Bit(id: nat) | Arg(id: nat, arg: string)

  /** The permissions that a rule decides. */
  predicate Covers(t: Table, m: Meaning, p: Position)
    requires InTable(t, m)
  {
    match m
    case OnCommand(i) => (if p.Bit? then p.id in CommandBits(t.commands[i]) else p.id == t.commands[i].id)
    case OnSub(i, j) => p.Bit? && p.id == t.commands[i].subs[j].id
    case OnFirstArg(i, arg) => p == Arg(t.commands[i].id, arg)
    case OnCategory(cat) =>
      if p.Bit? then p.id in CategoryBits(t, cat)
      else exists i :: 0 <= i < |t.commands| && cat in t.commands[i].cats && p.id == t.commands[i].id
    case NoMeaning => false
  }

  /** A bit takes the rule's sign; first arguments are cleared, except the one that is added. */
  predicate ValueAt(m: Meaning, allow: bool, p: Position) {
    if p.Bit? then allow else m.OnFirstArg?
  }

  /** The last rule that covers a permission decides it. */
  predicate Eval(t: Table, all: bool, rules: seq<string>, p: Position)
    requires AllRules(rules)
  {
    if rules == [] then p.Bit? && all
    else
      var tok := rules[|rules| - 1];
      var m := Denotes(t, tok[1..]);
      if Covers(t, m, p) then ValueAt(m, tok[0] == '+', p) else Eval(t, all, rules[..|rules| - 1], p)
  }

  /** What the live tables say. First arguments are compared ignoring case. */
  predicate Holds(sel: Selector, p: Position) {
    match p
    case Bit(id) => id in sel.allowed
    case Arg(id, arg) => HasArg(ArgsOf(sel, id), arg)
  }

  predicate InRange(p: Position) {
    match p
    case Bit(id) => id < COMMAND_BITS
    case Arg(_, arg) => ToLower(arg) == arg
  }

  // ---------------------------------------------------------------- the invariant

  ghost predicate RulesOk(t: Table, rules: seq<string>) {
    && AllRules(rules)
    && (forall i :: 0 <= i < |rules| ==> ValidRule(t, rules[i]))
    && (forall i, j :: 0 <= i < j < |rules| ==> !Replaces(rules[j][1..], rules[i][1..]))
  }

  /** First arguments are kept only for commands without subcommands. */
  ghost predicate ArgsOnPlainCommands(t: Table, sel: Selector) {
    forall id :: id in sel.firstArgs ==>
      exists i :: 0 <= i < |t.commands| && t.commands[i].id == id && t.commands[i].subs == []
  }

  ghost predicate Inv(t: Table, sel: Selector) {
    && RulesOk(t, sel.rules) && sel.allowed <= EveryBit && ArgsOnPlainCommands(t, sel)
    && forall p :: InRange(p) ==> Holds(sel, p) == Eval(t, FUTURE_BIT in sel.allowed, sel.rules, p)
  }

  // ---------------------------------------------------------------- lookups ignore case

  lemma LowerSlices(s: string, n: nat)
    requires n <= |s|
    ensures ToLower(s)[..n] == ToLower(s[..n]) && ToLower(s)[n..] == ToLower(s[n..])
  {
  }

  lemma LowerIdempotent(s: string)
    ensures ToLower(ToLower(s)) == ToLower(s)
  {
  }

  lemma SameLowered(a: string, b: string)
    ensures SameIgnoringCase(a, ToLower(b)) == SameIgnoringCase(a, b)
  {
  }

  lemma {:induction false} FindLowered(cs: seq<Command>, name: string)
    ensures FindCommand(cs, ToLower(name)) == FindCommand(cs, name)
  {
    if cs != [] {
      SameLowered(cs[0].name, name);
      FindLowered(cs[1..], name);
    }
  }

  lemma {:induction false} FindSubLowered(cs: seq<Sub>, name: string)
    ensures FindSub(cs, ToLower(name)) == FindSub(cs, name)
  {
    if cs != [] {
      SameLowered(cs[0].name, name);
      FindSubLowered(cs[1..], name);
    }
  }

  lemma BarLowered(s: string)
    ensures FirstBar(ToLower(s)) == FirstBar(s)
    ensures LastBar(ToLower(s)) == LastBar(s)
    ensures '|' in ToLower(s) <==> '|' in s
  {
    assert forall i :: 0 <= i < |s| ==> (ToLower(s)[i] == '|' <==> s[i] == '|');
    var n, m := FirstBar(s), FirstBar(ToLower(s));
    assert n < |s| ==> ToLower(s)[n] == '|';
    var k, l := LastBar(s), LastBar(ToLower(s));
    assert k >= 0 ==> ToLower(s)[k] == '|';
  }

  lemma LookupLowered(t: Table, text: string)
    ensures Lookup(t, ToLower(text)) == Lookup(t, text)
  {
    hide FindCommand, FindSub, FirstBar, LastBar;
    BarLowered(text);
    var n := FirstBar(text);
    LowerSlices(text, n);
    FindLowered(t.commands, text[..n]);
    if n < |text| {
      LowerSlices(text, n + 1);
      BarLowered(text[n + 1..]);
      var i := FindCommand(t.commands, text[..n]);
      if i < |t.commands| { FindSubLowered(t.commands[i].subs, text[n + 1..]); }
    }
  }

  /** The rule that is retained is the operation's own text in lower case. */
  lemma FullNameIsLowered(t: Table, text: string)
    requires !Lookup(t, text).NotFound?
    ensures ToLower(FullName(t, Lookup(t, text))) == ToLower(text)
  {
    hide FindCommand, FindSub, FirstBar, ToLower, SameIgnoringCase;
    var n := FirstBar(text);
    var r := Lookup(t, text);
    var c := t.commands[r.i];
    SameIffLower(c.name, text[..n]);
    if r.Top? {
      assert text[..n] == text;
    } else {
      SameIffLower(c.subs[r.j].name, text[n + 1..]);
      assert text == text[..n] + "|" + text[n + 1..];
      LowerBarred(text[..n], text[n + 1..]);
      LowerBarred(c.name, c.subs[r.j].name);
    }
  }

  lemma LowerBarred(a: string, b: string)
    ensures ToLower(a + "|" + b) == ToLower(a) + "|" + ToLower(b)
  {
  }

  // ---------------------------------------------------------------- replaced rules decide nothing else

  /** Only "command" replaces anything but itself, and then just rules below that command. */
  lemma ReplacedShape(t: Table, text: string, prior: string)
    requires ValidTable(t) && Replaces(text, prior) && text != prior
    requires !Denotes(t, text).NoMeaning? && !Denotes(t, prior).NoMeaning?
    ensures Denotes(t, text).OnCommand?
    ensures var m := Denotes(t, prior); (m.OnSub? || m.OnFirstArg?) && m.i == Denotes(t, text).i
  {
    hide Denotes, LastBar, FirstBar, Lookup, ValidTable;
    var k := |text|;
    assert prior[k] == '|' && forall i :: 0 <= i < k ==> prior[i] == text[i];
    NotEmpty(t, text);
    NotCategory(t, text, prior);
    var n := LastBar(prior);
    assert n >= k;
    DenotesBar(t, prior);
    TopHasNoBar(t, prior[..n]);
    assert forall i :: 0 <= i < n ==> prior[..n][i] == prior[i];
    assert n == k && prior[..n] == text;
    assert LastBar(text) < 0;
    DenotesNoBar(t, text);
    if Lookup(t, prior).SubOf? { SubOfItsTop(t, prior, n); }
  }

  /** A name found at the top of the table has no bar. */
  lemma TopHasNoBar(t: Table, text: string)
    ensures Lookup(t, text).Top? ==> forall i :: 0 <= i < |text| ==> text[i] != '|'
  {
    hide FindCommand, FindSub;
  }

  lemma SubOfItsTop(t: Table, text: string, n: nat)
    requires n < |text| && text[n] == '|' && Lookup(t, text[..n]).Top? && Lookup(t, text).SubOf?
    ensures Lookup(t, text).i == Lookup(t, text[..n]).i
  {
    hide FindCommand, FindSub, FirstBar;
    TopHasNoBar(t, text[..n]);
    var k := FirstBar(text);
    assert forall i :: 0 <= i < n ==> text[..n][i] == text[i];
    assert k == n;
    assert FirstBar(text[..n]) == n && text[..n][..n] == text[..n];
  }

  lemma NotEmpty(t: Table, text: string)
    requires ValidTable(t) && !Denotes(t, text).NoMeaning?
    ensures text != []
  {
    hide FindSub;
    var i := FindCommand(t.commands, []);
    assert i == |t.commands|;
  }

  /** A rule below a category does not exist: category names have no bars. */
  lemma NotCategory(t: Table, text: string, prior: string)
    requires ValidTable(t) && |text| < |prior| && text <= prior && prior[|text|] == '|' && text != []
    requires !Denotes(t, prior).NoMeaning?
    ensures text[0] != '@' && prior[0] != '@'
  {
    assert text[0] == prior[0];
    var cat := prior[1..];
    assert cat[|text| - 1] == '|';
    assert cat in t.categories ==> PlainCategory(cat);
  }

  lemma ReplacedIsCovered(t: Table, text: string, prior: string, p: Position)
    requires ValidTable(t) && Replaces(text, prior)
    requires !Denotes(t, text).NoMeaning? && !Denotes(t, prior).NoMeaning?
    ensures Covers(t, Denotes(t, prior), p) ==> Covers(t, Denotes(t, text), p)
  {
    hide Denotes;
    if text != prior {
      ReplacedShape(t, text, prior);
      var m := Denotes(t, prior);
      if m.OnSub? { assert t.commands[m.i].subs[m.j].id in CommandBits(t.commands[m.i]); }
    }
  }

  lemma {:induction false} KeepEvaluates(t: Table, all: bool, rules: seq<string>, text: string, p: Position)
    requires ValidTable(t) && AllRules(rules) && (forall i :: 0 <= i < |rules| ==> ValidRule(t, rules[i]))
    requires !Denotes(t, text).NoMeaning? && !Covers(t, Denotes(t, text), p)
    ensures Eval(t, all, Keep(rules, text), p) == Eval(t, all, rules, p)
    decreases |rules|
  {
    hide Denotes, Covers, ValueAt, Replaces, Keep;
    if rules == [] {
      KeepNothing(text);
    } else {
      var k := |rules| - 1;
      var tok := rules[k];
      assert rules == rules[..k] + [tok];
      KeepAppend(rules[..k], [tok], text);
      KeepOne(tok, text);
      KeepEvaluates(t, all, rules[..k], text, p);
      if Replaces(text, tok[1..]) {
        ReplacedIsCovered(t, text, tok[1..], p);
        assert Keep(rules, text) == Keep(rules[..k], text);
      } else {
        var kept := Keep(rules, text);
        assert kept[..|kept| - 1] == Keep(rules[..k], text);
      }
    }
  }

  lemma {:induction false} KeepIsSub(rules: seq<string>, text: string, i: nat) returns (k: nat)
    requires AllRules(rules) && i < |Keep(rules, text)|
    ensures i <= k < |rules| && rules[k] == Keep(rules, text)[i] && !Replaces(text, rules[k][1..])
  {
    hide Replaces;
    if Replaces(text, rules[0][1..]) {
      assert Keep(rules, text) == Keep(rules[1..], text);
      k := KeepIsSub(rules[1..], text, i);
      k := k + 1;
    } else if i == 0 {
      k := 0;
    } else {
      assert Keep(rules, text)[i] == Keep(rules[1..], text)[i - 1];
      k := KeepIsSub(rules[1..], text, i - 1);
      k := k + 1;
    }
  }

  lemma {:induction false} KeepKeepsOrder(t: Table, rules: seq<string>, text: string, i: nat, j: nat)
    requires RulesOk(t, rules) && i < j < |Keep(rules, text)|
    ensures !Replaces(Keep(rules, text)[j][1..], Keep(rules, text)[i][1..])
    decreases |rules|
  {
    hide Replaces, ValidRule;
    assert RulesOk(t, rules[1..]);
    var rest := Keep(rules[1..], text);
    if Replaces(text, rules[0][1..]) {
      assert Keep(rules, text) == rest;
      KeepKeepsOrder(t, rules[1..], text, i, j);
    } else if i == 0 {
      var k := KeepIsSub(rules[1..], text, j - 1);
      assert Keep(rules, text)[j] == rest[j - 1] == rules[k + 1];
    } else {
      assert Keep(rules, text)[i] == rest[i - 1] && Keep(rules, text)[j] == rest[j - 1];
      KeepKeepsOrder(t, rules[1..], text, i - 1, j - 1);
    }
  }

  /** Retaining a valid rule keeps the list in order. */
  lemma AddedRulesOk(t: Table, rules: seq<string>, tok: string)
    requires RulesOk(t, rules) && ValidRule(t, tok)
    ensures RulesOk(t, Keep(rules, tok[1..]) + [tok])
  {
    hide Replaces, ValidRule, Keep;
    RuleShape(t, tok);
    var text := tok[1..];
    var kept := Keep(rules, text);
    var all := kept + [tok];
    forall i | 0 <= i < |kept| ensures ValidRule(t, kept[i]) && !Replaces(text, kept[i][1..]) {
      var k := KeepIsSub(rules, text, i);
    }
    forall i, j | 0 <= i < j < |all| ensures !Replaces(all[j][1..], all[i][1..]) {
      if j < |kept| { KeepKeepsOrder(t, rules, text, i, j); }
    }
  }

  lemma RuleShape(t: Table, tok: string)
    requires ValidRule(t, tok)
    ensures IsRule(tok)
  {
  }

  /** The step: if an operation decides exactly what its rule covers, retaining the rule keeps the
      invariant. */
  lemma RuleKeepsInv(t: Table, sel: Selector, tok: string, sel': Selector)
    requires ValidTable(t) && Inv(t, sel) && ValidRule(t, tok)
    requires sel'.rules == Keep(sel.rules, tok[1..]) + [tok]
    requires sel'.allowed <= EveryBit && ArgsOnPlainCommands(t, sel')
    requires forall p :: InRange(p) ==>
      Holds(sel', p) == if Covers(t, Denotes(t, tok[1..]), p) then ValueAt(Denotes(t, tok[1..]), tok[0] == '+', p)
        else Holds(sel, p)
    ensures Inv(t, sel')
    ensures (FUTURE_BIT in sel'.allowed) == (FUTURE_BIT in sel.allowed)
  {
    hide Denotes, Covers, ValueAt, Replaces, Keep;
    AddedRulesOk(t, sel.rules, tok);
    var m := Denotes(t, tok[1..]);
    var all := FUTURE_BIT in sel.allowed;
    FutureNotCovered(t, tok[1..]);
    assert Holds(sel', Bit(FUTURE_BIT)) == Holds(sel, Bit(FUTURE_BIT));
    forall p | InRange(p) ensures Holds(sel', p) == Eval(t, all, sel'.rules, p) {
      assert sel'.rules[|sel'.rules| - 1] == tok && sel'.rules[..|sel'.rules| - 1] == Keep(sel.rules, tok[1..]);
      if !Covers(t, m, p) {
        KeepEvaluates(t, all, sel.rules, tok[1..], p);
      }
    }
  }

  /** No rule touches the reserved bit. */
  lemma FutureNotCovered(t: Table, text: string)
    requires ValidTable(t)
    ensures !Covers(t, Denotes(t, text), Bit(FUTURE_BIT))
  {
    hide Denotes;
  }

  // ---------------------------------------------------------------- what the operations do

  /** `sel'` differs from `sel` exactly where the meaning covers. */
  ghost predicate Decides(t: Table, sel: Selector, m: Meaning, allow: bool, sel': Selector)
    requires InTable(t, m)
  {
    && sel'.allowed <= EveryBit && ArgsOnPlainCommands(t, sel')
    && forall p :: InRange(p) ==> Holds(sel', p) == if Covers(t, m, p) then ValueAt(m, allow, p) else Holds(sel, p)
  }

  lemma SubHasNoArgs(t: Table, sel: Selector, i: nat, j: nat)
    requires ValidTable(t) && ArgsOnPlainCommands(t, sel) && i < |t.commands| && j < |t.commands[i].subs|
    ensures t.commands[i].subs[j].id !in sel.firstArgs
  {
  }

  lemma ChangeDecides(t: Table, sel: Selector, target: Target, allow: bool)
    requires ValidTable(t) && sel.allowed <= EveryBit && ArgsOnPlainCommands(t, sel)
    requires !target.NotFound? && target.i < |t.commands|
    requires target.SubOf? ==> target.j < |t.commands[target.i].subs|
    ensures Decides(t, sel, if target.Top? then OnCommand(target.i) else OnSub(target.i, target.j), allow,
                    ChangePerm(t, sel, target, allow))
  {
    hide ValidTable, ArgsOnPlainCommands, Covers, ValueAt, Holds, ChangePerm;
    var m := if target.Top? then OnCommand(target.i) else OnSub(target.i, target.j);
    var sel' := ChangePerm(t, sel, target, allow);
    ChangeStaysInTable(t, sel, target, allow);
    forall p | InRange(p) ensures Holds(sel', p) == if Covers(t, m, p) then ValueAt(m, allow, p) else Holds(sel, p) {
      ChangeDecidesAt(t, sel, target, allow, p);
    }
  }

  lemma ChangeStaysInTable(t: Table, sel: Selector, target: Target, allow: bool)
    requires ValidTable(t) && sel.allowed <= EveryBit && ArgsOnPlainCommands(t, sel)
    requires !target.NotFound? && target.i < |t.commands|
    requires target.SubOf? ==> target.j < |t.commands[target.i].subs|
    ensures var sel' := ChangePerm(t, sel, target, allow); sel'.allowed <= EveryBit && ArgsOnPlainCommands(t, sel')
  {
    hide ValidTable, CommandBits;
    BitsInRange(t, target);
  }

  lemma ChangeDecidesAt(t: Table, sel: Selector, target: Target, allow: bool, p: Position)
    requires ValidTable(t) && ArgsOnPlainCommands(t, sel)
    requires !target.NotFound? && target.i < |t.commands|
    requires target.SubOf? ==> target.j < |t.commands[target.i].subs|
    ensures var m := if target.Top? then OnCommand(target.i) else OnSub(target.i, target.j);
            Holds(ChangePerm(t, sel, target, allow), p) == if Covers(t, m, p) then ValueAt(m, allow, p)
              else Holds(sel, p)
  {
    hide ValidTable, CommandBits, ArgsOnPlainCommands;
    if target.SubOf? { SubHasNoArgs(t, sel, target.i, target.j); }
    ChangedArgs(t, sel, target, allow);
  }

  lemma ChangedArgs(t: Table, sel: Selector, target: Target, allow: bool)
    requires !target.NotFound? && target.i < |t.commands|
    requires target.SubOf? ==> target.j < |t.commands[target.i].subs|
    ensures forall id ::
              ArgsOf(ChangePerm(t, sel, target, allow), id) == if id == TargetId(t, target) then [] else ArgsOf(sel, id)
  {
    hide CommandBits;
  }

  lemma BitsInRange(t: Table, target: Target)
    requires ValidTable(t)
    requires !target.NotFound? && target.i < |t.commands|
    requires target.SubOf? ==> target.j < |t.commands[target.i].subs|
    ensures TargetBits(t, target) <= EveryBit
  {
  }

  lemma CategoryDecides(t: Table, sel: Selector, cat: string, allow: bool)
    requires ValidTable(t) && sel.allowed <= EveryBit && ArgsOnPlainCommands(t, sel)
    ensures Decides(t, sel, OnCategory(cat), allow, ChangeCategory(t, sel, cat, allow))
  {
    var m := OnCategory(cat);
    var sel' := ChangeCategory(t, sel, cat, allow);
    CategoryInRange(t, cat);
    forall p | InRange(p) ensures Holds(sel', p) == if Covers(t, m, p) then ValueAt(m, allow, p) else Holds(sel, p) {
      if p.Arg? {
        assert ArgsOf(sel', p.id) == if p.id in CategoryResets(t, cat) then [] else ArgsOf(sel, p.id);
        if p.id in CategoryResets(t, cat) && p.id in sel.firstArgs {
          ResetIsTop(t, sel, cat, p.id);
        }
      }
    }
  }

  lemma ResetIsTop(t: Table, sel: Selector, cat: string, id: nat)
    requires ValidTable(t) && ArgsOnPlainCommands(t, sel) && id in CategoryResets(t, cat) && id in sel.firstArgs
    ensures exists i :: 0 <= i < |t.commands| && cat in t.commands[i].cats && id == t.commands[i].id
  {
  }

  lemma CategoryInRange(t: Table, cat: string)
    requires ValidTable(t)
    ensures CategoryBits(t, cat) <= EveryBit
  {
    forall id | id in CategoryBits(t, cat) ensures id < COMMAND_BITS {
      if i :| 0 <= i < |t.commands| && cat in t.commands[i].cats && id in CommandBits(t.commands[i]) {
        BitsInRange(t, Top(i));
      }
    }
  }

  lemma FirstArgDecides(t: Table, sel: Selector, i: nat, arg: string)
    requires ValidTable(t) && sel.allowed <= EveryBit && ArgsOnPlainCommands(t, sel)
    requires i < |t.commands| && t.commands[i].subs == []
    ensures Decides(t, sel, OnFirstArg(i, ToLower(arg)), true, AddFirstArg(sel, t.commands[i].id, arg))
  {
    var id := t.commands[i].id;
    var m := OnFirstArg(i, ToLower(arg));
    var sel' := AddFirstArg(sel, id, arg);
    forall p | InRange(p) ensures Holds(sel', p) == if Covers(t, m, p) then ValueAt(m, true, p) else Holds(sel, p) {
      if p.Arg? && p.id == id {
        ArgAdded(ArgsOf(sel, id), arg, p.arg);
      }
    }
  }

  lemma ArgAdded(args: seq<string>, arg: string, x: string)
    requires ToLower(x) == x
    ensures HasArg(args + [arg], x) <==> HasArg(args, x) || x == ToLower(arg)
    ensures HasArg(args, arg) && x == ToLower(arg) ==> HasArg(args, x)
  {
    SameIffLower(arg, x);
    var all := args + [arg];
    assert all[|args|] == arg;
    assert forall i :: 0 <= i < |args| ==> all[i] == args[i];
    if HasArg(args, arg) && x == ToLower(arg) {
      var i :| 0 <= i < |args| && SameIgnoringCase(args[i], arg);
      SameLowered(args[i], arg);
      assert SameIgnoringCase(args[i], x);
    }
  }

  // ---------------------------------------------------------------- operations that name commands

  predicate IsCommandOp(op: string) {
    && op != [] && (op[0] == '+' || op[0] == '-')
    && !SameIgnoringCase(op, "+@all") && !SameIgnoringCase(op, "-@all")
  }

  lemma CommandOpBranches(t: Table, sel: Selector, op: string)
    requires IsCommandOp(op)
    ensures SetSelector(t, sel, op)
            == if |op| > 1 && op[1] == '@' then SetCategory(t, sel, op[1..], op[0] == '+')
               else if op[0] == '+' then AllowCommand(t, sel, op[1..]) else DenyCommand(t, sel, op[1..])
  {
    hide AllowCommand, DenyCommand, SetCategory, SetKeys, SetChannels, SameIgnoringCase;
    OtherWord(op, "allkeys");
    OtherWord(op, "~*");
    OtherWord(op, "resetkeys");
    OtherWord(op, "allchannels");
    OtherWord(op, "&*");
    OtherWord(op, "resetchannels");
    OtherWord(op, "allcommands");
    OtherWord(op, "nocommands");
  }

  lemma OtherWord(op: string, w: string)
    requires op != [] && w != [] && Lower(op[0]) != Lower(w[0])
    ensures !SameIgnoringCase(op, w)
  {
  }

  lemma RulesDoNotDecide(t: Table, sel: Selector, m: Meaning, allow: bool, sel': Selector, rules: seq<string>)
    requires InTable(t, m) && Decides(t, sel, m, allow, sel')
    ensures Decides(t, sel, m, allow, sel'.(rules := rules))
  {
    hide Covers, ValueAt;
    var sel'' := sel'.(rules := rules);
    forall p ensures Holds(sel'', p) == Holds(sel', p) {
      if p.Arg? { assert ArgsOf(sel'', p.id) == ArgsOf(sel', p.id); }
    }
  }

  /** The rule an operation would retain. */
  function RuleOf(op: string): string
    requires op != []
  {
    [op[0]] + ToLower(op[1..])
  }

  /** A command operation succeeds exactly when its rule is a good one, and then it decides exactly what
      the rule covers and retains it. */
  lemma CommandOp(t: Table, sel: Selector, op: string)
    requires ValidTable(t) && Inv(t, sel) && IsCommandOp(op)
    ensures SetSelector(t, sel, op).Done? <==> GoodRule(t, RuleOf(op))
    ensures SetSelector(t, sel, op).Done? ==>
              var sel' := SetSelector(t, sel, op).sel;
              var tok := RuleOf(op);
              && sel'.rules == Keep(sel.rules, tok[1..]) + [tok]
              && Decides(t, sel, Denotes(t, tok[1..]), tok[0] == '+', sel')
  {
    hide SetSelector, Inv, Keep, Lookup, Decides, Denotes;
    InvParts(t, sel);
    CommandOpBranches(t, sel, op);
    var text := op[1..];
    assert RuleOf(op)[1..] == ToLower(text);
    RuleOfShape(op);
    if text != [] && text[0] == '@' {
      CategoryOp(t, sel, text, op[0] == '+');
    } else if op[0] == '+' {
      AllowOp(t, sel, text);
    } else {
      DenyOp(t, sel, text);
    }
  }

  lemma InvParts(t: Table, sel: Selector)
    requires Inv(t, sel)
    ensures AllRules(sel.rules) && sel.allowed <= EveryBit && ArgsOnPlainCommands(t, sel)
  {
  }

  lemma RuleOfShape(op: string)
    requires IsCommandOp(op)
    ensures ToLower(RuleOf(op)) == RuleOf(op) && (' ' in RuleOf(op) <==> ' ' in op)
  {
    var tok := RuleOf(op);
    assert forall i :: 1 <= i < |op| ==> tok[i] == Lower(op[i]);
    assert forall i :: 0 <= i < |op| ==> Lower(tok[i]) == tok[i];
    SameSpaces(op, tok);
  }

  lemma SameSpaces(s: string, s': string)
    requires |s| == |s'| && forall i :: 0 <= i < |s| ==> s'[i] == s[i] || s'[i] == Lower(s[i])
    ensures ' ' in s' <==> ' ' in s
  {
    if ' ' in s { var i :| 0 <= i < |s| && s[i] == ' '; assert s'[i] == ' '; }
    if ' ' in s' { var i :| 0 <= i < |s'| && s'[i] == ' '; assert s[i] == ' '; }
  }

  lemma CategoryOp(t: Table, sel: Selector, text: string, allow: bool)
    requires ValidTable(t) && AllRules(sel.rules) && sel.allowed <= EveryBit && ArgsOnPlainCommands(t, sel)
    requires text != [] && text[0] == '@'
    ensures var low := ToLower(text);
            var m := Denotes(t, low);
            var r := SetCategory(t, sel, text, allow);
            && (r.Done? <==> !m.NoMeaning?) && (r.Done? ==> m.OnCategory?)
            && (r.Done? ==>
                  r.sel.rules == Keep(sel.rules, low) + [Sign(allow) + low] && Decides(t, sel, m, allow, r.sel))
  {
    hide Keep, CategoryBits, CategoryResets;
    LowerSlices(text, 1);
    var sel1 := AddRule(sel, text, allow);
    CategoryDecides(t, sel1, ToLower(text[1..]), allow);
  }

  lemma DenyOp(t: Table, sel: Selector, text: string)
    requires ValidTable(t) && AllRules(sel.rules) && sel.allowed <= EveryBit && ArgsOnPlainCommands(t, sel)
    requires text == [] || text[0] != '@'
    ensures var low := ToLower(text);
            var m := Denotes(t, low);
            var r := DenyCommand(t, sel, text);
            && (r.Done? <==> !m.NoMeaning? && !m.OnFirstArg?)
            && (r.Done? ==> r.sel.rules == Keep(sel.rules, low) + ["-" + low] && Decides(t, sel, m, false, r.sel))
  {
    hide Keep, Lookup, ChangePerm, FullName, Denotes, Decides, ToLower, ValidTable, ArgsOnPlainCommands;
    var low := ToLower(text);
    LookupDenotes(t, text);
    var cmd := Lookup(t, text);
    if !cmd.NotFound? {
      FullNameIsLowered(t, text);
      ChangedRules(t, sel, cmd, false);
      ChangeDecides(t, sel, cmd, false);
      RulesDoNotDecide(t, sel, Denotes(t, low), false, ChangePerm(t, sel, cmd, false),
                       DenyCommand(t, sel, text).sel.rules);
    }
  }

  lemma ChangedRules(t: Table, sel: Selector, target: Target, allow: bool)
    requires !target.NotFound? && target.i < |t.commands|
    requires target.SubOf? ==> target.j < |t.commands[target.i].subs|
    ensures ChangePerm(t, sel, target, allow).rules == sel.rules
  {
    hide CommandBits;
  }

  /** What a name looks up is what its rule text stands for. */
  lemma LookupDenotes(t: Table, text: string)
    requires ValidTable(t) && (text == [] || text[0] != '@')
    ensures var m := Denotes(t, ToLower(text));
            match Lookup(t, text)
            case Top(i) => m == OnCommand(i)
            case SubOf(i, j) => m == OnSub(i, j)
            case NotFound => m.NoMeaning? || m.OnFirstArg?
  {
    hide Lookup, Denotes, LastBar, ToLower, ValidTable;
    var low := ToLower(text);
    LookupLowered(t, text);
    LoweredStart(text);
    if LastBar(low) < 0 {
      DenotesNoBar(t, low);
      NoBarNoSub(t, low);
    } else {
      DenotesBar(t, low);
      BarNotTop(t, low);
      if Lookup(t, low).SubOf? {
        SubBelowTop(t, low);
        HasSubs(t, low);
      }
    }
  }

  lemma LoweredStart(text: string)
    requires text == [] || text[0] != '@'
    ensures ToLower(text) == [] || ToLower(text)[0] != '@'
  {
  }

  lemma NoBarNoSub(t: Table, low: string)
    requires LastBar(low) < 0
    ensures !Lookup(t, low).SubOf?
  {
    hide FindCommand, FindSub;
  }

  lemma HasSubs(t: Table, low: string)
    requires Lookup(t, low).SubOf?
    ensures t.commands[Lookup(t, low).i].subs != []
  {
    hide FindCommand, FindSub;
  }

  lemma SubBelowTop(t: Table, low: string)
    requires ValidTable(t) && Lookup(t, low).SubOf?
    ensures LastBar(low) == FirstBar(low) >= 0
    ensures Lookup(t, low[..LastBar(low)]) == Top(Lookup(t, low).i)
    ensures low[LastBar(low) + 1..] != []
  {
    hide FindCommand, FindSub, FirstBar, LastBar, ValidTable;
    var k := FirstBar(low);
    var rest := low[k + 1..];
    assert forall i :: k < i < |low| ==> low[i] == rest[i - k - 1] && rest[i - k - 1] != '|';
    assert LastBar(low) == k;
    var base := low[..k];
    assert FirstBar(base) == k && base[..k] == base;
    var r := Lookup(t, low);
    SubNameNotEmpty(t, r.i, rest);
  }

  lemma SubNameNotEmpty(t: Table, i: nat, name: string)
    requires ValidTable(t) && i < |t.commands| && FindSub(t.commands[i].subs, name) < |t.commands[i].subs|
    ensures name != []
  {
    var j := FindSub(t.commands[i].subs, name);
    assert PlainName(t.commands[i].subs[j].name);
  }

  lemma AllowOp(t: Table, sel: Selector, text: string)
    requires ValidTable(t) && AllRules(sel.rules) && sel.allowed <= EveryBit && ArgsOnPlainCommands(t, sel)
    requires text == [] || text[0] != '@'
    ensures var low := ToLower(text);
            var m := Denotes(t, low);
            var r := AllowCommand(t, sel, text);
            && (r.Done? <==> !m.NoMeaning?)
            && (r.Done? ==> r.sel.rules == Keep(sel.rules, low) + ["+" + low] && Decides(t, sel, m, true, r.sel))
  {
    hide LastBar;
    if LastBar(text) < 0 {
      AllowPlain(t, sel, text);
    } else {
      AllowBarred(t, sel, text);
    }
  }

  lemma AllowPlain(t: Table, sel: Selector, text: string)
    requires ValidTable(t) && AllRules(sel.rules) && sel.allowed <= EveryBit && ArgsOnPlainCommands(t, sel)
    requires (text == [] || text[0] != '@') && LastBar(text) < 0
    ensures var low := ToLower(text);
            var m := Denotes(t, low);
            var r := AllowCommand(t, sel, text);
            && (r.Done? <==> !m.NoMeaning?)
            && (r.Done? ==> r.sel.rules == Keep(sel.rules, low) + ["+" + low] && Decides(t, sel, m, true, r.sel))
  {
    hide Keep, Lookup, LastBar, Decides, Denotes, ChangePerm, FullName, ToLower, ValidTable, ArgsOnPlainCommands;
    var low := ToLower(text);
    BarLowered(text);
    LookupDenotes(t, text);
    LoweredStart(text);
    var cmd := Lookup(t, text);
    DenotesNoBar(t, low);
    if !cmd.NotFound? {
      FullNameIsLowered(t, text);
      ChangedRules(t, sel, cmd, true);
      ChangeDecides(t, sel, cmd, true);
      RulesDoNotDecide(t, sel, Denotes(t, low), true, ChangePerm(t, sel, cmd, true),
                       AllowCommand(t, sel, text).sel.rules);
    }
  }

  lemma AllowBarred(t: Table, sel: Selector, text: string)
    requires ValidTable(t) && AllRules(sel.rules) && sel.allowed <= EveryBit && ArgsOnPlainCommands(t, sel)
    requires (text == [] || text[0] != '@') && LastBar(text) >= 0
    ensures var low := ToLower(text);
            var m := Denotes(t, low);
            var r := AllowCommand(t, sel, text);
            && (r.Done? <==> !m.NoMeaning?)
            && (r.Done? ==> r.sel.rules == Keep(sel.rules, low) + ["+" + low] && Decides(t, sel, m, true, r.sel))
  {
    hide Keep, Lookup, LastBar, Decides, Denotes, ChangePerm, ToLower, ValidTable, ArgsOnPlainCommands, AddFirstArg;
    hide AddRule;
    var low, n := ToLower(text), LastBar(text);
    BarredMeaning(t, text);
    var cmd, arg := Lookup(t, text[..n]), text[n + 1..];
    if cmd.Top? && arg != [] {
      if t.commands[cmd.i].subs == [] {
        FirstArgDecides(t, sel, cmd.i, arg);
        FirstArgRules(sel, t.commands[cmd.i].id, arg);
        RuleAdded(t, sel, AddFirstArg(sel, t.commands[cmd.i].id, arg), text, Denotes(t, low), true);
      } else if Lookup(t, text).SubOf? {
        ChangedRules(t, sel, Lookup(t, text), true);
        ChangeDecides(t, sel, Lookup(t, text), true);
        RuleAdded(t, sel, ChangePerm(t, sel, Lookup(t, text), true), text, Denotes(t, low), true);
      }
    }
  }

  /** What a text with a bar denotes. */
  lemma BarredMeaning(t: Table, text: string)
    requires (text == [] || text[0] != '@') && LastBar(text) >= 0
    ensures var n := LastBar(text);
            var cmd, arg, sub := Lookup(t, text[..n]), text[n + 1..], Lookup(t, text);
            && !sub.Top?
            && Denotes(t, ToLower(text))
               == if !cmd.Top? || arg == [] then NoMeaning
                  else if t.commands[cmd.i].subs == [] then OnFirstArg(cmd.i, ToLower(arg))
                  else if sub.SubOf? then OnSub(sub.i, sub.j) else NoMeaning
  {
    hide Lookup, LastBar, Denotes, ToLower;
    var n := LastBar(text);
    BarLowered(text);
    LoweredStart(text);
    LowerSlices(text, n);
    LowerSlices(text, n + 1);
    LookupLowered(t, text[..n]);
    LookupLowered(t, text);
    DenotesBar(t, ToLower(text));
    BarNotTop(t, text);
  }

  /** Retaining the rule of an operation does not change what the operation decided. */
  lemma RuleAdded(t: Table, sel: Selector, sel': Selector, text: string, m: Meaning, allow: bool)
    requires InTable(t, m) && Decides(t, sel, m, allow, sel') && AllRules(sel.rules) && sel'.rules == sel.rules
    ensures var r := AddRule(sel', text, allow);
            r.rules == Keep(sel.rules, ToLower(text)) + [Sign(allow) + ToLower(text)] && Decides(t, sel, m, allow, r)
  {
    hide Keep, Decides, ToLower;
    RulesDoNotDecide(t, sel, m, allow, sel', AddRule(sel', text, allow).rules);
  }

  lemma FirstArgRules(sel: Selector, id: nat, arg: string)
    ensures AddFirstArg(sel, id, arg).rules == sel.rules
  {
    hide HasArg;
  }

  lemma BarNotTop(t: Table, text: string)
    requires LastBar(text) >= 0
    ensures !Lookup(t, text).Top?
  {
    hide FindCommand, FindSub;
    assert FirstBar(text) <= LastBar(text);
  }

  lemma DenotesNoBar(t: Table, low: string)
    requires (low == [] || low[0] != '@') && LastBar(low) < 0
    ensures Denotes(t, low) == DenotesTop(t, low) && (Denotes(t, low).OnCommand? || Denotes(t, low).NoMeaning?)
  {
    hide Lookup, LastBar;
  }

  lemma DenotesBar(t: Table, low: string)
    requires (low == [] || low[0] != '@') && LastBar(low) >= 0
    ensures var n := LastBar(low); Denotes(t, low) == DenotesBelow(t, Lookup(t, low[..n]), low[n + 1..], low)
  {
    hide Lookup, LastBar, DenotesBelow;
  }

  // ---------------------------------------------------------------- every operation keeps the invariant

  /** Operations whose command rules stay free of spaces. The code takes any first argument, so it does not see
      to this. */
  predicate Tidy(op: string) {
    IsCommandOp(op) ==> ' ' !in op
  }

  /** The permission state is untouched by operations on keys and channels. */
  lemma SamePermissions(t: Table, sel: Selector, sel': Selector)
    requires Inv(t, sel) && sel'.allowed == sel.allowed && sel'.firstArgs == sel.firstArgs && sel'.rules == sel.rules
    ensures Inv(t, sel')
  {
    hide Eval;
    forall p ensures Holds(sel', p) == Holds(sel, p) {
      if p.Arg? { assert ArgsOf(sel', p.id) == ArgsOf(sel, p.id); }
    }
  }

  lemma ResetInv(t: Table, sel: Selector)
    ensures Inv(t, AllCommands(sel)) && FUTURE_BIT in AllCommands(sel).allowed
    ensures Inv(t, NoCommands(sel)) && FUTURE_BIT !in NoCommands(sel).allowed
  {
  }

  /** A successful operation keeps the invariant exactly when it puts no space into a rule. */
  lemma OperationKeepsInv(t: Table, sel: Selector, op: string)
    requires ValidTable(t) && Inv(t, sel) && SetSelector(t, sel, op).Done?
    ensures Inv(t, SetSelector(t, sel, op).sel) <==> Tidy(op)
    ensures IsCommandOp(op) ==>
              (FUTURE_BIT in SetSelector(t, sel, op).sel.allowed) == (FUTURE_BIT in sel.allowed)
  {
    hide SetSelector, Inv;
    if IsCommandOp(op) {
      CommandKeepsInv(t, sel, op);
    } else {
      OtherOp(t, sel, op);
    }
  }

  lemma FutureStays(t: Table, sel: Selector, tok: string, sel': Selector)
    requires ValidTable(t) && tok != [] && Decides(t, sel, Denotes(t, tok[1..]), tok[0] == '+', sel')
    ensures (FUTURE_BIT in sel'.allowed) == (FUTURE_BIT in sel.allowed)
  {
    hide Denotes, Covers, ValueAt;
    FutureNotCovered(t, tok[1..]);
    assert Holds(sel', Bit(FUTURE_BIT)) == Holds(sel, Bit(FUTURE_BIT));
  }

  lemma CommandKeepsInv(t: Table, sel: Selector, op: string)
    requires ValidTable(t) && Inv(t, sel) && IsCommandOp(op) && SetSelector(t, sel, op).Done?
    ensures Inv(t, SetSelector(t, sel, op).sel) <==> ' ' !in op
    ensures (FUTURE_BIT in SetSelector(t, sel, op).sel.allowed) == (FUTURE_BIT in sel.allowed)
  {
    hide SetSelector, Inv, Denotes, Covers, ValueAt, Keep;
    InvParts(t, sel);
    CommandOp(t, sel, op);
    RuleOfShape(op);
    var sel', tok := SetSelector(t, sel, op).sel, RuleOf(op);
    FutureStays(t, sel, tok, sel');
    assert sel'.rules[|sel'.rules| - 1] == tok;
    if ' ' !in op {
      RuleKeepsInv(t, sel, tok, sel');
    } else if Inv(t, sel') {
      InvParts(t, sel');
    }
  }

  lemma OtherOp(t: Table, sel: Selector, op: string)
    requires ValidTable(t) && Inv(t, sel) && !IsCommandOp(op) && SetSelector(t, sel, op).Done?
    ensures Inv(t, SetSelector(t, sel, op).sel)
  {
    hide Inv, SetSelector, ValidTable;
    InvParts(t, sel);
    ResetInv(t, sel);
    OtherOpIsMild(t, sel, op);
    var sel' := SetSelector(t, sel, op).sel;
    if sel' != AllCommands(sel) && sel' != NoCommands(sel) {
      SamePermissions(t, sel, sel');
    }
  }

  /** Other operations reset the permissions or leave them alone. */
  lemma OtherOpIsMild(t: Table, sel: Selector, op: string)
    requires !IsCommandOp(op) && SetSelector(t, sel, op).Done?
    ensures var sel' := SetSelector(t, sel, op).sel;
            || sel' == AllCommands(sel) || sel' == NoCommands(sel)
            || (sel'.allowed == sel.allowed && sel'.firstArgs == sel.firstArgs && sel'.rules == sel.rules)
  {
    hide AllowCommand, DenyCommand, SetCategory, AddPattern, ParsePerms, SameIgnoringCase, AllCommands, NoCommands;
    hide HasSpaces;
  }

  // ---------------------------------------------------------------- runs and replay

  /** Applying operations one by one; an operation that fails changes nothing. */
  function Apply(t: Table, sel: Selector, ops: seq<string>): Selector
    decreases |ops|
  {
    if ops == [] then sel
    else
      var r := SetSelector(t, sel, ops[0]);
      Apply(t, if r.Done? then r.sel else sel, ops[1..])
  }

  lemma {:induction false} RunKeepsInv(t: Table, sel: Selector, ops: seq<string>)
    requires ValidTable(t) && Inv(t, sel) && forall i :: 0 <= i < |ops| ==> Tidy(ops[i])
    ensures Inv(t, Apply(t, sel, ops))
    decreases |ops|
  {
    hide SetSelector, Inv, Tidy;
    InvParts(t, sel);
    if ops != [] {
      var r := SetSelector(t, sel, ops[0]);
      if r.Done? {
        OperationKeepsInv(t, sel, ops[0]);
        RunKeepsInv(t, r.sel, ops[1..]);
      } else {
        RunKeepsInv(t, sel, ops[1..]);
      }
    }
  }

  /** Where the replay starts: the reserved bit tells. */
  function StartFor(allowed: set<nat>): Selector {
    var fake := NewSelector(false);
    if FUTURE_BIT in allowed then AllCommands(fake) else NoCommands(fake)
  }

  function ReplayStart(sel: Selector): Selector {
    StartFor(sel.allowed)
  }

  datatype Replayed = Replayed(sel: Selector) | ReplayFails

  function Replay(t: Table, sel: Selector, toks: seq<string>): Replayed
    decreases |toks|
  {
    if toks == [] then Replayed(sel)
    else
      var r := SetSelector(t, sel, toks[0]);
      if r.Done? then Replay(t, r.sel, toks[1..]) else ReplayFails
  }

  /** Two selectors allow the same: same bitmap, same first arguments ignoring case. */
  ghost predicate SamePermits(sel: Selector, sel': Selector) {
    && sel.allowed == sel'.allowed
    && forall id, arg: string :: HasArg(ArgsOf(sel, id), arg) <==> HasArg(ArgsOf(sel', id), arg)
  }

  lemma RuleIsOp(t: Table, tok: string)
    requires ValidTable(t) && ValidRule(t, tok)
    ensures IsCommandOp(tok) && ' ' !in tok && RuleOf(tok) == tok && GoodRule(t, tok)
  {
    hide Lookup, LastBar;
    LowerSlices(tok, 1);
    assert tok == [tok[0]] + tok[1..];
    SameIffLower(tok, "+@all");
    SameIffLower(tok, "-@all");
    assert ToLower("+@all") == "+@all" && ToLower("-@all") == "-@all";
    assert "+@all"[1..] == "@all" && "-@all"[1..] == "@all" && "@all"[1..] == "all";
  }

  /** Replaying a valid rule list on a selector whose rules it extends. */
  lemma {:induction false} ReplayAppends(t: Table, sel: Selector, toks: seq<string>)
    requires ValidTable(t) && Inv(t, sel) && RulesOk(t, sel.rules + toks)
    ensures var r := Replay(t, sel, toks);
            r.Replayed? && Inv(t, r.sel) && r.sel.rules == sel.rules + toks
            && (FUTURE_BIT in r.sel.allowed) == (FUTURE_BIT in sel.allowed)
    decreases |toks|
  {
    hide SetSelector, Inv, Replaces, ValidRule, GoodRule, Keep, Denotes, Decides;
    InvParts(t, sel);
    if toks == [] {
      assert sel.rules + toks == sel.rules;
    } else {
      var tok := toks[0];
      var all := sel.rules + toks;
      var n := |sel.rules|;
      assert all[n] == tok;
      RuleIsOp(t, tok);
      CommandOp(t, sel, tok);
      CommandKeepsInv(t, sel, tok);
      forall i | 0 <= i < n ensures !Replaces(tok[1..], sel.rules[i][1..]) {
        assert all[i] == sel.rules[i];
      }
      KeepsAll(sel.rules, tok[1..]);
      var sel1 := SetSelector(t, sel, tok).sel;
      assert sel1.rules == sel.rules + [tok];
      assert sel1.rules + toks[1..] == all;
      InvParts(t, sel1);
      ReplayAppends(t, sel1, toks[1..]);
    }
  }

  lemma {:induction false} KeepsAll(rules: seq<string>, text: string)
    requires AllRules(rules) && forall i :: 0 <= i < |rules| ==> !Replaces(text, rules[i][1..])
    ensures Keep(rules, text) == rules
  {
    hide Replaces;
    if rules != [] {
      KeepsAll(rules[1..], text);
    }
  }

  lemma SameEvalSamePermits(t: Table, a: Selector, b: Selector)
    requires Inv(t, a) && Inv(t, b) && a.rules == b.rules && (FUTURE_BIT in a.allowed) == (FUTURE_BIT in b.allowed)
    ensures SamePermits(a, b)
  {
    hide Eval, RulesOk;
    forall id | id in a.allowed || id in b.allowed ensures id in a.allowed && id in b.allowed {
      assert InRange(Bit(id)) && Holds(a, Bit(id)) == Holds(b, Bit(id));
    }
    assert a.allowed == b.allowed;
    forall id, arg: string ensures HasArg(ArgsOf(a, id), arg) <==> HasArg(ArgsOf(b, id), arg) {
      LowerIdempotent(arg);
      var p := Arg(id, ToLower(arg));
      assert InRange(p) && Holds(a, p) == Holds(b, p);
      HasLowered(ArgsOf(a, id), arg);
      HasLowered(ArgsOf(b, id), arg);
    }
  }

  lemma HasLowered(args: seq<string>, arg: string)
    ensures HasArg(args, ToLower(arg)) <==> HasArg(args, arg)
  {
    forall i | 0 <= i < |args| ensures SameIgnoringCase(args[i], ToLower(arg)) == SameIgnoringCase(args[i], arg) {
      SameLowered(args[i], arg);
    }
  }

  /** After any operations, replaying the retained rules rebuilds the permissions and the rules. */
  lemma ReplayRebuilds(t: Table, sel: Selector)
    requires ValidTable(t) && Inv(t, sel)
    ensures var r := Replay(t, ReplayStart(sel), sel.rules);
            r.Replayed? && r.sel.rules == sel.rules && SamePermits(sel, r.sel)
  {
    hide Inv, Replay, SamePermits;
    var start := ReplayStart(sel);
    ResetInv(t, NewSelector(false));
    assert start.rules + sel.rules == sel.rules;
    InvRules(t, sel);
    ReplayAppends(t, start, sel.rules);
    SameEvalSamePermits(t, sel, Replay(t, start, sel.rules).sel);
  }

  lemma InvRules(t: Table, sel: Selector)
    requires Inv(t, sel)
    ensures RulesOk(t, sel.rules)
  {
  }

  /** The property of the whole design, for every run from a new selector. */
  lemma EveryRunReplays(t: Table, byDefault: bool, ops: seq<string>)
    requires ValidTable(t) && forall i :: 0 <= i < |ops| ==> Tidy(ops[i])
    ensures var sel := Apply(t, NewSelector(byDefault), ops);
            var r := Replay(t, ReplayStart(sel), sel.rules);
            r.Replayed? && r.sel.rules == sel.rules && SamePermits(sel, r.sel)
  {
    hide Apply, Replay, SamePermits, ReplayStart;
    NewIsInv(t, byDefault);
    RunKeepsInv(t, NewSelector(byDefault), ops);
    ReplayRebuilds(t, Apply(t, NewSelector(byDefault), ops));
  }

  lemma NewIsInv(t: Table, byDefault: bool)
    ensures Inv(t, NewSelector(byDefault))
  {
  }
}
