/** What the selector operations do to keys, channels and commands, said of what is granted afterwards
    (`ACLSetSelector`), and what decides whether a command may run (`ACLSelectorCheckCmd`). */
module AclGrants {
  import opened Sds
  import opened AclRules
  import opened AclSelector
  import opened AclReplay
  import opened AclUser
  import opened AclDescribe

  // ---------------------------------------------------------------- permission letters

  /** One or two letters, R and W in any case, each at most once. */
  predicate Letters(l: string, read: bool, write: bool) {
    && 1 <= |l| <= 2 && (forall i :: 0 <= i < |l| ==> Lower(l[i]) == 'r' || Lower(l[i]) == 'w')
    && (|l| == 2 ==> Lower(l[0]) != Lower(l[1]))
    && (read <==> exists i :: 0 <= i < |l| && Lower(l[i]) == 'r')
    && (write <==> exists i :: 0 <= i < |l| && Lower(l[i]) == 'w')
  }

  /** Letters, then a '~' and the pattern, or nothing more. */
  predicate Spelling(s: string, read: bool, write: bool, pattern: string) {
    exists k :: 1 <= k <= |s| && Letters(s[..k], read, write) && Ending(s[k..], pattern)
  }

  predicate Ending(s: string, pattern: string) {
    s == "~" + pattern || (s == [] && pattern == [])
  }

  /** What "~pattern" and "%letters~pattern" stand for. */
  predicate Spells(op: string, read: bool, write: bool, pattern: string) {
    op != [] &&
    if op[0] == '~' then read && write && pattern == op[1..]
    else op[0] == '%' && Spelling(op[1..], read, write, pattern)
  }

  /** The letters that are read are exactly those that are spelled. */
  lemma PermsSpelled(s: string, read: bool, write: bool, pattern: string)
    ensures ParsePerms(s, false, false) == Perms(read, write, pattern) <==> Spelling(s, read, write, pattern)
  {
    if s != [] { OneLetter(s, Lower(s[0]) == 'r', Lower(s[0]) == 'w', read, write, pattern); }
  }

  /** After the first letter comes the end, a '~', or the other letter and then one of these. */
  lemma OneLetter(s: string, r: bool, w: bool, read: bool, write: bool, pattern: string)
    requires s != [] && r == (Lower(s[0]) == 'r') && w == (Lower(s[0]) == 'w')
    ensures ParsePerms(s, false, false) == Perms(read, write, pattern) <==> Spelling(s, read, write, pattern)
  {
    hide ParsePerms;
    ParseStep(s, false, false);
    if !r && !w {
      forall k | 1 <= k <= |s| ensures !Letters(s[..k], read, write) { assert s[..k][0] == s[0]; }
    } else if |s| > 1 && ((Lower(s[1]) == 'w' && r) || (Lower(s[1]) == 'r' && w)) {
      ParseStep(s[1..], r, w);
      TwoLetters(s, read, write, pattern);
    } else {
      ParseStep(s[1..], r, w);
      forall k | 2 <= k <= |s| ensures !Letters(s[..k], read, write) {
        assert s[..k][0] == s[0] && s[..k][1] == s[1];
      }
      assert s[..1][0] == s[0];
      if |s| > 1 { assert s[1..][0] == s[1]; }
      assert Letters(s[..1], r, w);
      if Ending(s[1..], pattern) && read == r && write == w { assert Spelling(s, read, write, pattern); }
      assert s[1..] == [] || Ending(s[1..], pattern) ==> s[1..] == [] || s[1] == '~';
      assert s[1..] != [] && s[1] == '~' ==> s[1..] == "~" + s[1..][1..];
    }
  }

  lemma TwoLetters(s: string, read: bool, write: bool, pattern: string)
    requires |s| > 1 && ((Lower(s[0]) == 'r' && Lower(s[1]) == 'w') || (Lower(s[0]) == 'w' && Lower(s[1]) == 'r'))
    ensures ParsePerms(s[1..][1..], true, true) == Perms(read, write, pattern) <==> Spelling(s, read, write, pattern)
  {
    hide ParsePerms;
    var rest := s[2..];
    assert s[1..][1..] == rest;
    ParseStep(rest, true, true);
    assert s[..2][0] == s[0] && s[..2][1] == s[1];
    assert Letters(s[..2], true, true);
    assert s[1..][0] == s[1];
    assert rest != [] && rest[0] == '~' ==> rest == "~" + rest[1..];
    if Ending(rest, pattern) && read && write { assert Spelling(s, read, write, pattern); }
  }

  /** One step of the scan. */
  lemma ParseStep(s: string, read: bool, write: bool)
    ensures s == [] ==> ParsePerms(s, read, write) == if read || write then Perms(read, write, []) else BadPerms
    ensures s != [] ==>
              ParsePerms(s, read, write)
              == if Lower(s[0]) == 'r' && !read then ParsePerms(s[1..], true, write)
                 else if Lower(s[0]) == 'w' && !write then ParsePerms(s[1..], read, true)
                 else if s[0] == '~' && (read || write) then Perms(read, write, s[1..])
                 else BadPerms
  {
  }

  // ---------------------------------------------------------------- keys

  predicate Grants(ps: seq<KeyPattern>, pattern: string, reading: bool) {
    exists i :: 0 <= i < |ps| && ps[i].pattern == pattern && if reading then ps[i].read else ps[i].write
  }

  function Texts(ps: seq<KeyPattern>): seq<string> {
    seq(|ps|, i requires 0 <= i < |ps| => ps[i].pattern)
  }

  /** The operation is spelled properly and its pattern holds no space. */
  ghost predicate NamesKeys(op: string) {
    exists read, write, pattern :: Spells(op, read, write, pattern) && !HasSpaces(pattern)
  }

  /** Only keys may differ. */
  predicate SameButKeys(a: Selector, b: Selector) {
    && b.allowed == a.allowed && b.firstArgs == a.firstArgs && b.rules == a.rules && b.allCommands == a.allCommands
    && b.allChannels == a.allChannels && b.channels == a.channels
  }

  /** "~pattern" and "%letters~pattern" fail with EEXIST exactly when every key is granted already, and with
      EINVAL exactly when they are misspelled or the pattern holds a space. */
  lemma KeyOpOutcome(t: Table, sel: Selector, op: string)
    requires op != [] && (op[0] == '~' || op[0] == '%') && op != "~*"
    ensures var r := SetSelector(t, sel, op);
            && (r == Failed(EEXIST) <==> sel.allKeys)
            && (r == Failed(EINVAL) <==> !sel.allKeys && !NamesKeys(op))
            && (r.Done? <==> !sel.allKeys && NamesKeys(op))
  {
    hide SameIgnoringCase, HasSpaces, Spells, ParsePerms, AddPattern;
    KeyOpBranch(t, sel, op);
    Parsed(op);
    var perms := if op[0] == '%' then ParsePerms(op[1..], false, false) else Perms(true, true, op[1..]);
    if perms.Perms? && !HasSpaces(perms.rest) { assert Spells(op, perms.read, perms.write, perms.rest); }
  }

  /** Signs have no case. */
  lemma NoOtherCase(op: string, signs: string)
    requires |signs| == 2 && signs[0] in {'~', '&'} && signs[1] == '*'
    ensures SameIgnoringCase(op, signs) ==> op == signs
  {
  }

  lemma KeyOpBranch(t: Table, sel: Selector, op: string)
    requires op != [] && (op[0] == '~' || op[0] == '%') && op != "~*"
    ensures SetSelector(t, sel, op) == SetKeys(sel, op)
  {
    hide SetKeys, SetChannels, AllowCommand, DenyCommand, SetCategory;
    NotThese(op);
    NoOtherCase(op, "~*");
  }

  lemma Parsed(op: string)
    requires op != [] && (op[0] == '~' || op[0] == '%')
    ensures var perms := if op[0] == '%' then ParsePerms(op[1..], false, false) else Perms(true, true, op[1..]);
            forall read, write, pattern :: perms == Perms(read, write, pattern) <==> Spells(op, read, write, pattern)
  {
    hide ParsePerms, Spelling;
    forall read, write, pattern
      ensures ParsePerms(op[1..], false, false) == Perms(read, write, pattern)
              <==> Spelling(op[1..], read, write, pattern)
    {
      PermsSpelled(op[1..], read, write, pattern);
    }
  }

  /** What is granted afterwards: what was, and on the named pattern what the operation spells. A new pattern
      goes to the end; the known ones keep their places. */
  lemma KeyOpGrants(t: Table, sel: Selector, op: string, read: bool, write: bool, pattern: string)
    requires op != [] && op != "~*" && Spells(op, read, write, pattern)
    requires DistinctPatterns(sel.patterns) && SetSelector(t, sel, op).Done?
    ensures var sel' := SetSelector(t, sel, op).sel;
            && !sel'.allKeys && SameButKeys(sel, sel')
            && (forall q, reading :: Grants(sel'.patterns, q, reading)
                  <==> Grants(sel.patterns, q, reading) || (q == pattern && if reading then read else write))
            && Texts(sel'.patterns) == Texts(sel.patterns) + if pattern in Texts(sel.patterns) then [] else [pattern]
  {
    hide SameIgnoringCase, HasSpaces, Spells, ParsePerms, AddPattern, Grants, Texts;
    assert op[0] == '~' || op[0] == '%' by { SpellsStart(op, read, write, pattern); }
    KeyOpBranch(t, sel, op);
    Parsed(op);
    var p := KeyPattern(pattern, read, write);
    forall q, reading
      ensures Grants(AddPattern(sel.patterns, p), q, reading)
              <==> Grants(sel.patterns, q, reading) || (q == pattern && if reading then read else write)
    {
      PatternGrants(sel.patterns, p, q, reading);
    }
    PatternTexts(sel.patterns, p);
  }

  lemma SpellsStart(op: string, read: bool, write: bool, pattern: string)
    requires Spells(op, read, write, pattern)
    ensures op[0] == '~' || op[0] == '%'
  {
  }

  lemma PatternGrants(ps: seq<KeyPattern>, p: KeyPattern, q: string, reading: bool)
    requires DistinctPatterns(ps)
    ensures Grants(AddPattern(ps, p), q, reading)
            <==> Grants(ps, q, reading) || (q == p.pattern && if reading then p.read else p.write)
  {
    hide FindPattern;
    var i, ps' := FindPattern(ps, p.pattern), AddPattern(ps, p);
    if i < |ps| { assert ps'[i].pattern == p.pattern; } else { assert ps'[|ps|] == p; }
    forall k | 0 <= k < |ps| && k != i ensures ps'[k] == ps[k] { }
    if Grants(ps, q, reading) {
      var k :| 0 <= k < |ps| && ps[k].pattern == q && if reading then ps[k].read else ps[k].write;
      assert ps'[k].pattern == q;
    }
  }

  lemma PatternTexts(ps: seq<KeyPattern>, p: KeyPattern)
    ensures Texts(AddPattern(ps, p)) == Texts(ps) + if p.pattern in Texts(ps) then [] else [p.pattern]
  {
    hide FindPattern;
    var i := FindPattern(ps, p.pattern);
    if i < |ps| {
      assert Texts(ps)[i] == p.pattern;
    } else {
      forall k | 0 <= k < |ps| ensures Texts(ps)[k] != p.pattern { }
    }
  }

  // ---------------------------------------------------------------- channels

  /** "&channel" fails with EISDIR exactly when every channel is granted already, and with EINVAL exactly when
      the name holds a space; otherwise the channel is stored, at the end unless it was stored already. */
  lemma ChannelOpOutcome(t: Table, sel: Selector, op: string)
    requires op != [] && op[0] == '&' && op != "&*"
    ensures var r := SetSelector(t, sel, op);
            && (r == Failed(EISDIR) <==> sel.allChannels)
            && (r == Failed(EINVAL) <==> !sel.allChannels && HasSpaces(op[1..]))
            && (r.Done? <==> !sel.allChannels && !HasSpaces(op[1..]))
            && (r.Done? ==>
                  && r.sel == sel.(channels := r.sel.channels)
                  && op[1..] in r.sel.channels && sel.channels <= r.sel.channels
                  && |r.sel.channels| == |sel.channels| + if op[1..] in sel.channels then 0 else 1)
  {
    hide HasSpaces, SetKeys, AllowCommand, DenyCommand, SetCategory;
    NotThese(op);
    NoOtherCase(op, "&*");
  }

  // ---------------------------------------------------------------- words

  /** The operations that are words change what they name and nothing else. */
  lemma KeyAndChannelWords(t: Table, sel: Selector, op: string)
    ensures SameIgnoringCase(op, "allkeys") || op == "~*" ==>
              SetSelector(t, sel, op) == Done(sel.(allKeys := true, patterns := []))
    ensures SameIgnoringCase(op, "resetkeys") ==>
              SetSelector(t, sel, op) == Done(sel.(allKeys := false, patterns := []))
    ensures SameIgnoringCase(op, "allchannels") || op == "&*" ==>
              SetSelector(t, sel, op) == Done(sel.(allChannels := true, channels := []))
    ensures SameIgnoringCase(op, "resetchannels") ==>
              SetSelector(t, sel, op) == Done(sel.(allChannels := false, channels := []))
  {
    hide SetKeys, SetChannels, AllowCommand, DenyCommand, SetCategory;
    if op == "&*" { NotThese(op); }
  }

  /** All commands and no commands: every bit or none, no first argument, and no rule left. */
  lemma CommandWords(t: Table, sel: Selector, op: string)
    ensures SameIgnoringCase(op, "allcommands") || SameIgnoringCase(op, "+@all") ==>
              SetSelector(t, sel, op)
              == Done(sel.(allowed := EveryBit, allCommands := true, rules := [], firstArgs := map[]))
    ensures SameIgnoringCase(op, "nocommands") || SameIgnoringCase(op, "-@all") ==>
              SetSelector(t, sel, op)
              == Done(sel.(allowed := {}, allCommands := false, rules := [], firstArgs := map[]))
  {
    hide SetKeys, SetChannels, AllowCommand, DenyCommand, SetCategory;
    if op != [] && (op[0] == '+' || op[0] == '-') { NotThese(op); }
    if SameIgnoringCase(op, "allcommands") { assert Lower(op[4]) == 'o'; }
  }

  // ---------------------------------------------------------------- commands

  /** Why an operation on a command is refused: an unknown command, a first argument on a subcommand, or an
      empty one. */
  lemma CommandOpOutcome(t: Table, sel: Selector, text: string)
    ensures var n := LastBar(text);
            var r := AllowCommand(t, sel, text);
            var cmd := Lookup(t, if n < 0 then text else text[..n]);
            && (r == Failed(ECHILD) <==> n >= 0 && cmd.SubOf?)
            && (r == Failed(EINVAL) <==> n >= 0 && cmd.Top? && n == |text| - 1)
            && (r == Failed(ENOENT) <==>
                  || cmd.NotFound?
                  || (0 <= n < |text| - 1 && cmd.Top? && t.commands[cmd.i].subs != [] && Lookup(t, text).NotFound?))
            && (r.Failed? ==> r.errno in {ECHILD, EINVAL, ENOENT})
    ensures var r := DenyCommand(t, sel, text);
            (r == Failed(ENOENT) <==> Lookup(t, text).NotFound?) && (r.Done? <==> !Lookup(t, text).NotFound?)
    ensures text != [] ==>
              forall allow :: var r := SetCategory(t, sel, text, allow);
                (r.Done? <==> ToLower(text[1..]) in t.categories) && (r.Failed? ==> r.errno == ENOENT)
  {
    hide Lookup, ChangePerm, AddRule, FullName, AddFirstArg, ChangeCategory;
  }

  /** Whether a command may run is decided by the rules alone: the last one that covers the command, or the
      last one that covers it with this first argument. */
  lemma VerdictIff(t: Table, sel: Selector, id: nat, arg: string)
    requires SelectorInv(t, sel) && id < COMMAND_BITS
    ensures AllRules(sel.rules)
    ensures var all := FUTURE_BIT in sel.allowed;
            MayRun(sel, id, arg)
            <==> Eval(t, all, sel.rules, Bit(id)) || Eval(t, all, sel.rules, Arg(id, ToLower(arg)))
  {
    hide Eval, KeysOk, ChannelsOk, ArgsOnPlainCommands;
    var low := ToLower(arg);
    LowerIdempotent(arg);
    assert InRange(Bit(id)) && InRange(Arg(id, low));
    var args := ArgsOf(sel, id);
    forall i | 0 <= i < |args| ensures SameIgnoringCase(args[i], low) == SameIgnoringCase(args[i], arg) {
      SameLowered(args[i], arg);
    }
  }

  // ---------------------------------------------------------------- what the table says

  /** A text is found exactly when it is, ignoring case, the full name of a command or subcommand. */
  lemma LookupIff(t: Table, text: string)
    requires ValidTable(t)
    ensures var r := Lookup(t, text);
            && (r.NotFound? ==>
                  && (forall i :: 0 <= i < |t.commands| ==> !SameIgnoringCase(t.commands[i].name, text))
                  && forall i, j :: 0 <= i < |t.commands| && 0 <= j < |t.commands[i].subs| ==>
                       !SameIgnoringCase(FullName(t, SubOf(i, j)), text))
            && (!r.NotFound? ==> SameIgnoringCase(FullName(t, r), text))
  {
    hide FindCommand, FindSub, FirstBar, ToLower;
    var r := Lookup(t, text);
    if r.NotFound? {
      forall i | 0 <= i < |t.commands| ensures !SameIgnoringCase(t.commands[i].name, text) {
        if SameIgnoringCase(t.commands[i].name, text) { TopIsFound(t, i, text); }
      }
      forall i, j | 0 <= i < |t.commands| && 0 <= j < |t.commands[i].subs|
        ensures !SameIgnoringCase(FullName(t, SubOf(i, j)), text)
      {
        if SameIgnoringCase(FullName(t, SubOf(i, j)), text) { SubIsFound(t, i, j, text); }
      }
    } else {
      FullNameIsLowered(t, text);
      SameIffLower(FullName(t, r), text);
    }
  }

  lemma TopIsFound(t: Table, i: nat, text: string)
    requires ValidTable(t) && i < |t.commands| && SameIgnoringCase(t.commands[i].name, text)
    ensures !Lookup(t, text).NotFound?
  {
    hide ToLower, ValidTable;
    NoBar(t, i, text);
    assert text[..FirstBar(text)] == text;
  }

  /** No name holds a bar, so neither does a text that equals one ignoring case. */
  lemma NoBar(t: Table, i: nat, text: string)
    requires ValidTable(t) && i < |t.commands| && SameIgnoringCase(t.commands[i].name, text)
    ensures FirstBar(text) == |text|
  {
    hide ToLower;
    var name := t.commands[i].name;
    assert PlainName(name);
    forall k | 0 <= k < |text| ensures text[k] != '|' { assert name[k] in name && Lower(name[k]) == Lower(text[k]); }
  }

  lemma SubIsFound(t: Table, i: nat, j: nat, text: string)
    requires ValidTable(t) && i < |t.commands| && j < |t.commands[i].subs|
    requires SameIgnoringCase(FullName(t, SubOf(i, j)), text)
    ensures !Lookup(t, text).NotFound?
  {
    hide ToLower, FindCommand, FindSub;
    var c := t.commands[i];
    var name, sub := c.name, c.subs[j].name;
    var full := name + "|" + sub;
    assert PlainName(name) && PlainName(sub);
    var n := |name|;
    assert full[n] == '|' && Lower(text[n]) == '|';
    forall k | 0 <= k < n ensures text[k] != '|' { assert full[k] == name[k] && name[k] in name; }
    assert FirstBar(text) == n;
    assert SameIgnoringCase(name, text[..n]) by { forall k | 0 <= k < n ensures full[k] == name[k] { } }
    var rest := text[n + 1..];
    assert SameIgnoringCase(sub, rest) by {
      forall k | 0 <= k < |sub| ensures Lower(sub[k]) == Lower(rest[k]) { assert full[n + 1 + k] == sub[k]; }
    }
    forall k | 0 <= k < |rest| ensures rest[k] != '|' { assert sub[k] in sub && Lower(sub[k]) == Lower(rest[k]); }
    SameCommand(t, i, text[..n]);
  }

  /** Names are distinct and in lower case, so only one command has a given name. */
  lemma SameCommand(t: Table, i: nat, name: string)
    requires ValidTable(t) && i < |t.commands| && SameIgnoringCase(t.commands[i].name, name)
    ensures FindCommand(t.commands, name) == i
  {
    hide ToLower, FindCommand;
    var k := FindCommand(t.commands, name);
    assert PlainName(t.commands[i].name);
    if k < i {
      assert PlainName(t.commands[k].name);
      SameIffLower(t.commands[k].name, name);
      SameIffLower(t.commands[i].name, name);
    }
  }

  // ---------------------------------------------------------------- what changes

  /** A command by its position in the table, with its subcommands. */
  predicate IsBitOf(c: Command, id: nat) {
    id == c.id || exists j :: 0 <= j < |c.subs| && c.subs[j].id == id
  }

  /** The commands and subcommands of a category: a command brings its subcommands along. */
  predicate InCategory(t: Table, cat: string, id: nat) {
    || (exists i :: 0 <= i < |t.commands| && cat in t.commands[i].cats && IsBitOf(t.commands[i], id))
    || (exists i, j :: 0 <= i < |t.commands| && 0 <= j < |t.commands[i].subs| && cat in t.commands[i].subs[j].cats
                       && t.commands[i].subs[j].id == id)
  }

  /** "+@category" allows and "-@category" denies exactly the commands of the category. */
  lemma CategoryOpMeans(t: Table, sel: Selector, text: string, allow: bool, id: nat)
    requires text != [] && SetCategory(t, sel, text, allow).Done?
    ensures var sel' := SetCategory(t, sel, text, allow).sel;
            && (id in sel'.allowed <==> if InCategory(t, ToLower(text[1..]), id) then allow else id in sel.allowed)
            && sel'.allKeys == sel.allKeys && sel'.patterns == sel.patterns
            && sel'.allChannels == sel.allChannels && sel'.channels == sel.channels
  {
    hide ToLower, Pruned;
    CategoryMembers(t, ToLower(text[1..]), id);
  }

  lemma CategoryMembers(t: Table, cat: string, id: nat)
    ensures id in CategoryBits(t, cat) <==> InCategory(t, cat, id)
  {
    forall i | 0 <= i < |t.commands| ensures id in CommandBits(t.commands[i]) <==> IsBitOf(t.commands[i], id) {
      CommandMembers(t.commands[i], id);
    }
  }

  lemma CommandMembers(c: Command, id: nat)
    ensures id in CommandBits(c) <==> IsBitOf(c, id)
  {
  }

  /** "+command" allows and "-command" denies the command with its subcommands, or the one subcommand, and
      forgets the first arguments that were allowed for it. */
  lemma CommandOpMeans(t: Table, sel: Selector, target: Target, allow: bool, id: nat)
    requires !target.NotFound? && target.i < |t.commands|
    requires target.SubOf? ==> target.j < |t.commands[target.i].subs|
    ensures var sel' := ChangePerm(t, sel, target, allow);
            var c := t.commands[target.i];
            var named := if target.Top? then IsBitOf(c, id) else id == c.subs[target.j].id;
            && (id in sel'.allowed <==> if named then allow else id in sel.allowed)
            && ArgsOf(sel', id)
               == if id == (if target.Top? then c.id else c.subs[target.j].id) then [] else ArgsOf(sel, id)
  {
    CommandMembers(t.commands[target.i], id);
  }

  // ---------------------------------------------------------------- the rules that remain

  /** `xs` is `ys` with some elements left out. */
  predicate LeavesOut(xs: seq<string>, ys: seq<string>) {
    if ys == [] then xs == []
    else LeavesOut(xs, ys[1..]) || (xs != [] && xs[0] == ys[0] && LeavesOut(xs[1..], ys[1..]))
  }

  /** The same text, or one that goes on after a bar: a subcommand or a first argument. */
  predicate Concerns(text: string, prior: string) {
    prior == text || text + "|" <= prior
  }

  /** A new rule goes to the end. Of the earlier ones exactly those go that it concerns; the others keep their
      order. */
  lemma RuleAdded(sel: Selector, rule: string, allow: bool)
    requires AllRules(sel.rules)
    ensures var rules := AddRule(sel, rule, allow).rules;
            var low, last := ToLower(rule), |rules| - 1;
            && last >= 0 && rules[last] == (if allow then "+" else "-") + low
            && LeavesOut(rules[..last], sel.rules)
            && forall r :: r in rules[..last] <==> r in sel.rules && !Concerns(low, r[1..])
  {
    hide Keep, LeavesOut;
    var low := ToLower(rule);
    var kept := Keep(sel.rules, low);
    var rules := AddRule(sel, rule, allow).rules;
    assert rules[..|rules| - 1] == kept;
    KeptRules(sel.rules, low);
  }

  lemma {:induction false} KeptRules(rules: seq<string>, text: string)
    requires AllRules(rules)
    ensures var kept := Keep(rules, text);
            LeavesOut(kept, rules) && forall r :: r in kept <==> r in rules && !Concerns(text, r[1..])
  {
    hide Replaces, Concerns;
    if rules != [] {
      KeptRules(rules[1..], text);
      SameConcern(text, rules[0][1..]);
      var more := Keep(rules[1..], text);
      assert rules == [rules[0]] + rules[1..];
      if !Replaces(text, rules[0][1..]) {
        var kept := Keep(rules, text);
        assert kept[0] == rules[0] && kept[1..] == more;
      } else {
        assert [] + more == more;
      }
    }
  }

  lemma SameConcern(text: string, prior: string)
    ensures Replaces(text, prior) <==> Concerns(text, prior)
  {
    if text <= prior && |prior| > |text| && prior[|text|] == '|' {
      assert prior[..|text| + 1] == text + "|";
    }
  }
}
