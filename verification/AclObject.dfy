/** The selector as an object whose bitmap, first-argument table and rule string are changed in place,
    its description, and the assignment of command ids. */
module AclObject {
  import opened Sds
  import opened AclRules
  import opened AclSelector
  import opened AclReplay

  class SelectorObject {
    const t: Table
    var allowed: set<nat>
    var firstArgs: map<nat, seq<string>>
    var commandRules: string
    var allCommands: bool
    var allKeys: bool
    var patterns: seq<KeyPattern>
    var allChannels: bool
    var channels: seq<string>
    ghost var rules: seq<string>

    /** The rule string holds the retained rules. */
    ghost predicate Valid()
      reads this
    {
      commandRules == Join(rules)
    }

    ghost function State(): Selector
      reads this
    {
      Selector(allowed, firstArgs, rules, allCommands, allKeys, patterns, allChannels, channels)
    }

    constructor (t: Table, channelsByDefault: bool)
      ensures this.t == t && Valid() && State() == NewSelector(channelsByDefault)
    {
      this.t := t;
      allowed, firstArgs, commandRules, rules := {}, map[], "", [];
      allCommands, allKeys, allChannels := false, false, channelsByDefault;
      patterns, channels := [], [];
    }

    method SetCommandBit(id: nat, value: bool)
      requires id < COMMAND_BITS
      modifies this`allowed, this`allCommands
      ensures State() == SetBits(old(State()), {id}, value)
    {
      if value {
        allowed := allowed + {id};
      } else {
        allowed := allowed - {id};
        allCommands := false;
      }
    }

    /** Changes a command and all its subcommands. */
    method ChangeSelectorPerm(target: Target, allow: bool)
      requires ValidTable(t)
      requires !target.NotFound? && target.i < |t.commands|
      requires target.SubOf? ==> target.j < |t.commands[target.i].subs|
      modifies this`allowed, this`allCommands, this`firstArgs
      ensures State() == ChangePerm(t, old(State()), target, allow)
    {
      hide ToLower, IsWord, PlainName;
      var id := TargetId(t, target);
      SetCommandBit(id, allow);
      firstArgs := firstArgs - {id};
      if target.Top? {
        var c := t.commands[target.i];
        ghost var done := {id};
        var j := 0;
        while j < |c.subs|
          invariant 0 <= j <= |c.subs|
          invariant done == {id} + set k | 0 <= k < j :: c.subs[k].id
          invariant allowed == if allow then old(allowed) + done else old(allowed) - done
          invariant allCommands == (if allow then old(allCommands) else false)
          invariant firstArgs == old(firstArgs) - {id}
        {
          SetCommandBit(c.subs[j].id, allow);
          done := done + {c.subs[j].id};
          j := j + 1;
        }
        assert done == CommandBits(c);
      }
    }

    method SetSubcommandsForCategory(i: nat, cat: string, allow: bool)
      requires ValidTable(t) && i < |t.commands|
      modifies this`allowed, this`allCommands, this`firstArgs
      ensures var c := t.commands[i];
              Walked(old(State()), State(), SubBits(c, cat, |c.subs|), SubBits(c, cat, |c.subs|), allow)
    {
      hide SubBits, ValidTable;
      var c := t.commands[i];
      ghost var sel := State();
      var j := 0;
      NoSubs(c, cat);
      WalkNothing(sel, allow);
      while j < |c.subs|
        invariant 0 <= j <= |c.subs|
        invariant Walked(sel, State(), SubBits(c, cat, j), SubBits(c, cat, j), allow)
      {
        SubBitsGrow(c, cat, j);
        if cat in c.subs[j].cats {
          ghost var done, mid := SubBits(c, cat, j), State();
          ChangeSelectorPerm(SubOf(i, j), allow);
          WalkStep(sel, mid, State(), done, done, {c.subs[j].id}, {c.subs[j].id}, allow);
        }
        j := j + 1;
      }
    }

    /** Walks the whole table; a command in the category also takes its subcommands along. */
    method SetCommandBitsForCategory(cat: string, allow: bool)
      requires ValidTable(t)
      modifies this`allowed, this`allCommands, this`firstArgs
      ensures State() == ChangeCategory(t, old(State()), cat, allow)
    {
      hide CategoryBits, CategoryResets, CommandBits, SubBits, ValidTable, Walked, BitsUpTo, ResetsUpTo;
      ghost var sel := State();
      var i := 0;
      WalkNothing(sel, allow);
      NoneUpTo(t, cat);
      while i < |t.commands|
        invariant 0 <= i <= |t.commands|
        invariant Walked(sel, State(), BitsUpTo(t, cat, i), ResetsUpTo(t, cat, i), allow)
      {
        var c := t.commands[i];
        ghost var bits, resets, mid := BitsUpTo(t, cat, i), ResetsUpTo(t, cat, i), State();
        if cat in c.cats {
          ChangeSelectorPerm(Top(i), allow);
          PermWalked(t, mid, i, allow, State());
          WalkStep(sel, mid, State(), bits, resets, CommandBits(c), {c.id}, allow);
          bits, resets, mid := bits + CommandBits(c), resets + {c.id}, State();
        }
        SetSubcommandsForCategory(i, cat, allow);
        WalkStep(sel, mid, State(), bits, resets, SubBits(c, cat, |c.subs|), SubBits(c, cat, |c.subs|), allow);
        NextUpTo(t, cat, i);
        i := i + 1;
      }
      AllWalked(t, cat);
      WalkedAll(t, sel, State(), cat, allow);
    }

    method AddAllowedFirstArg(id: nat, arg: string)
      modifies this`firstArgs
      ensures State() == AddFirstArg(old(State()), id, arg)
    {
      var args := if id in firstArgs then firstArgs[id] else [];
      var i := 0;
      while i < |args|
        invariant 0 <= i <= |args| && firstArgs == old(firstArgs)
        invariant forall k :: 0 <= k < i ==> !SameIgnoringCase(args[k], arg)
      {
        if SameIgnoringCase(args[i], arg) { return; }
        i := i + 1;
      }
      firstArgs := firstArgs[id := args + [arg]];
    }

    method UpdateRules(rule: string, allow: bool)
      requires Valid()
      modifies this`commandRules, this`rules
      ensures Valid() && State() == AddRule(old(State()), rule, allow)
    {
      hide Pruned, Join;
      commandRules := UpdateCommandRules(commandRules, rule, allow, rules);
      rules := Pruned(rules, ToLower(rule)) + [Sign(allow) + ToLower(rule)];
    }

    method AddKeyPattern(op: string) returns (ok: bool, err: Errno)
      requires op != [] && (op[0] == '~' || op[0] == '%')
      modifies this`patterns, this`allKeys
      ensures Reports(old(State()), State(), SetKeys(old(State()), op), ok, err)
    {
      if allKeys { return false, EEXIST; }
      var read, write, pattern := true, true, op[1..];
      if op[0] == '%' {
        var perms := ScanPerms(op[1..]);
        if perms.BadPerms? { return false, EINVAL; }
        read, write, pattern := perms.read, perms.write, perms.rest;
      }
      if HasSpaces(pattern) { return false, EINVAL; }
      var i := FindPattern(patterns, pattern);
      if i == |patterns| {
        patterns := patterns + [KeyPattern(pattern, read, write)];
      } else {
        patterns := patterns[i := KeyPattern(pattern, patterns[i].read || read, patterns[i].write || write)];
      }
      allKeys := false;
      return true, EINVAL;
    }

    method AddChannel(op: string) returns (ok: bool, err: Errno)
      requires op != []
      modifies this`channels, this`allChannels
      ensures Reports(old(State()), State(), SetChannels(old(State()), op), ok, err)
    {
      if allChannels { return false, EISDIR; }
      if HasSpaces(op[1..]) { return false, EINVAL; }
      if op[1..] !in channels { channels := channels + [op[1..]]; }
      allChannels := false;
      return true, EINVAL;
    }

    method Allow(text: string) returns (ok: bool, err: Errno)
      requires ValidTable(t) && Valid()
      modifies this
      ensures Valid() && Reports(old(State()), State(), AllowCommand(t, old(State()), text), ok, err)
    {
      hide Join, Pruned, Lookup, SameIgnoringCase, ToLower, ChangePerm, LastBar, PlainName;
      var n := LastBar(text);
      if n < 0 {
        var cmd := Lookup(t, text);
        if cmd.NotFound? { return false, ENOENT; }
        ChangeSelectorPerm(cmd, true);
        UpdateRules(FullName(t, cmd), true);
      } else {
        var cmd := Lookup(t, text[..n]);
        var arg := text[n + 1..];
        if cmd.NotFound? { return false, ENOENT; }
        if cmd.SubOf? { return false, ECHILD; }
        if |arg| == 0 { return false, EINVAL; }
        if |t.commands[cmd.i].subs| > 0 {
          var sub := Lookup(t, text);
          if sub.NotFound? { return false, ENOENT; }
          ChangeSelectorPerm(sub, true);
        } else {
          AddAllowedFirstArg(t.commands[cmd.i].id, arg);
        }
        UpdateRules(text, true);
      }
      return true, EINVAL;
    }

    method Deny(text: string) returns (ok: bool, err: Errno)
      requires ValidTable(t) && Valid()
      modifies this
      ensures Valid() && Reports(old(State()), State(), DenyCommand(t, old(State()), text), ok, err)
    {
      hide Join, Pruned, Lookup, SameIgnoringCase, ToLower, ChangePerm, LastBar, PlainName;
      var cmd := Lookup(t, text);
      if cmd.NotFound? { return false, ENOENT; }
      ChangeSelectorPerm(cmd, false);
      UpdateRules(FullName(t, cmd), false);
      return true, EINVAL;
    }

    method Category(text: string, allow: bool) returns (ok: bool, err: Errno)
      requires ValidTable(t) && Valid() && text != []
      modifies this
      ensures Valid() && Reports(old(State()), State(), SetCategory(t, old(State()), text, allow), ok, err)
    {
      hide Join, Pruned, ToLower, ChangeCategory, PlainName;
      var cat := ToLower(text[1..]);
      if cat !in t.categories { return false, ENOENT; }
      UpdateRules(text, allow);
      SetCommandBitsForCategory(cat, allow);
      return true, EINVAL;
    }

    /** One selector operation, branch by branch. */
    method SetSelectorOp(op: string) returns (ok: bool, err: Errno)
      requires ValidTable(t) && Valid()
      modifies this
      ensures Valid() && Reports(old(State()), State(), SetSelector(t, old(State()), op), ok, err)
    {
      hide Join, AllowCommand, DenyCommand, SetCategory, SetKeys, SetChannels, ValidTable;
      JoinNothing();
      ok, err := true, EINVAL;
      if SameIgnoringCase(op, "allkeys") || SameIgnoringCase(op, "~*") {
        allKeys, patterns := true, [];
      } else if SameIgnoringCase(op, "resetkeys") {
        allKeys, patterns := false, [];
      } else if SameIgnoringCase(op, "allchannels") || SameIgnoringCase(op, "&*") {
        allChannels, channels := true, [];
      } else if SameIgnoringCase(op, "resetchannels") {
        allChannels, channels := false, [];
      } else if SameIgnoringCase(op, "allcommands") || SameIgnoringCase(op, "+@all") {
        allowed, allCommands, commandRules, firstArgs, rules := EveryBit, true, "", map[], [];
      } else if SameIgnoringCase(op, "nocommands") || SameIgnoringCase(op, "-@all") {
        allowed, allCommands, commandRules, firstArgs, rules := {}, false, "", map[], [];
      } else if |op| == 0 {
        ok := false;
      } else if op[0] == '~' || op[0] == '%' {
        ok, err := AddKeyPattern(op);
      } else if op[0] == '&' {
        ok, err := AddChannel(op);
      } else if op[0] == '+' && (|op| == 1 || op[1] != '@') {
        ok, err := Allow(op[1..]);
      } else if op[0] == '-' && (|op| == 1 || op[1] != '@') {
        ok, err := Deny(op[1..]);
      } else if op[0] == '+' || op[0] == '-' {
        ok, err := Category(op[1..], op[0] == '+');
      } else {
        ok := false;
      }
    }
  }

  /** What a method reports and leaves behind agrees with the operation's outcome. */
  ghost predicate Reports(before: Selector, after: Selector, r: Outcome, ok: bool, err: Errno) {
    if ok then r == Done(after) else r == Failed(err) && after == before
  }

  method ScanPerms(s: string) returns (r: Perms)
    ensures r == ParsePerms(s, false, false)
  {
    var i, read, write := 0, false, false;
    assert s[0..] == s;
    while i < |s|
      invariant 0 <= i <= |s|
      invariant ParsePerms(s, false, false) == ParsePerms(s[i..], read, write)
    {
      assert s[i..][1..] == s[i + 1..];
      if (s[i] == 'R' || s[i] == 'r') && !read {
        read := true;
      } else if (s[i] == 'W' || s[i] == 'w') && !write {
        write := true;
      } else if s[i] == '~' {
        return if read || write then Perms(read, write, s[i + 1..]) else BadPerms;
      } else {
        return BadPerms;
      }
      i := i + 1;
    }
    return if read || write then Perms(read, write, []) else BadPerms;
  }

  // ---------------------------------------------------------------- walking a category

  ghost function SubBits(c: Command, cat: string, j: nat): set<nat>
    requires j <= |c.subs|
  {
    set k | 0 <= k < j && cat in c.subs[k].cats :: c.subs[k].id
  }

  lemma NoSubs(c: Command, cat: string)
    ensures SubBits(c, cat, 0) == {}
  {
  }

  lemma SubBitsGrow(c: Command, cat: string, j: nat)
    requires j < |c.subs|
    ensures SubBits(c, cat, j + 1) == SubBits(c, cat, j) + if cat in c.subs[j].cats then {c.subs[j].id} else {}
  {
  }

  ghost function BitsUpTo(t: Table, cat: string, i: nat): set<nat>
    requires i <= |t.commands|
  {
    if i == 0 then {}
    else
      var c := t.commands[i - 1];
      BitsUpTo(t, cat, i - 1) + (if cat in c.cats then CommandBits(c) else {}) + SubBits(c, cat, |c.subs|)
  }

  ghost function ResetsUpTo(t: Table, cat: string, i: nat): set<nat>
    requires i <= |t.commands|
  {
    if i == 0 then {}
    else
      var c := t.commands[i - 1];
      ResetsUpTo(t, cat, i - 1) + (if cat in c.cats then {c.id} else {}) + SubBits(c, cat, |c.subs|)
  }

  ghost predicate Walked(before: Selector, after: Selector, bits: set<nat>, resets: set<nat>, allow: bool) {
    after == SetBits(before, bits, allow).(firstArgs := before.firstArgs - resets)
  }

  lemma WalkNothing(sel: Selector, allow: bool)
    ensures Walked(sel, sel, {}, {}, allow)
  {
    assert sel.firstArgs - {} == sel.firstArgs;
  }

  lemma NoneUpTo(t: Table, cat: string)
    ensures BitsUpTo(t, cat, 0) == {} && ResetsUpTo(t, cat, 0) == {}
  {
  }

  lemma NextUpTo(t: Table, cat: string, i: nat)
    requires i < |t.commands|
    ensures var c := t.commands[i];
            && BitsUpTo(t, cat, i + 1)
               == (if cat in c.cats then BitsUpTo(t, cat, i) + CommandBits(c) else BitsUpTo(t, cat, i))
                  + SubBits(c, cat, |c.subs|)
            && ResetsUpTo(t, cat, i + 1)
               == (if cat in c.cats then ResetsUpTo(t, cat, i) + {c.id} else ResetsUpTo(t, cat, i))
                  + SubBits(c, cat, |c.subs|)
  {
    hide CommandBits, SubBits;
  }

  lemma PermWalked(t: Table, sel: Selector, i: nat, allow: bool, sel': Selector)
    requires i < |t.commands| && sel' == ChangePerm(t, sel, Top(i), allow)
    ensures Walked(sel, sel', CommandBits(t.commands[i]), {t.commands[i].id}, allow)
  {
  }

  lemma WalkedAll(t: Table, sel: Selector, sel': Selector, cat: string, allow: bool)
    requires Walked(sel, sel', CategoryBits(t, cat), CategoryResets(t, cat), allow)
    ensures sel' == ChangeCategory(t, sel, cat, allow)
  {
    hide CategoryBits, CategoryResets;
  }

  lemma WalkStep(before: Selector, mid: Selector, after: Selector, bits: set<nat>, resets: set<nat>, more: set<nat>,
                 reset: set<nat>, allow: bool)
    requires Walked(before, mid, bits, resets, allow) && Walked(mid, after, more, reset, allow)
    ensures Walked(before, after, bits + more, resets + reset, allow)
  {
    assert before.allowed - bits - more == before.allowed - (bits + more);
    assert before.allowed + bits + more == before.allowed + (bits + more);
    assert before.firstArgs - resets - reset == before.firstArgs - (resets + reset);
  }

  lemma {:induction false} InBitsUpTo(t: Table, cat: string, i: nat, id: nat)
    requires i <= |t.commands|
    ensures id in BitsUpTo(t, cat, i) <==>
              || (exists k :: 0 <= k < i && cat in t.commands[k].cats && id in CommandBits(t.commands[k]))
              || (exists k, j ::
                    && 0 <= k < i && 0 <= j < |t.commands[k].subs|
                    && cat in t.commands[k].subs[j].cats && id == t.commands[k].subs[j].id)
    ensures id in ResetsUpTo(t, cat, i) <==>
              || (exists k :: 0 <= k < i && cat in t.commands[k].cats && id == t.commands[k].id)
              || (exists k, j ::
                    && 0 <= k < i && 0 <= j < |t.commands[k].subs|
                    && cat in t.commands[k].subs[j].cats && id == t.commands[k].subs[j].id)
  {
    hide CommandBits;
    if i > 0 {
      InBitsUpTo(t, cat, i - 1, id);
    }
  }

  lemma AllWalked(t: Table, cat: string)
    ensures BitsUpTo(t, cat, |t.commands|) == CategoryBits(t, cat)
    ensures ResetsUpTo(t, cat, |t.commands|) == CategoryResets(t, cat)
  {
    hide CommandBits, BitsUpTo, ResetsUpTo;
    forall id ensures id in BitsUpTo(t, cat, |t.commands|) <==> id in CategoryBits(t, cat) {
      InBitsUpTo(t, cat, |t.commands|, id);
    }
    forall id ensures id in ResetsUpTo(t, cat, |t.commands|) <==> id in CategoryResets(t, cat) {
      InBitsUpTo(t, cat, |t.commands|, id);
    }
  }

  // ---------------------------------------------------------------- describing

  datatype Description = Text(text: string) | Panic

  /** The printed rules behind "+@all" or "-@all". */
  function RulesText(future: bool, commandRules: string): string {
    (if future then "+@all" else "-@all") + if commandRules == [] then "" else " " + commandRules
  }

  /** The rules are split as a command line and replayed; any trouble, or another bitmap, ends the process. */
  function Described(t: Table, allowed: set<nat>, commandRules: string): Description {
    match SplitArgs(commandRules)
    case SplitError => Panic
    case Split(argv) =>
      var r := Replay(t, StartFor(allowed), argv);
      if r.Replayed? && r.sel.allowed == allowed then Text(RulesText(FUTURE_BIT in allowed, commandRules)) else Panic
  }

  /** Rebuilds the permissions in a scratch selector and refuses to answer when they differ. */
  method DescribeSelectorCommandRules(t: Table, allowed: set<nat>, commandRules: string) returns (d: Description)
    requires ValidTable(t)
    ensures d == Described(t, allowed, commandRules)
  {
    hide Join, SplitArgs, ValidTable, SetSelector, StartFor, Replay;
    var future := FUTURE_BIT in allowed;
    var text := if future then "+@all " else "-@all ";
    var fake := new SelectorObject(t, false);
    var ok, err := fake.SetSelectorOp(if future then "+@all" else "-@all");
    StartState(t, allowed);
    assert fake.State() == StartFor(allowed);
    var split := SplitArgs(commandRules);
    if split.SplitError? { return Panic; }
    ok := ReplayArgs(fake, split.argv);
    if !ok { return Panic; }
    if |commandRules| > 0 { text := text + commandRules + " "; }
    text := text[..|text| - 1];
    if fake.allowed != allowed { return Panic; }
    DescribedShape(text, commandRules, future);
    return Text(text);
  }

  /** Applies the arguments one by one until one is refused. */
  method ReplayArgs(fake: SelectorObject, argv: seq<string>) returns (ok: bool)
    requires fake.Valid() && ValidTable(fake.t)
    modifies fake
    ensures fake.Valid()
    ensures Replay(fake.t, old(fake.State()), argv) == if ok then Replayed(fake.State()) else ReplayFails
  {
    hide ValidTable, SetSelector, Replay;
    ghost var start := fake.State();
    assert argv[0..] == argv;
    for i := 0 to |argv|
      invariant fake.Valid()
      invariant Replay(fake.t, start, argv) == Replay(fake.t, fake.State(), argv[i..])
    {
      ReplayNext(fake.t, fake.State(), argv, i);
      var done, err := fake.SetSelectorOp(argv[i]);
      if !done { return false; }
    }
    ReplayDone(fake.t, fake.State());
    assert argv[|argv|..] == [];
    return true;
  }

  lemma ReplayNext(t: Table, sel: Selector, argv: seq<string>, i: nat)
    requires i < |argv|
    ensures var r := SetSelector(t, sel, argv[i]);
            Replay(t, sel, argv[i..]) == if r.Done? then Replay(t, r.sel, argv[i + 1..]) else ReplayFails
  {
    hide SetSelector;
    assert argv[i..][0] == argv[i] && argv[i..][1..] == argv[i + 1..];
  }

  lemma ReplayDone(t: Table, sel: Selector)
    ensures Replay(t, sel, []) == Replayed(sel)
  {
  }

  lemma StartState(t: Table, allowed: set<nat>)
    requires ValidTable(t)
    ensures SetSelector(t, NewSelector(false), if FUTURE_BIT in allowed then "+@all" else "-@all")
            == Done(StartFor(allowed))
  {
    hide SameIgnoringCase;
    OtherStarts("+@all");
    OtherStarts("-@all");
    assert SameIgnoringCase("+@all", "+@all") && SameIgnoringCase("-@all", "-@all") by {
      SameSelf("+@all");
      SameSelf("-@all");
    }
    OtherWord("-@all", "+@all");
  }

  lemma SameSelf(s: string)
    ensures SameIgnoringCase(s, s)
  {
  }

  lemma OtherStarts(op: string)
    requires op != [] && (op[0] == '+' || op[0] == '-')
    ensures !SameIgnoringCase(op, "allkeys") && !SameIgnoringCase(op, "~*") && !SameIgnoringCase(op, "resetkeys")
    ensures !SameIgnoringCase(op, "allchannels") && !SameIgnoringCase(op, "&*")
    ensures !SameIgnoringCase(op, "resetchannels")
    ensures !SameIgnoringCase(op, "allcommands") && !SameIgnoringCase(op, "nocommands")
  {
    hide SameIgnoringCase;
    OtherWord(op, "allkeys");
    OtherWord(op, "~*");
    OtherWord(op, "resetkeys");
    OtherWord(op, "allchannels");
    OtherWord(op, "&*");
    OtherWord(op, "resetchannels");
    OtherWord(op, "allcommands");
    OtherWord(op, "nocommands");
  }

  lemma DescribedShape(text: string, commandRules: string, future: bool)
    requires var start := if future then "+@all " else "-@all ";
             var full := if |commandRules| > 0 then start + commandRules + " " else start;
             text == full[..|full| - 1]
    ensures text == RulesText(future, commandRules)
  {
    var start := if future then "+@all " else "-@all ";
    assert start == (if future then "+@all" else "-@all") + " ";
    if commandRules != [] {
      assert (start + commandRules + " ")[..|start| + |commandRules|] == start + commandRules;
    }
  }

  /** Why quotes are excluded: a first argument that is a double quote is accepted, and the retained
      rule can then not be split again. */
  lemma QuotedArgumentBreaksDescription(t: Table, op: string)
    requires t == Table([Command("select", 7, {}, [])], {}) && op == "+select|\""
    ensures ValidTable(t)
    ensures SetSelector(t, NewSelector(false), op).Done?
    ensures SetSelector(t, NewSelector(false), op).sel.rules == [op]
    ensures SplitArgs(Join([op])).SplitError?
  {
    hide SetSelector, AllowCommand, SplitArgs, ValidTable, DenyCommand, SetCategory;
    var sel := NewSelector(false);
    var text := op[1..];
    SelectTableValid(t);
    assert IsCommandOp(op) by { OtherWordAt(op, "+@all"); OtherWord(op, "-@all"); }
    CommandOpBranches(t, sel, op);
    assert text == "select|\"";
    AllowQuote(t, sel, text);
    assert op == "+" + text;
    var head := op[..8];
    assert op == head + "\"";
    OpenQuoteIn(head);
  }

  lemma SelectTableValid(t: Table)
    requires t == Table([Command("select", 7, {}, [])], {})
    ensures ValidTable(t)
  {
    assert ToLower("select") == "select";
    assert PlainName(t.commands[0].name);
  }

  lemma AllowQuote(t: Table, sel: Selector, text: string)
    requires t == Table([Command("select", 7, {}, [])], {}) && sel == NewSelector(false) && text == "select|\""
    ensures AllowCommand(t, sel, text).Done? && AllowCommand(t, sel, text).sel.rules == ["+" + text]
  {
    hide Keep, AddFirstArg;
    assert LastBar(text) == 6 && text[..6] == "select" && text[7..] == "\"";
    SelectFound(t);
    assert ToLower(text) == text;
    KeepNothing(text);
    assert [] + ["+" + text] == ["+" + text];
    ArgKeepsRules(sel, 7, "\"");
  }

  lemma ArgKeepsRules(sel: Selector, id: nat, arg: string)
    ensures AddFirstArg(sel, id, arg).rules == sel.rules
  {
  }

  lemma SelectFound(t: Table)
    requires t == Table([Command("select", 7, {}, [])], {})
    ensures Lookup(t, "select") == Top(0)
  {
    assert FirstBar("select") == 6 && "select"[..6] == "select";
    SameSelf("select");
    assert t.commands[0].name == "select";
  }

  lemma OtherWordAt(op: string, w: string)
    requires |op| > 1 && |w| > 1 && Lower(op[1]) != Lower(w[1])
    ensures !SameIgnoringCase(op, w)
  {
  }

  lemma {:induction false} QuoteOpens(s: string, cur: string)
    requires IsBare(s)
    ensures ReadToken(s + "\"", Bare, cur) == TokenError
    decreases |s|
  {
    if s == [] {
      assert s + "\"" == "\"" && "\""[1..] == [];
    } else {
      assert (s + "\"")[1..] == s[1..] + "\"";
      QuoteOpens(s[1..], cur + [s[0]]);
    }
  }

  lemma OpenQuoteIn(s: string)
    requires IsWord(s)
    ensures SplitArgs(s + "\"").SplitError?
  {
    QuoteOpens(s, "");
    assert (s + "\"")[0] == s[0];
  }

  // ---------------------------------------------------------------- command ids

  /** Ids are handed out in order, once per name, and the reserved bit is skipped. */
  class CommandIds {
    var ids: map<string, nat>
    var nextId: nat

    ghost predicate Valid()
      reads this
    {
      && nextId != FUTURE_BIT
      && (forall n :: n in ids ==> ids[n] < nextId && ids[n] != FUTURE_BIT)
      && (forall m, n :: m in ids && n in ids && ids[m] == ids[n] ==> m == n)
    }

    constructor ()
      ensures Valid() && ids == map[]
    {
      ids, nextId := map[], 0;
    }

    method GetCommandID(name: string) returns (id: nat)
      requires Valid()
      modifies this
      ensures Valid() && id != FUTURE_BIT
      ensures ids == old(ids)[ToLower(name) := id]
      ensures ToLower(name) in old(ids) ==> id == old(ids)[ToLower(name)] && ids == old(ids)
    {
      var low := ToLower(name);
      if low in ids { return ids[low]; }
      id := nextId;
      ids := ids[low := id];
      nextId := nextId + 1;
      if nextId == FUTURE_BIT { nextId := nextId + 1; }
    }
  }
}
