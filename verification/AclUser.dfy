/** Users: setting them with operations (`ACLSetUser`), describing them (`ACLDescribeUser`), and the round
    trip between the two. */
module AclUser {
  import opened Sds
  import opened AclRules
  import opened AclSelector
  import opened AclReplay

  const HASH_LENGTH := 64

  datatype User = User(
    enabled: bool,
    nopass: bool,
    skipSanitize: bool,
    passwords: seq<string>,
    root: Selector,
    others: seq<Selector>)

  /** The command table, the default for channels, and the password hash. */
  datatype Setup = Setup(t: Table, channelsByDefault: bool, hash: string -> string)

  datatype UserOutcome = Ok(user: User) | SelectorError(errno: Errno) | BadHash | NoSuchPassword

  function NewUser(w: Setup): User {
    User(false, false, false, [], NewSelector(w.channelsByDefault), [])
  }

  predicate ValidHash(s: string) {
    |s| == HASH_LENGTH && forall i :: 0 <= i < |s| ==> 'a' <= s[i] <= 'f' || '0' <= s[i] <= '9'
  }

  ghost predicate ValidSetup(w: Setup) {
    ValidTable(w.t) && forall p :: ValidHash(w.hash(p))
  }

  function Remove(xs: seq<string>, x: string): seq<string> {
    if xs == [] then [] else if xs[0] == x then xs[1..] else [xs[0]] + Remove(xs[1..], x)
  }

  function AddPassword(u: User, h: string): User {
    u.(passwords := if h in u.passwords then u.passwords else u.passwords + [h], nopass := false)
  }

  function DelPassword(u: User, h: string): UserOutcome {
    if h in u.passwords then Ok(u.(passwords := Remove(u.passwords, h))) else NoSuchPassword
  }

  /** Applying operations to a selector until one fails. */
  function ApplyAll(t: Table, sel: Selector, ops: seq<string>): Outcome
    decreases |ops|
  {
    if ops == [] then Done(sel)
    else
      var r := SetSelector(t, sel, ops[0]);
      if r.Failed? then r else ApplyAll(t, r.sel, ops[1..])
  }

  /** The arguments inside "( ... )"; when they cannot be split there are none. */
  function InnerOps(op: string): seq<string>
    requires |op| >= 2
  {
    var split := SplitArgs(op[1..|op| - 1]);
    if split.Split? then split.argv else []
  }

  predicate IsSelectorOp(op: string) {
    |op| >= 2 && op[0] == '(' && op[|op| - 1] == ')'
  }

  function Reset(w: Setup, u: User): User {
    var root := NoCommands(u.root.(allKeys := false, patterns := [], allChannels := w.channelsByDefault,
                                   channels := []));
    User(false, false, false, [], root, [])
  }

  predicate IsAuthOp(op: string)
    requires op != []
  {
    || SameIgnoringCase(op, "on") || SameIgnoringCase(op, "off") || SameIgnoringCase(op, "skip-sanitize-payload")
    || SameIgnoringCase(op, "sanitize-payload") || SameIgnoringCase(op, "nopass") || SameIgnoringCase(op, "resetpass")
    || op[0] in {'>', '#', '<', '!'}
  }

  /** Operations on flags and passwords, which come first. */
  function SetAuth(w: Setup, u: User, op: string): (r: UserOutcome)
    requires op != [] && IsAuthOp(op)
  {
    if SameIgnoringCase(op, "on") then Ok(u.(enabled := true))
    else if SameIgnoringCase(op, "off") then Ok(u.(enabled := false))
    else if SameIgnoringCase(op, "skip-sanitize-payload") then Ok(u.(skipSanitize := true))
    else if SameIgnoringCase(op, "sanitize-payload") then Ok(u.(skipSanitize := false))
    else if SameIgnoringCase(op, "nopass") then Ok(u.(nopass := true, passwords := []))
    else if SameIgnoringCase(op, "resetpass") then Ok(u.(nopass := false, passwords := []))
    else if op[0] == '>' then Ok(AddPassword(u, w.hash(op[1..])))
    else if op[0] == '#' then (if ValidHash(op[1..]) then Ok(AddPassword(u, op[1..])) else BadHash)
    else if op[0] == '<' then DelPassword(u, w.hash(op[1..]))
    else if ValidHash(op[1..]) then DelPassword(u, op[1..]) else BadHash
  }

  function SetUser(w: Setup, u: User, op: string): UserOutcome {
    if op == [] then Ok(u)
    else if IsAuthOp(op) then SetAuth(w, u, op)
    else if IsSelectorOp(op) then
      var r := ApplyAll(w.t, NewSelector(w.channelsByDefault), InnerOps(op));
      if r.Failed? then SelectorError(r.errno) else Ok(u.(others := u.others + [r.sel]))
    else if SameIgnoringCase(op, "clearselectors") then Ok(u.(others := []))
    else if SameIgnoringCase(op, "reset") then Ok(Reset(w, u))
    else
      var r := SetSelector(w.t, u.root, op);
      if r.Failed? then SelectorError(r.errno) else Ok(u.(root := r.sel))
  }

  // ---------------------------------------------------------------- the invariant

  predicate DistinctPatterns(ps: seq<KeyPattern>) {
    forall i, j :: 0 <= i < j < |ps| ==> ps[i].pattern != ps[j].pattern
  }

  predicate KeysOk(sel: Selector) {
    && DistinctPatterns(sel.patterns)
    && (forall i :: 0 <= i < |sel.patterns| ==>
          (sel.patterns[i].read || sel.patterns[i].write) && !HasSpaces(sel.patterns[i].pattern))
    && (sel.allKeys ==> sel.patterns == [])
  }

  predicate Distinct(xs: seq<string>) {
    forall i, j :: 0 <= i < j < |xs| ==> xs[i] != xs[j]
  }

  predicate ChannelsOk(sel: Selector) {
    && Distinct(sel.channels)
    && (forall i :: 0 <= i < |sel.channels| ==> sel.channels[i] != "*" && !HasSpaces(sel.channels[i]))
    && (sel.allChannels ==> sel.channels == [])
  }

  /** "All commands" is only a shortcut for a full bitmap. */
  ghost predicate SelectorInv(t: Table, sel: Selector) {
    Inv(t, sel) && KeysOk(sel) && ChannelsOk(sel) && (sel.allCommands ==> sel.allowed == EveryBit)
  }

  ghost predicate AuthOk(u: User) {
    && (u.nopass ==> u.passwords == [])
    && Distinct(u.passwords) && (forall i :: 0 <= i < |u.passwords| ==> ValidHash(u.passwords[i]))
  }

  ghost predicate UserInv(w: Setup, u: User) {
    AuthOk(u) && SelectorInv(w.t, u.root) && forall i :: 0 <= i < |u.others| ==> SelectorInv(w.t, u.others[i])
  }

  lemma AddPatternOk(ps: seq<KeyPattern>, p: KeyPattern)
    requires DistinctPatterns(ps) && (p.read || p.write) && !HasSpaces(p.pattern)
    requires forall i :: 0 <= i < |ps| ==> (ps[i].read || ps[i].write) && !HasSpaces(ps[i].pattern)
    ensures var ps' := AddPattern(ps, p);
            && DistinctPatterns(ps')
            && forall i :: 0 <= i < |ps'| ==> (ps'[i].read || ps'[i].write) && !HasSpaces(ps'[i].pattern)
  {
    hide HasSpaces;
  }

  lemma {:induction false} ParsedPerms(s: string, read: bool, write: bool)
    ensures var r := ParsePerms(s, read, write); r.Perms? ==> r.read || r.write
  {
    if s != [] {
      ParsedPerms(s[1..], true, write);
      ParsedPerms(s[1..], read, true);
    }
  }

  lemma StarChannel(op: string)
    requires op != [] && op[0] == '&' && !SameIgnoringCase(op, "&*")
    ensures op[1..] != "*"
  {
    assert op == "&" + op[1..];
  }

  /** What an operation on a selector can be, besides one on commands. */
  lemma OtherSelectorOp(t: Table, sel: Selector, op: string)
    requires KeysOk(sel) && ChannelsOk(sel) && !IsCommandOp(op) && SetSelector(t, sel, op).Done?
    ensures var sel' := SetSelector(t, sel, op).sel;
            && KeysOk(sel') && ChannelsOk(sel')
            && (|| (sel'.allowed == EveryBit && sel'.allCommands) || (sel'.allowed == {} && !sel'.allCommands)
                || (sel'.allowed == sel.allowed && sel'.allCommands == sel.allCommands))
  {
    hide AllowCommand, DenyCommand, SetCategory, SameIgnoringCase, SetKeys, SetChannels, KeysOk, ChannelsOk;
    NoKeysOk(sel, SetSelector(t, sel, op).sel);
    if op != [] && (op[0] == '~' || op[0] == '%') { KeysOpOk(sel, op); }
    if op != [] && op[0] == '&' && !SameIgnoringCase(op, "&*") { ChannelsOpOk(sel, op); }
  }

  lemma KeysOpOk(sel: Selector, op: string)
    requires KeysOk(sel) && ChannelsOk(sel) && op != [] && (op[0] == '~' || op[0] == '%')
    ensures var r := SetKeys(sel, op);
            r.Done? ==>
              && KeysOk(r.sel) && ChannelsOk(r.sel)
              && r.sel.allowed == sel.allowed && r.sel.allCommands == sel.allCommands
  {
    hide HasSpaces, AddPattern, ParsePerms;
    ParsedPerms(op[1..], false, false);
    var perms := if op[0] == '%' then ParsePerms(op[1..], false, false) else Perms(true, true, op[1..]);
    if perms.Perms? && !HasSpaces(perms.rest) {
      AddPatternOk(sel.patterns, KeyPattern(perms.rest, perms.read, perms.write));
    }
  }

  lemma ChannelsOpOk(sel: Selector, op: string)
    requires KeysOk(sel) && ChannelsOk(sel) && op != [] && op[0] == '&' && !SameIgnoringCase(op, "&*")
    ensures var r := SetChannels(sel, op);
            r.Done? ==>
              && KeysOk(r.sel) && ChannelsOk(r.sel)
              && r.sel.allowed == sel.allowed && r.sel.allCommands == sel.allCommands
  {
    hide HasSpaces, SameIgnoringCase;
    StarChannel(op);
  }

  /** Empty lists, and lists that stay, are fine. */
  lemma NoKeysOk(sel: Selector, sel': Selector)
    requires KeysOk(sel) && ChannelsOk(sel)
    ensures sel'.patterns == [] || (sel'.patterns == sel.patterns && sel'.allKeys == sel.allKeys) ==> KeysOk(sel')
    ensures sel'.channels == [] || (sel'.channels == sel.channels && sel'.allChannels == sel.allChannels) ==>
            ChannelsOk(sel')
  {
    hide HasSpaces;
  }

  /** Keys and channels are left alone, and the shortcut is dropped when a bit is. */
  predicate OnlyPermits(sel: Selector, sel': Selector) {
    && sel'.allKeys == sel.allKeys && sel'.patterns == sel.patterns
    && sel'.allChannels == sel.allChannels && sel'.channels == sel.channels
    && (sel'.allCommands ==> sel.allCommands && sel.allowed <= sel'.allowed)
  }

  lemma CategoryOnlyPermits(t: Table, sel: Selector, text: string, allow: bool)
    requires text != []
    ensures var r := SetCategory(t, sel, text, allow); r.Done? ==> OnlyPermits(sel, r.sel)
  {
    hide CategoryBits, CategoryResets, Keep, ToLower;
  }

  lemma DenyOnlyPermits(t: Table, sel: Selector, text: string)
    ensures var r := DenyCommand(t, sel, text); r.Done? ==> OnlyPermits(sel, r.sel)
  {
    hide Lookup, FullName, TargetBits, Keep, ToLower;
  }

  lemma ChangeOnlyPermits(t: Table, sel: Selector, target: Target, rule: string, allow: bool)
    requires !target.NotFound? && target.i < |t.commands|
    requires target.SubOf? ==> target.j < |t.commands[target.i].subs|
    ensures OnlyPermits(sel, AddRule(ChangePerm(t, sel, target, allow), rule, allow))
  {
    hide TargetBits, Keep, ToLower;
  }

  lemma FirstArgOnlyPermits(sel: Selector, id: nat, arg: string, rule: string)
    ensures OnlyPermits(sel, AddRule(AddFirstArg(sel, id, arg), rule, true))
  {
    hide HasArg, Keep, ToLower;
  }

  lemma AllowOnlyPermits(t: Table, sel: Selector, text: string)
    ensures var r := AllowCommand(t, sel, text); r.Done? ==> OnlyPermits(sel, r.sel)
  {
    hide Lookup, FullName, LastBar, ChangePerm, AddFirstArg, AddRule, OnlyPermits;
    var n := LastBar(text);
    var cmd := Lookup(t, if n < 0 then text else text[..n]);
    var sub := Lookup(t, text);
    if cmd.Top? {
      ChangeOnlyPermits(t, sel, cmd, FullName(t, cmd), true);
      FirstArgOnlyPermits(sel, t.commands[cmd.i].id, if n < 0 then [] else text[n + 1..], text);
    }
    if !cmd.NotFound? { ChangeOnlyPermits(t, sel, cmd, FullName(t, cmd), true); }
    if !sub.NotFound? { ChangeOnlyPermits(t, sel, sub, text, true); }
  }

  lemma CommandOpKeepsRest(t: Table, sel: Selector, op: string)
    requires IsCommandOp(op) && SetSelector(t, sel, op).Done?
    ensures OnlyPermits(sel, SetSelector(t, sel, op).sel)
  {
    hide SetSelector, AllowCommand, DenyCommand, SetCategory, OnlyPermits, IsCommandOp;
    CommandOpShape(op);
    CommandOpBranches(t, sel, op);
    CategoryOnlyPermits(t, sel, if |op| > 1 then op[1..] else op, op[0] == '+');
    DenyOnlyPermits(t, sel, op[1..]);
    AllowOnlyPermits(t, sel, op[1..]);
  }

  lemma CommandOpShape(op: string)
    requires IsCommandOp(op)
    ensures op != []
  {
  }

  /** Every operation keeps what is said of keys and channels, and the whole invariant exactly when it puts no
      space into a rule. */
  lemma SelectorOpKeepsInv(t: Table, sel: Selector, op: string)
    requires ValidTable(t) && SelectorInv(t, sel) && SetSelector(t, sel, op).Done?
    ensures var sel' := SetSelector(t, sel, op).sel;
            KeysOk(sel') && ChannelsOk(sel') && (SelectorInv(t, sel') <==> Tidy(op))
  {
    hide SetSelector, Inv, KeysOk, ChannelsOk, Tidy;
    InvParts(t, sel);
    OperationKeepsInv(t, sel, op);
    var sel' := SetSelector(t, sel, op).sel;
    if Inv(t, sel') { InvParts(t, sel'); }
    if IsCommandOp(op) {
      CommandOpKeepsRest(t, sel, op);
      SameKeys(sel, sel');
    } else {
      OtherSelectorOp(t, sel, op);
    }
  }

  lemma SameKeys(sel: Selector, sel': Selector)
    requires KeysOk(sel) && ChannelsOk(sel)
    requires sel'.allKeys == sel.allKeys && sel'.patterns == sel.patterns && sel'.allChannels == sel.allChannels
    requires sel'.channels == sel.channels
    ensures KeysOk(sel') && ChannelsOk(sel')
  {
  }

  lemma NewSelectorInv(t: Table, byDefault: bool)
    ensures SelectorInv(t, NewSelector(byDefault))
  {
    NewIsInv(t, byDefault);
  }

  lemma {:induction false} ApplyAllKeepsInv(t: Table, sel: Selector, ops: seq<string>)
    requires ValidTable(t) && SelectorInv(t, sel) && forall i :: 0 <= i < |ops| ==> Tidy(ops[i])
    requires ApplyAll(t, sel, ops).Done?
    ensures SelectorInv(t, ApplyAll(t, sel, ops).sel)
    decreases |ops|
  {
    hide SetSelector, SelectorInv, Tidy;
    if ops != [] {
      SelectorOpKeepsInv(t, sel, ops[0]);
      ApplyAllKeepsInv(t, SetSelector(t, sel, ops[0]).sel, ops[1..]);
    }
  }

  predicate TidyUserOp(op: string) {
    Tidy(op) && (IsSelectorOp(op) ==> forall i :: 0 <= i < |InnerOps(op)| ==> Tidy(InnerOps(op)[i]))
  }

  lemma {:induction false} RemoveKeeps(xs: seq<string>, x: string)
    requires Distinct(xs) && forall i :: 0 <= i < |xs| ==> ValidHash(xs[i])
    ensures Distinct(Remove(xs, x))
    ensures forall i :: 0 <= i < |Remove(xs, x)| ==> ValidHash(Remove(xs, x)[i]) && Remove(xs, x)[i] in xs
  {
    hide ValidHash;
    if xs != [] && xs[0] != x {
      RemoveKeeps(xs[1..], x);
      var r := Remove(xs[1..], x);
      assert forall i :: 0 <= i < |r| ==> r[i] in xs[1..] && r[i] != xs[0];
    }
  }

  lemma AuthKeepsInv(w: Setup, u: User, op: string)
    requires (forall p :: ValidHash(w.hash(p))) && AuthOk(u) && op != [] && IsAuthOp(op)
    ensures var r := SetAuth(w, u, op); r.Ok? ==> AuthOk(r.user) && r.user.root == u.root && r.user.others == u.others
  {
    hide ValidHash, SameIgnoringCase, Remove, AddPassword, DelPassword, Distinct;
    NoPasswords(u);
    PasswordAdded(u, op[1..]);
    PasswordAdded(u, w.hash(op[1..]));
    PasswordRemoved(u, op[1..]);
    PasswordRemoved(u, w.hash(op[1..]));
  }

  lemma NoPasswords(u: User)
    ensures u.passwords == [] ==> Distinct(u.passwords)
    ensures forall b :: AuthOk(u.(nopass := b, passwords := []))
  {
  }

  lemma PasswordAdded(u: User, h: string)
    requires AuthOk(u)
    ensures ValidHash(h) ==> AuthOk(AddPassword(u, h))
    ensures AddPassword(u, h).root == u.root && AddPassword(u, h).others == u.others
  {
    hide ValidHash;
  }

  lemma PasswordRemoved(u: User, h: string)
    requires AuthOk(u)
    ensures var r := DelPassword(u, h); r.Ok? ==> AuthOk(r.user) && r.user.root == u.root && r.user.others == u.others
  {
    hide ValidHash, Remove;
    RemoveAny(u, h);
  }

  /** Every user operation keeps the invariant when it puts no space into a rule, and only then unless it adds a
      selector. */
  lemma UserOpKeepsInv(w: Setup, u: User, op: string)
    requires ValidSetup(w) && UserInv(w, u)
    ensures SetUser(w, u, op).Ok? && TidyUserOp(op) ==> UserInv(w, SetUser(w, u, op).user)
    ensures SetUser(w, u, op).Ok? && UserInv(w, SetUser(w, u, op).user) && !IsSelectorOp(op) ==> TidyUserOp(op)
  {
    hide SetSelector, SelectorInv, ValidHash, SameIgnoringCase, Tidy, InnerOps, ApplyAll, ValidTable, SetAuth;
    hide Distinct, Reset, NewSelector, IsAuthOp;
    RootRules(w.t, u.root);
    if op != [] {
      if IsAuthOp(op) { AuthKeepsInv(w, u, op); }
      ResetOk(w, u);
      if IsSelectorOp(op) && TidyUserOp(op) { InnerKeepsInv(w, op); }
      if SetSelector(w.t, u.root, op).Done? { SelectorOpKeepsInv(w.t, u.root, op); }
    }
    AuthIsTidy(op);
  }

  /** Only operations that reach the selector can put a space into a rule. */
  lemma AuthIsTidy(op: string)
    ensures op == [] || IsAuthOp(op) || SameIgnoringCase(op, "clearselectors") || SameIgnoringCase(op, "reset")
            ==> Tidy(op)
  {
    hide SameIgnoringCase;
    if op != [] && (op[0] == '+' || op[0] == '-') {
      OtherWord(op, "on");
      OtherWord(op, "off");
      OtherWord(op, "skip-sanitize-payload");
      OtherWord(op, "sanitize-payload");
      OtherWord(op, "nopass");
      OtherWord(op, "resetpass");
      OtherWord(op, "clearselectors");
      OtherWord(op, "reset");
    }
  }

  lemma InnerKeepsInv(w: Setup, op: string)
    requires ValidTable(w.t) && IsSelectorOp(op) && TidyUserOp(op)
    ensures var r := ApplyAll(w.t, NewSelector(w.channelsByDefault), InnerOps(op)); r.Done? ==> SelectorInv(w.t, r.sel)
  {
    hide SelectorInv, Tidy, InnerOps, ApplyAll, ValidTable, NewSelector;
    NewSelectorInv(w.t, w.channelsByDefault);
    var r := ApplyAll(w.t, NewSelector(w.channelsByDefault), InnerOps(op));
    if r.Done? { ApplyAllKeepsInv(w.t, NewSelector(w.channelsByDefault), InnerOps(op)); }
  }

  lemma RootRules(t: Table, sel: Selector)
    requires SelectorInv(t, sel)
    ensures AllRules(sel.rules)
  {
    InvParts(t, sel);
  }

  lemma RemoveAny(u: User, h: string)
    requires Distinct(u.passwords) && forall i :: 0 <= i < |u.passwords| ==> ValidHash(u.passwords[i])
    ensures var r := Remove(u.passwords, h); Distinct(r) && forall i :: 0 <= i < |r| ==> ValidHash(r[i])
    ensures u.passwords == [] ==> Remove(u.passwords, h) == []
  {
    RemoveKeeps(u.passwords, h);
  }

  lemma ResetOk(w: Setup, u: User)
    ensures UserInv(w, Reset(w, u))
  {
    ResetInv(w.t, u.root.(allKeys := false, patterns := [], allChannels := w.channelsByDefault, channels := []));
  }

  /** Applying operations to a user until one fails. */
  function ApplyUser(w: Setup, u: User, ops: seq<string>): UserOutcome
    decreases |ops|
  {
    if ops == [] then Ok(u)
    else
      var r := SetUser(w, u, ops[0]);
      if r.Ok? then ApplyUser(w, r.user, ops[1..]) else r
  }

  lemma {:induction false} ApplyUserAppend(w: Setup, u: User, a: seq<string>, b: seq<string>)
    ensures ApplyUser(w, u, a + b)
            == if ApplyUser(w, u, a).Ok? then ApplyUser(w, ApplyUser(w, u, a).user, b) else ApplyUser(w, u, a)
    decreases |a|
  {
    hide SetUser;
    if a == [] {
      assert a + b == b;
    } else {
      assert (a + b)[0] == a[0] && (a + b)[1..] == a[1..] + b;
      var r := SetUser(w, u, a[0]);
      if r.Ok? { ApplyUserAppend(w, r.user, a[1..], b); }
    }
  }

  lemma {:induction false} ApplyAllAppend(t: Table, sel: Selector, a: seq<string>, b: seq<string>)
    ensures ApplyAll(t, sel, a + b)
            == if ApplyAll(t, sel, a).Done? then ApplyAll(t, ApplyAll(t, sel, a).sel, b) else ApplyAll(t, sel, a)
    decreases |a|
  {
    hide SetSelector;
    if a == [] {
      assert a + b == b;
    } else {
      assert (a + b)[0] == a[0] && (a + b)[1..] == a[1..] + b;
      var r := SetSelector(t, sel, a[0]);
      if r.Done? { ApplyAllAppend(t, r.sel, a[1..], b); }
    }
  }

  /** Every user made by operations satisfies the invariant. */
  lemma {:induction false} UserRunKeepsInv(w: Setup, u: User, ops: seq<string>)
    requires ValidSetup(w) && UserInv(w, u) && forall i :: 0 <= i < |ops| ==> TidyUserOp(ops[i])
    ensures ApplyUser(w, u, ops).Ok? ==> UserInv(w, ApplyUser(w, u, ops).user)
    decreases |ops|
  {
    hide SetUser, UserInv, TidyUserOp, ValidSetup;
    if ops != [] {
      UserOpKeepsInv(w, u, ops[0]);
      var r := SetUser(w, u, ops[0]);
      if r.Ok? { UserRunKeepsInv(w, r.user, ops[1..]); }
    }
  }

  lemma NewUserInv(w: Setup)
    ensures UserInv(w, NewUser(w))
  {
    NewSelectorInv(w.t, w.channelsByDefault);
  }
}
