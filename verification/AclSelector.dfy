/** ACL selectors: the command table, what each selector operation does to the permission bitmap, the
    first-argument table and the retained rules (`ACLSetSelector` and what it calls). */
module AclSelector {
  import opened Sds
  import opened AclRules

  const COMMAND_BITS := 1024
  /** The last bit is never given to a command: it tells whether future commands are allowed. */
  const FUTURE_BIT := 1023

  // ---------------------------------------------------------------- the command table

  datatype Sub = Sub(name: string, id: nat, cats: set<string>)

  datatype Command = Command(name: string, id: nat, cats: set<string>, subs: seq<Sub>)

  datatype Table = Table(commands: seq<Command>, categories: set<string>)

  /** Names are lower case, without bars, blanks or quotes. */
  predicate PlainName(s: string) {
    s != [] && ToLower(s) == s && '|' !in s && s[0] != '@' && IsWord(s)
  }

  predicate PlainCategory(s: string) {
    ToLower(s) == s && '|' !in s && IsBare(s)
  }

  ghost predicate ValidTable(t: Table) {
    && (forall i :: 0 <= i < |t.commands| ==> PlainName(t.commands[i].name) && t.commands[i].id < FUTURE_BIT)
    && (forall i, k :: 0 <= i < k < |t.commands| ==> t.commands[i].name != t.commands[k].name)
    && (forall i, k :: 0 <= i < k < |t.commands| ==> t.commands[i].id != t.commands[k].id)
    && (forall i, j :: 0 <= i < |t.commands| && 0 <= j < |t.commands[i].subs| ==>
          PlainName(t.commands[i].subs[j].name) && t.commands[i].subs[j].id < FUTURE_BIT)
    && (forall i, j, k :: 0 <= i < |t.commands| && 0 <= j < |t.commands[i].subs| && 0 <= k < |t.commands| ==>
          t.commands[i].subs[j].id != t.commands[k].id)
    && (forall c :: c in t.categories ==> PlainCategory(c) && c != "all")
  }

  /** What a name denotes in the table. */
  datatype Target = Top(i: nat) | SubOf(i: nat, j: nat) | NotFound

  function FindCommand(cs: seq<Command>, name: string): (i: nat)
    ensures i <= |cs|
    ensures i < |cs| ==> SameIgnoringCase(cs[i].name, name)
    ensures forall k :: 0 <= k < i ==> !SameIgnoringCase(cs[k].name, name)
  {
    if cs == [] || SameIgnoringCase(cs[0].name, name) then 0 else 1 + FindCommand(cs[1..], name)
  }

  function FindSub(cs: seq<Sub>, name: string): (i: nat)
    ensures i <= |cs|
    ensures i < |cs| ==> SameIgnoringCase(cs[i].name, name)
    ensures forall k :: 0 <= k < i ==> !SameIgnoringCase(cs[k].name, name)
  {
    if cs == [] || SameIgnoringCase(cs[0].name, name) then 0 else 1 + FindSub(cs[1..], name)
  }

  function FirstBar(s: string): (n: nat)
    ensures n <= |s| && (forall i :: 0 <= i < n ==> s[i] != '|') && (n < |s| ==> s[n] == '|')
  {
    if s == [] || s[0] == '|' then 0 else 1 + FirstBar(s[1..])
  }

  function LastBar(s: string): (n: int)
    ensures -1 <= n < |s| && (forall i :: n < i < |s| ==> s[i] != '|') && (n >= 0 ==> s[n] == '|')
  {
    if s == [] then -1 else if s[|s| - 1] == '|' then |s| - 1 else LastBar(s[..|s| - 1])
  }

  /** A command by name, or a subcommand by "command|subcommand". */
  function Lookup(t: Table, text: string): (r: Target)
    ensures r.Top? ==> r.i < |t.commands|
    ensures r.SubOf? ==> r.i < |t.commands| && r.j < |t.commands[r.i].subs|
  {
    var n := FirstBar(text);
    var i := FindCommand(t.commands, text[..n]);
    if i == |t.commands| then NotFound
    else if n == |text| then Top(i)
    else
      var rest := text[n + 1..];
      var j := FindSub(t.commands[i].subs, rest);
      if '|' in rest || j == |t.commands[i].subs| then NotFound else SubOf(i, j)
  }

  function FullName(t: Table, target: Target): string
    requires target.Top? ==> target.i < |t.commands|
    requires target.SubOf? ==> target.i < |t.commands| && target.j < |t.commands[target.i].subs|
  {
    match target
    case Top(i) => t.commands[i].name
    case SubOf(i, j) => t.commands[i].name + "|" + t.commands[i].subs[j].name
    case NotFound => ""
  }

  // ---------------------------------------------------------------- selectors

  datatype KeyPattern = KeyPattern(pattern: string, read: bool, write: bool)

  datatype Selector = Selector(
    allowed: set<nat>,
    firstArgs: map<nat, seq<string>>,
    rules: seq<string>,
    allCommands: bool,
    allKeys: bool,
    patterns: seq<KeyPattern>,
    allChannels: bool,
    channels: seq<string>)

  datatype Errno = EINVAL | ENOENT | EEXIST | EISDIR | ECHILD

  datatype Outcome = Done(sel: Selector) | Failed(errno: Errno)

  function NewSelector(channelsByDefault: bool): Selector {
    Selector({}, map[], [], false, false, [], channelsByDefault, [])
  }

  const EveryBit: set<nat> := set i: nat | i < COMMAND_BITS

  /** The bits a command stands for: its own and its subcommands'. */
  function CommandBits(c: Command): set<nat> {
    {c.id} + set j | 0 <= j < |c.subs| :: c.subs[j].id
  }

  function TargetBits(t: Table, target: Target): set<nat>
    requires target.Top? ==> target.i < |t.commands|
    requires target.SubOf? ==> target.i < |t.commands| && target.j < |t.commands[target.i].subs|
  {
    match target
    case Top(i) => CommandBits(t.commands[i])
    case SubOf(i, j) => {t.commands[i].subs[j].id}
    case NotFound => {}
  }

  function TargetId(t: Table, target: Target): nat
    requires !target.NotFound? && target.i < |t.commands|
    requires target.SubOf? ==> target.j < |t.commands[target.i].subs|
  {
    if target.Top? then t.commands[target.i].id else t.commands[target.i].subs[target.j].id
  }

  function SetBits(sel: Selector, ids: set<nat>, allow: bool): Selector {
    if allow then sel.(allowed := sel.allowed + ids)
    else sel.(allowed := sel.allowed - ids, allCommands := sel.allCommands && ids == {})
  }

  function ChangePerm(t: Table, sel: Selector, target: Target, allow: bool): Selector
    requires !target.NotFound? && target.i < |t.commands|
    requires target.SubOf? ==> target.j < |t.commands[target.i].subs|
  {
    var sel' := SetBits(sel, TargetBits(t, target), allow);
    sel'.(firstArgs := sel.firstArgs - {TargetId(t, target)})
  }

  /** The bits and the first-argument entries that a category operation touches. */
  function CategoryBits(t: Table, cat: string): set<nat> {
    (set i, id | 0 <= i < |t.commands| && cat in t.commands[i].cats && id in CommandBits(t.commands[i]) :: id)
    + set i, j | 0 <= i < |t.commands| && 0 <= j < |t.commands[i].subs| && cat in t.commands[i].subs[j].cats
        :: t.commands[i].subs[j].id
  }

  function CategoryResets(t: Table, cat: string): set<nat> {
    (set i | 0 <= i < |t.commands| && cat in t.commands[i].cats :: t.commands[i].id)
    + set i, j | 0 <= i < |t.commands| && 0 <= j < |t.commands[i].subs| && cat in t.commands[i].subs[j].cats
        :: t.commands[i].subs[j].id
  }

  function ChangeCategory(t: Table, sel: Selector, cat: string, allow: bool): Selector {
    var sel' := SetBits(sel, CategoryBits(t, cat), allow);
    sel'.(firstArgs := sel.firstArgs - CategoryResets(t, cat))
  }

  predicate HasArg(args: seq<string>, arg: string) {
    exists i :: 0 <= i < |args| && SameIgnoringCase(args[i], arg)
  }

  function ArgsOf(sel: Selector, id: nat): seq<string> {
    if id in sel.firstArgs then sel.firstArgs[id] else []
  }

  function AddFirstArg(sel: Selector, id: nat, arg: string): Selector {
    if HasArg(ArgsOf(sel, id), arg) then sel
    else sel.(firstArgs := sel.firstArgs[id := ArgsOf(sel, id) + [arg]])
  }

  function Sign(allow: bool): string {
    if allow then "+" else "-"
  }

  /** Retaining a rule. A rule holds a space only if its first argument does. */
  function AddRule(sel: Selector, rule: string, allow: bool): Selector
  {
    sel.(rules := Pruned(sel.rules, ToLower(rule)) + [Sign(allow) + ToLower(rule)])
  }

  // ---------------------------------------------------------------- operations

  function AllCommands(sel: Selector): Selector {
    sel.(allowed := EveryBit, allCommands := true, rules := [], firstArgs := map[])
  }

  function NoCommands(sel: Selector): Selector {
    sel.(allowed := {}, allCommands := false, rules := [], firstArgs := map[])
  }

  /** "+command", "+command|subcommand" and "+command|first-argument". */
  function AllowCommand(t: Table, sel: Selector, text: string): Outcome
  {
    var n := LastBar(text);
    if n < 0 then
      var cmd := Lookup(t, text);
      if cmd.NotFound? then Failed(ENOENT)
      else Done(AddRule(ChangePerm(t, sel, cmd, true), FullName(t, cmd), true))
    else
      var cmd := Lookup(t, text[..n]);
      var arg := text[n + 1..];
      if cmd.NotFound? then Failed(ENOENT)
      else if cmd.SubOf? then Failed(ECHILD)
      else if arg == [] then Failed(EINVAL)
      else if t.commands[cmd.i].subs != [] then
        var sub := Lookup(t, text);
        if sub.NotFound? then Failed(ENOENT)
        else Done(AddRule(ChangePerm(t, sel, sub, true), text, true))
      else Done(AddRule(AddFirstArg(sel, t.commands[cmd.i].id, arg), text, true))
  }

  function DenyCommand(t: Table, sel: Selector, text: string): Outcome
  {
    var cmd := Lookup(t, text);
    if cmd.NotFound? then Failed(ENOENT)
    else Done(AddRule(ChangePerm(t, sel, cmd, false), FullName(t, cmd), false))
  }

  /** `text` starts with '@'. */
  function SetCategory(t: Table, sel: Selector, text: string, allow: bool): Outcome
    requires text != []
  {
    var cat := ToLower(text[1..]);
    if cat !in t.categories then Failed(ENOENT)
    else Done(ChangeCategory(t, AddRule(sel, text, allow), cat, allow))
  }

  predicate HasSpaces(s: string) {
    exists i :: 0 <= i < |s| && (s[i] == ' ' || '\t' <= s[i] <= '\r' || s[i] == '\0')
  }

  /** The permission letters after '%', and where the pattern starts; None when they are malformed. */
  datatype Perms = Perms(read: bool, write: bool, rest: string) | BadPerms

  function ParsePerms(s: string, read: bool, write: bool): Perms {
    if s == [] then (if read || write then Perms(read, write, []) else BadPerms)
    else if (s[0] == 'R' || s[0] == 'r') && !read then ParsePerms(s[1..], true, write)
    else if (s[0] == 'W' || s[0] == 'w') && !write then ParsePerms(s[1..], read, true)
    else if s[0] == '~' && (read || write) then Perms(read, write, s[1..])
    else BadPerms
  }

  function FindPattern(ps: seq<KeyPattern>, pattern: string): (i: nat)
    ensures i <= |ps|
    ensures i < |ps| ==> ps[i].pattern == pattern
    ensures forall k :: 0 <= k < i ==> ps[k].pattern != pattern
  {
    if ps == [] || ps[0].pattern == pattern then 0 else 1 + FindPattern(ps[1..], pattern)
  }

  function AddPattern(ps: seq<KeyPattern>, p: KeyPattern): seq<KeyPattern> {
    var i := FindPattern(ps, p.pattern);
    if i == |ps| then ps + [p]
    else ps[i := KeyPattern(p.pattern, ps[i].read || p.read, ps[i].write || p.write)]
  }

  function SetKeys(sel: Selector, op: string): Outcome
    requires op != [] && (op[0] == '~' || op[0] == '%')
  {
    if sel.allKeys then Failed(EEXIST)
    else
      var perms := if op[0] == '%' then ParsePerms(op[1..], false, false) else Perms(true, true, op[1..]);
      if perms.BadPerms? || HasSpaces(perms.rest) then Failed(EINVAL)
      else Done(sel.(patterns := AddPattern(sel.patterns, KeyPattern(perms.rest, perms.read, perms.write)),
                     allKeys := false))
  }

  function SetChannels(sel: Selector, op: string): Outcome
    requires op != []
  {
    if sel.allChannels then Failed(EISDIR)
    else if HasSpaces(op[1..]) then Failed(EINVAL)
    else Done(sel.(channels := if op[1..] in sel.channels then sel.channels else sel.channels + [op[1..]],
                   allChannels := false))
  }

  function SetSelector(t: Table, sel: Selector, op: string): Outcome
  {
    if SameIgnoringCase(op, "allkeys") || SameIgnoringCase(op, "~*") then Done(sel.(allKeys := true, patterns := []))
    else if SameIgnoringCase(op, "resetkeys") then Done(sel.(allKeys := false, patterns := []))
    else if SameIgnoringCase(op, "allchannels") || SameIgnoringCase(op, "&*") then
      Done(sel.(allChannels := true, channels := []))
    else if SameIgnoringCase(op, "resetchannels") then Done(sel.(allChannels := false, channels := []))
    else if SameIgnoringCase(op, "allcommands") || SameIgnoringCase(op, "+@all") then Done(AllCommands(sel))
    else if SameIgnoringCase(op, "nocommands") || SameIgnoringCase(op, "-@all") then Done(NoCommands(sel))
    else if op == [] then Failed(EINVAL)
    else if op[0] == '~' || op[0] == '%' then SetKeys(sel, op)
    else if op[0] == '&' then SetChannels(sel, op)
    else if op[0] == '+' && (|op| == 1 || op[1] != '@') then AllowCommand(t, sel, op[1..])
    else if op[0] == '-' && (|op| == 1 || op[1] != '@') then DenyCommand(t, sel, op[1..])
    else if op[0] == '+' || op[0] == '-' then SetCategory(t, sel, op[1..], op[0] == '+')
    else Failed(EINVAL)
  }
}
