/** What each user operation does, said of the stored passwords, flags, patterns and channels, and who can
    log in after any run of operations (`ACLSetUser`, `ACLCheckUserCredentials`). */
module AclEffects {
  import opened Sds
  import opened AclRules
  import opened AclSelector
  import opened AclReplay
  import opened AclUser
  import opened AclDescribe

  // ---------------------------------------------------------------- passwords

  /** The hash that a password operation names: the text itself, or the hash of the text. */
  function Named(w: Setup, op: string): string
    requires op != []
  {
    if op[0] == '>' || op[0] == '<' then w.hash(op[1..]) else op[1..]
  }

  /** '#' and '!' take a hash as it is, so it must look like one. */
  predicate WellFormed(op: string)
    requires op != []
  {
    op[0] == '>' || op[0] == '<' || ValidHash(op[1..])
  }

  predicate IsPasswordOp(op: string) {
    op != [] && op[0] in {'>', '#', '<', '!'}
  }

  /** Nothing but what concerns passwords differs. */
  predicate SameElse(u: User, v: User) {
    v.enabled == u.enabled && v.skipSanitize == u.skipSanitize && v.root == u.root && v.others == u.others
  }

  lemma PasswordOpIsNoWord(op: string)
    requires IsPasswordOp(op)
    ensures IsAuthOp(op)
    ensures !SameIgnoringCase(op, "on") && !SameIgnoringCase(op, "off")
    ensures !SameIgnoringCase(op, "skip-sanitize-payload") && !SameIgnoringCase(op, "sanitize-payload")
    ensures !SameIgnoringCase(op, "nopass") && !SameIgnoringCase(op, "resetpass")
    ensures !SameIgnoringCase(op, "reset")
  {
    hide SameIgnoringCase;
    OtherWord(op, "on");
    OtherWord(op, "off");
    OtherWord(op, "skip-sanitize-payload");
    OtherWord(op, "sanitize-payload");
    OtherWord(op, "nopass");
    OtherWord(op, "resetpass");
    OtherWord(op, "reset");
  }

  /** '>' and '#' fail only on a malformed hash. Otherwise the hash is stored, at the end unless it was
      stored already, the others stay where they are, and the password is required from now on. */
  lemma AddsPassword(w: Setup, u: User, op: string)
    requires op != [] && (op[0] == '>' || op[0] == '#')
    ensures var r, h := SetUser(w, u, op), Named(w, op);
            && (r.Ok? <==> WellFormed(op)) && (r == BadHash <==> !WellFormed(op))
            && (r.Ok? ==>
                  && !r.user.nopass && SameElse(u, r.user)
                  && h in r.user.passwords && u.passwords <= r.user.passwords
                  && |r.user.passwords| == |u.passwords| + if h in u.passwords then 0 else 1)
  {
    hide SameIgnoringCase, ValidHash;
    PasswordOpIsNoWord(op);
  }

  /** '<' and '!' succeed exactly when the hash is stored. It is then gone, and every other password is
      still there, in the same order. */
  lemma RemovesPassword(w: Setup, u: User, op: string)
    requires op != [] && (op[0] == '<' || op[0] == '!') && Distinct(u.passwords)
    ensures var r, h := SetUser(w, u, op), Named(w, op);
            && (r == BadHash <==> !WellFormed(op))
            && (r == NoSuchPassword <==> WellFormed(op) && h !in u.passwords)
            && (r.Ok? <==> WellFormed(op) && h in u.passwords)
            && (r.Ok? ==>
                  && r.user.nopass == u.nopass && SameElse(u, r.user)
                  && h !in r.user.passwords && Without(u.passwords, h, r.user.passwords))
  {
    hide SameIgnoringCase, ValidHash, Distinct, Without;
    PasswordOpIsNoWord(op);
    if Named(w, op) in u.passwords { TakenOut(u.passwords, Named(w, op)); }
  }

  /** `ys` is `xs` with one `x` taken out. */
  ghost predicate Without(xs: seq<string>, x: string, ys: seq<string>) {
    exists i :: 0 <= i <= |ys| && xs == ys[..i] + [x] + ys[i..]
  }

  lemma TakenOut(xs: seq<string>, x: string)
    requires x in xs && Distinct(xs)
    ensures Without(xs, x, Remove(xs, x)) && x !in Remove(xs, x)
  {
    var i := RemovedAt(xs, x);
    var ys := Remove(xs, x);
    assert ys[..i] == xs[..i] && ys[i..] == xs[i + 1..];
    assert xs == ys[..i] + [x] + ys[i..];
  }

  lemma {:induction false} RemovedAt(xs: seq<string>, x: string) returns (i: nat)
    requires x in xs
    ensures i < |xs| && xs[i] == x && Remove(xs, x) == xs[..i] + xs[i + 1..]
  {
    i := 0;
    if xs[0] != x {
      var j := RemovedAt(xs[1..], x);
      i := j + 1;
      assert [xs[0]] + xs[1..][..j] == xs[..i] && xs[1..][j + 1..] == xs[i + 1..];
    }
  }

  /** Membership alone: what stays, and what goes. */
  lemma StillStored(xs: seq<string>, x: string, ys: seq<string>, g: string)
    requires Without(xs, x, ys) && x !in ys
    ensures g in ys <==> g in xs && g != x
  {
    var i :| 0 <= i <= |ys| && xs == ys[..i] + [x] + ys[i..];
    assert ys == ys[..i] + ys[i..];
  }

  // ---------------------------------------------------------------- words

  /** The operations that are words, in any mix of cases: each changes what it names and nothing else. */
  lemma FlagWords(w: Setup, u: User, op: string)
    ensures SameIgnoringCase(op, "on") ==> SetUser(w, u, op) == Ok(u.(enabled := true))
    ensures SameIgnoringCase(op, "off") ==> SetUser(w, u, op) == Ok(u.(enabled := false))
    ensures SameIgnoringCase(op, "nopass") ==> SetUser(w, u, op) == Ok(u.(nopass := true, passwords := []))
    ensures SameIgnoringCase(op, "resetpass") ==> SetUser(w, u, op) == Ok(u.(nopass := false, passwords := []))
    ensures SameIgnoringCase(op, "skip-sanitize-payload") ==> SetUser(w, u, op) == Ok(u.(skipSanitize := true))
    ensures SameIgnoringCase(op, "sanitize-payload") ==> SetUser(w, u, op) == Ok(u.(skipSanitize := false))
  {
    hide SameIgnoringCase, ApplyAll, InnerOps, Reset, SetSelector, ValidHash;
    WordsApart(op);
  }

  /** "clearselectors" drops the further selectors; "reset" makes the user as good as new, whatever it was. */
  lemma ResetWords(w: Setup, u: User, op: string)
    ensures SameIgnoringCase(op, "clearselectors") ==> SetUser(w, u, op) == Ok(u.(others := []))
    ensures SameIgnoringCase(op, "reset") ==> SetUser(w, u, op) == Ok(NewUser(w))
  {
    hide SameIgnoringCase, ApplyAll, InnerOps, SetSelector, ValidHash;
    WordsApart(op);
  }

  /** "( ... )" adds a selector behind the others: a new one to which the inner operations were applied, if
      each of them succeeds. */
  lemma AddsSelector(w: Setup, u: User, op: string)
    requires IsSelectorOp(op)
    ensures var r := SetUser(w, u, op);
            var inner := ApplyAll(w.t, NewSelector(w.channelsByDefault), InnerOps(op));
            && (r.Ok? <==> inner.Done?)
            && (r.Ok? ==> r.user == u.(others := u.others + [inner.sel]))
            && (inner.Failed? ==> r == SelectorError(inner.errno))
  {
    hide SameIgnoringCase, ApplyAll, InnerOps, Reset, SetSelector, ValidHash;
    OtherWord(op, "on");
    OtherWord(op, "off");
    OtherWord(op, "skip-sanitize-payload");
    OtherWord(op, "sanitize-payload");
    OtherWord(op, "nopass");
    OtherWord(op, "resetpass");
  }

  /** No text is two of these words at once. */
  lemma WordsApart(op: string)
    ensures SameIgnoringCase(op, "on") ==> op != [] && !SameIgnoringCase(op, "off")
    ensures SameIgnoringCase(op, "off") ==> op != [] && !SameIgnoringCase(op, "on")
    ensures SameIgnoringCase(op, "nopass") ==>
              op != [] && !SameIgnoringCase(op, "on") && !SameIgnoringCase(op, "off")
              && !SameIgnoringCase(op, "skip-sanitize-payload") && !SameIgnoringCase(op, "sanitize-payload")
    ensures SameIgnoringCase(op, "resetpass") ==>
              op != [] && !SameIgnoringCase(op, "on") && !SameIgnoringCase(op, "off")
              && !SameIgnoringCase(op, "skip-sanitize-payload") && !SameIgnoringCase(op, "sanitize-payload")
              && !SameIgnoringCase(op, "nopass")
    ensures SameIgnoringCase(op, "skip-sanitize-payload") ==>
              op != [] && !SameIgnoringCase(op, "on") && !SameIgnoringCase(op, "off")
    ensures SameIgnoringCase(op, "sanitize-payload") ==>
              op != [] && !SameIgnoringCase(op, "on") && !SameIgnoringCase(op, "off")
              && !SameIgnoringCase(op, "skip-sanitize-payload")
    ensures SameIgnoringCase(op, "clearselectors") || SameIgnoringCase(op, "reset") ==>
              op != [] && !IsAuthOp(op) && !IsSelectorOp(op)
    ensures SameIgnoringCase(op, "reset") ==> !SameIgnoringCase(op, "clearselectors")
  {
    if SameIgnoringCase(op, "nopass") || SameIgnoringCase(op, "resetpass") { assert Lower(op[1]) in {'o', 'e'}; }
    if SameIgnoringCase(op, "clearselectors") { assert Lower(op[0]) == 'c'; }
    if SameIgnoringCase(op, "reset") { assert Lower(op[0]) == 'r'; }
  }

  // ---------------------------------------------------------------- logging in

  /** Who may log in: an enabled user without passwords needs none, any other needs one of its own. */
  predicate Authenticates(w: Setup, u: User, password: string) {
    u.enabled && (u.nopass || w.hash(password) in u.passwords)
  }

  method CheckUserCredentials(w: Setup, u: User, password: string) returns (ok: bool)
    ensures ok <==> Authenticates(w, u, password)
  {
    if !u.enabled { return false; }
    if u.nopass { return true; }
    var hashed := w.hash(password);
    for i := 0 to |u.passwords|
      invariant hashed !in u.passwords[..i]
    {
      if u.passwords[i] == hashed { return true; }
    }
    return false;
  }

  predicate TurnsOff(op: string) {
    SameIgnoringCase(op, "off") || SameIgnoringCase(op, "reset")
  }

  /** Whatever requires a password again. */
  predicate EndsNopass(op: string) {
    || SameIgnoringCase(op, "resetpass") || SameIgnoringCase(op, "reset")
    || (op != [] && (op[0] == '>' || op[0] == '#'))
  }

  predicate Stores(w: Setup, op: string, h: string) {
    op != [] && (op[0] == '>' || op[0] == '#') && Named(w, op) == h
  }

  predicate Drops(w: Setup, op: string, h: string) {
    || SameIgnoringCase(op, "nopass") || SameIgnoringCase(op, "resetpass") || SameIgnoringCase(op, "reset")
    || (op != [] && (op[0] == '<' || op[0] == '!') && Named(w, op) == h)
  }

  /** What one successful operation makes of the three things a login depends on. */
  lemma LoginStep(w: Setup, u: User, op: string, h: string)
    requires Distinct(u.passwords) && SetUser(w, u, op).Ok?
    ensures var v := SetUser(w, u, op).user;
            && Distinct(v.passwords)
            && (v.enabled <==> SameIgnoringCase(op, "on") || (u.enabled && !TurnsOff(op)))
            && (v.nopass <==> SameIgnoringCase(op, "nopass") || (u.nopass && !EndsNopass(op)))
            && (h in v.passwords <==> Stores(w, op, h) || (h in u.passwords && !Drops(w, op, h)))
  {
    hide SameIgnoringCase, SetUser, Named, Distinct;
    var v := SetUser(w, u, op).user;
    FlagWords(w, u, op);
    ResetWords(w, u, op);
    WordsApart(op);
    OneWord(op);
    NothingTwice();
    if IsPasswordOp(op) {
      PasswordOpIsNoWord(op);
      PasswordStep(w, u, op, h);
    } else {
      OtherOps(w, u, op);
    }
  }

  /** A text that is one of the words is none of the others, and holds no password. */
  lemma OneWord(op: string)
    ensures SameIgnoringCase(op, "on") ==> op[0] !in {'>', '#', '<', '!'} && !EndsNopass(op) && !TurnsOff(op)
    ensures SameIgnoringCase(op, "on") ==> !SameIgnoringCase(op, "nopass")
    ensures SameIgnoringCase(op, "off") ==> !SameIgnoringCase(op, "nopass") && !EndsNopass(op)
    ensures SameIgnoringCase(op, "nopass") ==> !EndsNopass(op) && !TurnsOff(op)
    ensures SameIgnoringCase(op, "resetpass") ==> !TurnsOff(op)
    ensures SameIgnoringCase(op, "skip-sanitize-payload") || SameIgnoringCase(op, "sanitize-payload") ==>
              !EndsNopass(op) && !TurnsOff(op) && !SameIgnoringCase(op, "nopass")
    ensures SameIgnoringCase(op, "clearselectors") ==>
              !EndsNopass(op) && !TurnsOff(op) && !SameIgnoringCase(op, "nopass") && !SameIgnoringCase(op, "on")
    ensures SameIgnoringCase(op, "reset") ==> !SameIgnoringCase(op, "nopass") && !SameIgnoringCase(op, "on")
  {
    if SameIgnoringCase(op, "nopass") { assert Lower(op[0]) == 'n'; }
    if SameIgnoringCase(op, "clearselectors") { assert Lower(op[0]) == 'c'; }
    if SameIgnoringCase(op, "resetpass") { assert Lower(op[0]) == 'r'; }
  }

  lemma NothingTwice()
    ensures Distinct([])
  {
  }

  lemma PasswordStep(w: Setup, u: User, op: string, h: string)
    requires Distinct(u.passwords) && IsPasswordOp(op) && SetUser(w, u, op).Ok?
    ensures var v := SetUser(w, u, op).user;
            && Distinct(v.passwords) && v.enabled == u.enabled
            && v.nopass == (u.nopass && op[0] != '>' && op[0] != '#')
            && (h in v.passwords <==>
                  if op[0] == '>' || op[0] == '#' then h == Named(w, op) || h in u.passwords
                  else h in u.passwords && h != Named(w, op))
  {
    hide SetUser, Named, WellFormed, Without;
    var v := SetUser(w, u, op).user;
    var g := Named(w, op);
    if op[0] == '>' || op[0] == '#' {
      AddsPassword(w, u, op);
      assert v.passwords == u.passwords + if g in u.passwords then [] else [g];
    } else {
      RemovesPassword(w, u, op);
      StillStored(u.passwords, g, v.passwords, h);
      StillDistinct(u.passwords, g, v.passwords);
    }
  }

  lemma StillDistinct(xs: seq<string>, x: string, ys: seq<string>)
    requires Without(xs, x, ys) && Distinct(xs)
    ensures Distinct(ys)
  {
    var i :| 0 <= i <= |ys| && xs == ys[..i] + [x] + ys[i..];
    forall j | 0 <= j < |ys| ensures ys[j] == xs[if j < i then j else j + 1] { }
  }

  /** Selector operations and the remaining words leave the login alone. */
  lemma OtherOps(w: Setup, u: User, op: string)
    requires !IsPasswordOp(op) && SetUser(w, u, op).Ok?
    ensures var v := SetUser(w, u, op).user;
            || SameIgnoringCase(op, "on") || SameIgnoringCase(op, "off") || SameIgnoringCase(op, "nopass")
            || SameIgnoringCase(op, "resetpass") || SameIgnoringCase(op, "reset")
            || (v.enabled == u.enabled && v.nopass == u.nopass && v.passwords == u.passwords)
  {
    hide SameIgnoringCase, SetSelector, ApplyAll, InnerOps;
  }

  /** At some point the answer became yes, and nothing since made it no. */
  ghost predicate Standing(ops: seq<string>, yes: string -> bool, no: string -> bool) {
    exists i :: 0 <= i < |ops| && yes(ops[i]) && forall j :: i < j < |ops| ==> !no(ops[j])
  }

  lemma StandingGrows(ops: seq<string>, op: string, yes: string -> bool, no: string -> bool)
    ensures Standing(ops + [op], yes, no) <==> yes(op) || (Standing(ops, yes, no) && !no(op))
  {
    var all := ops + [op];
    if yes(op) { assert yes(all[|ops|]); }
    if Standing(ops, yes, no) && !no(op) {
      var i :| 0 <= i < |ops| && yes(ops[i]) && forall j :: i < j < |ops| ==> !no(ops[j]);
      assert yes(all[i]) && forall j :: i < j < |all| ==> !no(all[j]);
    }
    if Standing(all, yes, no) && !yes(op) {
      var i :| 0 <= i < |all| && yes(all[i]) && forall j :: i < j < |all| ==> !no(all[j]);
      assert i < |ops| && all[|ops|] == op;
      assert yes(ops[i]) && forall j :: i < j < |ops| ==> !no(ops[j]) by {
        forall j | i < j < |ops| ensures !no(ops[j]) { assert all[j] == ops[j]; }
      }
    }
  }

  function Enabling(): string -> bool { op => SameIgnoringCase(op, "on") }

  function Disabling(): string -> bool { op => TurnsOff(op) }

  function Opening(): string -> bool { op => SameIgnoringCase(op, "nopass") }

  function Closing(): string -> bool { op => EndsNopass(op) }

  function Storing(w: Setup, h: string): string -> bool { op => Stores(w, op, h) }

  function Dropping(w: Setup, h: string): string -> bool { op => Drops(w, op, h) }

  /** A new user after any run of operations, judged by the run alone. */
  lemma {:induction false} UserHistory(w: Setup, ops: seq<string>, h: string)
    requires ApplyUser(w, NewUser(w), ops).Ok?
    ensures var u := ApplyUser(w, NewUser(w), ops).user;
            && Distinct(u.passwords)
            && (u.enabled <==> Standing(ops, Enabling(), Disabling()))
            && (u.nopass <==> Standing(ops, Opening(), Closing()))
            && (h in u.passwords <==> Standing(ops, Storing(w, h), Dropping(w, h)))
    decreases |ops|
  {
    hide SetUser, Standing, Stores, Drops, TurnsOff, EndsNopass, SameIgnoringCase, Distinct;
    if ops == [] {
      NothingStands();
    } else {
      var k := |ops| - 1;
      var before, op := ops[..k], ops[k];
      assert ops == before + [op];
      ApplyUserAppend(w, NewUser(w), before, [op]);
      UserHistory(w, before, h);
      UserApplyOne(w, ApplyUser(w, NewUser(w), before).user, op);
      LoginStep(w, ApplyUser(w, NewUser(w), before).user, op, h);
      StandingGrows(before, op, Enabling(), Disabling());
      StandingGrows(before, op, Opening(), Closing());
      StandingGrows(before, op, Storing(w, h), Dropping(w, h));
    }
  }

  lemma NothingStands()
    ensures Distinct([]) && forall yes, no :: !Standing([], yes, no)
  {
  }

  /** Who can log in after any run of operations on a new user: the user was last switched on, and either
      lost the need for a password since it last got one, or was given that password and not deprived of
      it since. */
  lemma LoginHistory(w: Setup, ops: seq<string>, password: string)
    requires ApplyUser(w, NewUser(w), ops).Ok?
    ensures var h := w.hash(password);
            Authenticates(w, ApplyUser(w, NewUser(w), ops).user, password)
            <==> && Standing(ops, Enabling(), Disabling())
                 && (Standing(ops, Opening(), Closing()) || Standing(ops, Storing(w, h), Dropping(w, h)))
  {
    hide ApplyUser, Standing;
    UserHistory(w, ops, w.hash(password));
  }
}
