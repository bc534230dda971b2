/** Whole users: when a printed user is read back as it was. */
module AclRoundTrip {
  import opened Sds
  import opened AclRules
  import opened AclSelector
  import opened AclReplay
  import opened AclUser
  import opened AclDescribe
  import opened AclSplit

  ghost predicate SameUser(w: Setup, a: User, b: User) {
    && a.enabled == b.enabled && a.nopass == b.nopass && a.skipSanitize == b.skipSanitize && a.passwords == b.passwords
    && SameSelector(w.t, a.root, b.root)
    && SameSelectors(w.t, a.others, b.others)
  }

  lemma ParenthesesOp(w: Setup, u: User, ops: seq<string>)
    ensures var op := "(" + Join(ops) + ")";
            var r := ApplyAll(w.t, NewSelector(w.channelsByDefault), InnerOps(op));
            SetUser(w, u, op) == if r.Failed? then SelectorError(r.errno) else Ok(u.(others := u.others + [r.sel]))
  {
    hide SetSelector, ApplyAll, ValidHash, Reset, SetAuth, SameIgnoringCase, Join, InnerOps, NewSelector;
    var op := "(" + Join(ops) + ")";
    OtherWord(op, "on");
    OtherWord(op, "off");
    OtherWord(op, "nopass");
    OtherWord(op, "resetpass");
    OtherWord(op, "skip-sanitize-payload");
    OtherWord(op, "sanitize-payload");
  }

  ghost predicate SameSelectors(t: Table, ss: seq<Selector>, os: seq<Selector>) {
    |ss| == |os| && forall i :: 0 <= i < |ss| ==> SameSelector(t, ss[i], os[i])
  }

  predicate NoStars(ss: seq<Selector>) {
    forall i :: 0 <= i < |ss| ==> NoStar(ss[i])
  }

  lemma SameSelectorsCons(t: Table, ss: seq<Selector>, s: Selector, os: seq<Selector>)
    requires ss != []
    ensures SameSelectors(t, ss, [s] + os) <==> SameSelector(t, ss[0], s) && SameSelectors(t, ss[1..], os)
    ensures NoStars(ss) <==> NoStar(ss[0]) && NoStars(ss[1..])
  {
    hide SameSelector, NoStar;
    var all := [s] + os;
    assert all[0] == s && (forall i :: 1 <= i < |all| ==> all[i] == os[i - 1]);
    assert forall i :: 1 <= i < |ss| ==> ss[i] == ss[1..][i - 1];
    if SameSelectors(t, ss, all) {
      forall i | 0 <= i < |os| ensures SameSelector(t, ss[1..][i], os[i]) {
        assert ss[1..][i] == ss[i + 1] && os[i] == all[i + 1];
      }
    }
  }

  predicate AllSplittable(ss: seq<Selector>) {
    forall i :: 0 <= i < |ss| ==> Splittable(ss[i])
  }

  lemma AllSplittableCons(ss: seq<Selector>)
    requires ss != []
    ensures AllSplittable(ss) <==> Splittable(ss[0]) && AllSplittable(ss[1..])
  {
    hide Splittable;
    assert forall i :: 1 <= i < |ss| ==> ss[i] == ss[1..][i - 1];
    if Splittable(ss[0]) && AllSplittable(ss[1..]) {
      forall i | 0 <= i < |ss| ensures Splittable(ss[i]) { if i > 0 { assert Splittable(ss[1..][i - 1]); } }
    }
    if AllSplittable(ss) {
      forall i | 0 <= i < |ss[1..]| ensures Splittable(ss[1..][i]) { assert ss[1..][i] == ss[i + 1]; }
    }
  }

  /** One selector in parentheses is read back exactly when it holds no "*" with both permissions and
      prints as plain words. */
  lemma OtherRestoredIff(t: Table, byDefault: bool, sel: Selector)
    requires ValidTable(t) && SelectorInv(t, sel)
    ensures var r := ApplyAll(t, NewSelector(byDefault), InnerOps("(" + Join(DescribeSelector(sel)) + ")"));
            (r.Done? && SameSelector(t, sel, r.sel)) <==> NoStar(sel) && Splittable(sel)
  {
    hide SelectorInv, NoStar, SameSelector, ApplyAll, DescribeSelector, Join, IsWord, NewSelector, SplitArgs;
    hide ValidTable;
    if Splittable(sel) {
      NewIsBlank(byDefault);
      SelectorRoundTripIff(t, NewSelector(byDefault), sel);
      var text := Join(DescribeSelector(sel));
      var op := "(" + text + ")";
      assert op[1..|op| - 1] == text;
      SplitJoined(DescribeSelector(sel));
    } else {
      SelectorInvParts(t, sel);
      SplittableMeans(t, sel);
      NotRestored(t, byDefault, sel);
    }
  }

  /** Reading back the selectors in parentheses. */
  lemma {:induction false} OthersApplied(w: Setup, u: User, ss: seq<Selector>) returns (os: seq<Selector>)
    requires ValidTable(w.t)
    requires forall i :: 0 <= i < |ss| ==> SelectorInv(w.t, ss[i])
    ensures var r := ApplyUser(w, u, SelectorTokens(ss));
            && (r.Ok? ==> r == Ok(u.(others := u.others + os)))
            && ((r.Ok? && SameSelectors(w.t, ss, os)) <==> NoStars(ss) && AllSplittable(ss))
    decreases |ss|
  {
    hide SetUser, SelectorInv, NoStar, SameSelector, ApplyAll, DescribeSelector, Join, NewSelector, SameSelectors;
    hide NoStars;
    hide Splittable, AllSplittable, InnerOps, ValidTable;
    os := [];
    if ss == [] {
      assert u.others + os == u.others;
      NoSelectors(w.t);
    } else {
      var start := NewSelector(w.channelsByDefault);
      OtherRestoredIff(w.t, w.channelsByDefault, ss[0]);
      ParenthesesOp(w, u, DescribeSelector(ss[0]));
      var r := ApplyAll(w.t, start, InnerOps("(" + Join(DescribeSelector(ss[0])) + ")"));
      if r.Done? {
        var u1 := u.(others := u.others + [r.sel]);
        var rest := OthersApplied(w, u1, ss[1..]);
        os := [r.sel] + rest;
        assert u1.others + rest == u.others + os;
      }
      SameSelectorsCons(w.t, ss, if r.Done? then r.sel else start, if r.Done? then os[1..] else []);
      AllSplittableCons(ss);
      assert SelectorTokens(ss)[1..] == SelectorTokens(ss[1..]);
    }
  }

  lemma NoSelectors(t: Table)
    ensures SameSelectors(t, [], []) && NoStars([]) && AllSplittable([])
  {
  }

  /** Describing a user and applying the description to a new user restores it, exactly when no
      stored key pattern is "*" with both permissions and the selectors in parentheses store no quotes and
      no blanks. */
  lemma UserRoundTripIff(w: Setup, u: User)
    requires ValidSetup(w) && UserInv(w, u)
    ensures var r := ApplyUser(w, NewUser(w), DescribeUser(u));
            (r.Ok? && SameUser(w, u, r.user)) <==> (NoStar(u.root) && NoStars(u.others) && AllSplittable(u.others))
  {
    hide ApplyUser, FlagTokens, PasswordTokens, DescribeSelector, SelectorTokens, SelectorInv, NoStar, SameSelector;
    hide AllSplittable, ApplyAll, ValidHash, Distinct, NewSelector, SameSelectors, NoStars;
    var u0 := NewUser(w);
    NewIsBlank(w.channelsByDefault);
    FlagsApplied(w, u0, u);
    var u1 := u0.(enabled := u.enabled, nopass := u.nopass, skipSanitize := u.skipSanitize);
    assert u1.passwords + u.passwords == u.passwords;
    PasswordsApplied(w, u1, u.passwords);
    var u2 := u1.(passwords := u.passwords);
    PartsPrinted(w.t, u.root);
    RootApplied(w, u2, DescribeSelector(u.root));
    SelectorRoundTripIff(w.t, u2.root, u.root);
    ApplyUserAppend(w, u0, FlagTokens(u), PasswordTokens(u.passwords));
    ApplyUserAppend(w, u0, FlagTokens(u) + PasswordTokens(u.passwords), DescribeSelector(u.root));
    ApplyUserAppend(w, u0, FlagTokens(u) + PasswordTokens(u.passwords) + DescribeSelector(u.root),
                    SelectorTokens(u.others));
    var r := ApplyAll(w.t, u2.root, DescribeSelector(u.root));
    if r.Done? {
      var u3 := u2.(root := r.sel);
      NewSelectorInv(w.t, w.channelsByDefault);
      DescribedRules(w.t, u2.root, u.root);
      var os := OthersApplied(w, u3, u.others);
      assert u3.others + os == os;
    }
  }

  /** The same for every user that operations can make. */
  lemma EveryUserRoundTrips(w: Setup, ops: seq<string>)
    requires ValidSetup(w) && (forall i :: 0 <= i < |ops| ==> TidyUserOp(ops[i])) && ApplyUser(w, NewUser(w), ops).Ok?
    ensures var u := ApplyUser(w, NewUser(w), ops).user;
            var r := ApplyUser(w, NewUser(w), DescribeUser(u));
            (r.Ok? && SameUser(w, u, r.user)) <==> (NoStar(u.root) && NoStars(u.others) && AllSplittable(u.others))
  {
    hide ApplyUser, TidyUserOp, AllSplittable, SameUser, NoStar, NoStars, DescribeUser, NewUser;
    NewUserInv(w);
    UserRunKeepsInv(w, NewUser(w), ops);
    UserRoundTripIff(w, ApplyUser(w, NewUser(w), ops).user);
  }

  // ---------------------------------------------------------------- a user that is not restored

  lemma {:induction false} NeverClosed(s: string, cur: string)
    requires '"' !in s && '\\' !in s
    ensures ReadToken(s, Double, cur) == TokenError
    decreases |s|
  {
    if s != [] { NeverClosed(s[1..], cur + [s[0]]); }
  }

  /** The pattern `a"b`, quoted as it has to be inside parentheses. */
  const QUOTED := "~\"a\\\"b\""

  /** Inside the quotes an escaped quote is read as the quote itself. */
  lemma InsideQuotes()
    ensures ReadToken("a\\\"b\"", Double, "~") == Token("~a\"b", "")
  {
    assert "a\\\"b\""[1..] == "\\\"b\"" && "\\\"b\""[2..] == "b\"" && "b\""[1..] == "\"" && "\""[1..] == "";
    assert ReadToken("\"", Double, "~a\"b") == Token("~a\"b", "");
    assert ReadToken("b\"", Double, "~a\"") == ReadToken("\"", Double, "~a\"" + "b");
    assert ReadToken("\\\"b\"", Double, "~a") == ReadToken("b\"", Double, "~a" + "\"");
    assert ReadToken("a\\\"b\"", Double, "~") == ReadToken("\\\"b\"", Double, "~" + "a");
  }

  lemma QuotedReads()
    ensures SplitArgs(QUOTED) == Split(["~a\"b"])
  {
    var s := QUOTED;
    var t := s[1..];
    assert t == "\"a\\\"b\"" && t[1..] == "a\\\"b\"";
    InsideQuotes();
    assert ReadToken(t, Bare, "~") == ReadToken(t[1..], Double, "~");
    assert ReadToken(s, Bare, "") == ReadToken(t, Bare, "" + "~");
    assert SplitArgs("") == Split([]);
    assert ReadToken(s, Bare, "") == Token("~a\"b", "");
    assert ["~a\"b"] + [] == ["~a\"b"];
  }

  lemma PrintedIsLost(sel: Selector, tail: seq<string>)
    requires sel.patterns == [KeyPattern("a\"b", true, true)] && !sel.allKeys
    requires DescribeSelector(sel) == ["~a\"b"] + tail && tail != [] && '"' !in Join(tail) && '\\' !in Join(tail)
    ensures SplitArgs(Join(DescribeSelector(sel))).SplitError?
  {
    hide ReadToken, DescribeSelector, Join;
    JoinCons("~a\"b", tail);
    var rest := "b" + TailText(tail);
    var s := Join(DescribeSelector(sel));
    assert s == "~a" + ("\"" + rest);
    ReadBare("~a", "\"" + rest, "");
    assert "" + "~a" == "~a";
    OpensQuote(rest, "~a");
    NeverClosed(rest, "~a");
    assert s[0] == '~';
  }

  lemma OpensQuote(rest: string, cur: string)
    ensures ReadToken("\"" + rest, Bare, cur) == ReadToken(rest, Double, cur)
  {
    assert ("\"" + rest)[1..] == rest;
  }

  lemma PatternStored(t: Table, start: Selector)
    requires !start.allKeys && start.patterns == []
    ensures ApplyAll(t, start, ["~a\"b"]) == Done(start.(patterns := [KeyPattern("a\"b", true, true)]))
  {
    hide SameIgnoringCase;
    var op := "~a\"b";
    NotThese(op);
    assert op[1..] == "a\"b";
    assert !SameIgnoringCase(op, "~*") by { DifferentLength(op, "~*"); }
    assert SetKeys(start, op) == Done(start.(patterns := [] + [KeyPattern("a\"b", true, true)]));
    assert [op][1..] == [];
    assert ApplyAll(t, SetSelector(t, start, op).sel, []).Done?;
  }

  lemma DifferentLength(a: string, b: string)
    requires |a| != |b|
    ensures !SameIgnoringCase(a, b)
  {
  }

  lemma OneOp(w: Setup, u: User, op: string)
    ensures ApplyUser(w, u, [op]) == SetUser(w, u, op)
  {
    hide SetUser;
    assert [op][1..] == [];
    var r := SetUser(w, u, op);
    if r.Ok? { assert ApplyUser(w, r.user, []) == Ok(r.user); }
  }

  lemma QuotedDescription(byDefault: bool, sel: Selector)
    requires sel == NewSelector(byDefault).(patterns := [KeyPattern("a\"b", true, true)])
    ensures SplitArgs(Join(DescribeSelector(sel))).SplitError? && !Splittable(sel)
  {
    hide IsWord, SplitArgs, Join;
    var tail := [if byDefault then "&*" else "resetchannels", "-@all"];
    var p := sel.patterns[0];
    assert PatternToken(p) == "~a\"b";
    assert sel.patterns[1..] == [] && PatternTokens(sel.patterns) == ["~a\"b"];
    assert ChannelTokens(sel.channels) == [];
    assert DescribeSelector(sel) == ["~a\"b"] + tail;
    TailIsPlain(byDefault, tail);
    PrintedIsLost(sel, tail);
    assert DescribeSelector(sel)[0] == "~a\"b";
    assert !IsWord("~a\"b") by { NotAWord(); }
  }

  lemma TailIsPlain(byDefault: bool, tail: seq<string>)
    requires tail == [if byDefault then "&*" else "resetchannels", "-@all"]
    ensures '"' !in Join(tail) && '\\' !in Join(tail)
  {
    assert tail[1..] == ["-@all"];
    assert Join(tail) == tail[0] + " " + "-@all";
  }

  lemma NotAWord()
    ensures !IsWord("~a\"b")
  {
    var s := "~a\"b";
    assert s[2] == '"';
  }

  /** A failing user: its further selector stores the pattern `a"b`. The printed selector is accepted, and
      the one that comes back grants nothing. */
  lemma QuotedPatternIsLost(w: Setup)
    requires ValidSetup(w)
    ensures var start := NewSelector(w.channelsByDefault);
            var u := NewUser(w).(others := [start.(patterns := [KeyPattern("a\"b", true, true)])]);
            && ApplyUser(w, NewUser(w), ["(" + QUOTED + ")"]) == Ok(u)
            && ApplyUser(w, NewUser(w), SelectorTokens(u.others)) == Ok(NewUser(w).(others := [start]))
            && (var r := ApplyUser(w, NewUser(w), DescribeUser(u)); !(r.Ok? && SameUser(w, u, r.user)))
  {
    hide SetUser, ApplyAll, DescribeSelector, Join, SplitArgs, SameUser, DescribeUser, ApplyUser, Splittable;
    hide ValidSetup;
    var start := NewSelector(w.channelsByDefault);
    var sel := start.(patterns := [KeyPattern("a\"b", true, true)]);
    var u0 := NewUser(w);
    var u := u0.(others := [sel]);
    var op := "(" + QUOTED + ")";
    assert Join([QUOTED])
           == QUOTED by { JoinCons(QUOTED, []); assert [QUOTED] + [] == [QUOTED] && QUOTED + "" == QUOTED; }
    OneOp(w, u0, op);
    ParenthesesOp(w, u0, [QUOTED]);
    QuotedReads();
    assert op[1..|op| - 1] == QUOTED;
    PatternStored(w.t, start);
    assert u0.others + [sel] == [sel];
    QuotedDescription(w.channelsByDefault, sel);
    var text := Join(DescribeSelector(sel));
    var printed := "(" + text + ")";
    assert printed[1..|printed| - 1] == text;
    assert SelectorTokens(u.others) == [printed] by { assert u.others[1..] == []; }
    OneOp(w, u0, printed);
    ParenthesesOp(w, u0, DescribeSelector(sel));
    assert ApplyAll(w.t, start, []) == Done(start) by { NothingApplies(w.t, start); }
    assert u0.others + [start] == [start];
    QuotedOpIsTidy(op);
    assert [op][0] == op;
    EveryUserRoundTrips(w, [op]);
    assert !AllSplittable(u.others) by { assert !Splittable(u.others[0]); }
  }

  lemma NothingApplies(t: Table, start: Selector)
    ensures ApplyAll(t, start, []) == Done(start)
  {
  }

  lemma QuotedOpIsTidy(op: string)
    requires op == "(" + QUOTED + ")"
    ensures TidyUserOp(op)
  {
    hide SplitArgs, SameIgnoringCase;
    QuotedReads();
    assert op[1..|op| - 1] == QUOTED;
    assert InnerOps(op) == ["~a\"b"];
  }
}
