/** The retained command rules: a list of tokens kept as one string, from which a rule is removed in
    place (`ACLSelectorRemoveCommandRule`, `ACLUpdateCommandRules`). */
module AclRules {
  import opened Sds

  /** A rule in the string: a sign and a text without spaces. */
  predicate IsRule(t: string) {
    |t| >= 1 && ' ' !in t
  }

  predicate AllRules(ts: seq<string>) {
    forall i :: 0 <= i < |ts| ==> IsRule(ts[i])
  }

  /** A new rule text replaces the same text, and the rules for its subcommands. */
  predicate Replaces(text: string, prior: string) {
    text <= prior && (|prior| == |text| || prior[|text|] == '|')
  }

  /** What stays when a rule with `text` is about to be added. */
  function Keep(ts: seq<string>, text: string): (r: seq<string>)
    requires AllRules(ts)
    ensures AllRules(r)
  {
    if ts == [] then []
    else (if Replaces(text, ts[0][1..]) then [] else [ts[0]]) + Keep(ts[1..], text)
  }

  lemma {:induction false} KeepAppend(xs: seq<string>, ys: seq<string>, text: string)
    requires AllRules(xs) && AllRules(ys)
    ensures Keep(xs + ys, text) == Keep(xs, text) + Keep(ys, text)
  {
    hide Replaces;
    if xs == [] {
      assert xs + ys == ys;
    } else {
      assert (xs + ys)[1..] == xs[1..] + ys;
      KeepAppend(xs[1..], ys, text);
    }
  }

  // ---------------------------------------------------------------- removal in place

  /** Where the text of the first rule ends: at the next space behind its sign, or at the end. */
  function RuleEnd(s: string, from: nat): (i: nat)
    requires from <= |s|
    ensures from <= i <= |s| && ' ' !in s[from..i] && (i < |s| ==> s[i] == ' ')
    decreases |s| - from
  {
    if from == |s| || s[from] == ' ' then from
    else
      var i := RuleEnd(s, from + 1);
      assert s[from..i] == [s[from]] + s[from + 1..i];
      i
  }

  /** What the scan leaves of any string: `kept` is what it has passed, with the space behind each rule. Removing
      the last rule also removes the space before it. */
  function RemovedFrom(kept: string, s: string, text: string): string
    decreases |s|
  {
    if s == [] then kept
    else
      var end := RuleEnd(s, 1);
      if end == |s| then
        (if !Replaces(text, s[1..]) then kept + s else if kept == [] then [] else kept[..|kept| - 1])
      else RemovedFrom(if Replaces(text, s[1..end]) then kept else kept + s[..end + 1], s[end + 1..], text)
  }

  function Removed(s: string, text: string): string {
    RemovedFrom([], s, text)
  }

  method FindSpace(s: string, from: nat) returns (i: nat)
    requires from <= |s|
    ensures i == RuleEnd(s, from)
  {
    i := from;
    while i < |s| && s[i] != ' '
      invariant from <= i <= |s| && RuleEnd(s, from) == RuleEnd(s, i)
    {
      i := i + 1;
    }
  }

  lemma EndShifts(p: string, s: string, from: nat)
    requires from <= |s|
    ensures RuleEnd(p + s, |p| + from) == |p| + RuleEnd(s, from)
    decreases |s| - from
  {
    if from < |s| {
      assert (p + s)[|p| + from] == s[from];
      if s[from] != ' ' { EndShifts(p, s, from + 1); }
    }
  }

  lemma ScanUnfolds(p: string, r: string, text: string)
    requires r != []
    ensures var end := RuleEnd(r, 1);
            RemovedFrom(p, r, text)
            == if end < |r| then
                 RemovedFrom(if Replaces(text, r[1..end]) then p else p + r[..end + 1], r[end + 1..], text)
               else if !Replaces(text, r[1..]) then p + r else if p == [] then [] else p[..|p| - 1]
  {
    hide Replaces, RuleEnd;
  }

  /** One step of the scan, at position `e` of the string. */
  lemma ScanStep(s: string, e: nat, end: nat, text: string)
    requires e < |s| && end == RuleEnd(s, e + 1)
    ensures RemovedFrom(s[..e], s[e..], text)
            == if end < |s| then
                 RemovedFrom(if Replaces(text, s[e + 1..end]) then s[..e] else s[..end + 1], s[end + 1..], text)
               else if !Replaces(text, s[e + 1..end]) then s else if e == 0 then [] else s[..e - 1]
  {
    hide Replaces, RuleEnd, RemovedFrom;
    var p, r := s[..e], s[e..];
    assert s == p + r;
    EndShifts(p, r, 1);
    ScanUnfolds(p, r, text);
    assert s[e + 1..end] == r[1..end - e];
    if end < |s| {
      assert s[..end + 1] == p + r[..end - e + 1] && s[end + 1..] == r[end - e + 1..];
    } else {
      assert r[1..end - e] == r[1..];
      if e > 0 { assert p[..e - 1] == s[..e - 1]; }
    }
  }

  lemma ScanEnds(s: string, text: string)
    ensures RemovedFrom(s[..|s|], s[|s|..], text) == s
  {
  }

  /** Scans the string and copies the later rules over each rule that is replaced. */
  method RemoveCommandRule(rules: string, text: string) returns (s: string)
    ensures s == Removed(rules, text)
  {
    hide Replaces, RuleEnd, RemovedFrom;
    s := rules;
    var e := 0;
    assert rules[..0] == [] && rules[0..] == rules;
    while e < |s|
      invariant 0 <= e <= |s| && RemovedFrom(s[..e], s[e..], text) == Removed(rules, text)
      decreases |s| - e
    {
      var copyTo := e;
      var end := FindSpace(s, e + 1);
      ScanStep(s, e, end, text);
      var copyFrom := if end < |s| then end + 1 else end;
      if end == |s| && copyTo != 0 { copyTo := copyTo - 1; }
      if IsReplaced(text, s[e + 1..end]) {
        ghost var before := s;
        s := s[..copyTo] + s[copyFrom..];
        e := copyTo;
        assert s[..e] == before[..e] && s[e..] == before[copyFrom..];
      } else {
        e := copyFrom;
      }
      if end == |s| || e == |s| { ScanEnds(s, text); }
    }
    ScanEnds(s, text);
  }

  /** The test of the C code: equal up to the shorter length, and the same length or a bar next. */
  predicate IsReplaced(text: string, existing: string)
    ensures IsReplaced(text, existing) == Replaces(text, existing)
  {
    var n := if |existing| < |text| then |existing| else |text|;
    existing[..n] == text[..n] && (|existing| == |text| || (|existing| > |text| && existing[|text|] == '|'))
  }

  // ---------------------------------------------------------------- what the removal means

  /** The rules that the scan has passed, each with the space behind it. */
  function Passed(kept: seq<string>): string {
    if kept == [] then [] else Join(kept) + " "
  }

  lemma FirstRule(t: string, more: seq<string>)
    requires IsRule(t)
    ensures var s := Join([t] + more);
            && s != [] && RuleEnd(s, 1) == |t| && (more == [] ==> s == t)
            && (more != [] ==> |t| < |s| && s[..|t| + 1] == t + " " && s[|t| + 1..] == Join(more))
            && s[1..|t|] == t[1..]
  {
    hide RuleEnd;
    var s := Join([t] + more);
    assert ([t] + more)[1..] == more;
    if more == [] {
      assert [t] + more == [t];
    } else {
      assert s == t + " " + Join(more);
    }
    EndIs(s, 1, |t|);
  }

  lemma EndIs(s: string, from: nat, end: nat)
    requires from <= end <= |s| && (forall i :: from <= i < end ==> s[i] != ' ') && (end < |s| ==> s[end] == ' ')
    ensures RuleEnd(s, from) == end
    decreases end - from
  {
    if from < end { EndIs(s, from + 1, end); }
  }

  lemma JoinNonEmpty(ts: seq<string>)
    requires ts != [] && AllRules(ts)
    ensures Join(ts) != []
  {
  }

  lemma ScanOne(p: string, t: string, more: seq<string>, text: string)
    requires IsRule(t)
    ensures RemovedFrom(p, Join([t] + more), text)
            == if more != [] then RemovedFrom(if Replaces(text, t[1..]) then p else p + (t + " "), Join(more), text)
               else if !Replaces(text, t[1..]) then p + t else if p == [] then [] else p[..|p| - 1]
  {
    hide Replaces, RuleEnd, Join;
    FirstRule(t, more);
    assert t[1..|t|] == t[1..];
  }

  lemma {:induction false} ScanFilters(kept: seq<string>, rest: seq<string>, text: string)
    requires AllRules(kept) && AllRules(rest) && rest != []
    ensures RemovedFrom(Passed(kept), Join(rest), text) == Join(kept + Keep(rest, text))
    decreases |rest|
  {
    hide Replaces, RemovedFrom, Join, Keep, Passed;
    var t, more := rest[0], rest[1..];
    assert rest == [t] + more;
    ScanOne(Passed(kept), t, more, text);
    PassOne(kept, t);
    KeepAppend([t], more, text);
    KeepOne(t, text);
    if more == [] {
      KeepNothing(text);
      LastRule(kept, t, text);
    } else if Replaces(text, t[1..]) {
      ScanFilters(kept, more, text);
      assert [] + Keep(more, text) == Keep(more, text);
    } else {
      ScanFilters(kept + [t], more, text);
      assert (kept + [t]) + Keep(more, text) == kept + ([t] + Keep(more, text));
    }
  }

  lemma PassOne(kept: seq<string>, t: string)
    ensures Passed(kept + [t]) == Passed(kept) + (t + " ")
    ensures Passed(kept) + t == Join(kept + [t])
  {
    if kept == [] {
      assert kept + [t] == [t];
    } else {
      JoinAppend(kept, [t]);
    }
  }

  lemma LastRule(kept: seq<string>, t: string, text: string)
    requires AllRules(kept) && IsRule(t)
    ensures (if Passed(kept) == [] then [] else Passed(kept)[..|Passed(kept)| - 1]) == Join(kept + [])
    ensures Keep([t], text) + [] == Keep([t], text)
  {
    assert kept + [] == kept;
    if kept != [] { assert (Join(kept) + " ")[..|Join(kept)|] == Join(kept); }
  }

  /** On a string of rules without spaces the removal is a filter on their list. */
  lemma RemovedIsFilter(ts: seq<string>, text: string)
    requires AllRules(ts)
    ensures Removed(Join(ts), text) == Join(Keep(ts, text))
  {
    hide RemovedFrom, Join, Keep;
    JoinNothing();
    KeepNothing(text);
    if ts == [] {
      assert RemovedFrom([], [], text) == [] by { NothingRemoved(text); }
    } else {
      ScanFilters([], ts, text);
      assert [] + Keep(ts, text) == Keep(ts, text);
    }
  }

  lemma NothingRemoved(text: string)
    ensures RemovedFrom([], [], text) == []
  {
  }

  /** The rules that stay, for any list. Once an operation has put a space into a rule, the rules are no longer
      told apart, and what is left of their string counts as one. */
  function Pruned(ts: seq<string>, text: string): seq<string> {
    if AllRules(ts) then Keep(ts, text)
    else
      var s := Removed(Join(ts), text);
      if s == [] then [] else [s]
  }

  lemma PrunedText(ts: seq<string>, text: string)
    ensures Join(Pruned(ts, text)) == Removed(Join(ts), text)
  {
    if AllRules(ts) { RemovedIsFilter(ts, text); }
  }

  lemma PrunedEmpty(ts: seq<string>, text: string)
    ensures Pruned(ts, text) == [] <==> Removed(Join(ts), text) == []
  {
    hide Removed, Join;
    PrunedText(ts, text);
    JoinNothing();
    if AllRules(ts) && Pruned(ts, text) != [] { JoinNonEmpty(Pruned(ts, text)); }
  }

  lemma JoinNothing()
    ensures Join([]) == ""
  {
  }

  lemma KeepNothing(text: string)
    ensures Keep([], text) == []
  {
  }

  lemma KeepOne(t: string, text: string)
    requires IsRule(t)
    ensures Keep([t], text) == if Replaces(text, t[1..]) then [] else [t]
  {
    assert [t][1..] == [];
  }

  /** Adding a rule: lower case, replace what it covers, put it last. */
  method UpdateCommandRules(rules: string, rule: string, allow: bool, ghost ts: seq<string>) returns (s: string)
    requires rules == Join(ts)
    ensures s == Join(Pruned(ts, ToLower(rule)) + [(if allow then "+" else "-") + ToLower(rule)])
  {
    hide Removed, Pruned;
    var text := ToLower(rule);
    s := RemoveCommandRule(rules, text);
    ghost var kept := Pruned(ts, text);
    PrunedText(ts, text);
    PrunedEmpty(ts, text);
    if |s| > 0 { s := s + " "; }
    s := s + (if allow then "+" else "-") + text;
    if kept == [] {
      assert kept + [(if allow then "+" else "-") + text] == [(if allow then "+" else "-") + text];
    } else {
      JoinAppend(kept, [(if allow then "+" else "-") + text]);
    }
  }

  // ---------------------------------------------------------------- reading back

  lemma {:induction false} SplitJoined(ts: seq<string>)
    requires forall i :: 0 <= i < |ts| ==> IsWord(ts[i])
    ensures SplitArgs(Join(ts)) == Split(ts)
  {
    hide IsWord, ReadToken;
    if |ts| == 1 {
      SplitWord(ts[0], []);
      assert ts[0] + [] == ts[0];
    } else if |ts| > 1 {
      var tail := " " + Join(ts[1..]);
      SplitJoined(ts[1..]);
      assert tail[1..] == Join(ts[1..]);
      SplitWord(ts[0], tail);
      assert Join(ts) == ts[0] + tail;
    }
  }
}
