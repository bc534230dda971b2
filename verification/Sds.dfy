/** String quoting and splitting from sds.c: `sdsneedsrepr`, `sdscatrepr` and `sdssplitargs`. */
module Sds {
  import opened Decimal

  /** A C string of bytes, without the terminating zero. */
  predicate IsBytes(s: string) {
    forall i :: 0 <= i < |s| ==> 0 < s[i] as int < 256
  }

  predicate IsPrint(c: char) {
    ' ' <= c <= '~'
  }

  const BELL := 7 as char
  const BACKSPACE := 8 as char

  predicate NeedsRepr(s: string) {
    exists i :: 0 <= i < |s| && (s[i] == '\\' || s[i] == '"' || !IsPrint(s[i]) || IsSpace(s[i]))
  }

  function HexDigit(d: nat): char
    requires d < 16
  {
    if d < 10 then ('0' as int + d) as char else ('a' as int + d - 10) as char
  }

  predicate IsHex(c: char) {
    '0' <= c <= '9' || 'a' <= c <= 'f' || 'A' <= c <= 'F'
  }

  function HexValue(c: char): (v: nat)
    requires IsHex(c)
    ensures v < 16
  {
    if c <= '9' then c as int - '0' as int
    else if c <= 'F' then c as int - 'A' as int + 10
    else c as int - 'a' as int + 10
  }

  function QuoteChar(c: char): string {
    if c == '\\' || c == '"' then ['\\', c]
    else if c == '\n' then "\\n"
    else if c == '\r' then "\\r"
    else if c == '\t' then "\\t"
    else if c == BELL then "\\a"
    else if c == BACKSPACE then "\\b"
    else if IsPrint(c) then [c]
    else "\\x" + [HexDigit(c as int / 16 % 16), HexDigit(c as int % 16)]
  }

  function QuoteBody(s: string): string {
    if s == [] then "" else QuoteChar(s[0]) + QuoteBody(s[1..])
  }

  function Quote(s: string): string {
    "\"" + QuoteBody(s) + "\""
  }

  method CatRepr(dst: string, s: string) returns (out: string)
    ensures out == dst + Quote(s)
  {
    hide QuoteChar;
    out := dst + "\"";
    for i := 0 to |s|
      invariant out == dst + ("\"" + QuoteBody(s[..i]))
    {
      out := out + QuoteChar(s[i]);
      assert s[..i + 1] == s[..i] + [s[i]];
      QuoteBodyGrows(s[..i], s[i]);
    }
    assert s[..|s|] == s;
    out := out + "\"";
  }

  lemma {:induction false} QuoteBodyGrows(s: string, c: char)
    ensures QuoteBody(s + [c]) == QuoteBody(s) + QuoteChar(c)
  {
    hide QuoteChar;
    if s == [] {
      assert s + [c] == [c];
      assert QuoteBody([c]) == QuoteChar(c) + QuoteBody([]);
    } else {
      assert (s + [c])[1..] == s[1..] + [c];
      QuoteBodyGrows(s[1..], c);
    }
  }

  // ---------------------------------------------------------------- case

  function Lower(c: char): char {
    if 'A' <= c <= 'Z' then (c as int + 32) as char else c
  }

  function ToLower(s: string): (r: string)
    ensures |r| == |s| && forall i :: 0 <= i < |s| ==> r[i] == Lower(s[i])
  {
    seq(|s|, i requires 0 <= i < |s| => Lower(s[i]))
  }

  predicate SameIgnoringCase(a: string, b: string) {
    |a| == |b| && forall i :: 0 <= i < |a| ==> Lower(a[i]) == Lower(b[i])
  }

  lemma SameIffLower(a: string, b: string)
    ensures SameIgnoringCase(a, b) <==> ToLower(a) == ToLower(b)
  {
    if ToLower(a) == ToLower(b) {
      forall i | 0 <= i < |a| ensures Lower(a[i]) == Lower(b[i]) {
        assert ToLower(a)[i] == ToLower(b)[i];
      }
    }
  }

  // ---------------------------------------------------------------- splitting

  datatype Mode = Bare | Double | Single

  datatype Token = Token(text: string, rest: string) | TokenError

  function Unescape(c: char): char {
    match c
    case 'n' => '\n'
    case 'r' => '\r'
    case 't' => '\t'
    case 'b' => BACKSPACE
    case 'a' => BELL
    case _ => c
  }

  predicate IsHexEscape(s: string) {
    |s| >= 4 && s[0] == '\\' && s[1] == 'x' && IsHex(s[2]) && IsHex(s[3])
  }

  /** A closing quote must be followed by white space or by nothing. */
  predicate ClosesWell(s: string) {
    |s| == 1 || (|s| > 1 && IsSpace(s[1]))
  }

  /** One argument, from the point where `cur` has been collected. */
  function ReadToken(s: string, mode: Mode, cur: string): (t: Token)
    ensures t.Token? ==> |t.rest| <= |s|
    ensures t.Token? && s != [] ==> |t.rest| < |s|
    decreases |s|
  {
    if s == [] then (if mode == Bare then Token(cur, []) else TokenError)
    else
      match mode
      case Double =>
        if IsHexEscape(s) then
          ReadToken(s[4..], Double, cur + [(HexValue(s[2]) * 16 + HexValue(s[3])) as char])
        else if s[0] == '\\' && |s| > 1 then ReadToken(s[2..], Double, cur + [Unescape(s[1])])
        else if s[0] == '"' then (if ClosesWell(s) then Token(cur, s[1..]) else TokenError)
        else ReadToken(s[1..], Double, cur + [s[0]])
      case Single =>
        if s[0] == '\\' && |s| > 1 && s[1] == '\'' then ReadToken(s[2..], Single, cur + "'")
        else if s[0] == '\'' then (if ClosesWell(s) then Token(cur, s[1..]) else TokenError)
        else ReadToken(s[1..], Single, cur + [s[0]])
      case Bare =>
        if s[0] == ' ' || s[0] == '\n' || s[0] == '\r' || s[0] == '\t' then Token(cur, s[1..])
        else if s[0] == '"' then ReadToken(s[1..], Double, cur)
        else if s[0] == '\'' then ReadToken(s[1..], Single, cur)
        else ReadToken(s[1..], Bare, cur + [s[0]])
  }

  datatype Split = Split(argv: seq<string>) | SplitError

  function SplitArgs(s: string): Split
    decreases |s|
  {
    if s == [] then Split([])
    else if IsSpace(s[0]) then SplitArgs(s[1..])
    else
      match ReadToken(s, Bare, "")
      case TokenError => SplitError
      case Token(text, rest) =>
        var more := SplitArgs(rest);
        if more.SplitError? then SplitError else Split([text] + more.argv)
  }

  // ---------------------------------------------------------------- round trips

  /** Nothing that ends a bare argument or opens a quote. */
  predicate IsBare(s: string) {
    forall i :: 0 <= i < |s| ==> s[i] !in {' ', '\n', '\r', '\t', '"', '\''}
  }

  /** A word that `sdssplitargs` reads as it stands. */
  predicate IsWord(s: string) {
    s != [] && !IsSpace(s[0]) && IsBare(s)
  }

  lemma {:induction false} ReadWord(w: string, rest: string, cur: string)
    requires IsBare(w)
    requires rest == [] || rest[0] == ' '
    ensures ReadToken(w + rest, Bare, cur) == Token(cur + w, if rest == [] then [] else rest[1..])
    decreases |w|
  {
    if w == [] {
      assert w + rest == rest && cur + w == cur;
    } else {
      assert (w + rest)[0] == w[0] && (w + rest)[1..] == w[1..] + rest;
      ReadWord(w[1..], rest, cur + [w[0]]);
      assert cur + [w[0]] + w[1..] == cur + w;
    }
  }

  lemma SplitWord(w: string, rest: string)
    requires IsWord(w) && (rest == [] || rest[0] == ' ')
    ensures var more := SplitArgs(rest);
            SplitArgs(w + rest) == if more.SplitError? then SplitError else Split([w] + more.argv)
  {
    ReadWord(w, rest, "");
    assert (w + rest)[0] == w[0];
    assert "" + w == w;
    if rest != [] {
      assert SplitArgs(rest) == SplitArgs(rest[1..]);
    }
  }

  lemma HexRoundTrip(c: char)
    requires 0 < c as int < 256
    ensures var hi, lo := HexDigit(c as int / 16 % 16), HexDigit(c as int % 16);
            IsHex(hi) && IsHex(lo) && (HexValue(hi) * 16 + HexValue(lo)) as char == c
  {
  }

  /** One quoted character, followed by anything, is read back as that character. */
  lemma ReadQuotedChar(c: char, rest: string, cur: string)
    requires 0 < c as int < 256
    ensures ReadToken(QuoteChar(c) + rest, Double, cur) == ReadToken(rest, Double, cur + [c])
  {
    hide ReadToken, Unescape;
    var q := QuoteChar(c);
    if |q| == 1 {
      ReadPlainChar(c, rest, cur);
    } else if |q| == 2 {
      ReadEscaped(q[1], rest, cur);
      EscapeInverts(c);
      assert q == ['\\', q[1]];
    } else {
      HexRoundTrip(c);
      ReadHex(q[2], q[3], rest, cur);
      assert q == ['\\', 'x', q[2], q[3]];
    }
  }

  lemma ReadPlainChar(c: char, rest: string, cur: string)
    requires c != '\\' && c != '"'
    ensures ReadToken([c] + rest, Double, cur) == ReadToken(rest, Double, cur + [c])
  {
    assert ([c] + rest)[1..] == rest;
  }

  lemma ReadEscaped(e: char, rest: string, cur: string)
    requires e != 'x'
    ensures ReadToken(['\\', e] + rest, Double, cur) == ReadToken(rest, Double, cur + [Unescape(e)])
  {
    assert (['\\', e] + rest)[2..] == rest;
  }

  lemma ReadHex(hi: char, lo: char, rest: string, cur: string)
    requires IsHex(hi) && IsHex(lo)
    ensures ReadToken(['\\', 'x', hi, lo] + rest, Double, cur)
            == ReadToken(rest, Double, cur + [(HexValue(hi) * 16 + HexValue(lo)) as char])
  {
    hide HexValue, IsHex;
    var s := ['\\', 'x', hi, lo] + rest;
    assert s[2] == hi && s[3] == lo && s[4..] == rest;
  }

  lemma EscapeInverts(c: char)
    requires |QuoteChar(c)| == 2
    ensures QuoteChar(c)[0] == '\\' && QuoteChar(c)[1] != 'x' && Unescape(QuoteChar(c)[1]) == c
  {
  }

  /** Reading quoted bytes collects them, whatever comes next. */
  lemma {:induction false} ReadThrough(w: string, tail: string, cur: string)
    requires IsBytes(w)
    ensures ReadToken(QuoteBody(w) + tail, Double, cur) == ReadToken(tail, Double, cur + w)
    decreases |w|
  {
    hide QuoteChar, ReadToken;
    if w == [] {
      assert QuoteBody(w) + tail == tail && cur + w == cur;
    } else {
      var more := QuoteBody(w[1..]) + tail;
      assert QuoteBody(w) + tail == QuoteChar(w[0]) + more;
      ReadQuotedChar(w[0], more, cur);
      ReadThrough(w[1..], tail, cur + [w[0]]);
      assert cur + [w[0]] + w[1..] == cur + w;
    }
  }

  lemma ReadQuoted(w: string, rest: string, cur: string)
    requires IsBytes(w)
    requires rest == [] || IsSpace(rest[0])
    ensures ReadToken(QuoteBody(w) + "\"" + rest, Double, cur) == Token(cur + w, rest)
  {
    hide QuoteBody;
    var tail := "\"" + rest;
    ReadThrough(w, tail, cur);
    assert QuoteBody(w) + "\"" + rest == QuoteBody(w) + tail && tail[1..] == rest;
  }

  /** Any byte string survives quoting and splitting. */
  lemma SplitQuoted(w: string, rest: string)
    requires IsBytes(w) && (rest == [] || rest[0] == ' ')
    ensures var more := SplitArgs(rest);
            SplitArgs(Quote(w) + rest) == if more.SplitError? then SplitError else Split([w] + more.argv)
  {
    hide QuoteBody;
    var body := QuoteBody(w) + "\"" + rest;
    OpenQuote(body);
    assert Quote(w) + rest == "\"" + body;
    ReadQuoted(w, rest, "");
    assert "" + w == w;
  }

  /** A quote must be closed. */
  lemma QuoteMustClose(w: string)
    requires IsBytes(w)
    ensures SplitArgs("\"" + QuoteBody(w)) == SplitError
  {
    hide QuoteBody;
    OpenQuote(QuoteBody(w));
    ReadThrough(w, "", "");
    assert QuoteBody(w) + "" == QuoteBody(w);
  }

  /** A closing quote must end the argument. */
  lemma QuoteMustEnd(w: string, c: char, rest: string)
    requires IsBytes(w) && !IsSpace(c)
    ensures SplitArgs(Quote(w) + ([c] + rest)) == SplitError
  {
    hide QuoteBody;
    var tail := "\"" + ([c] + rest);
    OpenQuote(QuoteBody(w) + tail);
    assert Quote(w) + ([c] + rest) == "\"" + (QuoteBody(w) + tail);
    ReadThrough(w, tail, "");
  }

  /** Between single quotes everything stands for itself; only a backslash before the closing quote would keep
      it open. */
  lemma SplitSingleQuoted(w: string, rest: string)
    requires '\'' !in w && (w == [] || w[|w| - 1] != '\\') && (rest == [] || IsSpace(rest[0]))
    ensures var more := SplitArgs(rest);
            SplitArgs("'" + (w + ("'" + rest))) == if more.SplitError? then SplitError else Split([w] + more.argv)
  {
    var s := "'" + (w + ("'" + rest));
    assert s[1..] == w + ("'" + rest);
    assert ReadToken(s, Bare, "") == ReadToken(s[1..], Single, "");
    ReadSingle(w, rest, "");
    assert "" + w == w;
  }

  lemma {:induction false} ReadSingle(w: string, rest: string, cur: string)
    requires '\'' !in w && (w == [] || w[|w| - 1] != '\\') && (rest == [] || IsSpace(rest[0]))
    ensures ReadToken(w + ("'" + rest), Single, cur) == Token(cur + w, rest)
    decreases |w|
  {
    var s := w + ("'" + rest);
    if w == [] {
      assert s == "'" + rest && s[1..] == rest && cur + w == cur;
    } else {
      assert s[0] == w[0] && s[1..] == w[1..] + ("'" + rest);
      assert s[1] == '\'' ==> |w| == 1;
      ReadSingle(w[1..], rest, cur + [w[0]]);
      assert cur + [w[0]] + w[1..] == cur + w;
    }
  }

  lemma OpenQuote(body: string)
    ensures SplitArgs("\"" + body)
            == match ReadToken(body, Double, "")
               case TokenError => SplitError
               case Token(text, rest) =>
                 var more := SplitArgs(rest);
                 if more.SplitError? then SplitError else Split([text] + more.argv)
  {
    var s := "\"" + body;
    assert s[1..] == body;
    assert ReadToken(s, Bare, "") == ReadToken(body, Double, "");
  }

  /** How a string is written so that it can be split again: quoted only when `sdsneedsrepr` says so. */
  function Repr(s: string): string {
    if NeedsRepr(s) then Quote(s) else s
  }

  /** The exact condition for the round trip. `sdsneedsrepr` overlooks the single quote, which
      `sdssplitargs` treats as a quote: a string is read back unless it holds a single quote and
      nothing else that needs quoting. */
  lemma ReprRoundTripIff(w: string, rest: string)
    requires IsBytes(w) && w != [] && (rest == [] || rest[0] == ' ') && '\'' !in rest
    requires SplitArgs(rest).Split?
    ensures (SplitArgs(Repr(w) + rest) == Split([w] + SplitArgs(rest).argv))
            <==> (NeedsRepr(w) || '\'' !in w)
  {
    if NeedsRepr(w) {
      SplitQuoted(w, rest);
    } else if '\'' !in w {
      assert IsWord(w);
      SplitWord(w, rest);
    } else {
      QuoteInWord(w, rest, "");
      var s := w + rest;
      assert s[0] == w[0] && !IsSpace(s[0]);
      var t := ReadToken(s, Bare, "");
      if SplitArgs(s).Split? {
        assert SplitArgs(s).argv[0] == t.text != w == ([w] + SplitArgs(rest).argv)[0];
      }
    }
  }

  /** A bare word with a single quote in it is never read back as itself. */
  lemma {:induction false} QuoteInWord(w: string, rest: string, cur: string)
    requires !NeedsRepr(w) && '\'' in w && (rest == [] || rest[0] == ' ') && '\'' !in rest
    ensures var t := ReadToken(w + rest, Bare, cur); t.Token? ==> |t.text| < |cur| + |w|
    decreases |w|
  {
    assert (w + rest)[0] == w[0] && (w + rest)[1..] == w[1..] + rest;
    forall i | 0 <= i < |w[1..]| ensures w[1..][i] == w[i + 1] { }
    assert !NeedsRepr(w[1..]);
    if w[0] == '\'' {
      InsideSingle(w[1..], rest, cur);
    } else {
      QuoteInWord(w[1..], rest, cur + [w[0]]);
    }
  }

  lemma {:induction false} InsideSingle(w: string, rest: string, cur: string)
    requires !NeedsRepr(w) && '\'' !in rest
    ensures var t := ReadToken(w + rest, Single, cur); t.Token? ==> |t.text| <= |cur| + |w|
    decreases |w|
  {
    if w == [] {
      assert w + rest == rest;
      Unterminated(rest, cur);
    } else {
      assert (w + rest)[0] == w[0] && (w + rest)[1..] == w[1..] + rest;
      forall i | 0 <= i < |w[1..]| ensures w[1..][i] == w[i + 1] { }
      assert !NeedsRepr(w[1..]);
      if w[0] != '\'' {
        InsideSingle(w[1..], rest, cur + [w[0]]);
      }
    }
  }

  lemma {:induction false} Unterminated(s: string, cur: string)
    requires '\'' !in s
    ensures ReadToken(s, Single, cur) == TokenError
    decreases |s|
  {
    if s != [] {
      Unterminated(s[1..], cur + [s[0]]);
    }
  }

  // ---------------------------------------------------------------- joining

  /** Tokens separated by single spaces. */
  function Join(ts: seq<string>): string {
    if |ts| == 0 then "" else if |ts| == 1 then ts[0] else ts[0] + " " + Join(ts[1..])
  }

  lemma {:induction false} JoinAppend(xs: seq<string>, ys: seq<string>)
    requires xs != [] && ys != []
    ensures Join(xs + ys) == Join(xs) + " " + Join(ys)
  {
    if |xs| == 1 {
      assert (xs + ys)[1..] == ys;
    } else {
      assert (xs + ys)[1..] == xs[1..] + ys;
      JoinAppend(xs[1..], ys);
    }
  }

  /** `sdssplitlen` on single spaces, from the point where `cur` has been collected. */
  function SplitSpaces(s: string, cur: string): seq<string>
    decreases |s|
  {
    if s == [] then [cur]
    else if s[0] == ' ' then [cur] + SplitSpaces(s[1..], "")
    else SplitSpaces(s[1..], cur + [s[0]])
  }

  method SplitLen(s: string) returns (tokens: seq<string>)
    ensures tokens == if s == [] then [] else SplitSpaces(s, "")
  {
    tokens := [];
    if s == [] {
      return;
    }
    var start, j := 0, 0;
    assert s[0..] == s;
    while j < |s|
      invariant 0 <= start <= j <= |s|
      invariant tokens + SplitSpaces(s[j..], s[start..j]) == SplitSpaces(s, "")
    {
      assert s[j..][0] == s[j] && s[j..][1..] == s[j + 1..];
      if s[j] == ' ' {
        tokens := tokens + [s[start..j]];
        start := j + 1;
        assert s[start..j + 1] == [];
      } else {
        assert s[start..j + 1] == s[start..j] + [s[j]];
      }
      j := j + 1;
    }
    assert s[j..] == [] && s[start..j] == s[start..];
    tokens := tokens + [s[start..]];
  }

  lemma {:induction false} SplitToken(t: string, rest: string, cur: string)
    requires ' ' !in t
    ensures SplitSpaces(t + rest, cur) == SplitSpaces(rest, cur + t)
    decreases |t|
  {
    if t == [] {
      assert t + rest == rest && cur + t == cur;
    } else {
      assert (t + rest)[0] == t[0] && (t + rest)[1..] == t[1..] + rest;
      assert cur + [t[0]] + t[1..] == cur + t;
      SplitToken(t[1..], rest, cur + [t[0]]);
    }
  }

  /** Splitting undoes joining. */
  lemma {:induction false} SplitOfJoin(ts: seq<string>)
    requires ts != [] && forall i :: 0 <= i < |ts| ==> ' ' !in ts[i]
    ensures SplitSpaces(Join(ts), "") == ts
    decreases |ts|
  {
    if |ts| == 1 {
      assert ts[0] + [] == ts[0];
      SplitToken(ts[0], [], "");
    } else {
      var tail := " " + Join(ts[1..]);
      assert Join(ts) == ts[0] + tail && tail[1..] == Join(ts[1..]);
      SplitToken(ts[0], tail, "");
      SplitOfJoin(ts[1..]);
      assert "" + ts[0] == ts[0] && ts == [ts[0]] + ts[1..];
    }
  }
}
