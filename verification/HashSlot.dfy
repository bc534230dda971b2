/** Hash slots of keys and of glob patterns (`keyHashSlot`, `patternHashSlot`); the checksum is a parameter. */
module HashSlot {
  import opened Wrappers
  import opened Numbers

  const SLOTS := 0x4000

  /** The first place of `c` from `n` on; the length when there is none. */
  function Find(s: string, c: char, n: nat): (i: nat)
    requires n <= |s|
    ensures n <= i <= |s| && (i < |s| ==> s[i] == c) && forall k :: n <= k < i ==> s[k] != c
    decreases |s| - n
  {
    if n == |s| || s[n] == c then n else Find(s, c, n + 1)
  }

  /** There is a non-empty `{...}`: the first brace is closed, and not at once. */
  predicate HasTag(s: string) {
    var b := Find(s, '{', 0);
    b < |s| && var e := Find(s, '}', b + 1); b + 1 < e < |s|
  }

  function Tag(s: string): string
    requires HasTag(s)
  {
    var b := Find(s, '{', 0);
    s[b + 1..Find(s, '}', b + 1)]
  }

  /** What is hashed of a key. */
  function HashedPart(key: string): string {
    if HasTag(key) then Tag(key) else key
  }

  function KeySlot(crc: string -> nat, key: string): (slot: nat)
    ensures slot < SLOTS
  {
    crc(HashedPart(key)) % SLOTS
  }

  /** The first opening brace is at `b`, the first closing one behind it at `e`, and something is between. */
  predicate TaggedAt(key: string, b: nat, e: nat) {
    && b + 1 < e < |key| && key[b] == '{' && key[e] == '}'
    && (forall k :: 0 <= k < b ==> key[k] != '{') && forall k :: b < k < e ==> key[k] != '}'
  }

  /** The two index loops of `keyHashSlot`. */
  method KeyHashSlot(crc: string -> nat, key: string) returns (slot: nat)
    ensures slot == KeySlot(crc, key)
    ensures forall b: nat, e: nat :: TaggedAt(key, b, e) ==> slot == crc(key[b + 1..e]) % SLOTS
    ensures (forall b: nat, e: nat :: !TaggedAt(key, b, e)) ==> slot == crc(key) % SLOTS
  {
    var s := 0;
    while s < |key|
      invariant 0 <= s <= |key| && forall k :: 0 <= k < s ==> key[k] != '{'
    {
      if key[s] == '{' { break; }
      s := s + 1;
    }
    FindIs(key, '{', 0, s);
    if s == |key| {
      return crc(key) % SLOTS;
    }
    var e := s + 1;
    while e < |key|
      invariant s + 1 <= e <= |key| && forall k :: s + 1 <= k < e ==> key[k] != '}'
    {
      if key[e] == '}' { break; }
      e := e + 1;
    }
    FindIs(key, '}', s + 1, e);
    if e == |key| || e == s + 1 {
      return crc(key) % SLOTS;
    }
    assert TaggedAt(key, s, e);
    return crc(key[s + 1..e]) % SLOTS;
  }

  lemma FindIs(s: string, c: char, n: nat, i: nat)
    requires n <= i <= |s| && (forall k :: n <= k < i ==> s[k] != c) && (i < |s| ==> s[i] == c)
    ensures Find(s, c, n) == i
  {
  }

  // ---------------------------------------------------------------- patterns

  predicate IsSpecial(c: char) {
    c == '*' || c == '?' || c == '[' || c == '\\'
  }

  /** How far the pattern stands for itself. */
  function LiteralLength(p: string): (n: nat)
    ensures n <= |p| && (n < |p| ==> IsSpecial(p[n])) && forall k :: 0 <= k < n ==> !IsSpecial(p[k])
  {
    if p == [] || IsSpecial(p[0]) then 0 else 1 + LiteralLength(p[1..])
  }

  /** What can be hashed for every key a pattern matches. */
  function PatternPart(p: string): Option<string> {
    var lit := p[..LiteralLength(p)];
    if HasTag(lit) then Some(Tag(lit))
    else if LiteralLength(p) == |p| then Some(p)
    else None
  }

  /** The scan of `patternHashSlot`; `None` stands for -1. */
  method PatternHashSlot(crc: string -> nat, p: string) returns (slot: Option<nat>)
    ensures slot == if PatternPart(p).Some? then Some(crc(PatternPart(p).value) % SLOTS) else None
  {
    hide HasTag, PatternPart;
    var s := -1;
    for i := 0 to |p|
      invariant i <= LiteralLength(p)
      invariant s == -1 ==> forall k :: 0 <= k < i ==> p[k] != '{'
      invariant s >= 0 ==>
                  && s < i && p[s] == '{' && (forall k :: 0 <= k < s ==> p[k] != '{')
                  && forall k :: s < k < i ==> p[k] != '}'
      invariant s == -2 || s >= -1
      invariant s == -2 ==> exists b :: 0 <= b && b + 1 < i && EmptyTagAt(p, b)
    {
      if p[i] == '*' || p[i] == '?' || p[i] == '[' {
        NoSlot(p, i, s);
        return None;
      } else if p[i] == '\\' {
        NoSlot(p, i, s);
        return None;
      } else if s == -1 && p[i] == '{' {
        s := i;
      } else if s >= 0 && p[i] == '}' && i == s + 1 {
        assert EmptyTagAt(p, s);
        s := -2;
      } else if s >= 0 && p[i] == '}' {
        TagFound(p, s, i);
        return Some(crc(p[s + 1..i]) % SLOTS);
      }
    }
    WholePattern(p, s);
    return Some(crc(p) % SLOTS);
  }

  predicate EmptyTagAt(p: string, b: nat) {
    b + 1 < |p| && p[b] == '{' && p[b + 1] == '}' && forall k :: 0 <= k < b ==> p[k] != '{'
  }

  /** Where the scan stands after `n` characters without a tag. */
  predicate NoTagYet(p: string, n: nat, s: int)
    requires n <= |p|
  {
    || (s == -1 && forall k :: 0 <= k < n ==> p[k] != '{')
    || (0 <= s < n && p[s] == '{' && (forall k :: 0 <= k < s ==> p[k] != '{') && forall k :: s < k < n ==> p[k] != '}')
    || (s == -2 && exists b :: 0 <= b && b + 1 < n && EmptyTagAt(p, b))
  }

  lemma NoTagIn(p: string, n: nat, s: int)
    requires n <= |p| && NoTagYet(p, n, s)
    ensures !HasTag(p[..n])
  {
    var lit := p[..n];
    if s == -1 {
      FindIs(lit, '{', 0, n);
    } else if s >= 0 {
      FindIs(lit, '{', 0, s);
      FindIs(lit, '}', s + 1, n);
    } else {
      var b :| 0 <= b && b + 1 < n && EmptyTagAt(p, b);
      FindIs(lit, '{', 0, b);
      FindIs(lit, '}', b + 1, b + 1);
    }
  }

  lemma NoSlot(p: string, i: nat, s: int)
    requires i < |p| && i <= LiteralLength(p) && IsSpecial(p[i]) && NoTagYet(p, i, s)
    ensures PatternPart(p) == None
  {
    hide HasTag;
    NoTagIn(p, i, s);
    assert LiteralLength(p) == i;
  }

  lemma WholePattern(p: string, s: int)
    requires LiteralLength(p) == |p| && NoTagYet(p, |p|, s)
    ensures PatternPart(p) == Some(p)
  {
    hide HasTag;
    NoTagIn(p, |p|, s);
    assert p[..|p|] == p;
  }

  lemma TagFound(p: string, s: nat, i: nat)
    requires i < |p| && i < LiteralLength(p) && s + 1 < i && p[s] == '{' && p[i] == '}'
    requires (forall k :: 0 <= k < s ==> p[k] != '{') && forall k :: s < k < i ==> p[k] != '}'
    ensures PatternPart(p) == Some(p[s + 1..i])
  {
    hide LiteralLength, HasTag, Tag;
    var lit := p[..LiteralLength(p)];
    TagAt(lit, s, i);
    assert lit[s + 1..i] == p[s + 1..i];
  }

  lemma TagAt(key: string, s: nat, i: nat)
    requires s + 1 < i < |key| && key[s] == '{' && key[i] == '}'
    requires (forall k :: 0 <= k < s ==> key[k] != '{') && forall k :: s < k < i ==> key[k] != '}'
    ensures HasTag(key) && Tag(key) == key[s + 1..i]
  {
    hide Find;
    FindIs(key, '{', 0, s);
    FindIs(key, '}', s + 1, i);
  }

  /** What a glob pattern can match at most: literal characters match themselves, and from the first
      special character on nothing is said. */
  predicate MayMatch(p: string, s: string) {
    if p == [] then s == []
    else if IsSpecial(p[0]) then true
    else s != [] && s[0] == p[0] && MayMatch(p[1..], s[1..])
  }

  lemma {:induction false} MatchStartsLiterally(p: string, s: string)
    requires MayMatch(p, s)
    ensures p[..LiteralLength(p)] <= s
    ensures LiteralLength(p) == |p| ==> s == p
  {
    if p != [] && !IsSpecial(p[0]) {
      MatchStartsLiterally(p[1..], s[1..]);
      var n := LiteralLength(p[1..]);
      assert p[..n + 1] == [p[0]] + p[1..][..n];
      assert s == [s[0]] + s[1..] && p == [p[0]] + p[1..];
    }
  }

  /** A tag stays the tag of every longer key. */
  lemma TagOfExtension(lit: string, key: string)
    requires lit <= key && HasTag(lit)
    ensures HasTag(key) && Tag(key) == Tag(lit)
  {
    var b := Find(lit, '{', 0);
    var e := Find(lit, '}', b + 1);
    FindIs(key, '{', 0, b);
    FindIs(key, '}', b + 1, e);
    assert key[b + 1..e] == lit[b + 1..e];
  }

  /** When a slot is inferred, every key the pattern can match is in it. */
  lemma PatternSlotIsSound(crc: string -> nat, p: string, key: string)
    requires PatternPart(p).Some? && MayMatch(p, key)
    ensures KeySlot(crc, key) == crc(PatternPart(p).value) % SLOTS
  {
    hide HasTag, MayMatch;
    var lit := p[..LiteralLength(p)];
    MatchStartsLiterally(p, key);
    if HasTag(lit) {
      TagOfExtension(lit, key);
    } else {
      assert lit == p;
    }
  }
}
