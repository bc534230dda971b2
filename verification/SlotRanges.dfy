/** Slot range arrays: sorting and merging in place, validation, equality, and building one slot by slot. */
module SlotRanges {
  const CLUSTER_SLOTS := 16384

  /** Both ends are stored in 16 bits. */
  datatype Range = Range(start: nat, end: nat)

  predicate InRange(r: Range, x: int) {
    r.start <= x <= r.end
  }

  /** The slots of an array. */
  ghost predicate In(rs: seq<Range>, x: int) {
    exists i :: 0 <= i < |rs| && InRange(rs[i], x)
  }

  ghost predicate SameSlots(a: seq<Range>, b: seq<Range>) {
    forall x :: In(a, x) <==> In(b, x)
  }

  predicate Apart(a: Range, b: Range) {
    a.end < a.start || b.end < b.start || a.end < b.start || b.end < a.start
  }

  ghost predicate Disjoint(rs: seq<Range>) {
    forall i, j :: 0 <= i < j < |rs| ==> Apart(rs[i], rs[j])
  }

  predicate WellFormed(r: Range) {
    r.start <= r.end < CLUSTER_SLOTS
  }

  predicate AllWellFormed(rs: seq<Range>) {
    forall i :: 0 <= i < |rs| ==> WellFormed(rs[i])
  }

  ghost predicate Good(rs: seq<Range>) {
    AllWellFormed(rs) && Disjoint(rs)
  }

  /** `Apart` says that no slot is in both. */
  lemma ApartMeansNoCommonSlot(a: Range, b: Range)
    ensures Apart(a, b) <==> forall x :: !(InRange(a, x) && InRange(b, x))
  {
    if !Apart(a, b) {
      var x := if a.start >= b.start then a.start else b.start;
      assert InRange(a, x) && InRange(b, x);
    }
  }

  // ---------------------------------------------------------------- sorting

  predicate Sorted(rs: seq<Range>) {
    forall i, j :: 0 <= i < j < |rs| ==> rs[i].start <= rs[j].start
  }

  /** What `qsort` gives: any permutation sorted by start. */
  ghost predicate IsSortOf(s: seq<Range>, rs: seq<Range>) {
    Sorted(s) && multiset(s) == multiset(rs)
  }

  function Insert(r: Range, s: seq<Range>): seq<Range> {
    if s == [] then [r]
    else if r.start <= s[0].start then [r] + s
    else [s[0]] + Insert(r, s[1..])
  }

  function Sort(rs: seq<Range>): seq<Range> {
    if rs == [] then [] else Insert(rs[0], Sort(rs[1..]))
  }

  lemma {:induction false} InsertMembers(r: Range, s: seq<Range>)
    ensures multiset(Insert(r, s)) == multiset(s) + multiset{r}
    ensures forall i :: 0 <= i < |Insert(r, s)| ==> Insert(r, s)[i] == r || Insert(r, s)[i] in s
  {
    if s != [] && r.start > s[0].start {
      assert s == [s[0]] + s[1..];
      InsertMembers(r, s[1..]);
    }
  }

  lemma {:induction false} InsertSorted(r: Range, s: seq<Range>)
    requires Sorted(s)
    ensures Sorted(Insert(r, s))
  {
    if s != [] && r.start > s[0].start {
      InsertMembers(r, s[1..]);
      InsertSorted(r, s[1..]);
    }
  }

  lemma {:induction false} SortSorts(rs: seq<Range>)
    ensures IsSortOf(Sort(rs), rs)
  {
    if rs != [] {
      assert rs == [rs[0]] + rs[1..];
      SortSorts(rs[1..]);
      InsertSorted(rs[0], Sort(rs[1..]));
      InsertMembers(rs[0], Sort(rs[1..]));
    }
  }

  lemma SortMembers(s: seq<Range>, rs: seq<Range>)
    requires multiset(s) == multiset(rs)
    ensures |s| == |rs| && forall r :: r in s <==> r in rs
  {
    assert |multiset(s)| == |multiset(rs)|;
    forall r ensures r in s <==> r in rs {
      assert r in s <==> r in multiset(s);
      assert r in rs <==> r in multiset(rs);
    }
  }

  // ---------------------------------------------------------------- merging

  predicate Adjacent(a: Range, b: Range) {
    a.end + 1 == b.start
  }

  function Last(rs: seq<Range>): Range
    requires rs != []
  {
    rs[|rs| - 1]
  }

  /** The next range extends the last one or follows it. */
  function Absorb(acc: seq<Range>, r: Range): (out: seq<Range>)
    requires acc != []
    ensures out != []
  {
    if Adjacent(Last(acc), r) then acc[|acc| - 1 := Range(Last(acc).start, r.end)] else acc + [r]
  }

  function Fold(acc: seq<Range>, rest: seq<Range>): seq<Range>
    requires acc != []
    decreases |rest|
  {
    if rest == [] then acc else Fold(Absorb(acc, rest[0]), rest[1..])
  }

  function Merge(sorted: seq<Range>): seq<Range> {
    if |sorted| <= 1 then sorted else Fold([sorted[0]], sorted[1..])
  }

  method SortInPlace(a: array<Range>, n: nat)
    requires n <= a.Length
    modifies a
    ensures IsSortOf(a[..n], old(a[..n]))
  {
    hide Sort;
    var s := Sort(a[..n]);
    SortSorts(a[..n]);
    SortMembers(s, a[..n]);
    for k := 0 to n
      invariant forall q :: 0 <= q < k ==> a[q] == s[q]
    {
      a[k] := s[k];
    }
    assert a[..n] == s;
  }

  method MergeInPlace(a: array<Range>, n: nat) returns (m: nat)
    requires 0 < n <= a.Length
    modifies a
    ensures m <= n && a[..m] == Merge(old(a[..n]))
  {
    hide Fold, Merge, Absorb;
    ghost var s := a[..n];
    ghost var acc := [s[0]];
    var idx := 0;
    var i := 1;
    MergeIsFold(s);
    while i < n
      invariant 0 <= idx < i <= n && |acc| == idx + 1
      invariant forall q :: 0 <= q <= idx ==> a[q] == acc[q]
      invariant forall q :: i <= q < n ==> a[q] == s[q]
      invariant Fold(acc, s[i..]) == Merge(s)
    {
      FoldStep(acc, s, i);
      AbsorbIs(acc, s[i], a[idx]);
      acc := Absorb(acc, s[i]);
      if a[idx].end + 1 == a[i].start {
        a[idx] := Range(a[idx].start, a[i].end);
      } else {
        idx := idx + 1;
        a[idx] := a[i];
      }
      i := i + 1;
    }
    FoldEnds(acc, s);
    m := idx + 1;
    assert a[..m] == acc;
  }

  lemma FoldEnds(acc: seq<Range>, s: seq<Range>)
    requires acc != []
    ensures Fold(acc, s[|s|..]) == acc
  {
  }

  lemma AbsorbIs(acc: seq<Range>, r: Range, last: Range)
    requires acc != [] && Last(acc) == last
    ensures last.end + 1 == r.start ==> Absorb(acc, r) == acc[..|acc| - 1] + [Range(last.start, r.end)]
    ensures last.end + 1 != r.start ==> Absorb(acc, r) == acc + [r]
  {
  }

  lemma MergeIsFold(s: seq<Range>)
    requires s != []
    ensures Merge(s) == Fold([s[0]], s[1..])
  {
    if |s| == 1 { assert s[1..] == [] && s == [s[0]]; }
  }

  lemma FoldStep(acc: seq<Range>, s: seq<Range>, i: nat)
    requires acc != [] && i < |s|
    ensures Fold(acc, s[i..]) == Fold(Absorb(acc, s[i]), s[i + 1..])
  {
    assert s[i..][0] == s[i] && s[i..][1..] == s[i + 1..];
  }

  /** `slotRangeArraySortAndMerge` on the first `n` ranges of an array; the result is their number. */
  method SortAndMerge(a: array<Range>, n: nat) returns (m: nat, ghost sorted: seq<Range>)
    requires n <= a.Length
    modifies a
    ensures m <= n && IsSortOf(sorted, old(a[..n])) && a[..m] == Merge(sorted)
  {
    hide Fold;
    sorted := a[..n];
    if n <= 1 {
      return n, sorted;
    }
    SortInPlace(a, n);
    sorted := a[..n];
    m := MergeInPlace(a, n);
  }

  // ---------------------------------------------------------------- what merging keeps

  /** No inverted range touches another range, so none is merged away. */
  ghost predicate NoInvertedAdjoins(rs: seq<Range>) {
    forall i, j :: 0 <= i < |rs| && 0 <= j < |rs| && i != j && rs[i].end < rs[i].start ==>
      !Adjacent(rs[j], rs[i]) && !Adjacent(rs[i], rs[j])
  }

  lemma AbsorbKeepsAdjoins(acc: seq<Range>, rest: seq<Range>)
    requires acc != [] && rest != [] && NoInvertedAdjoins(acc + rest)
    ensures NoInvertedAdjoins(Absorb(acc, rest[0]) + rest[1..])
  {
    var all, out := acc + rest, Absorb(acc, rest[0]) + rest[1..];
    var k := |acc| - 1;
    if Adjacent(Last(acc), rest[0]) {
      assert all[k] == Last(acc) && all[k + 1] == rest[0];
      assert !(all[k].end < all[k].start) && !(all[k + 1].end < all[k + 1].start);
      forall i, j | 0 <= i < |out| && 0 <= j < |out| && i != j && out[i].end < out[i].start
        ensures !Adjacent(out[j], out[i]) && !Adjacent(out[i], out[j])
      {
        assert i != k;
        var i' := if i < k then i else i + 1;
        assert out[i] == all[i'];
        var j0, j1 := if j <= k then j else j + 1, if j < k then j else j + 1;
        assert out[j].start == all[j0].start && out[j].end == all[j1].end;
      }
    } else {
      assert out == all;
    }
  }

  /** One merge step keeps the slots, and it keeps both that the ranges are good and that they are not. */
  lemma AbsorbKeeps(acc: seq<Range>, rest: seq<Range>)
    requires acc != [] && rest != [] && NoInvertedAdjoins(acc + rest)
    ensures Good(Absorb(acc, rest[0]) + rest[1..]) <==> Good(acc + rest)
    ensures SameSlots(Absorb(acc, rest[0]) + rest[1..], acc + rest)
  {
    hide Good;
    var all, out := acc + rest, Absorb(acc, rest[0]) + rest[1..];
    var k := |acc| - 1;
    if Adjacent(Last(acc), rest[0]) {
      assert all[k] == Last(acc) && all[k + 1] == rest[0];
      assert !(all[k].end < all[k].start) && !(all[k + 1].end < all[k + 1].start);
      assert out == all[..k] + [Range(all[k].start, all[k + 1].end)] + all[k + 2..];
      MergedGood(all, out, k);
      MergedSlots(all, out, k);
    } else {
      assert out == all;
    }
  }

  lemma MergedGood(all: seq<Range>, out: seq<Range>, k: nat)
    requires k + 1 < |all| && Adjacent(all[k], all[k + 1]) && all[k].start <= all[k].end
    requires all[k + 1].start <= all[k + 1].end
    requires out == all[..k] + [Range(all[k].start, all[k + 1].end)] + all[k + 2..]
    ensures Good(out) <==> Good(all)
  {
    if Good(all) {
      forall i | 0 <= i < |out| ensures WellFormed(out[i]) {
        assert WellFormed(all[if i <= k then i else i + 1]) && WellFormed(all[k + 1]);
      }
      forall i, j | 0 <= i < j < |out| ensures Apart(out[i], out[j]) {
        MergedApart(all, out, k, i, j);
      }
    }
    if Good(out) {
      forall i | 0 <= i < |all| ensures WellFormed(all[i]) {
        assert WellFormed(out[if i <= k then i else i - 1]);
      }
      forall i, j | 0 <= i < j < |all| ensures Apart(all[i], all[j]) {
        UnmergedApart(all, out, k, i, j);
      }
    }
  }

  lemma UnmergedApart(all: seq<Range>, out: seq<Range>, k: nat, i: nat, j: nat)
    requires Good(out) && k + 1 < |all| && Adjacent(all[k], all[k + 1]) && i < j < |all|
    requires all[k].start <= all[k].end && all[k + 1].start <= all[k + 1].end
    requires out == all[..k] + [Range(all[k].start, all[k + 1].end)] + all[k + 2..]
    ensures Apart(all[i], all[j])
  {
    var i', j' := if i <= k then i else i - 1, if j <= k then j else j - 1;
    if i' < j' { assert Apart(out[i'], out[j']); }
  }

  lemma MergedApart(all: seq<Range>, out: seq<Range>, k: nat, i: nat, j: nat)
    requires Good(all) && k + 1 < |all| && Adjacent(all[k], all[k + 1]) && i < j < |out|
    requires out == all[..k] + [Range(all[k].start, all[k + 1].end)] + all[k + 2..]
    ensures Apart(out[i], out[j])
  {
    var i', j' := if i <= k then i else i + 1, if j <= k then j else j + 1;
    assert Apart(all[i'], all[j']);
    assert WellFormed(all[i']) && WellFormed(all[j']) && WellFormed(all[k]) && WellFormed(all[k + 1]);
    if i == k {
      assert Apart(all[k + 1], all[j']);
    } else if j == k {
      assert Apart(all[i'], all[k + 1]);
    } else {
      assert out[i] == all[i'] && out[j] == all[j'];
    }
  }

  lemma MergedSlots(all: seq<Range>, out: seq<Range>, k: nat)
    requires k + 1 < |all| && Adjacent(all[k], all[k + 1]) && all[k].start <= all[k].end
    requires all[k + 1].start <= all[k + 1].end
    requires out == all[..k] + [Range(all[k].start, all[k + 1].end)] + all[k + 2..]
    ensures SameSlots(out, all)
  {
    forall x ensures In(out, x) <==> In(all, x) {
      if In(out, x) {
        var i :| 0 <= i < |out| && InRange(out[i], x);
        var i' := if i < k then i else if i == k then (if x <= all[k].end then k else k + 1) else i + 1;
        assert InRange(all[i'], x);
      }
      if In(all, x) {
        var i :| 0 <= i < |all| && InRange(all[i], x);
        assert InRange(out[if i <= k then i else i - 1], x);
      }
    }
  }

  lemma {:induction false} FoldKeeps(acc: seq<Range>, rest: seq<Range>)
    requires acc != [] && NoInvertedAdjoins(acc + rest)
    ensures Good(Fold(acc, rest)) <==> Good(acc + rest)
    ensures SameSlots(Fold(acc, rest), acc + rest)
    decreases |rest|
  {
    hide Good, Absorb, NoInvertedAdjoins;
    if rest == [] {
      assert acc + rest == acc;
    } else {
      AbsorbKeeps(acc, rest);
      AbsorbKeepsAdjoins(acc, rest);
      FoldKeeps(Absorb(acc, rest[0]), rest[1..]);
    }
  }

  lemma MergeKeeps(s: seq<Range>)
    requires NoInvertedAdjoins(s)
    ensures (Good(Merge(s)) <==> Good(s)) && SameSlots(Merge(s), s)
  {
    if |s| > 1 {
      assert [s[0]] + s[1..] == s;
      FoldKeeps([s[0]], s[1..]);
    }
  }

  /** The ranges come in order with at least one slot missing between them. */
  predicate Canonical(rs: seq<Range>) {
    AllWellFormed(rs) && forall i :: 0 < i < |rs| ==> rs[i - 1].end + 1 < rs[i].start
  }

  /** Nothing is left to merge, and the starts stay sorted. */
  predicate Merged(rs: seq<Range>) {
    Sorted(rs) && forall i :: 0 < i < |rs| ==> !Adjacent(rs[i - 1], rs[i])
  }

  lemma {:induction false} FoldIsMerged(acc: seq<Range>, rest: seq<Range>)
    requires acc != [] && Merged(acc) && Sorted(acc + rest)
    ensures Merged(Fold(acc, rest))
    decreases |rest|
  {
    if rest != [] {
      var all, out := acc + rest, Absorb(acc, rest[0]);
      forall i | 0 <= i < |acc| ensures acc[i].start <= rest[0].start {
        assert all[i] == acc[i] && all[|acc|] == rest[0];
      }
      var next := out + rest[1..];
      forall i, j | 0 <= i < j < |next| ensures next[i].start <= next[j].start {
        var shift := |all| - |next|;
        assert next[i].start == all[if i < |acc| then i else i + shift].start;
        assert next[j].start == all[if j < |acc| then j else j + shift].start;
      }
      FoldIsMerged(out, rest[1..]);
    }
  }

  lemma MergeIsMerged(s: seq<Range>)
    requires Sorted(s)
    ensures Merged(Merge(s))
  {
    if |s| > 1 {
      assert [s[0]] + s[1..] == s;
      FoldIsMerged([s[0]], s[1..]);
    }
  }

  lemma GoodMergedIsCanonical(rs: seq<Range>)
    requires Merged(rs) && Good(rs)
    ensures Canonical(rs)
  {
    forall i | 0 < i < |rs| ensures rs[i - 1].end + 1 < rs[i].start {
      assert Apart(rs[i - 1], rs[i]) && WellFormed(rs[i - 1]) && WellFormed(rs[i]);
      assert !Adjacent(rs[i - 1], rs[i]) && rs[i - 1].start <= rs[i].start;
    }
  }

  // ---------------------------------------------------------------- validation

  /** The counting loop over all slots: it accepts exactly good ranges. */
  method Validate(rs: seq<Range>) returns (ok: bool)
    ensures ok <==> Good(rs)
  {
    var used := new bool[CLUSTER_SLOTS](i => false);
    for i := 0 to |rs|
      invariant Good(rs[..i])
      invariant forall x :: 0 <= x < CLUSTER_SLOTS ==> (used[x] <==> In(rs[..i], x))
    {
      ghost var sofar := rs[..i];
      assert !WellFormed(rs[i]) ==> !Good(rs);
      if rs[i].start >= CLUSTER_SLOTS || rs[i].end >= CLUSTER_SLOTS {
        return false;
      }
      if rs[i].start > rs[i].end {
        return false;
      }
      var j := rs[i].start;
      while j <= rs[i].end
        invariant rs[i].start <= j <= rs[i].end + 1
        invariant forall x :: 0 <= x < CLUSTER_SLOTS ==> (used[x] <==> In(sofar, x) || rs[i].start <= x < j)
        invariant forall x :: rs[i].start <= x < j ==> !In(sofar, x)
      {
        if used[j] {
          TakenTwice(rs, i, j);
          return false;
        }
        used[j] := true;
        j := j + 1;
      }
      AddedGood(rs, i);
    }
    assert rs[..|rs|] == rs;
    ok := true;
  }

  lemma TakenTwice(rs: seq<Range>, i: nat, x: nat)
    requires i < |rs| && In(rs[..i], x) && InRange(rs[i], x)
    ensures !Good(rs)
  {
    var k :| 0 <= k < i && InRange(rs[..i][k], x);
    assert !Apart(rs[k], rs[i]);
  }

  lemma AddedGood(rs: seq<Range>, i: nat)
    requires i < |rs| && Good(rs[..i]) && WellFormed(rs[i])
    requires forall x :: InRange(rs[i], x) ==> !In(rs[..i], x)
    ensures Good(rs[..i + 1])
    ensures forall x :: In(rs[..i + 1], x) <==> In(rs[..i], x) || InRange(rs[i], x)
  {
    var next := rs[..i + 1];
    forall k, m | 0 <= k < m < |next| ensures Apart(next[k], next[m]) {
      if m == i {
        ApartMeansNoCommonSlot(rs[k], rs[i]);
        assert forall x :: InRange(rs[..i][k], x) ==> In(rs[..i], x);
      } else {
        assert Apart(rs[..i][k], rs[..i][m]);
      }
    }
    forall x ensures In(next, x) <==> In(rs[..i], x) || InRange(rs[i], x) {
      if InRange(rs[i], x) { assert InRange(next[i], x); }
      if In(rs[..i], x) { var k :| 0 <= k < i && InRange(rs[..i][k], x); assert InRange(next[k], x); }
    }
    forall k | 0 <= k < |next| ensures WellFormed(next[k]) {
      if k < i { assert WellFormed(rs[..i][k]); }
    }
  }

  /** `slotRangeArrayNormalizeAndValidate`: sorts and merges in place, then validates. */
  method NormalizeAndValidate(a: array<Range>, n: nat) returns (ok: bool, m: nat, ghost sorted: seq<Range>)
    requires n <= a.Length
    modifies a
    ensures m <= n
    ensures n == 0 || n >= CLUSTER_SLOTS ==> !ok && m == n && a[..] == old(a[..])
    ensures 0 < n < CLUSTER_SLOTS ==>
              IsSortOf(sorted, old(a[..n])) && a[..m] == Merge(sorted) && (ok <==> Good(Merge(sorted)))
  {
    sorted := [];
    if n == 0 || n >= CLUSTER_SLOTS {
      return false, n, sorted;
    }
    m, sorted := SortAndMerge(a, n);
    ok := Validate(a[..m]);
  }

  lemma IndexMapped(s: seq<Range>, rs: seq<Range>)
    requires multiset(s) == multiset(rs)
    ensures Good(s) <==> Good(rs)
    ensures SameSlots(s, rs)
    ensures NoInvertedAdjoins(s) <==> NoInvertedAdjoins(rs)
  {
    SortMembers(s, rs);
    SameSlotsOf(s, rs);
    if Good(s) { GoodOf(s, rs); }
    if Good(rs) { GoodOf(rs, s); }
    if NoInvertedAdjoins(s) { AdjoinsOf(s, rs); }
    if NoInvertedAdjoins(rs) { AdjoinsOf(rs, s); }
  }

  lemma SameSlotsOf(s: seq<Range>, rs: seq<Range>)
    requires forall r :: r in s <==> r in rs
    ensures SameSlots(s, rs)
  {
    forall x ensures In(s, x) <==> In(rs, x) {
      if In(s, x) { var i :| 0 <= i < |s| && InRange(s[i], x); assert s[i] in rs; }
      if In(rs, x) { var i :| 0 <= i < |rs| && InRange(rs[i], x); assert rs[i] in s; }
    }
  }

  /** Two different places of a permutation come from two different places. */
  lemma TwoPlaces(s: seq<Range>, rs: seq<Range>, i: nat, j: nat) returns (p: nat, q: nat)
    requires multiset(s) == multiset(rs) && i < |rs| && j < |rs| && i != j
    ensures p < |s| && q < |s| && p != q && s[p] == rs[i] && s[q] == rs[j]
  {
    SortMembers(s, rs);
    assert rs[i] in s && rs[j] in s;
    p :| 0 <= p < |s| && s[p] == rs[i];
    if rs[i] != rs[j] {
      q :| 0 <= q < |s| && s[q] == rs[j];
    } else {
      q := SecondCopy(s, rs, i, j, p);
    }
  }

  lemma SecondCopy(s: seq<Range>, rs: seq<Range>, i: nat, j: nat, p: nat) returns (q: nat)
    requires multiset(s) == multiset(rs) && i < |rs| && j < |rs| && i != j && rs[i] == rs[j] && p < |s| && s[p] == rs[i]
    ensures q < |s| && q != p && s[q] == rs[i]
  {
    if i < j { CountTwo(rs, i, j); } else { CountTwo(rs, j, i); }
    CountOne(s, p);
    q :| 0 <= q < |s| && q != p && s[q] == rs[i];
  }

  lemma CountOne(s: seq<Range>, p: nat)
    requires p < |s|
    ensures multiset(s)[s[p]] >= 2 ==> exists q :: 0 <= q < |s| && q != p && s[q] == s[p]
  {
    assert s == s[..p] + [s[p]] + s[p + 1..];
    var a, b := s[..p], s[p + 1..];
    assert multiset(s) == multiset(a) + multiset{s[p]} + multiset(b);
    if multiset(s)[s[p]] >= 2 {
      assert s[p] in multiset(a) || s[p] in multiset(b);
      if s[p] in a {
        var q :| 0 <= q < |a| && a[q] == s[p];
        assert s[q] == s[p];
      } else {
        var q :| 0 <= q < |b| && b[q] == s[p];
        assert s[p + 1 + q] == s[p];
      }
    }
  }

  lemma CountTwo(s: seq<Range>, i: nat, j: nat)
    requires i < j < |s| && s[i] == s[j]
    ensures multiset(s)[s[i]] >= 2
  {
    assert s == s[..j] + s[j..];
    assert s[..j][i] in multiset(s[..j]);
    assert s[j..][0] in multiset(s[j..]);
    assert multiset(s) == multiset(s[..j]) + multiset(s[j..]);
  }

  lemma GoodOf(s: seq<Range>, rs: seq<Range>)
    requires multiset(s) == multiset(rs) && Good(s)
    ensures Good(rs)
  {
    SortMembers(s, rs);
    forall i | 0 <= i < |rs| ensures WellFormed(rs[i]) {
      assert rs[i] in s;
    }
    forall i, j | 0 <= i < j < |rs| ensures Apart(rs[i], rs[j]) {
      var p, q := TwoPlaces(s, rs, i, j);
      assert Apart(s[p], s[q]) || Apart(s[q], s[p]);
    }
  }

  lemma AdjoinsOf(s: seq<Range>, rs: seq<Range>)
    requires multiset(s) == multiset(rs) && NoInvertedAdjoins(s)
    ensures NoInvertedAdjoins(rs)
  {
    forall i, j | 0 <= i < |rs| && 0 <= j < |rs| && i != j && rs[i].end < rs[i].start
      ensures !Adjacent(rs[j], rs[i]) && !Adjacent(rs[i], rs[j])
    {
      var p, q := TwoPlaces(s, rs, i, j);
    }
  }

  /** Whatever order the sort gives equal starts, normalisation accepts exactly the well-formed and
      pairwise disjoint lists, keeps their slots and leaves a canonical array. Inverted ranges are
      no exception as long as they touch no other range. */
  lemma NormalizationIsExact(rs: seq<Range>, sorted: seq<Range>)
    requires NoInvertedAdjoins(rs) && IsSortOf(sorted, rs)
    ensures Good(Merge(sorted)) <==> Good(rs)
    ensures SameSlots(Merge(sorted), rs)
    ensures Good(rs) ==> Canonical(Merge(sorted))
  {
    hide Good, Merge, NoInvertedAdjoins;
    IndexMapped(sorted, rs);
    MergeKeeps(sorted);
    MergeIsMerged(sorted);
    if Good(rs) { GoodMergedIsCanonical(Merge(sorted)); }
  }

  /** In particular without inverted ranges. */
  lemma NoInvertedRanges(rs: seq<Range>)
    requires forall i :: 0 <= i < |rs| ==> rs[i].start <= rs[i].end
    ensures NoInvertedAdjoins(rs)
  {
  }

  /** An inverted range right after another range is merged before it is looked at: 5-9 and 10-7 are
      accepted as 5-7. */
  lemma InvertedRangeIsMergedAway(rs: seq<Range>)
    requires rs == [Range(5, 9), Range(10, 7)]
    ensures IsSortOf(rs, rs) && !AllWellFormed(rs) && Merge(rs) == [Range(5, 7)] && Good(Merge(rs))
    ensures !SameSlots(Merge(rs), rs)
  {
    assert rs[1..] == [Range(10, 7)] && rs[1..][1..] == [];
    var acc := [Range(5, 9)];
    assert Absorb(acc, rs[1]) == [Range(5, 7)];
    assert Fold(acc, rs[1..]) == Fold(Absorb(acc, rs[1]), []);
    assert InRange(rs[0], 9) && In(rs, 9);
    assert !In(Merge(rs), 9);
    assert !WellFormed(rs[1]);
  }

  lemma MergeThree(x: Range, y: Range, z: Range)
    ensures Merge([x, y, z]) == Absorb(Absorb([x], y), z)
  {
    hide Absorb;
    var s := [x, y, z];
    assert s[1..] == [y, z] && [y, z][1..] == [z] && [z][1..] == [];
    assert Fold(Absorb(Absorb([x], y), z), []) == Absorb(Absorb([x], y), z);
    assert Fold(Absorb([x], y), [z]) == Fold(Absorb(Absorb([x], y), z), []);
  }

  /** With inverted ranges no condition on the list alone can be exact: the answer depends on the order that the
      sort leaves to equal starts. */
  lemma SortDecidesInverted(x: Range, y: Range, z: Range)
    requires x == Range(1, 3) && y == Range(4, 3) && z == Range(4, 6)
    ensures IsSortOf([x, y, z], [x, y, z]) && IsSortOf([x, z, y], [x, y, z]) && !AllWellFormed([x, y, z])
    ensures Merge([x, y, z]) == [Range(1, 6)] && Good(Merge([x, y, z]))
    ensures Merge([x, z, y]) == [Range(1, 6), y] && !Good(Merge([x, z, y]))
  {
    hide Merge;
    MergeThree(x, y, z);
    assert Absorb([x], y) == [x] && Absorb([x], z) == [Range(1, 6)];
    MergeThree(x, z, y);
    assert Absorb([Range(1, 6)], y) == [Range(1, 6), y];
    SwapSame(x, y, z);
    NotAll([x, y, z], 1);
    NotAll([Range(1, 6), y], 1);
  }

  lemma SwapSame(x: Range, y: Range, z: Range)
    ensures multiset([x, z, y]) == multiset([x, y, z])
  {
  }

  lemma NotAll(rs: seq<Range>, i: nat)
    requires i < |rs| && !WellFormed(rs[i])
    ensures !AllWellFormed(rs) && !Good(rs)
  {
  }

  // ---------------------------------------------------------------- uniqueness

  lemma {:induction false} CanonicalOrder(rs: seq<Range>, i: nat, j: nat)
    requires Canonical(rs) && i < j < |rs|
    ensures rs[i].end + 1 < rs[j].start
    decreases j
  {
    if i + 1 < j {
      CanonicalOrder(rs, i, j - 1);
      assert WellFormed(rs[j - 1]);
    }
  }

  lemma CanonicalTail(rs: seq<Range>)
    requires Canonical(rs) && rs != []
    ensures Canonical(rs[1..])
    ensures forall x :: In(rs[1..], x) <==> In(rs, x) && x > rs[0].end
    ensures forall x :: In(rs, x) && x <= rs[0].end ==> InRange(rs[0], x)
  {
    var t := rs[1..];
    forall i | 0 <= i < |t| ensures t[i] == rs[i + 1] && rs[0].end + 1 < t[i].start && WellFormed(t[i]) {
      CanonicalOrder(rs, 0, i + 1);
    }
    forall i | 0 < i < |t| ensures t[i - 1].end + 1 < t[i].start {
      assert t[i - 1] == rs[i] && t[i] == rs[i + 1];
    }
    forall x ensures (In(t, x) <==> In(rs, x) && x > rs[0].end) && (In(rs, x) && x <= rs[0].end ==> InRange(rs[0], x)) {
      if In(t, x) { var i :| 0 <= i < |t| && InRange(t[i], x); assert InRange(rs[i + 1], x); }
      if In(rs, x) { var i :| 0 <= i < |rs| && InRange(rs[i], x); if i > 0 { assert InRange(t[i - 1], x); } }
    }
  }

  /** A set of slots has one canonical array. */
  lemma {:induction false} CanonicalIsUnique(a: seq<Range>, b: seq<Range>)
    requires Canonical(a) && Canonical(b) && SameSlots(a, b)
    ensures a == b
    decreases |a|
  {
    HasFirst(a);
    HasFirst(b);
    if a != [] && b != [] {
      FirstSame(a, b);
      CanonicalTail(a);
      CanonicalTail(b);
      CanonicalIsUnique(a[1..], b[1..]);
      assert a == [a[0]] + a[1..] && b == [b[0]] + b[1..];
    }
  }

  lemma HasFirst(rs: seq<Range>)
    requires Canonical(rs)
    ensures rs != [] ==> In(rs, rs[0].start)
    ensures rs == [] ==> forall x :: !In(rs, x)
  {
    if rs != [] { assert WellFormed(rs[0]) && InRange(rs[0], rs[0].start); }
  }

  lemma FirstSame(a: seq<Range>, b: seq<Range>)
    requires Canonical(a) && Canonical(b) && SameSlots(a, b) && a != [] && b != []
    ensures a[0] == b[0]
  {
    FirstNotBefore(a, b);
    FirstNotBefore(b, a);
    FirstNotLonger(a, b);
    FirstNotLonger(b, a);
  }

  lemma FirstNotBefore(a: seq<Range>, b: seq<Range>)
    requires Canonical(a) && Canonical(b) && SameSlots(a, b) && a != [] && b != []
    ensures b[0].start <= a[0].start
  {
    var x := a[0].start;
    assert WellFormed(a[0]) && InRange(a[0], x) && In(a, x) && In(b, x);
    var i :| 0 <= i < |b| && InRange(b[i], x);
    if i > 0 { CanonicalOrder(b, 0, i); assert WellFormed(b[0]); }
  }

  lemma FirstNotLonger(a: seq<Range>, b: seq<Range>)
    requires Canonical(a) && Canonical(b) && SameSlots(a, b) && a != [] && b != [] && a[0].start == b[0].start
    ensures a[0].end <= b[0].end
  {
    if a[0].end > b[0].end {
      var x := b[0].end + 1;
      assert WellFormed(b[0]) && InRange(a[0], x) && In(a, x) && In(b, x);
      CanonicalTail(b);
      assert In(b[1..], x);
      var i :| 0 <= i < |b[1..]| && InRange(b[1..][i], x);
      CanonicalOrder(b, 0, i + 1);
    }
  }

  // ---------------------------------------------------------------- equality and membership

  /** `slotRangeArrayIsEqual`: for good arrays, equality of what merging leaves is equality of slots. */
  lemma EqualMeansSameSlots(a: seq<Range>, b: seq<Range>, sa: seq<Range>, sb: seq<Range>)
    requires Good(a) && Good(b) && IsSortOf(sa, a) && IsSortOf(sb, b)
    ensures Merge(sa) == Merge(sb) <==> SameSlots(a, b)
  {
    hide Good, Merge, IsSortOf;
    GoodNotInverted(a);
    GoodNotInverted(b);
    NormalizationIsExact(a, sa);
    NormalizationIsExact(b, sb);
    if SameSlots(a, b) {
      CanonicalIsUnique(Merge(sa), Merge(sb));
    }
  }

  lemma GoodNotInverted(rs: seq<Range>)
    requires Good(rs)
    ensures NoInvertedAdjoins(rs)
  {
    forall i | 0 <= i < |rs| ensures rs[i].start <= rs[i].end {
      assert WellFormed(rs[i]);
    }
    NoInvertedRanges(rs);
  }

  method IsEqual(a: array<Range>, n: nat, b: array<Range>, k: nat) returns (same: bool, ghost sa: seq<Range>,
                 ghost sb: seq<Range>)
    requires n <= a.Length && k <= b.Length && a != b
    modifies a, b
    ensures IsSortOf(sa, old(a[..n])) && IsSortOf(sb, old(b[..k])) && (same <==> Merge(sa) == Merge(sb))
    ensures Good(old(a[..n])) && Good(old(b[..k])) ==> (same <==> SameSlots(old(a[..n]), old(b[..k])))
  {
    hide Good, Merge, SameSlots;
    ghost var was, wasB := a[..n], b[..k];
    var m, q;
    m, sa := SortAndMerge(a, n);
    assert b[..k] == wasB;
    q, sb := SortAndMerge(b, k);
    assert a[..m] == Merge(sa);
    if Good(was) && Good(wasB) {
      EqualMeansSameSlots(was, wasB, sa, sb);
    }
    if m != q {
      assert |Merge(sa)| != |Merge(sb)|;
      same := false;
      return;
    }
    for i := 0 to m
      invariant forall j :: 0 <= j < i ==> a[j] == b[j]
    {
      if a[i].start != b[i].start || a[i].end != b[i].end {
        assert Merge(sa)[i] != Merge(sb)[i];
        same := false;
        return;
      }
    }
    assert a[..m] == b[..q];
    same := true;
  }

  method Contains(rs: seq<Range>, slot: nat) returns (found: bool)
    ensures found <==> In(rs, slot)
  {
    for i := 0 to |rs|
      invariant forall k :: 0 <= k < i ==> !InRange(rs[k], slot)
    {
      if rs[i].start <= slot && rs[i].end >= slot {
        return true;
      }
    }
    return false;
  }

  // ---------------------------------------------------------------- appending

  function Append(rs: seq<Range>, slot: nat): (out: seq<Range>)
    requires rs != [] ==> Last(rs).end < slot
    ensures out != [] && Last(out).end == slot
  {
    if rs == [] then [Range(slot, slot)]
    else if slot == Last(rs).end + 1 then rs[|rs| - 1 := Range(Last(rs).start, slot)]
    else rs + [Range(slot, slot)]
  }

  /** Appending a slot after all others adds exactly that slot and keeps the array canonical. */
  lemma AppendAdds(rs: seq<Range>, slot: nat)
    requires Canonical(rs) && slot < CLUSTER_SLOTS && (rs != [] ==> Last(rs).end < slot)
    ensures Canonical(Append(rs, slot)) && forall x :: In(Append(rs, slot), x) <==> In(rs, x) || x == slot
  {
    var out := Append(rs, slot);
    forall i | 0 <= i < |rs| ensures WellFormed(rs[i]) {
    }
    forall x ensures In(out, x) <==> In(rs, x) || x == slot {
      if In(rs, x) {
        var i :| 0 <= i < |rs| && InRange(rs[i], x);
        assert InRange(out[i], x);
      }
      if x == slot { assert InRange(out[|out| - 1], x); }
      if In(out, x) {
        var i :| 0 <= i < |out| && InRange(out[i], x);
        if i < |rs| && x != slot { assert InRange(rs[i], x); }
      }
    }
  }

  /** The slots of the array before `x`. */
  ghost predicate Below(rs: seq<Range>, upper: nat) {
    rs != [] ==> Last(rs).end < upper
  }

  /** The loop of SFLUSH: the result is canonical and holds exactly the requested slots that are owned,
      and the assertion in `slotRangeArrayAppend` never fails. */
  method OwnedSlots(requested: seq<Range>, mustObey: bool, isMine: nat -> bool) returns (mine: seq<Range>)
    requires Canonical(requested)
    ensures Canonical(mine) && forall x :: In(mine, x) <==> In(requested, x) && x >= 0 && (mustObey || isMine(x))
  {
    mine := [];
    assert forall x :: !In(requested[..0], x);
    for i := 0 to |requested|
      invariant Canonical(mine) && Below(mine, if i == 0 then 0 else requested[i - 1].end + 1)
      invariant forall x :: In(mine, x) <==> In(requested[..i], x) && x >= 0 && (mustObey || isMine(x))
    {
      var r := requested[i];
      assert WellFormed(r);
      ghost var before := mine;
      var j := r.start;
      while j <= r.end
        invariant r.start <= j <= r.end + 1
        invariant Canonical(mine) && Below(mine, j)
        invariant forall x :: In(mine, x) <==> In(before, x) || (r.start <= x < j && (mustObey || isMine(x)))
      {
        if mustObey || isMine(j) {
          AppendAdds(mine, j);
          mine := Append(mine, j);
        }
        j := j + 1;
      }
      PrefixGrows(requested, i);
    }
    assert requested[..|requested|] == requested;
  }

  lemma PrefixGrows(rs: seq<Range>, i: nat)
    requires i < |rs|
    ensures forall x :: In(rs[..i + 1], x) <==> In(rs[..i], x) || InRange(rs[i], x)
  {
    forall x ensures In(rs[..i + 1], x) <==> In(rs[..i], x) || InRange(rs[i], x) {
      if In(rs[..i + 1], x) {
        var k :| 0 <= k < i + 1 && InRange(rs[..i + 1][k], x);
        if k < i { assert InRange(rs[..i][k], x); }
      }
      if In(rs[..i], x) {
        var k :| 0 <= k < i && InRange(rs[..i][k], x);
        assert InRange(rs[..i + 1][k], x);
      }
      if InRange(rs[i], x) { assert InRange(rs[..i + 1][i], x); }
    }
  }

  /** `clusterGetLocalSlotRanges` for a node with a master. */
  method LocalSlots(covers: nat -> bool) returns (mine: seq<Range>)
    ensures Canonical(mine) && forall x :: In(mine, x) <==> 0 <= x < CLUSTER_SLOTS && covers(x)
  {
    mine := [];
    for i := 0 to CLUSTER_SLOTS
      invariant Canonical(mine) && Below(mine, i)
      invariant forall x :: In(mine, x) <==> 0 <= x < i && covers(x)
    {
      if covers(i) {
        AppendAdds(mine, i);
        mine := Append(mine, i);
      }
    }
  }
}
