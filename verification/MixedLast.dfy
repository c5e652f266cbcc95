/**
 The automatic pick with mixed coins last (lij/lij-core/src/coin_select.rs, pick_mixed_last): what
 it picks in each of its three cases, when that is the best any set of coins can do, and the exact
 condition under which it never refuses an amount that some set covers.
 */
module MixedLast {
  import opened Prelude
  import opened CoinSelect

  predicate IsMixed(mixed: seq<bool>, i: nat) {
    i < |mixed| && mixed[i]
  }

  /** The indexes below `n` that are mixed, or that are not, in order. */
  function Select(mixed: seq<bool>, want: bool, n: nat): seq<nat> {
    if n == 0 then []
    else Select(mixed, want, n - 1) + (if IsMixed(mixed, n - 1) == want then [n - 1] else [])
  }

  function Gather(values: seq<nat>, idx: seq<nat>): seq<nat>
    requires Within(values, idx)
  {
    seq(|idx|, i requires 0 <= i < |idx| => values[idx[i]])
  }

  function Through(idx: seq<nat>, c: seq<nat>): seq<nat>
    requires Within(idx, c)
  {
    seq(|c|, i requires 0 <= i < |c| => idx[c[i]])
  }

  predicate Ascending(idx: seq<nat>) {
    forall i, j :: 0 <= i < j < |idx| ==> idx[i] < idx[j]
  }

  lemma {:induction false} SelectExact(mixed: seq<bool>, want: bool, n: nat)
    ensures Ascending(Select(mixed, want, n))
    ensures forall i: nat :: i in Select(mixed, want, n) <==> i < n && IsMixed(mixed, i) == want
    ensures forall k :: 0 <= k < |Select(mixed, want, n)| ==> Select(mixed, want, n)[k] < n
  {
    if n > 0 {
      SelectExact(mixed, want, n - 1);
      var s := Select(mixed, want, n - 1);
      var last := if IsMixed(mixed, n - 1) == want then [n - 1] else [];
      assert Select(mixed, want, n) == s + last;
      assert forall i: nat :: i in s + last <==> i in s || i in last;
    }
  }

  // ── Picking through an index list ────────────────────────────────────────

  lemma {:induction false} InsertThrough(values: seq<nat>, idx: seq<nat>, up: bool, x: nat, s: seq<nat>)
    requires Within(values, idx) && Ascending(idx) && Within(idx, s) && x < |idx|
    ensures Within(idx, Insert(Gather(values, idx), up, x, s))
    ensures Through(idx, Insert(Gather(values, idx), up, x, s)) == Insert(values, up, idx[x], Through(idx, s))
    decreases |s|
  {
    InsertMembers(Gather(values, idx), up, x, s);
    if s != [] {
      var g := Gather(values, idx);
      assert Before(g, up, x, s[0]) == Before(values, up, idx[x], idx[s[0]]) by {
        assert x < s[0] ==> idx[x] < idx[s[0]];
        assert s[0] < x ==> idx[s[0]] < idx[x];
      }
      assert Through(idx, s)[1..] == Through(idx, s[1..]);
      if !Before(g, up, x, s[0]) {
        InsertThrough(values, idx, up, x, s[1..]);
      }
    }
  }

  lemma {:induction false} SortedThrough(values: seq<nat>, idx: seq<nat>, up: bool, s: seq<nat>)
    requires Within(values, idx) && Ascending(idx) && Within(idx, s)
    ensures Within(idx, Sorted(Gather(values, idx), up, s))
    ensures Through(idx, Sorted(Gather(values, idx), up, s)) == Sorted(values, up, Through(idx, s))
    decreases |s|
  {
    if s != [] {
      SortedThrough(values, idx, up, s[1..]);
      InsertThrough(values, idx, up, s[0], Sorted(Gather(values, idx), up, s[1..]));
      assert Through(idx, s)[1..] == Through(idx, s[1..]);
    }
  }

  lemma {:induction false} FirstThrough(values: seq<nat>, idx: seq<nat>, s: seq<nat>, amount: nat)
    requires Within(values, idx) && Within(idx, s)
    ensures var r := FirstAtLeast(Gather(values, idx), s, amount);
            && (r.Some? ==> r.value < |idx|)
            && FirstAtLeast(values, Through(idx, s), amount) == if r.None? then None else Some(idx[r.value])
    decreases |s|
  {
    if s != [] {
      assert Through(idx, s)[1..] == Through(idx, s[1..]);
      FirstThrough(values, idx, s[1..], amount);
    }
  }

  lemma {:induction false} SumThrough(values: seq<nat>, idx: seq<nat>, s: seq<nat>)
    requires Within(values, idx) && Within(idx, s)
    ensures Sum(values, Through(idx, s)) == Sum(Gather(values, idx), s)
    decreases |s|
  {
    if s != [] {
      var n := |s| - 1;
      assert Through(idx, s)[..n] == Through(idx, s[..n]);
      SumThrough(values, idx, s[..n]);
    }
  }

  lemma {:induction false} TakeThrough(values: seq<nat>, idx: seq<nat>, s: seq<nat>, need: nat -> nat, k: nat)
    requires Within(values, idx) && Within(idx, s) && k <= |s|
    ensures var r := TakeUntil(Gather(values, idx), s, need, k);
            && (r.Some? ==> Within(idx, r.value))
            && TakeUntil(values, Through(idx, s), need, k) == if r.None? then None else Some(Through(idx, r.value))
    decreases |s| - k
  {
    if k < |s| {
      SumThrough(values, idx, s[..k + 1]);
      assert Through(idx, s)[..k + 1] == Through(idx, s[..k + 1]);
      TakeThrough(values, idx, s, need, k + 1);
    }
  }

  /** Picking from the gathered values and mapping back is picking among those indexes. */
  lemma PickThrough(values: seq<nat>, idx: seq<nat>, need: nat -> nat)
    requires Within(values, idx) && Ascending(idx)
    ensures var r := Pick(Gather(values, idx), need);
            && (r.Some? ==> Within(idx, r.value))
            && PickAmong(values, idx, need) == if r.None? then None else Some(Through(idx, r.value))
  {
    var all := Range(|idx|);
    assert Through(idx, all) == idx;
    SortedThrough(values, idx, true, all);
    SortedThrough(values, idx, false, all);
    FirstThrough(values, idx, Sorted(Gather(values, idx), true, all), need(1));
    TakeThrough(values, idx, Sorted(Gather(values, idx), false, all), need, 0);
    var first := FirstAtLeast(Gather(values, idx), Sorted(Gather(values, idx), true, all), need(1));
    if first.Some? {
      assert Through(idx, [first.value]) == [idx[first.value]];
    }
  }

  // ── pick_mixed_last ──────────────────────────────────────────────────────

  function Plain(values: seq<nat>, mixed: seq<bool>): (s: seq<nat>)
    ensures Within(values, s) && Ascending(s)
  {
    SelectExact(mixed, false, |values|);
    Select(mixed, false, |values|)
  }

  function Mixed(values: seq<nat>, mixed: seq<bool>): (s: seq<nat>)
    ensures Within(values, s) && Ascending(s)
  {
    SelectExact(mixed, true, |values|);
    Select(mixed, true, |values|)
  }

  /** Every plain coin, largest first, then every mixed coin, largest first. */
  function LastResort(values: seq<nat>, mixed: seq<bool>): (s: seq<nat>)
    ensures Within(values, s)
  {
    Sorted(values, false, Plain(values, mixed)) + Sorted(values, false, Mixed(values, mixed))
  }

  function PickMixedLast(values: seq<nat>, mixed: seq<bool>, need: nat -> nat): Option<seq<nat>> {
    var plain := Plain(values, mixed);
    match Pick(Gather(values, plain), need)
    case Some(c) =>
      PickThrough(values, plain, need);
      Some(Through(plain, c))
    case None =>
      match FirstAtLeast(values, Sorted(values, true, Mixed(values, mixed)), need(1))
      case Some(i) => Some([i])
      case None => TakeUntil(values, LastResort(values, mixed), need, 0)
  }

  /** The source's loops: the plain pick mapped back, the smallest mixed coin, the last resort. */
  method PickCoinsMixedLast(values: seq<nat>, mixed: seq<bool>, need: nat -> nat) returns (r: Option<seq<nat>>)
    requires FitsU64(values) && forall n :: need(n) <= U64_MAX
    ensures r == PickMixedLast(values, mixed, need)
  {
    var plain := SplitIndexes(mixed, false, |values|);
    SelectExact(mixed, false, |values|);
    var plainValues := Gather(values, plain);
    var picked := PickCoins(plainValues, need);
    if picked.Some? {
      PickThrough(values, plain, need);
      return Some(Through(plain, picked.value));
    }
    var mixedIdx := SplitIndexes(mixed, true, |values|);
    SelectExact(mixed, true, |values|);
    var mixedAsc := Sorted(values, true, mixedIdx);
    var one := need(1);
    var single := FindSingle(values, mixedAsc, one);
    if single.Some? {
      return Some([single.value]);
    }
    var order := Sorted(values, false, plain) + Sorted(values, false, mixedIdx);
    r := TakeCoins(values, order, need);
  }

  method SplitIndexes(mixed: seq<bool>, want: bool, n: nat) returns (s: seq<nat>)
    ensures s == Select(mixed, want, n)
  {
    s := [];
    for i := 0 to n
      invariant s == Select(mixed, want, i)
    {
      if IsMixed(mixed, i) == want {
        s := s + [i];
      }
    }
  }

  ghost function PlainSet(values: seq<nat>, mixed: seq<bool>): set<nat> {
    set i | 0 <= i < |values| && !IsMixed(mixed, i)
  }

  ghost function MixedSet(values: seq<nat>, mixed: seq<bool>): set<nat> {
    set i | 0 <= i < |values| && IsMixed(mixed, i)
  }

  lemma SplitSets(values: seq<nat>, mixed: seq<bool>)
    ensures Distinct(Plain(values, mixed)) && ToSet(Plain(values, mixed)) == PlainSet(values, mixed)
    ensures Distinct(Mixed(values, mixed)) && ToSet(Mixed(values, mixed)) == MixedSet(values, mixed)
    ensures |PlainSet(values, mixed)| == |Plain(values, mixed)|
  {
    SelectExact(mixed, false, |values|);
    SelectExact(mixed, true, |values|);
    ListSum(values, Plain(values, mixed));
  }

  ghost predicate SomePlainCovers(values: seq<nat>, mixed: seq<bool>, need: nat -> nat) {
    exists s :: s <= PlainSet(values, mixed) && Covers(values, need, s)
  }

  ghost predicate SomeMixedAlone(values: seq<nat>, mixed: seq<bool>, need: nat -> nat) {
    exists y :: y in MixedSet(values, mixed) && values[y] >= need(1)
  }

  /** The first case: some plain set covers, and the answer is the optimal pick among plain coins. */
  lemma PlainCase(values: seq<nat>, mixed: seq<bool>, need: nat -> nat)
    ensures var r := Pick(Gather(values, Plain(values, mixed)), need);
            r.Some? <==> SomePlainCovers(values, mixed, need)
    ensures SomePlainCovers(values, mixed, need) ==>
              var r := PickMixedLast(values, mixed, need);
              r.Some? && OptimalPick(values, PlainSet(values, mixed), need, r.value)
  {
    SplitSets(values, mixed);
    PickThrough(values, Plain(values, mixed), need);
    PickAmongOptimal(values, Plain(values, mixed), need);
  }

  /** The second: else some mixed coin covers alone, and the answer is the smallest such coin. */
  lemma SingleMixedCase(values: seq<nat>, mixed: seq<bool>, need: nat -> nat)
    requires !SomePlainCovers(values, mixed, need)
    ensures FirstAtLeast(values, Sorted(values, true, Mixed(values, mixed)), need(1)).Some? <==> SomeMixedAlone(values, mixed, need)
    ensures SomeMixedAlone(values, mixed, need) ==>
              var r := PickMixedLast(values, mixed, need);
              r.Some? && |r.value| == 1 && OptimalPick(values, MixedSet(values, mixed), need, r.value)
  {
    SplitSets(values, mixed);
    PlainCase(values, mixed, need);
    var up := Sorted(values, true, Mixed(values, mixed));
    SortedIsSort(values, true, Mixed(values, mixed));
    FirstAtLeastIsFirst(values, up, need(1));
    var first := FirstAtLeast(values, up, need(1));
    if first.Some? {
      SingleOptimal(values, MixedSet(values, mixed), need, first.value);
    }
  }

  lemma LastResortOrder(values: seq<nat>, mixed: seq<bool>)
    ensures Distinct(LastResort(values, mixed))
    ensures var n := |PlainSet(values, mixed)|;
            n <= |LastResort(values, mixed)| && ToSet(LastResort(values, mixed)[..n]) == PlainSet(values, mixed)
    ensures ToSet(LastResort(values, mixed)) <= PlainSet(values, mixed) + MixedSet(values, mixed)
  {
    var a, b := LastResortHalves(values, mixed);
    assert (a + b)[..|a|] == a;
    DisjointLists(a, b);
  }

  lemma DisjointLists(a: seq<nat>, b: seq<nat>)
    requires Distinct(a) && Distinct(b) && ToSet(a) !! ToSet(b)
    ensures Distinct(a + b) && ToSet(a + b) == ToSet(a) + ToSet(b)
  {
    forall i, j | 0 <= i < |a| && 0 <= j < |b| ensures a[i] != b[j] {
      assert a[i] in ToSet(a) && b[j] in ToSet(b);
    }
  }

  /** A list and some coins of a second, largest first, are worth no more than as many coins of the
      two lists joined. */
  lemma JoinedIsMost(values: seq<nat>, a: seq<nat>, b: seq<nat>, more: set<nat>)
    requires Within(values, a) && Within(values, b) && Distinct(a) && Distinct(b) && ToSet(a) !! ToSet(b)
    requires InOrder(values, false, b) && more <= ToSet(b)
    ensures var n := |a| + |more|;
            && Within(values, a + b) && n <= |a + b| && |ToSet(a) + more| == n
            && Total(values, ToSet(a) + more) <= Sum(values, (a + b)[..n])
  {
    LargestFirstIsMost(values, b, more);
    ListSum(values, a);
    assert Coins(values, more);
    TotalUnion(values, ToSet(a), more);
    var top := b[..|more|];
    PrefixList(values, b, |more|);
    JoinSum(values, a, top);
    assert (a + b)[..|a| + |more|] == a + top;
  }

  /** The two halves of the last resort. */
  lemma LastResortHalves(values: seq<nat>, mixed: seq<bool>) returns (a: seq<nat>, b: seq<nat>)
    ensures Within(values, a) && Within(values, b) && Distinct(a) && Distinct(b)
    ensures ToSet(a) == PlainSet(values, mixed) && ToSet(b) == MixedSet(values, mixed)
    ensures InOrder(values, false, a) && InOrder(values, false, b) && LastResort(values, mixed) == a + b && |a| == |PlainSet(values, mixed)|
  {
    SplitSets(values, mixed);
    SortedIsSort(values, false, Plain(values, mixed));
    SortedIsSort(values, false, Mixed(values, mixed));
    a, b := Sorted(values, false, Plain(values, mixed)), Sorted(values, false, Mixed(values, mixed));
  }

  /** All plain coins with some mixed coins are worth no more than as many coins of the last resort. */
  lemma LastResortIsMost(values: seq<nat>, mixed: seq<bool>, more: set<nat>)
    requires more <= MixedSet(values, mixed)
    ensures var n := |PlainSet(values, mixed)| + |more|;
            && n <= |LastResort(values, mixed)|
            && |PlainSet(values, mixed) + more| == n
            && Total(values, PlainSet(values, mixed) + more) <= Sum(values, LastResort(values, mixed)[..n])
  {
    var a, b := LastResortHalves(values, mixed);
    JoinedIsMost(values, a, b, more);
  }

  lemma JoinSum(values: seq<nat>, a: seq<nat>, b: seq<nat>)
    requires Within(values, a) && Within(values, b) && Distinct(a) && Distinct(b) && ToSet(a) !! ToSet(b)
    ensures Within(values, a + b) && Sum(values, a + b) == Total(values, ToSet(a)) + Total(values, ToSet(b))
  {
    DisjointLists(a, b);
    ListSum(values, a + b);
    ListSum(values, a);
    ListSum(values, b);
    TotalUnion(values, ToSet(a), ToSet(b));
  }

  /** A covering prefix of the last resort goes past the plain coins, none of whose prefixes cover. */
  lemma LastResortHoldsPlain(values: seq<nat>, mixed: seq<bool>, need: nat -> nat, n: nat)
    requires !SomePlainCovers(values, mixed, need)
    requires 1 <= n <= |LastResort(values, mixed)| && Sum(values, LastResort(values, mixed)[..n]) >= need(n)
    ensures var c := LastResort(values, mixed)[..n];
            && Distinct(c) && |ToSet(c)| == n && Covers(values, need, ToSet(c))
            && PlainSet(values, mixed) <= ToSet(c) <= PlainSet(values, mixed) + MixedSet(values, mixed)
  {
    LastResortOrder(values, mixed);
    var order, c := LastResort(values, mixed), LastResort(values, mixed)[..n];
    PrefixList(values, order, n);
    assert c[0] in ToSet(c);
    var head := order[..|PlainSet(values, mixed)|];
    assert n <= |head| ==> c <= head;
    assert n <= |head| ==> ToSet(c) <= ToSet(head);
    assert n > |head|;
    assert head <= c;
    assert forall i :: i in head ==> i in c;
  }

  /** Every plain coin and the least number of mixed coins any set with every plain coin needs. */
  ghost predicate PlainAndFewest(values: seq<nat>, mixed: seq<bool>, need: nat -> nat, c: seq<nat>) {
    && Distinct(c) && |ToSet(c)| == |c| && Covers(values, need, ToSet(c))
    && PlainSet(values, mixed) <= ToSet(c) <= PlainSet(values, mixed) + MixedSet(values, mixed)
    && forall more :: more <= MixedSet(values, mixed) && Covers(values, need, PlainSet(values, mixed) + more) ==>
         |c| <= |PlainSet(values, mixed)| + |more|
  }

  lemma TakenHasFewest(values: seq<nat>, mixed: seq<bool>, need: nat -> nat, more: set<nat>)
    requires more <= MixedSet(values, mixed) && Covers(values, need, PlainSet(values, mixed) + more)
    ensures var r := TakeUntil(values, LastResort(values, mixed), need, 0);
            r.Some? && |r.value| <= |PlainSet(values, mixed)| + |more|
  {
    LastResortIsMost(values, mixed, more);
    TakeUntilIsShortest(values, LastResort(values, mixed), need, 0);
  }

  lemma TakenIsFewest(values: seq<nat>, mixed: seq<bool>, need: nat -> nat)
    requires !SomePlainCovers(values, mixed, need)
    ensures var r := TakeUntil(values, LastResort(values, mixed), need, 0);
            && (r.None? <==> forall more :: more <= MixedSet(values, mixed) ==> !Covers(values, need, PlainSet(values, mixed) + more))
            && (r.Some? ==> PlainAndFewest(values, mixed, need, r.value))
  {
    var r := TakeUntil(values, LastResort(values, mixed), need, 0);
    forall more | more <= MixedSet(values, mixed) && Covers(values, need, PlainSet(values, mixed) + more)
      ensures r.Some? && |r.value| <= |PlainSet(values, mixed)| + |more|
    {
      TakenHasFewest(values, mixed, need, more);
    }
    if r.Some? {
      TakeUntilIsShortest(values, LastResort(values, mixed), need, 0);
      LastResortHoldsPlain(values, mixed, need, |r.value|);
      SplitCover(values, mixed, r.value);
      assert Covers(values, need, PlainSet(values, mixed) + MixedPart(mixed, ToSet(r.value)));
    }
  }

  /** The third: neither covers. The answer holds every plain coin and the fewest mixed coins; there
      is none exactly when no set with every plain coin covers. */
  lemma LastCase(values: seq<nat>, mixed: seq<bool>, need: nat -> nat)
    requires !SomePlainCovers(values, mixed, need) && !SomeMixedAlone(values, mixed, need)
    ensures var r := PickMixedLast(values, mixed, need);
            && (r.None? <==> forall more :: more <= MixedSet(values, mixed) ==> !Covers(values, need, PlainSet(values, mixed) + more))
            && (r.Some? ==> PlainAndFewest(values, mixed, need, r.value))
  {
    PlainCase(values, mixed, need);
    SingleMixedCase(values, mixed, need);
    TakenIsFewest(values, mixed, need);
  }

  /** Plain coins before mixed ones, and each kind largest first, equal values by index. */
  ghost predicate KindOrdered(values: seq<nat>, mixed: seq<bool>, s: seq<nat>)
    requires Within(values, s)
  {
    forall i, j :: 0 <= i < j < |s| ==>
      && (IsMixed(mixed, s[i]) ==> IsMixed(mixed, s[j]))
      && (IsMixed(mixed, s[i]) == IsMixed(mixed, s[j]) ==> Before(values, false, s[i], s[j]))
  }

  lemma LastResortSorted(values: seq<nat>, mixed: seq<bool>, k: nat)
    requires k <= |LastResort(values, mixed)|
    ensures KindOrdered(values, mixed, LastResort(values, mixed)[..k])
  {
    var a, b := LastResortHalves(values, mixed);
    forall i | 0 <= i < |a| ensures !IsMixed(mixed, a[i]) {
      assert a[i] in ToSet(a);
    }
    forall i | 0 <= i < |b| ensures IsMixed(mixed, b[i]) {
      assert b[i] in ToSet(b);
    }
  }

  /** The third case answers in that order. */
  lemma LastCaseOrder(values: seq<nat>, mixed: seq<bool>, need: nat -> nat)
    requires !SomePlainCovers(values, mixed, need) && !SomeMixedAlone(values, mixed, need)
    ensures var r := PickMixedLast(values, mixed, need);
            r.Some? ==> Within(values, r.value) && KindOrdered(values, mixed, r.value)
  {
    PlainCase(values, mixed, need);
    SingleMixedCase(values, mixed, need);
    var r := TakeUntil(values, LastResort(values, mixed), need, 0);
    if r.Some? {
      TakeUntilIsShortest(values, LastResort(values, mixed), need, 0);
      LastResortSorted(values, mixed, |r.value|);
    }
  }

  /** Whatever is picked is a covering list of distinct coins. */
  lemma PickedCovers(values: seq<nat>, mixed: seq<bool>, need: nat -> nat)
    ensures var r := PickMixedLast(values, mixed, need);
            r.Some? ==> Distinct(r.value) && |ToSet(r.value)| == |r.value| && Covers(values, need, ToSet(r.value))
  {
    PlainCase(values, mixed, need);
    if !SomePlainCovers(values, mixed, need) {
      SingleMixedCase(values, mixed, need);
      if !SomeMixedAlone(values, mixed, need) {
        LastCase(values, mixed, need);
      }
    }
  }

  // ── When the answer is the best of all sets ──────────────────────────────

  ghost function MixedPart(mixed: seq<bool>, s: set<nat>): set<nat> {
    set i | i in s && IsMixed(mixed, i)
  }

  /** A list with every plain coin and no coin outside has the rest of its coins mixed. */
  lemma SplitCover(values: seq<nat>, mixed: seq<bool>, c: seq<nat>)
    requires PlainSet(values, mixed) <= ToSet(c) <= PlainSet(values, mixed) + MixedSet(values, mixed)
    ensures ToSet(c) == PlainSet(values, mixed) + MixedPart(mixed, ToSet(c))
    ensures MixedPart(mixed, ToSet(c)) <= MixedSet(values, mixed)
    ensures |ToSet(c)| == |PlainSet(values, mixed)| + |MixedPart(mixed, ToSet(c))|
  {
  }

  /** Every plain coin is worth at least what one more input adds to the need. */
  ghost predicate PlainWorth(values: seq<nat>, mixed: seq<bool>, need: nat -> nat) {
    forall i, n :: i in PlainSet(values, mixed) && n >= 1 ==> need(n + 1) <= need(n) + values[i]
  }

  lemma {:induction false} WorthKeepsCover(values: seq<nat>, mixed: seq<bool>, need: nat -> nat, s: set<nat>, extra: set<nat>)
    requires PlainWorth(values, mixed, need) && Covers(values, need, s)
    requires extra <= PlainSet(values, mixed) && s !! extra
    ensures Covers(values, need, s + extra)
    decreases |extra|
  {
    if extra == {} {
      assert s + extra == s;
    } else {
      var y :| y in extra;
      WorthKeepsCover(values, mixed, need, s, extra - {y});
      var t := s + extra;
      assert t - {y} == s + (extra - {y});
      TotalRemove(values, t, y);
    }
  }

  ghost predicate FewestMixed(values: seq<nat>, mixed: seq<bool>, need: nat -> nat, c: seq<nat>) {
    && Covers(values, need, ToSet(c))
    && forall s :: Covers(values, need, s) ==> |MixedPart(mixed, ToSet(c))| <= |MixedPart(mixed, s)|
  }

  /** When every plain coin is worth its input: None exactly when no set covers, and otherwise no
      covering set has fewer mixed coins. */
  lemma PickHasFewestMixed(values: seq<nat>, mixed: seq<bool>, need: nat -> nat)
    requires PlainWorth(values, mixed, need)
    ensures var r := PickMixedLast(values, mixed, need);
            && (r.None? <==> forall s :: !Covers(values, need, s))
            && (r.Some? ==> FewestMixed(values, mixed, need, r.value))
  {
    var r := PickMixedLast(values, mixed, need);
    PlainCase(values, mixed, need);
    if SomePlainCovers(values, mixed, need) {
      assert MixedPart(mixed, ToSet(r.value)) == {};
      assert FewestMixed(values, mixed, need, r.value);
    } else {
      SingleMixedCase(values, mixed, need);
      if SomeMixedAlone(values, mixed, need) {
        AloneIsFewest(values, mixed, need, r.value);
        assert FewestMixed(values, mixed, need, r.value);
      } else {
        LastCase(values, mixed, need);
        LastIsFewest(values, mixed, need, r);
        assert r.Some? ==> Covers(values, need, ToSet(r.value));
      }
    }
  }

  lemma WorthReducesToPlain(values: seq<nat>, mixed: seq<bool>, need: nat -> nat, s: set<nat>)
    requires PlainWorth(values, mixed, need) && Covers(values, need, s)
    ensures MixedPart(mixed, s) <= MixedSet(values, mixed)
    ensures Covers(values, need, PlainSet(values, mixed) + MixedPart(mixed, s))
  {
    var plain := PlainSet(values, mixed);
    WorthKeepsCover(values, mixed, need, s, plain - s);
    assert s + (plain - s) == plain + MixedPart(mixed, s);
  }

  lemma LastIsFewest(values: seq<nat>, mixed: seq<bool>, need: nat -> nat, r: Option<seq<nat>>)
    requires PlainWorth(values, mixed, need)
    requires r.None? ==> forall more :: more <= MixedSet(values, mixed) ==> !Covers(values, need, PlainSet(values, mixed) + more)
    requires r.Some? ==> PlainAndFewest(values, mixed, need, r.value)
    ensures r.None? ==> forall s :: !Covers(values, need, s)
    ensures r.Some? ==> FewestMixed(values, mixed, need, r.value)
  {
    forall s | Covers(values, need, s)
      ensures r.Some? && |r.value| <= |PlainSet(values, mixed)| + |MixedPart(mixed, s)|
    {
      WorthReducesToPlain(values, mixed, need, s);
    }
    if r.Some? {
      SplitCover(values, mixed, r.value);
    }
  }

  lemma AloneIsFewest(values: seq<nat>, mixed: seq<bool>, need: nat -> nat, c: seq<nat>)
    requires !SomePlainCovers(values, mixed, need) && |c| == 1
    ensures forall s :: Covers(values, need, s) ==> |MixedPart(mixed, ToSet(c))| <= |MixedPart(mixed, s)|
  {
    assert ToSet(c) == {c[0]};
    assert MixedPart(mixed, {c[0]}) == {} || MixedPart(mixed, {c[0]}) == {c[0]};
    forall s | Covers(values, need, s) ensures MixedPart(mixed, s) != {} {
      assert !(s <= PlainSet(values, mixed));
      var i :| i in s && i !in PlainSet(values, mixed);
      assert i in MixedPart(mixed, s);
    }
  }

  // ── Exactly when no coverable amount is refused ──────────────────────────

  /** An amount plus a fee per input: the need of every caller. */
  function Linear(amount: nat, fee: nat): nat -> nat {
    (n: nat) => amount + fee * n
  }

  /** What a set of coins is worth after paying for its own inputs. */
  ghost function Net(values: seq<nat>, fee: nat, s: set<nat>): int {
    Total(values, s) - fee * |s|
  }

  /** The coins worth more than their input. */
  ghost function Worth(values: seq<nat>, fee: nat): set<nat> {
    set i | 0 <= i < |values| && values[i] > fee
  }

  lemma NetUnion(values: seq<nat>, fee: nat, a: set<nat>, b: set<nat>)
    requires Coins(values, a) && Coins(values, b) && a !! b
    ensures Net(values, fee, a + b) == Net(values, fee, a) + Net(values, fee, b)
  {
    TotalUnion(values, a, b);
    assert fee * (|a| + |b|) == fee * |a| + fee * |b|;
  }

  lemma {:induction false} NetSign(values: seq<nat>, fee: nat, s: set<nat>)
    requires Coins(values, s)
    ensures (forall i :: i in s ==> values[i] <= fee) ==>
              Net(values, fee, s) <= 0 && forall i :: i in s && values[i] < fee ==> Net(values, fee, s) < 0
    ensures (forall i :: i in s ==> values[i] > fee) ==> Net(values, fee, s) >= |s|
    ensures (forall i :: i in s ==> values[i] >= fee) ==> Net(values, fee, s) >= 0
    decreases |s|
  {
    if s == {} {
      TotalEmptyUpTo(values, |values|);
    } else {
      var z :| z in s && ((exists i :: i in s && values[i] < fee) ==> values[z] < fee);
      NetSign(values, fee, s - {z});
      NetUnion(values, fee, s - {z}, {z});
      SingleTotal(values, z);
      assert s - {z} + {z} == s;
    }
  }

  /** No set nets more than the coins worth their input, and one that leaves out such a coin or
      holds a coin worth less than its input nets less. */
  lemma WorthNetsMost(values: seq<nat>, fee: nat, s: set<nat>)
    requires Coins(values, s)
    ensures Net(values, fee, s) <= Net(values, fee, Worth(values, fee))
    ensures !(Worth(values, fee) <= s) ==> Net(values, fee, s) < Net(values, fee, Worth(values, fee))
    ensures forall i :: i in s && values[i] < fee ==> Net(values, fee, s) < Net(values, fee, Worth(values, fee))
  {
    var q := Worth(values, fee);
    NetUnion(values, fee, s * q, s - q);
    NetUnion(values, fee, s * q, q - s);
    assert s * q + (s - q) == s && s * q + (q - s) == q;
    NetSign(values, fee, s - q);
    NetSign(values, fee, q - s);
    assert !(q <= s) ==> q - s != {};
    assert forall i :: i in s && values[i] < fee ==> i in s - q;
  }

  /** Leaving out coins worth no more than their input keeps a set covering. */
  lemma DropKeepsCover(values: seq<nat>, amount: nat, fee: nat, s: set<nat>, t: set<nat>)
    requires Covers(values, Linear(amount, fee), s) && t <= s && t != {}
    requires forall i :: i in s - t ==> values[i] <= fee
    ensures Covers(values, Linear(amount, fee), t)
  {
    NetUnion(values, fee, t, s - t);
    assert t + (s - t) == s;
    NetSign(values, fee, s - t);
  }

  /** Known before any amount is: every plain coin is worth its input, or no mixed coin is worth
      more than its input, or at most one coin is. */
  ghost predicate NothingRefused(values: seq<nat>, mixed: seq<bool>, fee: nat) {
    || (forall i :: i in PlainSet(values, mixed) ==> values[i] >= fee)
    || Worth(values, fee) !! MixedSet(values, mixed)
    || |Worth(values, fee)| <= 1
  }

  ghost predicate CompleteFor(values: seq<nat>, mixed: seq<bool>, need: nat -> nat) {
    PickMixedLast(values, mixed, need).None? ==> forall s :: !Covers(values, need, s)
  }

  lemma CoveredAlone(values: seq<nat>, mixed: seq<bool>, need: nat -> nat, y: nat)
    requires Covers(values, need, {y})
    ensures SomePlainCovers(values, mixed, need) || SomeMixedAlone(values, mixed, need)
  {
    SingleTotal(values, y);
    if IsMixed(mixed, y) {
      assert y in MixedSet(values, mixed);
    } else {
      assert {y} <= PlainSet(values, mixed);
    }
  }

  /** A covering set when no mixed coin, or at most one coin, is worth more than its input: the
      first two cases answer. */
  lemma EarlyCases(values: seq<nat>, mixed: seq<bool>, amount: nat, fee: nat, s: set<nat>)
    requires Worth(values, fee) !! MixedSet(values, mixed) || |Worth(values, fee)| <= 1
    requires Covers(values, Linear(amount, fee), s)
    ensures SomePlainCovers(values, mixed, Linear(amount, fee)) || SomeMixedAlone(values, mixed, Linear(amount, fee))
  {
    var need := Linear(amount, fee);
    var plain := s * PlainSet(values, mixed);
    if Worth(values, fee) !! MixedSet(values, mixed) && plain != {} {
      assert forall i :: i in s - plain ==> i in MixedSet(values, mixed) && i !in Worth(values, fee);
      DropKeepsCover(values, amount, fee, s, plain);
    } else {
      var y :| y in s && (s * Worth(values, fee) != {} ==> y in Worth(values, fee));
      OnlyOne(values, mixed, fee, s, y);
      DropKeepsCover(values, amount, fee, s, {y});
      CoveredAlone(values, mixed, need, y);
    }
  }

  lemma OnlyOne(values: seq<nat>, mixed: seq<bool>, fee: nat, s: set<nat>, y: nat)
    requires Coins(values, s) && y in s && (s * Worth(values, fee) != {} ==> y in Worth(values, fee))
    requires |Worth(values, fee)| <= 1 || (Worth(values, fee) !! MixedSet(values, mixed) && s * PlainSet(values, mixed) == {})
    ensures forall i :: i in s - {y} ==> values[i] <= fee
  {
    forall i | i in s && values[i] > fee ensures i == y {
      assert i in s * Worth(values, fee);
      assert i in PlainSet(values, mixed) || i in MixedSet(values, mixed);
      if i != y {
        SubsetSize({i, y}, Worth(values, fee));
      }
    }
  }

  lemma {:induction false} SubsetSize(a: set<nat>, b: set<nat>)
    requires a <= b
    ensures |a| <= |b|
    decreases |a|
  {
    if a != {} {
      var x :| x in a;
      SubsetSize(a - {x}, b - {x});
    }
  }

  /** Otherwise the amount that the coins worth their input carry exactly is refused. */
  lemma RefusesBestNet(values: seq<nat>, mixed: seq<bool>, fee: nat)
    requires !NothingRefused(values, mixed, fee)
    ensures var q := Worth(values, fee);
            && Net(values, fee, q) >= 0
            && Covers(values, Linear(Net(values, fee, q), fee), q)
            && PickMixedLast(values, mixed, Linear(Net(values, fee, q), fee)).None?
  {
    var q := Worth(values, fee);
    NetSign(values, fee, q);
    var need := Linear(Net(values, fee, q), fee);
    var low :| low in PlainSet(values, mixed) && values[low] < fee;
    var top :| top in q && top in MixedSet(values, mixed);
    forall s | Covers(values, need, s) ensures top in s && q <= s && low !in s {
      WorthNetsMost(values, fee, s);
    }
    forall y | y in MixedSet(values, mixed) ensures values[y] < need(1) {
      SingleTotal(values, y);
      WorthNetsMost(values, fee, {y});
      if q <= {y} {
        SubsetSize(q, {y});
      }
    }
    LastCase(values, mixed, need);
  }

  /** pick_mixed_last answers every amount that some set covers, at a fee per input, exactly when
      NothingRefused holds of the coins. */
  lemma CompleteIff(values: seq<nat>, mixed: seq<bool>, fee: nat)
    ensures (forall amount: nat :: CompleteFor(values, mixed, Linear(amount, fee))) <==> NothingRefused(values, mixed, fee)
  {
    if NothingRefused(values, mixed, fee) {
      forall amount: nat ensures CompleteFor(values, mixed, Linear(amount, fee)) {
        CompleteAt(values, mixed, amount, fee);
      }
    } else {
      RefusesBestNet(values, mixed, fee);
      var q := Worth(values, fee);
      assert !CompleteFor(values, mixed, Linear(Net(values, fee, q), fee));
    }
  }

  lemma CompleteAt(values: seq<nat>, mixed: seq<bool>, amount: nat, fee: nat)
    requires NothingRefused(values, mixed, fee)
    ensures CompleteFor(values, mixed, Linear(amount, fee))
  {
    var need := Linear(amount, fee);
    if forall i :: i in PlainSet(values, mixed) ==> values[i] >= fee {
      forall n: nat ensures need(n + 1) == need(n) + fee {
        assert fee * (n + 1) == fee * n + fee;
      }
      PickHasFewestMixed(values, mixed, need);
    } else {
      PlainCase(values, mixed, need);
      if !SomePlainCovers(values, mixed, need) {
        SingleMixedCase(values, mixed, need);
      }
      forall s | Covers(values, need, s) ensures PickMixedLast(values, mixed, need).Some? {
        EarlyCases(values, mixed, amount, fee, s);
      }
    }
  }

  lemma AnswersCovered(values: seq<nat>, mixed: seq<bool>, need: nat -> nat, amount: nat, fee: nat)
    requires need == Linear(amount, fee) && NothingRefused(values, mixed, fee)
    requires exists s :: Covers(values, need, s)
    ensures PickMixedLast(values, mixed, need).Some?
  {
    CompleteAt(values, mixed, amount, fee);
    assert CompleteFor(values, mixed, need);
  }

  // ── Exactly which amounts are answered ───────────────────────────────────

  lemma NetWithin(values: seq<nat>, fee: nat, s: set<nat>, among: set<nat>)
    requires Coins(values, among) && s <= among
    ensures Net(values, fee, s) <= Net(values, fee, Worth(values, fee) * among)
  {
    var q := Worth(values, fee);
    NetUnion(values, fee, s * q, s - q);
    NetUnion(values, fee, s * q, (among - s) * q);
    assert s * q + (s - q) == s && s * q + (among - s) * q == q * among;
    NetSign(values, fee, s - q);
    NetSign(values, fee, (among - s) * q);
  }

  lemma NetOfNone(values: seq<nat>, fee: nat)
    ensures Net(values, fee, {}) == 0
  {
    NetSign(values, fee, {});
    TotalEmptyUpTo(values, |values|);
  }

  ghost predicate CoverWithin(values: seq<nat>, need: nat -> nat, among: set<nat>) {
    exists s :: s <= among && Covers(values, need, s)
  }

  /** Some of the coins cover a positive amount exactly when it is at most what those of them worth
      their input carry. */
  lemma CoverWithinIff(values: seq<nat>, amount: nat, fee: nat, among: set<nat>)
    requires Coins(values, among) && amount > 0
    ensures CoverWithin(values, Linear(amount, fee), among) <==> amount <= Net(values, fee, Worth(values, fee) * among)
  {
    var need, best := Linear(amount, fee), Worth(values, fee) * among;
    if CoverWithin(values, need, among) {
      var s :| s <= among && Covers(values, need, s);
      NetWithin(values, fee, s, among);
    }
    if amount <= Net(values, fee, best) {
      NetOfNone(values, fee);
      assert best <= among && Covers(values, need, best);
    }
  }

  /** Every plain coin and the mixed coins worth their input. */
  ghost function LastSet(values: seq<nat>, mixed: seq<bool>, fee: nat): set<nat> {
    PlainSet(values, mixed) + Worth(values, fee) * MixedSet(values, mixed)
  }

  lemma LastCovers(values: seq<nat>, mixed: seq<bool>, amount: nat, fee: nat)
    requires amount > 0
    ensures (exists more :: more <= MixedSet(values, mixed) && Covers(values, Linear(amount, fee), PlainSet(values, mixed) + more)) <==>
            amount <= Net(values, fee, LastSet(values, mixed, fee))
  {
    var plain, all, need := PlainSet(values, mixed), MixedSet(values, mixed), Linear(amount, fee);
    var best := Worth(values, fee) * all;
    NetUnion(values, fee, plain, best);
    if more :| more <= all && Covers(values, need, plain + more) {
      NetUnion(values, fee, plain, more);
      NetWithin(values, fee, more, all);
    }
    if amount <= Net(values, fee, plain + best) {
      NetOfNone(values, fee);
      assert best <= all && Covers(values, need, plain + best);
    }
  }

  /** An amount within what the plain coins carry, or one mixed coin, or all plain coins with the
      mixed coins worth their input. */
  ghost predicate Affords(values: seq<nat>, mixed: seq<bool>, amount: int, fee: nat) {
    || amount <= Net(values, fee, Worth(values, fee) * PlainSet(values, mixed))
    || (exists y :: y in MixedSet(values, mixed) && amount + fee <= values[y])
    || amount <= Net(values, fee, LastSet(values, mixed, fee))
  }

  /** pick_mixed_last answers a positive amount, at a fee per input, exactly when the coins afford it. */
  lemma AnswersIff(values: seq<nat>, mixed: seq<bool>, amount: nat, fee: nat)
    requires amount > 0
    ensures PickMixedLast(values, mixed, Linear(amount, fee)).Some? <==> Affords(values, mixed, amount, fee)
  {
    var need := Linear(amount, fee);
    assert need(1) == amount + fee;
    PlainCase(values, mixed, need);
    CoverWithinIff(values, amount, fee, PlainSet(values, mixed));
    assert SomePlainCovers(values, mixed, need) <==> CoverWithin(values, need, PlainSet(values, mixed));
    if !SomePlainCovers(values, mixed, need) {
      SingleMixedCase(values, mixed, need);
      LastCovers(values, mixed, amount, fee);
      if !SomeMixedAlone(values, mixed, need) {
        LastCase(values, mixed, need);
      }
    }
  }

  ghost function All(values: seq<nat>): set<nat> {
    ToSet(Range(|values|))
  }

  lemma AllHolds(values: seq<nat>)
    ensures forall i: nat :: i in All(values) <==> i < |values|
  {
    forall i: nat | i < |values| ensures i in All(values) {
      assert Range(|values|)[i] == i;
    }
  }

  /** Where nothing coverable is refused, that is what the coins worth their input carry. */
  lemma AffordsBest(values: seq<nat>, mixed: seq<bool>, amount: nat, fee: nat)
    requires NothingRefused(values, mixed, fee) && amount > 0
    ensures Affords(values, mixed, amount, fee) <==> amount <= Net(values, fee, Worth(values, fee))
  {
    var need := Linear(amount, fee);
    AnswersIff(values, mixed, amount, fee);
    CompleteAt(values, mixed, amount, fee);
    PickedCovers(values, mixed, need);
    AllHolds(values);
    CoverWithinIff(values, amount, fee, All(values));
    assert Worth(values, fee) * All(values) == Worth(values, fee);
    assert forall s :: Covers(values, need, s) ==> s <= All(values);
  }

  /** All the coins together never carry more than the last resort does. */
  lemma LastSetNets(values: seq<nat>, mixed: seq<bool>, fee: nat)
    ensures Net(values, fee, All(values)) <= Net(values, fee, LastSet(values, mixed, fee))
  {
    var plain, all := PlainSet(values, mixed), MixedSet(values, mixed);
    AllHolds(values);
    assert plain + all == All(values);
    NetUnion(values, fee, plain, all);
    NetUnion(values, fee, plain, Worth(values, fee) * all);
    NetWithin(values, fee, all, all);
  }

  /** The coins not worth more than their input. */
  ghost function Dust(values: seq<nat>, fee: nat): set<nat> {
    All(values) - Worth(values, fee)
  }

  /** Where nothing coverable is refused, an amount above what all the coins carry is afforded exactly
      when the excess is at most what the coins not worth their input cost. */
  lemma AffordsExcess(values: seq<nat>, mixed: seq<bool>, amount: nat, excess: int, fee: nat)
    requires NothingRefused(values, mixed, fee) && 0 < amount == Net(values, fee, All(values)) + excess
    ensures Affords(values, mixed, amount, fee) <==> excess <= -Net(values, fee, Dust(values, fee))
  {
    AffordsBest(values, mixed, amount, fee);
    AllHolds(values);
    NetUnion(values, fee, Worth(values, fee), Dust(values, fee));
    assert Worth(values, fee) + Dust(values, fee) == All(values);
  }

  /** Two mixed coins of 100 carry 180 at a fee of 10 an input; with a plain coin of 1 beside them
      the pick refuses 180. */
  lemma DustBlocksMixedCoins()
    ensures Covers([1, 100, 100], Linear(180, 10), {1, 2})
    ensures PickMixedLast([1, 100, 100], [false, true, true], Linear(180, 10)).None?
  {
    var values, mixed := [1, 100, 100], [false, true, true];
    assert Worth(values, 10) == {1, 2};
    assert 0 in PlainSet(values, mixed) && 1 in MixedSet(values, mixed) && 1 in Worth(values, 10);
    RefusesBestNet(values, mixed, 10);
    TwoMixedCoins();
  }

  lemma TwoMixedCoins()
    ensures Net([1, 100, 100], 10, {1, 2}) == 180
  {
    NetUnion([1, 100, 100], 10, {1}, {2});
    assert {1} + {2} == {1, 2};
    SingleTotal([1, 100, 100], 1);
    SingleTotal([1, 100, 100], 2);
  }
}
